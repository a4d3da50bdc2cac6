/**
  Ids for tool calls that the agent left without one: results take the ids of the calls in the order they were made.
*/
module CallIds {
  import opened Optional
  import opened Sequences

  // ----- ids -----

  function Digit(d: nat): char
    requires d < 10
  {
    "0123456789"[d]
  }

  function Decimal(n: nat): string {
    if n < 10 then [Digit(n)] else Decimal(n / 10) + [Digit(n % 10)]
  }

  function Prefix(conversation: string): string {
    "agy_call_" + conversation + "_"
  }

  function CallId(conversation: string, n: nat): string {
    Prefix(conversation) + Decimal(n)
  }

  function OrphanId(conversation: string, n: nat): string {
    Prefix(conversation) + ("orphan_" + Decimal(n))
  }

  /** The number a string of digits stands for. */
  function ValueOf(s: string): int {
    if s == "" then 0 else 10 * ValueOf(s[..|s| - 1]) + (s[|s| - 1] as int - '0' as int)
  }

  /** Digits, without leading zeros, that stand for n. */
  predicate IsNumeral(s: string, n: nat) {
    && s != "" && (forall k | 0 <= k < |s| :: '0' <= s[k] <= '9')
    && (s[0] == '0' ==> |s| == 1) && ValueOf(s) == n
  }

  lemma DigitIs(d: nat)
    requires d < 10
    ensures Digit(d) as int == '0' as int + d
  {
  }

  lemma {:induction false} DecimalIsNumeral(n: nat)
    ensures IsNumeral(Decimal(n), n) && (n > 0 ==> Decimal(n)[0] != '0')
  {
    DigitIs(n % 10);
    if n < 10 {
      assert [Digit(n)][..0] == "";
      assert ValueOf("") == 0;
    } else {
      DecimalIsNumeral(n / 10);
      var s := Decimal(n);
      assert s[..|s| - 1] == Decimal(n / 10);
    }
  }

  lemma {:induction false} DecimalInjective(a: nat, b: nat)
    requires Decimal(a) == Decimal(b)
    ensures a == b
    decreases a + b
  {
    DecimalShape(a);
    DecimalShape(b);
    var da, db := Decimal(a), Decimal(b);
    assert da[|da| - 1] == db[|db| - 1];
    assert a % 10 == b % 10;
    if a >= 10 && b >= 10 {
      assert da[..|da| - 1] == Decimal(a / 10) && db[..|db| - 1] == Decimal(b / 10);
      DecimalInjective(a / 10, b / 10);
    } else if a >= 10 {
      DecimalShape(a / 10);
    } else if b >= 10 {
      DecimalShape(b / 10);
    }
  }

  lemma {:induction false} DecimalShape(n: nat)
    ensures |Decimal(n)| > 0 && Decimal(n)[|Decimal(n)| - 1] == Digit(n % 10)
    ensures '0' <= Decimal(n)[0] <= '9'
  {
    if n >= 10 {
      DecimalShape(n / 10);
    }
  }

  lemma CallIdInjective(conversation: string, a: nat, b: nat)
    ensures CallId(conversation, a) == CallId(conversation, b) <==> a == b
  {
    if CallId(conversation, a) == CallId(conversation, b) {
      SamePrefix(Prefix(conversation), Decimal(a), Decimal(b));
      DecimalInjective(a, b);
    }
  }

  lemma OrphanIdInjective(conversation: string, a: nat, b: nat)
    ensures OrphanId(conversation, a) == OrphanId(conversation, b) <==> a == b
  {
    if OrphanId(conversation, a) == OrphanId(conversation, b) {
      SamePrefix(Prefix(conversation), "orphan_" + Decimal(a), "orphan_" + Decimal(b));
      SamePrefix("orphan_", Decimal(a), Decimal(b));
      DecimalInjective(a, b);
    }
  }

  /** The id of a call is never the id of a result that had no call. */
  lemma NeverOrphan(conversation: string, a: nat, b: nat)
    ensures CallId(conversation, a) != OrphanId(conversation, b)
  {
    var orphan := "orphan_" + Decimal(b);
    assert orphan[0] == 'o';
    DecimalShape(a);
    if CallId(conversation, a) == OrphanId(conversation, b) {
      SamePrefix(Prefix(conversation), Decimal(a), orphan);
    }
  }

  // ----- one run of the allocator -----

  datatype Op = Claim | Match

  datatype State = State(claims: nat, orphans: nat, pending: seq<string>)

  const FRESH := State(0, 0, [])

  function After(conversation: string, s: State, op: Op): State {
    match op
    case Claim => State(s.claims + 1, s.orphans, s.pending + [CallId(conversation, s.claims)])
    case Match => if s.pending != [] then s.(pending := s.pending[1..]) else s.(orphans := s.orphans + 1)
  }

  function Answer(conversation: string, s: State, op: Op): string {
    match op
    case Claim => CallId(conversation, s.claims)
    case Match => if s.pending != [] then s.pending[0] else OrphanId(conversation, s.orphans)
  }

  /** The state after `n` operations of a fresh allocator. */
  function StateAt(conversation: string, ops: seq<Op>, n: nat): State
    requires n <= |ops|
  {
    if n == 0 then FRESH else After(conversation, StateAt(conversation, ops, n - 1), ops[n - 1])
  }

  /** What operation `i` returns. */
  function Output(conversation: string, ops: seq<Op>, i: nat): string
    requires i < |ops|
  {
    Answer(conversation, StateAt(conversation, ops, i), ops[i])
  }

  // ----- the same, by counting -----

  function Claims(ops: seq<Op>, n: nat): nat
    requires n <= |ops|
  {
    if n == 0 then 0 else Claims(ops, n - 1) + if ops[n - 1] == Claim then 1 else 0
  }

  /** The matches, among the first `n` operations, that had a call to take. */
  function Paired(ops: seq<Op>, n: nat): nat
    requires n <= |ops|
  {
    if n == 0 then 0
    else Paired(ops, n - 1) + if ops[n - 1] == Match && Paired(ops, n - 1) < Claims(ops, n - 1) then 1 else 0
  }

  predicate Orphan(ops: seq<Op>, i: nat)
    requires i < |ops|
  {
    ops[i] == Match && Paired(ops, i) >= Claims(ops, i)
  }

  function Orphans(ops: seq<Op>, n: nat): nat
    requires n <= |ops|
  {
    if n == 0 then 0 else Orphans(ops, n - 1) + if Orphan(ops, n - 1) then 1 else 0
  }

  function Ids(conversation: string, from: nat, upTo: nat): seq<string>
    requires from <= upTo
  {
    if from == upTo then [] else Ids(conversation, from, upTo - 1) + [CallId(conversation, upTo - 1)]
  }

  lemma {:induction false} IdsFirst(conversation: string, from: nat, upTo: nat)
    requires from < upTo
    ensures Ids(conversation, from, upTo) == [CallId(conversation, from)] + Ids(conversation, from + 1, upTo)
    decreases upTo
  {
    if from + 1 < upTo {
      IdsFirst(conversation, from, upTo - 1);
    }
  }

  lemma {:induction false} StateByCounting(conversation: string, ops: seq<Op>, n: nat)
    requires n <= |ops|
    ensures Paired(ops, n) <= Claims(ops, n)
    ensures StateAt(conversation, ops, n) ==
            State(Claims(ops, n), Orphans(ops, n), Ids(conversation, Paired(ops, n), Claims(ops, n)))
  {
    if n > 0 {
      StateByCounting(conversation, ops, n - 1);
      if Paired(ops, n - 1) < Claims(ops, n - 1) {
        IdsFirst(conversation, Paired(ops, n - 1), Claims(ops, n - 1));
      }
    }
  }

  /** Main result: claims return ids 0, 1, 2 and so on; the results that have a call take these ids in the same order;
      and the others get numbers of their own. */
  lemma OutputByCounting(conversation: string, ops: seq<Op>, i: nat)
    requires i < |ops|
    ensures Output(conversation, ops, i) ==
            if ops[i] == Claim then CallId(conversation, Claims(ops, i))
            else if Orphan(ops, i) then OrphanId(conversation, Orphans(ops, i))
            else CallId(conversation, Paired(ops, i))
  {
    StateByCounting(conversation, ops, i);
    if Paired(ops, i) < Claims(ops, i) {
      IdsFirst(conversation, Paired(ops, i), Claims(ops, i));
    }
  }

  lemma {:induction false} CountsGrow(ops: seq<Op>, i: nat, j: nat)
    requires i < j <= |ops|
    ensures Claims(ops, i) + (if ops[i] == Claim then 1 else 0) <= Claims(ops, j)
    ensures Paired(ops, i) + (if ops[i] == Match && !Orphan(ops, i) then 1 else 0) <= Paired(ops, j)
    ensures Orphans(ops, i) + (if Orphan(ops, i) then 1 else 0) <= Orphans(ops, j)
    decreases j
  {
    if i < j - 1 {
      CountsGrow(ops, i, j - 1);
    }
  }

  /** Main result: no id is given to two calls, and none to two results. */
  lemma NoIdTwice(conversation: string, ops: seq<Op>, i: nat, j: nat)
    requires i < j < |ops| && ops[i] == ops[j]
    ensures Output(conversation, ops, i) != Output(conversation, ops, j)
  {
    OutputByCounting(conversation, ops, i);
    OutputByCounting(conversation, ops, j);
    CountsGrow(ops, i, j);
    CallIdInjective(conversation, Claims(ops, i), Claims(ops, j));
    CallIdInjective(conversation, Paired(ops, i), Paired(ops, j));
    OrphanIdInjective(conversation, Orphans(ops, i), Orphans(ops, j));
    NeverOrphan(conversation, Paired(ops, i), Orphans(ops, j));
    NeverOrphan(conversation, Paired(ops, j), Orphans(ops, i));
  }

  /** A result carries the id of a call exactly when it takes a call, and that is the one with as many calls before it
      as there are paired results before the result; the call came first. */
  lemma AnswersCall(conversation: string, ops: seq<Op>, c: nat, r: nat)
    requires c < |ops| && r < |ops| && ops[c] == Claim && ops[r] == Match
    ensures Output(conversation, ops, c) == Output(conversation, ops, r) <==>
            !Orphan(ops, r) && Claims(ops, c) == Paired(ops, r)
    ensures Output(conversation, ops, c) == Output(conversation, ops, r) ==> c < r
  {
    OutputByCounting(conversation, ops, c);
    OutputByCounting(conversation, ops, r);
    CallIdInjective(conversation, Claims(ops, c), Paired(ops, r));
    NeverOrphan(conversation, Claims(ops, c), Orphans(ops, r));
    if r < c {
      CountsGrow(ops, r, c);
    }
  }

  lemma {:induction false} PrefixState(conversation: string, a: seq<Op>, b: seq<Op>, n: nat)
    requires n <= |a|
    ensures StateAt(conversation, a + b, n) == StateAt(conversation, a, n)
  {
    if n > 0 {
      PrefixState(conversation, a, b, n - 1);
    }
  }

  /** Replaying a beginning of a run returns the same ids, whatever followed it. */
  lemma PrefixReplays(conversation: string, a: seq<Op>, b: seq<Op>, i: nat)
    requires i < |a|
    ensures Output(conversation, a + b, i) == Output(conversation, a, i)
  {
    PrefixState(conversation, a, b, i);
  }

  // ----- the program -----

  /** A tool call of a step; one without a name or readable arguments is not emitted. */
  datatype ToolCall = ToolCall(emitted: bool, realId: Option<string>)

  /** The emitted calls that need an id. */
  function Claimed(calls: seq<ToolCall>, n: nat): nat
    requires n <= |calls|
  {
    if n == 0 then 0 else Claimed(calls, n - 1) + if calls[n - 1].emitted && calls[n - 1].realId.None? then 1 else 0
  }

  /** The ids of the emitted calls among the first `n`, when `from` calls were claimed before. */
  function EmittedIds(conversation: string, from: nat, calls: seq<ToolCall>, n: nat): seq<string>
    requires n <= |calls|
  {
    if n == 0 then []
    else
      EmittedIds(conversation, from, calls, n - 1) +
      if !calls[n - 1].emitted then []
      else if calls[n - 1].realId.Some? then [calls[n - 1].realId.value]
      else [CallId(conversation, from + Claimed(calls, n - 1))]
  }

  /** The places of the emitted calls before call k, and of those among them that have no id of their own. */
  function Emitted(calls: seq<ToolCall>, k: nat): set<nat>
    requires k <= |calls|
  {
    set j | 0 <= j < k && calls[j].emitted
  }

  function WithoutId(calls: seq<ToolCall>, k: nat): set<nat>
    requires k <= |calls|
  {
    set j | 0 <= j < k && calls[j].emitted && calls[j].realId.None?
  }

  ghost predicate IdFor(conversation: string, number: nat, call: ToolCall, id: string) {
    if call.realId.Some? then id == call.realId.value else IsCallId(conversation, number, id)
  }

  /** Call k, if emitted, has its id behind those of the emitted calls before it. */
  ghost predicate IdAt(conversation: string, from: nat, calls: seq<ToolCall>, ids: seq<string>, k: nat)
    requires k < |calls|
  {
    calls[k].emitted ==>
      |Emitted(calls, k)| < |ids| &&
      IdFor(conversation, from + |WithoutId(calls, k)|, calls[k], ids[|Emitted(calls, k)|])
  }

  /** Main result: one id for each emitted call, in order: its own, or that of the next number. */
  lemma {:induction false} EmittedExactly(conversation: string, from: nat, calls: seq<ToolCall>, n: nat)
    requires n <= |calls|
    ensures |EmittedIds(conversation, from, calls, n)| == |Emitted(calls, n)|
    ensures Claimed(calls, n) == |WithoutId(calls, n)|
    ensures forall k :: 0 <= k < n ==> IdAt(conversation, from, calls, EmittedIds(conversation, from, calls, n), k)
  {
    if n > 0 {
      EmittedExactly(conversation, from, calls, n - 1);
      EmittedStep(calls, n - 1);
      var ids, all := EmittedIds(conversation, from, calls, n - 1), EmittedIds(conversation, from, calls, n);
      forall k | 0 <= k < n - 1 ensures IdAt(conversation, from, calls, all, k) {
        assert IdAt(conversation, from, calls, ids, k) && ids <= all;
      }
      LastEmitted(conversation, from, calls, n - 1, ids, all);
    } else {
      assert Emitted(calls, 0) == {} && WithoutId(calls, 0) == {};
    }
  }

  lemma LastEmitted(conversation: string, from: nat, calls: seq<ToolCall>, n: nat, ids: seq<string>, all: seq<string>)
    requires n < |calls| && |ids| == |Emitted(calls, n)| && Claimed(calls, n) == |WithoutId(calls, n)|
    requires calls[n].emitted ==>
               all == ids + [if calls[n].realId.Some? then calls[n].realId.value
                             else CallId(conversation, from + Claimed(calls, n))]
    ensures IdAt(conversation, from, calls, all, n)
  {
    CallIdText(conversation, from + Claimed(calls, n));
  }

  lemma EmittedStep(calls: seq<ToolCall>, n: nat)
    requires n < |calls|
    ensures |Emitted(calls, n + 1)| == |Emitted(calls, n)| + if calls[n].emitted then 1 else 0
    ensures |WithoutId(calls, n + 1)| ==
            |WithoutId(calls, n)| + if calls[n].emitted && calls[n].realId.None? then 1 else 0
  {
    var more := if calls[n].emitted then {n} else {};
    var later := if calls[n].emitted && calls[n].realId.None? then {n} else {};
    assert Emitted(calls, n + 1) == Emitted(calls, n) + more && Emitted(calls, n) !! more;
    assert WithoutId(calls, n + 1) == WithoutId(calls, n) + later && WithoutId(calls, n) !! later;
  }

  /** The text of an id: fixed words, the conversation, and a number in digits. */
  ghost predicate IsCallId(conversation: string, number: nat, id: string) {
    exists digits :: IsNumeral(digits, number) && id == "agy_call_" + conversation + "_" + digits
  }

  ghost predicate IsOrphanId(conversation: string, number: nat, id: string) {
    exists digits :: IsNumeral(digits, number) && id == "agy_call_" + conversation + "_orphan_" + digits
  }

  lemma CallIdText(conversation: string, n: nat)
    ensures IsCallId(conversation, n, CallId(conversation, n))
  {
    DecimalIsNumeral(n);
  }

  lemma OrphanText(conversation: string, n: nat)
    ensures IsOrphanId(conversation, n, OrphanId(conversation, n))
  {
    DecimalIsNumeral(n);
    assert OrphanId(conversation, n) == "agy_call_" + conversation + "_orphan_" + Decimal(n);
  }

  lemma IdsNext(conversation: string, from: nat, n: nat)
    requires from <= n
    ensures Ids(conversation, from, n + 1) == Ids(conversation, from, n) + [CallId(conversation, n)]
  {
  }

  class Allocator {
    const conversation: string
    var invocationCount: nat
    var orphanOutputCount: nat
    var pendingCallIds: seq<string>

    ghost function Now(): State
      reads this
    {
      State(invocationCount, orphanOutputCount, pendingCallIds)
    }

    constructor (conversation: string)
      ensures this.conversation == conversation && Now() == FRESH
    {
      this.conversation := conversation;
      invocationCount, orphanOutputCount, pendingCallIds := 0, 0, [];
    }

    method ClaimCallId() returns (id: string)
      modifies this
      ensures id == Answer(conversation, old(Now()), Claim) && Now() == After(conversation, old(Now()), Claim)
      ensures IsCallId(conversation, old(invocationCount), id)
      ensures invocationCount == old(invocationCount) + 1 && orphanOutputCount == old(orphanOutputCount)
      ensures pendingCallIds == old(pendingCallIds) + [id]
    {
      CallIdText(conversation, invocationCount);
      id := CallId(conversation, invocationCount);
      invocationCount := invocationCount + 1;
      pendingCallIds := pendingCallIds + [id];
    }

    method MatchOutputId() returns (id: string)
      modifies this
      ensures id == Answer(conversation, old(Now()), Match) && Now() == After(conversation, old(Now()), Match)
      ensures old(pendingCallIds) != [] ==>
                && [id] + pendingCallIds == old(pendingCallIds)
                && invocationCount == old(invocationCount) && orphanOutputCount == old(orphanOutputCount)
      ensures old(pendingCallIds) == [] ==>
                && IsOrphanId(conversation, old(orphanOutputCount), id)
                && pendingCallIds == [] && invocationCount == old(invocationCount)
                && orphanOutputCount == old(orphanOutputCount) + 1
    {
      OrphanText(conversation, orphanOutputCount);
      if pendingCallIds != [] {
        id := pendingCallIds[0];
        pendingCallIds := pendingCallIds[1..];
        return;
      }
      id := OrphanId(conversation, orphanOutputCount);
      orphanOutputCount := orphanOutputCount + 1;
    }

    /** The calls of one step: only an emitted call without an id claims one. */
    method FunctionCallIds(calls: seq<ToolCall>) returns (ids: seq<string>)
      modifies this
      ensures ids == EmittedIds(conversation, old(invocationCount), calls, |calls|)
      ensures invocationCount == old(invocationCount) + Claimed(calls, |calls|)
      ensures orphanOutputCount == old(orphanOutputCount)
      ensures pendingCallIds == old(pendingCallIds) + Ids(conversation, old(invocationCount), invocationCount)
    {
      ids := [];
      for n := 0 to |calls|
        invariant ids == EmittedIds(conversation, old(invocationCount), calls, n)
        invariant invocationCount == old(invocationCount) + Claimed(calls, n)
        invariant orphanOutputCount == old(orphanOutputCount)
        invariant pendingCallIds == old(pendingCallIds) + Ids(conversation, old(invocationCount), invocationCount)
      {
        if !calls[n].emitted {
          continue;
        }
        if calls[n].realId.Some? {
          ids := ids + [calls[n].realId.value];
        } else {
          IdsNext(conversation, old(invocationCount), invocationCount);
          var id := ClaimCallId();
          ids := ids + [id];
        }
      }
    }

    method FunctionCallOutputId(realId: Option<string>) returns (id: string)
      modifies this
      ensures realId.Some? ==> id == realId.value && Now() == old(Now())
      ensures realId.None? ==>
              id == Answer(conversation, old(Now()), Match) && Now() == After(conversation, old(Now()), Match)
    {
      if realId.Some? {
        return realId.value;
      }
      id := MatchOutputId();
    }
  }
}
