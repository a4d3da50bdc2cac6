/** The interaction bridge. */
module Bridge {
  import opened Optional
  import opened Sequences

  // The interaction bridge: surface a waiting step to the human, and deliver the verdict to a server whose
  // waiting steps time out and come back under higher indices.

  datatype Kind = AskQuestion | Permission

  /** A step waiting for an answer. */
  datatype Pending = Pending(kind: Kind, trajectory: nat, index: int, spec: nat)

  /** One read of the trajectory: for every step, the interaction it waits for, if any. */
  type Snapshot = seq<Option<Pending>>

  /** The identity an elicitation id is derived from, within one cascade. */
  datatype Key = Key(trajectory: nat, index: int)

  function KeyOf(p: Pending): Key {
    Key(p.trajectory, p.index)
  }

  datatype Verdict = Verdict(answer: nat)

  datatype DeliveryOutcome = Delivered | NotRegistered | OtherError

  /**
    Everything the loop learns from outside.  `snapshot(0)` is the read that detected the first step; iteration
    `a` reads `snapshot(2a + 1)` before it delivers and `snapshot(2a + 2)` after a delivery that came too late.
  */
  datatype Env = Env(snapshot: nat -> Snapshot, verdicts: nat -> Option<Verdict>, deliveries: nat -> DeliveryOutcome)

  datatype Action =
    | Surface(step: Pending)
    | Deliver(target: Pending, kind: Kind, spec: nat, verdict: Verdict, outcome: DeliveryOutcome)

  // ----- picking a step out of a snapshot -----

  predicate Eligible(s: Option<Pending>, kind: Kind, after: Option<int>) {
    s.Some? && s.value.kind == kind && (after.Some? ==> s.value.index > after.value)
  }

  /** The eligible step of highest index; the earliest of those that tie. */
  function Freshest(steps: Snapshot, kind: Kind, after: Option<int>): Option<Pending> {
    if steps == [] then None
    else
      var n := |steps| - 1;
      var best := Freshest(steps[..n], kind, after);
      if Eligible(steps[n], kind, after) && (best.None? || steps[n].value.index > best.value.index) then steps[n]
      else best
  }

  lemma {:induction false} FreshestIs(steps: Snapshot, kind: Kind, after: Option<int>)
    ensures var r := Freshest(steps, kind, after);
      && (r.Some? ==> r in steps && Eligible(r, kind, after))
      && forall s :: s in steps && Eligible(s, kind, after) ==> r.Some? && s.value.index <= r.value.index
  {
    if steps != [] {
      var n := |steps| - 1;
      FreshestIs(steps[..n], kind, after);
      assert steps == steps[..n] + [steps[n]];
    }
  }

  method FreshestWaiting(steps: Snapshot, kind: Kind, after: Option<int>) returns (best: Option<Pending>)
    ensures best == Freshest(steps, kind, after)
  {
    best := None;
    for k := 0 to |steps|
      invariant best == Freshest(steps[..k], kind, after)
    {
      assert steps[..k + 1][..k] == steps[..k];
      var pending := steps[k];
      if pending.None? {
        continue;
      }
      if after.Some? && pending.value.index <= after.value {
        continue;
      }
      if pending.value.kind != kind {
        continue;
      }
      if best.None? || pending.value.index > best.value.index {
        best := pending;
      }
    }
    assert steps[..|steps|] == steps;
  }

  /** The first step waiting under a key. */
  function At(steps: Snapshot, key: Key): Option<Pending> {
    if steps == [] then None
    else if steps[0].Some? && KeyOf(steps[0].value) == key then steps[0]
    else At(steps[1..], key)
  }

  lemma {:induction false} AtIs(steps: Snapshot, key: Key)
    ensures At(steps, key).Some? ==> At(steps, key) in steps && KeyOf(At(steps, key).value) == key
    ensures forall s :: s in steps && s.Some? && KeyOf(s.value) == key ==> At(steps, key).Some?
  {
    if steps != [] {
      AtIs(steps[1..], key);
      assert steps == [steps[0]] + steps[1..];
    }
  }

  method WaitingStepAt(steps: Snapshot, trajectory: nat, index: int) returns (r: Option<Pending>)
    ensures r == At(steps, Key(trajectory, index))
  {
    for k := 0 to |steps|
      invariant At(steps, Key(trajectory, index)) == At(steps[k..], Key(trajectory, index))
    {
      assert steps[k..][1..] == steps[k + 1..];
      if steps[k].Some? && steps[k].value.trajectory == trajectory && steps[k].value.index == index {
        return steps[k];
      }
    }
    r := None;
  }

  // ----- the loop -----

  /** The step a verdict goes to: the one surfaced if it still waits, else the freshest of its kind. */
  function Target(env: Env, current: Pending, a: nat): Option<Pending> {
    var pinned := At(env.snapshot(2 * a + 1), KeyOf(current));
    if pinned.Some? then pinned else Freshest(env.snapshot(2 * a + 1), current.kind, None)
  }

  /** What iteration `a` does: surface, and deliver if there is a verdict and a step to deliver it to. */
  function Iteration(env: Env, current: Pending, a: nat): seq<Action> {
    var target := Target(env, current, a);
    if env.verdicts(a).None? || target.None? then [Surface(current)]
    else [Surface(current), Deliver(target.value, current.kind, current.spec, env.verdicts(a).value, env.deliveries(a))]
  }

  /** The step to surface next: only after a delivery that came too late, and only one beyond its target. */
  function Retry(env: Env, current: Pending, a: nat): Option<Pending> {
    var target := Target(env, current, a);
    if env.verdicts(a).None? || target.None? || env.deliveries(a) != NotRegistered then None
    else Freshest(env.snapshot(2 * a + 2), current.kind, Some(target.value.index))
  }

  function Run(env: Env, current: Pending, a: nat, max: nat): seq<Action>
    decreases max - a
  {
    if a >= max then []
    else
      var next := Retry(env, current, a);
      Iteration(env, current, a) + (if next.Some? then Run(env, next.value, a + 1, max) else [])
  }

  lemma RunStep(env: Env, current: Pending, a: nat, max: nat, done: seq<Action>)
    requires a < max
    ensures var next := Retry(env, current, a);
      done + Run(env, current, a, max) ==
      if next.Some? then (done + Iteration(env, current, a)) + Run(env, next.value, a + 1, max)
      else done + Iteration(env, current, a)
  {
  }

  /** Where the verdict goes: the surfaced step, or else the freshest of its kind. */
  method FindTarget(env: Env, current: Pending, attempt: nat) returns (target: Option<Pending>)
    ensures target == Target(env, current, attempt)
  {
    var steps := env.snapshot(2 * attempt + 1);
    target := WaitingStepAt(steps, current.trajectory, current.index);
    if target.None? {
      target := FreshestWaiting(steps, current.kind, None);
    }
  }

  method BridgeInteraction(env: Env, pending: Pending, maxRetries: nat) returns (done: seq<Action>)
    ensures done == Run(env, pending, 0, maxRetries)
  {
    var current := pending;
    done := [];
    var attempt := 0;
    while attempt < maxRetries
      invariant attempt <= maxRetries
      invariant Run(env, pending, 0, maxRetries) == done + Run(env, current, attempt, maxRetries)
    {
      RunStep(env, current, attempt, maxRetries, done);
      var result := env.verdicts(attempt);
      if result.None? {
        assert Iteration(env, current, attempt) == [Surface(current)];
        return done + [Surface(current)];
      }
      var target := FindTarget(env, current, attempt);
      if target.None? {
        assert Iteration(env, current, attempt) == [Surface(current)];
        return done + [Surface(current)];
      }
      var outcome := env.deliveries(attempt);
      assert Iteration(env, current, attempt) ==
             [Surface(current), Deliver(target.value, current.kind, current.spec, result.value, outcome)];
      done := done + [Surface(current), Deliver(target.value, current.kind, current.spec, result.value, outcome)];
      if outcome != NotRegistered {
        return;
      }
      var retry := FreshestWaiting(env.snapshot(2 * attempt + 2), current.kind, Some(target.value.index));
      if retry.None? {
        return;
      }
      current := retry.value;
      attempt := attempt + 1;
    }
  }

  // ----- bounds -----

  function Surfaced(actions: seq<Action>): seq<Pending> {
    if actions == [] then []
    else (if actions[0].Surface? then [actions[0].step] else []) + Surfaced(actions[1..])
  }

  lemma {:induction false} SurfacedConcat(a: seq<Action>, b: seq<Action>)
    ensures Surfaced(a + b) == Surfaced(a) + Surfaced(b)
  {
    if a == [] {
      assert a + b == b;
    } else {
      var rest := a[1..];
      assert (a + b)[0] == a[0] && (a + b)[1..] == rest + b;
      SurfacedConcat(rest, b);
    }
  }

  lemma IterationSurfaces(env: Env, current: Pending, a: nat)
    ensures Surfaced(Iteration(env, current, a)) == [current]
    ensures 1 <= |Iteration(env, current, a)| <= 2
  {
    var actions := Iteration(env, current, a);
    if |actions| == 2 {
      assert actions[1..] == [actions[1]] && [actions[1]][1..] == [];
      assert Surfaced([actions[1]]) == Surfaced([actions[1]][1..]);
    } else {
      assert actions[1..] == [];
    }
  }

  /** The steps a run surfaces: the current one, then those of the rest of the run. */
  lemma SurfacedUnfold(env: Env, current: Pending, a: nat, max: nat)
    requires a < max
    ensures var next := Retry(env, current, a);
      Surfaced(Run(env, current, a, max)) ==
        [current] + if next.Some? then Surfaced(Run(env, next.value, a + 1, max)) else []
  {
    var next := Retry(env, current, a);
    IterationSurfaces(env, current, a);
    SurfacedConcat(Iteration(env, current, a), if next.Some? then Run(env, next.value, a + 1, max) else []);
  }

  predicate Succeeded(act: Action) {
    act.Deliver? && act.outcome == Delivered
  }

  /** At most `max` elicitations; a delivery that succeeds, or fails for good, is the last thing the loop does. */
  lemma {:induction false} Bounded(env: Env, current: Pending, a: nat, max: nat)
    requires a <= max
    ensures var actions := Run(env, current, a, max);
      && |Surfaced(actions)| <= max - a
      && forall k :: 0 <= k < |actions| - 1 && actions[k].Deliver? ==> actions[k].outcome == NotRegistered
    decreases max - a
  {
    if a < max {
      SurfacedUnfold(env, current, a, max);
      IterationSurfaces(env, current, a);
      var next := Retry(env, current, a);
      if next.Some? {
        var first: seq<Action>, later: seq<Action> := Iteration(env, current, a), Run(env, next.value, a + 1, max);
        Bounded(env, next.value, a + 1, max);
        assert Run(env, current, a, max) == first + later && |first| == 2;
        forall k: int | 2 <= k < |first + later| - 1 && (first + later)[k].Deliver?
          ensures (first + later)[k].outcome == NotRegistered
        {
          assert (first + later)[k] == later[k - 2];
        }
      }
    }
  }

  /** So at most one delivery succeeds. */
  lemma AtMostOneSuccess(env: Env, pending: Pending, max: nat, j: nat, k: nat)
    requires var actions := Run(env, pending, 0, max);
      j < |actions| && k < |actions| && Succeeded(actions[j]) && Succeeded(actions[k])
    ensures j == k == |Run(env, pending, 0, max)| - 1
  {
    Bounded(env, pending, 0, max);
  }

  /** A delivery answers the step surfaced just before it, and goes to that very step whenever it is still waiting. */
  ghost predicate WellAimed(env: Env, a: nat, surfaced: Action, delivery: Action) {
    && surfaced.Surface? && delivery.Deliver?
    && delivery.kind == surfaced.step.kind && delivery.spec == surfaced.step.spec
    && env.verdicts(a) == Some(delivery.verdict)
    && Some(delivery.target) in env.snapshot(2 * a + 1)
    && (At(env.snapshot(2 * a + 1), KeyOf(surfaced.step)).Some? ==> KeyOf(delivery.target) == KeyOf(surfaced.step))
    && (At(env.snapshot(2 * a + 1), KeyOf(surfaced.step)).None? ==>
          Freshest(env.snapshot(2 * a + 1), surfaced.step.kind, None) == Some(delivery.target))
  }

  lemma IterationAims(env: Env, current: Pending, a: nat)
    ensures |Iteration(env, current, a)| == 2 ==>
            WellAimed(env, a, Iteration(env, current, a)[0], Iteration(env, current, a)[1])
  {
    AtIs(env.snapshot(2 * a + 1), KeyOf(current));
    FreshestIs(env.snapshot(2 * a + 1), current.kind, None);
  }

  /** The step surfaced next was shown by the read after the delivery. */
  lemma NextShown(env: Env, current: Pending, a: nat)
    requires Retry(env, current, a).Some?
    ensures Shows(env, 2 * (a + 1), Retry(env, current, a).value)
  {
    RetryIs(env, current, a);
  }

  /** The delivery at position `k` of a run is that of iteration `b`, which surfaced `c`. */
  lemma {:induction false} IterationOf(env: Env, current: Pending, a: nat, max: nat, k: nat)
    returns (b: nat, c: Pending)
    requires k < |Run(env, current, a, max)| && Run(env, current, a, max)[k].Deliver?
    ensures a <= b < max && k == 2 * (b - a) + 1 && |Iteration(env, c, b)| == 2
    ensures Run(env, current, a, max)[k - 1] == Iteration(env, c, b)[0]
    ensures Run(env, current, a, max)[k] == Iteration(env, c, b)[1]
    ensures Shows(env, 2 * a, current) ==> Shows(env, 2 * b, c)
    decreases max - a
  {
    RunShape(env, current, a, max);
    if k < 2 {
      b, c := a, current;
    } else {
      var next := Retry(env, current, a).value;
      NextShown(env, current, a);
      var all, later := Run(env, current, a, max), Run(env, next, a + 1, max);
      assert all[k] == later[k - 2];
      b, c := IterationOf(env, next, a + 1, max, k - 2);
      assert all[k - 1] == later[k - 3];
    }
  }

  /** The delivery at position `k` of a run answers the step surfaced by iteration `b`. */
  lemma Pinned(env: Env, current: Pending, a: nat, max: nat, k: nat) returns (b: nat)
    requires k < |Run(env, current, a, max)| && Run(env, current, a, max)[k].Deliver?
    ensures a <= b < max && k == 2 * (b - a) + 1
    ensures WellAimed(env, b, Run(env, current, a, max)[k - 1], Run(env, current, a, max)[k])
  {
    var c: Pending;
    b, c := IterationOf(env, current, a, max, k);
    IterationAims(env, c, b);
  }

  /** The actions of the first iteration, then those of the rest of the run. */
  lemma RunShape(env: Env, current: Pending, a: nat, max: nat)
    requires a < max
    ensures var (all, first, next) := (Run(env, current, a, max), Iteration(env, current, a), Retry(env, current, a));
      && |first| <= 2 && (forall i :: 0 <= i < |first| ==> all[i] == first[i])
      && first[0].Surface? && (next.None? ==> |all| == |first|)
      && (next.Some? ==>
            && |first| == 2 && |all| == 2 + |Run(env, next.value, a + 1, max)|
            && forall i :: 2 <= i < |all| ==> all[i] == Run(env, next.value, a + 1, max)[i - 2])
  {
  }

  // ----- distinct elicitations -----

  /** `p` is among what read `t` shows. */
  ghost predicate Shows(env: Env, t: nat, p: Pending) {
    Some(p) in env.snapshot(t)
  }

  predicate WaitsAt(env: Env, t: nat, key: Key) {
    At(env.snapshot(t), key).Some?
  }

  lemma ShownWaits(env: Env, t: nat, p: Pending)
    requires Shows(env, t, p)
    ensures WaitsAt(env, t, KeyOf(p))
  {
    AtIs(env.snapshot(t), KeyOf(p));
  }

  lemma WaitingShown(env: Env, t: nat, key: Key) returns (p: Pending)
    requires WaitsAt(env, t, key)
    ensures Shows(env, t, p) && KeyOf(p) == key && At(env.snapshot(t), key) == Some(p)
  {
    AtIs(env.snapshot(t), key);
    p := At(env.snapshot(t), key).value;
  }

  /** The server never returns a step to waiting. */
  ghost predicate NoReturn(env: Env) {
    forall t, u, v, key :: 0 <= t < u < v && WaitsAt(env, t, key) && !WaitsAt(env, u, key) ==> !WaitsAt(env, v, key)
  }

  /** A step asks for the same kind of answer as long as it waits. */
  ghost predicate KindFixed(env: Env) {
    forall t, u, p, q :: 0 <= t && 0 <= u && Shows(env, t, p) && Shows(env, u, q) && KeyOf(p) == KeyOf(q) ==>
      p.kind == q.kind
  }

  ghost predicate Gone(env: Env, t: nat, key: Key) {
    forall u :: u >= t ==> !WaitsAt(env, u, key)
  }

  ghost predicate SeenBy(env: Env, t: nat, p: Pending) {
    exists u :: 0 <= u <= t && Shows(env, u, p)
  }

  /** `p` was surfaced before `current`: same kind, and gone or of lower index. */
  ghost predicate IsBehind(env: Env, p: Pending, current: Pending, t: nat) {
    p.kind == current.kind && SeenBy(env, t, p) && (Gone(env, t, KeyOf(p)) || p.index < current.index)
  }

  ghost predicate Behind(env: Env, past: seq<Pending>, current: Pending, t: nat) {
    forall k :: 0 <= k < |past| ==> IsBehind(env, past[k], current, t)
  }

  lemma GoneOnceUnseen(env: Env, p: Pending, t: nat)
    requires NoReturn(env) && SeenBy(env, t, p) && !WaitsAt(env, t, KeyOf(p))
    ensures Gone(env, t, KeyOf(p))
  {
    var u :| 0 <= u <= t && Shows(env, u, p);
    ShownWaits(env, u, p);
  }

  /** What a retry is: shown by the second read, of the same kind, and beyond the delivery's target. */
  lemma RetryIs(env: Env, current: Pending, a: nat)
    requires Retry(env, current, a).Some?
    ensures var (target, next) := (Target(env, current, a), Retry(env, current, a).value);
      && target.Some? && Shows(env, 2 * a + 2, next) && next.kind == current.kind && next.index > target.value.index
      && (WaitsAt(env, 2 * a + 1, KeyOf(current)) ==> target.value.index == current.index)
      && (!WaitsAt(env, 2 * a + 1, KeyOf(current)) ==>
            forall p :: Shows(env, 2 * a + 1, p) && p.kind == current.kind ==> p.index <= target.value.index)
  {
    var target := Target(env, current, a).value;
    FreshestIs(env.snapshot(2 * a + 2), current.kind, Some(target.index));
    FreshestIs(env.snapshot(2 * a + 1), current.kind, None);
    AtIs(env.snapshot(2 * a + 1), KeyOf(current));
    forall p | Shows(env, 2 * a + 1, p) && p.kind == current.kind && !WaitsAt(env, 2 * a + 1, KeyOf(current))
      ensures p.index <= target.index
    {
      assert Eligible(Some(p), current.kind, None);
    }
  }

  /** A step behind the current one is behind the next one. */
  lemma StaysBehind(env: Env, p: Pending, current: Pending, a: nat)
    requires NoReturn(env) && KindFixed(env) && Shows(env, 2 * a, current) && Retry(env, current, a).Some?
    requires p == current || IsBehind(env, p, current, 2 * a)
    ensures IsBehind(env, p, Retry(env, current, a).value, 2 * (a + 1))
  {
    RetryIs(env, current, a);
    var u :| 0 <= u <= 2 * a && Shows(env, u, p);
    assert SeenBy(env, 2 * a + 1, p) && SeenBy(env, 2 * (a + 1), p);
    if !WaitsAt(env, 2 * a + 1, KeyOf(p)) {
      GoneOnceUnseen(env, p, 2 * a + 1);
      assert Gone(env, 2 * (a + 1), KeyOf(p));
    } else {
      ShownWaits(env, u, p);
      assert !Gone(env, 2 * a, KeyOf(p));
      var q := WaitingShown(env, 2 * a + 1, KeyOf(p));
      assert q.kind == p.kind && q.index == p.index;
    }
  }

  /** What is behind cannot be what comes next. */
  lemma AheadIsNew(env: Env, past: seq<Pending>, current: Pending, t: nat)
    requires Shows(env, t, current) && Behind(env, past, current, t)
    ensures forall k :: 0 <= k < |past| ==> KeyOf(past[k]) != KeyOf(current)
  {
    ShownWaits(env, t, current);
    forall k | 0 <= k < |past| ensures KeyOf(past[k]) != KeyOf(current) {
      assert IsBehind(env, past[k], current, t);
    }
  }

  predicate DistinctKeys(steps: seq<Pending>) {
    forall j, k | 0 <= j < k < |steps| :: KeyOf(steps[j]) != KeyOf(steps[k])
  }

  lemma {:induction false} SurfacedAhead(env: Env, past: seq<Pending>, current: Pending, a: nat, max: nat)
    requires NoReturn(env) && KindFixed(env) && DistinctKeys(past)
    requires Shows(env, 2 * a, current) && Behind(env, past, current, 2 * a)
    ensures DistinctKeys(past + Surfaced(Run(env, current, a, max)))
    decreases max - a
  {
    if a < max {
      AheadIsNew(env, past, current, 2 * a);
      SurfacedUnfold(env, current, a, max);
      var next, all := Retry(env, current, a), past + [current];
      assert DistinctKeys(all);
      if next.Some? {
        AllStayBehind(env, past, current, a, all);
        SurfacedAhead(env, all, next.value, a + 1, max);
        Regroup(past, [current], Surfaced(Run(env, next.value, a + 1, max)));
      } else {
        assert [current] + [] == [current];
      }
    } else {
      assert past + [] == past;
    }
  }

  lemma AllStayBehind(env: Env, past: seq<Pending>, current: Pending, a: nat, all: seq<Pending>)
    requires NoReturn(env) && KindFixed(env) && Shows(env, 2 * a, current) && Retry(env, current, a).Some?
    requires Behind(env, past, current, 2 * a) && all == past + [current]
    ensures Shows(env, 2 * (a + 1), Retry(env, current, a).value)
    ensures Behind(env, all, Retry(env, current, a).value, 2 * (a + 1))
  {
    RetryIs(env, current, a);
    forall k | 0 <= k < |all| ensures IsBehind(env, all[k], Retry(env, current, a).value, 2 * (a + 1)) {
      StaysBehind(env, all[k], current, a);
    }
  }

  /** Main result: if the server never returns a step to waiting and keeps its kind, no elicitation id repeats, in
      however many trajectories the steps live and wherever deliveries fell back to. */
  lemma DistinctElicitations(env: Env, pending: Pending, max: nat)
    requires NoReturn(env) && KindFixed(env) && Shows(env, 0, pending)
    ensures DistinctKeys(Surfaced(Run(env, pending, 0, max)))
  {
    SurfacedAhead(env, [], pending, 0, max);
    assert [] + Surfaced(Run(env, pending, 0, max)) == Surfaced(Run(env, pending, 0, max));
  }

  // ----- strictly increasing indices -----

  ghost predicate NeverWaitedBefore(env: Env, t: nat, key: Key) {
    forall s :: 0 <= s < t ==> !WaitsAt(env, s, key)
  }

  /** A step that starts waiting has a higher index than every step of its trajectory that waited before. */
  ghost predicate NewIsHigher(env: Env) {
    forall t, u, p, q ::
      0 <= t < u && Shows(env, t, p) && Shows(env, u, q) && p.trajectory == q.trajectory &&
      NeverWaitedBefore(env, u, KeyOf(q)) ==>
        q.index > p.index
  }

  /** `p` was surfaced before `current`, and no step of its trajectory up to it that still waits is above `current`. */
  ghost predicate IsPassed(env: Env, p: Pending, current: Pending, t: nat) {
    p.kind == current.kind && SeenBy(env, t, p) &&
    forall q :: Shows(env, t, q) && q.kind == p.kind && q.trajectory == p.trajectory && q.index <= p.index ==>
      q.index <= current.index
  }

  /** A step no higher than one of its trajectory that waited by `t` and shown later waited at `t` already. */
  lemma WaitedAllAlong(env: Env, p: Pending, t: nat, u: nat, q: Pending) returns (q': Pending)
    requires NoReturn(env) && KindFixed(env) && NewIsHigher(env) && SeenBy(env, t, p) && t <= u
    requires Shows(env, u, q) && q.trajectory == p.trajectory && q.index <= p.index
    ensures Shows(env, t, q') && KeyOf(q') == KeyOf(q) && q'.kind == q.kind
  {
    var v :| 0 <= v <= t && Shows(env, v, p);
    ShownWaits(env, u, q);
    if !WaitsAt(env, t, KeyOf(q)) {
      var w := FirstWait(env, u, KeyOf(q));
      var first := WaitingShown(env, w, KeyOf(q));
    }
    q' := WaitingShown(env, t, KeyOf(q));
  }

  /** The first read in which a step waits. */
  lemma {:induction false} FirstWait(env: Env, u: nat, key: Key) returns (w: nat)
    requires WaitsAt(env, u, key)
    ensures w <= u && WaitsAt(env, w, key) && NeverWaitedBefore(env, w, key)
  {
    w := u;
    if !NeverWaitedBefore(env, u, key) {
      var s :| 0 <= s < u && WaitsAt(env, s, key);
      w := FirstWait(env, s, key);
    }
  }

  /** A step passed by the current one is passed by the next, which is above it if of its trajectory. */
  lemma StaysPassed(env: Env, p: Pending, current: Pending, a: nat)
    requires NoReturn(env) && KindFixed(env) && NewIsHigher(env) && Shows(env, 2 * a, current)
    requires Retry(env, current, a).Some? && IsPassed(env, p, current, 2 * a)
    ensures var next := Retry(env, current, a).value;
      IsPassed(env, p, next, 2 * (a + 1)) && (next.trajectory == p.trajectory ==> p.index < next.index)
  {
    RetryIs(env, current, a);
    var next := Retry(env, current, a).value;
    forall q | Shows(env, 2 * a + 2, q) && q.kind == p.kind && q.trajectory == p.trajectory && q.index <= p.index
      ensures q.index < next.index
    {
      LowerIsPassed(env, p, current, a, q);
    }
  }

  /** Such a step waits in all three reads, so neither the target nor what lies beyond it is below it. */
  lemma LowerIsPassed(env: Env, p: Pending, current: Pending, a: nat, q: Pending)
    requires NoReturn(env) && KindFixed(env) && NewIsHigher(env) && Retry(env, current, a).Some?
    requires IsPassed(env, p, current, 2 * a)
    requires Shows(env, 2 * a + 2, q) && q.kind == p.kind && q.trajectory == p.trajectory && q.index <= p.index
    ensures q.index < Retry(env, current, a).value.index
  {
    RetryIs(env, current, a);
    var before := WaitedAllAlong(env, p, 2 * a, 2 * a + 2, q);
    SeenLater(env, p, 2 * a);
    var between := WaitedAllAlong(env, p, 2 * a + 1, 2 * a + 2, q);
  }

  lemma SeenLater(env: Env, p: Pending, t: nat)
    requires SeenBy(env, t, p)
    ensures SeenBy(env, t + 1, p)
  {
  }

  /** Of two steps of one trajectory, the later is the higher. */
  predicate Rising(steps: seq<Pending>) {
    forall j, k | 0 <= j < k < |steps| && steps[j].trajectory == steps[k].trajectory ::
      steps[j].index < steps[k].index
  }

  ghost predicate AllPassed(env: Env, past: seq<Pending>, current: Pending, t: nat) {
    forall k :: 0 <= k < |past| ==> IsPassed(env, past[k], current, t)
  }

  lemma {:induction false} RisingAhead(env: Env, past: seq<Pending>, current: Pending, a: nat, max: nat)
    requires NoReturn(env) && KindFixed(env) && NewIsHigher(env) && Shows(env, 2 * a, current)
    requires Rising(past + [current]) && AllPassed(env, past, current, 2 * a)
    ensures Rising(past + Surfaced(Run(env, current, a, max)))
    decreases max - a
  {
    if a < max {
      SurfacedUnfold(env, current, a, max);
      var next, all := Retry(env, current, a), past + [current];
      if next.Some? {
        PassedByNext(env, past, current, a, all);
        RisingAhead(env, all, next.value, a + 1, max);
        Regroup(past, [current], Surfaced(Run(env, next.value, a + 1, max)));
      } else {
        assert [current] + [] == [current];
      }
    } else {
      AppendNone(past);
      RisingPrefix(past, current);
    }
  }

  lemma RisingPrefix(past: seq<Pending>, current: Pending)
    requires Rising(past + [current])
    ensures Rising(past)
  {
    var all := past + [current];
    assert forall k :: 0 <= k < |past| ==> all[k] == past[k];
  }

  lemma AppendNone<T>(s: seq<T>)
    ensures s + [] == s
  {
  }

  lemma PassedByNext(env: Env, past: seq<Pending>, current: Pending, a: nat, all: seq<Pending>)
    requires NoReturn(env) && KindFixed(env) && NewIsHigher(env) && Shows(env, 2 * a, current)
    requires Retry(env, current, a).Some? && all == past + [current]
    requires Rising(all) && AllPassed(env, past, current, 2 * a)
    ensures Shows(env, 2 * (a + 1), Retry(env, current, a).value)
    ensures Rising(all + [Retry(env, current, a).value])
    ensures AllPassed(env, all, Retry(env, current, a).value, 2 * (a + 1))
  {
    RetryIs(env, current, a);
    var next := Retry(env, current, a).value;
    assert IsPassed(env, current, current, 2 * a);
    forall k | 0 <= k < |all|
      ensures IsPassed(env, all[k], next, 2 * (a + 1))
      ensures next.trajectory == all[k].trajectory ==> all[k].index < next.index
    {
      assert IsPassed(env, all[k], current, 2 * a);
      StaysPassed(env, all[k], current, a);
    }
    RisingOneMore(all, next);
  }

  lemma RisingOneMore(all: seq<Pending>, next: Pending)
    requires Rising(all)
    requires forall k :: 0 <= k < |all| && next.trajectory == all[k].trajectory ==> all[k].index < next.index
    ensures Rising(all + [next])
  {
  }

  /** Main result: if within each trajectory newly waiting steps also get higher indices, the surfaced indices of each
      trajectory strictly increase, wherever deliveries fell back to. */
  lemma SurfacedIncreases(env: Env, pending: Pending, max: nat)
    requires NoReturn(env) && KindFixed(env) && NewIsHigher(env) && Shows(env, 0, pending)
    ensures Rising(Surfaced(Run(env, pending, 0, max)))
  {
    assert [] + [pending] == [pending];
    RisingAhead(env, [], pending, 0, max);
    assert [] + Surfaced(Run(env, pending, 0, max)) == Surfaced(Run(env, pending, 0, max));
  }

  /** The kind of the payload is the kind of the step it is delivered to, pinned or fallen back to. */
  lemma PayloadFitsTarget(env: Env, current: Pending, a: nat)
    requires KindFixed(env) && Shows(env, 2 * a, current) && Target(env, current, a).Some?
    ensures Target(env, current, a).value.kind == current.kind
  {
    FreshestIs(env.snapshot(2 * a + 1), current.kind, None);
    if WaitsAt(env, 2 * a + 1, KeyOf(current)) {
      var q := WaitingShown(env, 2 * a + 1, KeyOf(current));
    }
  }

  // ----- the gate a verdict reaches -----

  /** A step asks for the same thing as long as it waits. */
  ghost predicate SpecFixed(env: Env) {
    forall t, u, p, q :: 0 <= t && 0 <= u && Shows(env, t, p) && Shows(env, u, q) && KeyOf(p) == KeyOf(q) ==>
      p.spec == q.spec
  }

  /** The k-th step of a read waits for an answer of this kind, under a higher index than any before it and no
      lower than any after. */
  ghost predicate Leads(steps: Snapshot, kind: Kind, k: nat) {
    && k < |steps| && steps[k].Some? && steps[k].value.kind == kind
    && (forall j :: 0 <= j < k && Eligible(steps[j], kind, None) ==> steps[j].value.index < steps[k].value.index)
    && (forall j :: k < j < |steps| && Eligible(steps[j], kind, None) ==> steps[j].value.index <= steps[k].value.index)
  }

  lemma {:induction false} FreshestLeads(steps: Snapshot, kind: Kind) returns (k: nat)
    ensures Freshest(steps, kind, None).Some? ==> Leads(steps, kind, k) && steps[k] == Freshest(steps, kind, None)
  {
    k := 0;
    if steps != [] {
      var n := |steps| - 1;
      k := FreshestLeads(steps[..n], kind);
      FreshestIs(steps[..n], kind, None);
      if Freshest(steps, kind, None) != Freshest(steps[..n], kind, None) { k := n; }
      assert forall j :: 0 <= j < n ==> steps[..n][j] == steps[j] && steps[j] in steps[..n];
    }
  }

  lemma OneLeads(steps: Snapshot, kind: Kind, j: nat, k: nat)
    requires Leads(steps, kind, j) && Leads(steps, kind, k)
    ensures j == k
  {
    assert Eligible(steps[j], kind, None) && Eligible(steps[k], kind, None);
  }

  /** The verdict for `current` has its gate in this read: the step still waits, or the leading one asks the same. */
  ghost predicate GateWaits(steps: Snapshot, current: Pending) {
    || At(steps, KeyOf(current)).Some?
    || exists k: nat :: Leads(steps, current.kind, k) && steps[k].value.spec == current.spec
  }

  lemma TargetsGate(env: Env, current: Pending, a: nat)
    requires SpecFixed(env) && Shows(env, 2 * a, current) && Target(env, current, a).Some?
    ensures Target(env, current, a).value.spec == current.spec <==> GateWaits(env.snapshot(2 * a + 1), current)
  {
    var steps := env.snapshot(2 * a + 1);
    if WaitsAt(env, 2 * a + 1, KeyOf(current)) {
      var q := WaitingShown(env, 2 * a + 1, KeyOf(current));
    } else {
      var k := FreshestLeads(steps, current.kind);
      forall j: nat | Leads(steps, current.kind, j) ensures j == k { OneLeads(steps, current.kind, j, k); }
    }
  }

  /** Of a surfacing and the delivery that follows it: the target asks what was answered exactly when the gate waits. */
  ghost predicate HitsGate(steps: Snapshot, surfaced: Action, delivery: Action) {
    surfaced.Surface? && delivery.Deliver? &&
    (delivery.target.spec == surfaced.step.spec <==> GateWaits(steps, surfaced.step))
  }

  lemma IterationGate(env: Env, current: Pending, a: nat)
    requires SpecFixed(env) && Shows(env, 2 * a, current)
    ensures |Iteration(env, current, a)| == 2 ==>
              HitsGate(env.snapshot(2 * a + 1), Iteration(env, current, a)[0], Iteration(env, current, a)[1])
  {
    if Target(env, current, a).Some? { TargetsGate(env, current, a); }
  }

  /** Main result: a delivery is made to a step that asks what the human answered exactly when, in the read before it,
      the surfaced step still waits or the leading step of its kind asks the same. */
  lemma ReachesGateExactly(env: Env, current: Pending, a: nat, max: nat, k: nat) returns (b: nat)
    requires SpecFixed(env) && Shows(env, 2 * a, current)
    requires k < |Run(env, current, a, max)| && Run(env, current, a, max)[k].Deliver?
    ensures a <= b < max && k == 2 * (b - a) + 1
    ensures HitsGate(env.snapshot(2 * b + 1), Run(env, current, a, max)[k - 1], Run(env, current, a, max)[k])
  {
    var c: Pending;
    b, c := IterationOf(env, current, a, max, k);
    IterationGate(env, c, b);
  }

  /** The surfaced step is gone and the leading step of its kind asks something else: it gets the verdict, though no
      step returns, changes what it asks, or starts waiting under a lower index. */
  lemma OtherGateAnswered() returns (env: Env, pending: Pending)
    ensures Shows(env, 0, pending) && NoReturn(env) && KindFixed(env) && SpecFixed(env) && NewIsHigher(env)
    ensures |Run(env, pending, 0, 1)| == 2 && Succeeded(Run(env, pending, 0, 1)[1])
    ensures Run(env, pending, 0, 1)[1].target.spec != pending.spec
  {
    var first, other := Pending(Permission, 0, 3, 0), Pending(Permission, 0, 9, 1);
    var r := (t: nat) => if t == 0 then [Some(first)] else [Some(other)];
    env, pending := Env(r, (a: nat) => Some(Verdict(0)), (a: nat) => Delivered), first;
    assert [Some(other)][1..] == [] && [Some(other)][..0] == [] && [Some(first)][1..] == [];
    assert At([Some(other)], KeyOf(first)) == None;
    assert Freshest([Some(other)], Permission, None) == Some(other);
    assert Target(env, first, 0) == Some(other);
    assert Iteration(env, first, 0)[1].outcome == Delivered;
    OneAfterAnother(env, first, other);
  }

  /** Reads that show one step, then another under a higher index, keep all the promises. */
  lemma OneAfterAnother(env: Env, first: Pending, other: Pending)
    requires env.snapshot(0) == [Some(first)] && forall t: nat :: t > 0 ==> env.snapshot(t) == [Some(other)]
    requires first.kind == other.kind && first.index < other.index
    ensures Shows(env, 0, first) && NoReturn(env) && KindFixed(env) && SpecFixed(env) && NewIsHigher(env)
  {
    assert forall t: nat, p :: Shows(env, t, p) <==> p == if t == 0 then first else other;
    forall t: nat, key ensures WaitsAt(env, t, key) <==> key == KeyOf(if t == 0 then first else other) {
      AtIs(env.snapshot(t), key);
    }
    forall t: nat, u: nat, p, q |
      t < u && Shows(env, t, p) && Shows(env, u, q) && p.trajectory == q.trajectory &&
      NeverWaitedBefore(env, u, KeyOf(q))
      ensures q.index > p.index
    {
      if t > 0 { WaitedBefore(env, t, u, KeyOf(q)); }
    }
  }

  lemma WaitedBefore(env: Env, t: nat, u: nat, key: Key)
    requires t < u && WaitsAt(env, t, key)
    ensures !NeverWaitedBefore(env, u, key)
  {
  }

  /** Without the promise that steps do not return, an id can be surfaced twice. */
  lemma ReturningStepRepeats() returns (env: Env, pending: Pending)
    ensures Shows(env, 0, pending) && KindFixed(env) && !DistinctKeys(Surfaced(Run(env, pending, 0, 2)))
  {
    var high, low := Pending(Permission, 0, 9, 0), Pending(Permission, 0, 3, 0);
    var r := (t: nat) => if t == 1 then [Some(low)] else [Some(high)];
    env, pending := Env(r, (a: nat) => Some(Verdict(0)), (a: nat) => NotRegistered), high;
    assert [Some(low)][..0] == [] && [Some(high)][..0] == [];
    assert [Some(low)][1..] == [];
    assert At([Some(low)], KeyOf(high)) == None;
    assert Freshest([Some(low)], Permission, None) == Some(low);
    assert Target(env, high, 0) == Some(low);
    assert Freshest([Some(high)], Permission, Some(3)) == Some(high);
    assert Retry(env, high, 0) == Some(high);
    SurfacedUnfold(env, high, 0, 2);
    SurfacedUnfold(env, high, 1, 2);
    var steps := Surfaced(Run(env, high, 0, 2));
    assert steps[0] == high && steps[1] == high;
  }
}
