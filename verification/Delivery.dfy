/** Posting over a lossy network. */
module Delivery {
  import opened Optional

  // Posting session events over a network that may lose requests or responses: which failures are ambiguous,
  // the bounded retry loop, and the classification a failed post leaves in the dead-letter file.

  /** The transport errors that prove no bytes were sent, and all the others. */
  datatype TransportError = ConnectError | ConnectTimeout | PoolTimeout | OtherTransportError

  datatype Outcome = Responded(status: int) | Raised(error: TransportError)

  /** One POST as it really went: what the client saw, and whether the server committed the item. */
  datatype Attempt = Attempt(outcome: Outcome, committed: bool)

  predicate IsSuccess(status: int) {
    200 <= status < 300
  }

  /**
    The server's promise the forwarders rely on: a response means the item is committed exactly when it is a
    2xx, and a failure to connect or to get a connection from the pool means it is not.
  */
  predicate Honest(a: Attempt) {
    match a.outcome
    case Responded(status) => a.committed <==> IsSuccess(status)
    case Raised(error) => error != OtherTransportError ==> !a.committed
  }

  predicate AllHonest(net: seq<Attempt>) {
    forall k | 0 <= k < |net| :: Honest(net[k])
  }

  predicate MayHaveBeenDelivered(o: Outcome) {
    o.Raised? && o.error != ConnectError && o.error != ConnectTimeout && o.error != PoolTimeout
  }

  function Commits(net: seq<Attempt>): nat {
    if net == [] then 0 else (if net[0].committed then 1 else 0) + Commits(net[1..])
  }

  lemma {:induction false} CommitsSnoc(net: seq<Attempt>, n: nat)
    requires n < |net|
    ensures Commits(net[..n + 1]) == Commits(net[..n]) + (if net[n].committed then 1 else 0)
  {
    if n > 0 {
      CommitsSnoc(net[1..], n - 1);
      assert net[..n + 1][1..] == net[1..][..n] && net[..n][1..] == net[1..][..n - 1];
    } else {
      assert net[..1][1..] == [];
    }
  }

  /** What the retry loop hands back: the final response if one was seen, and whether it gave up on an ambiguous
      failure. */
  datatype PostResult = PostResult(response: Option<int>, ambiguous: bool)

  predicate Accepted(r: PostResult) {
    r.response.Some? && r.response.value < 400
  }

  /** The retry loop from attempt number `used` (0-based) on: the result, and the number of attempts made. */
  function PostLoop(net: seq<Attempt>, maxAttempts: nat, isItem: bool, retryCodes: set<int>,
                    used: nat): (p: (PostResult, nat))
    requires used <= maxAttempts <= |net|
    ensures used <= p.1 <= maxAttempts
    decreases maxAttempts - used
  {
    if used == maxAttempts then (PostResult(None, false), used)
    else
      var o := net[used].outcome;
      if o.Raised? && isItem && MayHaveBeenDelivered(o) then (PostResult(None, true), used + 1)
      else if o.Responded? && (o.status < 400 || o.status !in retryCodes || used + 1 == maxAttempts) then
        (PostResult(Some(o.status), false), used + 1)
      else PostLoop(net, maxAttempts, isItem, retryCodes, used + 1)
  }

  /** Worth another attempt: an error status to retry; or no response, if the server saw nothing or may see it twice. */
  predicate TriesAgain(o: Outcome, isItem: bool, retryCodes: set<int>) {
    match o
    case Responded(status) => status >= 400 && status in retryCodes
    case Raised(error) => !isItem || error in {ConnectError, ConnectTimeout, PoolTimeout}
  }

  /** What is made of the last attempt. */
  function ResultOf(o: Outcome, isItem: bool): PostResult {
    match o
    case Responded(status) => PostResult(Some(status), false)
    case Raised(error) => PostResult(None, isItem && error !in {ConnectError, ConnectTimeout, PoolTimeout})
  }

  /** From attempt `used` on: every attempt but the last is worth another, the last only if none is left. */
  ghost predicate StopsAt(net: seq<Attempt>, maxAttempts: nat, isItem: bool, retryCodes: set<int>, used: nat,
                          r: PostResult, end: nat) {
    && used <= end <= maxAttempts <= |net| && (used < maxAttempts ==> used < end)
    && (forall k :: used <= k < end - 1 ==> TriesAgain(net[k].outcome, isItem, retryCodes))
    && (used < end < maxAttempts ==> !TriesAgain(net[end - 1].outcome, isItem, retryCodes))
    && r == if used < end then ResultOf(net[end - 1].outcome, isItem) else PostResult(None, false)
  }

  /** Main result: the loop stops exactly there. */
  lemma {:induction false} StopsExactly(net: seq<Attempt>, maxAttempts: nat, isItem: bool, retryCodes: set<int>,
                                        used: nat, r: PostResult, end: nat)
    requires used <= maxAttempts <= |net|
    ensures StopsAt(net, maxAttempts, isItem, retryCodes, used, r, end) <==>
            (r, end) == PostLoop(net, maxAttempts, isItem, retryCodes, used)
    decreases maxAttempts - used
  {
    if used < maxAttempts {
      if TriesAgain(net[used].outcome, isItem, retryCodes) && used + 1 < maxAttempts {
        StopsExactly(net, maxAttempts, isItem, retryCodes, used + 1, r, end);
        if StopsAt(net, maxAttempts, isItem, retryCodes, used, r, end) { assert end > used + 1; }
      }
    }
  }

  method PostWithRetry(net: seq<Attempt>, maxAttempts: nat, isItem: bool, retryCodes: set<int>)
    returns (r: PostResult, used: nat)
    requires |net| >= maxAttempts
    ensures (r, used) == PostLoop(net, maxAttempts, isItem, retryCodes, 0)
    ensures StopsAt(net, maxAttempts, isItem, retryCodes, 0, r, used)
  {
    StopsExactly(net, maxAttempts, isItem, retryCodes, 0, PostLoop(net, maxAttempts, isItem, retryCodes, 0).0,
                 PostLoop(net, maxAttempts, isItem, retryCodes, 0).1);
    for attempt := 1 to maxAttempts + 1
      invariant PostLoop(net, maxAttempts, isItem, retryCodes, 0) ==
                PostLoop(net, maxAttempts, isItem, retryCodes, attempt - 1)
    {
      var o := net[attempt - 1].outcome;
      if o.Raised? {
        if isItem && MayHaveBeenDelivered(o) {
          return PostResult(None, true), attempt;
        }
        if attempt >= maxAttempts {
          return PostResult(None, false), attempt;
        }
      } else {
        if o.status < 400 {
          return PostResult(Some(o.status), false), attempt;
        }
        if o.status !in retryCodes {
          return PostResult(Some(o.status), false), attempt;
        }
        if attempt >= maxAttempts {
          return PostResult(Some(o.status), false), attempt;
        }
      }
    }
    r, used := PostResult(None, false), maxAttempts;
  }

  /**
    A live post of a conversation item commits it at most once.  It commits nothing when the failure reported is
    unambiguous, and a response means exactly one commit or none according to its status.
  */
  lemma {:induction false} PostCommits(net: seq<Attempt>, maxAttempts: nat, retryCodes: set<int>, used: nat)
    requires used <= maxAttempts <= |net| && AllHonest(net) && Commits(net[..used]) == 0
    ensures var (r, end) := PostLoop(net, maxAttempts, true, retryCodes, used);
      && end <= maxAttempts && Commits(net[..end]) <= 1
      && (!Accepted(r) && !r.ambiguous ==> Commits(net[..end]) == 0)
      && (r.response.Some? ==> Commits(net[..end]) == if IsSuccess(r.response.value) then 1 else 0)
      && (r.ambiguous ==> r.response.None?)
    decreases maxAttempts - used
  {
    if used < maxAttempts {
      assert Honest(net[used]);
      CommitsSnoc(net, used);
      if Commits(net[..used + 1]) == 0 {
        PostCommits(net, maxAttempts, retryCodes, used + 1);
      }
    }
  }

  /** Why it matters: retrying an ambiguous failure can commit the same item twice on an honest network. */
  lemma BlindRetryCommitsTwice() returns (net: seq<Attempt>)
    ensures AllHonest(net) && |net| == 2 && MayHaveBeenDelivered(net[0].outcome)
    ensures PostLoop(net, 2, false, {}, 0) == (PostResult(Some(200), false), 2) && Commits(net[..2]) == 2
    ensures PostLoop(net, 2, true, {}, 0) == (PostResult(None, true), 1) && Commits(net[..1]) == 1
  {
    net := [Attempt(Raised(OtherTransportError), true), Attempt(Responded(200), true)];
    CommitsSnoc(net, 0);
    CommitsSnoc(net, 1);
  }
}
