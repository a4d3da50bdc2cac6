/**
  A queue of vertices walked breadth first over any finite graph, without a record of what it has met: how long it goes
  on, and exactly when it runs dry.
*/
module IdWalk {
  type Vertex = nat

  /** The queue of the walk after n turns, were it allowed to run on. */
  function QueueAfter(next: Vertex -> seq<Vertex>, queue: seq<Vertex>, n: nat): seq<Vertex>
    decreases n
  {
    if n == 0 || queue == [] then queue
    else QueueAfter(next, queue[1..] + next(queue[0]), n - 1)
  }

  lemma {:induction false} QueueStep(next: Vertex -> seq<Vertex>, queue: seq<Vertex>, n: nat)
    ensures var q := QueueAfter(next, queue, n);
      QueueAfter(next, queue, n + 1) == if q == [] then [] else q[1..] + next(q[0])
    decreases n
  {
    if n > 0 && queue != [] {
      QueueStep(next, queue[1..] + next(queue[0]), n - 1);
    }
  }

  lemma StillBusy(next: Vertex -> seq<Vertex>, queue: seq<Vertex>, n: nat)
    requires QueueAfter(next, queue, n + 1) != []
    ensures QueueAfter(next, queue, n) != []
  {
    QueueStep(next, queue, n);
  }

  predicate Link(next: Vertex -> seq<Vertex>, path: seq<Vertex>, k: nat)
    requires k + 1 < |path|
  {
    path[k + 1] in next(path[k])
  }

  /** Each id after the first is that of a reply to the one before. */
  ghost predicate IsChain(next: Vertex -> seq<Vertex>, path: seq<Vertex>) {
    |path| > 0 && forall k :: 0 <= k < |path| - 1 ==> Link(next, path, k)
  }

  /** A chain of replies from `id` comes back to an id it has passed. */
  ghost predicate LoopsBy(next: Vertex -> seq<Vertex>, id: Vertex, path: seq<Vertex>) {
    IsChain(next, path) && path[0] == id && path[|path| - 1] in path[..|path| - 1]
  }

  ghost predicate Loops(next: Vertex -> seq<Vertex>, id: Vertex) {
    exists path :: LoopsBy(next, id, path)
  }

  // ----- a loop keeps the queue busy -----

  /** Some reply to a looping id loops as well. */
  lemma LoopingKid(next: Vertex -> seq<Vertex>, id: Vertex) returns (kid: Vertex)
    requires Loops(next, id)
    ensures kid in next(id) && Loops(next, kid)
  {
    var path :| LoopsBy(next, id, path);
    var last := |path| - 1;
    assert Link(next, path, 0);
    kid := path[1];
    var rest := path[1..];
    TailIsChain(next, path);
    var j :| 0 <= j < last && path[..last][j] == path[last];
    if j > 0 {
      assert rest[..|rest| - 1][j - 1] == path[last];
      assert LoopsBy(next, kid, rest);
    } else {
      var around := rest + [kid];
      forall k | 0 <= k < |around| - 1 ensures Link(next, around, k) {
        if k < |rest| - 1 { assert Link(next, rest, k); }
      }
      assert around[..|around| - 1][0] == kid;
      assert LoopsBy(next, kid, around);
    }
  }

  lemma TailIsChain(next: Vertex -> seq<Vertex>, path: seq<Vertex>)
    requires IsChain(next, path) && |path| > 1
    ensures IsChain(next, path[1..])
  {
    var rest := path[1..];
    forall k | 0 <= k < |rest| - 1 ensures Link(next, rest, k) {
      assert Link(next, path, k + 1);
    }
  }

  lemma {:induction false} LoopStaysQueued(next: Vertex -> seq<Vertex>, queue: seq<Vertex>, id: Vertex, n: nat)
    requires id in queue && Loops(next, id)
    ensures QueueAfter(next, queue, n) != []
    decreases n
  {
    if n > 0 {
      var kids := next(queue[0]);
      var later := queue[1..] + kids;
      if id == queue[0] {
        var kid := LoopingKid(next, id);
        assert kid in later;
        LoopStaysQueued(next, later, kid, n - 1);
      } else {
        assert id in queue[1..];
        assert id in later;
        LoopStaysQueued(next, later, id, n - 1);
      }
    }
  }

  // ----- without a loop the queue runs dry -----

  /** A chain of n replies starts at `id`. */
  ghost predicate HasChain(next: Vertex -> seq<Vertex>, id: Vertex, n: nat)
    decreases n
  {
    n == 0 || exists kid :: kid in next(id) && HasChain(next, kid, n - 1)
  }

  /** The turns the walk takes for the ids of a queue, following chains of at most n replies. */
  function Turns(next: Vertex -> seq<Vertex>, queue: seq<Vertex>, n: nat): nat
    decreases n, |queue|
  {
    if queue == [] then 0
    else 1 + (if n == 0 then 0 else Turns(next, next(queue[0]), n - 1)) + Turns(next, queue[1..], n)
  }

  lemma {:induction false} TurnsConcat(next: Vertex -> seq<Vertex>, a: seq<Vertex>, b: seq<Vertex>, n: nat)
    ensures Turns(next, a + b, n) == Turns(next, a, n) + Turns(next, b, n)
    decreases |a|
  {
    if a == [] {
      assert a + b == b;
    } else {
      assert (a + b)[0] == a[0] && (a + b)[1..] == a[1..] + b;
      TurnsConcat(next, a[1..], b, n);
    }
  }

  /** No id of the queue starts a chain of n replies. */
  ghost predicate AllShort(next: Vertex -> seq<Vertex>, queue: seq<Vertex>, n: nat) {
    forall id :: id in queue ==> !HasChain(next, id, n)
  }

  lemma KidsShort(next: Vertex -> seq<Vertex>, id: Vertex, n: nat)
    requires n > 0 && !HasChain(next, id, n)
    ensures AllShort(next, next(id), n - 1)
  {
  }

  /** Looking further than the longest chain adds no turns. */
  lemma {:induction false} EnoughTurns(next: Vertex -> seq<Vertex>, queue: seq<Vertex>, n: nat)
    requires AllShort(next, queue, n)
    ensures Turns(next, queue, n + 1) == Turns(next, queue, n)
    decreases n, |queue|
  {
    if queue != [] {
      assert queue[0] in queue;
      if n > 0 {
        KidsShort(next, queue[0], n);
        EnoughTurns(next, next(queue[0]), n - 1);
      }
      assert forall id :: id in queue[1..] ==> id in queue;
      EnoughTurns(next, queue[1..], n);
    }
  }

  /** One turn, counted. */
  lemma OneTurn(next: Vertex -> seq<Vertex>, queue: seq<Vertex>, kids: seq<Vertex>, n: nat)
    requires queue != [] && AllShort(next, queue, n) && kids == next(queue[0])
    ensures AllShort(next, queue[1..] + kids, n)
    ensures Turns(next, queue, n) == 1 + Turns(next, queue[1..] + kids, n)
  {
    assert queue[0] in queue;
    KidsShort(next, queue[0], n);
    EnoughTurns(next, kids, n - 1);
    StillShort(next, kids, n - 1);
    TurnsConcat(next, queue[1..], kids, n);
    forall id | id in queue[1..] + kids ensures !HasChain(next, id, n) {
      assert id in kids || id in queue;
    }
  }

  lemma {:induction false} ShortEnds(next: Vertex -> seq<Vertex>, queue: seq<Vertex>, n: nat)
    requires AllShort(next, queue, n)
    ensures QueueAfter(next, queue, Turns(next, queue, n)) == []
    decreases Turns(next, queue, n)
  {
    if queue != [] {
      var kids := next(queue[0]);
      OneTurn(next, queue, kids, n);
      ShortEnds(next, queue[1..] + kids, n);
    }
  }

  lemma StillShort(next: Vertex -> seq<Vertex>, queue: seq<Vertex>, n: nat)
    requires AllShort(next, queue, n)
    ensures AllShort(next, queue, n + 1)
  {
    forall id | id in queue ensures !HasChain(next, id, n + 1) {
      if HasChain(next, id, n + 1) { LongerChain(next, id, n); }
    }
  }

  lemma {:induction false} LongerChain(next: Vertex -> seq<Vertex>, id: Vertex, n: nat)
    requires HasChain(next, id, n + 1)
    ensures HasChain(next, id, n)
    decreases n
  {
    if n > 0 {
      var kid :| kid in next(id) && HasChain(next, kid, n);
      LongerChain(next, kid, n - 1);
    }
  }

  // ----- long chains loop -----

  ghost predicate DistinctIds(path: seq<Vertex>) {
    forall j, k :: 0 <= j < k < |path| ==> path[j] != path[k]
  }

  lemma {:induction false} DistinctWithin(path: seq<Vertex>, all: set<Vertex>)
    requires DistinctIds(path) && forall k :: 0 <= k < |path| ==> path[k] in all
    ensures |path| <= |all|
  {
    if path != [] {
      var n := |path| - 1;
      DistinctWithin(path[..n], all - {path[n]});
    }
  }

  /** A chain of distinct ids that could be made longer than there are ids leads into a loop. */
  lemma {:induction false} LongChainLoops(next: Vertex -> seq<Vertex>, path: seq<Vertex>, all: set<Vertex>, n: nat)
    requires IsChain(next, path) && DistinctIds(path) && HasChain(next, path[|path| - 1], n)
    requires (forall i, j :: j in next(i) ==> j in all) && (forall k :: 0 <= k < |path| ==> path[k] in all)
    requires |path| + n > |all|
    ensures Loops(next, path[0])
    decreases n
  {
    DistinctWithin(path, all);
    var last := path[|path| - 1];
    var kid :| kid in next(last) && HasChain(next, kid, n - 1);
    var longer := path + [kid];
    forall k | 0 <= k < |longer| - 1 ensures Link(next, longer, k) {
      if k < |path| - 1 { assert Link(next, path, k); }
    }
    assert longer[..|longer| - 1] == path;
    if kid in path {
      assert LoopsBy(next, path[0], longer);
    } else {
      LongChainLoops(next, longer, all, n - 1);
    }
  }

  /** The walk from an id ends exactly when no chain from it loops, if the ids are finitely many. */
  lemma EndsExactly(next: Vertex -> seq<Vertex>, id: Vertex, all: set<Vertex>)
    requires id in all && forall i, j :: j in next(i) ==> j in all
    ensures (exists n: nat :: QueueAfter(next, [id], n) == []) <==> !Loops(next, id)
  {
    if Loops(next, id) {
      forall n: nat ensures QueueAfter(next, [id], n) != [] {
        LoopStaysQueued(next, [id], id, n);
      }
    } else {
      NoLoopIsShort(next, id, all);
      ShortEnds(next, [id], |all|);
    }
  }

  lemma NoLoopIsShort(next: Vertex -> seq<Vertex>, id: Vertex, all: set<Vertex>)
    requires id in all && (forall i, j :: j in next(i) ==> j in all) && !Loops(next, id)
    ensures AllShort(next, [id], |all|)
  {
    if HasChain(next, id, |all|) {
      LongChainLoops(next, [id], all, |all|);
    }
  }

  // ----- at most one predecessor -----

  lemma ChainLink(next: Vertex -> seq<Vertex>, path: seq<Vertex>, k: nat)
    requires IsChain(next, path) && 0 < k < |path|
    ensures path[k] in next(path[k - 1])
  {
    assert Link(next, path, k - 1);
  }

  /** If every id has one predecessor at most and the start none, no chain from it loops. */
  lemma {:induction false} NeverTwice(next: Vertex -> seq<Vertex>, path: seq<Vertex>, j: nat, k: nat)
    requires IsChain(next, path) && j < k < |path|
    requires forall i, i', d :: d in next(i) && d in next(i') ==> i == i'
    requires forall i :: path[0] !in next(i)
    ensures path[j] != path[k]
    decreases j
  {
    ChainLink(next, path, k);
    if j > 0 {
      ChainLink(next, path, j);
      NeverTwice(next, path, j - 1, k - 1);
    }
  }
}
