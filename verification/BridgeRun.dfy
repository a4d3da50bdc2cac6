/** The loop, told from the reads alone. */
module BridgeRun {
  import opened Optional
  import opened Bridge

  // What the loop does, said of the steps that each read shows: which one gets the verdict, when the loop goes on, and
  // with which step.

  /** The k-th step waits for an answer of this kind, under an index beyond `above`. */
  predicate Candidate(steps: Snapshot, kind: Kind, above: Option<int>, k: int) {
    && 0 <= k < |steps| && steps[k].Some? && steps[k].value.kind == kind
    && (above.None? || steps[k].value.index > above.value)
  }

  /** Of the candidates it has the highest index, and is the first to have it. */
  ghost predicate IsBest(steps: Snapshot, kind: Kind, above: Option<int>, k: int) {
    Candidate(steps, kind, above, k) &&
    forall j :: Candidate(steps, kind, above, j) ==>
      steps[j].value.index < steps[k].value.index || (steps[j].value.index == steps[k].value.index && k <= j)
  }

  ghost predicate BestIs(steps: Snapshot, kind: Kind, above: Option<int>, p: Option<Pending>) {
    if p.None? then forall k :: !Candidate(steps, kind, above, k)
    else exists k :: IsBest(steps, kind, above, k) && steps[k] == p
  }

  predicate Under(steps: Snapshot, current: Pending, k: int) {
    && 0 <= k < |steps| && steps[k].Some?
    && steps[k].value.trajectory == current.trajectory && steps[k].value.index == current.index
  }

  /** The first step that waits under the surfaced one's trajectory and index; if none does, the best of its kind. */
  ghost predicate GoesTo(steps: Snapshot, current: Pending, target: Option<Pending>) {
    if exists k :: Under(steps, current, k) then
      exists k :: Under(steps, current, k) && steps[k] == target && forall j :: Under(steps, current, j) ==> k <= j
    else BestIs(steps, current.kind, None, target)
  }

  /** The step iteration `a` delivers to. */
  ghost predicate Targets(env: Env, current: Pending, a: nat, target: Option<Pending>) {
    GoesTo(env.snapshot(2 * a + 1), current, target)
  }

  /** Only after a delivery that came too late is there a next step: the best of the kind beyond the one it went to. */
  ghost predicate GoesOn(env: Env, current: Pending, a: nat, target: Pending, next: Option<Pending>) {
    if env.deliveries(a) == NotRegistered then
      BestIs(env.snapshot(2 * a + 2), current.kind, Some(target.index), next)
    else next == None
  }

  /** From iteration `a` on: surface the step; without a verdict, or a step to give it to, stop; else deliver, and go on
      if there is a next step. */
  ghost predicate IsRun(env: Env, current: Pending, a: nat, max: nat, actions: seq<Action>)
    decreases max - a, 1
  {
    if a >= max then actions == []
    else
      && actions != [] && actions[0] == Surface(current)
      && exists target :: Targets(env, current, a, target) && IsRest(env, current, a, max, actions, target)
  }

  ghost predicate IsRest(env: Env, current: Pending, a: nat, max: nat, actions: seq<Action>, target: Option<Pending>)
    requires a < max
    decreases max - a, 0
  {
    if env.verdicts(a).None? || target.None? then |actions| == 1
    else
      && |actions| > 1
      && actions[1] == Deliver(target.value, current.kind, current.spec, env.verdicts(a).value, env.deliveries(a))
      && exists next :: GoesOn(env, current, a, target.value, next) &&
           if next.Some? then IsRun(env, next.value, a + 1, max, actions[2..]) else |actions| == 2
  }

  // ----- the program's lookups are these -----

  lemma {:induction false} FreshestIsBest(steps: Snapshot, kind: Kind, above: Option<int>) returns (k: nat)
    ensures Freshest(steps, kind, above).None? ==> forall j :: !Candidate(steps, kind, above, j)
    ensures Freshest(steps, kind, above).Some? ==>
              IsBest(steps, kind, above, k) && steps[k] == Freshest(steps, kind, above)
  {
    k := 0;
    if steps != [] {
      var n := |steps| - 1;
      k := FreshestIsBest(steps[..n], kind, above);
      if Freshest(steps, kind, above) != Freshest(steps[..n], kind, above) { k := n; }
      forall j | Candidate(steps, kind, above, j) && j < n ensures Candidate(steps[..n], kind, above, j) {
      }
    }
  }

  lemma OneBest(steps: Snapshot, kind: Kind, above: Option<int>, j: int, k: int)
    requires IsBest(steps, kind, above, j) && IsBest(steps, kind, above, k)
    ensures j == k
  {
  }

  /** Main result: the freshest waiting step is the best candidate. */
  lemma FreshestExactly(steps: Snapshot, kind: Kind, above: Option<int>, p: Option<Pending>)
    ensures BestIs(steps, kind, above, p) <==> p == Freshest(steps, kind, above)
  {
    var k := FreshestIsBest(steps, kind, above);
    if p.Some? && BestIs(steps, kind, above, p) {
      var j :| IsBest(steps, kind, above, j) && steps[j] == p;
      if Freshest(steps, kind, above).Some? { OneBest(steps, kind, above, j, k); }
    }
  }

  lemma {:induction false} AtIsFirst(steps: Snapshot, current: Pending) returns (k: nat)
    ensures At(steps, KeyOf(current)).None? ==> forall j :: !Under(steps, current, j)
    ensures At(steps, KeyOf(current)).Some? ==>
              Under(steps, current, k) && steps[k] == At(steps, KeyOf(current)) &&
              forall j :: Under(steps, current, j) ==> k <= j
  {
    k := 0;
    if steps != [] && !Under(steps, current, 0) {
      var later := AtIsFirst(steps[1..], current);
      k := later + 1;
      forall j | Under(steps, current, j) ensures Under(steps[1..], current, j - 1) {
      }
    }
  }

  lemma TargetExactly(env: Env, current: Pending, a: nat, target: Option<Pending>)
    ensures Targets(env, current, a, target) <==> target == Target(env, current, a)
  {
    var steps := env.snapshot(2 * a + 1);
    var k := AtIsFirst(steps, current);
    FreshestExactly(steps, current.kind, None, target);
    if exists i :: Under(steps, current, i) {
      if j :| Under(steps, current, j) && steps[j] == target && forall i :: Under(steps, current, i) ==> j <= i {
        assert j == k;
      }
    }
  }

  lemma NextExactly(env: Env, current: Pending, a: nat, target: Pending, next: Option<Pending>)
    requires Target(env, current, a) == Some(target) && env.verdicts(a).Some?
    ensures GoesOn(env, current, a, target, next) <==> next == Retry(env, current, a)
  {
    FreshestExactly(env.snapshot(2 * a + 2), current.kind, Some(target.index), next);
  }

  // ----- and so is the loop -----

  /** The first iteration of a run, and what follows it. */
  lemma RunParts(env: Env, current: Pending, a: nat, max: nat)
    requires a < max
    ensures var (all, target, next) := (Run(env, current, a, max), Target(env, current, a), Retry(env, current, a));
      && |all| > 0 && all[0] == Surface(current)
      && (env.verdicts(a).None? || target.None? ==> |all| == 1 && all == [all[0]])
      && (env.verdicts(a).Some? && target.Some? ==>
            && |all| > 1
            && all[1] == Deliver(target.value, current.kind, current.spec, env.verdicts(a).value, env.deliveries(a))
            && all == [all[0], all[1]] + all[2..]
            && all[2..] == if next.Some? then Run(env, next.value, a + 1, max) else [])
  {
    var next := Retry(env, current, a);
    if next.Some? {
      assert (Iteration(env, current, a) + Run(env, next.value, a + 1, max))[2..] == Run(env, next.value, a + 1, max);
    }
  }

  lemma {:induction false} RunIs(env: Env, current: Pending, a: nat, max: nat)
    ensures IsRun(env, current, a, max, Run(env, current, a, max))
    decreases max - a, 1
  {
    if a < max {
      RunParts(env, current, a, max);
      TargetExactly(env, current, a, Target(env, current, a));
      RestIs(env, current, a, max);
    }
  }

  lemma RestIs(env: Env, current: Pending, a: nat, max: nat)
    requires a < max
    ensures IsRest(env, current, a, max, Run(env, current, a, max), Target(env, current, a))
    decreases max - a, 0
  {
    RunParts(env, current, a, max);
    if env.verdicts(a).Some? && Target(env, current, a).Some? {
      var next := Retry(env, current, a);
      NextExactly(env, current, a, Target(env, current, a).value, next);
      if next.Some? { RunIs(env, next.value, a + 1, max); }
    }
  }

  lemma {:induction false} OnlyRun(env: Env, current: Pending, a: nat, max: nat, actions: seq<Action>)
    requires IsRun(env, current, a, max, actions)
    ensures actions == Run(env, current, a, max)
    decreases max - a, 1
  {
    if a < max {
      var target :| Targets(env, current, a, target) && IsRest(env, current, a, max, actions, target);
      TargetExactly(env, current, a, target);
      OnlyRest(env, current, a, max, actions, target);
    }
  }

  lemma OnlyRest(env: Env, current: Pending, a: nat, max: nat, actions: seq<Action>, target: Option<Pending>)
    requires a < max && actions != [] && actions[0] == Surface(current)
    requires target == Target(env, current, a) && IsRest(env, current, a, max, actions, target)
    ensures actions == Run(env, current, a, max)
    decreases max - a, 0
  {
    RunParts(env, current, a, max);
    if env.verdicts(a).Some? && target.Some? {
      var next :| GoesOn(env, current, a, target.value, next) &&
        if next.Some? then IsRun(env, next.value, a + 1, max, actions[2..]) else |actions| == 2;
      NextExactly(env, current, a, target.value, next);
      if next.Some? { OnlyRun(env, next.value, a + 1, max, actions[2..]); }
      assert actions == [actions[0], actions[1]] + actions[2..];
    } else {
      assert actions == [actions[0]];
    }
  }

  /** Main result: the loop does this and nothing else. */
  lemma RunExactly(env: Env, current: Pending, a: nat, max: nat, actions: seq<Action>)
    ensures IsRun(env, current, a, max, actions) <==> actions == Run(env, current, a, max)
  {
    RunIs(env, current, a, max);
    if IsRun(env, current, a, max, actions) { OnlyRun(env, current, a, max, actions); }
  }
}
