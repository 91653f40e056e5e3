/** What a caller of the gate may rely on, in every run and at every moment the lock is free. */
module GateTheorems {
  import opened Wrappers
  import opened GateState
  import opened GateProtocol
  import opened GateInvariants
  import opened GateOrder
  import opened GateSteps

  lemma {:induction false} RunSound(run: seq<World>, steps: seq<Step>, i: nat)
    requires IsRun(run, steps) && i < |run|
    ensures Sound(run[i])
    decreases i
  {
    if i == 0 {
      var capacity :| run[0] == Init(capacity);
      InitSound(capacity);
    } else {
      RunSound(run, steps, i - 1);
      StepSound(run[i - 1], steps[i - 1]);
    }
  }

  /** Slot conservation: a slot is out exactly when a permit lives or an admission
      waits to be collected, per user too; a gate nobody uses is empty. */
  lemma SlotsConserved(run: seq<World>, steps: seq<Step>, i: nat)
    requires IsRun(run, steps) && i < |run|
    ensures
      var w := run[i];
      var parked := Parked(w.gate.mail, w.futures, {});
      && w.gate.active == |w.permits| + |parked|
      && (forall u: UserId :: w.gate.HeldBy(u) == Share(w.permits, u) + Share(parked, u))
      && (forall u: UserId :: u in w.gate.perUser ==> w.gate.perUser[u] > 0)
      && (w.permits == map[] && w.futures == map[] ==> w.gate.active == 0 && w.gate.perUser == map[])
  {
    RunSound(run, steps, i);
    var w := run[i];
    var parked := Parked(w.gate.mail, w.futures, {});
    if w.permits == map[] && w.futures == map[] {
      assert parked == map[];
      forall u: UserId
        ensures w.gate.HeldBy(u) == 0
      {
        assert OwnedBy(map[], u) == {};
      }
      assert forall u: UserId :: u in w.gate.perUser ==> w.gate.HeldBy(u) > 0;
    }
  }

  /** Giving a slot back never subtracts from zero, on either path that does. */
  lemma NoSaturation(w: World, user: Option<UserId>)
    requires Sound(w)
    requires
      || (exists p :: p in w.permits && w.permits[p] == user)
      || (exists id :: id in w.futures && w.gate.mail[id] == Admitted && w.futures[id].user == user)
    ensures w.gate.active > 0
    ensures user.Some? ==> user.value in w.gate.perUser && w.gate.perUser[user.value] > 0
  {
    var parked := Parked(w.gate.mail, w.futures, {});
    if p :| p in w.permits && w.permits[p] == user {
      ShareRemove(w.permits, p);
      FreeAccounts(w.gate, user, w.permits, parked, w.permits - {p}, parked);
    } else {
      var id :| id in w.futures && w.gate.mail[id] == Admitted && w.futures[id].user == user;
      ShareRemove(parked, id);
      FreeAccounts(w.gate, user, w.permits, parked, w.permits, parked - {id});
    }
  }

  /** No lost wakeup. */
  lemma NoIdleSlot(run: seq<World>, steps: seq<Step>, i: nat)
    requires IsRun(run, steps) && i < |run|
    ensures run[i].gate.active < run[i].gate.capacity ==>
              forall w :: w in run[i].gate.queue ==>
                w.user.Some? && run[i].gate.HeldBy(w.user.value) >= run[i].gate.perUserActive
  {
    RunSound(run, steps, i);
  }

  /** A future outside the queue always finds an outcome: a waiter is never
      dropped unanswered, so the empty-mailbox arms of `enter` are dead. */
  lemma NobodyForgotten(run: seq<World>, steps: seq<Step>, i: nat, id: nat)
    requires IsRun(run, steps) && i < |run| && id in run[i].futures
    ensures id in run[i].gate.mail
    ensures run[i].gate.mail[id] == Empty <==> Queued(run[i].gate.queue, id)
    ensures run[i].futures[id].stage != Awaiting ==> run[i].gate.mail[id] != Empty
  {
    RunSound(run, steps, i);
  }

  /** Every id issued was admitted from the queue, gave up, or is still queued;
      every admission but the try class left a wait sample. */
  lemma CountersConserved(run: seq<World>, steps: seq<Step>, i: nat)
    requires IsRun(run, steps) && i < |run|
    ensures
      var gate := run[i].gate;
      && gate.nextId == QueueGrants(gate.grants) + gate.timeoutsTotal + |gate.queue|
      && gate.admissionsTotal == |gate.grants|
      && gate.admissionsTotal == gate.waitCount + BackgroundGrants(gate.grants)
  {
    RunSound(run, steps, i);
  }

  // ---------------------------------------------------------------------
  // Order.

  /** In every run, when a step admits a waiter while an earlier one stays queued: the
      step dispatched the gate `pre`, the earlier waiter stood at `j` of its queue and the
      admitted one at `k`, behind it. As the pass reached `k`, a slot was free, the
      admitted user was under its cap, and everybody left behind, the earlier waiter among
      them, was AT its cap, where that one still is when the lock is free. */
  lemma BypassOnlyAtCap(run: seq<World>, steps: seq<Step>, i: nat, a: nat, v: Waiter)
    returns (pre: Gate, j: nat, k: nat)
    requires IsRun(run, steps) && i < |steps|
    requires |run[i].gate.grants| <= a < |run[i + 1].gate.grants| && run[i + 1].gate.grants[a].ToWaiter?
    requires v in run[i + 1].gate.queue && v.id < run[i + 1].gate.grants[a].id
    ensures Dispatched(run[i], steps[i]) == Some(pre)
    ensures j < k < |pre.queue| && pre.queue[j].id == v.id && pre.queue[j].user == v.user
    ensures GrantedAt(pre, run[i + 1].gate.grants, a, k) && LeftCapped(pre, k)
    ensures Reached(pre, k).AtUserCap(v.user) && run[i + 1].gate.AtUserCap(v.user)
  {
    RunSound(run, steps, i);
    pre, j, k := StepPasses(run[i], steps[i], run[i + 1].gate, a, v);
  }

  /** Grants come in arrival order: between two of the same user, to an anonymous
      waiter, and wherever either side met an empty queue. */
  lemma NoOvertaking(run: seq<World>, steps: seq<Step>, i: nat, a: nat, b: nat)
    requires IsRun(run, steps) && i < |run| && a < b < |run[i].gate.grants|
    ensures
      var first, second := run[i].gate.grants[a], run[i].gate.grants[b];
      && (first.ToWaiter? && second.ToWaiter? && (first.user == second.user || second.user == None) ==>
            first.id < second.id)
      && (!first.ToWaiter? || !second.ToWaiter? ==> first.Arrival() <= second.Arrival())
  {
    RunSound(run, steps, i);
    assert InOrder(run[i].gate.grants[a], run[i].gate.grants[b]);
  }

  // ---------------------------------------------------------------------
  // Limits.

  lemma {:induction false} SweepWithinLimits(gate: Gate, waiters: seq<Waiter>)
    ensures
      var swept := Sweep(gate, waiters).gate;
      && (swept.active <= gate.active || swept.active <= gate.capacity)
      && (forall u: UserId :: swept.HeldBy(u) <= gate.HeldBy(u) || swept.HeldBy(u) <= gate.perUserActive)
    decreases |waiters|
  {
    if |waiters| != 0 && gate.active < gate.capacity {
      if gate.AtUserCap(waiters[0].user) {
        SweepWithinLimits(gate, waiters[1..]);
      } else {
        var next := gate.Admit(waiters[0]);
        SweepWithinLimits(next, waiters[1..]);
        assert forall u: UserId :: next.HeldBy(u) <= gate.HeldBy(u) || next.HeldBy(u) <= gate.perUserActive;
      }
    }
  }

  ghost predicate WithinLimits(before: Gate, after: Gate) {
    && (after.active <= before.active || after.active <= after.capacity)
    && (forall u: UserId :: after.HeldBy(u) <= before.HeldBy(u) || after.HeldBy(u) <= after.perUserActive)
  }

  lemma DispatchWithinLimits(before: Gate, gate: Gate)
    requires WithinLimits(before, gate)
    ensures WithinLimits(before, gate.Dispatch())
    ensures gate.SameLimits(gate.Dispatch())
  {
    var idle := gate.PruneClosed().(queue := []);
    var waiters := gate.PruneClosed().queue;
    SweepWithinLimits(idle, waiters);
    SweepFrame(idle, waiters);
    var swept := Sweep(idle, waiters).gate;
    forall u: UserId
      ensures gate.Dispatch().HeldBy(u) <= before.HeldBy(u) || gate.Dispatch().HeldBy(u) <= gate.perUserActive
    {
      assert gate.HeldBy(u) == idle.HeldBy(u) && gate.Dispatch().HeldBy(u) == swept.HeldBy(u);
    }
  }

  lemma FreeWithinLimits(gate: Gate, user: Option<UserId>)
    ensures WithinLimits(gate, gate.FreeSlot(user))
  {
  }

  /** No step takes the gate, or a user, past the limit in force after it. */
  lemma StepWithinLimits(w: World, step: Step)
    requires Enabled(w, step)
    ensures WithinLimits(w.gate, Apply(w, step).gate)
  {
    match step
    case Enter(user) =>
      if !FastPath(w.gate, user) {
        DispatchWithinLimits(w.gate, w.gate.Enqueue(user));
      }
    case Cancel(id) =>
      var k := PositionOf(w.gate.queue, id);
      if k.Some? {
        DispatchWithinLimits(w.gate, w.gate.GiveUp(k.value));
      }
    case FinishCancel(id) =>
      FreeWithinLimits(w.gate, w.futures[id].user);
      DispatchWithinLimits(w.gate, w.gate.FreeSlot(w.futures[id].user));
    case DropPermit(permit) =>
      FreeWithinLimits(w.gate, w.permits[permit]);
      DispatchWithinLimits(w.gate, w.gate.FreeSlot(w.permits[permit]));
    case SetCapacity(n) =>
      DispatchWithinLimits(w.gate, w.gate.(capacity := Clamp(n, CAPACITY_MIN, CAPACITY_MAX)));
    case SetPerUserActive(n) =>
      DispatchWithinLimits(w.gate, w.gate.(perUserActive := Clamp(n, PER_USER_MIN, PER_USER_MAX)));
    case _ =>
  }

  ghost predicate IsResize(step: Step) {
    step.SetCapacity? || step.SetPerUserActive?
  }

  /** While nobody resizes the gate, neither limit is ever exceeded. */
  lemma {:induction false} LimitsHold(run: seq<World>, steps: seq<Step>, i: nat)
    requires IsRun(run, steps) && i < |run|
    requires forall k :: 0 <= k < i ==> !IsResize(steps[k])
    ensures run[i].gate.capacity == run[0].gate.capacity && run[i].gate.perUserActive == run[0].gate.perUserActive
    ensures run[i].gate.active <= run[i].gate.capacity
    ensures forall u: UserId :: run[i].gate.HeldBy(u) <= run[i].gate.perUserActive
    decreases i
  {
    if i > 0 {
      LimitsHold(run, steps, i - 1);
      StepWithinLimits(run[i - 1], steps[i - 1]);
      StepKeepsLimits(run[i - 1], steps[i - 1]);
      assert forall u: UserId ::
          || run[i].gate.HeldBy(u) <= run[i - 1].gate.HeldBy(u)
          || run[i].gate.HeldBy(u) <= run[i].gate.perUserActive;
    }
  }

  lemma DispatchSameLimits(gate: Gate)
    ensures gate.SameLimits(gate.Dispatch())
  {
    SweepFrame(gate.PruneClosed().(queue := []), gate.PruneClosed().queue);
  }

  lemma StepKeepsLimits(w: World, step: Step)
    requires Enabled(w, step) && !IsResize(step)
    ensures Apply(w, step).gate.capacity == w.gate.capacity
    ensures Apply(w, step).gate.perUserActive == w.gate.perUserActive
  {
    match step
    case Enter(user) => DispatchSameLimits(w.gate.Enqueue(user));
    case Cancel(id) =>
      var k := PositionOf(w.gate.queue, id);
      if k.Some? {
        DispatchSameLimits(w.gate.GiveUp(k.value));
      }
    case FinishCancel(id) => DispatchSameLimits(w.gate.FreeSlot(w.futures[id].user));
    case DropPermit(permit) => DispatchSameLimits(w.gate.FreeSlot(w.permits[permit]));
    case _ =>
  }

  /** Pushing a configuration leaves exactly its clamped limits in force, never more than
      64 slots, and admits its burst under the NEW per-user cap, even when the same
      configuration raises the capacity. */
  lemma ConfigBurstCapped(w: World, config: GateConfig, u: UserId)
    ensures
      var after := ConfigApplied(w, config).gate;
      && GateConfig(after.capacity, after.perUserActive, after.chatQueueDepth) == Clamped(config)
      && 1 <= after.capacity <= 64
      && (after.HeldBy(u) <= w.gate.HeldBy(u) || after.HeldBy(u) <= after.perUserActive)
  {
    var clamped := Clamped(config);
    var first := Apply(w, SetPerUserActive(clamped.perUserActive));
    var second := Apply(first, SetChatQueueDepth(clamped.chatQueueDepth));
    StepWithinLimits(w, SetPerUserActive(clamped.perUserActive));
    StepWithinLimits(second, SetCapacity(clamped.maxParallel));
    DispatchSameLimits(w.gate.(perUserActive := clamped.perUserActive));
    DispatchSameLimits(second.gate.(capacity := clamped.maxParallel));
    assert second.gate.HeldBy(u) == first.gate.HeldBy(u);
  }

  // ---------------------------------------------------------------------
  // Positions.

  /** Whenever the lock is free everybody knows where it stands, and what one
      waiter is told over its life strictly decreases. */
  lemma PositionsExact(run: seq<World>, steps: seq<Step>, i: nat)
    requires IsRun(run, steps) && i < |run|
    ensures
      var gate := run[i].gate;
      && (forall k :: 0 <= k < |gate.queue| ==> gate.queue[k].lastPosition == Some(k))
      && (forall a, b :: 0 <= a < b < |gate.reports| && gate.reports[a].id == gate.reports[b].id ==>
            gate.reports[b].position < gate.reports[a].position)
  {
    RunSound(run, steps, i);
  }

  ghost predicate QueuedOrNew(gate: Gate, id: nat) {
    Queued(gate.queue, id) || gate.nextId <= id
  }

  /** `after` only adds to the logs; whoever it reports on or queues was queued
      before or is new. */
  ghost predicate Extends(before: Gate, after: Gate) {
    && before.grants <= after.grants
    && before.reports <= after.reports
    && before.nextId <= after.nextId
    && (forall w :: w in after.queue ==> QueuedOrNew(before, w.id))
    && (forall r :: r in after.reports[|before.reports|..] ==> QueuedOrNew(before, r.id))
  }

  lemma MovesOfQueued(waiters: seq<Waiter>)
    ensures forall r :: r in Moves(waiters, 0) ==> exists w :: w in waiters && w.id == r.id
    ensures forall w :: w in Placed(waiters) ==> exists v :: v in waiters && v.id == w.id
  {
    MovesAscend(waiters, 0);
    forall r | r in Moves(waiters, 0)
      ensures exists w :: w in waiters && w.id == r.id
    {
      assert waiters[r.position] in waiters;
    }
  }

  lemma NotifyExtends(before: Gate, gate: Gate)
    requires Extends(before, gate) && gate.reports == before.reports
    ensures Extends(before, gate.NotifyPositions())
  {
    MovesOfQueued(gate.queue);
    assert gate.NotifyPositions().reports[|before.reports|..] == Moves(gate.queue, 0);
  }

  lemma {:induction false} ListeningSubset(waiters: seq<Waiter>, mail: map<nat, Mail>)
    ensures forall w :: w in Listening(waiters, mail) ==> w in waiters
  {
    if |waiters| > 0 {
      ListeningSubset(waiters[1..], mail);
    }
  }

  lemma DispatchExtends(before: Gate, gate: Gate)
    requires Extends(before, gate) && gate.reports == before.reports
    ensures Extends(before, gate.Dispatch())
  {
    var pruned := gate.PruneClosed();
    ListeningSubset(gate.queue, gate.mail);
    SweepFrame(pruned.(queue := []), pruned.queue);
    NotifyExtends(before, pruned.AdmitQueued());
  }

  lemma StepExtends(w: World, step: Step)
    requires Enabled(w, step)
    ensures Extends(w.gate, Apply(w, step).gate)
  {
    assert forall v :: v in w.gate.queue ==> Queued(w.gate.queue, v.id);
    match step
    case Enter(user) =>
      if !FastPath(w.gate, user) {
        DispatchExtends(w.gate, w.gate.Enqueue(user));
      }
    case ElapseBound(id) =>
      var k := PositionOf(w.gate.queue, id);
      if k.Some? {
        NotifyExtends(w.gate, w.gate.GiveUp(k.value));
      }
    case Cancel(id) =>
      var k := PositionOf(w.gate.queue, id);
      if k.Some? {
        DispatchExtends(w.gate, w.gate.GiveUp(k.value));
      }
    case FinishCancel(id) => DispatchExtends(w.gate, w.gate.FreeSlot(w.futures[id].user));
    case DropPermit(permit) => DispatchExtends(w.gate, w.gate.FreeSlot(w.permits[permit]));
    case SetCapacity(n) => DispatchExtends(w.gate, w.gate.(capacity := Clamp(n, CAPACITY_MIN, CAPACITY_MAX)));
    case SetPerUserActive(n) => DispatchExtends(w.gate, w.gate.(perUserActive := Clamp(n, PER_USER_MIN, PER_USER_MAX)));
    case _ =>
  }

  /** Once an id is out of the queue it never returns and is never reported on. */
  lemma {:induction false} SilentAfterLeaving(run: seq<World>, steps: seq<Step>, i: nat, j: nat, id: nat)
    requires IsRun(run, steps) && i <= j < |run|
    requires id < run[i].gate.nextId && !Queued(run[i].gate.queue, id)
    ensures !Queued(run[j].gate.queue, id) && id < run[j].gate.nextId
    ensures run[i].gate.reports <= run[j].gate.reports
    ensures forall k :: |run[i].gate.reports| <= k < |run[j].gate.reports| ==> run[j].gate.reports[k].id != id
    decreases j
  {
    if i < j {
      SilentAfterLeaving(run, steps, i, j - 1, id);
      var before, after := run[j - 1].gate, run[j].gate;
      StepExtends(run[j - 1], steps[j - 1]);
      assert forall k :: |before.reports| <= k < |after.reports| ==>
          after.reports[k] in after.reports[|before.reports|..];
    }
  }
}
