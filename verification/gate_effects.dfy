/** What each step does to the permits, the futures, the queue and the limits, told from the
    state before it alone. */
module GateEffects {
  import opened Wrappers
  import opened GateState
  import opened GateProtocol
  import opened GateInvariants
  import opened GateOrder
  import opened GateSteps
  import opened GateTheorems

  // ---------------------------------------------------------------------
  // Taking a slot.

  /** A slot is free, and the user, if it is one, holds fewer than its share. */
  ghost predicate MayRun(gate: Gate, user: Option<UserId>) {
    && gate.active < gate.capacity
    && match user
       case None => true
       case Some(u) => (if u in gate.perUser then gate.perUser[u] else 0) < gate.perUserActive
  }

  /** One more slot is taken, for `user`, and exactly one new permit holds it. */
  ghost predicate OneMoreRun(w: World, after: World, user: Option<UserId>) {
    && w.nextPermit !in w.permits && after.permits == w.permits[w.nextPermit := user]
    && after.nextPermit == w.nextPermit + 1
    && after.gate.active == w.gate.active + 1
    && (forall u: UserId :: after.gate.HeldBy(u) == w.gate.HeldBy(u) + if user == Some(u) then 1 else 0)
    && after.futures == w.futures && after.gate.queue == w.gate.queue && after.gate.mail == w.gate.mail
  }

  /** The try class runs at once exactly when nobody is queued and a slot is free; else
      nothing happens. */
  lemma TryEnterEffect(w: World)
    requires Sound(w)
    ensures
      var after := Apply(w, TryEnter);
      if w.gate.queue == [] && w.gate.active < w.gate.capacity then OneMoreRun(w, after, None) else after == w
  {
  }

  lemma FastExactly(gate: Gate, user: Option<UserId>)
    ensures FastPath(gate, user) <==> gate.queue == [] && MayRun(gate, user)
  {
  }

  lemma FastEffect(w: World, user: Option<UserId>)
    requires Sound(w) && FastPath(w.gate, user)
    ensures OneMoreRun(w, Apply(w, Enter(user)), user)
  {
  }

  /** One more future, which stands in the queue or has its admission already. */
  ghost predicate OneMoreWait(w: World, after: World, user: Option<UserId>) {
    && w.gate.nextId !in w.futures && after.futures == w.futures[w.gate.nextId := Future(user, Awaiting)]
    && after.gate.nextId == w.gate.nextId + 1 && after.permits == w.permits
    && w.gate.nextId in after.gate.mail
    && (after.gate.mail[w.gate.nextId] == Admitted <==> !Queued(after.gate.queue, w.gate.nextId))
  }

  lemma SlowEffect(w: World, user: Option<UserId>)
    requires Sound(w) && !FastPath(w.gate, user)
    ensures OneMoreWait(w, Apply(w, Enter(user)), user)
  {
    NewcomerAnswered(w, user);
    DispatchLimits(w.gate.Enqueue(user));
  }

  /** A waiting caller runs at once exactly when nobody is queued and it may run; else it
      becomes one new future. */
  lemma EnterEffect(w: World, user: Option<UserId>)
    requires Sound(w)
    ensures
      var after := Apply(w, Enter(user));
      if w.gate.queue == [] && MayRun(w.gate, user) then OneMoreRun(w, after, user) else OneMoreWait(w, after, user)
  {
    FastExactly(w.gate, user);
    if FastPath(w.gate, user) {
      FastEffect(w, user);
    } else {
      SlowEffect(w, user);
    }
  }

  lemma NewcomerAnswered(w: World, user: Option<UserId>)
    requires Sound(w) && !FastPath(w.gate, user)
    ensures
      var gate := w.gate.Enqueue(user).Dispatch();
      && w.gate.nextId in gate.mail
      && (gate.mail[w.gate.nextId] == Admitted <==> !Queued(gate.queue, w.gate.nextId))
  {
    var pre := w.gate.Enqueue(user);
    OrderlyGate(w);
    OrderlyEnqueue(w.gate, user);
    PruneRemovesNobody(pre.queue, pre.mail);
    var futures := w.futures[w.gate.nextId := Future(user, Awaiting)];
    EnqueueAwaited(w.gate, user, w.futures);
    EnqueueQueued(w.gate, user, w.gate.nextId);
    QueueAnswered(pre.(queue := []), pre.queue, futures, w.gate.nextId);
    PlacedQueued(Sweep(pre.(queue := []), pre.queue).kept, w.gate.nextId);
  }

  /** After the pass a waiter has its admission exactly when it is not queued any more. */
  lemma QueueAnswered(gate: Gate, waiters: seq<Waiter>, futures: map<nat, Future>, id: nat)
    requires Awaited(waiters, gate.mail, futures) && Queued(waiters, id)
    ensures
      var swept := Sweep(gate, waiters);
      && id in swept.gate.mail && (swept.gate.mail[id] == Admitted <==> !Queued(swept.kept, id))
  {
    SweepDelivers(gate, waiters, futures);
  }

  lemma PlacedQueued(queue: seq<Waiter>, id: nat)
    ensures Queued(Placed(queue), id) <==> Queued(queue, id)
  {
    if w :| w in queue && w.id == id {
      var k :| 0 <= k < |queue| && queue[k] == w;
      assert Placed(queue)[k] in Placed(queue);
    }
    if w :| w in Placed(queue) && w.id == id {
      var k :| 0 <= k < |queue| && Placed(queue)[k] == w;
      assert queue[k] in queue;
    }
  }

  // ---------------------------------------------------------------------
  // A future that ends.

  /** The future and its mailbox are gone; an admission in it became exactly one new
      permit. Nothing else changes. */
  ghost predicate Collected(w: World, after: World, id: nat)
    requires id in w.futures && id in w.gate.mail
  {
    && after.futures == w.futures - {id} && after.gate == w.gate.(mail := w.gate.mail - {id})
    && if w.gate.mail[id] == Admitted then
         w.nextPermit !in w.permits && after.permits == w.permits[w.nextPermit := w.futures[id].user]
       else after.permits == w.permits
  }

  lemma CollectEffect(w: World, step: Step, id: nat)
    requires Sound(w) && Enabled(w, step) && (step == Collect(id) || step == SettleBound(id))
    ensures Collected(w, Apply(w, step), id)
  {
  }

  /** The waiter is out of the queue, the others stay in it in their order, and one more
      is counted as having given up. */
  ghost predicate LeftQueue(before: Gate, queue: seq<Waiter>, timeouts: nat, id: nat) {
    && timeouts == before.timeoutsTotal + 1
    && (forall u: nat :: Queued(queue, u) <==> Queued(before.queue, u) && u != id)
  }

  /** The bound of a queued waiter elapses: it leaves, and holds nothing. One no longer
      queued goes on to its mailbox. */
  lemma ElapseEffect(w: World, id: nat)
    requires Sound(w) && Enabled(w, ElapseBound(id))
    ensures
      var after := Apply(w, ElapseBound(id));
      && after.permits == w.permits && after.gate.active == w.gate.active
      && if Queued(w.gate.queue, id) then
           after.futures == w.futures - {id} && LeftQueue(w.gate, after.gate.queue, after.gate.timeoutsTotal, id)
         else
           after.futures == w.futures[id := Future(w.futures[id].user, BoundMissed)] && after.gate == w.gate
  {
    NotQueued(w.gate.queue, id);
    match PositionOf(w.gate.queue, id)
    case Some(k) => GiveUpLeaves(w.gate, k, id);
    case None =>
  }

  lemma GiveUpLeaves(gate: Gate, k: nat, id: nat)
    requires k < |gate.queue| && gate.queue[k].id == id && Sorted(gate.queue)
    ensures LeftQueue(gate, gate.GiveUp(k).NotifyPositions().queue, gate.GiveUp(k).timeoutsTotal, id)
  {
    var rest := gate.GiveUp(k).queue;
    forall u: nat
      ensures Queued(Placed(rest), u) <==> Queued(gate.queue, u) && u != id
    {
      PlacedQueued(rest, u);
      WithoutQueued(gate.queue, k, u);
    }
  }

  lemma WithoutQueued(queue: seq<Waiter>, k: nat, u: nat)
    requires k < |queue| && Sorted(queue)
    ensures Queued(queue[..k] + queue[k + 1..], u) <==> Queued(queue, u) && u != queue[k].id
  {
    var rest := queue[..k] + queue[k + 1..];
    if v :| v in queue && v.id == u {
      var i :| 0 <= i < |queue| && queue[i] == v;
      if i < k {
        assert rest[i] == v;
      } else if i > k {
        assert rest[i - 1] == v;
      }
    }
    if v :| v in rest && v.id == u {
      var i :| 0 <= i < |rest| && rest[i] == v;
      assert v == queue[if i < k then i else i + 1];
    }
  }

  /** A queued waiter that is dropped leaves for good; nobody else leaves the queue but
      with an admission. One no longer queued goes on to give back what it was given. */
  lemma CancelEffect(w: World, id: nat)
    requires Sound(w) && Enabled(w, Cancel(id))
    ensures
      var after := Apply(w, Cancel(id));
      && after.permits == w.permits
      && if Queued(w.gate.queue, id) then
           && after.futures == w.futures - {id} && !Queued(after.gate.queue, id)
           && after.gate.timeoutsTotal == w.gate.timeoutsTotal + 1
           && (forall u: nat :: Queued(w.gate.queue, u) && u != id ==>
                 u in after.gate.mail && (after.gate.mail[u] == Admitted <==> !Queued(after.gate.queue, u)))
         else
           after.futures == w.futures[id := Future(w.futures[id].user, DropMissed)] && after.gate == w.gate
  {
    NotQueued(w.gate.queue, id);
    match PositionOf(w.gate.queue, id)
    case None =>
    case Some(k) =>
      forall u: nat
        ensures !Queued(w.gate.GiveUp(k).Dispatch().queue, id)
        ensures Queued(w.gate.queue, u) && u != id ==>
                  var gate := w.gate.GiveUp(k).Dispatch();
                  u in gate.mail && (gate.mail[u] == Admitted <==> !Queued(gate.queue, u))
      {
        CancelAnswers(w, k, id, u);
      }
      CancelCounts(w.gate.GiveUp(k));
  }

  lemma CancelCounts(pre: Gate)
    ensures pre.Dispatch().timeoutsTotal == pre.timeoutsTotal
  {
    SweepFrame(pre.PruneClosed().(queue := []), pre.PruneClosed().queue);
  }

  lemma DispatchSweeps(pre: Gate)
    requires Listening(pre.queue, pre.mail) == pre.queue
    ensures
      var swept := Sweep(pre.(queue := []), pre.queue);
      pre.Dispatch().queue == Placed(swept.kept) && pre.Dispatch().mail == swept.gate.mail
  {
  }

  lemma CancelLeaves(w: World, k: nat, id: nat)
    requires Sound(w) && k < |w.gate.queue| && w.gate.queue[k].id == id
    ensures !Queued(w.gate.GiveUp(k).Dispatch().queue, id)
  {
    var pre := w.gate.GiveUp(k);
    OrderlyGate(w);
    OrderlyGiveUp(w.gate, k);
    PruneRemovesNobody(pre.queue, pre.mail);
    DispatchSweeps(pre);
    WithoutQueued(w.gate.queue, k, id);
    SweepFrame(pre.(queue := []), pre.queue);
    PlacedQueued(Sweep(pre.(queue := []), pre.queue).kept, id);
  }

  lemma CancelAwaited(w: World, k: nat)
    requires Sound(w) && k < |w.gate.queue|
    ensures
      var pre := w.gate.GiveUp(k);
      Listening(pre.queue, pre.mail) == pre.queue && Awaited(pre.queue, pre.mail, w.futures)
  {
    OrderlyGate(w);
    OrderlyGiveUp(w.gate, k);
    PruneRemovesNobody(w.gate.GiveUp(k).queue, w.gate.GiveUp(k).mail);
  }

  lemma CancelSpares(w: World, k: nat, id: nat, u: nat)
    requires Sound(w) && k < |w.gate.queue| && w.gate.queue[k].id == id && Queued(w.gate.queue, u) && u != id
    ensures
      var pre := w.gate.GiveUp(k);
      var swept := Sweep(pre.(queue := []), pre.queue);
      && Listening(pre.queue, pre.mail) == pre.queue
      && u in swept.gate.mail && (swept.gate.mail[u] == Admitted <==> !Queued(swept.kept, u))
  {
    CancelAwaited(w, k);
    OrderlyGate(w);
    WithoutQueued(w.gate.queue, k, u);
    QueueAnswered(w.gate.GiveUp(k).(queue := []), w.gate.GiveUp(k).queue, w.futures, u);
  }

  lemma CancelAnswers(w: World, k: nat, id: nat, u: nat)
    requires Sound(w) && k < |w.gate.queue| && w.gate.queue[k].id == id
    ensures !Queued(w.gate.GiveUp(k).Dispatch().queue, id)
    ensures Queued(w.gate.queue, u) && u != id ==>
              var gate := w.gate.GiveUp(k).Dispatch();
              u in gate.mail && (gate.mail[u] == Admitted <==> !Queued(gate.queue, u))
  {
    CancelLeaves(w, k, id);
    if Queued(w.gate.queue, u) && u != id {
      var pre := w.gate.GiveUp(k);
      CancelSpares(w, k, id, u);
      DispatchSweeps(pre);
      PlacedQueued(Sweep(pre.(queue := []), pre.queue).kept, u);
    }
  }

  /** The rest of a drop, and the drop of a permit: the future or the permit is gone, and
      no other. */
  lemma DropEffect(w: World, id: nat, permit: nat)
    ensures Enabled(w, FinishCancel(id)) ==>
              Apply(w, FinishCancel(id)).futures == w.futures - {id} && Apply(w, FinishCancel(id)).permits == w.permits
    ensures Enabled(w, DropPermit(permit)) ==>
              && Apply(w, DropPermit(permit)).permits == w.permits - {permit}
              && Apply(w, DropPermit(permit)).futures == w.futures
  {
  }

  // ---------------------------------------------------------------------
  // Closing and resizing.

  /** Closing empties the queue and tells every waiter so; what was admitted stays. */
  lemma CloseEffect(w: World)
    requires Sound(w)
    ensures
      var after := Apply(w, CloseGate);
      && after.gate.queue == [] && after.gate.timeoutsTotal == w.gate.timeoutsTotal + |w.gate.queue|
      && after.gate.mail.Keys == w.gate.mail.Keys
      && (forall id :: id in w.gate.mail ==>
            after.gate.mail[id] == if Queued(w.gate.queue, id) then Closed else w.gate.mail[id])
      && after.gate.active == w.gate.active && after.gate.perUser == w.gate.perUser
      && after.permits == w.permits && after.futures == w.futures && after.gate.grants == w.gate.grants
  {
  }

  /** The number in the range nearest to the one asked for. */
  ghost predicate Nearest(asked: nat, low: nat, high: nat, result: nat) {
    && low <= result <= high && (low <= asked <= high ==> result == asked)
    && (asked < low ==> result == low) && (asked > high ==> result == high)
  }

  ghost predicate OnlyLimits(w: World, after: World, capacity: nat, share: nat, depth: nat) {
    && after.gate.capacity == capacity && after.gate.perUserActive == share && after.gate.chatQueueDepth == depth
    && after.permits == w.permits && after.futures == w.futures && after.nextPermit == w.nextPermit
  }

  /** Each setter puts its own limit to the nearest number allowed, and no other. */
  lemma LimitEffects(w: World, n: nat)
    ensures
      var sized, shared := Apply(w, SetCapacity(n)), Apply(w, SetPerUserActive(n));
      var deep := Apply(w, SetChatQueueDepth(n));
      && Nearest(n, 1, 1024, sized.gate.capacity)
      && OnlyLimits(w, sized, sized.gate.capacity, w.gate.perUserActive, w.gate.chatQueueDepth)
      && Nearest(n, 1, 16, shared.gate.perUserActive)
      && OnlyLimits(w, shared, w.gate.capacity, shared.gate.perUserActive, w.gate.chatQueueDepth)
      && Nearest(n, 1, 1024, deep.gate.chatQueueDepth)
      && OnlyLimits(w, deep, w.gate.capacity, w.gate.perUserActive, deep.gate.chatQueueDepth)
  {
    DispatchLimits(w.gate.(capacity := Clamp(n, CAPACITY_MIN, CAPACITY_MAX)));
    DispatchLimits(w.gate.(perUserActive := Clamp(n, PER_USER_MIN, PER_USER_MAX)));
  }

  lemma DispatchLimits(pre: Gate)
    ensures pre.SameLimits(pre.Dispatch())
  {
    SweepFrame(pre.PruneClosed().(queue := []), pre.PruneClosed().queue);
  }

  /** A configuration is put to the nearest one allowed, field by field. */
  lemma ConfigEffect(w: World, config: GateConfig)
    ensures
      var after := ConfigApplied(w, config).gate;
      && Nearest(config.maxParallel, 1, 64, after.capacity)
      && Nearest(config.perUserActive, 1, 16, after.perUserActive)
      && Nearest(config.chatQueueDepth, 1, 1024, after.chatQueueDepth)
  {
    var clamped := Clamped(config);
    var first := Apply(w, SetPerUserActive(clamped.perUserActive));
    var second := Apply(first, SetChatQueueDepth(clamped.chatQueueDepth));
    LimitEffects(w, clamped.perUserActive);
    LimitEffects(first, clamped.chatQueueDepth);
    LimitEffects(second, clamped.maxParallel);
  }

  /** A gate starts empty, with the defaults and the nearest capacity allowed. */
  lemma InitEffect(n: nat)
    ensures
      var w := Init(n);
      && Nearest(n, 1, 1024, w.gate.capacity) && w.gate.perUserActive == 2 && w.gate.chatQueueDepth == 64
      && w.gate.active == 0 && w.gate.perUser == map[] && w.gate.queue == [] && w.gate.grants == []
      && w.permits == map[] && w.futures == map[]
  {
  }

  // ---------------------------------------------------------------------
  // Every position is told.

  /** The position a waiter was last told is in the log of what it was told. */
  ghost predicate Told(gate: Gate) {
    forall w :: w in gate.queue && w.lastPosition.Some? ==> Report(w.id, w.lastPosition.value) in gate.reports
  }

  lemma {:induction false} MovesTell(queue: seq<Waiter>, from: nat, k: nat)
    requires from <= k < |queue| && queue[k].lastPosition != Some(k)
    ensures Report(queue[k].id, k) in Moves(queue, from)
    decreases |queue| - from
  {
    if from < k {
      MovesTell(queue, from + 1, k);
    }
  }

  lemma NotifyTells(gate: Gate)
    requires Told(gate)
    ensures Told(gate.NotifyPositions())
  {
    var after := gate.NotifyPositions();
    forall w | w in after.queue
      ensures Report(w.id, w.lastPosition.value) in after.reports
    {
      var k :| 0 <= k < |gate.queue| && after.queue[k] == w;
      assert gate.queue[k] in gate.queue;
      if gate.queue[k].lastPosition != Some(k) {
        MovesTell(gate.queue, 0, k);
      }
    }
  }

  lemma DispatchTells(gate: Gate)
    requires Told(gate)
    ensures Told(gate.Dispatch())
  {
    var pruned := gate.PruneClosed();
    ListeningSubset(gate.queue, gate.mail);
    SweepFrame(pruned.(queue := []), pruned.queue);
    NotifyTells(pruned.AdmitQueued());
  }

  lemma StepTells(w: World, step: Step)
    requires Enabled(w, step) && Told(w.gate)
    ensures Told(Apply(w, step).gate)
  {
    StepDispatches(w, step);
    match Dispatched(w, step)
    case Some(pre) =>
      assert Told(pre);
      DispatchTells(pre);
    case None =>
      match step
      case ElapseBound(id) =>
        var k := PositionOf(w.gate.queue, id);
        if k.Some? {
          NotifyTells(w.gate.GiveUp(k.value));
        }
      case _ =>
  }

  /** In every run, a queued waiter has been told its present index, and told nothing
      smaller: with the reports to one waiter descending, it was told that last. */
  lemma {:induction false} RunTells(run: seq<World>, steps: seq<Step>, i: nat)
    requires IsRun(run, steps) && i < |run|
    ensures Told(run[i].gate)
    decreases i
  {
    if i > 0 {
      RunTells(run, steps, i - 1);
      StepTells(run[i - 1], steps[i - 1]);
    }
  }
}
