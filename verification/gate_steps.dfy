/** Every step of every caller keeps the gate sound. */
module GateSteps {
  import opened Wrappers
  import opened GateState
  import opened GateProtocol
  import opened GateInvariants

  lemma CoherentIgnoresLimits(gate: Gate, futures: map<nat, Future>, permits: Holders, leaving: set<nat>,
                              slots: nat, share: nat, depth: nat)
    requires Coherent(gate, futures, permits, leaving)
    ensures Coherent(gate.(capacity := slots, perUserActive := share, chatQueueDepth := depth), futures, permits,
            leaving)
  {
    var resized := gate.(capacity := slots, perUserActive := share, chatQueueDepth := depth);
    assert Channels(resized, futures, leaving);
    assert Accounted(resized, permits, Parked(resized.mail, futures, leaving)) by {
      forall u: UserId
        ensures resized.HeldBy(u) == Share(permits, u) + Share(Parked(gate.mail, futures, leaving), u)
      {
        assert gate.HeldBy(u) == Share(permits, u) + Share(Parked(gate.mail, futures, leaving), u);
      }
    }
  }

  // ---------------------------------------------------------------------
  // Entering.

  lemma NewGrantFair(grants: seq<Grant>, grant: Grant, nextId: nat)
    requires Fair(grants, [], nextId)
    requires !grant.ToWaiter? && grant.Arrival() == nextId
    ensures Fair(grants + [grant], [], nextId)
  {
    var more := grants + [grant];
    forall a, b | 0 <= a < b < |more|
      ensures InOrder(more[a], more[b])
    {
      assert more[a] in grants;
    }
  }

  lemma GrantAccounts(gate: Gate, gate': Gate, user: Option<UserId>, permits: Holders, parked: Holders, permit: nat)
    requires Accounted(gate, permits, parked) && permit !in permits
    requires gate'.active == gate.active + 1 && gate'.perUser == gate.TakeSlot(user).perUser
    ensures Accounted(gate', permits[permit := user], parked)
  {
    ShareInsert(permits, permit, user);
    TakeAccounts(gate, user, permits, parked, permits[permit := user], parked);
    AccountedElsewhere(gate.TakeSlot(user), gate', permits[permit := user], parked);
  }

  lemma GrantOnEntryCoherent(gate: Gate, user: Option<UserId>, futures: map<nat, Future>, permits: Holders, permit: nat)
    requires Coherent(gate, futures, permits, {}) && gate.queue == [] && permit !in permits
    ensures Coherent(gate.GrantOnEntry(user), futures, permits[permit := user], {})
    ensures Settled(gate.GrantOnEntry(user))
  {
    NewGrantFair(gate.grants, OnEntry(gate.nextId, user), gate.nextId);
    CountOneMore(gate.grants, OnEntry(gate.nextId, user));
    GrantAccounts(gate, gate.GrantOnEntry(user), user, permits, Parked(gate.mail, futures, {}), permit);
  }

  lemma GrantInBackgroundCoherent(gate: Gate, futures: map<nat, Future>, permits: Holders, permit: nat)
    requires Coherent(gate, futures, permits, {}) && gate.queue == [] && permit !in permits
    ensures Coherent(gate.GrantInBackground(), futures, permits[permit := None], {})
    ensures Settled(gate.GrantInBackground())
  {
    NewGrantFair(gate.grants, InBackground(gate.nextId), gate.nextId);
    CountOneMore(gate.grants, InBackground(gate.nextId));
    GrantAccounts(gate, gate.GrantInBackground(), None, permits, Parked(gate.mail, futures, {}), permit);
  }

  lemma EnqueueQueued(gate: Gate, user: Option<UserId>, id: nat)
    ensures Queued(gate.Enqueue(user).queue, id) <==> id == gate.nextId || Queued(gate.queue, id)
  {
    var newcomer := Waiter(gate.nextId, user, None);
    assert forall w :: w in gate.Enqueue(user).queue <==> w in gate.queue || w == newcomer;
  }

  lemma EnqueueAwaited(gate: Gate, user: Option<UserId>, futures: map<nat, Future>)
    requires Awaited(gate.queue, gate.mail, futures)
    requires forall w :: w in gate.queue ==> w.id < gate.nextId
    ensures Awaited(gate.Enqueue(user).queue, gate.Enqueue(user).mail, futures[gate.nextId := Future(user, Awaiting)])
  {
    assert forall k :: 0 <= k < |gate.queue| ==> gate.queue[k] in gate.queue;
  }

  lemma EnqueueChannels(gate: Gate, user: Option<UserId>, futures: map<nat, Future>)
    requires Channels(gate, futures, {})
    requires forall w :: w in gate.queue ==> w.id < gate.nextId
    ensures Channels(gate.Enqueue(user), futures[gate.nextId := Future(user, Awaiting)], {})
    ensures Parked(gate.Enqueue(user).mail, futures[gate.nextId := Future(user, Awaiting)], {})
            == Parked(gate.mail, futures, {})
  {
    EnqueueAwaited(gate, user, futures);
    EnqueueQueuedAll(gate, user);
    EnqueueParked(gate.mail, futures, gate.nextId, user);
  }

  /** A future that waits holds no slot. */
  lemma EnqueueParked(mail: map<nat, Mail>, futures: map<nat, Future>, id: nat, user: Option<UserId>)
    requires id !in mail
    ensures Parked(mail[id := Empty], futures[id := Future(user, Awaiting)], {}) == Parked(mail, futures, {})
  {
  }

  lemma EnqueueQueuedAll(gate: Gate, user: Option<UserId>)
    ensures forall id: nat :: Queued(gate.Enqueue(user).queue, id) <==> id == gate.nextId || Queued(gate.queue, id)
  {
    forall id: nat
      ensures Queued(gate.Enqueue(user).queue, id) <==> id == gate.nextId || Queued(gate.queue, id)
    {
      EnqueueQueued(gate, user, id);
    }
  }

  lemma EnqueueCoherent(gate: Gate, user: Option<UserId>, futures: map<nat, Future>, permits: Holders)
    requires Coherent(gate, futures, permits, {})
    ensures Coherent(gate.Enqueue(user), futures[gate.nextId := Future(user, Awaiting)], permits, {})
  {
    EnqueueChannels(gate, user, futures);
    AccountedElsewhere(gate, gate.Enqueue(user), permits, Parked(gate.mail, futures, {}));
    EnqueueFair(gate, user);
  }

  lemma EnqueueFair(gate: Gate, user: Option<UserId>)
    requires Fair(gate.grants, gate.queue, gate.nextId)
    requires NotBehind(gate.queue) && Reported(gate.reports, gate.queue, gate.nextId)
    ensures Fair(gate.grants, gate.Enqueue(user).queue, gate.nextId + 1)
    ensures NotBehind(gate.Enqueue(user).queue)
    ensures Reported(gate.reports, gate.Enqueue(user).queue, gate.nextId + 1)
  {
  }

  /** Slots are accounted for by the slot fields alone. */
  lemma AccountedElsewhere(gate: Gate, gate': Gate, permits: Holders, parked: Holders)
    requires Accounted(gate, permits, parked)
    requires gate'.active == gate.active && gate'.perUser == gate.perUser
    ensures Accounted(gate', permits, parked)
  {
    forall u: UserId
      ensures gate'.HeldBy(u) == Share(permits, u) + Share(parked, u)
    {
      assert gate.HeldBy(u) == Share(permits, u) + Share(parked, u);
    }
  }

  // ---------------------------------------------------------------------
  // Leaving the queue.

  lemma Without(waiters: seq<Waiter>, k: nat)
    requires k < |waiters| && Sorted(waiters)
    ensures
      var rest := waiters[..k] + waiters[k + 1..];
      && Sorted(rest)
      && (forall w :: w in rest <==> w in waiters && w != waiters[k])
      && (forall id :: Queued(rest, id) <==> Queued(waiters, id) && id != waiters[k].id)
  {
    var rest := waiters[..k] + waiters[k + 1..];
    assert forall i :: 0 <= i < |rest| ==> rest[i] == waiters[if i < k then i else i + 1];
    forall w | w in waiters && w != waiters[k]
      ensures w in rest && w.id != waiters[k].id
    {
      var i :| 0 <= i < |waiters| && waiters[i] == w;
      assert rest[if i < k then i else i - 1] == w;
    }
    forall w | w in rest
      ensures w in waiters && w.id != waiters[k].id
    {
      var i :| 0 <= i < |rest| && rest[i] == w;
    }
  }

  lemma GiveUpChannels(gate: Gate, k: nat, futures: map<nat, Future>)
    requires Channels(gate, futures, {}) && k < |gate.queue|
    ensures Channels(gate.GiveUp(k), futures, {gate.queue[k].id})
    ensures Parked(gate.mail, futures, {gate.queue[k].id}) == Parked(gate.mail, futures, {})
  {
    Without(gate.queue, k);
    assert gate.queue[k] in gate.queue;
  }

  lemma GiveUpPositions(gate: Gate, k: nat)
    requires Sorted(gate.queue) && k < |gate.queue|
    requires Fair(gate.grants, gate.queue, gate.nextId)
    requires NotBehind(gate.queue) && Reported(gate.reports, gate.queue, gate.nextId)
    ensures Fair(gate.grants, gate.GiveUp(k).queue, gate.nextId)
    ensures NotBehind(gate.GiveUp(k).queue)
    ensures Reported(gate.reports, gate.GiveUp(k).queue, gate.nextId)
    ensures WorkConserving(gate) ==> WorkConserving(gate.GiveUp(k))
  {
    Without(gate.queue, k);
    var rest := gate.GiveUp(k).queue;
    forall i | 0 <= i < |rest| && rest[i].lastPosition.Some?
      ensures i <= rest[i].lastPosition.value
    {
      assert rest[i] == gate.queue[if i < k then i else i + 1];
    }
  }

  lemma GiveUpCoherent(gate: Gate, k: nat, futures: map<nat, Future>, permits: Holders)
    requires Coherent(gate, futures, permits, {}) && k < |gate.queue|
    ensures Coherent(gate.GiveUp(k), futures, permits, {gate.queue[k].id})
  {
    GiveUpChannels(gate, k, futures);
    GiveUpPositions(gate, k);
    AccountedElsewhere(gate, gate.GiveUp(k), permits, Parked(gate.mail, futures, {}));
  }

  lemma CloseCoherent(gate: Gate, futures: map<nat, Future>, permits: Holders)
    requires Coherent(gate, futures, permits, {})
    ensures Coherent(gate.Close(), futures, permits, {})
    ensures Settled(gate.Close())
  {
    var after := gate.Close();
    assert Parked(after.mail, futures, {}) == Parked(gate.mail, futures, {});
    AccountedElsewhere(gate, after, permits, Parked(gate.mail, futures, {}));
    forall id | id in gate.mail && gate.mail[id] == Empty
      ensures after.mail[id] == Closed
    {
      assert Queued(gate.queue, id);
    }
    assert Channels(after, futures, {});
  }

  // ---------------------------------------------------------------------
  // Ending a future.

  lemma EndFutureChannels(gate: Gate, id: nat, futures: map<nat, Future>)
    requires Channels(gate, futures, {id})
    ensures Channels(gate.(mail := gate.mail - {id}), futures - {id}, {})
    ensures Parked(gate.mail - {id}, futures - {id}, {}) == Parked(gate.mail, futures, {id})
  {
    assert forall w :: w in gate.queue ==> Queued(gate.queue, w.id);
  }

  lemma EndFutureCoherent(gate: Gate, id: nat, futures: map<nat, Future>, permits: Holders)
    requires Coherent(gate, futures, permits, {id})
    ensures Coherent(gate.(mail := gate.mail - {id}), futures - {id}, permits, {})
    ensures Settled(gate) ==> Settled(gate.(mail := gate.mail - {id}))
  {
    EndFutureChannels(gate, id, futures);
    AccountedElsewhere(gate, gate.(mail := gate.mail - {id}), permits, Parked(gate.mail, futures, {id}));
  }

  /** A future that holds no admission leaves nothing behind. */
  lemma LeaveEmptyHanded(gate: Gate, id: nat, futures: map<nat, Future>, permits: Holders)
    requires Coherent(gate, futures, permits, {})
    requires id in gate.mail && gate.mail[id] != Admitted && !Queued(gate.queue, id)
    ensures Coherent(gate, futures, permits, {id})
  {
    assert Parked(gate.mail, futures, {id}) == Parked(gate.mail, futures, {});
  }

  /** The admission a future holds becomes a permit. */
  lemma CollectCoherent(gate: Gate, id: nat, futures: map<nat, Future>, permits: Holders, permit: nat)
    requires Coherent(gate, futures, permits, {}) && permit !in permits
    requires id in futures && id in gate.mail && gate.mail[id] == Admitted
    ensures Coherent(gate, futures, permits[permit := futures[id].user], {id})
  {
    var parked := Parked(gate.mail, futures, {});
    var parked' := Parked(gate.mail, futures, {id});
    assert parked' == parked - {id};
    ShareRemove(parked, id);
    ShareInsert(permits, permit, futures[id].user);
    AdmittedNotQueued(gate, id, futures);
    forall u: UserId
      ensures gate.HeldBy(u) == Share(permits[permit := futures[id].user], u) + Share(parked', u)
    {
      assert gate.HeldBy(u) == Share(permits, u) + Share(parked, u);
    }
  }

  lemma AdmittedNotQueued(gate: Gate, id: nat, futures: map<nat, Future>)
    requires Channels(gate, futures, {})
    requires id in gate.mail && gate.mail[id] != Empty
    ensures !Queued(gate.queue, id)
  {
  }

  lemma FreeCoherent(gate: Gate, user: Option<UserId>, futures: map<nat, Future>, permits: Holders, permits': Holders,
                     leaving: set<nat>)
    requires Coherent(gate, futures, permits, {})
    requires forall id :: id in leaving ==> !Queued(gate.queue, id)
    requires
      var parked, parked' := Parked(gate.mail, futures, {}), Parked(gate.mail, futures, leaving);
      && |permits'| + |parked'| + 1 == |permits| + |parked|
      && forall u: UserId :: Share(permits', u) + Share(parked', u) + (if user == Some(u) then 1 else 0)
                             == Share(permits, u) + Share(parked, u)
    ensures Coherent(gate.FreeSlot(user), futures, permits', leaving)
  {
    FreeAccounts(gate, user, permits, Parked(gate.mail, futures, {}), permits', Parked(gate.mail, futures, leaving));
  }

  /** A dropped permit gives its slot back. */
  lemma DropPermitCoherent(gate: Gate, futures: map<nat, Future>, permits: Holders, permit: nat)
    requires Coherent(gate, futures, permits, {}) && permit in permits
    ensures Coherent(gate.FreeSlot(permits[permit]), futures, permits - {permit}, {})
  {
    ShareRemove(permits, permit);
    FreeCoherent(gate, permits[permit], futures, permits, permits - {permit}, {});
  }

  /** So does an admission whose future was dropped before collecting it. */
  lemma DropAdmissionCoherent(gate: Gate, id: nat, futures: map<nat, Future>, permits: Holders)
    requires Coherent(gate, futures, permits, {})
    requires id in futures && id in gate.mail && gate.mail[id] == Admitted
    ensures Coherent(gate.FreeSlot(futures[id].user), futures, permits, {id})
  {
    var parked := Parked(gate.mail, futures, {});
    assert Parked(gate.mail, futures, {id}) == parked - {id};
    ShareRemove(parked, id);
    AdmittedNotQueued(gate, id, futures);
    FreeCoherent(gate, futures[id].user, futures, permits, permits, {id});
  }

  /** Missing the queue only moves the future on. */
  lemma MissCoherent(gate: Gate, id: nat, futures: map<nat, Future>, permits: Holders, stage: Stage)
    requires Coherent(gate, futures, permits, {}) && id in futures && !Queued(gate.queue, id)
    ensures Coherent(gate, futures[id := futures[id].(stage := stage)], permits, {})
  {
    var moved := futures[id := futures[id].(stage := stage)];
    assert Parked(gate.mail, moved, {}) == Parked(gate.mail, futures, {});
    assert Awaited(gate.queue, gate.mail, moved) by {
      assert forall w :: w in gate.queue ==> Queued(gate.queue, w.id);
    }
  }

  // ---------------------------------------------------------------------
  // The steps.

  lemma NotQueued(waiters: seq<Waiter>, id: nat)
    ensures PositionOf(waiters, id).None? <==> !Queued(waiters, id)
  {
  }

  lemma EnterSound(w: World, user: Option<UserId>)
    requires Sound(w)
    ensures Sound(Apply(w, Enter(user)))
  {
    if FastPath(w.gate, user) {
      GrantOnEntryCoherent(w.gate, user, w.futures, w.permits, w.nextPermit);
    } else {
      EnqueueCoherent(w.gate, user, w.futures, w.permits);
      var futures := w.futures[w.gate.nextId := Future(user, Awaiting)];
      DispatchCoherent(w.gate.Enqueue(user), futures, w.permits, {});
    }
  }

  lemma ReadMailSound(w: World, id: nat)
    requires Sound(w) && id in w.futures && id in w.gate.mail && !Queued(w.gate.queue, id)
    ensures Sound(w.ReadMail(id))
  {
    if w.gate.mail[id] == Admitted {
      var permits := w.permits[w.nextPermit := w.futures[id].user];
      CollectCoherent(w.gate, id, w.futures, w.permits, w.nextPermit);
      EndFutureCoherent(w.gate, id, w.futures, permits);
    } else {
      LeaveEmptyHanded(w.gate, id, w.futures, w.permits);
      EndFutureCoherent(w.gate, id, w.futures, w.permits);
    }
  }

  lemma ElapseBoundSound(w: World, id: nat)
    requires Sound(w) && Enabled(w, ElapseBound(id))
    ensures Sound(Apply(w, ElapseBound(id)))
  {
    NotQueued(w.gate.queue, id);
    match PositionOf(w.gate.queue, id)
    case Some(k) =>
      var left := w.gate.GiveUp(k);
      GiveUpCoherent(w.gate, k, w.futures, w.permits);
      GiveUpPositions(w.gate, k);
      NotifyCoherent(left, w.futures, w.permits, {id});
      NotifyConserves(left);
      EndFutureCoherent(left.NotifyPositions(), id, w.futures, w.permits);
    case None =>
      MissCoherent(w.gate, id, w.futures, w.permits, BoundMissed);
  }

  lemma CancelSound(w: World, id: nat)
    requires Sound(w) && Enabled(w, Cancel(id))
    ensures Sound(Apply(w, Cancel(id)))
  {
    NotQueued(w.gate.queue, id);
    match PositionOf(w.gate.queue, id)
    case Some(k) =>
      var left := w.gate.GiveUp(k);
      GiveUpCoherent(w.gate, k, w.futures, w.permits);
      DispatchCoherent(left, w.futures, w.permits, {id});
      EndFutureCoherent(left.Dispatch(), id, w.futures, w.permits);
    case None =>
      MissCoherent(w.gate, id, w.futures, w.permits, DropMissed);
  }

  lemma FinishCancelSound(w: World, id: nat)
    requires Sound(w) && Enabled(w, FinishCancel(id))
    ensures Sound(Apply(w, FinishCancel(id)))
  {
    if w.gate.mail[id] == Admitted {
      var freed := w.gate.FreeSlot(w.futures[id].user);
      DropAdmissionCoherent(w.gate, id, w.futures, w.permits);
      DispatchCoherent(freed, w.futures, w.permits, {id});
      EndFutureCoherent(freed.Dispatch(), id, w.futures, w.permits);
    } else {
      LeaveEmptyHanded(w.gate, id, w.futures, w.permits);
      EndFutureCoherent(w.gate, id, w.futures, w.permits);
    }
  }

  lemma DropPermitSound(w: World, permit: nat)
    requires Sound(w) && permit in w.permits
    ensures Sound(Apply(w, DropPermit(permit)))
  {
    DropPermitCoherent(w.gate, w.futures, w.permits, permit);
    DispatchCoherent(w.gate.FreeSlot(w.permits[permit]), w.futures, w.permits - {permit}, {});
  }

  lemma ResizeSound(w: World, slots: nat, share: nat)
    requires Sound(w)
    ensures Sound(w.(gate := w.gate.(capacity := slots, perUserActive := share).Dispatch()))
  {
    CoherentIgnoresLimits(w.gate, w.futures, w.permits, {}, slots, share, w.gate.chatQueueDepth);
    DispatchCoherent(w.gate.(capacity := slots, perUserActive := share), w.futures, w.permits, {});
  }

  /** Whatever a caller does next, the gate is sound again when the lock is free. */
  lemma StepSound(w: World, step: Step)
    requires Sound(w) && Enabled(w, step)
    ensures Sound(Apply(w, step))
  {
    match step
    case Enter(user) => EnterSound(w, user);
    case TryEnter =>
      if w.gate.queue == [] {
        GrantInBackgroundCoherent(w.gate, w.futures, w.permits, w.nextPermit);
      }
    case Collect(id) =>
      AdmittedNotQueued(w.gate, id, w.futures);
      ReadMailSound(w, id);
    case ElapseBound(id) => ElapseBoundSound(w, id);
    case SettleBound(id) => ReadMailSound(w, id);
    case Cancel(id) => CancelSound(w, id);
    case FinishCancel(id) => FinishCancelSound(w, id);
    case DropPermit(permit) => DropPermitSound(w, permit);
    case CloseGate => CloseCoherent(w.gate, w.futures, w.permits);
    case SetCapacity(n) => ResizeSound(w, Clamp(n, CAPACITY_MIN, CAPACITY_MAX), w.gate.perUserActive);
    case SetPerUserActive(n) => ResizeSound(w, w.gate.capacity, Clamp(n, PER_USER_MIN, PER_USER_MAX));
    case SetChatQueueDepth(n) =>
      var depth := Clamp(n, QUEUE_DEPTH_MIN, QUEUE_DEPTH_MAX);
      CoherentIgnoresLimits(w.gate, w.futures, w.permits, {}, w.gate.capacity, w.gate.perUserActive, depth);
      SettledIgnoresDepth(w.gate, depth);
  }

  lemma SettledIgnoresDepth(gate: Gate, depth: nat)
    requires Settled(gate)
    ensures Settled(gate.(chatQueueDepth := depth))
  {
    var resized := gate.(chatQueueDepth := depth);
    assert forall w :: w in gate.queue ==> gate.AtUserCap(w.user) == resized.AtUserCap(w.user);
  }

  lemma InitSound(capacity: nat)
    ensures Sound(Init(capacity))
  {
    var w := Init(capacity);
    assert Parked(w.gate.mail, w.futures, {}) == map[];
    assert forall u: UserId :: OwnedBy(map[], u) == {};
  }
}
