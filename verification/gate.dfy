/**
 The admission gate as the code runs it: fields updated in place under the lock,
 with `dispatch` rescanning the queue from its head. Every method is proved to
 be the step of the same name of `GateProtocol`.
 */
module LlmGates {
  import opened Wrappers
  import opened GateState
  import opened GateProtocol

  /** Why a wait-class admission got no slot. */
  datatype GateError = Timeout | WasClosed

  datatype Entry = Running(permit: nat) | Queued(id: nat)

  /** Everything under the lock, with the channels its senders write to. */
  class Inner {
    var capacity: nat
    var perUserActive: nat
    var chatQueueDepth: nat
    var active: nat
    var perUser: map<UserId, nat>
    var queue: seq<Waiter>
    var nextId: nat
    var admissionsTotal: nat
    var timeoutsTotal: nat
    var waitCount: nat
    var mail: map<nat, Mail>
    ghost var grants: seq<Grant>
    ghost var reports: seq<Report>

    ghost function Contents(): Gate
      reads this
    {
      Gate(capacity, perUserActive, chatQueueDepth, active, perUser, queue, nextId,
           admissionsTotal, timeoutsTotal, waitCount, mail, grants, reports)
    }

    constructor (n: nat)
      ensures Contents() == Init(n).gate
    {
      capacity := Clamp(n, CAPACITY_MIN, CAPACITY_MAX);
      perUserActive := DEFAULT_PER_USER_ACTIVE;
      chatQueueDepth := DEFAULT_CHAT_QUEUE_DEPTH;
      active, perUser, queue, nextId := 0, map[], [], 0;
      admissionsTotal, timeoutsTotal, waitCount, mail := 0, 0, 0, map[];
      grants, reports := [], [];
    }

    predicate AtUserCap(user: Option<UserId>)
      reads this
      ensures AtUserCap(user) == Contents().AtUserCap(user)
    {
      match user
      case Some(u) => (if u in perUser then perUser[u] else 0) >= perUserActive
      case None => false
    }

    method TakeSlot(user: Option<UserId>)
      modifies `active, `perUser, `admissionsTotal
      ensures Contents() == old(Contents()).TakeSlot(user)
    {
      active := active + 1;
      if user.Some? {
        var held := if user.value in perUser then perUser[user.value] else 0;
        perUser := perUser[user.value := held + 1];
      }
      admissionsTotal := admissionsTotal + 1;
    }

    method FreeSlot(user: Option<UserId>)
      modifies `active, `perUser
      ensures Contents() == old(Contents()).FreeSlot(user)
    {
      active := if active == 0 then 0 else active - 1;
      if user.Some? && user.value in perUser {
        var held := perUser[user.value];
        held := if held == 0 then 0 else held - 1;
        if held == 0 {
          perUser := perUser - {user.value};
        } else {
          perUser := perUser[user.value := held];
        }
      }
    }

    method RecordWait()
      modifies `waitCount
      ensures Contents() == old(Contents()).RecordWait()
    {
      waitCount := waitCount + 1;
    }

    /** The first waiter from the head whose user is under its cap. */
    method FirstAdmissible() returns (k: Option<nat>)
      ensures k.Some? ==> k.value < |queue| && !AtUserCap(queue[k.value].user)
      ensures k.Some? ==> forall j :: 0 <= j < k.value ==> AtUserCap(queue[j].user)
      ensures k.None? ==> forall w :: w in queue ==> AtUserCap(w.user)
    {
      var i := 0;
      while i < |queue|
        invariant i <= |queue|
        invariant forall j :: 0 <= j < i ==> AtUserCap(queue[j].user)
      {
        if !AtUserCap(queue[i].user) {
          return Some(i);
        }
        i := i + 1;
      }
      return None;
    }

    /** Hand the slot over, or give it straight back when nobody listens. */
    method Admit(waiter: Waiter)
      modifies `active, `perUser, `admissionsTotal, `waitCount, `mail, `grants
      ensures Contents() == old(Contents()).Admit(waiter)
    {
      TakeSlot(waiter.user);
      RecordWait();
      if waiter.id in mail {
        mail := mail[waiter.id := Admitted];
        grants := grants + [ToWaiter(waiter.id, waiter.user)];
      } else {
        FreeSlot(waiter.user);
      }
    }

    method AdmitAt(k: nat)
      requires k < |queue|
      modifies `active, `perUser, `queue, `admissionsTotal, `waitCount, `mail, `grants
      ensures Contents().(queue := []) == old(Contents().(queue := []).Admit(queue[k]))
      ensures queue == old(queue[..k] + queue[k + 1..])
    {
      var waiter := queue[k];
      queue := queue[..k] + queue[k + 1..];
      Admit(waiter);
    }

    method AdmitQueued()
      modifies `active, `perUser, `queue, `admissionsTotal, `waitCount, `mail, `grants
      ensures Contents() == old(Contents()).AdmitQueued()
    {
      ghost var before, waiting := Contents().(queue := []), queue;
      while active < capacity
        invariant Sweep(Contents().(queue := []), queue) == Sweep(before, waiting)
        decreases |queue|
      {
        var k := FirstAdmissible();
        if k.None? {
          SweepAllCapped(Contents().(queue := []), queue);
          break;
        }
        SweepRescans(Contents().(queue := []), queue, k.value);
        AdmitAt(k.value);
      }
      assert Sweep(before, waiting) == Swept(Contents().(queue := []), queue);
    }

    method PruneClosed()
      modifies `queue
      ensures Contents() == old(Contents()).PruneClosed()
    {
      queue := Listening(queue, mail);
    }

    method NotifyPositions()
      modifies `queue, `reports
      ensures Contents() == old(Contents()).NotifyPositions()
    {
      ghost var was := queue;
      for k := 0 to |queue|
        invariant |queue| == |was|
        invariant forall j :: 0 <= j < k ==> queue[j] == Placed(was)[j]
        invariant forall j :: k <= j < |queue| ==> queue[j] == was[j]
        invariant reports + Moves(was, k) == old(reports) + Moves(was, 0)
      {
        if queue[k].lastPosition != Some(k) {
          reports := reports + [Report(queue[k].id, k)];
          queue := queue[k := queue[k].(lastPosition := Some(k))];
        }
      }
      assert queue == Placed(was);
    }

    method Dispatch()
      modifies `active, `perUser, `queue, `admissionsTotal, `waitCount, `mail, `grants, `reports
      ensures Contents() == old(Contents()).Dispatch()
    {
      PruneClosed();
      AdmitQueued();
      NotifyPositions();
    }

    method GrantOnEntry(user: Option<UserId>)
      modifies `active, `perUser, `admissionsTotal, `waitCount, `grants
      ensures Contents() == old(Contents()).GrantOnEntry(user)
    {
      TakeSlot(user);
      RecordWait();
      grants := grants + [OnEntry(nextId, user)];
    }

    method GrantInBackground()
      modifies `active, `perUser, `admissionsTotal, `grants
      ensures Contents() == old(Contents()).GrantInBackground()
    {
      TakeSlot(None);
      grants := grants + [InBackground(nextId)];
    }

    method Enqueue(user: Option<UserId>) returns (id: nat)
      modifies `nextId, `mail, `queue
      ensures Contents() == old(Contents()).Enqueue(user)
      ensures id == old(nextId)
    {
      id := nextId;
      nextId := nextId + 1;
      mail := mail[id := Empty];
      queue := queue + [Waiter(id, user, None)];
    }

    method GiveUp(k: nat)
      requires k < |queue|
      modifies `queue, `timeoutsTotal
      ensures Contents() == old(Contents()).GiveUp(k)
    {
      queue := queue[..k] + queue[k + 1..];
      timeoutsTotal := timeoutsTotal + 1;
    }

    method Release(user: Option<UserId>)
      modifies `active, `perUser, `queue, `admissionsTotal, `waitCount, `mail, `grants, `reports
      ensures Contents() == old(Contents()).Release(user)
    {
      FreeSlot(user);
      Dispatch();
    }

    method Close()
      modifies `queue, `timeoutsTotal, `mail
      ensures Contents() == old(Contents()).Close()
    {
      var waiters := queue;
      queue := [];
      timeoutsTotal := timeoutsTotal + |waiters|;
      for k := 0 to |waiters|
        modifies `mail
        invariant mail == SendClosed(old(mail), waiters[..k])
      {
        assert forall w :: w in waiters[..k + 1] <==> w in waiters[..k] || w == waiters[k];
        if waiters[k].id in mail {
          mail := mail[waiters[k].id := Closed];
        }
      }
      assert waiters[..|waiters|] == waiters;
    }

    method DropReceiver(id: nat)
      modifies `mail
      ensures Contents() == old(Contents()).(mail := old(mail) - {id})
    {
      mail := mail - {id};
    }
  }

  /** The gate the surfaces share. `futures` and `permits` are its callers. */
  class LlmGate {
    const inner: Inner
    var nextPermit: nat
    ghost var futures: map<nat, Future>
    ghost var permits: map<nat, Option<UserId>>

    ghost function Everything(): World
      reads this, inner
    {
      World(inner.Contents(), futures, permits, nextPermit)
    }

    /** No permit number is used before it is handed out. */
    ghost predicate Numbered()
      reads this
    {
      forall p :: p in permits ==> p < nextPermit
    }

    constructor (n: nat)
      ensures Everything() == Init(n) && Numbered()
    {
      inner := new Inner(n);
      nextPermit, futures, permits := 0, map[], map[];
    }

    method HandOut(user: Option<UserId>) returns (permit: nat)
      modifies this
      ensures Everything() == old(Everything()).HandOut(user)
      ensures permit == old(nextPermit)
    {
      permit := nextPermit;
      permits := permits[permit := user];
      nextPermit := nextPermit + 1;
    }

    method EndFuture(id: nat)
      modifies this, inner`mail
      ensures Everything() == old(Everything()).EndFuture(id)
    {
      inner.DropReceiver(id);
      futures := futures - {id};
    }

    /** A permit handed out at once is new, and one more slot is taken for it. */
    method EnterGate(user: Option<UserId>) returns (entry: Entry)
      requires Numbered()
      modifies this, inner
      ensures Numbered()
      ensures
        match entry
        case Running(p) =>
          && p !in old(permits) && permits == old(permits)[p := user] && futures == old(futures)
          && inner.active == old(inner.active) + 1
        case Queued(id) => permits == old(permits) && futures == old(futures)[id := Future(user, Awaiting)]
      ensures Everything() == Apply(old(Everything()), Enter(user))
      ensures entry == if FastPath(old(inner.Contents()), user) then Running(old(nextPermit))
              else Queued(old(inner.nextId))
    {
      if inner.queue == [] && inner.active < inner.capacity && !inner.AtUserCap(user) {
        inner.GrantOnEntry(user);
        var permit := HandOut(user);
        return Running(permit);
      }
      var id := inner.Enqueue(user);
      inner.Dispatch();
      futures := futures[id := Future(user, Awaiting)];
      return Queued(id);
    }

    /** A permit handed out is new, and one more slot is taken for it; else nothing changes. */
    method TryEnterGate() returns (permit: Option<nat>)
      requires Numbered()
      modifies this, inner
      ensures Numbered()
      ensures
        match permit
        case Some(p) =>
          && p !in old(permits) && permits == old(permits)[p := None] && futures == old(futures)
          && inner.active == old(inner.active) + 1
        case None => Everything() == old(Everything())
      ensures Everything() == Apply(old(Everything()), TryEnter)
      ensures permit == if old(inner.queue == [] && inner.active < inner.capacity) then Some(old(nextPermit)) else None
    {
      if inner.queue == [] && inner.active < inner.capacity {
        inner.GrantInBackground();
        var p := HandOut(None);
        permit := Some(p);
      } else {
        permit := None;
      }
    }

    /** The future `id` of `user` takes what its mailbox holds and is over:
        the end of `enter`, in the bounded wait or after a missed bound. A permit it
        gets is new; its slot was taken when it was admitted. */
    method ReadMail(id: nat, user: Option<UserId>) returns (outcome: Result<nat, GateError>)
      requires id in futures && id in inner.mail && futures[id].user == user && Numbered()
      modifies this, inner
      ensures Numbered() && futures == old(futures) - {id} && inner.active == old(inner.active)
      ensures
        match outcome
        case Ok(p) => p !in old(permits) && permits == old(permits)[p := user]
        case Err(_) => permits == old(permits)
      ensures Everything() == old(Everything()).ReadMail(id)
      ensures outcome == if old(inner.mail[id]) == Admitted then Ok(old(nextPermit)) else Err(WasClosed)
    {
      var found := inner.mail[id];
      EndFuture(id);
      if found == Admitted {
        var permit := HandOut(user);
        outcome := Ok(permit);
      } else {
        outcome := Err(WasClosed);
      }
    }

    /** The bound elapsed while future `id` was waiting. `None` means it had
        left the queue already and goes on to read its mailbox. */
    method ElapseBoundOf(id: nat) returns (outcome: Option<GateError>)
      requires Enabled(Everything(), ElapseBound(id))
      modifies this, inner
      ensures Everything() == Apply(old(Everything()), ElapseBound(id))
      ensures outcome == if old(PositionOf(inner.queue, id)).Some? then Some(Timeout) else None
    {
      var k := PositionOf(inner.queue, id);
      if k.Some? {
        inner.GiveUp(k.value);
        inner.NotifyPositions();
        EndFuture(id);
        return Some(Timeout);
      }
      futures := futures[id := futures[id].(stage := BoundMissed)];
      return None;
    }

    /** `Drop` of the queued waiter `id`. */
    method CancelWait(id: nat)
      requires Enabled(Everything(), Cancel(id))
      modifies this, inner
      ensures Everything() == Apply(old(Everything()), Cancel(id))
    {
      var k := PositionOf(inner.queue, id);
      if k.Some? {
        inner.GiveUp(k.value);
        inner.Dispatch();
        EndFuture(id);
      } else {
        futures := futures[id := futures[id].(stage := DropMissed)];
      }
    }

    /** The rest of that `Drop` when the waiter was no longer queued: an
        admission nobody will collect gives its slot back. */
    method FinishCancelOf(id: nat, user: Option<UserId>)
      requires Enabled(Everything(), FinishCancel(id)) && futures[id].user == user
      modifies this, inner
      ensures Everything() == Apply(old(Everything()), FinishCancel(id))
    {
      if inner.mail[id] == Admitted {
        inner.Release(user);
      }
      EndFuture(id);
    }

    /** `Drop` of a permit. */
    method ReleasePermit(permit: nat, user: Option<UserId>)
      requires permit in permits && permits[permit] == user
      modifies this, inner
      ensures Everything() == Apply(old(Everything()), DropPermit(permit))
    {
      inner.Release(user);
      permits := permits - {permit};
    }

    method Close()
      modifies inner
      ensures Everything() == Apply(old(Everything()), CloseGate)
    {
      inner.Close();
    }

    method SetCapacityTo(n: nat)
      modifies inner
      ensures Everything() == Apply(old(Everything()), SetCapacity(n))
    {
      inner.capacity := Clamp(n, CAPACITY_MIN, CAPACITY_MAX);
      inner.Dispatch();
    }

    method SetPerUserActiveTo(n: nat)
      modifies inner
      ensures Everything() == Apply(old(Everything()), SetPerUserActive(n))
    {
      inner.perUserActive := Clamp(n, PER_USER_MIN, PER_USER_MAX);
      inner.Dispatch();
    }

    method SetChatQueueDepthTo(n: nat)
      modifies inner
      ensures Everything() == Apply(old(Everything()), SetChatQueueDepth(n))
    {
      inner.chatQueueDepth := Clamp(n, QUEUE_DEPTH_MIN, QUEUE_DEPTH_MAX);
    }

    /** Push a whole configuration, clamped, the per-user cap first. */
    method ApplyConfig(config: GateConfig)
      modifies inner
      ensures Everything() == ConfigApplied(old(Everything()), config)
    {
      var clamped := Clamped(config);
      SetPerUserActiveTo(clamped.perUserActive);
      SetChatQueueDepthTo(clamped.chatQueueDepth);
      SetCapacityTo(clamped.maxParallel);
    }
  }
}
