/**
 The state behind the LLM admission gate's one lock, and what each of its
 critical sections does to that state.

 `Gate` is `Inner` of llm_gate.rs together with three things the lock does not
 own but every property speaks about: the one-shot mailboxes, the slots granted
 so far, and the position callbacks made so far. A mailbox exists exactly as
 long as its receiver does, so `id !in mail` is what the sender sees as closed.
 */
module GateState {
  import opened Wrappers

  type UserId = nat

  /** One queued run. `lastPosition` is the last index handed to its callback. */
  datatype Waiter = Waiter(id: nat, user: Option<UserId>, lastPosition: Option<nat>)

  /** The one-shot channel of one waiter. */
  datatype Mail = Empty | Admitted | Closed

  /** A slot that was handed out: to a queued waiter, or directly to a caller of
      either class that found the queue empty when `arrival` ids were issued. */
  datatype Grant =
    | ToWaiter(id: nat, user: Option<UserId>)
    | OnEntry(arrival: nat, user: Option<UserId>)
    | InBackground(arrival: nat)
  {
    function Arrival(): nat {
      if ToWaiter? then id else arrival
    }

    function Owner(): Option<UserId> {
      if InBackground? then None else user
    }
  }

  /** One call of a position callback. */
  datatype Report = Report(id: nat, position: nat)

  const CAPACITY_MIN: nat := 1
  const CAPACITY_MAX: nat := 1024
  const PER_USER_MIN: nat := 1
  const PER_USER_MAX: nat := 16
  const QUEUE_DEPTH_MIN: nat := 1
  const QUEUE_DEPTH_MAX: nat := 1024
  const DEFAULT_PER_USER_ACTIVE: nat := 2
  const DEFAULT_CHAT_QUEUE_DEPTH: nat := 64

  function Clamp(n: nat, low: nat, high: nat): nat
    requires low <= high
  {
    if n < low then low else if n > high then high else n
  }

  datatype Gate = Gate(
    capacity: nat,
    perUserActive: nat,
    chatQueueDepth: nat,
    active: nat,
    perUser: map<UserId, nat>,
    queue: seq<Waiter>,
    nextId: nat,
    admissionsTotal: nat,
    timeoutsTotal: nat,
    waitCount: nat,
    mail: map<nat, Mail>,
    grants: seq<Grant>,
    reports: seq<Report>)
  {
    /** Admitted runs of one user. */
    function HeldBy(user: UserId): nat {
      if user in perUser then perUser[user] else 0
    }

    predicate AtUserCap(user: Option<UserId>) {
      user.Some? && HeldBy(user.value) >= perUserActive
    }

    function TakeSlot(user: Option<UserId>): Gate {
      this.(active := active + 1,
            perUser := if user.Some? then perUser[user.value := HeldBy(user.value) + 1] else perUser,
            admissionsTotal := admissionsTotal + 1)
    }

    function FreeSlot(user: Option<UserId>): Gate {
      this.(active := if active == 0 then 0 else active - 1,
            perUser :=
              if user.Some? && user.value in perUser then
                if perUser[user.value] <= 1 then perUser - {user.value}
                else perUser[user.value := perUser[user.value] - 1]
              else perUser)
    }

    function RecordWait(): Gate {
      this.(waitCount := waitCount + 1)
    }

    /** Give `waiter` a slot and tell it; a waiter nobody listens for any more
        hands the slot straight back. */
    function Admit(waiter: Waiter): Gate {
      var taken := TakeSlot(waiter.user).RecordWait();
      if waiter.id in mail then
        taken.(mail := mail[waiter.id := Admitted],
               grants := grants + [ToWaiter(waiter.id, waiter.user)])
      else
        taken.FreeSlot(waiter.user)
    }

    /** The fast path of the wait class. */
    function GrantOnEntry(user: Option<UserId>): Gate {
      TakeSlot(user).RecordWait().(grants := grants + [OnEntry(nextId, user)])
    }

    /** The try class. */
    function GrantInBackground(): Gate {
      TakeSlot(None).(grants := grants + [InBackground(nextId)])
    }

    /** Drop the waiters whose receiver is gone. */
    function PruneClosed(): Gate {
      this.(queue := Listening(queue, mail))
    }

    function AdmitQueued(): Gate {
      var swept := Sweep(this.(queue := []), queue);
      swept.gate.(queue := swept.kept)
    }

    function NotifyPositions(): Gate {
      this.(queue := Placed(queue), reports := reports + Moves(queue, 0))
    }

    function Dispatch(): Gate {
      PruneClosed().AdmitQueued().NotifyPositions()
    }

    function Enqueue(user: Option<UserId>): Gate {
      this.(nextId := nextId + 1,
            mail := mail[nextId := Empty],
            queue := queue + [Waiter(nextId, user, None)])
    }

    /** Take the waiter at `k` out of the queue as one that gave up. */
    function GiveUp(k: nat): Gate
      requires k < |queue|
    {
      this.(queue := queue[..k] + queue[k + 1..], timeoutsTotal := timeoutsTotal + 1)
    }

    function Release(user: Option<UserId>): Gate {
      FreeSlot(user).Dispatch()
    }

    function Close(): Gate {
      this.(queue := [],
            timeoutsTotal := timeoutsTotal + |queue|,
            mail := SendClosed(mail, queue))
    }

    /** The parts no dispatch ever touches. */
    ghost predicate SameLimits(other: Gate) {
      && capacity == other.capacity
      && perUserActive == other.perUserActive
      && chatQueueDepth == other.chatQueueDepth
      && nextId == other.nextId
      && timeoutsTotal == other.timeoutsTotal
    }
  }

  /** The index of waiter `id` in the queue. */
  function PositionOf(queue: seq<Waiter>, id: nat): (k: Option<nat>)
    ensures k.Some? ==> k.value < |queue| && queue[k.value].id == id
    ensures k.None? ==> forall w :: w in queue ==> w.id != id
  {
    if |queue| == 0 then None
    else if queue[0].id == id then Some(0)
    else match PositionOf(queue[1..], id)
      case None => None
      case Some(k) => Some(k + 1)
  }

  /** The waiters whose receiver is still alive, in their order. */
  function Listening(queue: seq<Waiter>, mail: map<nat, Mail>): seq<Waiter> {
    if |queue| == 0 then []
    else (if queue[0].id in mail then [queue[0]] else []) + Listening(queue[1..], mail)
  }

  function SendClosed(mail: map<nat, Mail>, waiters: seq<Waiter>): map<nat, Mail> {
    map id | id in mail :: if exists w :: w in waiters && w.id == id then Closed else mail[id]
  }

  datatype Swept = Swept(gate: Gate, kept: seq<Waiter>)

  /**
   The reference for `dispatch`: ONE left-to-right pass. A waiter met while a
   slot is free is admitted unless its user is at the cap; it is never looked
   at again. The code instead rescans from the head after every admission.
   */
  function Sweep(gate: Gate, waiters: seq<Waiter>): Swept
    decreases |waiters|
  {
    if |waiters| == 0 || gate.active >= gate.capacity then Swept(gate, waiters)
    else if gate.AtUserCap(waiters[0].user) then
      var rest := Sweep(gate, waiters[1..]);
      Swept(rest.gate, [waiters[0]] + rest.kept)
    else Sweep(gate.Admit(waiters[0]), waiters[1..])
  }

  function Placed(queue: seq<Waiter>): (r: seq<Waiter>)
    ensures |r| == |queue|
    ensures forall k :: 0 <= k < |queue| ==> r[k] == queue[k].(lastPosition := Some(k))
  {
    seq(|queue|, k requires 0 <= k < |queue| => queue[k].(lastPosition := Some(k)))
  }

  /** The callbacks due for the waiters from index `from` on. */
  function Moves(queue: seq<Waiter>, from: nat): seq<Report>
    requires from <= |queue|
    decreases |queue| - from
  {
    if from == |queue| then []
    else (if queue[from].lastPosition != Some(from) then [Report(queue[from].id, from)] else [])
         + Moves(queue, from + 1)
  }

  // ---------------------------------------------------------------------
  // The pass and the rescan agree.

  /** An admission never takes a user off its cap. */
  lemma AdmitKeepsCaps(gate: Gate, waiter: Waiter, user: Option<UserId>)
    ensures gate.SameLimits(gate.Admit(waiter))
    ensures gate.AtUserCap(user) ==> gate.Admit(waiter).AtUserCap(user)
  {
  }

  /** Nobody admissible, nothing to do. */
  lemma {:induction false} SweepAllCapped(gate: Gate, waiters: seq<Waiter>)
    requires forall w :: w in waiters ==> gate.AtUserCap(w.user)
    ensures Sweep(gate, waiters) == Swept(gate, waiters)
  {
    if |waiters| != 0 && gate.active < gate.capacity {
      assert waiters[0] in waiters;
      SweepAllCapped(gate, waiters[1..]);
      assert [waiters[0]] + waiters[1..] == waiters;
    }
  }

  /** Admitting the FIRST admissible waiter and starting over from the head
      yields what the single pass yields. */
  lemma {:induction false} SweepRescans(gate: Gate, waiters: seq<Waiter>, k: nat)
    requires k < |waiters| && gate.active < gate.capacity
    requires forall j :: 0 <= j < k ==> gate.AtUserCap(waiters[j].user)
    requires !gate.AtUserCap(waiters[k].user)
    ensures Sweep(gate, waiters) == Sweep(gate.Admit(waiters[k]), waiters[..k] + waiters[k + 1..])
    decreases k
  {
    var next := gate.Admit(waiters[k]);
    var rest := waiters[..k] + waiters[k + 1..];
    if k == 0 {
      assert rest == waiters[1..];
    } else {
      SweepRescans(gate, waiters[1..], k - 1);
      var tail := waiters[1..][..k - 1] + waiters[1..][k..];
      assert rest == [waiters[0]] + tail && rest[1..] == tail;
      AdmitKeepsCaps(gate, waiters[k], waiters[0].user);
    }
  }

  /** The pass can be cut anywhere: what it does from waiter k on depends on the
      earlier ones only through the gate they left behind. */
  lemma {:induction false} SweepSplits(gate: Gate, front: seq<Waiter>, back: seq<Waiter>)
    ensures
      var first := Sweep(gate, front);
      var second := Sweep(first.gate, back);
      Sweep(gate, front + back) == Swept(second.gate, first.kept + second.kept)
    decreases |front|
  {
    if |front| == 0 {
      assert front + back == back;
      assert front + Sweep(gate, back).kept == Sweep(gate, back).kept;
    } else if gate.active >= gate.capacity {
    } else {
      assert (front + back)[1..] == front[1..] + back;
      if gate.AtUserCap(front[0].user) {
        SweepSplits(gate, front[1..], back);
        var first := Sweep(gate, front[1..]);
        var second := Sweep(first.gate, back);
        assert [front[0]] + (first.kept + second.kept) == [front[0]] + first.kept + second.kept;
      } else {
        SweepSplits(gate.Admit(front[0]), front[1..], back);
      }
    }
  }
}
