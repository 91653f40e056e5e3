/** Who a dispatch admits, who it leaves, and whom it passes. */
module GateOrder {
  import opened Wrappers
  import opened GateState
  import opened GateProtocol
  import opened GateInvariants
  import opened GateSteps

  // ---------------------------------------------------------------------
  // Nobody is lost, nobody is invented.

  /** The waiters marked `v`, in order. */
  function Chosen(waiters: seq<Waiter>, mark: seq<bool>, v: bool): seq<Waiter>
    requires |mark| == |waiters|
  {
    if |waiters| == 0 then []
    else (if mark[0] == v then [waiters[0]] else []) + Chosen(waiters[1..], mark[1..], v)
  }

  function GrantsOf(waiters: seq<Waiter>): seq<Grant> {
    if |waiters| == 0 then [] else [ToWaiter(waiters[0].id, waiters[0].user)] + GrantsOf(waiters[1..])
  }

  /** Every waiter has a mailbox, and ids ascend. */
  ghost predicate Orderly(waiters: seq<Waiter>, mail: map<nat, Mail>) {
    Sorted(waiters) && forall w :: w in waiters ==> w.id in mail
  }

  /** The pass divides the queue: the waiters it marks are granted a slot, in order, and
      the others are kept, in order. */
  lemma {:induction false} SweepDivides(gate: Gate, waiters: seq<Waiter>) returns (mark: seq<bool>)
    requires forall w :: w in waiters ==> w.id in gate.mail
    ensures |mark| == |waiters|
    ensures Sweep(gate, waiters).kept == Chosen(waiters, mark, false)
    ensures Sweep(gate, waiters).gate.grants == gate.grants + GrantsOf(Chosen(waiters, mark, true))
    ensures multiset(Chosen(waiters, mark, true)) + multiset(Chosen(waiters, mark, false)) == multiset(waiters)
    decreases |waiters|
  {
    if |waiters| == 0 || gate.active >= gate.capacity {
      mark := seq(|waiters|, _ => false);
      NoneChosen(waiters, mark);
      assert gate.grants + [] == gate.grants;
    } else {
      var head := waiters[0];
      assert head in waiters;
      var rest;
      if gate.AtUserCap(head.user) {
        rest := SweepDivides(gate, waiters[1..]);
        mark := [false] + rest;
      } else {
        rest := SweepDivides(gate.Admit(head), waiters[1..]);
        mark := [true] + rest;
        ChosenGrants(gate.grants, head, Chosen(waiters[1..], rest, true));
      }
      assert mark[1..] == rest;
      ChosenCons(waiters, mark);
    }
  }

  lemma {:induction false} NoneChosen(waiters: seq<Waiter>, mark: seq<bool>)
    requires |mark| == |waiters| && forall k :: 0 <= k < |mark| ==> !mark[k]
    ensures Chosen(waiters, mark, true) == [] && Chosen(waiters, mark, false) == waiters
  {
    if |waiters| > 0 {
      NoneChosen(waiters[1..], mark[1..]);
    }
  }

  lemma ChosenGrants(grants: seq<Grant>, head: Waiter, rest: seq<Waiter>)
    ensures grants + GrantsOf([head] + rest) == grants + [ToWaiter(head.id, head.user)] + GrantsOf(rest)
  {
    assert ([head] + rest)[1..] == rest;
  }

  lemma MultisetCons(w: Waiter, a: seq<Waiter>, b: seq<Waiter>, all: seq<Waiter>)
    requires multiset(a) + multiset(b) == multiset(all)
    ensures multiset([w] + a) + multiset(b) == multiset([w] + all)
    ensures multiset(a) + multiset([w] + b) == multiset([w] + all)
  {
  }

  lemma ChosenCons(waiters: seq<Waiter>, mark: seq<bool>)
    requires |mark| == |waiters| > 0
    requires multiset(Chosen(waiters[1..], mark[1..], true)) + multiset(Chosen(waiters[1..], mark[1..], false))
             == multiset(waiters[1..])
    ensures Chosen(waiters, mark, mark[0]) == [waiters[0]] + Chosen(waiters[1..], mark[1..], mark[0])
    ensures Chosen(waiters, mark, !mark[0]) == Chosen(waiters[1..], mark[1..], !mark[0])
    ensures multiset(Chosen(waiters, mark, true)) + multiset(Chosen(waiters, mark, false)) == multiset(waiters)
  {
    var taken, kept := Chosen(waiters[1..], mark[1..], true), Chosen(waiters[1..], mark[1..], false);
    MultisetCons(waiters[0], taken, kept, waiters[1..]);
    assert [waiters[0]] + waiters[1..] == waiters;
    assert [] + taken == taken && [] + kept == kept;
  }

  /** The two defences of `dispatch` never act, at any gate it runs on: `retain` keeps
      everybody, and at every point of the pass the send to a waiter succeeds. */
  lemma DefencesIdle(gate: Gate, futures: map<nat, Future>, permits: Holders, leaving: set<nat>, k: nat, v: Waiter)
    requires Coherent(gate, futures, permits, leaving)
    requires k <= |gate.queue| && v in gate.queue
    ensures gate.PruneClosed() == gate
    ensures
      var moment := Sweep(gate.(queue := []), gate.queue[..k]).gate;
      moment.Admit(v) == moment.TakeSlot(v.user).RecordWait().(
        mail := moment.mail[v.id := Admitted], grants := moment.grants + [ToWaiter(v.id, v.user)])
  {
    PruneRemovesNobody(gate.queue, gate.mail);
    SweepFrame(gate.(queue := []), gate.queue[..k]);
  }

  // ---------------------------------------------------------------------
  // Passing a waiter.

  /** The waiter that got grant `a`, and with it the gate at that moment. */
  lemma {:induction false} SweepMoment(gate: Gate, waiters: seq<Waiter>, a: nat) returns (k: nat)
    requires forall w :: w in waiters ==> w.id in gate.mail
    requires |gate.grants| <= a < |Sweep(gate, waiters).gate.grants|
    ensures k < |waiters|
    ensures Sweep(gate, waiters).gate.grants[a] == ToWaiter(waiters[k].id, waiters[k].user)
    ensures
      var moment := Sweep(gate, waiters[..k]).gate;
      && moment.active < moment.capacity && !moment.AtUserCap(waiters[k].user)
      && moment.grants == Sweep(gate, waiters).gate.grants[..a]
    decreases |waiters|
  {
    var head := waiters[0];
    assert head in waiters;
    if gate.AtUserCap(head.user) {
      var j := SweepMoment(gate, waiters[1..], a);
      k := j + 1;
      assert waiters[..k][1..] == waiters[1..][..j];
    } else {
      var next := gate.Admit(head);
      SweepFrame(next, waiters[1..]);
      if a == |gate.grants| {
        k := 0;
        assert Sweep(gate, waiters).gate.grants[a] == next.grants[a];
        assert next.grants[..a] == gate.grants;
      } else {
        var j := SweepMoment(next, waiters[1..], a);
        k := j + 1;
        assert waiters[..k][1..] == waiters[1..][..j];
      }
    }
  }

  /** The gate as the dispatch of `pre` reaches waiter `k` of its queue. */
  function Reached(pre: Gate, k: nat): Gate
    requires k <= |pre.queue|
  {
    Sweep(pre.(queue := []), pre.queue[..k]).gate
  }

  /** Grant `a` of the dispatch of `pre` went to waiter `k` of its queue, and when it did,
      a slot was free and that waiter's user under its cap. */
  ghost predicate GrantedAt(pre: Gate, grants: seq<Grant>, a: nat, k: nat)
    requires a < |grants|
  {
    && k < |pre.queue| && grants[a] == ToWaiter(pre.queue[k].id, pre.queue[k].user)
    && Reached(pre, k).grants == grants[..a]
    && Reached(pre, k).active < Reached(pre, k).capacity && !Reached(pre, k).AtUserCap(pre.queue[k].user)
  }

  /** Everybody the pass leaves behind on its way to waiter `k` is at its cap there. */
  ghost predicate LeftCapped(pre: Gate, k: nat)
    requires k <= |pre.queue|
  {
    forall u :: u in Sweep(pre.(queue := []), pre.queue[..k]).kept ==> Reached(pre, k).AtUserCap(u.user)
  }

  lemma SweepPasses(gate: Gate, waiters: seq<Waiter>, a: nat, v: Waiter) returns (j: nat, k: nat)
    requires Orderly(waiters, gate.mail)
    requires |gate.grants| <= a < |Sweep(gate, waiters).gate.grants|
    requires v in Sweep(gate, waiters).kept && v.id < Sweep(gate, waiters).gate.grants[a].Arrival()
    ensures j < k < |waiters| && waiters[j] == v
    ensures Sweep(gate, waiters).gate.grants[a] == ToWaiter(waiters[k].id, waiters[k].user)
    ensures
      var reached := Sweep(gate, waiters[..k]);
      && reached.gate.active < reached.gate.capacity && !reached.gate.AtUserCap(waiters[k].user)
      && reached.gate.grants == Sweep(gate, waiters).gate.grants[..a]
      && (forall u :: u in reached.kept ==> reached.gate.AtUserCap(u.user))
      && reached.gate.AtUserCap(v.user) && Sweep(gate, waiters).gate.AtUserCap(v.user)
  {
    k := SweepMoment(gate, waiters, a);
    var first := Sweep(gate, waiters[..k]);
    assert waiters[..k] + waiters[k..] == waiters;
    SweepSplits(gate, waiters[..k], waiters[k..]);
    SweepLeavesCapped(gate, waiters[..k]);
    SweepFrame(first.gate, waiters[k..]);
    j := StandsBefore(waiters, k, first.kept, Sweep(first.gate, waiters[k..]).kept, gate, v);
    SweepKeepsCaps(first.gate, waiters[k..], v.user);
  }

  lemma LaterIds(waiters: seq<Waiter>, k: nat)
    requires Sorted(waiters) && k < |waiters|
    ensures forall u :: u in waiters[k..] ==> u.id >= waiters[k].id
  {
    forall u | u in waiters[k..]
      ensures u.id >= waiters[k].id
    {
      var i :| 0 <= i < |waiters[k..]| && waiters[k..][i] == u;
      assert waiters[k + i] == u;
    }
  }

  /** A waiter kept that came before waiter `k` is one of those kept up to there. */
  lemma StandsBefore(waiters: seq<Waiter>, k: nat, front: seq<Waiter>, back: seq<Waiter>, gate: Gate, v: Waiter)
    returns (j: nat)
    requires Sorted(waiters) && k < |waiters| && v.id < waiters[k].id && v in front + back
    requires front == Sweep(gate, waiters[..k]).kept && forall u :: u in back ==> u in waiters[k..]
    ensures v in front && j < k && waiters[j] == v
  {
    SweepFrame(gate, waiters[..k]);
    LaterIds(waiters, k);
    j :| 0 <= j < k && waiters[..k][j] == v;
  }

  /** Whoever a dispatch admits past a waiter that stays queued: that waiter stands before
      it in the queue, and was at its cap when the pass reached the other, and still is. */
  lemma DispatchPasses(pre: Gate, a: nat, v: Waiter) returns (j: nat, k: nat)
    requires Orderly(pre.queue, pre.mail)
    requires |pre.grants| <= a < |pre.Dispatch().grants|
    requires v in pre.Dispatch().queue && v.id < pre.Dispatch().grants[a].Arrival()
    ensures j < k < |pre.queue| && pre.queue[j].id == v.id && pre.queue[j].user == v.user
    ensures GrantedAt(pre, pre.Dispatch().grants, a, k) && LeftCapped(pre, k)
    ensures Reached(pre, k).AtUserCap(v.user) && pre.Dispatch().AtUserCap(v.user)
  {
    PruneRemovesNobody(pre.queue, pre.mail);
    var swept := Sweep(pre.(queue := []), pre.queue);
    var i :| 0 <= i < |Placed(swept.kept)| && Placed(swept.kept)[i] == v;
    j, k := SweepPasses(pre.(queue := []), pre.queue, a, swept.kept[i]);
  }

  lemma OrderlyGate(w: World)
    requires Sound(w)
    ensures Orderly(w.gate.queue, w.gate.mail)
    ensures forall v :: v in w.gate.queue ==> v.id < w.gate.nextId
  {
  }

  lemma OrderlyEnqueue(gate: Gate, user: Option<UserId>)
    requires Orderly(gate.queue, gate.mail) && forall v :: v in gate.queue ==> v.id < gate.nextId
    ensures Orderly(gate.Enqueue(user).queue, gate.Enqueue(user).mail)
  {
    assert forall k :: 0 <= k < |gate.queue| ==> gate.queue[k] in gate.queue;
  }

  lemma OrderlyGiveUp(gate: Gate, k: nat)
    requires Orderly(gate.queue, gate.mail) && k < |gate.queue|
    ensures Orderly(gate.GiveUp(k).queue, gate.mail)
  {
    Without(gate.queue, k);
  }

  // ---------------------------------------------------------------------
  // Which gate a step dispatches.

  /** The gate a step calls `dispatch` on, if it does. */
  function Dispatched(w: World, step: Step): Option<Gate>
    requires Enabled(w, step)
  {
    match step
    case Enter(user) => if FastPath(w.gate, user) then None else Some(w.gate.Enqueue(user))
    case Cancel(id) =>
      (match PositionOf(w.gate.queue, id)
       case Some(k) => Some(w.gate.GiveUp(k))
       case None => None)
    case FinishCancel(id) => if w.gate.mail[id] == Admitted then Some(w.gate.FreeSlot(w.futures[id].user)) else None
    case DropPermit(permit) => Some(w.gate.FreeSlot(w.permits[permit]))
    case SetCapacity(n) => Some(w.gate.(capacity := Clamp(n, CAPACITY_MIN, CAPACITY_MAX)))
    case SetPerUserActive(n) => Some(w.gate.(perUserActive := Clamp(n, PER_USER_MIN, PER_USER_MAX)))
    case _ => None
  }

  /** A step leaves the gate its dispatch leaves, but for the mailbox of a future that
      ends with it; a step without a dispatch admits no waiter. */
  lemma StepDispatches(w: World, step: Step)
    requires Enabled(w, step)
    ensures
      var after := Apply(w, step).gate;
      match Dispatched(w, step)
      case Some(pre) => pre.grants == w.gate.grants && after == pre.Dispatch().(mail := after.mail)
      case None => forall a :: |w.gate.grants| <= a < |after.grants| ==> !after.grants[a].ToWaiter?
  {
  }

  lemma OrderlyDispatched(w: World, step: Step)
    requires Sound(w) && Enabled(w, step) && Dispatched(w, step).Some?
    ensures Orderly(Dispatched(w, step).value.queue, Dispatched(w, step).value.mail)
  {
    OrderlyGate(w);
    match step
    case Enter(user) => OrderlyEnqueue(w.gate, user);
    case Cancel(id) => OrderlyGiveUp(w.gate, PositionOf(w.gate.queue, id).value);
    case _ =>
  }

  lemma PassesBut(pre: Gate, after: Gate, a: nat, v: Waiter) returns (j: nat, k: nat)
    requires Orderly(pre.queue, pre.mail) && after == pre.Dispatch().(mail := after.mail)
    requires |pre.grants| <= a < |after.grants| && after.grants[a].ToWaiter?
    requires v in after.queue && v.id < after.grants[a].id
    ensures j < k < |pre.queue| && pre.queue[j].id == v.id && pre.queue[j].user == v.user
    ensures GrantedAt(pre, after.grants, a, k) && LeftCapped(pre, k)
    ensures Reached(pre, k).AtUserCap(v.user) && after.AtUserCap(v.user)
  {
    j, k := DispatchPasses(pre, a, v);
  }

  /** One step: whoever it admits past a waiter that stays queued. */
  lemma StepPasses(w: World, step: Step, after: Gate, a: nat, v: Waiter) returns (pre: Gate, j: nat, k: nat)
    requires Sound(w) && Enabled(w, step) && after == Apply(w, step).gate
    requires |w.gate.grants| <= a < |after.grants| && after.grants[a].ToWaiter?
    requires v in after.queue && v.id < after.grants[a].id
    ensures Dispatched(w, step) == Some(pre)
    ensures j < k < |pre.queue| && pre.queue[j].id == v.id && pre.queue[j].user == v.user
    ensures GrantedAt(pre, after.grants, a, k) && LeftCapped(pre, k)
    ensures Reached(pre, k).AtUserCap(v.user) && after.AtUserCap(v.user)
  {
    StepDispatches(w, step);
    OrderlyDispatched(w, step);
    pre := Dispatched(w, step).value;
    j, k := PassesBut(pre, after, a, v);
  }
}
