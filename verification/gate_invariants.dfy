/**
 What every interleaving keeps. `Coherent` holds between any two primitive
 changes of a critical section; `Settled` holds whenever the lock is free.
 */
module GateInvariants {
  import opened Wrappers
  import opened GateState
  import opened GateProtocol

  type Holders = map<nat, Option<UserId>>

  // ---------------------------------------------------------------------
  // Slots.

  ghost function OwnedBy(holders: Holders, user: UserId): set<nat> {
    set h | h in holders && holders[h] == Some(user)
  }

  /** How many of the slots in `holders` belong to `user`. */
  ghost function Share(holders: Holders, user: UserId): nat {
    |OwnedBy(holders, user)|
  }

  /** Admissions sent and not yet collected. `leaving` futures are being
      finished inside the current critical section and no longer count. */
  ghost function Parked(mail: map<nat, Mail>, futures: map<nat, Future>, leaving: set<nat>): Holders {
    map id | id in mail && id in futures && id !in leaving && mail[id] == Admitted :: futures[id].user
  }

  ghost predicate Accounted(gate: Gate, permits: Holders, parked: Holders) {
    && gate.active == |permits| + |parked|
    && (forall u: UserId :: gate.HeldBy(u) == Share(permits, u) + Share(parked, u))
    && (forall u: UserId :: u in gate.perUser ==> gate.perUser[u] > 0)
  }

  lemma ShareInsert(holders: Holders, h: nat, user: Option<UserId>)
    requires h !in holders
    ensures |holders[h := user]| == |holders| + 1
    ensures forall u: UserId :: Share(holders[h := user], u) == Share(holders, u) + if user == Some(u) then 1 else 0
  {
    forall u: UserId
      ensures Share(holders[h := user], u) == Share(holders, u) + if user == Some(u) then 1 else 0
    {
      OwnedInsert(holders, h, user, u);
    }
  }

  lemma OwnedInsert(holders: Holders, h: nat, user: Option<UserId>, u: UserId)
    requires h !in holders
    ensures OwnedBy(holders[h := user], u) == OwnedBy(holders, u) + if user == Some(u) then {h} else {}
    ensures h !in OwnedBy(holders, u)
  {
  }

  lemma ShareRemove(holders: Holders, h: nat)
    requires h in holders
    ensures |holders - {h}| == |holders| - 1
    ensures forall u: UserId :: Share(holders, u) == Share(holders - {h}, u) + if holders[h] == Some(u) then 1 else 0
  {
    assert holders == (holders - {h})[h := holders[h]];
    ShareInsert(holders - {h}, h, holders[h]);
  }

  /** One more holder, one more slot taken. */
  lemma TakeAccounts(gate: Gate, user: Option<UserId>, permits: Holders, parked: Holders,
                     permits': Holders, parked': Holders)
    requires Accounted(gate, permits, parked)
    requires |permits'| + |parked'| == |permits| + |parked| + 1
    requires forall u: UserId :: Share(permits', u) + Share(parked', u)
                         == Share(permits, u) + Share(parked, u) + if user == Some(u) then 1 else 0
    ensures Accounted(gate.TakeSlot(user), permits', parked')
  {
  }

  /** One holder fewer, one slot back: neither subtraction saturates. */
  lemma FreeAccounts(gate: Gate, user: Option<UserId>, permits: Holders, parked: Holders,
                     permits': Holders, parked': Holders)
    requires Accounted(gate, permits, parked)
    requires |permits'| + |parked'| + 1 == |permits| + |parked|
    requires forall u: UserId :: Share(permits', u) + Share(parked', u) + (if user == Some(u) then 1 else 0)
                         == Share(permits, u) + Share(parked, u)
    ensures gate.active > 0
    ensures user.Some? ==> user.value in gate.perUser && gate.perUser[user.value] > 0
    ensures Accounted(gate.FreeSlot(user), permits', parked')
  {
    if user.Some? {
      assert gate.HeldBy(user.value) == Share(permits, user.value) + Share(parked, user.value);
    }
    var freed := gate.FreeSlot(user);
    forall u: UserId
      ensures freed.HeldBy(u) == Share(permits', u) + Share(parked', u)
    {
      assert gate.HeldBy(u) == Share(permits, u) + Share(parked, u);
    }
  }

  // ---------------------------------------------------------------------
  // Mailboxes.

  ghost predicate Sorted(waiters: seq<Waiter>) {
    forall i, j :: 0 <= i < j < |waiters| ==> waiters[i].id < waiters[j].id
  }

  /** Every queued waiter has a live future in its bounded wait and an empty mailbox. */
  ghost predicate Awaited(waiters: seq<Waiter>, mail: map<nat, Mail>, futures: map<nat, Future>) {
    && Sorted(waiters)
    && forall w :: w in waiters ==>
         && w.id in mail && mail[w.id] == Empty
         && w.id in futures && futures[w.id] == Future(w.user, Awaiting)
  }

  ghost predicate Queued(waiters: seq<Waiter>, id: nat) {
    exists w :: w in waiters && w.id == id
  }

  ghost predicate Channels(gate: Gate, futures: map<nat, Future>, leaving: set<nat>) {
    && futures.Keys == gate.mail.Keys
    && (forall id :: id in futures ==> id < gate.nextId)
    && Awaited(gate.queue, gate.mail, futures)
    && (forall id :: id in leaving ==> !Queued(gate.queue, id))
    && (forall id :: id in gate.mail && id !in leaving && gate.mail[id] == Empty ==> Queued(gate.queue, id))
  }

  // ---------------------------------------------------------------------
  // Order of the grants, counters, positions.

  /** `first` was granted before `second`: it may not have arrived later when
      either met an empty queue, shares its user, or `second` has no cap to hit. */
  ghost predicate InOrder(first: Grant, second: Grant) {
    && (!first.ToWaiter? || !second.ToWaiter? || second.Owner() == None || first.Owner() == second.Owner()
        ==> first.Arrival() <= second.Arrival())
    && (first.ToWaiter? && second.ToWaiter? ==> first.id != second.id)
  }

  ghost predicate Fair(grants: seq<Grant>, waiters: seq<Waiter>, nextId: nat) {
    && (forall a, b :: 0 <= a < b < |grants| ==> InOrder(grants[a], grants[b]))
    && (forall g, w :: g in grants && w in waiters ==> InOrder(g, ToWaiter(w.id, w.user)))
    && (forall g :: g in grants ==> g.Arrival() <= nextId && (g.ToWaiter? ==> g.id < nextId))
    && (forall w :: w in waiters ==> w.id < nextId)
  }

  ghost function QueueGrants(grants: seq<Grant>): nat {
    if |grants| == 0 then 0
    else QueueGrants(grants[..|grants| - 1]) + if grants[|grants| - 1].ToWaiter? then 1 else 0
  }

  ghost function BackgroundGrants(grants: seq<Grant>): nat {
    if |grants| == 0 then 0
    else BackgroundGrants(grants[..|grants| - 1]) + if grants[|grants| - 1].InBackground? then 1 else 0
  }

  lemma CountOneMore(grants: seq<Grant>, grant: Grant)
    ensures QueueGrants(grants + [grant]) == QueueGrants(grants) + if grant.ToWaiter? then 1 else 0
    ensures BackgroundGrants(grants + [grant]) == BackgroundGrants(grants) + if grant.InBackground? then 1 else 0
  {
    assert (grants + [grant])[..|grants|] == grants;
  }

  ghost predicate Counted(gate: Gate, waiting: nat) {
    && gate.nextId == QueueGrants(gate.grants) + gate.timeoutsTotal + waiting
    && gate.admissionsTotal == |gate.grants|
    && gate.admissionsTotal == gate.waitCount + BackgroundGrants(gate.grants)
  }

  /** No waiter stands further back than it was last told. */
  ghost predicate NotBehind(waiters: seq<Waiter>) {
    NotBehindBy(waiters, 0)
  }

  ghost predicate Descending(reports: seq<Report>) {
    forall a, b :: 0 <= a < b < |reports| && reports[a].id == reports[b].id ==>
      reports[b].position < reports[a].position
  }

  ghost predicate Reported(reports: seq<Report>, waiters: seq<Waiter>, nextId: nat) {
    && Descending(reports)
    && (forall r :: r in reports ==> r.id < nextId)
    && (forall r, w :: r in reports && w in waiters && r.id == w.id ==>
          w.lastPosition.Some? && w.lastPosition.value <= r.position)
  }

  ghost predicate Coherent(gate: Gate, futures: map<nat, Future>, permits: Holders, leaving: set<nat>) {
    && Channels(gate, futures, leaving)
    && Accounted(gate, permits, Parked(gate.mail, futures, leaving))
    && Fair(gate.grants, gate.queue, gate.nextId)
    && Counted(gate, |gate.queue|)
    && NotBehind(gate.queue)
    && Reported(gate.reports, gate.queue, gate.nextId)
  }

  /** No slot is free while somebody who may have it waits. */
  ghost predicate WorkConserving(gate: Gate) {
    gate.active < gate.capacity ==> forall w :: w in gate.queue ==> gate.AtUserCap(w.user)
  }

  ghost predicate PositionsTold(gate: Gate) {
    forall k :: 0 <= k < |gate.queue| ==> gate.queue[k].lastPosition == Some(k)
  }

  ghost predicate Settled(gate: Gate) {
    WorkConserving(gate) && PositionsTold(gate)
  }

  ghost predicate Sound(w: World) {
    && Coherent(w.gate, w.futures, w.permits, {})
    && Settled(w.gate)
    && (forall p :: p in w.permits ==> p < w.nextPermit)
  }

  // ---------------------------------------------------------------------
  // What the pass over the queue keeps.

  /** The pass changes nothing but slots, mailboxes, grants and counters. */
  lemma {:induction false} SweepFrame(gate: Gate, waiters: seq<Waiter>)
    ensures
      var swept := Sweep(gate, waiters);
      && gate.SameLimits(swept.gate)
      && swept.gate.queue == gate.queue
      && swept.gate.reports == gate.reports
      && swept.gate.mail.Keys == gate.mail.Keys
      && gate.grants <= swept.gate.grants
      && (forall w :: w in swept.kept ==> w in waiters)
    decreases |waiters|
  {
    if |waiters| != 0 && gate.active < gate.capacity {
      if gate.AtUserCap(waiters[0].user) {
        SweepFrame(gate, waiters[1..]);
      } else {
        SweepFrame(gate.Admit(waiters[0]), waiters[1..]);
      }
    }
  }

  /** A user at its cap stays there. */
  lemma {:induction false} SweepKeepsCaps(gate: Gate, waiters: seq<Waiter>, user: Option<UserId>)
    requires gate.AtUserCap(user)
    ensures Sweep(gate, waiters).gate.AtUserCap(user)
    decreases |waiters|
  {
    if |waiters| != 0 && gate.active < gate.capacity {
      if gate.AtUserCap(waiters[0].user) {
        SweepKeepsCaps(gate, waiters[1..], user);
      } else {
        AdmitKeepsCaps(gate, waiters[0], user);
        SweepKeepsCaps(gate.Admit(waiters[0]), waiters[1..], user);
      }
    }
  }

  /** Slots run out, or everybody left behind is capped. */
  lemma {:induction false} SweepLeavesCapped(gate: Gate, waiters: seq<Waiter>)
    ensures
      var swept := Sweep(gate, waiters);
      swept.gate.active < swept.gate.capacity ==> forall w :: w in swept.kept ==> swept.gate.AtUserCap(w.user)
    decreases |waiters|
  {
    if |waiters| != 0 && gate.active < gate.capacity {
      if gate.AtUserCap(waiters[0].user) {
        SweepLeavesCapped(gate, waiters[1..]);
        SweepKeepsCaps(gate, waiters[1..], waiters[0].user);
      } else {
        SweepLeavesCapped(gate.Admit(waiters[0]), waiters[1..]);
      }
    }
  }

  lemma AwaitedRest(waiters: seq<Waiter>, mail: map<nat, Mail>, futures: map<nat, Future>)
    requires Awaited(waiters, mail, futures) && |waiters| > 0
    ensures Awaited(waiters[1..], mail, futures)
    ensures Awaited(waiters[1..], mail[waiters[0].id := Admitted], futures)
    ensures waiters[0].id in mail && mail[waiters[0].id] == Empty
    ensures waiters[0].id in futures && futures[waiters[0].id] == Future(waiters[0].user, Awaiting)
  {
    assert waiters[0] in waiters;
    forall w | w in waiters[1..]
      ensures w.id != waiters[0].id
    {
      var k :| 0 <= k < |waiters[1..]| && waiters[1..][k] == w;
      assert waiters[k + 1] == w;
    }
  }

  /** A waiter the pass keeps has an untouched mailbox; one it does not keep was
      told; nobody else's mail moves. */
  lemma {:induction false} SweepDelivers(gate: Gate, waiters: seq<Waiter>, futures: map<nat, Future>)
    requires Awaited(waiters, gate.mail, futures)
    ensures
      var swept := Sweep(gate, waiters);
      && Awaited(swept.kept, swept.gate.mail, futures)
      && swept.gate.mail.Keys == gate.mail.Keys
      && (forall id :: id in gate.mail && !Queued(waiters, id) ==> swept.gate.mail[id] == gate.mail[id])
      && (forall id :: Queued(waiters, id) && !Queued(swept.kept, id) ==>
            id in swept.gate.mail && swept.gate.mail[id] == Admitted)
    decreases |waiters|
  {
    var swept := Sweep(gate, waiters);
    SweepFrame(gate, waiters);
    if |waiters| != 0 && gate.active < gate.capacity {
      AwaitedRest(waiters, gate.mail, futures);
      var head := waiters[0];
      QueuedCons(head, waiters[1..], waiters);
      if gate.AtUserCap(head.user) {
        var rest := Sweep(gate, waiters[1..]);
        SweepFrame(gate, waiters[1..]);
        SweepDelivers(gate, waiters[1..], futures);
        QueuedCons(head, rest.kept, swept.kept);
        AwaitedCons(head, waiters, rest.kept, rest.gate.mail, futures);
      } else {
        SweepDelivers(gate.Admit(head), waiters[1..], futures);
        SweepFrame(gate.Admit(head), waiters[1..]);
      }
    }
  }

  lemma QueuedCons(head: Waiter, rest: seq<Waiter>, all: seq<Waiter>)
    requires all == [head] + rest
    ensures forall id: nat :: Queued(all, id) <==> id == head.id || Queued(rest, id)
  {
    assert forall w :: w in all <==> w == head || w in rest;
  }

  lemma AwaitedCons(head: Waiter, waiters: seq<Waiter>, kept: seq<Waiter>, mail: map<nat, Mail>,
                    futures: map<nat, Future>)
    requires Sorted(waiters) && waiters != [] && waiters[0] == head
    requires Awaited(kept, mail, futures) && forall w :: w in kept ==> w in waiters[1..]
    requires head.id in mail && mail[head.id] == Empty
    requires head.id in futures && futures[head.id] == Future(head.user, Awaiting)
    ensures Awaited([head] + kept, mail, futures)
  {
    forall w | w in kept
      ensures head.id < w.id
    {
      var k :| 0 <= k < |waiters[1..]| && waiters[1..][k] == w;
      assert waiters[k + 1] == w;
    }
  }

  lemma AdmitAccounts(gate: Gate, waiter: Waiter, futures: map<nat, Future>, permits: Holders, leaving: set<nat>)
    requires waiter.id in gate.mail && gate.mail[waiter.id] == Empty && waiter.id !in leaving
    requires waiter.id in futures && futures[waiter.id].user == waiter.user
    requires Accounted(gate, permits, Parked(gate.mail, futures, leaving))
    ensures Accounted(gate.Admit(waiter), permits, Parked(gate.Admit(waiter).mail, futures, leaving))
  {
    var parked := Parked(gate.mail, futures, leaving);
    var parked' := Parked(gate.Admit(waiter).mail, futures, leaving);
    assert parked' == parked[waiter.id := waiter.user];
    ShareInsert(parked, waiter.id, waiter.user);
    TakeAccounts(gate, waiter.user, permits, parked, permits, parked');
  }

  /** Every slot the pass takes shows up as one parked admission. */
  lemma {:induction false} SweepAccounts(gate: Gate, waiters: seq<Waiter>, futures: map<nat, Future>,
                                         permits: Holders, leaving: set<nat>)
    requires Awaited(waiters, gate.mail, futures)
    requires forall w :: w in waiters ==> w.id !in leaving
    requires Accounted(gate, permits, Parked(gate.mail, futures, leaving))
    ensures
      var swept := Sweep(gate, waiters).gate;
      Accounted(swept, permits, Parked(swept.mail, futures, leaving))
    decreases |waiters|
  {
    if |waiters| != 0 && gate.active < gate.capacity {
      AwaitedRest(waiters, gate.mail, futures);
      if gate.AtUserCap(waiters[0].user) {
        SweepAccounts(gate, waiters[1..], futures, permits, leaving);
      } else {
        AdmitAccounts(gate, waiters[0], futures, permits, leaving);
        SweepAccounts(gate.Admit(waiters[0]), waiters[1..], futures, permits, leaving);
      }
    }
  }

  /** The pass counts each waiter it takes out of the queue exactly once. */
  lemma {:induction false} SweepCounts(gate: Gate, waiters: seq<Waiter>, futures: map<nat, Future>, skipped: nat)
    requires Awaited(waiters, gate.mail, futures)
    requires Counted(gate, skipped + |waiters|)
    ensures
      var swept := Sweep(gate, waiters);
      Counted(swept.gate, skipped + |swept.kept|)
    decreases |waiters|
  {
    if |waiters| != 0 && gate.active < gate.capacity {
      AwaitedRest(waiters, gate.mail, futures);
      if gate.AtUserCap(waiters[0].user) {
        SweepCounts(gate, waiters[1..], futures, skipped + 1);
      } else {
        CountOneMore(gate.grants, ToWaiter(waiters[0].id, waiters[0].user));
        SweepCounts(gate.Admit(waiters[0]), waiters[1..], futures, skipped);
      }
    }
  }

  /** Whoever the pass leaves behind while admitting others was at its cap, so
      the new grants overtake nobody. */
  lemma {:induction false} SweepFair(gate: Gate, skipped: seq<Waiter>, waiters: seq<Waiter>)
    requires forall w :: w in waiters ==> w.id in gate.mail
    requires Sorted(skipped + waiters)
    requires forall w :: w in skipped ==> gate.AtUserCap(w.user)
    requires Fair(gate.grants, skipped + waiters, gate.nextId)
    ensures
      var swept := Sweep(gate, waiters);
      Fair(swept.gate.grants, skipped + swept.kept, gate.nextId)
    decreases |waiters|
  {
    if |waiters| != 0 && gate.active < gate.capacity {
      var head := waiters[0];
      if gate.AtUserCap(head.user) {
        var kept := Sweep(gate, waiters[1..]).kept;
        assert skipped + [head] + waiters[1..] == skipped + waiters;
        SweepFair(gate, skipped + [head], waiters[1..]);
        assert skipped + [head] + kept == skipped + ([head] + kept);
      } else {
        assert head in waiters;
        GrantHeadFair(gate, skipped, waiters);
        SortedWithout(skipped, waiters);
        SkippedStayCapped(gate, skipped, head);
        SweepFair(gate.Admit(head), skipped, waiters[1..]);
      }
    }
  }

  lemma SkippedStayCapped(gate: Gate, skipped: seq<Waiter>, waiter: Waiter)
    requires forall w :: w in skipped ==> gate.AtUserCap(w.user)
    ensures forall w :: w in skipped ==> gate.Admit(waiter).AtUserCap(w.user)
  {
    forall w | w in skipped
      ensures gate.Admit(waiter).AtUserCap(w.user)
    {
      AdmitKeepsCaps(gate, waiter, w.user);
    }
  }

  lemma SortedWithout(front: seq<Waiter>, back: seq<Waiter>)
    requires |back| > 0 && Sorted(front + back)
    ensures Sorted(front + back[1..])
  {
    var all, rest := front + back, front + back[1..];
    forall i, j | 0 <= i < j < |rest|
      ensures rest[i].id < rest[j].id
    {
      assert rest[i] == all[if i < |front| then i else i + 1];
      assert rest[j] == all[if j < |front| then j else j + 1];
    }
  }

  lemma GrantHeadFair(gate: Gate, skipped: seq<Waiter>, waiters: seq<Waiter>)
    requires |waiters| > 0 && !gate.AtUserCap(waiters[0].user) && Sorted(skipped + waiters)
    requires forall w :: w in skipped ==> gate.AtUserCap(w.user)
    requires Fair(gate.grants, skipped + waiters, gate.nextId)
    ensures Fair(gate.grants + [ToWaiter(waiters[0].id, waiters[0].user)], skipped + waiters[1..], gate.nextId)
  {
    var all := skipped + waiters;
    var head := waiters[0];
    var grant := ToWaiter(head.id, head.user);
    assert all[|skipped|] == head;
    assert head in all;
    forall w | w in skipped + waiters[1..]
      ensures w in all && InOrder(grant, ToWaiter(w.id, w.user))
    {
      if w in skipped {
        var k :| 0 <= k < |skipped| && skipped[k] == w;
        assert all[k] == w;
      } else {
        var k :| 0 <= k < |waiters[1..]| && waiters[1..][k] == w;
        assert all[|skipped| + 1 + k] == w;
      }
    }
    var grants := gate.grants + [grant];
    forall a, b | 0 <= a < b < |grants|
      ensures InOrder(grants[a], grants[b])
    {
      if b == |gate.grants| {
        assert grants[a] in gate.grants;
      }
    }
  }

  ghost predicate NotBehindBy(waiters: seq<Waiter>, offset: nat) {
    forall k :: 0 <= k < |waiters| && waiters[k].lastPosition.Some? ==> offset + k <= waiters[k].lastPosition.value
  }

  /** Those who stay only move forward. */
  lemma {:induction false} SweepNotBehind(gate: Gate, waiters: seq<Waiter>, offset: nat)
    requires NotBehindBy(waiters, offset)
    ensures NotBehindBy(Sweep(gate, waiters).kept, offset)
    decreases |waiters|
  {
    if |waiters| != 0 && gate.active < gate.capacity {
      assert forall k :: 0 <= k < |waiters[1..]| ==> waiters[1..][k] == waiters[k + 1];
      if gate.AtUserCap(waiters[0].user) {
        assert NotBehindBy(waiters[1..], offset + 1);
        SweepNotBehind(gate, waiters[1..], offset + 1);
        var later := Sweep(gate, waiters[1..]).kept;
        assert forall k :: 0 < k <= |later| ==> ([waiters[0]] + later)[k] == later[k - 1];
        assert NotBehindBy([waiters[0]] + later, offset);
      } else {
        assert NotBehindBy(waiters[1..], offset);
        SweepNotBehind(gate.Admit(waiters[0]), waiters[1..], offset);
      }
    }
  }

  // ---------------------------------------------------------------------
  // Dispatch.

  /** Under the invariant `retain` removes nobody. */
  lemma {:induction false} PruneRemovesNobody(waiters: seq<Waiter>, mail: map<nat, Mail>)
    requires forall w :: w in waiters ==> w.id in mail
    ensures Listening(waiters, mail) == waiters
  {
    if |waiters| > 0 {
      assert waiters[0] in waiters;
      PruneRemovesNobody(waiters[1..], mail);
    }
  }

  lemma AdmitQueuedChannels(gate: Gate, futures: map<nat, Future>, leaving: set<nat>)
    requires Channels(gate, futures, leaving)
    ensures Channels(gate.AdmitQueued(), futures, leaving)
  {
    var idle := gate.(queue := []);
    var swept := Sweep(idle, gate.queue);
    SweepFrame(idle, gate.queue);
    SweepDelivers(idle, gate.queue, futures);
    forall id | Queued(swept.kept, id)
      ensures Queued(gate.queue, id)
    {
      var w :| w in swept.kept && w.id == id;
      assert w in gate.queue;
    }
  }

  lemma AdmitQueuedAccounts(gate: Gate, futures: map<nat, Future>, permits: Holders, leaving: set<nat>)
    requires Channels(gate, futures, leaving)
    requires Accounted(gate, permits, Parked(gate.mail, futures, leaving))
    ensures Accounted(gate.AdmitQueued(), permits, Parked(gate.AdmitQueued().mail, futures, leaving))
  {
    forall w | w in gate.queue
      ensures w.id !in leaving
    {
      assert Queued(gate.queue, w.id);
    }
    SweepAccounts(gate.(queue := []), gate.queue, futures, permits, leaving);
  }

  lemma AdmitQueuedFair(gate: Gate, futures: map<nat, Future>)
    requires Awaited(gate.queue, gate.mail, futures)
    requires Fair(gate.grants, gate.queue, gate.nextId)
    ensures Fair(gate.AdmitQueued().grants, gate.AdmitQueued().queue, gate.nextId)
  {
    var idle := gate.(queue := []);
    assert [] + gate.queue == gate.queue;
    assert [] + Sweep(idle, gate.queue).kept == Sweep(idle, gate.queue).kept;
    SweepFair(idle, [], gate.queue);
  }

  lemma AdmitQueuedCounts(gate: Gate, futures: map<nat, Future>)
    requires Awaited(gate.queue, gate.mail, futures)
    requires Counted(gate, |gate.queue|)
    ensures Counted(gate.AdmitQueued(), |gate.AdmitQueued().queue|)
  {
    SweepCounts(gate.(queue := []), gate.queue, futures, 0);
  }

  lemma AdmitQueuedPositions(gate: Gate)
    requires NotBehind(gate.queue) && Reported(gate.reports, gate.queue, gate.nextId)
    ensures NotBehind(gate.AdmitQueued().queue)
    ensures Reported(gate.AdmitQueued().reports, gate.AdmitQueued().queue, gate.nextId)
    ensures gate.AdmitQueued().nextId == gate.nextId
    ensures WorkConserving(gate.AdmitQueued())
  {
    var idle := gate.(queue := []);
    SweepFrame(idle, gate.queue);
    SweepNotBehind(idle, gate.queue, 0);
    SweepLeavesCapped(idle, gate.queue);
  }

  lemma AdmitQueuedCoherent(gate: Gate, futures: map<nat, Future>, permits: Holders, leaving: set<nat>)
    requires Coherent(gate, futures, permits, leaving)
    ensures Coherent(gate.AdmitQueued(), futures, permits, leaving)
    ensures WorkConserving(gate.AdmitQueued())
  {
    AdmitQueuedChannels(gate, futures, leaving);
    AdmitQueuedAccounts(gate, futures, permits, leaving);
    AdmitQueuedFair(gate, futures);
    AdmitQueuedCounts(gate, futures);
    AdmitQueuedPositions(gate);
  }

  /** The new reports are at ascending positions, one per waiter that moved. */
  lemma {:induction false} MovesAscend(waiters: seq<Waiter>, from: nat)
    requires from <= |waiters|
    ensures
      var moves := Moves(waiters, from);
      && (forall r :: r in moves ==>
            from <= r.position < |waiters| && r.id == waiters[r.position].id
            && waiters[r.position].lastPosition != Some(r.position))
      && (forall a, b :: 0 <= a < b < |moves| ==> moves[a].position < moves[b].position)
    decreases |waiters| - from
  {
    if from < |waiters| {
      MovesAscend(waiters, from + 1);
    }
  }

  /** Telling positions changes neither who is queued nor in what order. */
  lemma PlacedSame(waiters: seq<Waiter>)
    ensures forall w :: w in Placed(waiters) ==> exists v :: v in waiters && v.id == w.id && v.user == w.user
    ensures forall id :: Queued(Placed(waiters), id) <==> Queued(waiters, id)
  {
    forall id | Queued(waiters, id)
      ensures Queued(Placed(waiters), id)
    {
      var k :| 0 <= k < |waiters| && waiters[k].id == id;
      assert Placed(waiters)[k] in Placed(waiters);
    }
  }

  lemma NotifyChannels(gate: Gate, futures: map<nat, Future>, leaving: set<nat>)
    requires Channels(gate, futures, leaving)
    ensures Channels(gate.NotifyPositions(), futures, leaving)
  {
    PlacedSame(gate.queue);
  }

  lemma NotifyFair(gate: Gate)
    requires Fair(gate.grants, gate.queue, gate.nextId)
    ensures Fair(gate.grants, Placed(gate.queue), gate.nextId)
  {
    PlacedSame(gate.queue);
  }

  lemma NotifyConserves(gate: Gate)
    requires WorkConserving(gate)
    ensures WorkConserving(gate.NotifyPositions())
  {
    PlacedSame(gate.queue);
  }

  lemma NotifyDescends(gate: Gate)
    requires Sorted(gate.queue) && NotBehind(gate.queue)
    requires Reported(gate.reports, gate.queue, gate.nextId)
    ensures Descending(gate.reports + Moves(gate.queue, 0))
  {
    var moves := Moves(gate.queue, 0);
    MovesAscend(gate.queue, 0);
    var reports := gate.reports + moves;
    forall a, b | 0 <= a < b < |reports| && reports[a].id == reports[b].id
      ensures reports[b].position < reports[a].position
    {
      if b >= |gate.reports| {
        assert reports[b] in moves;
        var told := gate.queue[reports[b].position];
        assert told in gate.queue;
        if a < |gate.reports| {
          assert reports[a] in gate.reports;
        }
      }
    }
  }

  lemma NotifyReported(gate: Gate)
    requires Sorted(gate.queue) && NotBehind(gate.queue)
    requires Reported(gate.reports, gate.queue, gate.nextId)
    requires forall w :: w in gate.queue ==> w.id < gate.nextId
    ensures Reported(gate.NotifyPositions().reports, gate.NotifyPositions().queue, gate.nextId)
  {
    var moves := Moves(gate.queue, 0);
    MovesAscend(gate.queue, 0);
    NotifyDescends(gate);
    forall r | r in moves
      ensures r.id < gate.nextId
    {
      assert gate.queue[r.position] in gate.queue;
    }
    forall r, w | r in gate.reports + moves && w in Placed(gate.queue) && r.id == w.id
      ensures w.lastPosition.Some? && w.lastPosition.value <= r.position
    {
      var k :| 0 <= k < |gate.queue| && Placed(gate.queue)[k] == w;
      assert gate.queue[k] in gate.queue;
      if r in moves {
        assert gate.queue[r.position].id == gate.queue[k].id;
      } else {
        assert r in gate.reports;
      }
    }
  }

  lemma NotifyCoherent(gate: Gate, futures: map<nat, Future>, permits: Holders, leaving: set<nat>)
    requires Coherent(gate, futures, permits, leaving)
    ensures Coherent(gate.NotifyPositions(), futures, permits, leaving)
    ensures PositionsTold(gate.NotifyPositions())
  {
    NotifyChannels(gate, futures, leaving);
    NotifyFair(gate);
    NotifyReported(gate);
  }

  lemma DispatchCoherent(gate: Gate, futures: map<nat, Future>, permits: Holders, leaving: set<nat>)
    requires Coherent(gate, futures, permits, leaving)
    ensures Coherent(gate.Dispatch(), futures, permits, leaving)
    ensures Settled(gate.Dispatch())
  {
    PruneRemovesNobody(gate.queue, gate.mail);
    assert gate.PruneClosed() == gate;
    AdmitQueuedCoherent(gate, futures, permits, leaving);
    NotifyCoherent(gate.AdmitQueued(), futures, permits, leaving);
    NotifyConserves(gate.AdmitQueued());
  }
}
