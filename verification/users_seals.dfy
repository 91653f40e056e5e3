/**
 The stale write told from the stored texts alone: whether the recovery seal a password
 change carries is the stored one, byte for byte.
 */
module UserSeals {
  import opened Wrappers
  import opened Seal
  import opened Users

  /** What a caller of the unconditional write can compare: the recovery seal about to be
      written is not the one now stored. */
  predicate WritesOtherSeal(w: World, step: Step, user: UserId) {
    && step.WriteChange? && Enabled(w, step) && w.ops[step.op].user == user
    && user in w.rows && w.rows[user].sealed.Json?
    && w.rows[user].sealed.record.recoverySealed != w.ops[step.op].change.sealed.recoverySealed
  }

  /** The step seals the account's master key under a recovery key just generated. */
  predicate Issues(step: Step, user: UserId) {
    match step
    case Create(created, _, _, _, recovery, _, _, _) => created == user && ParseRecoveryKey(recovery).Ok?
    case ReadForRotation(rotated, _, recovery, _) => rotated == user && ParseRecoveryKey(recovery).Ok?
    case _ => false
  }

  function IssuedKey(step: Step, user: UserId): Key
    requires Issues(step, user)
  {
    ParseRecoveryKey(step.recovery).value
  }

  function IssuedNonce(step: Step, user: UserId): nat
    requires Issues(step, user)
  {
    if step.Create? then step.recoveryNonce else step.nonce
  }

  function IssuedSeal(step: Step, user: UserId, master: Bytes): Blob
    requires Issues(step, user)
  {
    AeadSeal(master, RECOVERY_SEAL_AAD, IssuedKey(step, user), IssuedNonce(step, user))
  }

  /** No recovery key is generated twice for the account. */
  ghost predicate FreshKeys(steps: seq<Step>, user: UserId) {
    forall j, k :: 0 <= j < k < |steps| && Issues(steps[j], user) && Issues(steps[k], user) ==>
      IssuedKey(steps[j], user) != IssuedKey(steps[k], user)
  }

  // ---------------------------------------------------------------------
  // Every recovery seal about comes from the step that issued its key.

  ghost predicate IssuedAt(steps: seq<Step>, user: UserId, master: Bytes, blob: Blob, k: nat) {
    k < |steps| && Issues(steps[k], user) && blob == IssuedSeal(steps[k], user, master)
  }

  ghost predicate Issued(steps: seq<Step>, user: UserId, master: Bytes, blob: Blob) {
    exists k :: IssuedAt(steps, user, master, blob, k)
  }

  ghost predicate OpIssued(steps: seq<Step>, op: Op, master: Bytes) {
    match op
    case Changing(user, change) => Issued(steps, user, master, change.sealed.recoverySealed)
    case Rotating(user, rotation, _) => Issued(steps, user, master, rotation.sealed.recoverySealed)
  }

  ghost predicate RowIssued(steps: seq<Step>, user: UserId, row: Row, master: Bytes) {
    row.sealed.Json? && Issued(steps, user, master, row.sealed.record.recoverySealed)
  }

  ghost predicate Traced(w: World, steps: seq<Step>, user: UserId) {
    && (user in w.rows ==> user in w.masters && RowIssued(steps, user, w.rows[user], w.masters[user]))
    && forall o :: o in w.ops && w.ops[o].user == user ==>
        user in w.masters && OpIssued(steps, w.ops[o], w.masters[user])
  }

  lemma IssuedLater(steps: seq<Step>, step: Step, user: UserId, master: Bytes, blob: Blob)
    requires Issued(steps, user, master, blob)
    ensures Issued(steps + [step], user, master, blob)
  {
    var k :| IssuedAt(steps, user, master, blob, k);
    assert IssuedAt(steps + [step], user, master, blob, k);
  }

  lemma IssuedNow(steps: seq<Step>, step: Step, user: UserId, master: Bytes)
    requires Issues(step, user)
    ensures Issued(steps + [step], user, master, IssuedSeal(step, user, master))
  {
    assert IssuedAt(steps + [step], user, master, IssuedSeal(step, user, master), |steps|);
  }

  lemma OpIssuedLater(steps: seq<Step>, step: Step, op: Op, master: Bytes)
    requires OpIssued(steps, op, master)
    ensures OpIssued(steps + [step], op, master)
  {
    match op
    case Changing(user, change) => IssuedLater(steps, step, user, master, change.sealed.recoverySealed);
    case Rotating(user, rotation, _) => IssuedLater(steps, step, user, master, rotation.sealed.recoverySealed);
  }

  lemma TracedLater(w: World, steps: seq<Step>, step: Step, user: UserId)
    requires Traced(w, steps, user)
    ensures Traced(w, steps + [step], user)
  {
    if user in w.rows {
      IssuedLater(steps, step, user, w.masters[user], w.rows[user].sealed.record.recoverySealed);
    }
    forall o | o in w.ops && w.ops[o].user == user
      ensures OpIssued(steps + [step], w.ops[o], w.masters[user])
    {
      OpIssuedLater(steps, step, w.ops[o], w.masters[user]);
    }
  }

  lemma TracedWithOp(w: World, steps: seq<Step>, user: UserId, op: Op)
    requires Traced(w, steps, user)
    requires op.user == user ==> user in w.masters && OpIssued(steps, op, w.masters[user])
    ensures Traced(Begin(w, op), steps, user)
  {
    var begun := Begin(w, op);
    forall o | o in begun.ops && begun.ops[o].user == user
      ensures OpIssued(steps, begun.ops[o], begun.masters[user])
    {
      assert o != w.nextOp ==> o in w.ops;
    }
  }

  lemma NewAccountSeal(rows: map<UserId, Row>, username: string, email: string, password: string, recovery: string,
                       master: Bytes, random: Randomness, recoveryNonce: nat)
    requires NewAccount(rows, username, email, password, recovery, master, random, recoveryNonce).Ok?
    ensures
      var row := NewAccount(rows, username, email, password, recovery, master, random, recoveryNonce).value;
      && ParseRecoveryKey(recovery).Ok? && row.sealed.Json?
      && row.sealed.record.recoverySealed
         == AeadSeal(master, RECOVERY_SEAL_AAD, ParseRecoveryKey(recovery).value, recoveryNonce)
  {
  }

  lemma PlanChangeSeal(row: Row, oldPassword: string, newPassword: string, minLen: nat, random: Randomness)
    ensures
      var plan := PlanChange(Some(row), oldPassword, newPassword, minLen, random);
      plan.Ok? ==> row.sealed.Json? && plan.value.sealed.recoverySealed == row.sealed.record.recoverySealed
  {
  }

  lemma PlanRotationSeal(row: Row, master: Bytes, given: string, recovery: string, nonce: nat)
    requires GoodRow(row, master)
    ensures
      var plan := PlanRotation(Some(row), given, recovery, nonce);
      plan.Ok? ==>
        && ParseRecoveryKey(recovery).Ok?
        && plan.value.sealed.recoverySealed
           == AeadSeal(master, RECOVERY_SEAL_AAD, ParseRecoveryKey(recovery).value, nonce)
  {
    var password, key :| Consistent(row, master, password, key);
  }

  lemma CreateTraced(w: World, steps: seq<Step>, step: Step, user: UserId)
    requires Good(w) && Traced(w, steps + [step], user) && step.Create? && Enabled(w, step)
    ensures Traced(Apply(w, step), steps + [step], user)
  {
    var Create(created, username, email, password, recovery, master, random, recoveryNonce) := step;
    if NewAccount(w.rows, username, email, password, recovery, master, random, recoveryNonce).Ok? {
      NewAccountSeal(w.rows, username, email, password, recovery, master, random, recoveryNonce);
      if created == user {
        IssuedNow(steps, step, user, master);
        assert forall o :: o in w.ops ==> GoodOp(w.ops[o], w.masters);
      }
    }
  }

  lemma ReadForChangeTraced(w: World, steps: seq<Step>, step: Step, user: UserId)
    requires Traced(w, steps, user) && step.ReadForChange?
    ensures Traced(Apply(w, step), steps, user)
  {
    var ReadForChange(reader, oldPassword, newPassword, minLen, random) := step;
    var plan := PlanChange(Find(w.rows, reader), oldPassword, newPassword, minLen, random);
    if plan.Ok? {
      PlanChangeSeal(w.rows[reader], oldPassword, newPassword, minLen, random);
      TracedWithOp(w, steps, user, Changing(reader, plan.value));
    }
  }

  lemma ReadForRotationTraced(w: World, steps: seq<Step>, step: Step, user: UserId)
    requires Good(w) && Traced(w, steps + [step], user) && step.ReadForRotation?
    ensures Traced(Apply(w, step), steps + [step], user)
  {
    var ReadForRotation(reader, given, recovery, nonce) := step;
    var plan := PlanRotation(Find(w.rows, reader), given, recovery, nonce);
    if plan.Ok? {
      PlanRotationSeal(w.rows[reader], w.masters[reader], given, recovery, nonce);
      IssuedNow(steps, step, reader, w.masters[reader]);
      TracedWithOp(w, steps + [step], user, Rotating(reader, plan.value, ParseRecoveryKey(recovery).value));
    }
  }

  lemma WriteTraced(w: World, steps: seq<Step>, step: Step, user: UserId)
    requires Traced(w, steps, user) && Enabled(w, step) && (step.WriteChange? || step.WriteRotation?)
    ensures Traced(Apply(w, step), steps, user)
  {
    assert w.ops[step.op].user == user ==> OpIssued(steps, w.ops[step.op], w.masters[user]);
  }

  lemma StepTraced(w: World, steps: seq<Step>, step: Step, user: UserId)
    requires Good(w) && Traced(w, steps, user) && Enabled(w, step)
    ensures Traced(Apply(w, step), steps + [step], user)
  {
    TracedLater(w, steps, step, user);
    match step
    case Create(_, _, _, _, _, _, _, _) => CreateTraced(w, steps, step, user);
    case Remove(_) =>
    case ReadForChange(_, _, _, _, _) => ReadForChangeTraced(w, steps + [step], step, user);
    case WriteChange(_) => WriteTraced(w, steps + [step], step, user);
    case ReadForRotation(_, _, _, _) => ReadForRotationTraced(w, steps, step, user);
    case WriteRotation(_) => WriteTraced(w, steps + [step], step, user);
    case StoreFile(_, _, _, _, _) =>
  }

  lemma StepTracedAs(w: World, after: World, steps: seq<Step>, step: Step, more: seq<Step>, user: UserId)
    requires Good(w) && Traced(w, steps, user) && Enabled(w, step)
    requires after == Apply(w, step) && more == steps + [step]
    ensures Traced(after, more, user)
  {
    StepTraced(w, steps, step, user);
  }

  lemma TracedNext(run: seq<World>, steps: seq<Step>, i: nat, user: UserId)
    requires IsRun(run, steps) && i < |steps| && Traced(run[i], steps[..i], user)
    ensures Traced(run[i + 1], steps[..i + 1], user)
  {
    RunGood(run, steps, i);
    assert steps[..i + 1] == steps[..i] + [steps[i]];
    StepTracedAs(run[i], run[i + 1], steps[..i], steps[i], steps[..i + 1], user);
  }

  lemma {:induction false} RunTraced(run: seq<World>, steps: seq<Step>, i: nat, user: UserId)
    requires IsRun(run, steps) && i < |run|
    ensures Traced(run[i], steps[..i], user)
    decreases i
  {
    if i > 0 {
      RunTraced(run, steps, i - 1, user);
      TracedNext(run, steps, i - 1, user);
    }
  }

  // ---------------------------------------------------------------------
  // Comparing the seals is comparing the keys.

  lemma SameKeySameSeal(steps: seq<Step>, i: nat, user: UserId, master: Bytes, a: Blob, b: Blob)
    requires i <= |steps| && FreshKeys(steps, user)
    requires Issued(steps[..i], user, master, a) && Issued(steps[..i], user, master, b)
    ensures a.Sealed? && b.Sealed? && (a == b <==> a.key == b.key)
  {
    var j: nat :| IssuedAt(steps[..i], user, master, a, j);
    var k: nat :| IssuedAt(steps[..i], user, master, b, k);
    assert steps[..i][j] == steps[j] && steps[..i][k] == steps[k];
    if j < k {
      assert IssuedKey(steps[j], user) != IssuedKey(steps[k], user);
    } else if k < j {
      assert IssuedKey(steps[k], user) != IssuedKey(steps[j], user);
    }
  }

  /** A seal that is the stored one is never stale, and one that is not always is, if no
      recovery key was generated twice. */
  lemma StaleIsOther(run: seq<World>, steps: seq<Step>, i: nat, user: UserId)
    requires IsRun(run, steps) && i < |steps|
    ensures WritesStaleSeal(run[i], steps[i], user) ==> WritesOtherSeal(run[i], steps[i], user)
    ensures FreshKeys(steps, user) ==>
              (WritesStaleSeal(run[i], steps[i], user) <==> WritesOtherSeal(run[i], steps[i], user))
  {
    if FreshKeys(steps, user) && WritesOtherSeal(run[i], steps[i], user) {
      RunTraced(run, steps, i, user);
      var w, op := run[i], run[i].ops[steps[i].op];
      assert OpIssued(steps[..i], op, w.masters[user]);
      SameKeySameSeal(steps, i, user, w.masters[user], w.rows[user].sealed.record.recoverySealed,
                      op.change.sealed.recoverySealed);
    }
  }

  /** Over a whole run, whatever keys are generated: while no password change writes
      another recovery seal than the stored one, the announced key works. */
  lemma SameSealKeepsKey(run: seq<World>, steps: seq<Step>, user: UserId, i: nat)
    requires IsRun(run, steps) && i < |run| && user in run[i].rows
    requires forall k :: 0 <= k < |steps| ==> !WritesOtherSeal(run[k], steps[k], user)
    ensures AnnouncedKeyWorks(run[i], user)
  {
    forall k | 0 <= k < |steps|
      ensures !WritesStaleSeal(run[k], steps[k], user)
    {
      StaleIsOther(run, steps, k, user);
    }
    AnnouncedKeyAlwaysWorks(run, steps, user);
  }

  /** Over a whole run with fresh recovery keys: the announced key works at every moment
      the account exists if and only if every password change writes back exactly the
      recovery seal then stored. */
  lemma AnnouncedKeyBySeal(run: seq<World>, steps: seq<Step>, user: UserId)
    requires IsRun(run, steps) && FreshKeys(steps, user)
    ensures (forall i :: 0 <= i < |run| && user in run[i].rows ==> AnnouncedKeyWorks(run[i], user))
            <==> (forall i :: 0 <= i < |steps| ==> !WritesOtherSeal(run[i], steps[i], user))
  {
    AnnouncedKeyAlwaysWorks(run, steps, user);
    forall k | 0 <= k < |steps|
      ensures WritesStaleSeal(run[k], steps[k], user) <==> WritesOtherSeal(run[k], steps[k], user)
    {
      StaleIsOther(run, steps, k, user);
    }
  }
}
