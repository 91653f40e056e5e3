/** Which password an account has: the one its user last chose. */
module UserPasswords {
  import opened Wrappers
  import opened Seal
  import opened Users

  // ---------------------------------------------------------------------
  // One account, one change.

  /** The password logs in to `master`, and no other does. */
  ghost predicate IsPassword(row: Row, master: Bytes, password: string) {
    forall given: string ::
      Authenticate(row, given) == if given == password then Ok(master) else Err(InvalidCredentials)
  }

  ghost predicate Fits(row: Row, master: Bytes, password: string) {
    exists recovery :: Consistent(row, master, password, recovery)
  }

  lemma FitsLogsIn(row: Row, master: Bytes, password: string)
    requires Fits(row, master, password)
    ensures IsPassword(row, master, password)
  {
    var recovery :| Consistent(row, master, password, recovery);
    forall given: string
      ensures Authenticate(row, given) == if given == password then Ok(master) else Err(InvalidCredentials)
    {
      AuthenticateConsistent(row, master, password, recovery, given);
    }
  }

  /** What a planned change is about to write fits the new password. */
  ghost predicate WriteFits(write: PasswordWrite, master: Bytes, password: string) {
    && write.hash.Phc? && write.hash.password == password
    && exists recovery :: Opens(write.sealed, master, password, recovery)
  }

  lemma WrittenFits(row: Row, write: PasswordWrite, master: Bytes, password: string)
    requires WriteFits(write, master, password)
    ensures Fits(Changed(row, write), master, password) && !Changed(row, write).mustChangePassword
    ensures Changed(row, write).username == row.username && Changed(row, write).email == row.email
  {
    var recovery :| Opens(write.sealed, master, password, recovery);
    assert Consistent(Changed(row, write), master, password, recovery);
  }

  /** A change is refused for a short new password, then for a wrong old one, then for a
      salt of the wrong length, and else moves the account to the new password. */
  lemma ChangeDecided(row: Row, master: Bytes, password: string, given: string, chosen: string, minLen: nat,
                      random: Randomness)
    requires Fits(row, master, password)
    ensures
      var plan := PlanChange(Some(row), given, chosen, minLen, random);
      if |chosen| < minLen then plan == Err(PasswordTooShort(minLen))
      else if given != password then plan == Err(InvalidCredentials)
      else if |random.salt| != 16 then plan == Err(Crypto(InvalidLength))
      else plan.Ok? && WriteFits(plan.value, master, chosen)
  {
    var recovery :| Consistent(row, master, password, recovery);
    ChangePasswordOpens(row.sealed.record, master, password, recovery, given, chosen, random.salt, random.nonce);
  }

  /** Once written, over whatever the row holds by then, the new password logs in to the
      master key and every other is refused, the old one too if it is another. */
  lemma ChangeTakes(read: Row, written: Row, master: Bytes, password: string, chosen: string, minLen: nat,
                    random: Randomness, given: string)
    requires Fits(read, master, password)
    requires PlanChange(Some(read), password, chosen, minLen, random).Ok?
    ensures
      var after := Changed(written, PlanChange(Some(read), password, chosen, minLen, random).value);
      Authenticate(after, given) == if given == chosen then Ok(master) else Err(InvalidCredentials)
  {
    ChangeDecided(read, master, password, password, chosen, minLen, random);
    var write := PlanChange(Some(read), password, chosen, minLen, random).value;
    WrittenFits(written, write, master, chosen);
    FitsLogsIn(Changed(written, write), master, chosen);
  }

  lemma ChangeUnknown(given: string, chosen: string, minLen: nat, random: Randomness)
    ensures PlanChange(None, given, chosen, minLen, random)
            == if |chosen| < minLen then Err(PasswordTooShort(minLen)) else Err(NotFound)
  {
  }

  /** Equal but for ASCII capitals: each capital as its small letter. */
  ghost predicate SameButCase(a: string, b: string) {
    |a| == |b| && forall i :: 0 <= i < |a| ==>
      || a[i] == b[i] || ('A' <= a[i] <= 'Z' && b[i] == a[i] - 'A' + 'a')
      || ('A' <= b[i] <= 'Z' && a[i] == b[i] - 'A' + 'a')
  }

  /** An account is created exactly when its password has twenty characters, its recovery
      key parses, the salt has its length, and its name and address are new; its password
      is the one given. */
  lemma NewAccountDecided(rows: map<UserId, Row>, username: string, email: string, password: string, recovery: string,
                          master: Bytes, random: Randomness, recoveryNonce: nat)
    requires |master| == KEY_LEN
    ensures
      var made := NewAccount(rows, username, email, password, recovery, master, random, recoveryNonce);
      && (made.Ok? <==>
            && |password| >= 20 && ParseRecoveryKey(recovery).Ok? && |random.salt| == 16
            && forall u :: u in rows ==> !SameButCase(rows[u].username, username) && !SameButCase(rows[u].email, email))
      && (made.Ok? ==>
            && made.value.username == username && made.value.email == email && !made.value.mustChangePassword
            && Fits(made.value, master, password))
      && (|password| < 20 ==> made == Err(PasswordTooShort(20)))
  {
    forall u | u in rows
      ensures Collides(rows[u].username, username) <==> SameButCase(rows[u].username, username)
      ensures Collides(rows[u].email, email) <==> SameButCase(rows[u].email, email)
    {
      CollidesMeans(rows[u].username, username);
      CollidesMeans(rows[u].email, email);
    }
    var made := NewAccount(rows, username, email, password, recovery, master, random, recoveryNonce);
    if made.Ok? {
      SealOpens(master, password, recovery, random.salt, random.nonce, recoveryNonce);
      assert Consistent(made.value, master, password, ParseRecoveryKey(recovery).value);
    }
  }

  lemma CollidesMeans(a: string, b: string)
    ensures Collides(a, b) <==> SameButCase(a, b)
  {
  }

  // ---------------------------------------------------------------------
  // Runs.

  /** What the users chose: the password each account should have, and the one each
      change between its read and its write is for. */
  datatype Chosen = Chosen(passwords: map<UserId, string>, pending: map<nat, string>)

  function NextChosen(w: World, after: World, step: Step, chosen: Chosen): Chosen {
    match step
    case Create(user, _, _, password, _, _, _, _) =>
      if user in after.rows then chosen.(passwords := chosen.passwords[user := password]) else chosen
    case ReadForChange(_, _, newPassword, _, _) =>
      if after.nextOp > w.nextOp then chosen.(pending := chosen.pending[w.nextOp := newPassword]) else chosen
    case WriteChange(op) =>
      if op in w.ops && op in chosen.pending then
        chosen.(passwords := chosen.passwords[w.ops[op].user := chosen.pending[op]])
      else chosen
    case _ => chosen
  }

  /** What the users have chosen by moment `i` of the run. */
  ghost function ChosenAt(run: seq<World>, steps: seq<Step>, i: nat): Chosen
    requires IsRun(run, steps) && i < |run|
  {
    if i == 0 then Chosen(map[], map[])
    else NextChosen(run[i - 1], run[i], steps[i - 1], ChosenAt(run, steps, i - 1))
  }

  ghost predicate RowFollows(w: World, chosen: Chosen, user: UserId) {
    user in w.rows ==>
      && user in w.masters && user in chosen.passwords
      && Fits(w.rows[user], w.masters[user], chosen.passwords[user])
  }

  ghost predicate OpFollows(w: World, chosen: Chosen, op: nat) {
    op in w.ops && w.ops[op].Changing? ==>
      && w.ops[op].user in w.masters && op in chosen.pending
      && WriteFits(w.ops[op].change, w.masters[w.ops[op].user], chosen.pending[op])
  }

  ghost predicate Follows(w: World, chosen: Chosen) {
    && (forall u: UserId :: RowFollows(w, chosen, u))
    && (forall o: nat :: OpFollows(w, chosen, o))
  }

  lemma CreateFollows(w: World, step: Step, chosen: Chosen)
    requires Good(w) && Follows(w, chosen) && step.Create? && Enabled(w, step)
    ensures Follows(Apply(w, step), NextChosen(w, Apply(w, step), step, chosen))
  {
    var Create(user, username, email, password, recovery, master, random, recoveryNonce) := step;
    NewAccountDecided(w.rows, username, email, password, recovery, master, random, recoveryNonce);
    var after := Apply(w, step);
    var next := NextChosen(w, after, step, chosen);
    forall u: UserId
      ensures RowFollows(after, next, u)
    {
      assert RowFollows(w, chosen, u);
    }
    forall o: nat
      ensures OpFollows(after, next, o)
    {
      assert OpFollows(w, chosen, o);
      assert o in w.ops ==> GoodOp(w.ops[o], w.masters);
    }
  }

  lemma ReadFollows(w: World, step: Step, chosen: Chosen)
    requires Good(w) && Follows(w, chosen) && step.ReadForChange?
    ensures Follows(Apply(w, step), NextChosen(w, Apply(w, step), step, chosen))
  {
    var ReadForChange(user, given, newPassword, minLen, random) := step;
    var plan := PlanChange(Find(w.rows, user), given, newPassword, minLen, random);
    if plan.Ok? {
      assert RowFollows(w, chosen, user);
      ChangeDecided(w.rows[user], w.masters[user], chosen.passwords[user], given, newPassword, minLen, random);
      BeginFollows(w, chosen, Changing(user, plan.value), newPassword);
    }
  }

  lemma BeginFollows(w: World, chosen: Chosen, op: Op, password: string)
    requires Follows(w, chosen) && op.Changing? && op.user in w.masters
    requires WriteFits(op.change, w.masters[op.user], password)
    ensures Follows(Begin(w, op), chosen.(pending := chosen.pending[w.nextOp := password]))
  {
    var next := chosen.(pending := chosen.pending[w.nextOp := password]);
    forall u: UserId
      ensures RowFollows(Begin(w, op), next, u)
    {
      assert RowFollows(w, chosen, u);
    }
    forall o: nat
      ensures OpFollows(Begin(w, op), next, o)
    {
      assert OpFollows(w, chosen, o);
    }
  }

  lemma WriteFollows(w: World, op: nat, chosen: Chosen)
    requires Follows(w, chosen) && Enabled(w, WriteChange(op))
    ensures Follows(Apply(w, WriteChange(op)), NextChosen(w, Apply(w, WriteChange(op)), WriteChange(op), chosen))
  {
    var Changing(user, write) := w.ops[op];
    assert OpFollows(w, chosen, op);
    if user in w.rows {
      WrittenFits(w.rows[user], write, w.masters[user], chosen.pending[op]);
    }
    var after := Apply(w, WriteChange(op));
    var next := NextChosen(w, after, WriteChange(op), chosen);
    forall u: UserId
      ensures RowFollows(after, next, u)
    {
      assert RowFollows(w, chosen, u);
    }
    forall o: nat
      ensures OpFollows(after, next, o)
    {
      assert OpFollows(w, chosen, o);
    }
  }

  /** A rotation leaves the password alone. */
  lemma RotatedFits(row: Row, master: Bytes, password: string, rotation: RotationWrite, recovery: Key, user: UserId,
                    masters: map<UserId, Bytes>)
    requires Fits(row, master, password) && row.sealed == rotation.preRead
    requires GoodOp(Rotating(user, rotation, recovery), masters) && masters[user] == master
    ensures Fits(row.(sealed := Json(rotation.sealed)), master, password)
  {
    var p, was :| Opens(rotation.preRead.record, master, p, was) && Opens(rotation.sealed, master, p, recovery);
    var key :| Consistent(row, master, password, key);
    OpensOneWay(row.sealed.record, master, p, was, master, password, key);
    assert Consistent(row.(sealed := Json(rotation.sealed)), master, password, recovery);
  }

  lemma RotationRow(w: World, op: nat, chosen: Chosen)
    requires Good(w) && Follows(w, chosen) && Enabled(w, WriteRotation(op))
    ensures RowFollows(Apply(w, WriteRotation(op)), chosen, w.ops[op].user)
  {
    var Rotating(user, rotation, recovery) := w.ops[op];
    assert GoodOp(w.ops[op], w.masters) && RowFollows(w, chosen, user);
    if user in w.rows && w.rows[user].sealed == rotation.preRead {
      RotatedFits(w.rows[user], w.masters[user], chosen.passwords[user], rotation, recovery, user, w.masters);
    }
  }

  /** A step that touches one row and ends one operation. */
  ghost predicate Touches(w: World, after: World, user: UserId, op: nat) {
    && after.masters == w.masters && after.ops == w.ops - {op}
    && forall u: UserId :: u != user && u in after.rows ==> u in w.rows && after.rows[u] == w.rows[u]
  }

  lemma RotationTouches(w: World, op: nat)
    requires Enabled(w, WriteRotation(op))
    ensures Touches(w, Apply(w, WriteRotation(op)), w.ops[op].user, op)
  {
  }

  lemma TouchedFollows(w: World, after: World, user: UserId, op: nat, chosen: Chosen)
    requires Follows(w, chosen) && Touches(w, after, user, op) && RowFollows(after, chosen, user)
    ensures Follows(after, chosen)
  {
    forall u: UserId
      ensures RowFollows(after, chosen, u)
    {
      assert RowFollows(w, chosen, u);
    }
    forall o: nat
      ensures OpFollows(after, chosen, o)
    {
      assert OpFollows(w, chosen, o);
    }
  }

  lemma RotationFollows(w: World, op: nat, chosen: Chosen)
    requires Good(w) && Follows(w, chosen) && Enabled(w, WriteRotation(op))
    ensures Follows(Apply(w, WriteRotation(op)), chosen)
  {
    RotationRow(w, op, chosen);
    RotationTouches(w, op);
    TouchedFollows(w, Apply(w, WriteRotation(op)), w.ops[op].user, op, chosen);
  }

  /** A step that writes no row and begins no change. */
  lemma OthersFollow(w: World, step: Step, chosen: Chosen)
    requires Follows(w, chosen) && Enabled(w, step)
    requires step.Remove? || step.ReadForRotation? || step.StoreFile?
    ensures Follows(Apply(w, step), chosen)
  {
    var after := Apply(w, step);
    forall u: UserId
      ensures RowFollows(after, chosen, u)
    {
      assert RowFollows(w, chosen, u);
    }
    forall o: nat
      ensures OpFollows(after, chosen, o)
    {
      assert OpFollows(w, chosen, o);
    }
  }

  lemma StepFollows(w: World, step: Step, chosen: Chosen)
    requires Good(w) && Follows(w, chosen) && Enabled(w, step)
    ensures Follows(Apply(w, step), NextChosen(w, Apply(w, step), step, chosen))
  {
    match step
    case Create(_, _, _, _, _, _, _, _) => CreateFollows(w, step, chosen);
    case ReadForChange(_, _, _, _, _) => ReadFollows(w, step, chosen);
    case WriteChange(op) => WriteFollows(w, op, chosen);
    case WriteRotation(op) => RotationFollows(w, op, chosen);
    case _ => OthersFollow(w, step, chosen);
  }

  lemma {:induction false} RunFollows(run: seq<World>, steps: seq<Step>, i: nat)
    requires IsRun(run, steps) && i < |run|
    ensures Follows(run[i], ChosenAt(run, steps, i))
    decreases i
  {
    if i > 0 {
      RunFollows(run, steps, i - 1);
      RunGood(run, steps, i - 1);
      StepFollows(run[i - 1], steps[i - 1], ChosenAt(run, steps, i - 1));
    }
  }

  /** However the operations interleave, the password of an account is the one it was
      created with, or the one its last written change was for; it opens the account's
      master key, and every other is refused. */
  lemma ChosenPasswordLogsIn(run: seq<World>, steps: seq<Step>, i: nat, user: UserId, given: string)
    requires IsRun(run, steps) && i < |run| && user in run[i].rows
    ensures user in run[i].masters && user in ChosenAt(run, steps, i).passwords
    ensures Authenticate(run[i].rows[user], given)
            == if given == ChosenAt(run, steps, i).passwords[user] then Ok(run[i].masters[user])
               else Err(InvalidCredentials)
  {
    RunFollows(run, steps, i);
    assert RowFollows(run[i], ChosenAt(run, steps, i), user);
    FitsLogsIn(run[i].rows[user], run[i].masters[user], ChosenAt(run, steps, i).passwords[user]);
  }

  // ---------------------------------------------------------------------
  // Files.

  /** A file is sealed exactly at an absolute path, and opens to its content there. */
  lemma FileSealed(path: string, content: Bytes, master: Bytes, nonce: nat)
    ensures EncryptFile(content, path, master, nonce).Ok? <==> path != "" && path[0] == '/'
    ensures EncryptFile(content, path, master, nonce).Ok? ==>
              DecryptFile(EncryptFile(content, path, master, nonce).value, path, master) == Ok(content)
  {
  }

  /** A file is stored exactly when its owner's password is given and its path is
      absolute; then it is that file, and opens to its content. */
  lemma FileStored(w: World, user: UserId, password: string, given: string, path: string, content: Bytes, nonce: nat)
    requires user in w.rows && user in w.masters && IsPassword(w.rows[user], w.masters[user], password)
    ensures
      var after := Apply(w, StoreFile(user, given, path, content, nonce));
      if given == password && path != "" && path[0] == '/' then
        exists blob ::
          && after == w.(files := w.files + [StoredFile(user, path, content, blob)])
          && DecryptFile(blob, path, w.masters[user]) == Ok(content)
      else after == w
  {
    FileSealed(path, content, w.masters[user], nonce);
    assert Authenticate(w.rows[user], given)
        == if given == password then Ok(w.masters[user]) else Err(InvalidCredentials);
    if given == password && path != "" && path[0] == '/' {
      var blob := EncryptFile(content, path, w.masters[user], nonce).value;
      assert Apply(w, StoreFile(user, given, path, content, nonce))
          == w.(files := w.files + [StoredFile(user, path, content, blob)]);
    }
  }
}
