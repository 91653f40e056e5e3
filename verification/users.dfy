/**
 Account rows under concurrent password changes and recovery rotations.

 Both operations read the row, compute, and write it back in a second database
 call; anything may run in between. A password change writes unconditionally, a
 rotation only over the very record it read.
 */
module Users {
  import opened Wrappers
  import opened Seal
  import Text

  type UserId = nat

  datatype StoredHash = Phc(password: string, salt: Bytes) | Malformed(text: string)

  datatype UsersError =
    | Duplicate
    | NotFound
    | InvalidCredentials
    | PasswordTooShort(minLen: nat)
    | InvalidHash
    | CorruptSeal
    | Crypto(error: CryptoError)

  /** The sealed record as stored text; serialization is deterministic, so equal
      records and equal texts are the same thing. */
  datatype SealColumn = Json(record: SealedMasterKey) | Unparseable(text: string)

  datatype Row = Row(
    username: string,
    email: string,
    passwordHash: Option<StoredHash>,
    sealed: SealColumn,
    mustChangePassword: bool)

  const MIN_PASSWORD_LEN: nat := 20

  function HashPassword(password: string, salt: Bytes): StoredHash {
    Phc(password, salt)
  }

  function VerifyPassword(password: string, stored: StoredHash): Result<bool, UsersError> {
    match stored
    case Phc(p, _) => Ok(p == password)
    case Malformed(_) => Err(InvalidHash)
  }

  /** The password check both login and password change begin with. */
  function CheckCredentials(row: Row, password: string): Result<SealedMasterKey, UsersError> {
    match row.passwordHash
    case None => Err(InvalidCredentials)
    case Some(stored) =>
      match VerifyPassword(password, stored)
      case Err(e) => Err(e)
      case Ok(matches) =>
        if !matches then Err(InvalidCredentials)
        else if row.sealed.Unparseable? then Err(CorruptSeal)
        else Ok(row.sealed.record)
  }

  /** `authenticate_local` once the row is found. */
  function Authenticate(row: Row, password: string): Result<Bytes, UsersError> {
    match CheckCredentials(row, password)
    case Err(e) => Err(e)
    case Ok(record) =>
      match UnsealWithPassword(record, password)
      case Err(e) => Err(Crypto(e))
      case Ok(master) => Ok(master)
  }

  /** What a password change computed and is about to write. */
  datatype PasswordWrite = PasswordWrite(hash: StoredHash, sealed: SealedMasterKey)

  /** What a rotation computed, and the record it read. */
  datatype RotationWrite = RotationWrite(preRead: SealColumn, sealed: SealedMasterKey)

  datatype Randomness = Randomness(salt: Bytes, nonce: nat, hashSalt: Bytes)

  function PlanChange(row: Option<Row>, oldPassword: string, newPassword: string, minLen: nat, random: Randomness)
    : Result<PasswordWrite, UsersError>
  {
    if |newPassword| < minLen then Err(PasswordTooShort(minLen))
    else match row
      case None => Err(NotFound)
      case Some(found) =>
        match CheckCredentials(found, oldPassword)
        case Err(e) => Err(e)
        case Ok(record) =>
          match ChangePassword(record, oldPassword, newPassword, random.salt, random.nonce)
          case Err(e) => Err(Crypto(e))
          case Ok(resealed) => Ok(PasswordWrite(HashPassword(newPassword, random.hashSalt), resealed))
  }

  /** The regenerate handler up to its write: the unseal is its password check. */
  function PlanRotation(row: Option<Row>, password: string, recovery: string, nonce: nat)
    : Result<RotationWrite, UsersError>
  {
    match row
    case None => Err(NotFound)
    case Some(found) =>
      if found.sealed.Unparseable? then Err(CorruptSeal)
      else match RotateRecoveryKey(found.sealed.record, password, recovery, nonce)
        case Err(e) => Err(Crypto(e))
        case Ok(rotated) => Ok(RotationWrite(found.sealed, rotated))
  }

  function Find(rows: map<UserId, Row>, user: UserId): Option<Row> {
    if user in rows then Some(rows[user]) else None
  }

  function Changed(row: Row, write: PasswordWrite): Row {
    row.(passwordHash := Some(write.hash), sealed := Json(write.sealed), mustChangePassword := false)
  }

  /** Equal to a column that does not tell ASCII capitals from small letters. */
  predicate Collides(a: string, b: string) {
    |a| == |b| && forall i :: 0 <= i < |a| ==> Text.LowerAscii(a[i]) == Text.LowerAscii(b[i])
  }

  predicate IsTaken(rows: map<UserId, Row>, username: string, email: string) {
    exists u :: u in rows && (Collides(rows[u].username, username) || Collides(rows[u].email, email))
  }

  function NewAccount(rows: map<UserId, Row>, username: string, email: string, password: string, recovery: string,
                      master: Bytes, random: Randomness, recoveryNonce: nat): Result<Row, UsersError>
  {
    if |password| < MIN_PASSWORD_LEN then Err(PasswordTooShort(MIN_PASSWORD_LEN))
    else match SealMasterKey(master, password, recovery, random.salt, random.nonce, recoveryNonce)
      case Err(e) => Err(Crypto(e))
      case Ok(sealed) =>
        if IsTaken(rows, username, email) then Err(Duplicate)
        else Ok(Row(username, email, Some(HashPassword(password, random.hashSalt)), Json(sealed), false))
  }

  // ---------------------------------------------------------------------
  // Interleavings.

  /** An operation between its read and its write. */
  datatype Op =
    | Changing(user: UserId, change: PasswordWrite)
    | Rotating(user: UserId, rotation: RotationWrite, recovery: Key)

  datatype StoredFile = StoredFile(owner: UserId, path: string, content: Bytes, blob: Blob)

  /** `masters` and `current` are what the users were given: the key their data is
      under, and the recovery key last announced to them as valid. */
  datatype World = World(
    rows: map<UserId, Row>,
    ops: map<nat, Op>,
    nextOp: nat,
    masters: map<UserId, Bytes>,
    current: map<UserId, Key>,
    files: seq<StoredFile>)

  datatype Step =
    | Create(user: UserId, username: string, email: string, password: string, recovery: string, master: Bytes,
             random: Randomness, recoveryNonce: nat)
    | Remove(user: UserId)
    | ReadForChange(user: UserId, oldPassword: string, newPassword: string, minLen: nat, random: Randomness)
    | WriteChange(op: nat)
    | ReadForRotation(user: UserId, password: string, recovery: string, nonce: nat)
    | WriteRotation(op: nat)
    | StoreFile(user: UserId, password: string, path: string, content: Bytes, nonce: nat)

  /** Ids of accounts are never reissued, and generated keys have their length. */
  predicate Enabled(w: World, step: Step) {
    match step
    case Create(user, _, _, _, _, master, _, _) => user !in w.masters && |master| == KEY_LEN
    case WriteChange(op) => op in w.ops && w.ops[op].Changing?
    case WriteRotation(op) => op in w.ops && w.ops[op].Rotating?
    case _ => true
  }

  function Begin(w: World, op: Op): World {
    w.(ops := w.ops[w.nextOp := op], nextOp := w.nextOp + 1)
  }

  function Apply(w: World, step: Step): World
    requires Enabled(w, step)
  {
    match step
    case Create(user, username, email, password, recovery, master, random, recoveryNonce) =>
      (match NewAccount(w.rows, username, email, password, recovery, master, random, recoveryNonce)
       case Err(_) => w
       case Ok(row) =>
         w.(rows := w.rows[user := row],
            masters := w.masters[user := master],
            current := w.current[user := ParseRecoveryKey(recovery).value]))
    case Remove(user) => w.(rows := w.rows - {user})
    case ReadForChange(user, oldPassword, newPassword, minLen, random) =>
      (match PlanChange(Find(w.rows, user), oldPassword, newPassword, minLen, random)
       case Err(_) => w
       case Ok(write) => Begin(w, Changing(user, write)))
    case WriteChange(op) =>
      var user := w.ops[op].user;
      var done := w.(ops := w.ops - {op});
      if user in w.rows then
        done.(rows := w.rows[user := Changed(w.rows[user], w.ops[op].change)])
      else done
    case ReadForRotation(user, password, recovery, nonce) =>
      (match PlanRotation(Find(w.rows, user), password, recovery, nonce)
       case Err(_) => w
       case Ok(write) => Begin(w, Rotating(user, write, ParseRecoveryKey(recovery).value)))
    case WriteRotation(op) =>
      var Rotating(user, rotation, recovery) := w.ops[op];
      var done := w.(ops := w.ops - {op});
      if user in w.rows && w.rows[user].sealed == rotation.preRead then
        done.(rows := w.rows[user := w.rows[user].(sealed := Json(rotation.sealed))],
              current := w.current[user := recovery])
      else done
    case StoreFile(user, password, path, content, nonce) =>
      if user !in w.rows then w
      else match Authenticate(w.rows[user], password)
        case Err(_) => w
        case Ok(master) =>
          match EncryptFile(content, path, master, nonce)
          case Err(_) => w
          case Ok(blob) => w.(files := w.files + [StoredFile(user, path, content, blob)])
  }

  const EMPTY_WORLD := World(map[], map[], 0, map[], map[], [])

  ghost predicate IsRun(run: seq<World>, steps: seq<Step>) {
    && |run| == |steps| + 1
    && run[0] == EMPTY_WORLD
    && forall i :: 0 <= i < |steps| ==> Enabled(run[i], steps[i]) && run[i + 1] == Apply(run[i], steps[i])
  }

  // ---------------------------------------------------------------------
  // The store.

  /** The table, and what the calls between their read and their write hold. Every
      method is the step it stands for. */
  class UserStore {
    var rows: map<UserId, Row>
    ghost var ops: map<nat, Op>
    ghost var nextOp: nat
    ghost var masters: map<UserId, Bytes>
    ghost var current: map<UserId, Key>
    ghost var files: seq<StoredFile>

    ghost function Everything(): World
      reads this
    {
      World(rows, ops, nextOp, masters, current, files)
    }

    constructor ()
      ensures Everything() == EMPTY_WORLD
    {
      rows, ops, nextOp, masters, current, files := map[], map[], 0, map[], map[], [];
    }

    /** Insert an account for a fresh `id`, unless its name or address is taken. */
    method CreateLocal(id: UserId, username: string, email: string, password: string, recovery: string, master: Bytes,
                       random: Randomness, recoveryNonce: nat)
      returns (outcome: Result<Row, UsersError>)
      requires Enabled(Everything(), Create(id, username, email, password, recovery, master, random, recoveryNonce))
      modifies this
      ensures outcome.Err? ==> rows == old(rows)
      ensures outcome.Ok? ==> rows == old(rows)[id := outcome.value]
      ensures outcome == NewAccount(old(rows), username, email, password, recovery, master, random, recoveryNonce)
      ensures Everything() == Apply(old(Everything()),
                                    Create(id, username, email, password, recovery, master, random, recoveryNonce))
    {
      if |password| < MIN_PASSWORD_LEN {
        return Err(PasswordTooShort(MIN_PASSWORD_LEN));
      }
      var hash := HashPassword(password, random.hashSalt);
      var sealed := SealMasterKey(master, password, recovery, random.salt, random.nonce, recoveryNonce);
      if sealed.Err? {
        return Err(Crypto(sealed.error));
      }
      if IsTaken(rows, username, email) {
        return Err(Duplicate);
      }
      var row := Row(username, email, Some(hash), Json(sealed.value), false);
      rows := rows[id := row];
      masters := masters[id := master];
      current := current[id := ParseRecoveryKey(recovery).value];
      outcome := Ok(row);
    }

    /** A call enters the stretch between its read and its write. */
    ghost method Hold(begun: Op) returns (op: nat)
      modifies `ops, `nextOp
      ensures op == old(nextOp) && Everything() == Begin(old(Everything()), begun)
    {
      op := nextOp;
      ops, nextOp := ops[op := begun], nextOp + 1;
    }

    /** The first half of `change_password_min`: everything up to the write. */
    method ReadChange(user: UserId, oldPassword: string, newPassword: string, minLen: nat, random: Randomness)
      returns (plan: Result<PasswordWrite, UsersError>, ghost op: nat)
      modifies `ops, `nextOp
      ensures plan == PlanChange(Find(rows, user), oldPassword, newPassword, minLen, random)
      ensures plan.Ok? ==> op in ops && ops[op] == Changing(user, plan.value)
      ensures Everything() == Apply(old(Everything()), ReadForChange(user, oldPassword, newPassword, minLen, random))
    {
      op := 0;
      if |newPassword| < minLen {
        return Err(PasswordTooShort(minLen)), op;
      }
      if user !in rows {
        return Err(NotFound), op;
      }
      var record := CheckCredentials(rows[user], oldPassword);
      if record.Err? {
        return Err(record.error), op;
      }
      var resealed := ChangePassword(record.value, oldPassword, newPassword, random.salt, random.nonce);
      if resealed.Err? {
        return Err(Crypto(resealed.error)), op;
      }
      plan := Ok(PasswordWrite(HashPassword(newPassword, random.hashSalt), resealed.value));
      op := Hold(Changing(user, plan.value));
    }

    /** The second half of `change_password_min`. */
    method WriteChangeOf(ghost op: nat, user: UserId, write: PasswordWrite)
      requires op in ops && ops[op] == Changing(user, write)
      modifies `rows, `ops
      ensures rows == if user in old(rows) then old(rows)[user := Changed(old(rows)[user], write)] else old(rows)
      ensures Everything() == Apply(old(Everything()), WriteChange(op))
    {
      if user in rows {
        rows := rows[user := rows[user].(
          passwordHash := Some(write.hash), sealed := Json(write.sealed), mustChangePassword := false)];
      }
      ops := ops - {op};
    }

    /** The regenerate handler up to its write. */
    method ReadRotation(user: UserId, password: string, recovery: string, nonce: nat)
      returns (plan: Result<RotationWrite, UsersError>, ghost op: nat)
      modifies `ops, `nextOp
      ensures plan == PlanRotation(Find(rows, user), password, recovery, nonce)
      ensures plan.Ok? ==> op in ops && ops[op] == Rotating(user, plan.value, ParseRecoveryKey(recovery).value)
      ensures Everything() == Apply(old(Everything()), ReadForRotation(user, password, recovery, nonce))
    {
      op := 0;
      if user !in rows {
        return Err(NotFound), op;
      }
      var preRead := rows[user].sealed;
      if preRead.Unparseable? {
        return Err(CorruptSeal), op;
      }
      var rotated := RotateRecoveryKey(preRead.record, password, recovery, nonce);
      if rotated.Err? {
        return Err(Crypto(rotated.error)), op;
      }
      plan := Ok(RotationWrite(preRead, rotated.value));
      op := Hold(Rotating(user, plan.value, ParseRecoveryKey(recovery).value));
    }

    /** A compare-and-swap on the stored text: exactly when it is still the text
        that was read does anything change. */
    method UpdateSealed(ghost op: nat, user: UserId, preRead: SealColumn, sealed: SealedMasterKey)
      returns (written: bool)
      requires op in ops && ops[op].Rotating?
      requires ops[op].user == user && ops[op].rotation == RotationWrite(preRead, sealed)
      modifies `rows, `ops, `current
      ensures written <==> user in old(rows) && old(rows)[user].sealed == preRead
      ensures rows == if written then old(rows)[user := old(rows)[user].(sealed := Json(sealed))] else old(rows)
      ensures Everything() == Apply(old(Everything()), WriteRotation(op))
    {
      written := user in rows && rows[user].sealed == preRead;
      if written {
        rows := rows[user := rows[user].(sealed := Json(sealed))];
        current := current[user := ops[op].recovery];
      }
      ops := ops - {op};
    }

    method Delete(user: UserId) returns (outcome: Result<(), UsersError>)
      modifies `rows
      ensures outcome == if user in old(rows) then Ok(()) else Err(NotFound)
      ensures rows == old(rows) - {user}
      ensures Everything() == Apply(old(Everything()), Remove(user))
    {
      if user !in rows {
        return Err(NotFound);
      }
      rows := rows - {user};
      outcome := Ok(());
    }
  }

  // ---------------------------------------------------------------------
  // What every interleaving keeps.

  /** Hash and password seal accept the same password, and both seals hold `master`. */
  ghost predicate Consistent(row: Row, master: Bytes, password: string, recovery: Key) {
    && row.passwordHash.Some? && row.passwordHash.value.Phc?
    && row.passwordHash.value.password == password
    && row.sealed.Json?
    && Opens(row.sealed.record, master, password, recovery)
  }

  ghost predicate GoodRow(row: Row, master: Bytes) {
    exists password, recovery :: Consistent(row, master, password, recovery)
  }

  ghost predicate GoodOp(op: Op, masters: map<UserId, Bytes>) {
    && op.user in masters
    && match op
       case Changing(user, write) =>
         write.hash.Phc? && exists recovery :: Opens(write.sealed, masters[user], write.hash.password, recovery)
       case Rotating(user, rotation, recovery) =>
         rotation.preRead.Json? && exists password, was ::
           && Opens(rotation.preRead.record, masters[user], password, was)
           && Opens(rotation.sealed, masters[user], password, recovery)
  }

  ghost predicate GoodFile(file: StoredFile, masters: map<UserId, Bytes>) {
    && file.owner in masters
    && forall path: string, master: Bytes ::
         DecryptFile(file.blob, path, master)
         == if path == file.path && master == masters[file.owner] then Ok(file.content)
            else if DeriveDek(master, path).Err? then Err(InvalidPath)
            else Err(AuthenticationFailed)
  }

  ghost predicate Good(w: World) {
    && (forall u :: u in w.rows ==> u in w.masters && GoodRow(w.rows[u], w.masters[u]))
    && (forall o :: o in w.ops ==> GoodOp(w.ops[o], w.masters))
    && (forall f :: f in w.files ==> GoodFile(f, w.masters))
  }

  lemma OpensOneWay(sealed: SealedMasterKey, master: Bytes, password: string, recovery: Key,
                    master': Bytes, password': string, recovery': Key)
    requires Opens(sealed, master, password, recovery)
    requires Opens(sealed, master', password', recovery')
    ensures master == master' && password == password' && recovery == recovery'
  {
    assert UnsealWithPassword(sealed, password).Ok?;
    var r: string :| ParseRecoveryKey(r) == Ok(recovery);
    assert UnsealWithRecovery(sealed, r).Ok?;
  }

  lemma CreateGood(w: World, step: Step)
    requires Good(w) && step.Create? && Enabled(w, step)
    ensures Good(Apply(w, step))
  {
    var Create(user, username, email, password, recovery, master, random, recoveryNonce) := step;
    var made := NewAccount(w.rows, username, email, password, recovery, master, random, recoveryNonce);
    if made.Ok? {
      SealOpens(master, password, recovery, random.salt, random.nonce, recoveryNonce);
      assert Consistent(made.value, master, password, ParseRecoveryKey(recovery).value);
      GrowMasters(w, user, master);
    }
  }

  lemma GoodWithRow(w: World, user: UserId, row: Row)
    requires Good(w) && user in w.masters && GoodRow(row, w.masters[user])
    ensures Good(w.(rows := w.rows[user := row]))
  {
  }

  lemma GoodWithOp(w: World, op: Op)
    requires Good(w) && GoodOp(op, w.masters)
    ensures Good(Begin(w, op))
  {
    var begun := Begin(w, op);
    forall o | o in begun.ops
      ensures GoodOp(begun.ops[o], begun.masters)
    {
      assert o != w.nextOp ==> o in w.ops;
    }
  }

  lemma GoodWithFile(w: World, file: StoredFile)
    requires Good(w) && GoodFile(file, w.masters)
    ensures Good(w.(files := w.files + [file]))
  {
  }

  lemma GoodDone(w: World, op: nat)
    requires Good(w)
    ensures Good(w.(ops := w.ops - {op}))
  {
  }

  lemma GrowMasters(w: World, user: UserId, master: Bytes)
    requires Good(w) && user !in w.masters
    ensures Good(w.(masters := w.masters[user := master]))
  {
    var masters := w.masters[user := master];
    forall o | o in w.ops
      ensures GoodOp(w.ops[o], masters)
    {
      assert GoodOp(w.ops[o], w.masters);
      assert masters[w.ops[o].user] == w.masters[w.ops[o].user];
    }
  }

  lemma PlanChangeGood(row: Row, master: Bytes, oldPassword: string, newPassword: string, minLen: nat,
                       random: Randomness)
    returns (recovery: Key)
    requires GoodRow(row, master)
    ensures
      var plan := PlanChange(Some(row), oldPassword, newPassword, minLen, random);
      plan.Ok? ==> plan.value.hash.Phc? && Opens(plan.value.sealed, master, plan.value.hash.password, recovery)
  {
    var password, key :| Consistent(row, master, password, key);
    ChangePasswordOpens(row.sealed.record, master, password, key, oldPassword, newPassword, random.salt, random.nonce);
    recovery := key;
  }

  lemma ReadForChangeGood(w: World, step: Step)
    requires Good(w) && step.ReadForChange?
    ensures Good(Apply(w, step))
  {
    var ReadForChange(user, oldPassword, newPassword, minLen, random) := step;
    var plan := PlanChange(Find(w.rows, user), oldPassword, newPassword, minLen, random);
    if user in w.rows && plan.Ok? {
      var recovery := PlanChangeGood(w.rows[user], w.masters[user], oldPassword, newPassword, minLen, random);
      GoodWithOp(w, Changing(user, plan.value));
    }
  }

  lemma PlanRotationGood(row: Row, master: Bytes, given: string, newRecovery: string, nonce: nat)
    returns (password: string, was: Key)
    requires GoodRow(row, master)
    ensures
      var plan := PlanRotation(Some(row), given, newRecovery, nonce);
      plan.Ok? ==>
        && plan.value.preRead.Json?
        && Opens(plan.value.preRead.record, master, password, was)
        && ParseRecoveryKey(newRecovery).Ok?
        && Opens(plan.value.sealed, master, password, ParseRecoveryKey(newRecovery).value)
  {
    var p, key :| Consistent(row, master, p, key);
    RotateOpens(row.sealed.record, master, p, key, given, newRecovery, nonce);
    password, was := p, key;
  }

  lemma ReadForRotationGood(w: World, step: Step)
    requires Good(w) && step.ReadForRotation?
    ensures Good(Apply(w, step))
  {
    var ReadForRotation(user, given, newRecovery, nonce) := step;
    var plan := PlanRotation(Find(w.rows, user), given, newRecovery, nonce);
    if user in w.rows && plan.Ok? {
      var password, was := PlanRotationGood(w.rows[user], w.masters[user], given, newRecovery, nonce);
      GoodWithOp(w, Rotating(user, plan.value, ParseRecoveryKey(newRecovery).value));
    }
  }

  lemma WriteChangeGood(w: World, op: nat)
    requires Good(w) && Enabled(w, WriteChange(op))
    ensures Good(Apply(w, WriteChange(op)))
  {
    var Changing(user, write) := w.ops[op];
    GoodDone(w, op);
    if user in w.rows {
      assert GoodOp(w.ops[op], w.masters);
      var recovery :| Opens(write.sealed, w.masters[user], write.hash.password, recovery);
      assert Consistent(Changed(w.rows[user], write), w.masters[user], write.hash.password, recovery);
      GoodWithRow(w.(ops := w.ops - {op}), user, Changed(w.rows[user], write));
    }
  }

  /** The swap succeeds only over the record the rotation read, so the password
      seal it carries is the stored one and the untouched hash still fits it. */
  lemma WriteRotationGood(w: World, op: nat)
    requires Good(w) && Enabled(w, WriteRotation(op))
    ensures Good(Apply(w, WriteRotation(op)))
  {
    var Rotating(user, rotation, recovery) := w.ops[op];
    GoodDone(w, op);
    if user in w.rows && w.rows[user].sealed == rotation.preRead {
      assert GoodOp(w.ops[op], w.masters);
      var row, master := w.rows[user], w.masters[user];
      var password, was :| Opens(rotation.preRead.record, master, password, was)
                           && Opens(rotation.sealed, master, password, recovery);
      var password', recovery' :| Consistent(row, master, password', recovery');
      OpensOneWay(row.sealed.record, master, password, was, master, password', recovery');
      assert Consistent(row.(sealed := Json(rotation.sealed)), master, password, recovery);
      GoodWithRow(w.(ops := w.ops - {op}, current := w.current[user := recovery]), user,
        row.(sealed := Json(rotation.sealed)));
    }
  }

  /** Login on a consistent row: the one password gives the master key, every
      other is refused, and no seal error is possible. */
  lemma AuthenticateConsistent(row: Row, master: Bytes, password: string, recovery: Key, given: string)
    requires Consistent(row, master, password, recovery)
    ensures Authenticate(row, given) == if given == password then Ok(master) else Err(InvalidCredentials)
  {
  }

  lemma StoreFileGood(w: World, step: Step)
    requires Good(w) && step.StoreFile?
    ensures Good(Apply(w, step))
  {
    var StoreFile(user, given, path, content, nonce) := step;
    if user in w.rows && Authenticate(w.rows[user], given).Ok? {
      var password, recovery :| Consistent(w.rows[user], w.masters[user], password, recovery);
      AuthenticateConsistent(w.rows[user], w.masters[user], password, recovery, given);
      var made := EncryptFile(content, path, w.masters[user], nonce);
      if made.Ok? {
        GoodWithFile(w, StoredFile(user, path, content, made.value));
      }
    }
  }

  lemma StepGood(w: World, step: Step)
    requires Good(w) && Enabled(w, step)
    ensures Good(Apply(w, step))
  {
    match step
    case Create(_, _, _, _, _, _, _, _) => CreateGood(w, step);
    case Remove(_) =>
    case ReadForChange(_, _, _, _, _) => ReadForChangeGood(w, step);
    case WriteChange(op) => WriteChangeGood(w, op);
    case ReadForRotation(_, _, _, _) => ReadForRotationGood(w, step);
    case WriteRotation(op) => WriteRotationGood(w, op);
    case StoreFile(_, _, _, _, _) => StoreFileGood(w, step);
  }

  lemma {:induction false} RunGood(run: seq<World>, steps: seq<Step>, i: nat)
    requires IsRun(run, steps) && i < |run|
    ensures Good(run[i])
    decreases i
  {
    if i > 0 {
      RunGood(run, steps, i - 1);
      StepGood(run[i - 1], steps[i - 1]);
    }
  }

  ghost predicate NamesApart(rows: map<UserId, Row>) {
    forall u, v :: u in rows && v in rows && u != v ==>
      !Collides(rows[u].username, rows[v].username) && !Collides(rows[u].email, rows[v].email)
  }

  lemma StepNamesApart(w: World, step: Step)
    requires NamesApart(w.rows) && Enabled(w, step)
    ensures NamesApart(Apply(w, step).rows)
  {
  }

  /** No two accounts ever share a name or an address, capitals aside: a name finds at
      most one account. */
  lemma {:induction false} RunNamesApart(run: seq<World>, steps: seq<Step>, i: nat)
    requires IsRun(run, steps) && i < |run|
    ensures NamesApart(run[i].rows)
    decreases i
  {
    if i > 0 {
      RunNamesApart(run, steps, i - 1);
      StepNamesApart(run[i - 1], steps[i - 1]);
    }
  }

  lemma {:induction false} MastersFixed(run: seq<World>, steps: seq<Step>, i: nat, j: nat, user: UserId)
    requires IsRun(run, steps) && i <= j < |run| && user in run[i].masters
    ensures user in run[j].masters && run[j].masters[user] == run[i].masters[user]
    ensures run[i].files <= run[j].files
    decreases j
  {
    if i < j {
      MastersFixed(run, steps, i, j - 1, user);
    }
  }

  // ---------------------------------------------------------------------
  // The promises.

  /** However the operations interleave, an account has one password; it unlocks
      the ORIGINAL master key, and a wrong one is refused as such. */
  lemma LoginNeverBreaks(run: seq<World>, steps: seq<Step>, i: nat, j: nat, user: UserId) returns (password: string)
    requires IsRun(run, steps) && i <= j < |run|
    requires user in run[i].masters && user in run[j].rows
    ensures forall given: string :: Authenticate(run[j].rows[user], given)
                                    == if given == password then Ok(run[i].masters[user]) else Err(InvalidCredentials)
  {
    RunGood(run, steps, j);
    MastersFixed(run, steps, i, j, user);
    var p, recovery :| Consistent(run[j].rows[user], run[j].masters[user], p, recovery);
    password := p;
    forall given: string
      ensures Authenticate(run[j].rows[user], given)
              == if given == password then Ok(run[i].masters[user]) else Err(InvalidCredentials)
    {
      AuthenticateConsistent(run[j].rows[user], run[j].masters[user], p, recovery, given);
    }
  }

  /** Some recovery key opens the stored record, to the original master key too. */
  lemma SomeRecoveryKeyWorks(run: seq<World>, steps: seq<Step>, i: nat, j: nat, user: UserId) returns (recovery: string)
    requires IsRun(run, steps) && i <= j < |run|
    requires user in run[i].masters && user in run[j].rows
    ensures run[j].rows[user].sealed.Json?
    ensures UnsealWithRecovery(run[j].rows[user].sealed.record, recovery) == Ok(run[i].masters[user])
  {
    RunGood(run, steps, j);
    MastersFixed(run, steps, i, j, user);
    var p, key :| Consistent(run[j].rows[user], run[j].masters[user], p, key);
    recovery :| ParseRecoveryKey(recovery) == Ok(key);
  }

  /** A file stored at any time opens after any later login of its owner, at its
      own path only. */
  lemma FilesStayReadable(run: seq<World>, steps: seq<Step>, i: nat, j: nat, file: StoredFile, given: string,
                          path: string)
    requires IsRun(run, steps) && i <= j < |run| && file in run[i].files
    requires file.owner in run[j].rows && Authenticate(run[j].rows[file.owner], given).Ok?
    ensures
      var plain := DecryptFile(file.blob, path, Authenticate(run[j].rows[file.owner], given).value);
      && (path == file.path ==> plain == Ok(file.content))
      && (path != file.path ==> plain.Err?)
  {
    RunGood(run, steps, i);
    assert GoodFile(file, run[i].masters);
    var password := LoginNeverBreaks(run, steps, i, j, file.owner);
  }

  // ---------------------------------------------------------------------
  // Is the recovery key last announced to the user the one that works?

  /** The key that opens the stored recovery seal. */
  function RecoveryKeyOf(sealed: SealedMasterKey): Option<Key> {
    if sealed.recoverySealed.Sealed? then Some(sealed.recoverySealed.key) else None
  }

  ghost predicate AnnouncedKeyWorks(w: World, user: UserId) {
    && user in w.rows && w.rows[user].sealed.Json? && user in w.current && user in w.masters
    && forall r: string :: ParseRecoveryKey(r) == Ok(w.current[user]) ==>
         UnsealWithRecovery(w.rows[user].sealed.record, r) == Ok(w.masters[user])
  }

  lemma OpensUnder(sealed: SealedMasterKey, master: Bytes, password: string, recovery: Key)
    requires Opens(sealed, master, password, recovery)
    ensures RecoveryKeyOf(sealed) == Some(recovery)
  {
    var r: string :| ParseRecoveryKey(r) == Ok(recovery);
    assert UnsealWithRecovery(sealed, r).Ok?;
  }

  /** Every announced key has a spelling. */
  ghost predicate Spelled(w: World) {
    forall u :: u in w.rows ==> u in w.current && exists r: string :: ParseRecoveryKey(r) == Ok(w.current[u])
  }

  lemma AnnouncedKeyIs(w: World, user: UserId)
    requires Good(w) && Spelled(w) && user in w.rows
    ensures AnnouncedKeyWorks(w, user) <==> RecoveryKeyOf(w.rows[user].sealed.record) == Some(w.current[user])
  {
    var password, recovery :| Consistent(w.rows[user], w.masters[user], password, recovery);
    var record := w.rows[user].sealed.record;
    OpensUnder(record, w.masters[user], password, recovery);
    var r: string :| ParseRecoveryKey(r) == Ok(w.current[user]);
    assert UnsealWithRecovery(record, r).Ok? <==> w.current[user] == recovery;
  }

  /** The guard the unconditional UPDATE does not have: a password change is about
      to write back a recovery seal made under another key than the stored one. */
  predicate WritesStaleSeal(w: World, step: Step, user: UserId) {
    && step.WriteChange? && Enabled(w, step) && w.ops[step.op].user == user
    && user in w.rows && w.rows[user].sealed.Json?
    && RecoveryKeyOf(w.rows[user].sealed.record) != RecoveryKeyOf(w.ops[step.op].change.sealed)
  }

  lemma RotationMakes(w: World, op: nat)
    requires op in w.ops && w.ops[op].Rotating?
    requires Good(w)
    ensures RecoveryKeyOf(w.ops[op].rotation.sealed) == Some(w.ops[op].recovery)
    ensures exists r: string :: ParseRecoveryKey(r) == Ok(w.ops[op].recovery)
  {
    var Rotating(user, rotation, recovery) := w.ops[op];
    assert GoodOp(w.ops[op], w.masters);
    var password, was :| Opens(rotation.preRead.record, w.masters[user], password, was)
                         && Opens(rotation.sealed, w.masters[user], password, recovery);
    OpensUnder(rotation.sealed, w.masters[user], password, recovery);
  }

  lemma NewAccountMakes(rows: map<UserId, Row>, username: string, email: string, password: string, recovery: string,
                        master: Bytes, random: Randomness, recoveryNonce: nat)
    requires NewAccount(rows, username, email, password, recovery, master, random, recoveryNonce).Ok?
    ensures
      var row := NewAccount(rows, username, email, password, recovery, master, random, recoveryNonce).value;
      && ParseRecoveryKey(recovery).Ok? && row.sealed.Json?
      && RecoveryKeyOf(row.sealed.record) == Some(ParseRecoveryKey(recovery).value)
  {
  }

  /** Only an account's creation and a rotation announce a key. */
  lemma OthersAnnounceNothing(w: World, step: Step)
    requires Enabled(w, step) && !step.Create? && !step.WriteRotation?
    ensures Apply(w, step).rows.Keys <= w.rows.Keys && Apply(w, step).current == w.current
  {
  }

  lemma CreateSpelled(w: World, step: Step)
    requires Spelled(w) && Enabled(w, step) && step.Create?
    ensures Spelled(Apply(w, step))
  {
    var Create(user, username, email, password, recovery, master, random, recoveryNonce) := step;
    if NewAccount(w.rows, username, email, password, recovery, master, random, recoveryNonce).Ok? {
      NewAccountMakes(w.rows, username, email, password, recovery, master, random, recoveryNonce);
    }
  }

  lemma RotationSpelled(w: World, op: nat)
    requires Good(w) && Spelled(w) && Enabled(w, WriteRotation(op))
    ensures Spelled(Apply(w, WriteRotation(op)))
  {
    RotationMakes(w, op);
  }

  lemma StepSpelled(w: World, step: Step)
    requires Good(w) && Spelled(w) && Enabled(w, step)
    ensures Spelled(Apply(w, step))
  {
    if step.WriteRotation? {
      RotationSpelled(w, step.op);
    } else if step.Create? {
      CreateSpelled(w, step);
    } else {
      OthersAnnounceNothing(w, step);
    }
  }

  /** The announced key is the one under the stored recovery seal. */
  ghost predicate SealMatches(w: World, user: UserId) {
    && user in w.rows && user in w.current && w.rows[user].sealed.Json?
    && RecoveryKeyOf(w.rows[user].sealed.record) == Some(w.current[user])
  }

  /** Only the two writes touch the row of an existing account. */
  lemma ReadsLeaveRows(w: World, step: Step, user: UserId)
    requires Enabled(w, step) && user in w.masters
    requires !step.WriteChange? && !step.WriteRotation?
    ensures user in Apply(w, step).rows ==> user in w.rows && Apply(w, step).rows[user] == w.rows[user]
    ensures user in w.current <==> user in Apply(w, step).current
    ensures user in w.current ==> Apply(w, step).current[user] == w.current[user]
  {
  }

  /** A rotation's record is sealed under the key it will announce. */
  predicate RotationHonest(w: World, step: Step) {
    step.WriteRotation? && Enabled(w, step) ==>
      RecoveryKeyOf(w.ops[step.op].rotation.sealed) == Some(w.ops[step.op].recovery)
  }

  /** One step: a matching seal goes on matching exactly when the step does not
      write a stale one over it. */
  lemma StepKeepsMatch(w: World, step: Step, user: UserId)
    requires Enabled(w, step) && RotationHonest(w, step)
    requires SealMatches(w, user) && user in w.masters && user in Apply(w, step).rows
    ensures SealMatches(Apply(w, step), user) <==> !WritesStaleSeal(w, step, user)
  {
    if !step.WriteChange? && !step.WriteRotation? {
      ReadsLeaveRows(w, step, user);
    }
  }

  lemma CreateMatches(w: World, step: Step, user: UserId)
    requires Enabled(w, step)
    requires user !in w.rows && user in Apply(w, step).rows
    ensures SealMatches(Apply(w, step), user)
  {
    match step
    case Create(created, username, email, password, recovery, master, random, recoveryNonce) =>
      NewAccountMakes(w.rows, username, email, password, recovery, master, random, recoveryNonce);
    case _ =>
  }

  lemma {:induction false} RunSpelled(run: seq<World>, steps: seq<Step>, i: nat)
    requires IsRun(run, steps) && i < |run|
    ensures Spelled(run[i])
    decreases i
  {
    if i > 0 {
      RunSpelled(run, steps, i - 1);
      RunGood(run, steps, i - 1);
      StepSpelled(run[i - 1], steps[i - 1]);
    }
  }

  lemma WorksIffMatches(run: seq<World>, steps: seq<Step>, i: nat, user: UserId)
    requires IsRun(run, steps) && i < |run| && user in run[i].rows
    ensures AnnouncedKeyWorks(run[i], user) <==> SealMatches(run[i], user)
  {
    RunGood(run, steps, i);
    RunSpelled(run, steps, i);
    AnnouncedKeyIs(run[i], user);
  }

  lemma RunHonest(run: seq<World>, steps: seq<Step>, i: nat, user: UserId)
    requires IsRun(run, steps) && i < |steps|
    ensures RotationHonest(run[i], steps[i])
    ensures user in run[i].rows ==> user in run[i].masters
  {
    RunGood(run, steps, i);
    if steps[i].WriteRotation? {
      RotationMakes(run[i], steps[i].op);
    }
  }

  /** The first stale write breaks the announced key. */
  lemma StaleSealBreaks(run: seq<World>, steps: seq<Step>, i: nat, user: UserId)
    requires IsRun(run, steps) && i < |steps| && WritesStaleSeal(run[i], steps[i], user)
    ensures user in run[i].rows && user in run[i + 1].rows
    ensures !(AnnouncedKeyWorks(run[i], user) && AnnouncedKeyWorks(run[i + 1], user))
  {
    WorksIffMatches(run, steps, i, user);
    WorksIffMatches(run, steps, i + 1, user);
    if SealMatches(run[i], user) {
      RunHonest(run, steps, i, user);
      StepKeepsMatch(run[i], steps[i], user);
    }
  }

  lemma MatchCarries(w: World, step: Step, user: UserId)
    requires Enabled(w, step) && RotationHonest(w, step) && !WritesStaleSeal(w, step, user)
    requires user in w.rows ==> user in w.masters && SealMatches(w, user)
    requires user in Apply(w, step).rows
    ensures SealMatches(Apply(w, step), user)
  {
    if user in w.rows {
      StepKeepsMatch(w, step, user);
    } else {
      CreateMatches(w, step, user);
    }
  }

  lemma {:induction false} NoStaleSealMatches(run: seq<World>, steps: seq<Step>, i: nat, user: UserId)
    requires IsRun(run, steps) && i < |run| && user in run[i].rows
    requires forall k :: 0 <= k < |steps| ==> !WritesStaleSeal(run[k], steps[k], user)
    ensures SealMatches(run[i], user)
    decreases i
  {
    if i > 0 {
      if user in run[i - 1].rows {
        NoStaleSealMatches(run, steps, i - 1, user);
      }
      RunHonest(run, steps, i - 1, user);
      MatchCarries(run[i - 1], steps[i - 1], user);
    }
  }

  lemma NoStaleSealWorks(run: seq<World>, steps: seq<Step>, i: nat, user: UserId)
    requires IsRun(run, steps) && i < |run| && user in run[i].rows
    requires forall k :: 0 <= k < |steps| ==> !WritesStaleSeal(run[k], steps[k], user)
    ensures AnnouncedKeyWorks(run[i], user)
  {
    NoStaleSealMatches(run, steps, i, user);
    WorksIffMatches(run, steps, i, user);
  }

  /** Over a whole run: the key last shown to the user works at every moment the
      account exists if and only if no password change ever writes a stale seal. */
  lemma AnnouncedKeyAlwaysWorks(run: seq<World>, steps: seq<Step>, user: UserId)
    requires IsRun(run, steps)
    ensures (forall i :: 0 <= i < |run| && user in run[i].rows ==> AnnouncedKeyWorks(run[i], user))
            <==> (forall i :: 0 <= i < |steps| ==> !WritesStaleSeal(run[i], steps[i], user))
  {
    forall i | 0 <= i < |steps| && WritesStaleSeal(run[i], steps[i], user)
      ensures exists k :: 0 <= k < |run| && user in run[k].rows && !AnnouncedKeyWorks(run[k], user)
    {
      StaleSealBreaks(run, steps, i, user);
    }
    if forall i :: 0 <= i < |steps| ==> !WritesStaleSeal(run[i], steps[i], user) {
      forall i | 0 <= i < |run| && user in run[i].rows
        ensures AnnouncedKeyWorks(run[i], user)
      {
        NoStaleSealWorks(run, steps, i, user);
      }
    }
  }

  /** What the two reads of one row hand on, when the password fits it. */
  lemma PlansFromOneRow(row: Row, master: Bytes, password: string, newPassword: string, minLen: nat,
                        random: Randomness, newRecovery: string, nonce: nat)
    requires GoodRow(row, master) && Authenticate(row, password).Ok?
    requires |newPassword| >= minLen && |random.salt| == SALT_LEN && ParseRecoveryKey(newRecovery).Ok?
    ensures row.sealed.Json?
    ensures
      var change := PlanChange(Some(row), password, newPassword, minLen, random);
      var rotation := PlanRotation(Some(row), password, newRecovery, nonce);
      && change.Ok? && change.value.sealed.recoverySealed == row.sealed.record.recoverySealed
      && rotation.Ok? && rotation.value.preRead == row.sealed
      && RecoveryKeyOf(rotation.value.sealed) == Some(ParseRecoveryKey(newRecovery).value)
  {
    var p, recovery :| Consistent(row, master, p, recovery);
    AuthenticateConsistent(row, master, p, recovery, password);
    ChangePasswordOpens(row.sealed.record, master, p, recovery, password, newPassword, random.salt, random.nonce);
    RotateOpens(row.sealed.record, master, p, recovery, password, newRecovery, nonce);
  }

  lemma OverlappedWrites(w: World, user: UserId, change: PasswordWrite, rotation: RotationWrite, recovery: Key)
    requires user in w.rows && w.rows[user].sealed == rotation.preRead && rotation.preRead.Json?
    requires change.sealed.recoverySealed == rotation.preRead.record.recoverySealed
    requires RecoveryKeyOf(rotation.sealed) == Some(recovery) != RecoveryKeyOf(rotation.preRead.record)
    ensures
      var both := Begin(Begin(w, Changing(user, change)), Rotating(user, rotation, recovery));
      && Enabled(both, WriteRotation(w.nextOp + 1))
      && var rotated := Apply(both, WriteRotation(w.nextOp + 1));
      && Enabled(rotated, WriteChange(w.nextOp))
      && SealMatches(rotated, user) && rotated.current[user] == recovery
      && !SealMatches(Apply(rotated, WriteChange(w.nextOp)), user)
  {
  }

  /** It does happen, on every account: a password change that read the row before
      a successful rotation and writes after it puts the old recovery seal back. */
  lemma StaleChangeUndoesRotation(w: World, user: UserId, password: string, newPassword: string, minLen: nat,
                                  random: Randomness, newRecovery: string, nonce: nat)
    requires user in w.masters && user in w.rows && GoodRow(w.rows[user], w.masters[user])
    requires Authenticate(w.rows[user], password).Ok?
    requires |newPassword| >= minLen && |random.salt| == SALT_LEN && ParseRecoveryKey(newRecovery).Ok?
    requires w.rows[user].sealed.Json?
    requires RecoveryKeyOf(w.rows[user].sealed.record) != Some(ParseRecoveryKey(newRecovery).value)
    ensures
      var read := Apply(w, ReadForChange(user, password, newPassword, minLen, random));
      var both := Apply(read, ReadForRotation(user, password, newRecovery, nonce));
      && Enabled(both, WriteRotation(w.nextOp + 1))
      && var rotated := Apply(both, WriteRotation(w.nextOp + 1));
      && Enabled(rotated, WriteChange(w.nextOp))
      && SealMatches(rotated, user) && rotated.current[user] == ParseRecoveryKey(newRecovery).value
      && !SealMatches(Apply(rotated, WriteChange(w.nextOp)), user)
  {
    var row, recovery := w.rows[user], ParseRecoveryKey(newRecovery).value;
    PlansFromOneRow(row, w.masters[user], password, newPassword, minLen, random, newRecovery, nonce);
    var change := PlanChange(Some(row), password, newPassword, minLen, random).value;
    var rotation := PlanRotation(Some(row), password, newRecovery, nonce).value;
    var read := Apply(w, ReadForChange(user, password, newPassword, minLen, random));
    assert read == Begin(w, Changing(user, change));
    assert Apply(read, ReadForRotation(user, password, newRecovery, nonce))
        == Begin(read, Rotating(user, rotation, recovery));
    OverlappedWrites(w, user, change, rotation, recovery);
  }

  /** Of two rotations that read the same record at most one succeeds, unless the
      winner wrote back exactly what it had read. */
  lemma OneRotationWins(w: World, first: nat, second: nat)
    requires Enabled(w, WriteRotation(first)) && Enabled(w, WriteRotation(second)) && first != second
    requires w.ops[first].user == w.ops[second].user && w.ops[first].user in w.rows
    requires w.ops[first].rotation.preRead == w.ops[second].rotation.preRead == w.rows[w.ops[first].user].sealed
    requires Json(w.ops[first].rotation.sealed) != w.ops[first].rotation.preRead
    ensures
      var user := w.ops[first].user;
      var after := Apply(w, WriteRotation(first));
      && after.rows[user].sealed == Json(w.ops[first].rotation.sealed)
      && Apply(after, WriteRotation(second)).rows == after.rows
      && Apply(after, WriteRotation(second)).current == after.current
  {
  }
}
