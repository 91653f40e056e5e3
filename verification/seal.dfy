/**
 Sealed master keys and path-bound files, with cryptography taken symbolically:
 a ciphertext is the term of what went into it, and it opens under exactly the
 key and associated data it was made with. Randomness (salts, nonces, keys) is
 an argument, so nothing below depends on it being fresh.
 */
module Seal {
  import opened Wrappers

  type Bytes = seq<bv8>

  /** Every key the program derives; distinct derivations give distinct keys. */
  datatype Key =
    | PasswordKey(password: string, salt: Bytes)
    | RecoveryKey(hexDigits: string)
    | FileKey(master: Bytes, path: string)

  datatype Blob =
    | Sealed(key: Key, aad: string, nonce: nat, plaintext: Bytes)
    | Junk(bytes: Bytes)

  datatype CryptoError =
    | InvalidRecoveryKey
    | InvalidLength
    | InvalidPath
    | UnsupportedVersion(version: nat)
    | UnsealFailed
    | AuthenticationFailed

  datatype SealedMasterKey = SealedMasterKey(
    version: nat, salt: Bytes, passwordSealed: Blob, recoverySealed: Blob)

  const SEALED_VERSION: nat := 1
  const SALT_LEN: nat := 16
  const KEY_LEN: nat := 32
  const PASSWORD_SEAL_AAD := "mycelium2/seal/password/v1"
  const RECOVERY_SEAL_AAD := "mycelium2/seal/recovery/v1"
  const RECOVERY_PREFIX := "myc2-recovery-"

  function AeadSeal(plaintext: Bytes, aad: string, key: Key, nonce: nat): Blob {
    Sealed(key, aad, nonce, plaintext)
  }

  function AeadOpen(blob: Blob, aad: string, key: Key): Result<Bytes, CryptoError> {
    match blob
    case Sealed(k, a, _, plaintext) =>
      if k == key && a == aad then Ok(plaintext) else Err(AuthenticationFailed)
    case Junk(_) => Err(AuthenticationFailed)
  }

  predicate IsHex(c: char) {
    '0' <= c <= '9' || 'a' <= c <= 'f' || 'A' <= c <= 'F'
  }

  function LowerHex(c: char): char {
    if 'A' <= c <= 'F' then c - 'A' + 'a' else c
  }

  /** The prefix and 64 hex digits, whose case does not matter. */
  function ParseRecoveryKey(text: string): Result<Key, CryptoError> {
    if !(RECOVERY_PREFIX <= text) then Err(InvalidRecoveryKey)
    else
      var digits := text[|RECOVERY_PREFIX|..];
      if |digits| == 2 * KEY_LEN && forall c :: c in digits ==> IsHex(c) then
        Ok(RecoveryKey(seq(|digits|, i requires 0 <= i < |digits| => LowerHex(digits[i]))))
      else Err(InvalidRecoveryKey)
  }

  function DeriveKek(password: string, salt: Bytes): Result<Key, CryptoError> {
    if |salt| != SALT_LEN then Err(InvalidLength) else Ok(PasswordKey(password, salt))
  }

  function MasterFromBytes(bytes: Bytes): Result<Bytes, CryptoError> {
    if |bytes| != KEY_LEN then Err(InvalidLength) else Ok(bytes)
  }

  function SealMasterKey(master: Bytes, password: string, recovery: string,
                         salt: Bytes, nonce: nat, recoveryNonce: nat): Result<SealedMasterKey, CryptoError>
  {
    match ParseRecoveryKey(recovery)
    case Err(e) => Err(e)
    case Ok(recoveryKey) =>
      match DeriveKek(password, salt)
      case Err(e) => Err(e)
      case Ok(kek) =>
        Ok(SealedMasterKey(SEALED_VERSION, salt,
                           AeadSeal(master, PASSWORD_SEAL_AAD, kek, nonce),
                           AeadSeal(master, RECOVERY_SEAL_AAD, recoveryKey, recoveryNonce)))
  }

  function UnsealWithPassword(sealed: SealedMasterKey, password: string): Result<Bytes, CryptoError> {
    if sealed.version != SEALED_VERSION then Err(UnsupportedVersion(sealed.version))
    else if |sealed.salt| != SALT_LEN then Err(UnsealFailed)
    else
      match AeadOpen(sealed.passwordSealed, PASSWORD_SEAL_AAD, PasswordKey(password, sealed.salt))
      case Err(e) => Err(e)
      case Ok(bytes) => MasterFromBytes(bytes)
  }

  function UnsealWithRecovery(sealed: SealedMasterKey, recovery: string): Result<Bytes, CryptoError> {
    if sealed.version != SEALED_VERSION then Err(UnsupportedVersion(sealed.version))
    else
      match ParseRecoveryKey(recovery)
      case Err(e) => Err(e)
      case Ok(key) =>
        match AeadOpen(sealed.recoverySealed, RECOVERY_SEAL_AAD, key)
        case Err(e) => Err(e)
        case Ok(bytes) => MasterFromBytes(bytes)
  }

  function ChangePassword(sealed: SealedMasterKey, oldPassword: string, newPassword: string, salt: Bytes, nonce: nat)
    : Result<SealedMasterKey, CryptoError>
  {
    match UnsealWithPassword(sealed, oldPassword)
    case Err(e) => Err(e)
    case Ok(master) =>
      match DeriveKek(newPassword, salt)
      case Err(e) => Err(e)
      case Ok(kek) =>
        Ok(SealedMasterKey(SEALED_VERSION, salt,
                           AeadSeal(master, PASSWORD_SEAL_AAD, kek, nonce),
                           sealed.recoverySealed))
  }

  function RotateRecoveryKey(sealed: SealedMasterKey, password: string, recovery: string, nonce: nat)
    : Result<SealedMasterKey, CryptoError>
  {
    match ParseRecoveryKey(recovery)
    case Err(e) => Err(e)
    case Ok(key) =>
      match UnsealWithPassword(sealed, password)
      case Err(e) => Err(e)
      case Ok(master) =>
        Ok(SealedMasterKey(SEALED_VERSION, sealed.salt, sealed.passwordSealed,
                           AeadSeal(master, RECOVERY_SEAL_AAD, key, nonce)))
  }

  function DeriveDek(master: Bytes, path: string): Result<Key, CryptoError> {
    if |path| == 0 || path[0] != '/' then Err(InvalidPath) else Ok(FileKey(master, path))
  }

  function EncryptFile(plaintext: Bytes, path: string, master: Bytes, nonce: nat): Result<Blob, CryptoError> {
    match DeriveDek(master, path)
    case Err(e) => Err(e)
    case Ok(dek) => Ok(AeadSeal(plaintext, path, dek, nonce))
  }

  function DecryptFile(ciphertext: Blob, path: string, master: Bytes): Result<Bytes, CryptoError> {
    match DeriveDek(master, path)
    case Err(e) => Err(e)
    case Ok(dek) => AeadOpen(ciphertext, path, dek)
  }

  // ---------------------------------------------------------------------

  /** `sealed` opens to `master` with exactly one password and exactly the spellings
      of one recovery key. */
  ghost predicate Opens(sealed: SealedMasterKey, master: Bytes, password: string, recovery: Key) {
    && (forall p: string :: UnsealWithPassword(sealed, p).Ok? <==> p == password)
    && UnsealWithPassword(sealed, password) == Ok(master)
    && (forall r: string :: UnsealWithRecovery(sealed, r).Ok? <==> ParseRecoveryKey(r) == Ok(recovery))
    && (forall r: string :: UnsealWithRecovery(sealed, r).Ok? ==> UnsealWithRecovery(sealed, r) == Ok(master))
    && (exists r: string :: ParseRecoveryKey(r) == Ok(recovery))
  }

  /** The two seals of a fresh record. */
  lemma SealOpens(master: Bytes, password: string, recovery: string, salt: Bytes, nonce: nat, recoveryNonce: nat)
    requires |master| == KEY_LEN
    ensures
      var made := SealMasterKey(master, password, recovery, salt, nonce, recoveryNonce);
      && (made.Ok? <==> ParseRecoveryKey(recovery).Ok? && |salt| == SALT_LEN)
      && (made.Ok? ==> Opens(made.value, master, password, ParseRecoveryKey(recovery).value))
  {
  }

  /** Changing the password moves the password seal and nothing else. */
  lemma ChangePasswordOpens(sealed: SealedMasterKey, master: Bytes, password: string, recovery: Key,
                            oldPassword: string, newPassword: string, salt: Bytes, nonce: nat)
    requires Opens(sealed, master, password, recovery)
    ensures
      var changed := ChangePassword(sealed, oldPassword, newPassword, salt, nonce);
      && (changed.Ok? <==> oldPassword == password && |salt| == SALT_LEN)
      && (changed.Ok? ==>
            && Opens(changed.value, master, newPassword, recovery)
            && changed.value.recoverySealed == sealed.recoverySealed)
  {
    var changed := ChangePassword(sealed, oldPassword, newPassword, salt, nonce);
    if changed.Ok? {
      forall r: string
        ensures UnsealWithRecovery(changed.value, r) == UnsealWithRecovery(sealed, r)
      {
      }
      assert UnsealWithPassword(changed.value, newPassword) == Ok(master);
    }
  }

  /** Rotating the recovery key moves the recovery seal and nothing else. */
  lemma RotateOpens(sealed: SealedMasterKey, master: Bytes, password: string, recovery: Key,
                    given: string, newRecovery: string, nonce: nat)
    requires Opens(sealed, master, password, recovery)
    ensures
      var rotated := RotateRecoveryKey(sealed, given, newRecovery, nonce);
      && (rotated.Ok? <==> given == password && ParseRecoveryKey(newRecovery).Ok?)
      && (rotated.Ok? ==>
            && Opens(rotated.value, master, password, ParseRecoveryKey(newRecovery).value)
            && rotated.value.passwordSealed == sealed.passwordSealed && rotated.value.salt == sealed.salt)
  {
    var rotated := RotateRecoveryKey(sealed, given, newRecovery, nonce);
    if rotated.Ok? {
      forall p: string
        ensures UnsealWithPassword(rotated.value, p) == UnsealWithPassword(sealed, p)
      {
      }
    }
  }

  /** A file opens at its own path under its own key, and nowhere else. */
  lemma FileBound(plaintext: Bytes, path: string, master: Bytes, nonce: nat, path': string, master': Bytes)
    requires EncryptFile(plaintext, path, master, nonce).Ok?
    ensures
      var plain := DecryptFile(EncryptFile(plaintext, path, master, nonce).value, path', master');
      && (plain.Ok? <==> path' == path && master' == master)
      && (plain.Ok? ==> plain.value == plaintext)
  {
  }

  /** One is the other's capital letter, or they are the same. */
  predicate SameDigit(a: char, b: char) {
    a == b || (a in "ABCDEF" && b == a - 'A' + 'a') || (b in "ABCDEF" && a == b - 'A' + 'a')
  }

  /** A recovery key is written as its prefix and 64 hex digits. */
  lemma RecoveryKeyText(text: string)
    ensures ParseRecoveryKey(text).Ok?
            <==> && |text| == 78 && text[..14] == "myc2-recovery-"
                 && forall i :: 14 <= i < 78 ==>
                      '0' <= text[i] <= '9' || 'a' <= text[i] <= 'f' || 'A' <= text[i] <= 'F'
  {
    PrefixIs(text);
    if RECOVERY_PREFIX <= text {
      var digits := text[14..];
      assert forall i :: 14 <= i < |text| ==> text[i] == digits[i - 14] && digits[i - 14] in digits;
      assert forall c :: c in digits ==> exists i :: 14 <= i < |text| && text[i] == c;
    }
  }

  /** Two spell the same key exactly when they differ in nothing but the case of the digits. */
  lemma RecoveryKeySame(text: string, other: string)
    requires ParseRecoveryKey(text).Ok? && ParseRecoveryKey(other).Ok?
    ensures |text| == |other| == 78
    ensures ParseRecoveryKey(text) == ParseRecoveryKey(other)
            <==> forall i :: 14 <= i < 78 ==> SameDigit(text[i], other[i])
  {
    RecoveryKeyText(text);
    RecoveryKeyText(other);
    var a, b := ParseRecoveryKey(text).value.hexDigits, ParseRecoveryKey(other).value.hexDigits;
    forall i | 14 <= i < 78
      ensures a[i - 14] == b[i - 14] <==> SameDigit(text[i], other[i])
    {
      assert a[i - 14] == LowerHex(text[i]) && b[i - 14] == LowerHex(other[i]);
    }
    if forall i :: 14 <= i < 78 ==> SameDigit(text[i], other[i]) {
      forall k | 0 <= k < 64
        ensures a[k] == b[k]
      {
        assert SameDigit(text[k + 14], other[k + 14]);
      }
      assert a == b;
    }
  }

  lemma PrefixIs(text: string)
    ensures |RECOVERY_PREFIX| == 14 && (RECOVERY_PREFIX <= text <==> |text| >= 14 && text[..14] == "myc2-recovery-")
  {
  }

  /** A record of another version, or with a salt of another length, opens to nobody. */
  lemma UnsealRefused(sealed: SealedMasterKey, password: string, recovery: string)
    ensures sealed.version != 1 ==>
              && UnsealWithPassword(sealed, password) == Err(UnsupportedVersion(sealed.version))
              && UnsealWithRecovery(sealed, recovery) == Err(UnsupportedVersion(sealed.version))
    ensures sealed.version == 1 && |sealed.salt| != 16 ==> UnsealWithPassword(sealed, password) == Err(UnsealFailed)
  {
  }

  /** What a fresh record holds: the master key twice, under the password with the record's
      salt and under the recovery key, each seal with its own label. */
  lemma SealSpelled(master: Bytes, password: string, recovery: string, salt: Bytes, nonce: nat, recoveryNonce: nat)
    ensures
      var made := SealMasterKey(master, password, recovery, salt, nonce, recoveryNonce);
      && (made.Ok? <==> ParseRecoveryKey(recovery).Ok? && |salt| == 16)
      && (made.Ok? ==>
            made.value == SealedMasterKey(
              1, salt, Sealed(PasswordKey(password, salt), "mycelium2/seal/password/v1", nonce, master),
              Sealed(ParseRecoveryKey(recovery).value, "mycelium2/seal/recovery/v1", recoveryNonce, master)))
  {
  }
}
