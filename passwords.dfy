/** Salted password hashing: the stored blob is salt(16) followed by the
    derived key(32), written in base64. The key derivation (PBKDF2, section
    5.2 of RFC 8018) and the salt's random source are inputs here. */
module PasswordUtils {
  import opened Common
  import opened Base64

  const SaltSize := 16
  const HashSize := 32
  const Iterations := 10000

  type Key = k: seq<Byte> | |k| == HashSize witness seq(32, i => 0)

  /** A deterministic key derivation: password, salt and iteration count to
      a 32-byte key. */
  type Kdf = (string, seq<Byte>, nat) -> Key

  /** The string HashPassword stores for a password and the salt it drew. */
  function StoredHash(password: string, salt: seq<Byte>, kdf: Kdf): string
    requires |salt| == SaltSize
  {
    Encode(salt + kdf(password, salt, Iterations))
  }

  /** What VerifyPassword answers for a stored string: None where it throws
      (the string is not base64, or it decodes to fewer than 48 bytes),
      otherwise whether the 32 stored key bytes equal the key derived from the
      candidate password and the stored salt. Bytes past the 48th are ignored. */
  function Verification(password: string, storedHash: string, kdf: Kdf): Option<bool> {
    match Decode(storedHash)
    case None => None
    case Some(bytes) =>
      if |bytes| < SaltSize + HashSize then None
      else Some(bytes[SaltSize..SaltSize + HashSize] == kdf(password, bytes[..SaltSize], Iterations))
  }

  /** Array.Copy between two distinct arrays. */
  method CopyBytes(src: array<Byte>, srcIndex: nat, dst: array<Byte>, dstIndex: nat, length: nat)
    requires src != dst
    requires srcIndex + length <= src.Length && dstIndex + length <= dst.Length
    modifies dst
    ensures dst[..] == old(dst[..dstIndex]) + src[srcIndex..srcIndex + length] + old(dst[dstIndex + length..])
  {
    forall i | 0 <= i < length {
      dst[dstIndex + i] := src[srcIndex + i];
    }
    assert dst[..] == old(dst[..dstIndex]) + src[srcIndex..srcIndex + length] + old(dst[dstIndex + length..]);
  }

  method ToArray(s: seq<Byte>) returns (a: array<Byte>)
    ensures fresh(a) && a[..] == s
  {
    a := new Byte[|s|](i requires 0 <= i < |s| => s[i]);
  }

  /** HashPassword, with `salt` the 16 bytes the random generator filled in. */
  method HashPassword(password: string, salt: seq<Byte>, kdf: Kdf) returns (stored: string)
    requires |salt| == SaltSize
    ensures stored == StoredHash(password, salt, kdf)
  {
    var saltBytes := ToArray(salt);
    var hash := ToArray(kdf(password, saltBytes[..], Iterations));
    var hashBytes := new Byte[SaltSize + HashSize];
    CopyBytes(saltBytes, 0, hashBytes, 0, SaltSize);
    CopyBytes(hash, 0, hashBytes, SaltSize, HashSize);
    assert hashBytes[..] == salt + kdf(password, salt, Iterations);
    stored := Encode(hashBytes[..]);
  }

  /** VerifyPassword: decode, split off salt and stored key, derive the key
      again and compare byte by byte, stopping at the first difference.
      None stands for the exception the source lets escape. */
  method VerifyPassword(password: string, storedHash: string, kdf: Kdf) returns (r: Option<bool>)
    ensures r == Verification(password, storedHash, kdf)
  {
    var decoded := Decode(storedHash);
    if decoded.None? {
      return None;
    }
    var hashBytes := ToArray(decoded.value);
    // Array.Copy throws when the source holds fewer bytes than it copies.
    if hashBytes.Length < SaltSize + HashSize {
      return None;
    }
    var salt := new Byte[SaltSize];
    CopyBytes(hashBytes, 0, salt, 0, SaltSize);
    var storedHashBytes := new Byte[HashSize];
    CopyBytes(hashBytes, SaltSize, storedHashBytes, 0, HashSize);
    var computedHash := ToArray(kdf(password, salt[..], Iterations));
    assert salt[..] == decoded.value[..SaltSize];
    assert storedHashBytes[..] == decoded.value[SaltSize..SaltSize + HashSize];
    var same := KeysEqual(storedHashBytes, computedHash);
    return Some(same);
  }

  /** The comparison loop of VerifyPassword: byte by byte, stopping at the
      first difference. */
  method KeysEqual(stored: array<Byte>, computed: array<Byte>) returns (same: bool)
    requires stored.Length == HashSize && computed.Length == HashSize
    ensures same <==> stored[..] == computed[..]
  {
    for i := 0 to HashSize
      invariant forall j | 0 <= j < i :: stored[j] == computed[j]
    {
      if stored[i] != computed[i] {
        assert stored[..][i] != computed[..][i];
        return false;
      }
    }
    assert stored[..] == computed[..];
    return true;
  }

  // ---------------------------------------------------------------------
  // Properties of the stored layout

  /** The stored string decodes to exactly 48 bytes: the salt, then the key. */
  lemma HashLayout(password: string, salt: seq<Byte>, kdf: Kdf)
    requires |salt| == SaltSize
    ensures var bytes := Decode(StoredHash(password, salt, kdf));
      && bytes.Some? && |bytes.value| == SaltSize + HashSize
      && bytes.value[..SaltSize] == salt
      && bytes.value[SaltSize..] == kdf(password, salt, Iterations)
  {
    DecodeEncode(salt + kdf(password, salt, Iterations));
  }

  /** The stored string is 64 base64 characters with no padding. */
  lemma StoredHashShape(password: string, salt: seq<Byte>, kdf: Kdf)
    requires |salt| == SaltSize
    ensures |StoredHash(password, salt, kdf)| == 64
    ensures forall i | 0 <= i < 64 :: IsBase64Char(StoredHash(password, salt, kdf)[i])
  {
    EncodeFortyEight(salt + kdf(password, salt, Iterations));
  }

  /** Verifying a password against its own stored hash succeeds. */
  lemma HashThenVerify(password: string, salt: seq<Byte>, kdf: Kdf)
    requires |salt| == SaltSize
    ensures Verification(password, StoredHash(password, salt, kdf), kdf) == Some(true)
  {
    HashLayout(password, salt, kdf);
  }

  /** Another password is accepted exactly when it derives the same key from
      the stored salt. */
  lemma VerifyOtherPassword(password: string, candidate: string, salt: seq<Byte>, kdf: Kdf)
    requires |salt| == SaltSize
    ensures Verification(candidate, StoredHash(password, salt, kdf), kdf)
            == Some(kdf(candidate, salt, Iterations) == kdf(password, salt, Iterations))
  {
    HashLayout(password, salt, kdf);
  }

  /** One differing key byte is enough to reject. */
  lemma MismatchRejects(password: string, storedHash: string, kdf: Kdf, i: nat)
    requires Decode(storedHash).Some? && |Decode(storedHash).value| >= SaltSize + HashSize
    requires i < HashSize
    requires Decode(storedHash).value[SaltSize + i] != kdf(password, Decode(storedHash).value[..SaltSize], Iterations)[i]
    ensures Verification(password, storedHash, kdf) == Some(false)
  {
    var bytes := Decode(storedHash).value;
    assert bytes[SaltSize..SaltSize + HashSize][i] == bytes[SaltSize + i];
  }

  /** Fewer than 48 decoded bytes, or a string that is not base64, is an
      error and never an answer. */
  lemma ShortBlobIsError(password: string, storedHash: string, kdf: Kdf)
    requires Decode(storedHash).None? || |Decode(storedHash).value| < SaltSize + HashSize
    ensures Verification(password, storedHash, kdf).None?
  {
  }
}
