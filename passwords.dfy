/**
 * What the two password modules (src/utils/webcrypto.ts, PBKDF2-SHA-512, and
 * src/utils/argon.ts, scrypt) have in common: the byte and key types, the
 * fixed salt and key lengths, the abstract key-derivation function, the
 * lowercase hex encoding of bytes and the parsing of the stored record
 * `hex(salt) ":" hex(derivedKey)`.
 */
module Passwords {
  import opened Wrappers
  import opened Strings

  type byte = x: int | 0 <= x < 256

  type Bytes = seq<byte>

  /** 16 bytes = 128 bits of salt. */
  const SALT_LENGTH: nat := 16

  /** 64 bytes = 512 bits of derived key. */
  const KEY_LENGTH: nat := 64

  type Salt = s: Bytes | |s| == SALT_LENGTH witness seq(16, _ => 0)

  type DerivedKey = k: Bytes | |k| == KEY_LENGTH witness seq(64, _ => 0)

  /**
   * The key-derivation function over (password bytes, salt bytes), with its
   * fixed cost parameters. It is deterministic because it is a function;
   * None stands for an error the primitive throws.
   */
  type KeyDerivation = (Bytes, Bytes) -> Option<DerivedKey>

  /** The one error both hashPassword functions throw. */
  const HASHING_FAILED := "Password hashing failed"

  predicate IsLowerHexDigit(c: char) { IsAsciiDigit(c) || 'a' <= c <= 'f' }

  /** The class [0-9a-fA-F]. */
  predicate IsHexDigit(c: char) { IsLowerHexDigit(c) || 'A' <= c <= 'F' }

  /** parseInt of one hex digit, either case. */
  function HexDigitValue(c: char): (v: nat)
    requires IsHexDigit(c)
    ensures v < 16
  {
    if IsAsciiDigit(c) then c as int - '0' as int
    else if 'a' <= c <= 'f' then c as int - 'a' as int + 10
    else c as int - 'A' as int + 10
  }

  /** The lowercase digit for a value below 16 (Number.prototype.toString(16)). */
  function LowerHexDigit(v: nat): (c: char)
    requires v < 16
    ensures IsLowerHexDigit(c) && HexDigitValue(c) == v
  {
    if v < 10 then ('0' as int + v) as char else ('a' as int + v - 10) as char
  }

  /** `b.toString(16).padStart(2, '0')`: two lowercase digits that read back as `b`. */
  function ByteToHex(b: byte): (h: string)
    ensures |h| == 2 && IsLowerHexDigit(h[0]) && IsLowerHexDigit(h[1])
    ensures 16 * HexDigitValue(h[0]) + HexDigitValue(h[1]) == b
  {
    [LowerHexDigit(b / 16), LowerHexDigit(b % 16)]
  }

  /**
   * bufferToHex in webcrypto.ts, and equally Node's `toString("hex")` used in
   * argon.ts: two lowercase hex digits per byte, in order.
   */
  function BufferToHex(bytes: Bytes): (hex: string)
    ensures |hex| == 2 * |bytes|
    ensures forall i :: 0 <= i < |hex| ==> IsLowerHexDigit(hex[i])
  {
    if bytes == [] then "" else ByteToHex(bytes[0]) + BufferToHex(bytes[1..])
  }

  /** The `hex(salt) ":" hex(derivedKey)` text both hashPassword functions return. */
  function Record(salt: Salt, key: DerivedKey): string {
    BufferToHex(salt) + ":" + BufferToHex(key)
  }

  /** The shape /^[0-9a-f]{32}:[0-9a-f]{128}$/ of a freshly made record. */
  predicate WellFormedRecord(s: string) {
    && |s| == 2 * SALT_LENGTH + 1 + 2 * KEY_LENGTH
    && s[2 * SALT_LENGTH] == ':'
    && (forall i :: 0 <= i < 2 * SALT_LENGTH ==> IsLowerHexDigit(s[i]))
    && (forall i :: 2 * SALT_LENGTH < i < |s| ==> IsLowerHexDigit(s[i]))
  }

  lemma RecordIsWellFormed(salt: Salt, key: DerivedKey)
    ensures WellFormedRecord(Record(salt, key))
    ensures Record(salt, key)[..2 * SALT_LENGTH] == BufferToHex(salt)
  {
    var r := Record(salt, key);
    assert r[..2 * SALT_LENGTH] == BufferToHex(salt);
    forall i | 2 * SALT_LENGTH < i < |r| ensures IsLowerHexDigit(r[i]) {
      assert r[i] == BufferToHex(key)[i - 2 * SALT_LENGTH - 1];
    }
  }

  /**
   * The hashPassword of both implementations, once the salt is drawn: derive
   * the key and return the record; a derivation error becomes the single
   * error "Password hashing failed".
   */
  function HashRecord(kdf: KeyDerivation, password: Bytes, salt: Salt): (r: Result<string, string>)
    ensures r.Failure? <==> kdf(password, salt).None?
    ensures r.Failure? ==> r.error == HASHING_FAILED
    ensures r.Success? ==> WellFormedRecord(r.value) && r.value[..2 * SALT_LENGTH] == BufferToHex(salt)
  {
    match kdf(password, salt)
    case None => Failure(HASHING_FAILED)
    case Some(key) =>
      RecordIsWellFormed(salt, key);
      Success(Record(salt, key))
  }

  /**
   * `const [saltHex, hashHex] = storedHash.split(":")` followed by
   * `if (!saltHex || !hashHex) return false`: the first two ':'-separated
   * fields, when both exist and are non-empty; the record is malformed otherwise.
   */
  function ParseRecord(stored: string): (r: Option<(string, string)>)
    ensures r.Some? ==> r.value.0 != "" && r.value.1 != ""
    ensures r.Some? ==> ':' !in r.value.0 && ':' !in r.value.1
    ensures r.Some? ==> StartsWith(stored, r.value.0 + ":" + r.value.1)
  {
    var parts := Split(stored, ':');
    if |parts| >= 2 && parts[0] != "" && parts[1] != "" then
      JoinSplit(stored, ':');
      JoinFirstTwo(parts, ':');
      Some((parts[0], parts[1]))
    else None
  }

  /** A join of two or more pieces begins with the first two and a separator between them. */
  lemma JoinFirstTwo(parts: seq<string>, sep: char)
    requires |parts| >= 2
    ensures StartsWith(Join(parts, sep), parts[0] + [sep] + parts[1])
  {
    var tail := Join(parts[1..], sep);
    assert StartsWith(tail, parts[1]) by {
      if |parts| > 2 {
        assert parts[1..][1..] == parts[2..];
      }
    }
    assert Join(parts, sep) == parts[0] + [sep] + tail;
    assert (parts[0] + [sep] + tail)[..|parts[0]| + 1 + |parts[1]|] == parts[0] + [sep] + parts[1];
  }

  /**
   * A record is split on its first two ':'-separated fields: any text from a
   * second ':' on is ignored, and a record without a ':', with an empty salt
   * part or with an empty hash part is malformed.
   */
  lemma {:induction false} ParseRecordFields(saltHex: string, hashHex: string, tail: string)
    requires ':' !in saltHex && ':' !in hashHex
    requires tail == "" || tail[0] == ':'
    ensures ParseRecord(saltHex + ":" + hashHex + tail)
         == if saltHex != "" && hashHex != "" then Some((saltHex, hashHex)) else None
  {
    var s := saltHex + ":" + hashHex + tail;
    assert s == saltHex + [':'] + (hashHex + tail);
    SplitAround(saltHex, ':', hashHex + tail);
    SplitNoSeparator(saltHex, ':');
    if tail == "" {
      assert hashHex + tail == hashHex;
      SplitNoSeparator(hashHex, ':');
    } else {
      assert hashHex + tail == hashHex + [':'] + tail[1..];
      SplitAround(hashHex, ':', tail[1..]);
      SplitNoSeparator(hashHex, ':');
    }
  }

  /** A stored value without any ':' is malformed. */
  lemma {:induction false} NoColonIsMalformed(stored: string)
    requires ':' !in stored
    ensures ParseRecord(stored) == None
  {
    SplitNoSeparator(stored, ':');
  }
}
