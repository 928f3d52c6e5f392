/**
 * src/utils/webcrypto.ts: hashPassword and verifyPassword over PBKDF2-SHA-512
 * (RFC 8018 section 5.2, 310000 iterations), with the derivation abstract.
 * The derived key is compared as lowercase hex TEXT.
 */
module WebCrypto {
  import opened Wrappers
  import opened Strings
  import opened Passwords

  /**
   * hexToBuffer: the values of `hex.match(/[\da-f]{2}/gi) || []`. The global
   * match scans left to right; two hex digits of either case make one byte and
   * the scan resumes after them, any other character is skipped.
   */
  function HexToBuffer(hex: string): (bytes: Bytes)
    ensures |bytes| <= |hex| / 2
    decreases |hex|
  {
    if |hex| < 2 then []
    else if IsHexDigit(hex[0]) && IsHexDigit(hex[1]) then
      [16 * HexDigitValue(hex[0]) + HexDigitValue(hex[1])] + HexToBuffer(hex[2..])
    else HexToBuffer(hex[1..])
  }

  /** Decoding the encoding of any byte sequence gives it back. */
  lemma {:induction false} HexRoundTrip(bytes: Bytes)
    ensures HexToBuffer(BufferToHex(bytes)) == bytes
  {
    if bytes != [] {
      var hex := BufferToHex(bytes);
      assert hex[2..] == BufferToHex(bytes[1..]);
      HexRoundTrip(bytes[1..]);
      assert bytes == [bytes[0]] + bytes[1..];
    }
  }

  /** The decoder ignores case: an uppercased encoding decodes to the same bytes. */
  lemma {:induction false} HexUppercaseRoundTrip(bytes: Bytes)
    ensures HexToBuffer(ToUpperAscii(BufferToHex(bytes))) == bytes
  {
    if bytes != [] {
      var hex := BufferToHex(bytes);
      var up := ToUpperAscii(hex);
      assert up[2..] == ToUpperAscii(hex[2..]);
      assert hex[2..] == BufferToHex(bytes[1..]);
      assert HexDigitValue(up[0]) == HexDigitValue(hex[0]);
      assert HexDigitValue(up[1]) == HexDigitValue(hex[1]);
      HexUppercaseRoundTrip(bytes[1..]);
      assert bytes == [bytes[0]] + bytes[1..];
    }
  }

  /** The hex encoding is injective. */
  lemma HexInjective(a: Bytes, b: Bytes)
    requires BufferToHex(a) == BufferToHex(b)
    ensures a == b
  {
    HexRoundTrip(a);
    HexRoundTrip(b);
  }

  lemma LowerHexDigitOfValue(c: char)
    requires IsLowerHexDigit(c)
    ensures LowerHexDigit(HexDigitValue(c)) == c
  {
  }

  /** A lowercase hex text of even length is the encoding of what it decodes to. */
  lemma {:induction false} CanonicalHexRoundTrip(hex: string)
    requires |hex| % 2 == 0
    requires forall i :: 0 <= i < |hex| ==> IsLowerHexDigit(hex[i])
    ensures BufferToHex(HexToBuffer(hex)) == hex
    decreases |hex|
  {
    if hex != [] {
      var v0 := HexDigitValue(hex[0]);
      var v1 := HexDigitValue(hex[1]);
      var b := 16 * v0 + v1;
      assert b / 16 == v0 && b % 16 == v1;
      LowerHexDigitOfValue(hex[0]);
      LowerHexDigitOfValue(hex[1]);
      assert ByteToHex(b) == hex[..2];
      CanonicalHexRoundTrip(hex[2..]);
      var bytes := HexToBuffer(hex);
      assert bytes == [b] + HexToBuffer(hex[2..]);
      assert bytes[1..] == HexToBuffer(hex[2..]);
      assert hex == hex[..2] + hex[2..];
    }
  }

  /**
   * hashPassword with the salt given: PBKDF2 over the password and salt, and
   * the record `hex(salt) ":" hex(key)`; a derivation error becomes the single
   * error "Password hashing failed".
   */
  function HashPassword(kdf: KeyDerivation, password: Bytes, salt: Salt): Result<string, string> {
    HashRecord(kdf, password, salt)
  }

  /**
   * verifyPassword: a malformed record and a derivation error give false;
   * otherwise the key re-derived from the decoded salt, as lowercase hex,
   * must equal the stored hash part exactly.
   */
  function VerifyPassword(kdf: KeyDerivation, password: Bytes, stored: string): (ok: bool)
    ensures ParseRecord(stored).None? ==> !ok
    ensures ok ==> && kdf(password, HexToBuffer(ParseRecord(stored).value.0)).Some?
                   && HexToBuffer(ParseRecord(stored).value.1) == kdf(password, HexToBuffer(ParseRecord(stored).value.0)).value
  {
    match ParseRecord(stored)
    case None => false
    case Some((saltHex, hashHex)) =>
      match kdf(password, HexToBuffer(saltHex))
      case None => false
      case Some(key) =>
        HexRoundTrip(key);
        BufferToHex(key) == hashHex
  }

  /**
   * verifyPassword compares text, so it holds exactly when the record parses,
   * the derivation succeeds, and the hash part is 128 lowercase hex digits
   * that decode to the re-derived key.
   */
  lemma VerifyIff(kdf: KeyDerivation, password: Bytes, stored: string)
    ensures VerifyPassword(kdf, password, stored) <==>
      && ParseRecord(stored).Some?
      && kdf(password, HexToBuffer(ParseRecord(stored).value.0)).Some?
      && var hashHex := ParseRecord(stored).value.1;
         && |hashHex| == 2 * KEY_LENGTH
         && (forall i :: 0 <= i < |hashHex| ==> IsLowerHexDigit(hashHex[i]))
         && HexToBuffer(hashHex) == kdf(password, HexToBuffer(ParseRecord(stored).value.0)).value
  {
    if ParseRecord(stored).Some? {
      var (saltHex, hashHex) := ParseRecord(stored).value;
      var k := kdf(password, HexToBuffer(saltHex));
      if k.Some? {
        if BufferToHex(k.value) == hashHex {
          HexRoundTrip(k.value);
        }
        if |hashHex| == 2 * KEY_LENGTH && (forall i :: 0 <= i < |hashHex| ==> IsLowerHexDigit(hashHex[i])) {
          CanonicalHexRoundTrip(hashHex);
        }
      }
    }
  }

  /** Round trip: a record produced for a password verifies against it. */
  lemma VerifyHashed(kdf: KeyDerivation, password: Bytes, salt: Salt)
    requires HashPassword(kdf, password, salt).Success?
    ensures VerifyPassword(kdf, password, HashPassword(kdf, password, salt).value)
  {
    var key := kdf(password, salt).value;
    ParseRecordFields(BufferToHex(salt), BufferToHex(key), "");
    assert BufferToHex(salt) + ":" + BufferToHex(key) + "" == Record(salt, key);
    HexRoundTrip(salt);
  }

  /**
   * A password whose derived key differs from the one stored for another
   * password under the same salt does not verify.
   */
  lemma OtherPasswordRejected(kdf: KeyDerivation, password: Bytes, other: Bytes, salt: Salt)
    requires HashPassword(kdf, password, salt).Success?
    requires kdf(other, salt) != kdf(password, salt)
    ensures !VerifyPassword(kdf, other, HashPassword(kdf, password, salt).value)
  {
    var key := kdf(password, salt).value;
    ParseRecordFields(BufferToHex(salt), BufferToHex(key), "");
    assert BufferToHex(salt) + ":" + BufferToHex(key) + "" == Record(salt, key);
    HexRoundTrip(salt);
    if kdf(other, salt).Some? && BufferToHex(kdf(other, salt).value) == BufferToHex(key) {
      HexInjective(kdf(other, salt).value, key);
    }
  }

  /** Two different salts give two different records for the same password. */
  lemma DistinctSaltsDistinctRecords(kdf: KeyDerivation, password: Bytes, s1: Salt, s2: Salt)
    requires s1 != s2
    requires HashPassword(kdf, password, s1).Success? && HashPassword(kdf, password, s2).Success?
    ensures HashPassword(kdf, password, s1).value != HashPassword(kdf, password, s2).value
  {
    if HashPassword(kdf, password, s1).value == HashPassword(kdf, password, s2).value {
      HexInjective(s1, s2);
    }
  }

  /** A malformed record never verifies, whatever the password. */
  lemma MalformedNeverVerifies(kdf: KeyDerivation, password: Bytes, stored: string)
    requires || ':' !in stored
             || StartsWith(stored, ":")
             || (exists a, t :: ':' !in a && (t == "" || t[0] == ':') && stored == a + ":" + t)
    ensures !VerifyPassword(kdf, password, stored)
  {
    if ':' !in stored {
      NoColonIsMalformed(stored);
    } else if StartsWith(stored, ":") {
      assert stored == "" + ":" + stored[1..];
      var rest := stored[1..];
      SplitAround("", ':', rest);
    } else {
      var a, t :| ':' !in a && (t == "" || t[0] == ':') && stored == a + ":" + t;
      ParseRecordFields(a, "", t);
      assert a + ":" + "" + t == stored;
    }
  }

  /** Text after a second ':' plays no part in verification. */
  lemma ExtraFieldsIgnored(kdf: KeyDerivation, password: Bytes, saltHex: string, hashHex: string, tail: string)
    requires ':' !in saltHex && ':' !in hashHex
    ensures VerifyPassword(kdf, password, saltHex + ":" + hashHex + ":" + tail)
         == VerifyPassword(kdf, password, saltHex + ":" + hashHex)
  {
    ParseRecordFields(saltHex, hashHex, ":" + tail);
    ParseRecordFields(saltHex, hashHex, "");
    assert saltHex + ":" + hashHex + ":" + tail == saltHex + ":" + hashHex + (":" + tail);
    assert saltHex + ":" + hashHex + "" == saltHex + ":" + hashHex;
  }

  /**
   * Only a hash part of exactly 128 lowercase hex digits can verify; in
   * particular a hash part stored in uppercase never verifies.
   */
  lemma VerifiedHashIsLowercaseHex(kdf: KeyDerivation, password: Bytes, stored: string)
    requires VerifyPassword(kdf, password, stored)
    ensures ParseRecord(stored).Some?
    ensures var hashHex := ParseRecord(stored).value.1;
      |hashHex| == 2 * KEY_LENGTH && forall i :: 0 <= i < |hashHex| ==> IsLowerHexDigit(hashHex[i])
  {
  }

  /**
   * Storing the hash part in uppercase breaks verification whenever the
   * uppercase text differs, that is whenever the key's hex has a letter.
   */
  lemma UppercaseHashRejected(kdf: KeyDerivation, password: Bytes, salt: Salt)
    requires kdf(password, salt).Some?
    requires ToUpperAscii(BufferToHex(kdf(password, salt).value)) != BufferToHex(kdf(password, salt).value)
    ensures !VerifyPassword(kdf, password, BufferToHex(salt) + ":" + ToUpperAscii(BufferToHex(kdf(password, salt).value)))
  {
    var key := kdf(password, salt).value;
    var up := ToUpperAscii(BufferToHex(key));
    assert ':' !in up;
    ParseRecordFields(BufferToHex(salt), up, "");
    assert BufferToHex(salt) + ":" + up + "" == BufferToHex(salt) + ":" + up;
    HexRoundTrip(salt);
  }
}
