/**
 * src/utils/argon.ts, which despite its name derives keys with scrypt
 * (RFC 7914; N = 16384, r = 8, p = 1), with the derivation abstract. Unlike
 * webcrypto.ts it decodes the stored hash part and compares BYTES, with
 * crypto.timingSafeEqual.
 */
module Argon {
  import opened Wrappers
  import opened Strings
  import opened Passwords

  /**
   * Node's `Buffer.from(hex, "hex")`: bytes are read from consecutive pairs of
   * hex digits (either case) from the start, and decoding stops at the first
   * pair that is not two hex digits; an odd last digit is dropped.
   */
  function NodeHexDecode(hex: string): (bytes: Bytes)
    ensures |bytes| <= |hex| / 2
    decreases |hex|
  {
    if |hex| >= 2 && IsHexDigit(hex[0]) && IsHexDigit(hex[1]) then
      [16 * HexDigitValue(hex[0]) + HexDigitValue(hex[1])] + NodeHexDecode(hex[2..])
    else []
  }

  /** Decoding the encoding of any byte sequence, followed by anything that is not a hex pair, gives it back. */
  lemma {:induction false} NodeHexRoundTrip(bytes: Bytes, junk: string)
    requires |junk| < 2 || !IsHexDigit(junk[0]) || !IsHexDigit(junk[1])
    ensures NodeHexDecode(BufferToHex(bytes) + junk) == bytes
  {
    if bytes != [] {
      var hex := BufferToHex(bytes) + junk;
      assert hex[2..] == BufferToHex(bytes[1..]) + junk;
      NodeHexRoundTrip(bytes[1..], junk);
      assert bytes == [bytes[0]] + bytes[1..];
    } else {
      assert BufferToHex(bytes) + junk == junk;
    }
  }

  /** The decoder ignores case: an uppercased encoding decodes to the same bytes. */
  lemma {:induction false} NodeHexUppercaseRoundTrip(bytes: Bytes)
    ensures NodeHexDecode(ToUpperAscii(BufferToHex(bytes))) == bytes
  {
    if bytes != [] {
      var hex := BufferToHex(bytes);
      var up := ToUpperAscii(hex);
      assert up[2..] == ToUpperAscii(hex[2..]);
      assert hex[2..] == BufferToHex(bytes[1..]);
      assert HexDigitValue(up[0]) == HexDigitValue(hex[0]);
      assert HexDigitValue(up[1]) == HexDigitValue(hex[1]);
      NodeHexUppercaseRoundTrip(bytes[1..]);
      assert bytes == [bytes[0]] + bytes[1..];
    }
  }

  /**
   * crypto.timingSafeEqual: byte equality of two buffers of the same length;
   * None stands for the RangeError it throws when the lengths differ.
   */
  function TimingSafeEqual(a: Bytes, b: Bytes): (r: Option<bool>)
    ensures r.None? <==> |a| != |b|
    ensures r.Some? ==> (r.value <==> forall i :: 0 <= i < |a| ==> a[i] == b[i])
  {
    if |a| != |b| then None else Some(a == b)
  }

  /**
   * hashPassword with the salt given: scrypt over the password and salt, and
   * the record `salt.toString("hex") ":" derivedKey.toString("hex")`; a
   * derivation error becomes the single error "Password hashing failed".
   */
  function HashPassword(kdf: KeyDerivation, password: Bytes, salt: Salt): Result<string, string> {
    HashRecord(kdf, password, salt)
  }

  /**
   * verifyPassword: a malformed record, a derivation error and a stored key
   * of the wrong length (timingSafeEqual throws, the error is caught) give
   * false; otherwise the bytes of the re-derived key are compared with the
   * decoded hash part.
   */
  function VerifyPassword(kdf: KeyDerivation, password: Bytes, stored: string): (ok: bool)
    ensures ParseRecord(stored).None? ==> !ok
    ensures ok ==> && kdf(password, NodeHexDecode(ParseRecord(stored).value.0)).Some?
                   && NodeHexDecode(ParseRecord(stored).value.1) == kdf(password, NodeHexDecode(ParseRecord(stored).value.0)).value
  {
    match ParseRecord(stored)
    case None => false
    case Some((saltHex, hashHex)) =>
      match kdf(password, NodeHexDecode(saltHex))
      case None => false
      case Some(key) =>
        match TimingSafeEqual(key, NodeHexDecode(hashHex))
        case None => false
        case Some(equal) => equal
  }

  /**
   * verifyPassword holds exactly when the record parses, the derivation
   * succeeds, and the decoded hash part equals the re-derived key byte for byte.
   */
  lemma VerifyIff(kdf: KeyDerivation, password: Bytes, stored: string)
    ensures VerifyPassword(kdf, password, stored) <==>
      && ParseRecord(stored).Some?
      && kdf(password, NodeHexDecode(ParseRecord(stored).value.0)).Some?
      && NodeHexDecode(ParseRecord(stored).value.1) == kdf(password, NodeHexDecode(ParseRecord(stored).value.0)).value
  {
    if ParseRecord(stored).Some? {
      var (saltHex, hashHex) := ParseRecord(stored).value;
      var k := kdf(password, NodeHexDecode(saltHex));
      if k.Some? && |k.value| == |NodeHexDecode(hashHex)| {
        assert (forall i :: 0 <= i < |k.value| ==> k.value[i] == NodeHexDecode(hashHex)[i])
           <==> k.value == NodeHexDecode(hashHex);
      }
    }
  }

  /** A stored key that does not decode to exactly 64 bytes never verifies. */
  lemma WrongKeyLengthRejected(kdf: KeyDerivation, password: Bytes, saltHex: string, hashHex: string)
    requires ':' !in saltHex && ':' !in hashHex
    requires |NodeHexDecode(hashHex)| != KEY_LENGTH
    ensures !VerifyPassword(kdf, password, saltHex + ":" + hashHex)
  {
    ParseRecordFields(saltHex, hashHex, "");
    assert saltHex + ":" + hashHex + "" == saltHex + ":" + hashHex;
  }

  /** Round trip: a record produced for a password verifies against it. */
  lemma VerifyHashed(kdf: KeyDerivation, password: Bytes, salt: Salt)
    requires HashPassword(kdf, password, salt).Success?
    ensures VerifyPassword(kdf, password, HashPassword(kdf, password, salt).value)
  {
    var key := kdf(password, salt).value;
    ParseRecordFields(BufferToHex(salt), BufferToHex(key), "");
    assert BufferToHex(salt) + ":" + BufferToHex(key) + "" == Record(salt, key);
    NodeHexRoundTrip(salt, "");
    NodeHexRoundTrip(key, "");
    assert BufferToHex(salt) + "" == BufferToHex(salt);
    assert BufferToHex(key) + "" == BufferToHex(key);
  }

  /**
   * A password whose derived key differs from the one stored for another
   * password under the same salt does not verify.
   */
  lemma OtherPasswordRejected(kdf: KeyDerivation, password: Bytes, other: Bytes, salt: Salt)
    requires HashPassword(kdf, password, salt).Success?
    requires kdf(other, salt) != kdf(password, salt)
    ensures !VerifyPassword(kdf, other, HashPassword(kdf, password, salt).value)
  {
    var key := kdf(password, salt).value;
    ParseRecordFields(BufferToHex(salt), BufferToHex(key), "");
    assert BufferToHex(salt) + ":" + BufferToHex(key) + "" == Record(salt, key);
    NodeHexRoundTrip(salt, "");
    NodeHexRoundTrip(key, "");
    assert BufferToHex(salt) + "" == BufferToHex(salt);
    assert BufferToHex(key) + "" == BufferToHex(key);
  }

  /**
   * Because bytes are compared, a record whose hash part was uppercased, or
   * has a non-hex suffix appended, still verifies; webcrypto.ts rejects the
   * uppercased one.
   */
  lemma LenientHashPartAccepted(kdf: KeyDerivation, password: Bytes, salt: Salt, junk: string)
    requires kdf(password, salt).Some?
    requires ':' !in junk && junk != "" && !IsHexDigit(junk[0])
    ensures var key := kdf(password, salt).value;
      && VerifyPassword(kdf, password, BufferToHex(salt) + ":" + ToUpperAscii(BufferToHex(key)))
      && VerifyPassword(kdf, password, BufferToHex(salt) + ":" + BufferToHex(key) + junk)
  {
    var key := kdf(password, salt).value;
    var up := ToUpperAscii(BufferToHex(key));
    assert ':' !in up;
    ParseRecordFields(BufferToHex(salt), up, "");
    assert BufferToHex(salt) + ":" + up + "" == BufferToHex(salt) + ":" + up;
    NodeHexRoundTrip(salt, "");
    assert BufferToHex(salt) + "" == BufferToHex(salt);
    NodeHexUppercaseRoundTrip(key);
    var longer := BufferToHex(key) + junk;
    assert ':' !in longer;
    ParseRecordFields(BufferToHex(salt), longer, "");
    assert BufferToHex(salt) + ":" + longer + "" == BufferToHex(salt) + ":" + BufferToHex(key) + junk;
    NodeHexRoundTrip(key, junk);
  }
}
