/**
 * The string logic of src/lib/s3-utils.ts: the object URL of a key and the
 * unique object key generated for an uploaded file. The bucket name (an
 * environment variable), the clock and Math.random are inputs; the S3 calls
 * themselves are not modelled.
 */
module S3Utils {
  import opened Wrappers
  import opened Strings

  const HTTPS := "https://"

  /** What follows the bucket name in every object URL. */
  const S3_HOST_SUFFIX := ".s3.amazonaws.com/"

  /** getPublicUrl: `https://${bucket}.s3.amazonaws.com/${key}`. */
  function PublicUrl(bucket: string, key: string): (url: string)
    ensures StartsWith(url, HTTPS + bucket + S3_HOST_SUFFIX)
    ensures |url| == |HTTPS| + |bucket| + |S3_HOST_SUFFIX| + |key|
    ensures url[|url| - |key|..] == key
  {
    HTTPS + bucket + S3_HOST_SUFFIX + key
  }

  /** The value uploadToS3 returns after a successful PutObject (the ETag is not modelled). */
  datatype UploadResult = UploadResult(success: bool, key: string, url: string)

  /** The result object of uploadToS3, whose URL is written out by its own template. */
  function UploadToS3Result(bucket: string, key: string): (u: UploadResult)
    ensures u.success && u.key == key
  {
    UploadResult(true, key, "https://" + bucket + ".s3.amazonaws.com/" + key)
  }

  /** uploadToS3 and getPublicUrl give the same URL for a key. */
  lemma UploadUrlIsPublicUrl(bucket: string, key: string)
    ensures UploadToS3Result(bucket, key).url == PublicUrl(bucket, key)
  {
  }

  /**
   * `originalName.split(".").pop()`: the name itself when it has no '.',
   * otherwise the (possibly empty) text after its last '.'.
   */
  function Extension(name: string): (ext: string)
    ensures '.' !in ext
    ensures '.' !in name ==> ext == name
    ensures '.' in name ==> |ext| < |name| && name[|name| - |ext| - 1] == '.' && name[|name| - |ext|..] == ext
  {
    SplitLast(name, '.');
    var parts := Split(name, '.');
    parts[|parts| - 1]
  }

  /** Where /\.[^/.]+$/ matches: a '.' followed by one or more characters up to the end, none of them '/' or '.'. */
  predicate ExtensionMatchAt(name: string, i: int) {
    && 0 <= i < |name| - 1
    && name[i] == '.'
    && forall k :: i < k < |name| ==> name[k] != '/' && name[k] != '.'
  }

  /** The index where /\.[^/.]+$/ matches `name`; there is at most one. */
  function ExtensionMatch(name: string): (m: Option<nat>)
    ensures m.Some? ==> ExtensionMatchAt(name, m.value)
    ensures m.None? ==> forall i :: !ExtensionMatchAt(name, i)
    ensures forall i, j :: ExtensionMatchAt(name, i) && ExtensionMatchAt(name, j) ==> i == j
  {
    match LastIndexOf(name, '.')
    case None => None
    case Some(i) =>
      if i < |name| - 1 && '/' !in name[i + 1..] then
        assert forall k :: i < k < |name| ==> name[k] in name[i + 1..];
        Some(i)
      else
        assert i < |name| - 1 ==> exists k :: i < k < |name| && name[k] == '/' by {
          if i < |name| - 1 && '/' in name[i + 1..] {
            var t :| 0 <= t < |name[i + 1..]| && name[i + 1..][t] == '/';
            assert name[i + 1 + t] == '/';
          }
        }
        None
  }

  /** `originalName.replace(/\.[^/.]+$/, "")`: the name without its final extension, if it has one. */
  function StripExtension(name: string): (base: string)
    ensures |base| <= |name| && base == name[..|base|]
    ensures base == name <==> forall i :: !ExtensionMatchAt(name, i)
    ensures base != name ==> ExtensionMatchAt(name, |base|)
  {
    match ExtensionMatch(name)
    case Some(i) => name[..i]
    case None => name
  }

  /**
   * Only the final `.ext` segment is stripped, and only when it is non-empty
   * and has no '/': for `e` without '.', the name `b + "." + e` loses
   * `"." + e` exactly then. A name without '.' is kept whole.
   */
  lemma StripExtensionSpec(b: string, e: string)
    requires '.' !in e
    ensures StripExtension(b + "." + e) == if e != "" && '/' !in e then b else b + "." + e
  {
    var name := b + "." + e;
    assert name[|b| + 1..] == e;
    if e != "" && '/' !in e {
      forall k | |b| < k < |name| ensures name[k] != '/' && name[k] != '.' {
        assert name[k] == e[k - |b| - 1];
      }
      assert ExtensionMatchAt(name, |b|);
      assert name[..|b|] == b;
    }
  }

  lemma StripWithoutDot(name: string)
    requires '.' !in name
    ensures StripExtension(name) == name
  {
  }

  /** The characters a sanitised base name may hold: [A-Za-z0-9-]. */
  predicate IsKeyChar(c: char) { IsAsciiAlnum(c) || c == '-' }

  /** `.replace(/[^a-zA-Z0-9]/g, "-")`: every character outside [a-zA-Z0-9] becomes '-'. */
  function Sanitize(s: string): (r: string)
    ensures |r| == |s|
    ensures forall i :: 0 <= i < |s| ==> IsKeyChar(r[i])
    ensures forall i :: 0 <= i < |s| ==> r[i] == if IsAsciiAlnum(s[i]) then s[i] else '-'
  {
    seq(|s|, i requires 0 <= i < |s| => if IsAsciiAlnum(s[i]) then s[i] else '-')
  }

  /** Sanitising changes nothing in a string that is already made of key characters. */
  lemma SanitizeIdempotent(s: string)
    ensures Sanitize(Sanitize(s)) == Sanitize(s)
  {
  }

  /**
   * generateUniqueKey with the clock and the random suffix given:
   * `${prefix}${timestamp}-${randomSuffix}-${baseName}.${extension}`, where
   * baseName is the sanitised name without its extension.
   */
  function GenerateUniqueKey(originalName: string, prefix: string, timestamp: nat, randomSuffix: string): (key: string)
    ensures StartsWith(key, prefix)
  {
    prefix + DecimalString(timestamp) + "-" + randomSuffix + "-"
      + Sanitize(StripExtension(originalName)) + "." + Extension(originalName)
  }

  /** The base-name part of a generated key. */
  function BaseName(originalName: string): string {
    Sanitize(StripExtension(originalName))
  }

  /** Two fields joined by '-', then a third by '-': the first two come back from a split on '-'. */
  lemma {:induction false} DashFields(a: string, b: string, rest: string)
    requires '-' !in a && '-' !in b
    ensures var parts := Split(a + "-" + b + "-" + rest, '-');
      |parts| >= 2 && parts[0] == a && parts[1] == b
  {
    var after := b + "-" + rest;
    assert a + "-" + b + "-" + rest == a + ['-'] + after;
    SplitAround(a, '-', after);
    SplitNoSeparator(a, '-');
    assert after == b + ['-'] + rest;
    SplitAround(b, '-', rest);
    SplitNoSeparator(b, '-');
  }

  /** A stem and an extension, neither holding '.', come back from a split on '.'. */
  lemma {:induction false} DotFields(stem: string, ext: string)
    requires '.' !in stem && '.' !in ext
    ensures Split(stem + "." + ext, '.') == [stem, ext]
  {
    assert stem + "." + ext == stem + ['.'] + ext;
    SplitAround(stem, '.', ext);
    SplitNoSeparator(stem, '.');
    SplitNoSeparator(ext, '.');
  }

  /** The stem `timestamp-suffix-base` of a key holds no '.'. */
  lemma StemHasNoDot(stamp: string, suffix: string, base: string)
    requires forall i :: 0 <= i < |stamp| ==> IsAsciiDigit(stamp[i])
    requires forall i :: 0 <= i < |base| ==> IsKeyChar(base[i])
    requires '.' !in suffix
    ensures '.' !in stamp + "-" + suffix + "-" + base
  {
    var stem := stamp + "-" + suffix + "-" + base;
    forall i | 0 <= i < |stem| ensures stem[i] != '.' {
      if i < |stamp| {
        assert stem[i] == stamp[i];
      } else if i == |stamp| || i == |stamp| + 1 + |suffix| {
      } else if i < |stamp| + 1 + |suffix| {
        assert stem[i] == suffix[i - |stamp| - 1];
      } else {
        assert stem[i] == base[i - |stamp| - 2 - |suffix|];
      }
    }
  }

  /**
   * The parts of a generated key can be read back: after the prefix, the
   * '.'-separated fields are the stem and the extension, and the first two
   * '-'-separated fields are the timestamp and the random suffix. This needs
   * a suffix free of '-' and '.', as base-36 digits are.
   */
  lemma UniqueKeyFields(originalName: string, prefix: string, timestamp: nat, randomSuffix: string)
    requires '-' !in randomSuffix && '.' !in randomSuffix
    ensures var rest := GenerateUniqueKey(originalName, prefix, timestamp, randomSuffix)[|prefix|..];
      var stamp := DecimalString(timestamp);
      && Split(rest, '.') == [stamp + "-" + randomSuffix + "-" + BaseName(originalName), Extension(originalName)]
      && |Split(rest, '-')| >= 2
      && Split(rest, '-')[0] == stamp
      && Split(rest, '-')[1] == randomSuffix
      && DecimalValue(Split(rest, '-')[0]) == timestamp
  {
    var stamp := DecimalString(timestamp);
    var base := BaseName(originalName);
    var ext := Extension(originalName);
    var rest := GenerateUniqueKey(originalName, prefix, timestamp, randomSuffix)[|prefix|..];
    assert rest == stamp + "-" + randomSuffix + "-" + base + "." + ext;
    KeyFields(stamp, randomSuffix, base, ext);
    DecimalRoundTrip(timestamp);
  }

  /** The field structure of `stamp-suffix-base.ext` for fields of the generated shapes. */
  lemma KeyFields(stamp: string, suffix: string, base: string, ext: string)
    requires forall i :: 0 <= i < |stamp| ==> IsAsciiDigit(stamp[i])
    requires forall i :: 0 <= i < |base| ==> IsKeyChar(base[i])
    requires '-' !in suffix && '.' !in suffix && '.' !in ext
    ensures var rest := stamp + "-" + suffix + "-" + base + "." + ext;
      && Split(rest, '.') == [stamp + "-" + suffix + "-" + base, ext]
      && |Split(rest, '-')| >= 2
      && Split(rest, '-')[0] == stamp
      && Split(rest, '-')[1] == suffix
  {
    var stem := stamp + "-" + suffix + "-" + base;
    var rest := stem + "." + ext;
    StemHasNoDot(stamp, suffix, base);
    DotFields(stem, ext);
    assert '-' !in stamp by {
      assert forall i :: 0 <= i < |stamp| ==> IsAsciiDigit(stamp[i]);
    }
    assert rest == stamp + "-" + suffix + "-" + (base + "." + ext);
    DashFields(stamp, suffix, base + "." + ext);
  }

  /** Keys generated with the same prefix at different times, or with different suffixes, differ. */
  lemma UniqueKeysDiffer(name1: string, name2: string, prefix: string, t1: nat, t2: nat, suffix1: string, suffix2: string)
    requires '-' !in suffix1 && '.' !in suffix1 && '-' !in suffix2 && '.' !in suffix2
    requires t1 != t2 || suffix1 != suffix2
    ensures GenerateUniqueKey(name1, prefix, t1, suffix1) != GenerateUniqueKey(name2, prefix, t2, suffix2)
  {
    UniqueKeyFields(name1, prefix, t1, suffix1);
    UniqueKeyFields(name2, prefix, t2, suffix2);
  }

  /** For an extension `e` without '.', the extension of `b + "." + e` is `e`. */
  lemma ExtensionSpec(b: string, e: string)
    requires '.' !in e
    ensures Extension(b + "." + e) == e
  {
    var name := b + "." + e;
    var ext := Extension(name);
    assert name[|b|] == '.';
    assert name[|name| - |e|..] == e;
  }

  /** A name made of letters and digits only is left as it is. */
  lemma SanitizeAlnum(s: string)
    requires forall i :: 0 <= i < |s| ==> IsAsciiAlnum(s[i])
    ensures Sanitize(s) == s
  {
  }
}
