/**
 * src/trpc/users/users.service.ts: createUser, uploadAvatar and deleteAvatar
 * over an abstract user table. The checks, the avatar key and the S3 URL
 * parsing are functions; the service is a class whose user table and log of
 * outside effects (S3 puts and deletes, image updates) its methods update.
 * Failures of the database and of S3 are inputs.
 */
module Users {
  import opened Wrappers
  import opened Strings
  import S3Utils

  datatype ErrorCode = BadRequest | InternalServerError | NotFound

  /** A TRPCError: a code and a message. */
  datatype TrpcError = TrpcError(code: ErrorCode, message: string)

  /** What a try block can throw: a TRPCError, or any other error (a database or S3 failure). */
  datatype Thrown = TrpcThrown(error: TrpcError) | OtherThrown

  /**
   * The catch clause shared by the service methods: a TRPCError is re-thrown
   * as it is; anything else becomes INTERNAL_SERVER_ERROR with the method's message.
   */
  function Rethrow(e: Thrown, fallback: string): TrpcError {
    match e
    case TrpcThrown(t) => t
    case OtherThrown => TrpcError(InternalServerError, fallback)
  }

  /** A row of the users table, reduced to the columns the service reads or writes. */
  datatype User = User(id: string, name: string, email: string, image: Option<string>)

  /** `select ... where email = ?` returns a row. */
  predicate EmailInUse(users: map<string, User>, email: string) {
    exists id :: id in users && users[id].email == email
  }

  /** No two rows share an email. */
  ghost predicate UniqueEmails(users: map<string, User>) {
    forall a, b :: a in users && b in users && users[a].email == users[b].email ==> a == b
  }

  /** Inserting a row whose email is not in use keeps emails unique. */
  lemma InsertKeepsEmailsUnique(users: map<string, User>, u: User)
    requires UniqueEmails(users)
    requires !EmailInUse(users, u.email)
    ensures UniqueEmails(users[u.id := u])
  {
    var m := users[u.id := u];
    forall a, b | a in m && b in m && m[a].email == m[b].email ensures a == b {
      if a != u.id && b != u.id {
        assert users[a].email == users[b].email;
      }
    }
  }

  /** The table after `update users set image = ? where id = ?`: only that row, if any, changes. */
  function WithImage(users: map<string, User>, id: string, image: Option<string>): (m: map<string, User>)
    ensures m.Keys == users.Keys
    ensures forall k :: k in users && k != id ==> m[k] == users[k]
    ensures id in users ==> m[id] == users[id].(image := image)
  {
    if id in users then users[id := users[id].(image := image)] else users
  }

  /** Setting an image leaves every email where it was. */
  lemma WithImageKeepsEmailsUnique(users: map<string, User>, id: string, image: Option<string>)
    requires UniqueEmails(users)
    ensures UniqueEmails(WithImage(users, id, image))
  {
    var m := WithImage(users, id, image);
    forall a, b | a in m && b in m && m[a].email == m[b].email ensures a == b {
      assert m[a].email == users[a].email && m[b].email == users[b].email;
    }
  }

  /** What the update's `returning()` yields: the updated row, or nothing when no row has that id. */
  function UpdatedRow(users: map<string, User>, id: string, image: Option<string>): Option<User> {
    if id in users then Some(users[id].(image := image)) else None
  }

  /** 5 MiB. */
  const MAX_AVATAR_BYTES: nat := 5 * 1024 * 1024

  const IMAGE_TYPE_PREFIX := "image/"

  /**
   * The validation at the start of uploadAvatar: a content type not starting
   * with "image/" is rejected first; then a decoded payload over 5 MiB.
   */
  function CheckAvatarUpload(contentType: string, size: nat): (r: Option<TrpcError>)
    ensures r.None? <==> StartsWith(contentType, IMAGE_TYPE_PREFIX) && size <= MAX_AVATAR_BYTES
    ensures r.Some? ==> r.value.code == BadRequest
    ensures !StartsWith(contentType, IMAGE_TYPE_PREFIX) ==> r == Some(TrpcError(BadRequest, "Invalid file type"))
    ensures StartsWith(contentType, IMAGE_TYPE_PREFIX) && size > MAX_AVATAR_BYTES ==> r == Some(TrpcError(BadRequest, "File too large"))
  {
    if !StartsWith(contentType, IMAGE_TYPE_PREFIX) then Some(TrpcError(BadRequest, "Invalid file type"))
    else if size > MAX_AVATAR_BYTES then Some(TrpcError(BadRequest, "File too large"))
    else None
  }

  /** The size limit is inclusive: an image of exactly 5 MiB passes, one byte more does not. */
  lemma AvatarSizeBoundary(contentType: string)
    requires StartsWith(contentType, IMAGE_TYPE_PREFIX)
    ensures CheckAvatarUpload(contentType, 5242880).None?
    ensures CheckAvatarUpload(contentType, 5242881) == Some(TrpcError(BadRequest, "File too large"))
  {
  }

  /** The key prefix `avatars/${userId}/`. */
  function AvatarKeyPrefix(userId: string): string {
    "avatars/" + userId + "/"
  }

  /** The object key uploadAvatar generates. */
  function AvatarKey(userId: string, fileName: string, timestamp: nat, randomSuffix: string): (key: string)
    ensures StartsWith(key, AvatarKeyPrefix(userId))
  {
    S3Utils.GenerateUniqueKey(fileName, AvatarKeyPrefix(userId), timestamp, randomSuffix)
  }

  /** The substring that marks an avatar as Google's. */
  const GOOGLE_AVATAR_HOST := "googleusercontent.com"

  /** The characters JavaScript's `.` does not match. */
  predicate IsLineTerminator(c: char) {
    c == '\n' || c == '\r' || c as int == 0x2028 || c as int == 0x2029
  }

  predicate SingleLine(s: string) {
    forall i :: 0 <= i < |s| ==> !IsLineTerminator(s[i])
  }

  /** `(.*)`: the longest prefix without a line terminator. */
  function RestOfLine(s: string): (r: string)
    ensures |r| <= |s| && r == s[..|r|]
    ensures SingleLine(r)
    ensures |r| < |s| ==> IsLineTerminator(s[|r|])
  {
    if s == [] || IsLineTerminator(s[0]) then ""
    else [s[0]] + RestOfLine(s[1..])
  }

  /** The greedy `[^.]+`: the length of the run of characters other than '.' at the start of `s`. */
  function NonDotRun(s: string): (n: nat)
    ensures n <= |s|
    ensures forall i :: 0 <= i < n ==> s[i] != '.'
    ensures n < |s| ==> s[n] == '.'
  {
    if s == [] || s[0] == '.' then 0 else 1 + NonDotRun(s[1..])
  }

  /**
   * A match of /https:\/\/[^.]+\.s3\.amazonaws\.com\/(.*)/ starting at index
   * `i`, as its capture. `[^.]+` can only end just before the first '.', so
   * that is where `.s3.amazonaws.com/` must follow.
   */
  function S3UrlMatchAt(url: string, i: nat): Option<string>
    requires i <= |url|
  {
    var s := url[i..];
    if !StartsWith(s, S3Utils.HTTPS) then None
    else
      var n := NonDotRun(s[8..]);
      if n > 0 && StartsWith(s[8 + n..], S3Utils.S3_HOST_SUFFIX) then Some(RestOfLine(s[8 + n + 18..]))
      else None
  }

  /** Index `i` is the leftmost match at or after `from`: it matches, and no index before it does. */
  predicate FirstMatchAt(url: string, from: nat, i: nat) {
    && from <= i <= |url|
    && S3UrlMatchAt(url, i).Some?
    && forall j :: from <= j < i ==> S3UrlMatchAt(url, j).None?
  }

  /** A leftmost match after `from + 1` is the leftmost after `from` when `from` itself does not match. */
  lemma FirstMatchStep(url: string, from: nat, i: nat)
    requires from < |url| && S3UrlMatchAt(url, from).None? && FirstMatchAt(url, from + 1, i)
    ensures FirstMatchAt(url, from, i)
  {
  }

  /** The unanchored search `url.match(pattern)`: the capture of the leftmost match at or after `from`. */
  function MatchS3Url(url: string, from: nat): (r: Option<string>)
    requires from <= |url|
    ensures r.Some? ==> exists i :: FirstMatchAt(url, from, i) && S3UrlMatchAt(url, i) == r
    ensures r.None? ==> forall i :: from <= i <= |url| ==> S3UrlMatchAt(url, i).None?
    decreases |url| - from
  {
    match S3UrlMatchAt(url, from)
    case Some(k) =>
      assert FirstMatchAt(url, from, from);
      Some(k)
    case None =>
      if from == |url| then None
      else
        var r := MatchS3Url(url, from + 1);
        assert r.Some? ==> exists i :: FirstMatchAt(url, from, i) && S3UrlMatchAt(url, i) == r by {
          if r.Some? {
            var i :| FirstMatchAt(url, from + 1, i) && S3UrlMatchAt(url, i) == r;
            FirstMatchStep(url, from, i);
          }
        }
        r
  }

  /** match[1] of the avatar URL, if the pattern matches. */
  function ExtractS3Key(url: string): Option<string> {
    MatchS3Url(url, 0)
  }

  /** How deleteAvatar treats an avatar URL. */
  datatype AvatarUrl = GoogleAvatar | S3Avatar(key: string) | InvalidAvatarUrl

  /**
   * deleteAvatar's classification: any URL containing "googleusercontent.com"
   * is Google's; otherwise the capture of the S3 pattern is the object key,
   * and no match or an empty capture makes the URL invalid.
   */
  function ClassifyAvatarUrl(url: string): (c: AvatarUrl)
    ensures c == GoogleAvatar <==> Contains(url, GOOGLE_AVATAR_HOST)
    ensures c.S3Avatar? ==> c.key != "" && ExtractS3Key(url) == Some(c.key)
    ensures c == InvalidAvatarUrl <==> !Contains(url, GOOGLE_AVATAR_HOST) && (ExtractS3Key(url).None? || ExtractS3Key(url) == Some(""))
  {
    if Contains(url, GOOGLE_AVATAR_HOST) then GoogleAvatar
    else match ExtractS3Key(url)
      case Some(k) => if k != "" then S3Avatar(k) else InvalidAvatarUrl
      case None => InvalidAvatarUrl
  }

  /** A prefix of the text from index `i` on occurs at `i`. */
  lemma StartsWithAt(s: string, sub: string, i: nat)
    requires i <= |s|
    ensures StartsWith(s[i..], sub) <==> OccursAt(s, sub, i)
  {
    if i + |sub| <= |s| {
      assert s[i..][..|sub|] == s[i..i + |sub|];
    }
  }

  /** A URL without "https://" never yields a key. */
  lemma NoSchemeNoKey(url: string)
    requires !Contains(url, S3Utils.HTTPS)
    ensures ExtractS3Key(url).None?
  {
    ContainsIff(url, S3Utils.HTTPS);
    forall i | 0 <= i <= |url| ensures S3UrlMatchAt(url, i).None? {
      StartsWithAt(url, S3Utils.HTTPS, i);
    }
  }

  /** The pattern matches the public URL of a key right at its start, capturing the key. */
  lemma PublicUrlMatchesAtStart(bucket: string, key: string)
    requires bucket != "" && '.' !in bucket
    requires SingleLine(key)
    ensures S3UrlMatchAt(S3Utils.PublicUrl(bucket, key), 0) == Some(key)
  {
    var url := S3Utils.PublicUrl(bucket, key);
    assert url == S3Utils.HTTPS + bucket + S3Utils.S3_HOST_SUFFIX + key;
    assert url[0..] == url;
    assert StartsWith(url[0..], S3Utils.HTTPS);
    var s := url[0..][8..];
    assert s == bucket + S3Utils.S3_HOST_SUFFIX + key;
    var n := NonDotRun(s);
    assert s[|bucket|] == '.';
    assert n == |bucket|;
    assert s[n..] == S3Utils.S3_HOST_SUFFIX + key;
    assert StartsWith(s[n..], S3Utils.S3_HOST_SUFFIX);
    assert s[n..][18..] == key;
    assert RestOfLine(key) == key;
  }

  /**
   * Round trip: for a bucket name without '.', the key extracted from the
   * public URL of any single-line key is that key.
   */
  lemma ExtractPublicUrlKey(bucket: string, key: string)
    requires bucket != "" && '.' !in bucket
    requires SingleLine(key)
    ensures ExtractS3Key(S3Utils.PublicUrl(bucket, key)) == Some(key)
  {
    PublicUrlMatchesAtStart(bucket, key);
  }

  /**
   * Such a URL is classified as an S3 avatar with that key, unless it
   * contains "googleusercontent.com" somewhere.
   */
  lemma ClassifyPublicUrl(bucket: string, key: string)
    requires bucket != "" && '.' !in bucket
    requires key != "" && SingleLine(key)
    requires !Contains(S3Utils.PublicUrl(bucket, key), GOOGLE_AVATAR_HOST)
    ensures ClassifyAvatarUrl(S3Utils.PublicUrl(bucket, key)) == S3Avatar(key)
  {
    ExtractPublicUrlKey(bucket, key);
  }

  lemma SingleLineConcat(a: string, b: string)
    requires SingleLine(a) && SingleLine(b)
    ensures SingleLine(a + b)
  {
    forall i | 0 <= i < |a + b| ensures !IsLineTerminator((a + b)[i]) {
      if i >= |a| {
        assert (a + b)[i] == b[i - |a|];
      }
    }
  }

  /** The extension, the sanitised base name and the timestamp of a key are single-line. */
  lemma KeyPartsSingleLine(fileName: string, timestamp: nat)
    requires SingleLine(fileName)
    ensures SingleLine(S3Utils.Extension(fileName))
    ensures SingleLine(S3Utils.BaseName(fileName))
    ensures SingleLine(DecimalString(timestamp))
  {
    var ext := S3Utils.Extension(fileName);
    if '.' in fileName {
      forall i | 0 <= i < |ext| ensures !IsLineTerminator(ext[i]) {
        assert ext[i] == fileName[|fileName| - |ext| + i];
      }
    }
    var base := S3Utils.BaseName(fileName);
    forall i | 0 <= i < |base| ensures !IsLineTerminator(base[i]) {
      assert S3Utils.IsKeyChar(base[i]);
    }
    var stamp := DecimalString(timestamp);
    forall i | 0 <= i < |stamp| ensures !IsLineTerminator(stamp[i]) {
      assert IsAsciiDigit(stamp[i]);
    }
  }

  /** The seven pieces of a generated key, each single-line, make a single-line key. */
  lemma KeyJoinSingleLine(pre: string, stamp: string, suffix: string, base: string, ext: string)
    requires SingleLine(pre) && SingleLine(stamp) && SingleLine(suffix) && SingleLine(base) && SingleLine(ext)
    ensures SingleLine(pre + stamp + "-" + suffix + "-" + base + "." + ext)
  {
    var dash, dot := "-", ".";
    assert SingleLine(dash) && SingleLine(dot);
    SingleLineConcat(pre, stamp);
    SingleLineConcat(pre + stamp, dash);
    SingleLineConcat(pre + stamp + dash, suffix);
    SingleLineConcat(pre + stamp + dash + suffix, dash);
    SingleLineConcat(pre + stamp + dash + suffix + dash, base);
    SingleLineConcat(pre + stamp + dash + suffix + dash + base, dot);
    SingleLineConcat(pre + stamp + dash + suffix + dash + base + dot, ext);
  }

  /** An avatar key is single-line when the user id, the file name and the suffix are. */
  lemma AvatarKeySingleLine(userId: string, fileName: string, timestamp: nat, randomSuffix: string)
    requires SingleLine(userId) && SingleLine(fileName) && SingleLine(randomSuffix)
    ensures SingleLine(AvatarKey(userId, fileName, timestamp, randomSuffix))
  {
    var folder, slash := "avatars/", "/";
    assert SingleLine(folder) && SingleLine(slash);
    SingleLineConcat(folder, userId);
    SingleLineConcat(folder + userId, slash);
    KeyPartsSingleLine(fileName, timestamp);
    KeyJoinSingleLine(AvatarKeyPrefix(userId), DecimalString(timestamp), randomSuffix,
      S3Utils.BaseName(fileName), S3Utils.Extension(fileName));
  }

  /**
   * The URL uploadAvatar stores for a user is taken apart by deleteAvatar
   * into the very key that was uploaded, provided the bucket name has no '.',
   * the inputs are single-line and the URL does not contain "googleusercontent.com".
   */
  lemma UploadedAvatarDeletable(bucket: string, userId: string, fileName: string, timestamp: nat, randomSuffix: string)
    requires bucket != "" && '.' !in bucket
    requires SingleLine(userId) && SingleLine(fileName) && SingleLine(randomSuffix)
    requires var key := AvatarKey(userId, fileName, timestamp, randomSuffix);
      !Contains(S3Utils.UploadToS3Result(bucket, key).url, GOOGLE_AVATAR_HOST)
    ensures var key := AvatarKey(userId, fileName, timestamp, randomSuffix);
      ClassifyAvatarUrl(S3Utils.UploadToS3Result(bucket, key).url) == S3Avatar(key)
  {
    var key := AvatarKey(userId, fileName, timestamp, randomSuffix);
    AvatarKeySingleLine(userId, fileName, timestamp, randomSuffix);
    S3Utils.UploadUrlIsPublicUrl(bucket, key);
    ClassifyPublicUrl(bucket, key);
  }

  /** The key of a file `stem.ext` whose stem is letters and digits only ends in `stem.ext` itself. */
  lemma AlnumFileKey(userId: string, stem: string, ext: string, timestamp: nat, randomSuffix: string)
    requires forall i :: 0 <= i < |stem| ==> IsAsciiAlnum(stem[i])
    requires ext != "" && '.' !in ext && '/' !in ext
    ensures var key := AvatarKey(userId, stem + "." + ext, timestamp, randomSuffix);
      |stem + "." + ext| <= |key| && key[|key| - |stem + "." + ext|..] == stem + "." + ext
  {
    var name := stem + "." + ext;
    S3Utils.ExtensionSpec(stem, ext);
    S3Utils.StripExtensionSpec(stem, ext);
    S3Utils.SanitizeAlnum(stem);
    var head := AvatarKeyPrefix(userId) + DecimalString(timestamp) + "-" + randomSuffix + "-";
    var key := AvatarKey(userId, name, timestamp, randomSuffix);
    assert key == head + S3Utils.BaseName(name) + "." + S3Utils.Extension(name);
    assert key == head + name;
  }

  /** A string contains whatever one of its suffixes contains. */
  lemma ContainsInSuffix(s: string, t: string, sub: string)
    requires |t| <= |s| && s[|s| - |t|..] == t
    requires Contains(t, sub)
    ensures Contains(s, sub)
  {
    ContainsIff(t, sub);
    var i :| OccursAt(t, sub, i);
    assert s[|s| - |t| + i..|s| - |t| + i + |sub|] == t[i..i + |sub|];
    assert OccursAt(s, sub, |s| - |t| + i);
    ContainsIff(s, sub);
  }

  /**
   * The Google test looks at the whole URL: when the name of an uploaded file
   * `stem.ext` (stem of letters and digits) contains "googleusercontent.com",
   * the object's URL is taken for a Google avatar, so deleteAvatar would
   * reset the image without ever deleting the object.
   */
  lemma GoogleLookalikeUpload(bucket: string, userId: string, stem: string, ext: string, timestamp: nat, randomSuffix: string)
    requires forall i :: 0 <= i < |stem| ==> IsAsciiAlnum(stem[i])
    requires ext != "" && '.' !in ext && '/' !in ext
    requires Contains(stem + "." + ext, GOOGLE_AVATAR_HOST)
    ensures var key := AvatarKey(userId, stem + "." + ext, timestamp, randomSuffix);
      ClassifyAvatarUrl(S3Utils.PublicUrl(bucket, key)) == GoogleAvatar
  {
    AlnumFileKey(userId, stem, ext, timestamp, randomSuffix);
    var key := AvatarKey(userId, stem + "." + ext, timestamp, randomSuffix);
    ContainsInSuffix(key, stem + "." + ext, GOOGLE_AVATAR_HOST);
    ContainsInSuffix(S3Utils.PublicUrl(bucket, key), key, GOOGLE_AVATAR_HOST);
  }

  /** The file name "googleusercontent.com" meets the conditions above. */
  lemma GoogleHostIsLookalikeName(stem: string, ext: string)
    requires stem == "googleusercontent" && ext == "com"
    ensures forall i :: 0 <= i < |stem| ==> IsAsciiAlnum(stem[i])
    ensures ext != "" && '.' !in ext && '/' !in ext
    ensures Contains(stem + "." + ext, GOOGLE_AVATAR_HOST)
  {
    assert OccursAt(stem + "." + ext, GOOGLE_AVATAR_HOST, 0);
    ContainsIff(stem + "." + ext, GOOGLE_AVATAR_HOST);
  }

  /** An outside effect of the service, in the order it happens. */
  datatype Effect = PutObject(key: string) | DeleteObject(key: string) | SetImage(userId: string, image: Option<string>)

  /** What uploadAvatar returns on success. */
  datatype AvatarUploaded = AvatarUploaded(avatarUrl: string, key: string, user: Option<User>)

  /** What deleteAvatar returns on success; `deletedKey` only in the S3 case. */
  datatype AvatarDeleted =
    | GoogleAvatarRemoved(user: Option<User>)
    | S3AvatarDeleted(user: Option<User>, deletedKey: string)

  const UPDATE_FAILED := "Failed to update user"
  const CREATE_FAILED := "Failed to create user"
  const UPLOAD_FAILED := "Failed to upload avatar"
  const DELETE_FAILED := "Failed to delete avatar"

  /**
   * UsersService over an abstract users table (id to row) and the log of
   * its effects on S3 and on the image column. Whether a database or S3
   * call fails is passed in by the caller.
   */
  class UsersService {
    const bucket: string
    var users: map<string, User>
    var effects: seq<Effect>

    /** Every row is stored under its own id, and emails are unique. */
    ghost predicate Valid()
      reads this
    {
      (forall id :: id in users ==> users[id].id == id) && UniqueEmails(users)
    }

    constructor (bucket: string, users: map<string, User>)
      requires forall id :: id in users ==> users[id].id == id
      requires UniqueEmails(users)
      ensures this.bucket == bucket && this.users == users && effects == []
      ensures Valid()
    {
      this.bucket := bucket;
      this.users := users;
      effects := [];
    }

    /**
     * updateUser(id, { image }): on success the row with that id, if any,
     * gets the new image and is returned; a failure becomes
     * INTERNAL_SERVER_ERROR "Failed to update user" and changes nothing.
     */
    method UpdateUserImage(id: string, image: Option<string>, fails: bool) returns (r: Result<Option<User>, TrpcError>)
      requires Valid()
      modifies this
      ensures Valid()
      ensures fails ==> r == Failure(TrpcError(InternalServerError, UPDATE_FAILED))
      ensures fails ==> users == old(users) && effects == old(effects)
      ensures !fails ==> r == Success(UpdatedRow(old(users), id, image))
      ensures !fails ==> users == WithImage(old(users), id, image) && effects == old(effects) + [SetImage(id, image)]
    {
      if fails {
        r := Failure(Rethrow(OtherThrown, UPDATE_FAILED));
      } else {
        WithImageKeepsEmailsUnique(users, id, image);
        r := Success(UpdatedRow(users, id, image));
        users := WithImage(users, id, image);
        effects := effects + [SetImage(id, image)];
      }
    }

    /**
     * createUser: an email already in the table is rejected with BAD_REQUEST
     * "Email already in use"; a failing select or insert becomes
     * INTERNAL_SERVER_ERROR "Failed to create user"; otherwise the new row
     * (under the id the database assigns) is added without an image.
     */
    method CreateUser(name: string, email: string, newId: string, selectFails: bool, insertFails: bool)
      returns (r: Result<User, TrpcError>)
      requires Valid()
      requires newId !in users
      modifies this
      ensures Valid()
      ensures effects == old(effects)
      ensures selectFails ==> r == Failure(TrpcError(InternalServerError, CREATE_FAILED))
      ensures !selectFails && EmailInUse(old(users), email) ==> r == Failure(TrpcError(BadRequest, "Email already in use"))
      ensures !selectFails && !EmailInUse(old(users), email) && insertFails ==> r == Failure(TrpcError(InternalServerError, CREATE_FAILED))
      ensures r.Failure? ==> users == old(users)
      ensures r.Success? <==> !selectFails && !EmailInUse(old(users), email) && !insertFails
      ensures r.Success? ==> r.value == User(newId, name, email, None) && users == old(users)[newId := r.value]
    {
      var outcome: Result<User, Thrown>;
      if selectFails {
        outcome := Failure(OtherThrown);
      } else if EmailInUse(users, email) {
        outcome := Failure(TrpcThrown(TrpcError(BadRequest, "Email already in use")));
      } else if insertFails {
        outcome := Failure(OtherThrown);
      } else {
        var u := User(newId, name, email, None);
        InsertKeepsEmailsUnique(users, u);
        users := users[newId := u];
        outcome := Success(u);
      }
      match outcome
      case Success(u) => r := Success(u);
      case Failure(e) => r := Failure(Rethrow(e, CREATE_FAILED));
    }

    /**
     * uploadAvatar: the content type and size are checked first; then the
     * object is put under the generated key, and the user's image is set to
     * its public URL. A failing upload is INTERNAL_SERVER_ERROR "Failed to
     * upload avatar"; a failing update keeps its own error, with the object
     * already uploaded.
     */
    method UploadAvatar(userId: string, fileName: string, contentType: string, size: nat,
                        timestamp: nat, randomSuffix: string, uploadFails: bool, updateFails: bool)
      returns (r: Result<AvatarUploaded, TrpcError>)
      requires Valid()
      modifies this
      ensures Valid()
      ensures CheckAvatarUpload(contentType, size).Some? ==>
        r == Failure(CheckAvatarUpload(contentType, size).value) && users == old(users) && effects == old(effects)
      ensures CheckAvatarUpload(contentType, size).None? && uploadFails ==>
        r == Failure(TrpcError(InternalServerError, UPLOAD_FAILED)) && users == old(users) && effects == old(effects)
      ensures CheckAvatarUpload(contentType, size).None? && !uploadFails && updateFails ==>
        var key := AvatarKey(userId, fileName, timestamp, randomSuffix);
        r == Failure(TrpcError(InternalServerError, UPDATE_FAILED))
        && users == old(users) && effects == old(effects) + [PutObject(key)]
      ensures CheckAvatarUpload(contentType, size).None? && !uploadFails && !updateFails ==>
        var key := AvatarKey(userId, fileName, timestamp, randomSuffix);
        var url := S3Utils.PublicUrl(bucket, key);
        r == Success(AvatarUploaded(url, key, UpdatedRow(old(users), userId, Some(url))))
        && users == WithImage(old(users), userId, Some(url))
        && effects == old(effects) + [PutObject(key), SetImage(userId, Some(url))]
    {
      match CheckAvatarUpload(contentType, size)
      case Some(e) =>
        r := Failure(Rethrow(TrpcThrown(e), UPLOAD_FAILED));
      case None =>
        var key := AvatarKey(userId, fileName, timestamp, randomSuffix);
        if uploadFails {
          r := Failure(Rethrow(OtherThrown, UPLOAD_FAILED));
        } else {
          effects := effects + [PutObject(key)];
          var result := S3Utils.UploadToS3Result(bucket, key);
          S3Utils.UploadUrlIsPublicUrl(bucket, key);
          var updated := UpdateUserImage(userId, Some(result.url), updateFails);
          match updated {
            case Failure(e) => r := Failure(Rethrow(TrpcThrown(e), UPLOAD_FAILED));
            case Success(u) => r := Success(AvatarUploaded(result.url, result.key, u));
          }
        }
    }

    /**
     * deleteAvatar: a Google avatar only has the user's image reset; an S3
     * avatar has its object deleted first and then the image reset; a URL of
     * neither kind is BAD_REQUEST "Invalid S3 avatar URL format". A failing
     * delete is INTERNAL_SERVER_ERROR "Failed to delete avatar"; a failing
     * update keeps its own error.
     */
    method DeleteAvatar(userId: string, avatarUrl: string, deleteFails: bool, updateFails: bool)
      returns (r: Result<AvatarDeleted, TrpcError>)
      requires Valid()
      modifies this
      ensures Valid()
      ensures ClassifyAvatarUrl(avatarUrl) == GoogleAvatar ==>
        && (updateFails ==> r == Failure(TrpcError(InternalServerError, UPDATE_FAILED)) && users == old(users) && effects == old(effects))
        && (!updateFails ==>
              r == Success(GoogleAvatarRemoved(UpdatedRow(old(users), userId, None)))
              && users == WithImage(old(users), userId, None)
              && effects == old(effects) + [SetImage(userId, None)])
      ensures ClassifyAvatarUrl(avatarUrl) == InvalidAvatarUrl ==>
        r == Failure(TrpcError(BadRequest, "Invalid S3 avatar URL format")) && users == old(users) && effects == old(effects)
      ensures ClassifyAvatarUrl(avatarUrl).S3Avatar? ==>
        var key := ClassifyAvatarUrl(avatarUrl).key;
        && (deleteFails ==> r == Failure(TrpcError(InternalServerError, DELETE_FAILED)) && users == old(users) && effects == old(effects))
        && (!deleteFails && updateFails ==>
              r == Failure(TrpcError(InternalServerError, UPDATE_FAILED))
              && users == old(users) && effects == old(effects) + [DeleteObject(key)])
        && (!deleteFails && !updateFails ==>
              r == Success(S3AvatarDeleted(UpdatedRow(old(users), userId, None), key))
              && users == WithImage(old(users), userId, None)
              && effects == old(effects) + [DeleteObject(key), SetImage(userId, None)])
    {
      match ClassifyAvatarUrl(avatarUrl)
      case GoogleAvatar =>
        var updated := UpdateUserImage(userId, None, updateFails);
        match updated {
          case Failure(e) => r := Failure(Rethrow(TrpcThrown(e), DELETE_FAILED));
          case Success(u) => r := Success(GoogleAvatarRemoved(u));
        }
      case InvalidAvatarUrl =>
        r := Failure(Rethrow(TrpcThrown(TrpcError(BadRequest, "Invalid S3 avatar URL format")), DELETE_FAILED));
      case S3Avatar(key) =>
        if deleteFails {
          r := Failure(Rethrow(OtherThrown, DELETE_FAILED));
        } else {
          effects := effects + [DeleteObject(key)];
          var updated := UpdateUserImage(userId, None, updateFails);
          match updated {
            case Failure(e) => r := Failure(Rethrow(TrpcThrown(e), DELETE_FAILED));
            case Success(u) => r := Success(S3AvatarDeleted(u, key));
          }
        }
    }
  }
}
