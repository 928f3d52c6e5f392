# Drive-clone core in Dafny

The application is a Next.js "drive" clone. This project models the parts of it that are self-contained logic, and proves properties of them:

- **Password records.** Two implementations live in `src/utils/webcrypto.ts` (PBKDF2) and `src/utils/argon.ts` (scrypt). `hashPassword` stores `hex(salt) ":" hex(key)` with a 16-byte salt and a 64-byte key. `verifyPassword` parses that record, re-derives the key and compares.
  - In the model the key-derivation function is a parameter: a deterministic function from password bytes and salt bytes to a 64-byte key, or to nothing when the primitive throws. The salt is an input.
  - The two files decode hex differently, and the model keeps both decoders:
    - webcrypto's regex scan skips any character that is not part of a hex pair, then compares hex *text*.
    - Node's `Buffer.from(hex, "hex")` stops at the first bad pair, then compares *bytes*.
- **S3 keys and URLs** (`src/lib/s3-utils.ts`). `generateUniqueKey` builds a key from the file name. The timestamp and the random suffix are inputs. `getPublicUrl` and the URL returned by `uploadToS3` are also modelled.
- **The users service** (`src/trpc/users/users.service.ts`). This is a class over an abstract users table (a map from id to row) plus a log of its outside effects: S3 puts, S3 deletes and image updates. It covers:
  - `createUser` with its duplicate-email check;
  - `uploadAvatar` with its content-type and 5 MiB checks;
  - `deleteAvatar` with its Google/S3 URL classification and its regex key extraction;
  - the shared `updateUser` call and the error wrapping of every `catch`.

  Whether a database or S3 call fails is an input of each method.
- **The file browser's selection state** (`src/components/file-browser.tsx`). This is a class with two lists, `items` and `selectedItems`. They are updated by toggle, select-all, delete and `handleAction`, and the header checkbox reads them.
- **Small decisions and validations:**
  - the login/signup redirect in `src/middleware.ts`;
  - the procedure guards in `src/trpc/trpc.ts`, as a chain of middlewares;
  - the initials helpers of `src/components/header.tsx` and `src/components/avatar-upload.tsx`;
  - the avatar picker's file checks and its preview/upload state;
  - the zod form schemas in `src/app-zod-schemas/auth.ts`.

Shared string machinery lives in `strings.dfy`. It includes JavaScript's `split` with its exact edge cases (`"".split(":")` is `[""]`), `includes`, ASCII upper-casing and decimal rendering. `wrappers.dfy` holds `Option` and `Result`.

## Model

| member | source | states |
|---|---|---|
| Strings.Split | src/lib/s3-utils.ts:200 | `split` on one character gives at least one piece, and no piece holds the separator |
| Strings.SplitAround | src/lib/s3-utils.ts:200 | splitting around one separator occurrence concatenates the pieces of both sides |
| Strings.JoinSplit | src/utils/webcrypto.ts:110 | joining the pieces of a split with the separator gives the text back |
| Strings.SplitJoin | src/utils/webcrypto.ts:110 | splitting the join of separator-free pieces gives the pieces back |
| Strings.SplitLast | src/lib/s3-utils.ts:200 | the last piece is the text after the last separator, and there is one piece exactly when there is no separator |
| Strings.ContainsIff | src/trpc/users/users.service.ts:215 | `includes` holds exactly when the text occurs at some index |
| Strings.DecimalString | src/lib/s3-utils.ts:205 | the decimal rendering of the timestamp is a non-empty run of digits |
| Strings.DecimalRoundTrip | src/lib/s3-utils.ts:205 | the decimal rendering reads back as the number |
| Strings.ToUpperAscii | src/components/header.tsx:27 | upper-casing keeps the length and maps each a-z to A-Z, leaving every other character |
| Passwords.ByteToHex | src/utils/webcrypto.ts:41 | a byte becomes two lowercase hex digits that read back as the byte |
| Passwords.BufferToHex | src/utils/webcrypto.ts:39-43 | exactly two lowercase hex characters per byte |
| Passwords.RecordIsWellFormed | src/utils/webcrypto.ts:90 | the record is 32 hex digits, ':', 128 hex digits, and starts with the salt's hex |
| Passwords.ParseRecord | src/utils/webcrypto.ts:110-115 | a parsed record gives two non-empty, colon-free fields that are the record's first two |
| Passwords.ParseRecordFields | src/utils/argon.ts:71-76 | the fields parse from `a ":" b` followed by nothing or by ':'; an empty field gives none |
| Passwords.NoColonIsMalformed | src/utils/argon.ts:71-76 | a record without ':' does not parse |
| WebCrypto.HexToBuffer | src/utils/webcrypto.ts:51-54 | the global `[\da-f]{2}` scan yields at most one byte per two characters |
| WebCrypto.HexRoundTrip | src/utils/webcrypto.ts:39-54 | decoding the encoding of any bytes gives them back |
| WebCrypto.HexUppercaseRoundTrip | src/utils/webcrypto.ts:52 | the scan is case-insensitive, so upper-cased hex decodes to the same bytes |
| WebCrypto.HexInjective | src/utils/webcrypto.ts:90 | equal encodings come from equal bytes |
| WebCrypto.CanonicalHexRoundTrip | src/utils/webcrypto.ts:39-54 | lowercase hex text of even length is the encoding of what it decodes to |
| WebCrypto.HashPassword | src/utils/webcrypto.ts:62-95 | it fails exactly when derivation fails, with "Password hashing failed"; otherwise it gives a well-formed record headed by the salt's hex |
| WebCrypto.VerifyPassword | src/utils/webcrypto.ts:104-151 | a malformed record gives false; true means the derivation succeeded and the hash part decodes to the re-derived key (VerifyIff states the exact condition) |
| WebCrypto.VerifyIff | src/utils/webcrypto.ts:104-151 | it is true exactly when the record parses, derivation succeeds, and the hash part is 128 lowercase hex digits decoding to the re-derived key |
| WebCrypto.VerifyHashed | src/utils/webcrypto.ts:62-95 | round trip: a record made for a password verifies against it |
| WebCrypto.OtherPasswordRejected | src/utils/webcrypto.ts:118-147 | a password with a different derived key does not verify |
| WebCrypto.DistinctSaltsDistinctRecords | src/utils/webcrypto.ts:90 | different salts give different records |
| WebCrypto.MalformedNeverVerifies | src/utils/webcrypto.ts:110-115 | no ':', an empty salt part or an empty hash part gives false |
| WebCrypto.ExtraFieldsIgnored | src/utils/webcrypto.ts:110 | text after a second ':' does not change the result |
| WebCrypto.VerifiedHashIsLowercaseHex | src/utils/webcrypto.ts:147 | a verifying hash part is 128 lowercase hex digits |
| WebCrypto.UppercaseHashRejected | src/utils/webcrypto.ts:147 | an upper-cased hash part fails whenever upper-casing changes it |
| Argon.NodeHexDecode | src/utils/argon.ts:79 | Node's hex decoder yields at most one byte per two characters |
| Argon.NodeHexRoundTrip | src/utils/argon.ts:79-85 | the encoding of any bytes, followed by anything not starting with a hex pair, decodes to those bytes |
| Argon.NodeHexUppercaseRoundTrip | src/utils/argon.ts:85 | upper-cased hex decodes to the same bytes |
| Argon.TimingSafeEqual | src/utils/argon.ts:88 | it throws (none) exactly on a length mismatch; otherwise it is byte-for-byte equality |
| Argon.HashPassword | src/utils/argon.ts:41-56 | it fails exactly when scrypt fails, with "Password hashing failed"; otherwise it gives a well-formed record headed by the salt's hex |
| Argon.VerifyPassword | src/utils/argon.ts:65-93 | a malformed record gives false; true means the derivation succeeded and the decoded hash part is the re-derived key (VerifyIff states the exact condition) |
| Argon.VerifyIff | src/utils/argon.ts:65-93 | it is true exactly when the record parses, derivation succeeds, and the decoded hash part equals the re-derived key |
| Argon.WrongKeyLengthRejected | src/utils/argon.ts:85-92 | a hash part not decoding to 64 bytes gives false |
| Argon.VerifyHashed | src/utils/argon.ts:41-88 | round trip: a record made for a password verifies against it |
| Argon.OtherPasswordRejected | src/utils/argon.ts:82-88 | a password with a different derived key does not verify |
| Argon.LenientHashPartAccepted | src/utils/argon.ts:85-88 | an upper-cased hash part, or one with non-hex text appended, still verifies |
| S3Utils.PublicUrl | src/lib/s3-utils.ts:213-215 | the URL is "https://" + bucket + ".s3.amazonaws.com/" + key, and ends with the key |
| S3Utils.UploadToS3Result | src/lib/s3-utils.ts:39-44 | the result reports success and the key it was given; UploadUrlIsPublicUrl states its URL |
| S3Utils.UploadUrlIsPublicUrl | src/lib/s3-utils.ts:43 | the URL `uploadToS3` returns is the public URL of the key |
| S3Utils.Extension | src/lib/s3-utils.ts:200 | the extension has no '.', is the whole name when there is no '.', and otherwise is the text after the last '.' |
| S3Utils.ExtensionSpec | src/lib/s3-utils.ts:200 | the extension of `b.e` is `e` when `e` has no '.' |
| S3Utils.ExtensionMatch | src/lib/s3-utils.ts:202 | `/\.[^/.]+$/` matches at most at one index, and a found index is a match |
| S3Utils.StripExtension | src/lib/s3-utils.ts:202 | the result is a prefix of the name; it is the whole name exactly when `/\.[^/.]+$/` matches nowhere, and otherwise the name is cut where the pattern matches |
| S3Utils.StripExtensionSpec | src/lib/s3-utils.ts:202 | `b.e` loses `.e` exactly when `e` is non-empty and has no '/' |
| S3Utils.StripWithoutDot | src/lib/s3-utils.ts:202 | a name without '.' is kept whole |
| S3Utils.Sanitize | src/lib/s3-utils.ts:203 | each letter or digit is kept; every other character becomes '-' |
| S3Utils.SanitizeIdempotent | src/lib/s3-utils.ts:203 | sanitising twice is sanitising once |
| S3Utils.GenerateUniqueKey | src/lib/s3-utils.ts:197-206 | the key starts with the prefix |
| S3Utils.UniqueKeyFields | src/lib/s3-utils.ts:205 | after the prefix, the '-' fields give back the timestamp and the suffix, and the '.' fields give stem and extension |
| S3Utils.UniqueKeysDiffer | src/lib/s3-utils.ts:197-206 | keys made with different timestamps or suffixes differ |
| Users.Rethrow | src/trpc/users/users.service.ts:42-50 | no contract of its own; the `ensures` of UsersService.CreateUser, UploadAvatar, DeleteAvatar and UpdateUserImage state the error each catch produces |
| Users.InsertKeepsEmailsUnique | src/trpc/users/users.service.ts:20-39 | inserting a row whose email is unused keeps emails unique |
| Users.WithImageKeepsEmailsUnique | src/trpc/users/users.service.ts:98-104 | setting an image keeps emails unique |
| Users.WithImage | src/trpc/users/users.service.ts:98-104 | only the row with that id changes, and only its image |
| Users.CheckAvatarUpload | src/trpc/users/users.service.ts:144-160 | it passes exactly when the type starts with "image/" and the size is at most 5 MiB; the type check answers first; both errors are BAD_REQUEST |
| Users.AvatarSizeBoundary | src/trpc/users/users.service.ts:154-160 | exactly 5 MiB is accepted; one byte more is "File too large" |
| Users.AvatarKey | src/trpc/users/users.service.ts:163 | the avatar key starts with "avatars/" + userId + "/" |
| Users.MatchS3Url | src/trpc/users/users.service.ts:230-231 | the unanchored match is the leftmost one, and none means no index matches |
| Users.ExtractS3Key | src/trpc/users/users.service.ts:230-231 | no contract of its own; it is MatchS3Url from index 0, whose contract makes it the capture of the leftmost match in the whole URL |
| Users.ClassifyAvatarUrl | src/trpc/users/users.service.ts:215-240 | Google exactly when the URL contains "googleusercontent.com"; otherwise the non-empty capture is the key; no match or an empty capture is invalid |
| Users.NoSchemeNoKey | src/trpc/users/users.service.ts:230-238 | a URL without "https://" yields no key |
| Users.ExtractPublicUrlKey | src/trpc/users/users.service.ts:230-240 | round trip: for a dot-free bucket and a single-line key, the key extracted from the public URL is the key |
| Users.ClassifyPublicUrl | src/trpc/users/users.service.ts:215-240 | the public URL of a non-empty key is an S3 avatar with that key, unless it contains "googleusercontent.com" |
| Users.AvatarKeySingleLine | src/trpc/users/users.service.ts:163 | an avatar key has no line terminator when its inputs have none |
| Users.UploadedAvatarDeletable | src/trpc/users/users.service.ts:163-186 | the URL uploadAvatar stores is taken apart by deleteAvatar into the uploaded key |
| Users.GoogleLookalikeUpload | src/trpc/users/users.service.ts:215 | an S3 avatar whose file name contains "googleusercontent.com" is taken for a Google avatar |
| Users.GoogleHostIsLookalikeName | src/trpc/users/users.service.ts:215 | the file name "googleusercontent.com" is such a name |
| Users.UsersService.constructor | src/trpc/users/users.service.ts:13-15 | the service starts with the given table and no effects |
| Users.UsersService.UpdateUserImage | src/trpc/users/users.service.ts:98-113 | success sets the image of that row, if any, and returns it; failure is "Failed to update user" and changes nothing |
| Users.UsersService.CreateUser | src/trpc/users/users.service.ts:17-52 | a used email is BAD_REQUEST "Email already in use"; a failing select or insert is INTERNAL_SERVER_ERROR "Failed to create user"; otherwise exactly the new image-less row is added |
| Users.UsersService.UploadAvatar | src/trpc/users/users.service.ts:131-204 | a rejected input changes nothing; otherwise the put comes before the image update, the image becomes the public URL of the key, and each failure gives its message |
| Users.UsersService.DeleteAvatar | src/trpc/users/users.service.ts:206-267 | a Google avatar only resets the image; an S3 avatar is deleted before the reset and reported as `deletedKey`; an invalid URL is BAD_REQUEST and does nothing |
| FileBrowserState.Filter | src/components/file-browser.tsx:92-93 | `filter` keeps exactly the elements passing the test |
| FileBrowserState.FilterIsSubsequence | src/components/file-browser.tsx:92-93 | `filter` keeps relative order |
| FileBrowserState.FilterDistinct | src/components/file-browser.tsx:79 | filtering a duplicate-free list gives a duplicate-free list |
| FileBrowserState.ToSet | src/components/file-browser.tsx:142 | a duplicate-free list has as many distinct elements as its length |
| FileBrowserState.Ids | src/components/file-browser.tsx:87 | the ids of the items, in item order |
| FileBrowserState.Toggle | src/components/file-browser.tsx:77-81 | a selected id is removed wherever it occurs, leaving the rest in order; an unselected id is appended |
| FileBrowserState.ToggleTwice | src/components/file-browser.tsx:77-81 | toggling twice keeps the set of selected ids |
| FileBrowserState.ToggleTwiceExact | src/components/file-browser.tsx:77-81 | toggling an unselected id twice gives back the same list |
| FileBrowserState.SelectAll | src/components/file-browser.tsx:83-89 | when the header checkbox is checked the selection is cleared; otherwise every item's id is selected, in item order |
| FileBrowserState.SelectAllFlipsHeader | src/components/file-browser.tsx:83-89 | with items present, select-all flips the header checkbox |
| FileBrowserState.HeaderCheckedIff | src/components/file-browser.tsx:141-143 | in a valid state the header is checked exactly when there are items and all are selected |
| FileBrowserState.KeepItems | src/components/file-browser.tsx:92 | exactly the items whose id is not deleted remain, in order |
| FileBrowserState.Unselect | src/components/file-browser.tsx:93 | exactly the selected ids not deleted remain, in order |
| FileBrowserState.DeleteSelectionClearsIt | src/components/file-browser.tsx:273 | deleting the selection leaves nothing selected |
| FileBrowserState.ToggleKeepsValid | src/components/file-browser.tsx:77-81 | toggling a shown item keeps ids distinct and the selection among them |
| FileBrowserState.SelectAllKeepsValid | src/components/file-browser.tsx:83-89 | select-all keeps the state valid |
| FileBrowserState.DeleteKeepsValid | src/components/file-browser.tsx:91-93 | delete keeps the state valid; no deleted id is shown or selected |
| FileBrowserState.InitialStateValid | src/components/file-browser.tsx:27-74 | the mock items have distinct ids, and nothing is selected |
| FileBrowserState.FileBrowser.constructor | src/components/file-browser.tsx:73-74 | the state starts with the mock items and an empty selection |
| FileBrowserState.FileBrowser.IsHeaderChecked | src/components/file-browser.tsx:141-143 | in a valid state the checkbox is checked exactly when every item is selected and there are items |
| FileBrowserState.FileBrowser.ToggleItemSelection | src/components/file-browser.tsx:77-81 | the selection is toggled, the items are unchanged, and validity is kept for a shown id |
| FileBrowserState.FileBrowser.SelectAllItems | src/components/file-browser.tsx:83-89 | the selection becomes the select-all result and validity is kept |
| FileBrowserState.FileBrowser.DeleteItems | src/components/file-browser.tsx:91-97 | both lists lose the deleted ids and validity is kept |
| FileBrowserState.FileBrowser.HandleAction | src/components/file-browser.tsx:99-134 | "delete" is `deleteItems([id])`; every other action changes nothing |
| NameInitials.TakeTwo | src/components/header.tsx:28 | at most the first two characters |
| NameInitials.Initials | src/components/header.tsx:23-28 | no contract of its own; InitialsSpec, LeadingSpaceIgnored, DoubleSpaceIgnored and InitialsNonEmptyIff characterise it |
| NameInitials.FirstCharsAreWordStarts | src/components/header.tsx:24-26 | the first characters of the space-split pieces are exactly the characters that start words |
| NameInitials.InitialsSpec | src/components/header.tsx:23-28 | the initials are at most two upper-cased word starts |
| NameInitials.LeadingSpaceIgnored | src/components/header.tsx:24-26 | a leading space changes nothing |
| NameInitials.DoubleSpaceIgnored | src/components/header.tsx:24-26 | a doubled space counts as one |
| NameInitials.InitialsNonEmptyIff | src/components/avatar-upload.tsx:27-32 | there is an initial exactly when the name has a non-space character |
| Header.GetInitials | src/components/header.tsx:20-29 | a missing or empty name gives "U"; any other name gives its upper-cased word starts, at most two |
| Header.SpacesOnlyGiveNoInitials | src/components/header.tsx:21-28 | a name of spaces only passes the "U" guard and gives "" |
| Header.InitialsPresent | src/components/header.tsx:20-29 | a name with a non-space character gives one or two initials |
| Middleware.IsAuthenticated | src/middleware.ts:10-14 | no contract of its own; AnonymousNeverRedirected and SignedInAuthPageRedirected state what either cookie's presence decides |
| Middleware.Decide | src/middleware.ts:10-23 | no contract of its own; SignedInAuthPageRedirected, OtherPathPasses and AnonymousNeverRedirected state its decision |
| Middleware.Handle | src/middleware.ts:27-35 | paths outside the matcher pass through |
| Middleware.MatcherCoversRedirects | src/middleware.ts:17-35 | the matcher does not change the decision |
| Middleware.AnonymousNeverRedirected | src/middleware.ts:10-23 | a request with neither session cookie is never redirected |
| Middleware.SignedInAuthPageRedirected | src/middleware.ts:10-20 | a request with either session cookie, to "/login" or "/signup", is redirected to "/" |
| Middleware.OtherPathPasses | src/middleware.ts:17-23 | a request to any other path passes through, signed in or not |
| Trpc.RunGuard | src/trpc/trpc.ts:7-15 | the user guard throws "Unauthorized" exactly without a session user; the admin guard passes exactly for role "admin" and otherwise throws "Forbidden" |
| Trpc.RunChain | src/trpc/trpc.ts:6-15 | a chain passes exactly when every middleware in it passes |
| Trpc.Use | src/trpc/trpc.ts:7-15 | no contract of its own; RunChain and FirstThrowWins state what a chain built by `.use` does, AdminImpliesProtected what extending one does |
| Trpc.FirstThrowWins | src/trpc/trpc.ts:7-15 | a chain throws what its first throwing middleware throws |
| Trpc.PublicNeverRejects | src/trpc/trpc.ts:6 | publicProcedure never rejects |
| Trpc.ProtectedIff | src/trpc/trpc.ts:7-10 | protectedProcedure rejects with "Unauthorized" exactly without a session user |
| Trpc.AdminIff | src/trpc/trpc.ts:7-15 | without a user adminProcedure says "Unauthorized"; with one it passes exactly for "admin" and otherwise says "Forbidden" |
| Trpc.AdminImpliesProtected | src/trpc/trpc.ts:12 | what passes adminProcedure passes protectedProcedure |
| AvatarUpload.CheckFile | src/components/avatar-upload.tsx:40-53 | a non-image type is rejected before the size is looked at; an image over 5 MiB is too large |
| AvatarUpload.ClientMatchesServer | src/components/avatar-upload.tsx:40-53 | the client check and uploadAvatar's check accept the same files, with the same first reason |
| AvatarUpload.GetInitials | src/components/avatar-upload.tsx:26-33 | upper-cased word starts, at most two, and "" for the empty name |
| AvatarUpload.AvatarUploadState.constructor | src/components/avatar-upload.tsx:22-23 | the preview starts as the current avatar, not uploading |
| AvatarUpload.AvatarUploadState.HandleFileSelect | src/components/avatar-upload.tsx:35-73 | no file or a rejected file changes nothing; an accepted file starts a preview read and an upload timer and sets uploading |
| AvatarUpload.AvatarUploadState.PreviewLoaded | src/components/avatar-upload.tsx:57-60 | the preview becomes the data URL |
| AvatarUpload.AvatarUploadState.UploadFinished | src/components/avatar-upload.tsx:65-72 | the object URL is reported and uploading ends |
| AvatarUpload.AvatarUploadState.HandleRemoveAvatar | src/components/avatar-upload.tsx:75-84 | the preview is cleared and "" is reported |
| AuthSchemas.HasCharIn | src/app-zod-schemas/auth.ts:13-22 | a character-class regex matches exactly when some character is in the class |
| AuthSchemas.Issues | src/app-zod-schemas/auth.ts:10-22 | no issue exactly when every check passes |
| AuthSchemas.PasswordPolicy | src/app-zod-schemas/auth.ts:10-22 | a password passes exactly when it has 8 or more characters and an uppercase letter, a lowercase letter, a digit and a character that is not a letter or digit |
| AuthSchemas.StrongPassword | src/app-zod-schemas/auth.ts:10-22 | no contract of its own; the reference definition of the policy that PasswordPolicy ties to the check list |
| AuthSchemas.LoginPasswordSame | src/app-zod-schemas/auth.ts:10-22 | the login and signup password checks are the same |
| AuthSchemas.StrongExampleAccepted | src/app-zod-schemas/auth.ts:10-22 | "Str0ng!Pass" is accepted |
| AuthSchemas.ShortPasswordRejected | src/app-zod-schemas/auth.ts:10-12 | under 8 characters is rejected, with the length message first |
| AuthSchemas.NameRequired | src/app-zod-schemas/auth.ts:4-5 | a name field passes exactly when it is non-empty |
| AuthSchemas.EmailRequired | src/app-zod-schemas/auth.ts:6-9 | an email passes exactly when it is non-empty and an address |
| AuthSchemas.CreateUserIssues | src/app-zod-schemas/auth.ts:3-23 | no contract of its own; CreateUserAcceptedIff states when it is empty |
| AuthSchemas.LoginIssues | src/app-zod-schemas/auth.ts:27-45 | no contract of its own; LoginAcceptedIff states when it is empty |
| AuthSchemas.CreateUserAcceptedIff | src/app-zod-schemas/auth.ts:3-23 | the signup form passes exactly when both names are given, the email is an address and the password is strong |
| AuthSchemas.LoginAcceptedIff | src/app-zod-schemas/auth.ts:27-45 | the login form passes exactly when the email is an address and the password is strong |
| AuthSchemas.EmptyEmailIssues | src/app-zod-schemas/auth.ts:6-9 | an empty email reports "Email is required" and then "Invalid email address" |

Where the code and its description differ, the model follows the code:

- **createUser's insert.** It passes only `name` and `email`, although the users table declares a not-null password. The model therefore lets the insert fail through an input flag, and a successful insert adds a row with no image.
- **The two verifiers.** They are not interchangeable. webcrypto compares hex *text*, so a stored hash in upper case never verifies (`WebCrypto.UppercaseHashRejected`). argon compares decoded *bytes*, so an upper-cased hash part, or one with trailing non-hex text, still verifies (`Argon.LenientHashPartAccepted`).
- **The Google test.** deleteAvatar looks for "googleusercontent.com" anywhere in the URL. The S3 avatar of a file named "googleusercontent.com" therefore has its image reset, but its object is never deleted (`Users.GoogleLookalikeUpload`).

## Left out

- Key derivation: PBKDF2 (`crypto.subtle`), Node's `scrypt` and their cost parameters are a function parameter. The constant-time behaviour of `timingSafeEqual` is not modelled; it is byte equality that throws on a length mismatch.
- Randomness and clocks: `crypto.getRandomValues`, `randomBytes`, `Math.random` and `Date.now` are not modelled. The salt, the random suffix and the timestamp are inputs.
- Encodings: the TextEncoder step is not modelled, and the password is taken as bytes. The base64 decoding in uploadAvatar is not modelled either; the decoded size is an input.
- Strings are sequences of characters. JavaScript's UTF-16 code units are not modelled, so lengths in zod's `min` and `.length` count characters. Case mapping covers ASCII only.
- S3 SDK calls (put, get, delete, presign, head), `src/lib/s3.ts` and `src/lib/s3-examples.ts` are outside the model. A put or delete appears only as an entry in the service's effect log, and its failure is an input. The object body, content type, metadata and ETag are not modelled.
- uploadAvatar's `if (!result)` guard is not modelled: `uploadToS3` either returns an object or throws, so the guard never fires.
- The ORM is not modelled. The users table is a map from id to row, with only id, name, email and image. Drizzle's query semantics and the table schema are outside the model. JSON.stringify of the created user is also left out: the row itself is returned.
- `getUsers`, `getUserByEmail`, `getUserById` and `deleteUser` in users.service.ts are not modelled, because they are single ORM calls with a catch and outside the modelled core. `updateUser` is modelled only for the `image` column, which is all its callers here set.
- Logging (`logger.error`, `console.error`), toasts and all React rendering are not modelled.
- Zod's `.email()` check is a library regex, so it is a predicate parameter. Zod's parsing of non-string values is not modelled.
- The FileReader and the 1.5 s timer in avatar-upload.tsx are not modelled as real asynchrony. Their callbacks are separate methods, guarded by counters of pending reads and timers. `URL.createObjectURL` is not modelled; the object URL is an input.
- NextAuth configuration, sessions and cookies beyond the two cookie names the middleware reads are outside the model. The request URL used to build the redirect is not modelled; the redirect target is "/".
- users.router.ts is not modelled, because it repeats the service's validation. The schema files and the Argon2 parameter file are also left out.
- Users.ExtractPublicUrlKey: stated only for a bucket name without '.' and a key without line terminators. A dotted bucket or a multi-line key gives a different capture, and the model does not characterise that capture.
- S3Utils.UniqueKeysDiffer: stated for suffixes without '-' or '.'. That is true of the base-36 suffix the source generates, but not of arbitrary suffix inputs.
