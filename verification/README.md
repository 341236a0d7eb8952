# Email one-time-code login, modelled in Dafny

This project models the Firebase Cloud Functions in `functions/index.js` that implement an email
one-time-code login. There are two callables:

- `auth_requestCode` normalises an address and checks it against `emailRegex`. It draws a six-digit
  code and salts and hashes it. It then writes a fresh record under a document id derived from the
  address, replacing any earlier record, and mails the code.
- `auth_verifyCode` normalises the address and trims the submitted code. It then looks up the record
  and applies, in this fixed order: not found, expired (delete), attempts used up (delete), wrong
  code (count the attempt), right code (delete, then mint a custom token).

The modules are:

- `Wrappers`: `Option`.
- `Utf16`: JavaScript strings as sequences of UTF-16 code units, lone surrogates included. It also
  gives the code points a UTF-8 encoder reads from them, where a lone surrogate becomes U+FFFD.
- `Email`: `normalizeEmail`, with JavaScript's `trim` (the ECMAScript white-space and
  line-terminator set) and `toLowerCase`. Also `emailRegex`, as a predicate proved equal to a direct
  reading of the pattern. Both work on code units, as a regular expression without the `u` flag
  does.
- `Encoding`: the document id (UTF-8, then base64, then the URL-safe alphabet, then stripping
  trailing `=`), with decoders that prove exactly which addresses share a document. Also the hex
  spelling of random bytes.
- `Codes`: `generateCode` as a function of the random draw, the salt, and the `salt:code` string
  that is hashed.
- `Otc`: the records, the two callables as pure steps over the collection (`RequestStep` and
  `VerifyStep`), the invariant every record keeps, and the class `CodeCollection`. The class holds
  the `authMagicCodes` collection as a `map` field, and its methods update it in place. Each method
  is proved equal to the pure step.
- `OtcProperties`: what the callables promise, one branch at a time and over whole conversations:
  - request, then verify;
  - a replay;
  - expiry;
  - a second request;
  - five wrong codes and the lock-out that follows.

Outside code is replaced by parameters:

- SHA-256 with its hex digest is an arbitrary function from bytes to text, fixed for the
  collection. `hashCode` feeds it the UTF-8 bytes of `${salt}:${code}`. Properties that need it
  to be collision-free say so in their `requires`.
- `Date.now()` is a parameter `now`.
- `crypto.randomInt(0, 1_000_000)` is a parameter `draw` in `[0, 1000000)`.
- `crypto.randomBytes(16)` is a parameter `random`.
- The outcome of `sendLoginEmail` is a `MailOutcome` parameter.
- The custom token that Firebase Auth mints is a parameter `token`.

Two behaviours of the code are easy to misread, and the model keeps both as written:

- The attempt check (functions/index.js:177-180) runs before the hash comparison. So the fifth
  wrong code is still refused with permission-denied, and it raises the count to 5. Only the next
  call fails with resource-exhausted, whatever its code, and it deletes the record.
  `LockoutAfterFiveWrongCodes` states exactly this.
- The expiry test (functions/index.js:172) is `data.expiresAt && data.expiresAt < now`. A record
  whose `expiresAt` is 0 is therefore never expired. `Otc.Expired` keeps that truthiness test.

## Model

| member | source | states |
|---|---|---|
| Utf16.Scalars | functions/index.js:104 | how `Buffer.from(s, 'utf8')` reads a JavaScript string. The body defines the cases: a surrogate pair is one code point and a lone surrogate is U+FFFD. The contract states that there are never more code points than units |
| Utf16.Utf16OfScalars | functions/index.js:104 | a string without lone surrogates is recovered from its code points |
| Utf16.ScalarsInjective | functions/index.js:104 | two strings without lone surrogates have the same code points exactly when they are equal |
| Utf16.NoSurrogateWellFormed | functions/index.js:116 | a string with no surrogate unit at all, such as the hashed text, has no lone surrogate |
| Utf16.LoneSurrogateReadsAsReplacement | functions/index.js:104 | a lone high surrogate and U+FFFD, followed by the same text that does not start with a low surrogate, are different strings with the same code points |
| Email.TrimStart | functions/index.js:100 | the result is a suffix of the input; what was dropped is all white space; the result does not start with white space |
| Email.TrimEnd | functions/index.js:100 | the result is a prefix of the input; what was dropped is all white space; the result does not end with white space |
| Email.Trim | functions/index.js:100 | `trim()`: the result has no white space at either end and is the input with only white-space margins removed |
| Email.Normalize | functions/index.js:98-101 | a non-string address gives ""; a string gives the lower-cased input with only white-space margins removed, which has no outer white space and no upper-case letter |
| Email.ToLower | functions/index.js:100 | definition: the ASCII lower-casing that stands for `toLowerCase()` maps `A`-`Z` to `a`-`z` unit by unit and keeps every other unit |
| Email.LowerKeepsTrim | functions/index.js:100 | lower-casing keeps white space where it is, so lower-casing after trimming equals trimming the lower-cased string's margins |
| Email.ToLowerFacts | functions/index.js:100 | the ASCII lower-casing keeps the length, leaves no ASCII capital and does not add outer white space |
| Email.LowerWithoutUpper | functions/index.js:100 | lower-casing a string without upper-case letters changes nothing |
| Email.TrimNoOuterSpace | functions/index.js:100 | trimming a string without outer white space changes nothing |
| Email.NormalizeIdempotent | functions/index.js:98-101 | normalising a normalised address gives it back |
| Email.IsValidEmail | functions/index.js:30 | definition: the first `@` is not at the start, every other unit is neither white space nor `@`, and a `.` lies strictly inside the domain |
| Email.IsValidEmailMatchesRegex | functions/index.js:30 | the validity check accepts exactly the strings matching `^[^\s@]+@[^\s@]+\.[^\s@]+$` |
| Email.ValidEmailHasOneAt | functions/index.js:30 | a valid address has exactly one `@` |
| Encoding.Utf8Char | functions/index.js:104 | a character is encoded as one to four bytes |
| Encoding.Utf8CharRoundTrip | functions/index.js:104 | decoding the UTF-8 bytes of a character gives the character and the number of bytes it took |
| Encoding.Utf8 | functions/index.js:104 | definition: `Buffer.from(s, 'utf8')` is the UTF-8 encoding of the code points of `s`, a lone surrogate as U+FFFD |
| Encoding.EncodeUtf8RoundTrip | functions/index.js:104 | decoding the UTF-8 bytes of a sequence of code points gives it back |
| Encoding.Utf8RoundTrip | functions/index.js:104 | the bytes of `Buffer.from(s, 'utf8')` decode to the code points of `s`, for every JavaScript string |
| Encoding.Utf8Injective | functions/index.js:104 | two JavaScript strings have the same UTF-8 bytes exactly when they have the same code points |
| Encoding.Sextets | functions/index.js:105 | n bytes split into ceil(4n/3) six-bit groups |
| Encoding.Base64 | functions/index.js:105 | definition: `toString('base64')` spells each six-bit group in the standard alphabet, then adds the `=` padding |
| Encoding.ReplaceAll | functions/index.js:106-107 | definition: `replace(/x/g, y)` for one character replaces every `x` by `y` and keeps the rest |
| Encoding.Base64Url | functions/index.js:105-107 | the unpadded URL-safe base64 text has length ceil(4n/3) and uses only `A-Z a-z 0-9 - _` |
| Encoding.TranslatedBase64 | functions/index.js:105-107 | replacing `+` by `-` and `/` by `_` in standard base64 gives the URL-safe text followed by its `=` padding |
| Encoding.StripTrailing | functions/index.js:108 | `replace(/=+$/, '')`: the result is a prefix, does not end in `=`, and only `=` was removed |
| Encoding.StripTrailingRun | functions/index.js:108 | stripping a trailing run of `=` from text that does not end in `=` gives that text back |
| Encoding.StripPadding | functions/index.js:105-108 | stripping the padding leaves exactly the unpadded URL-safe text |
| Encoding.DocId | functions/index.js:103-109 | `docIdForEmail` is RFC 4648 unpadded base64url: length ceil(4n/3), URL-safe characters, no `=` |
| Encoding.JoinSextetsRoundTrip | functions/index.js:105 | regrouping the six-bit groups into bytes gives back the bytes |
| Encoding.Base64UrlRoundTrip | functions/index.js:103-109 | decoding the unpadded base64url text gives back the bytes |
| Encoding.DocIdInjective | functions/index.js:103-109 | distinct byte strings have distinct document ids |
| Encoding.Hex | functions/index.js:138 | `toString('hex')` gives two lower-case hex digits per byte, high half first, spelling that byte |
| Encoding.HexInjective | functions/index.js:138 | two byte strings have the same hex spelling exactly when they are equal |
| Codes.DecimalString | functions/index.js:112 | `toString()` of a non-negative number is all digits, without a leading zero unless it is "0" |
| Codes.NumberString | functions/index.js:159 | definition: `toString()` of an integer is its decimal digits, after a `-` when it is negative |
| Codes.ParseDecimalString | functions/index.js:112 | the decimal text reads back as the number |
| Codes.PadStart | functions/index.js:112 | `padStart(width, fill)`: the input ends the result, the rest is fill, and the length is the larger of width and input length |
| Codes.GenerateCode | functions/index.js:111-113 | the code is six digits that read back as the draw |
| Codes.GenerateCodeInjective | functions/index.js:111-113 | distinct draws give distinct codes |
| Codes.Salt | functions/index.js:138 | the salt has two hex digits per random byte (32 for 16 bytes) and holds no `:` |
| Codes.FirstColon | functions/index.js:116 | in `${salt}:${code}` the first `:` is the one after the salt |
| Codes.HashInput | functions/index.js:116 | definition: the hashed text is the salt, a `:`, then the code |
| Codes.HashInputInjective | functions/index.js:115-117 | the hashed string determines both the salt and the code |
| Otc.Key | functions/index.js:103-109 | definition: the document id of an address is `DocId` of its UTF-8 bytes |
| Otc.HashCode | functions/index.js:115-117 | definition: the digest of the UTF-8 bytes of `${salt}:${code}` |
| Otc.CodeText | functions/index.js:159 | definition: a missing code is "", a string is trimmed, a number is printed in decimal and then trimmed |
| Otc.NewRecord | functions/index.js:137-151 | definition: the record holds the address, the salt, the hash of the drawn code under that salt, `createdAt = now`, `expiresAt = now + 600000`, count 0 and no last attempt |
| Otc.Expired | functions/index.js:172 | definition: a record is expired when `expiresAt` is non-zero and below `now` |
| Otc.Failed | functions/index.js:184 | definition: a failed attempt adds 1 to the count and sets `lastAttemptAt` to `now` |
| Otc.RequestStep | functions/index.js:131-155 | definition: `auth_requestCode` normalises the address and continues with `RequestFor` |
| Otc.RequestFor | functions/index.js:133-154 | definition: an invalid address gives invalid-argument; otherwise the new record is written under the key and the reply follows the mail outcome |
| Otc.VerifyStep | functions/index.js:157-194 | definition: `auth_verifyCode` normalises the address, turns the code into trimmed text and continues with `VerifyFor` |
| Otc.VerifyFor | functions/index.js:161-166 | definition: an invalid address or a code that is not 6 units long gives invalid-argument; otherwise `VerifyAt` decides under the key |
| Otc.VerifyAt | functions/index.js:165-194 | definition: not found, then expired (delete), then attempts used up (delete), then wrong code (count it), then right code (delete and sign in) |
| Otc.RequestKeepsStoreOk | functions/index.js:137-151 | a request keeps every record well formed: 32-character salt, `expiresAt = createdAt + 600000`, count at most 5, `lastAttemptAt` set exactly when the count is positive |
| Otc.VerifyKeepsStoreOk | functions/index.js:157-194 | a verification keeps every record well formed; in particular no count ever passes `MAX_ATTEMPTS` |
| Otc.VerifyAtKeepsStoreOk | functions/index.js:165-188 | each of the record checks keeps every record well formed |
| Otc.CodeCollection.RequestCode | functions/index.js:131-155 | the method updates the collection in place and gives exactly the collection and reply of `RequestStep`, keeping the collection well formed |
| Otc.CodeCollection.VerifyCode | functions/index.js:157-163 | the method validates its input and gives exactly the collection and reply of `VerifyStep`, keeping the collection well formed |
| Otc.CodeCollection.VerifyStored | functions/index.js:165-194 | the record checks, applied in place in their fixed order, give exactly the collection and reply of `VerifyAt` |
| OtcProperties.RequestStepValidated | functions/index.js:132-153 | once the address is valid, a request writes the new record under the address's key, and the reply is the mail outcome |
| OtcProperties.VerifyStepValidated | functions/index.js:158-166 | once the address and the code are valid, a verification is decided by the record under the address's key |
| OtcProperties.RequestRejectsMalformedEmail | functions/index.js:132-135 | an address that fails the check is refused with invalid-argument and the collection is untouched |
| OtcProperties.RequestWritesFreshRecord | functions/index.js:137-151 | the record under the key has the normalised address, the salt, the salted hash of the drawn code, `createdAt = now`, `expiresAt = now + 600000`, count 0 and no last attempt; every other key is unchanged |
| OtcProperties.RequestReplyFollowsMail | functions/index.js:153-154 | after the write, the reply is success exactly when the mail is sent, and otherwise the mailer's error |
| OtcProperties.VerifyRejectsMalformedInput | functions/index.js:158-163 | an invalid address, or a trimmed code that is not 6 characters long, gives invalid-argument and leaves the collection untouched |
| OtcProperties.VerifyWithoutRecord | functions/index.js:165-167 | with no record, the reply is not-found and nothing changes |
| OtcProperties.VerifyExpiredRecord | functions/index.js:172-175 | an expired record is deleted with deadline-exceeded, whatever the code |
| OtcProperties.VerifyExhaustedRecord | functions/index.js:177-180 | a live record with 5 or more attempts is deleted with resource-exhausted, whatever the code |
| OtcProperties.VerifyWrongCode | functions/index.js:182-186 | a wrong code gives permission-denied, adds exactly 1 to the count and sets `lastAttemptAt = now`; the hash, salt, address and times stay, and so does every other record |
| OtcProperties.FailedAttemptStored | functions/index.js:184 | recording a failed attempt changes only the count and the last-attempt time of that one record |
| OtcProperties.VerifyRightCode | functions/index.js:182-194 | the right code on a live record with attempts left signs in with the minted token and deletes the record |
| OtcProperties.KeyInjective | functions/index.js:103-109 | two addresses share a document exactly when they have the same code points |
| OtcProperties.LoneSurrogateSharesKey | functions/index.js:103-109 | the distinct normalised valid addresses "\ud800@a.bc" and "\ufffd@a.bc" share a document |
| OtcProperties.OneUnitAddress | functions/index.js:30 | any plain unit that is not an ASCII capital, followed by "@a.bc", gives a normalised, valid address |
| OtcProperties.RequestLeavesOtherAddresses | functions/index.js:141-151 | a request leaves the record of every address with different code points as it was |
| OtcProperties.VerifyLeavesOtherAddresses | functions/index.js:165-188 | a verification leaves the record of every address with different code points as it was |
| OtcProperties.VerifyAtLeavesOtherKeys | functions/index.js:165-188 | the record checks touch no key but their own |
| OtcProperties.NormalisedAddressRequestsAlike | functions/index.js:132 | a request with an address and a request with its normalised form behave the same |
| OtcProperties.NormalisedAddressVerifiesAlike | functions/index.js:158 | a verification with an address and one with its normalised form behave the same |
| OtcProperties.IssuedCodeText | functions/index.js:159 | the issued code, sent back as text, passes the trim unchanged |
| OtcProperties.RightCodeOnce | functions/index.js:182-194 | the right code on a fresh live record signs in once; the same call again gives not-found |
| OtcProperties.LateCodeRefused | functions/index.js:172-175 | any well-formed code on an expired record is refused with deadline-exceeded and the record deleted |
| OtcProperties.IssuedCodeWorksOnce | functions/index.js:137-194 | after a request, the issued code signs in within ten minutes and the record is gone; a replay gives not-found |
| OtcProperties.IssuedCodeExpires | functions/index.js:172-175 | after the ten minutes, even the issued code gets deadline-exceeded and the record is deleted |
| OtcProperties.NewRequestSupersedesOld | functions/index.js:143-151 | after a second request, with a digest that is collision-free on bytes, the first code signs in exactly when both draws gave the same code, and is otherwise refused with permission-denied |
| OtcProperties.HashInputWellFormed | functions/index.js:115-117 | the hashed text of a digit code and a hex salt has no lone surrogate, so its UTF-8 bytes determine it |
| OtcProperties.VerifyAllValidated | functions/index.js:158-166 | once the address and every code are valid, a run of verifications is a run of record checks under the address's key |
| OtcProperties.WrongGuessAt | functions/index.js:182-186 | a wrong guess on a live record with attempts left stores the failed attempt and is refused with permission-denied |
| OtcProperties.WrongGuessesStayWrong | functions/index.js:184 | a failed attempt keeps the salt, the hash and the expiry, so wrong guesses stay wrong |
| OtcProperties.WrongGuessesCount | functions/index.js:177-186 | k wrong guesses, within the limit, raise the count by exactly k, set the last attempt to the last guess and touch no other record |
| OtcProperties.WrongGuessesDenied | functions/index.js:177-186 | each of those wrong guesses is refused with permission-denied |
| OtcProperties.WrongGuessesLockOut | functions/index.js:177-186 | five wrong guesses are all refused with permission-denied; the next live guess deletes the record with resource-exhausted |
| OtcProperties.WrongGuessesThenRight | functions/index.js:177-194 | fewer than five wrong guesses, then the right one, signs in and deletes the record |
| OtcProperties.LockoutAfterFiveWrongCodes | functions/index.js:177-186 | after a request, five wrong codes get permission-denied (the fifth too); the next call within the ten minutes, whatever its code, gets resource-exhausted and the record is deleted |
| OtcProperties.IssuedCodeWorksWithinLimit | functions/index.js:177-194 | after a request and fewer than five wrong codes, the issued code still signs in within ten minutes |
| OtcProperties.RightCodeWithinLimit | functions/index.js:177-194 | the same for any submitted code that trims to the issued one |

## Left out

- The mailer (functions/index.js:32-95) is left out: its configuration from environment variables, the nodemailer transport, its cached instance and the mail body. Only its three outcomes are modelled, as `MailOutcome`.
- SHA-256 is an arbitrary function, and `crypto.randomInt` and `crypto.randomBytes` are parameters. No property depends on the real digest other than through an explicit collision-freedom requirement.
- `ensureUser` and `createCustomToken` (functions/index.js:119-128, 190-191) are left out: the minted token is a parameter, and failures of Firebase Auth after the record is deleted are not modelled.
- `setGlobalOptions`, `admin.initializeApp` and logging are left out; none of them affects the collection or the replies.
- Firestore failures are left out: every `set`, `get`, `update` and `delete` is assumed to succeed. The swallowed `.catch(() => {})` on delete and update therefore never loses a write in the model.
- Concurrency is left out: the callables run one at a time, so `FieldValue.increment(1)` is an ordinary `+ 1`, and interleavings of concurrent calls for the same address are not modelled.
- `Email.ToLower` (and so `Email.Normalize`, `Email.ToLowerFacts` and `Otc.Key` of a normalised address): `toLowerCase` is modelled for ASCII letters only. Other Unicode case mappings are not modelled: `"É@a.bc"` lower-cases to `"é@a.bc"` in JavaScript, so the two share a document there, but not in the model. Mappings that change the length, such as U+0130 becoming two units, are not modelled either.
- `Otc.CodeText`: `request.data.code` is modelled as missing, a string or a safe integer (magnitude at most 2^53 - 1, `Email.SafeInteger`). Booleans, objects, fractions, `NaN`, the infinities and larger numbers are not modelled. So the exponent form `toString` gives from 1e21 on is not modelled either.
- `Email.Field`: a number sent as the address is a non-string and normalises to "", whatever its value; only safe integers are representable.
- `Otc.Expired`: `expiresAt` is an integer. JavaScript `NaN`, `null` or string values of a hand-edited record are not modelled.
- Firestore's treatment of a lone surrogate in the stored `email` field is not modelled: the record keeps the JavaScript string exactly as the callable built it.
- `Otc.StoreOk` does not relate a record's `email` field to the key it is stored under. Both callables keep that relation, but it is not stated.
- fix_imports.py is not part of this model; it is a repository maintenance script outside the login flow.
