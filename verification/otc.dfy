/**
 * The request/verify state machine of the email one-time-code login
 * (`auth_requestCode` and `auth_verifyCode` in functions/index.js).
 *
 * The Firestore collection `authMagicCodes` is a map from document id to
 * record, held by the class `CodeCollection`. SHA-256 is an arbitrary
 * function `sha256` fixed when the collection is created; the clock
 * (`Date.now()`), the random draws, the mail transport's outcome and the
 * custom token minted by Firebase Auth are parameters of the operations.
 */
module Otc {
  import opened Wrappers
  import opened Utf16
  import opened Email
  import opened Encoding
  import opened Codes

  /** Lifetime of a code, in seconds (`CODE_TTL_SECONDS`). */
  const CODE_TTL_SECONDS := 10 * 60
  /** Lifetime of a code in the store's unit, milliseconds. */
  const CODE_TTL_MS := CODE_TTL_SECONDS * 1000
  /** Failed attempts after which a record is discarded (`MAX_ATTEMPTS`). */
  const MAX_ATTEMPTS := 5
  /** Random bytes behind a salt. */
  const SALT_BYTES := 16

  /** A document of the collection. */
  datatype Record = Record(
    email: JsString,
    codeHash: string,
    salt: JsString,
    createdAt: int,
    expiresAt: int,
    attemptCount: nat,
    lastAttemptAt: Option<int>)

  /** The `HttpsError` codes the two callables raise. */
  datatype ErrorKind =
    | InvalidArgument
    | NotFound
    | DeadlineExceeded
    | ResourceExhausted
    | PermissionDenied
    | FailedPrecondition
    | Internal

  /** What `sendLoginEmail` does: send, find the transport unconfigured, or fail to send. */
  datatype MailOutcome = Sent | Unconfigured | SendFailed

  datatype RequestReply = CodeSent | RequestError(kind: ErrorKind)
  datatype VerifyReply = SignedIn(customToken: string) | VerifyError(kind: ErrorKind)

  type Store = map<string, Record>
  /** SHA-256 of a byte string, as the hex text of `digest('hex')`. */
  type Digest = seq<Byte> -> string

  datatype RequestResult = RequestResult(store: Store, reply: RequestReply)
  datatype VerifyResult = VerifyResult(store: Store, reply: VerifyReply)

  /** The document id of a normalised address. */
  function Key(email: JsString): string {
    DocId(Utf8(email))
  }

  /** `hashCode(code, salt)`: the digest of the UTF-8 bytes of `${salt}:${code}`. */
  function HashCode(sha256: Digest, code: JsString, salt: JsString): string {
    sha256(Utf8(HashInput(code, salt)))
  }

  /** `(request.data?.code ?? '').toString().trim()`. */
  function CodeText(code: Field): JsString {
    match code
    case Missing => []
    case Text(s) => Trim(s)
    case Number(n) => Trim(NumberString(n))
  }

  /** The reply of `auth_requestCode` once the record is written: what `sendLoginEmail` reports. */
  function MailReply(mail: MailOutcome): RequestReply {
    match mail
    case Sent => CodeSent
    case Unconfigured => RequestError(FailedPrecondition)
    case SendFailed => RequestError(Internal)
  }

  /** The record `auth_requestCode` writes. */
  function NewRecord(email: JsString, draw: int, random: seq<Byte>, now: int, sha256: Digest): Record
    requires 0 <= draw < CODE_RANGE
  {
    var salt := Salt(random);
    Record(email, HashCode(sha256, GenerateCode(draw), salt), salt, now, now + CODE_TTL_MS, 0, None)
  }

  /** Whether `auth_verifyCode` treats the record as expired at `now` (`expiresAt && expiresAt < now`). */
  predicate Expired(r: Record, now: int) {
    r.expiresAt != 0 && r.expiresAt < now
  }

  /** `auth_requestCode` as a function of the collection before the call. */
  function RequestStep(store: Store, email: Field, draw: int, random: seq<Byte>, now: int,
                       mail: MailOutcome, sha256: Digest): RequestResult
    requires 0 <= draw < CODE_RANGE
  {
    RequestFor(store, Normalize(email), draw, random, now, mail, sha256)
  }

  /** `auth_requestCode` from the normalised address on. */
  function RequestFor(store: Store, e: JsString, draw: int, random: seq<Byte>, now: int,
                      mail: MailOutcome, sha256: Digest): RequestResult
    requires 0 <= draw < CODE_RANGE
  {
    if !IsValidEmail(e) then RequestResult(store, RequestError(InvalidArgument))
    else RequestResult(store[Key(e) := NewRecord(e, draw, random, now, sha256)], MailReply(mail))
  }

  /** `auth_verifyCode` as a function of the collection before the call. */
  function VerifyStep(store: Store, email: Field, code: Field, now: int, token: string,
                      sha256: Digest): VerifyResult
  {
    VerifyFor(store, Normalize(email), CodeText(code), now, token, sha256)
  }

  /** `auth_verifyCode` from the normalised address and the trimmed code on. */
  function VerifyFor(store: Store, e: JsString, c: JsString, now: int, token: string,
                     sha256: Digest): VerifyResult
  {
    if !IsValidEmail(e) || |c| != CODE_LENGTH then VerifyResult(store, VerifyError(InvalidArgument))
    else VerifyAt(store, Key(e), c, now, token, sha256)
  }

  /** The store part of `auth_verifyCode`, once the address and the code passed validation. */
  function VerifyAt(store: Store, key: string, code: JsString, now: int, token: string,
                    sha256: Digest): VerifyResult
  {
    if key !in store then VerifyResult(store, VerifyError(NotFound))
    else
      var data := store[key];
      if Expired(data, now) then VerifyResult(store - {key}, VerifyError(DeadlineExceeded))
      else if data.attemptCount >= MAX_ATTEMPTS then VerifyResult(store - {key}, VerifyError(ResourceExhausted))
      else if HashCode(sha256, code, data.salt) != data.codeHash then
        VerifyResult(store[key := Failed(data, now)], VerifyError(PermissionDenied))
      else VerifyResult(store - {key}, SignedIn(token))
  }

  /** The record after a failed attempt (`attemptCount: increment(1), lastAttemptAt: now`). */
  function Failed(data: Record, now: int): Record {
    data.(attemptCount := data.attemptCount + 1, lastAttemptAt := Some(now))
  }

  /** What every document written by these two callables satisfies. */
  predicate RecordOk(r: Record) {
    && |r.salt| == 2 * SALT_BYTES && ':' as int !in r.salt
    && r.expiresAt == r.createdAt + CODE_TTL_MS
    && r.attemptCount <= MAX_ATTEMPTS
    && (r.lastAttemptAt == None <==> r.attemptCount == 0)
  }

  predicate StoreOk(store: Store) {
    forall key :: key in store ==> RecordOk(store[key])
  }

  lemma PutKeepsStoreOk(store: Store, key: string, r: Record)
    requires StoreOk(store) && RecordOk(r)
    ensures StoreOk(store[key := r])
  {
  }

  lemma RemoveKeepsStoreOk(store: Store, key: string)
    requires StoreOk(store)
    ensures StoreOk(store - {key})
  {
  }

  /** `auth_requestCode` keeps every document well formed. */
  lemma RequestKeepsStoreOk(store: Store, email: Field, draw: int, random: seq<Byte>, now: int,
                            mail: MailOutcome, sha256: Digest)
    requires 0 <= draw < CODE_RANGE && |random| == SALT_BYTES
    requires StoreOk(store)
    ensures StoreOk(RequestStep(store, email, draw, random, now, mail, sha256).store)
  {
    var e := Normalize(email);
    if IsValidEmail(e) {
      var r := NewRecord(e, draw, random, now, sha256);
      assert RecordOk(r);
      PutKeepsStoreOk(store, Key(e), r);
    }
  }

  /** `auth_verifyCode` keeps every document well formed; in particular no count passes `MAX_ATTEMPTS`. */
  lemma VerifyKeepsStoreOk(store: Store, email: Field, code: Field, now: int, token: string, sha256: Digest)
    requires StoreOk(store)
    ensures StoreOk(VerifyStep(store, email, code, now, token, sha256).store)
  {
    var e := Normalize(email);
    var c := CodeText(code);
    if IsValidEmail(e) && |c| == CODE_LENGTH {
      VerifyAtKeepsStoreOk(store, Key(e), c, now, token, sha256);
    }
  }

  lemma VerifyAtKeepsStoreOk(store: Store, key: string, code: JsString, now: int, token: string, sha256: Digest)
    requires StoreOk(store)
    ensures StoreOk(VerifyAt(store, key, code, now, token, sha256).store)
  {
    if key in store {
      var data := store[key];
      RemoveKeepsStoreOk(store, key);
      if !Expired(data, now) && data.attemptCount < MAX_ATTEMPTS {
        assert RecordOk(Failed(data, now));
        PutKeepsStoreOk(store, key, Failed(data, now));
      }
    }
  }

  /** The collection, updated in place by the two callables. */
  class CodeCollection {
    var docs: Store
    const sha256: Digest

    ghost predicate Valid()
      reads this
    {
      StoreOk(docs)
    }

    constructor (sha256: Digest)
      ensures Valid() && docs == map[] && this.sha256 == sha256
    {
      docs := map[];
      this.sha256 := sha256;
    }

    /** `auth_requestCode`: validate, write a fresh record over any prior one, then mail the code. */
    method RequestCode(email: Field, draw: int, random: seq<Byte>, now: int, mail: MailOutcome)
      returns (reply: RequestReply)
      requires Valid()
      requires 0 <= draw < CODE_RANGE && |random| == SALT_BYTES
      modifies this
      ensures Valid()
      ensures RequestResult(docs, reply) == RequestStep(old(docs), email, draw, random, now, mail, sha256)
    {
      RequestKeepsStoreOk(docs, email, draw, random, now, mail, sha256);
      var e := Normalize(email);
      if !IsValidEmail(e) {
        return RequestError(InvalidArgument);
      }
      var code := GenerateCode(draw);
      var salt := Salt(random);
      var codeHash := HashCode(sha256, code, salt);
      docs := docs[Key(e) := Record(e, codeHash, salt, now, now + CODE_TTL_MS, 0, None)];
      reply := MailReply(mail);
    }

    /** `auth_verifyCode`: validate the address and the code, then consult the record. */
    method VerifyCode(email: Field, code: Field, now: int, token: string) returns (reply: VerifyReply)
      requires Valid()
      modifies this
      ensures Valid()
      ensures VerifyResult(docs, reply) == VerifyStep(old(docs), email, code, now, token, sha256)
    {
      var e := Normalize(email);
      var c := CodeText(code);
      if !IsValidEmail(e) || |c| != CODE_LENGTH {
        return VerifyError(InvalidArgument);
      }
      reply := VerifyStored(Key(e), c, now, token);
    }

    /** The checks of `auth_verifyCode` on the record, in their fixed order, each with its own effect. */
    method VerifyStored(key: string, code: JsString, now: int, token: string) returns (reply: VerifyReply)
      requires Valid()
      modifies this
      ensures Valid()
      ensures VerifyResult(docs, reply) == VerifyAt(old(docs), key, code, now, token, sha256)
    {
      VerifyAtKeepsStoreOk(docs, key, code, now, token, sha256);
      if key !in docs {
        return VerifyError(NotFound);
      }
      var data := docs[key];
      if data.expiresAt != 0 && data.expiresAt < now {
        docs := docs - {key};
        return VerifyError(DeadlineExceeded);
      }
      if data.attemptCount >= MAX_ATTEMPTS {
        docs := docs - {key};
        return VerifyError(ResourceExhausted);
      }
      if HashCode(sha256, code, data.salt) != data.codeHash {
        docs := docs[key := data.(attemptCount := data.attemptCount + 1, lastAttemptAt := Some(now))];
        return VerifyError(PermissionDenied);
      }
      docs := docs - {key};
      reply := SignedIn(token);
    }
  }
}
