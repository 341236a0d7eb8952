/**
 * What the two callables promise, stated over `RequestStep` and `VerifyStep`
 * (the methods of `CodeCollection` are proved equal to them).
 */
module OtcProperties {
  import opened Wrappers
  import opened Utf16
  import opened Email
  import opened Encoding
  import opened Codes
  import opened Otc

  lemma PutThenRemove(m: Store, k: string, v: Record)
    ensures m[k := v] - {k} == m - {k}
  {
  }

  // ---------------------------------------------------------------------------
  // auth_requestCode

  /** Past validation, a request is a write under the address's key followed by the mail. */
  lemma RequestStepValidated(store: Store, email: Field, draw: int, random: seq<Byte>, now: int,
                             mail: MailOutcome, sha256: Digest)
    requires 0 <= draw < CODE_RANGE
    requires IsValidEmail(Normalize(email))
    ensures var e := Normalize(email);
            RequestStep(store, email, draw, random, now, mail, sha256)
            == RequestResult(store[Key(e) := NewRecord(e, draw, random, now, sha256)], MailReply(mail))
  {
  }

  /** Past validation, a verification is decided by the record under the address's key. */
  lemma VerifyStepValidated(store: Store, email: Field, code: Field, now: int, token: string, sha256: Digest)
    requires IsValidEmail(Normalize(email)) && |CodeText(code)| == CODE_LENGTH
    ensures VerifyStep(store, email, code, now, token, sha256)
         == VerifyAt(store, Key(Normalize(email)), CodeText(code), now, token, sha256)
  {
  }

  /** A malformed address is refused before anything is written. */
  lemma RequestRejectsMalformedEmail(store: Store, email: Field, draw: int, random: seq<Byte>, now: int,
                                     mail: MailOutcome, sha256: Digest)
    requires 0 <= draw < CODE_RANGE
    requires !IsValidEmail(Normalize(email))
    ensures RequestStep(store, email, draw, random, now, mail, sha256)
         == RequestResult(store, RequestError(InvalidArgument))
  {
  }

  /**
   * A well-formed address gets a fresh record under its key, replacing any
   * earlier one; every other key keeps its record.
   */
  lemma RequestWritesFreshRecord(store: Store, email: Field, draw: int, random: seq<Byte>, now: int,
                                 mail: MailOutcome, sha256: Digest)
    requires 0 <= draw < CODE_RANGE
    requires IsValidEmail(Normalize(email))
    ensures var after := RequestStep(store, email, draw, random, now, mail, sha256).store;
            var e := Normalize(email);
            var key := Key(e);
            && key in after
            && after[key].email == e
            && after[key].salt == Salt(random)
            && after[key].codeHash == HashCode(sha256, GenerateCode(draw), Salt(random))
            && after[key].createdAt == now
            && after[key].expiresAt == now + 600000
            && after[key].attemptCount == 0
            && after[key].lastAttemptAt == None
            && after - {key} == store - {key}
  {
    RequestStepValidated(store, email, draw, random, now, mail, sha256);
    var e := Normalize(email);
    PutThenRemove(store, Key(e), NewRecord(e, draw, random, now, sha256));
  }

  /**
   * Once the record is written, the reply is what the mailer reports; the
   * record stays written even when the mail is not sent.
   */
  lemma RequestReplyFollowsMail(store: Store, email: Field, draw: int, random: seq<Byte>, now: int,
                                mail: MailOutcome, sha256: Digest)
    requires 0 <= draw < CODE_RANGE
    requires IsValidEmail(Normalize(email))
    ensures var reply := RequestStep(store, email, draw, random, now, mail, sha256).reply;
            && (reply == CodeSent <==> mail == Sent)
            && (mail == Unconfigured ==> reply == RequestError(FailedPrecondition))
            && (mail == SendFailed ==> reply == RequestError(Internal))
  {
    RequestStepValidated(store, email, draw, random, now, mail, sha256);
  }

  // ---------------------------------------------------------------------------
  // auth_verifyCode, one branch at a time

  /** A malformed address, or a trimmed code that is not six characters long, is refused untouched. */
  lemma VerifyRejectsMalformedInput(store: Store, email: Field, code: Field, now: int, token: string,
                                    sha256: Digest)
    requires !IsValidEmail(Normalize(email)) || |CodeText(code)| != CODE_LENGTH
    ensures VerifyStep(store, email, code, now, token, sha256)
         == VerifyResult(store, VerifyError(InvalidArgument))
  {
  }

  /** Without a record: not-found, nothing changes. */
  lemma VerifyWithoutRecord(store: Store, email: Field, code: Field, now: int, token: string, sha256: Digest)
    requires IsValidEmail(Normalize(email)) && |CodeText(code)| == CODE_LENGTH
    requires Key(Normalize(email)) !in store
    ensures VerifyStep(store, email, code, now, token, sha256) == VerifyResult(store, VerifyError(NotFound))
  {
    VerifyStepValidated(store, email, code, now, token, sha256);
  }

  /** An expired record is deleted with deadline-exceeded, whatever code is submitted (the right one too). */
  lemma VerifyExpiredRecord(store: Store, email: Field, code: Field, now: int, token: string, sha256: Digest)
    requires IsValidEmail(Normalize(email)) && |CodeText(code)| == CODE_LENGTH
    requires var key := Key(Normalize(email)); key in store && store[key].expiresAt != 0 && store[key].expiresAt < now
    ensures VerifyStep(store, email, code, now, token, sha256)
         == VerifyResult(store - {Key(Normalize(email))}, VerifyError(DeadlineExceeded))
  {
    VerifyStepValidated(store, email, code, now, token, sha256);
  }

  /** A live record whose attempts are used up is deleted with resource-exhausted, whatever code is submitted. */
  lemma VerifyExhaustedRecord(store: Store, email: Field, code: Field, now: int, token: string, sha256: Digest)
    requires IsValidEmail(Normalize(email)) && |CodeText(code)| == CODE_LENGTH
    requires var key := Key(Normalize(email)); key in store && !Expired(store[key], now)
    requires store[Key(Normalize(email))].attemptCount >= MAX_ATTEMPTS
    ensures VerifyStep(store, email, code, now, token, sha256)
         == VerifyResult(store - {Key(Normalize(email))}, VerifyError(ResourceExhausted))
  {
    VerifyStepValidated(store, email, code, now, token, sha256);
  }

  /**
   * A wrong code on a live record with attempts left: permission-denied, the
   * count goes up by exactly one, `lastAttemptAt` becomes `now`, and nothing
   * else in the record or the collection changes.
   */
  lemma VerifyWrongCode(store: Store, email: Field, code: Field, now: int, token: string, sha256: Digest)
    requires IsValidEmail(Normalize(email)) && |CodeText(code)| == CODE_LENGTH
    requires var key := Key(Normalize(email));
             && key in store && !Expired(store[key], now) && store[key].attemptCount < MAX_ATTEMPTS
             && HashCode(sha256, CodeText(code), store[key].salt) != store[key].codeHash
    ensures var key := Key(Normalize(email));
            var res := VerifyStep(store, email, code, now, token, sha256);
            && res.reply == VerifyError(PermissionDenied)
            && key in res.store
            && res.store[key].attemptCount == store[key].attemptCount + 1
            && res.store[key].lastAttemptAt == Some(now)
            && res.store[key].codeHash == store[key].codeHash
            && res.store[key].salt == store[key].salt
            && res.store[key].expiresAt == store[key].expiresAt
            && res.store[key].createdAt == store[key].createdAt
            && res.store[key].email == store[key].email
            && res.store - {key} == store - {key}
  {
    var key := Key(Normalize(email));
    VerifyStepValidated(store, email, code, now, token, sha256);
    WrongGuessAt(store, key, Guess(CodeText(code), now), token, sha256);
    FailedAttemptStored(store, key, now);
  }

  /** Storing a failed attempt changes the count and `lastAttemptAt` of one record and nothing else. */
  lemma FailedAttemptStored(store: Store, key: string, now: int)
    requires key in store
    ensures var after := store[key := Failed(store[key], now)];
            && key in after
            && after[key].attemptCount == store[key].attemptCount + 1
            && after[key].lastAttemptAt == Some(now)
            && after[key].codeHash == store[key].codeHash
            && after[key].salt == store[key].salt
            && after[key].expiresAt == store[key].expiresAt
            && after[key].createdAt == store[key].createdAt
            && after[key].email == store[key].email
            && after - {key} == store - {key}
  {
    PutThenRemove(store, key, Failed(store[key], now));
  }

  /** The right code on a live record with attempts left: signed in, and the record is deleted. */
  lemma VerifyRightCode(store: Store, email: Field, code: Field, now: int, token: string, sha256: Digest)
    requires IsValidEmail(Normalize(email)) && |CodeText(code)| == CODE_LENGTH
    requires var key := Key(Normalize(email));
             && key in store && !Expired(store[key], now) && store[key].attemptCount < MAX_ATTEMPTS
             && HashCode(sha256, CodeText(code), store[key].salt) == store[key].codeHash
    ensures VerifyStep(store, email, code, now, token, sha256)
         == VerifyResult(store - {Key(Normalize(email))}, SignedIn(token))
  {
    VerifyStepValidated(store, email, code, now, token, sha256);
  }

  // ---------------------------------------------------------------------------
  // Keys and addresses

  /** Two addresses share a document id exactly when they have the same code points. */
  lemma KeyInjective(a: JsString, b: JsString)
    ensures Key(a) == Key(b) <==> Scalars(a) == Scalars(b)
  {
    Utf8Injective(a, b);
    if Key(a) == Key(b) {
      DocIdInjective(Utf8(a), Utf8(b));
    }
  }

  /**
   * Distinct valid addresses can share a document: "\ud800@a.bc", with a lone
   * surrogate, and "\ufffd@a.bc" are both normalised and valid, and both have
   * the key of "\ufffd@a.bc".
   */
  lemma LoneSurrogateSharesKey()
    ensures var a, b := [0xD800] + DomainPart(), [0xFFFD] + DomainPart();
            && a != b
            && Normalize(Text(a)) == a && Normalize(Text(b)) == b
            && IsValidEmail(a) && IsValidEmail(b)
            && Key(a) == Key(b)
  {
    var a, b := [0xD800] + DomainPart(), [0xFFFD] + DomainPart();
    LoneSurrogateReadsAsReplacement(DomainPart());
    OneUnitAddress(0xD800);
    OneUnitAddress(0xFFFD);
    assert Utf8(a) == EncodeUtf8(Scalars(a)) == EncodeUtf8(Scalars(b)) == Utf8(b);
  }

  /** "@a.bc" */
  function DomainPart(): (r: JsString)
    ensures |r| == 5 && r[0] == '@' as int && r[2] == '.' as int
  {
    ['@' as int, 'a' as int, '.' as int, 'b' as int, 'c' as int]
  }

  /** A single plain lower-case unit followed by "@a.bc" is a normalised, valid address. */
  lemma OneUnitAddress(u: Unit)
    requires Plain(u) && !IsUpper(u)
    ensures Normalize(Text([u] + DomainPart())) == [u] + DomainPart()
    ensures IsValidEmail([u] + DomainPart())
  {
    var s := [u] + DomainPart();
    assert forall k :: 1 <= k < |s| ==> s[k] == DomainPart()[k - 1];
    NormalisedAddress(s);
    OneUnitAddressValid(s);
  }

  lemma OneUnitAddressValid(s: JsString)
    requires |s| == 6 && Plain(s[0]) && s[1..] == DomainPart()
    ensures IsValidEmail(s)
  {
    assert s[1] == '@' as int;
    assert IndexOf(s, '@' as int) == 1;
    assert s[3..5][0] == '.' as int;
  }

  /** A string without outer white space or upper-case letters is its own normal form. */
  lemma NormalisedAddress(s: JsString)
    requires NoOuterSpace(s) && NoUpper(s)
    ensures Normalize(Text(s)) == s
  {
    TrimNoOuterSpace(s);
    LowerWithoutUpper(s);
  }

  /** A request for one address leaves the record of every other address as it was. */
  lemma RequestLeavesOtherAddresses(store: Store, email: Field, other: JsString, draw: int, random: seq<Byte>,
                                    now: int, mail: MailOutcome, sha256: Digest)
    requires 0 <= draw < CODE_RANGE
    requires Scalars(other) != Scalars(Normalize(email))
    ensures var k := Key(other);
            var after := RequestStep(store, email, draw, random, now, mail, sha256).store;
            (k in after <==> k in store) && (k in store ==> after[k] == store[k])
  {
    var e := Normalize(email);
    if IsValidEmail(e) {
      RequestStepValidated(store, email, draw, random, now, mail, sha256);
      if Key(other) == Key(e) {
        KeyInjective(other, e);
      }
    }
  }

  /** A verification for one address leaves the record of every other address as it was. */
  lemma VerifyLeavesOtherAddresses(store: Store, email: Field, other: JsString, code: Field, now: int,
                                   token: string, sha256: Digest)
    requires Scalars(other) != Scalars(Normalize(email))
    ensures var k := Key(other);
            var after := VerifyStep(store, email, code, now, token, sha256).store;
            (k in after <==> k in store) && (k in store ==> after[k] == store[k])
  {
    var e := Normalize(email);
    if IsValidEmail(e) && |CodeText(code)| == CODE_LENGTH {
      VerifyStepValidated(store, email, code, now, token, sha256);
      if Key(other) == Key(e) {
        KeyInjective(other, e);
      }
      VerifyAtLeavesOtherKeys(store, Key(e), Key(other), CodeText(code), now, token, sha256);
    }
  }

  lemma VerifyAtLeavesOtherKeys(store: Store, key: string, k: string, code: JsString, now: int, token: string,
                                sha256: Digest)
    requires k != key
    ensures var after := VerifyAt(store, key, code, now, token, sha256).store;
            (k in after <==> k in store) && (k in store ==> after[k] == store[k])
  {
  }

  /** An address and its normalised form request a code for the same record with the same outcome. */
  lemma NormalisedAddressRequestsAlike(store: Store, s: JsString, draw: int, random: seq<Byte>, now: int,
                                       mail: MailOutcome, sha256: Digest)
    requires 0 <= draw < CODE_RANGE
    ensures RequestStep(store, Text(s), draw, random, now, mail, sha256)
         == RequestStep(store, Text(Normalize(Text(s))), draw, random, now, mail, sha256)
  {
    NormalizeIdempotent(Text(s));
  }

  /** An address and its normalised form verify a code against the same record with the same outcome. */
  lemma NormalisedAddressVerifiesAlike(store: Store, s: JsString, code: Field, now: int, token: string,
                                       sha256: Digest)
    ensures VerifyStep(store, Text(s), code, now, token, sha256)
         == VerifyStep(store, Text(Normalize(Text(s))), code, now, token, sha256)
  {
    NormalizeIdempotent(Text(s));
  }

  // ---------------------------------------------------------------------------
  // Whole conversations

  /** The code of a request, typed back as text, survives the trimming of `auth_verifyCode`. */
  lemma IssuedCodeText(draw: int)
    requires 0 <= draw < CODE_RANGE
    ensures CodeText(Text(GenerateCode(draw))) == GenerateCode(draw)
  {
    var code := GenerateCode(draw);
    assert !IsSpace(code[0]) && !IsSpace(code[|code| - 1]);
    TrimNoOuterSpace(code);
  }


  /** The right code on a fresh live record signs in once; the same call again finds nothing. */
  lemma RightCodeOnce(store: Store, email: Field, rec: Record, code: Field, now: int, later: int, token: string,
                      token2: string, sha256: Digest)
    requires IsValidEmail(Normalize(email)) && |CodeText(code)| == CODE_LENGTH
    requires rec.attemptCount < MAX_ATTEMPTS && !Expired(rec, now)
    requires HashCode(sha256, CodeText(code), rec.salt) == rec.codeHash
    ensures var key := Key(Normalize(email));
            var first := VerifyStep(store[key := rec], email, code, now, token, sha256);
            && first == VerifyResult(store - {key}, SignedIn(token))
            && VerifyStep(first.store, email, code, later, token2, sha256) == VerifyResult(store - {key}, VerifyError(NotFound))
  {
    var key := Key(Normalize(email));
    VerifyRightCode(store[key := rec], email, code, now, token, sha256);
    PutThenRemove(store, key, rec);
    VerifyWithoutRecord(store - {key}, email, code, later, token2, sha256);
  }

  /** Any well-formed code on an expired record is refused and the record deleted. */
  lemma LateCodeRefused(store: Store, email: Field, rec: Record, code: Field, now: int, token: string, sha256: Digest)
    requires IsValidEmail(Normalize(email)) && |CodeText(code)| == CODE_LENGTH
    requires Expired(rec, now)
    ensures var key := Key(Normalize(email));
            VerifyStep(store[key := rec], email, code, now, token, sha256)
            == VerifyResult(store - {key}, VerifyError(DeadlineExceeded))
  {
    var key := Key(Normalize(email));
    VerifyExpiredRecord(store[key := rec], email, code, now, token, sha256);
    PutThenRemove(store, key, rec);
  }

  /**
   * Request then verify with the issued code within ten minutes signs in;
   * the code is single-use, so verifying it again finds nothing.
   */
  lemma IssuedCodeWorksOnce(store: Store, email: Field, draw: int, random: seq<Byte>, issuedAt: int,
                            mail: MailOutcome, now: int, later: int, token: string, token2: string,
                            sha256: Digest)
    requires 0 <= draw < CODE_RANGE
    requires IsValidEmail(Normalize(email))
    requires issuedAt <= now <= issuedAt + CODE_TTL_MS
    ensures var key := Key(Normalize(email));
            var s1 := RequestStep(store, email, draw, random, issuedAt, mail, sha256).store;
            var first := VerifyStep(s1, email, Text(GenerateCode(draw)), now, token, sha256);
            var second := VerifyStep(first.store, email, Text(GenerateCode(draw)), later, token2, sha256);
            && first == VerifyResult(store - {key}, SignedIn(token))
            && second == VerifyResult(store - {key}, VerifyError(NotFound))
  {
    IssuedCodeText(draw);
    var e := Normalize(email);
    RequestStepValidated(store, email, draw, random, issuedAt, mail, sha256);
    RightCodeOnce(store, email, NewRecord(e, draw, random, issuedAt, sha256), Text(GenerateCode(draw)), now, later,
                  token, token2, sha256);
  }

  /** After the ten minutes, even the issued code is refused with deadline-exceeded and the record is gone. */
  lemma IssuedCodeExpires(store: Store, email: Field, draw: int, random: seq<Byte>, issuedAt: int,
                          mail: MailOutcome, code: Field, now: int, token: string, sha256: Digest)
    requires 0 <= draw < CODE_RANGE
    requires IsValidEmail(Normalize(email)) && |CodeText(code)| == CODE_LENGTH
    requires issuedAt + CODE_TTL_MS != 0 && issuedAt + CODE_TTL_MS < now
    ensures var key := Key(Normalize(email));
            var s1 := RequestStep(store, email, draw, random, issuedAt, mail, sha256).store;
            VerifyStep(s1, email, code, now, token, sha256) == VerifyResult(store - {key}, VerifyError(DeadlineExceeded))
  {
    var e := Normalize(email);
    RequestStepValidated(store, email, draw, random, issuedAt, mail, sha256);
    LateCodeRefused(store, email, NewRecord(e, draw, random, issuedAt, sha256), code, now, token, sha256);
  }

  /**
   * A second request for the same address supersedes the first: with an
   * injective `sha256`, the first code then signs in only if both draws
   * gave the same code, and is otherwise refused with permission-denied.
   */
  lemma NewRequestSupersedesOld(store: Store, email: Field, draw1: int, random1: seq<Byte>, t1: int,
                                mail1: MailOutcome, draw2: int, random2: seq<Byte>, t2: int,
                                mail2: MailOutcome, now: int, token: string, sha256: Digest)
    requires 0 <= draw1 < CODE_RANGE && 0 <= draw2 < CODE_RANGE
    requires IsValidEmail(Normalize(email))
    requires forall x, y :: sha256(x) == sha256(y) ==> x == y
    requires t2 <= now <= t2 + CODE_TTL_MS
    ensures var s1 := RequestStep(store, email, draw1, random1, t1, mail1, sha256).store;
            var s2 := RequestStep(s1, email, draw2, random2, t2, mail2, sha256).store;
            var res := VerifyStep(s2, email, Text(GenerateCode(draw1)), now, token, sha256);
            && (res.reply == SignedIn(token) <==> draw1 == draw2)
            && (draw1 != draw2 ==> res.reply == VerifyError(PermissionDenied))
  {
    IssuedCodeText(draw1);
    RequestStepValidated(store, email, draw1, random1, t1, mail1, sha256);
    var s1 := RequestStep(store, email, draw1, random1, t1, mail1, sha256).store;
    RequestStepValidated(s1, email, draw2, random2, t2, mail2, sha256);
    var s2 := RequestStep(s1, email, draw2, random2, t2, mail2, sha256).store;
    VerifyStepValidated(s2, email, Text(GenerateCode(draw1)), now, token, sha256);
    var salt := Salt(random2);
    var c1, c2 := GenerateCode(draw1), GenerateCode(draw2);
    if HashCode(sha256, c1, salt) == HashCode(sha256, c2, salt) {
      HashInputWellFormed(c1, salt);
      HashInputWellFormed(c2, salt);
      Utf8Injective(HashInput(c1, salt), HashInput(c2, salt));
      ScalarsInjective(HashInput(c1, salt), HashInput(c2, salt));
      HashInputInjective(c1, salt, c2, salt);
      GenerateCodeInjective(draw1, draw2);
    }
  }

  /** The hash input of a code and a salt is ASCII, so it has no lone surrogate. */
  lemma HashInputWellFormed(code: JsString, salt: JsString)
    requires AllDigits(code) && forall i :: 0 <= i < |salt| ==> IsHexChar(salt[i])
    ensures WellFormed(HashInput(code, salt))
  {
    var t := HashInput(code, salt);
    forall i | 0 <= i < |t|
      ensures !IsSurrogate(t[i])
    {
      if i > |salt| {
        assert t[i] == code[i - |salt| - 1];
      }
    }
    NoSurrogateWellFormed(t);
  }

  // ---------------------------------------------------------------------------
  // Brute-force limit

  /** One call of `auth_verifyCode`: the submitted code and the instant of the call. */
  datatype Attempt = Attempt(code: Field, at: int)

  datatype VerifyRun = VerifyRun(store: Store, replies: seq<VerifyReply>)

  /** Several `auth_verifyCode` calls for one address, one after the other. */
  function VerifyAll(store: Store, email: Field, attempts: seq<Attempt>, token: string, sha256: Digest)
    : (run: VerifyRun)
    ensures |run.replies| == |attempts|
    decreases |attempts|
  {
    if attempts == [] then VerifyRun(store, [])
    else
      var first := VerifyStep(store, email, attempts[0].code, attempts[0].at, token, sha256);
      var rest := VerifyAll(first.store, email, attempts[1..], token, sha256);
      VerifyRun(rest.store, [first.reply] + rest.replies)
  }

  /** An attempt whose code passed validation: the trimmed code text and the instant. */
  datatype Guess = Guess(code: JsString, at: int)

  function GuessOf(a: Attempt): Guess {
    Guess(CodeText(a.code), a.at)
  }

  function Guesses(attempts: seq<Attempt>): (gs: seq<Guess>)
    ensures |gs| == |attempts|
  {
    if attempts == [] then [] else [GuessOf(attempts[0])] + Guesses(attempts[1..])
  }

  /** Every code of `attempts` passes the six-character check of `auth_verifyCode`. */
  predicate WellFormedCodes(attempts: seq<Attempt>) {
    attempts == [] || (|CodeText(attempts[0].code)| == CODE_LENGTH && WellFormedCodes(attempts[1..]))
  }

  /** A guess, made while `r` is live, that does not match `r`. */
  predicate WrongGuess(r: Record, g: Guess, sha256: Digest) {
    !Expired(r, g.at) && HashCode(sha256, g.code, r.salt) != r.codeHash
  }

  /** A well-formed attempt, made while `r` is live, whose code does not match `r`. */
  predicate WrongAttempt(r: Record, a: Attempt, sha256: Digest) {
    |CodeText(a.code)| == CODE_LENGTH && WrongGuess(r, GuessOf(a), sha256)
  }

  /** The same calls seen from the record of one address, once the address and every code passed validation. */
  function VerifyAllAt(store: Store, key: string, guesses: seq<Guess>, token: string, sha256: Digest)
    : (run: VerifyRun)
    ensures |run.replies| == |guesses|
    decreases |guesses|
  {
    if guesses == [] then VerifyRun(store, [])
    else
      var first := VerifyAt(store, key, guesses[0].code, guesses[0].at, token, sha256);
      var rest := VerifyAllAt(first.store, key, guesses[1..], token, sha256);
      VerifyRun(rest.store, [first.reply] + rest.replies)
  }

  lemma {:induction false} VerifyAllValidated(store: Store, email: Field, attempts: seq<Attempt>, token: string,
                                              sha256: Digest)
    requires IsValidEmail(Normalize(email)) && WellFormedCodes(attempts)
    ensures VerifyAll(store, email, attempts, token, sha256)
         == VerifyAllAt(store, Key(Normalize(email)), Guesses(attempts), token, sha256)
    decreases |attempts|
  {
    if attempts != [] {
      var first := VerifyAllFirst(store, email, attempts, token, sha256);
      VerifyAllValidated(first.store, email, attempts[1..], token, sha256);
    }
  }

  /** The first call of a run, once validated, is decided by the record under the address's key. */
  lemma VerifyAllFirst(store: Store, email: Field, attempts: seq<Attempt>, token: string, sha256: Digest)
    returns (first: VerifyResult)
    requires IsValidEmail(Normalize(email))
    requires attempts != [] && |CodeText(attempts[0].code)| == CODE_LENGTH
    ensures first == VerifyAt(store, Key(Normalize(email)), CodeText(attempts[0].code), attempts[0].at, token, sha256)
    ensures var rest := VerifyAll(first.store, email, attempts[1..], token, sha256);
            VerifyAll(store, email, attempts, token, sha256) == VerifyRun(rest.store, [first.reply] + rest.replies)
  {
    var a := attempts[0];
    VerifyStepValidated(store, email, a.code, a.at, token, sha256);
    first := VerifyStep(store, email, a.code, a.at, token, sha256);
  }

  lemma WrongGuessAt(store: Store, key: string, g: Guess, token: string, sha256: Digest)
    requires key in store && store[key].attemptCount < MAX_ATTEMPTS && WrongGuess(store[key], g, sha256)
    ensures VerifyAt(store, key, g.code, g.at, token, sha256)
         == VerifyResult(store[key := Failed(store[key], g.at)], VerifyError(PermissionDenied))
  {
  }

  /** A failed attempt changes nothing that decides whether a later guess is wrong. */
  lemma WrongGuessesStayWrong(r: Record, at: int, guesses: seq<Guess>, sha256: Digest)
    requires forall i :: 0 <= i < |guesses| ==> WrongGuess(r, guesses[i], sha256)
    ensures forall i :: 0 <= i < |guesses| ==> WrongGuess(Failed(r, at), guesses[i], sha256)
  {
  }

  lemma {:induction false} WrongGuessesCount(store: Store, key: string, guesses: seq<Guess>, token: string,
                                             sha256: Digest)
    requires key in store
    requires store[key].attemptCount + |guesses| <= MAX_ATTEMPTS
    requires forall i :: 0 <= i < |guesses| ==> WrongGuess(store[key], guesses[i], sha256)
    ensures key in VerifyAllAt(store, key, guesses, token, sha256).store
    ensures VerifyAllAt(store, key, guesses, token, sha256).store[key]
         == store[key].(attemptCount := store[key].attemptCount + |guesses|,
                        lastAttemptAt := if guesses == [] then store[key].lastAttemptAt
                                         else Some(guesses[|guesses| - 1].at))
    ensures VerifyAllAt(store, key, guesses, token, sha256).store - {key} == store - {key}
    decreases |guesses|
  {
    if guesses != [] {
      var r := store[key];
      var g := guesses[0];
      var rest := guesses[1..];
      WrongGuessAt(store, key, g, token, sha256);
      var s1 := store[key := Failed(r, g.at)];
      WrongGuessesStayWrong(r, g.at, rest, sha256);
      WrongGuessesCount(s1, key, rest, token, sha256);
      assert VerifyAllAt(store, key, guesses, token, sha256).store == VerifyAllAt(s1, key, rest, token, sha256).store;
      PutThenRemove(store, key, Failed(r, g.at));
      var last := if rest == [] then Some(g.at) else Some(rest[|rest| - 1].at);
      assert last == Some(guesses[|guesses| - 1].at);
    }
  }

  lemma {:induction false} WrongGuessesDenied(store: Store, key: string, guesses: seq<Guess>, token: string,
                                              sha256: Digest)
    requires key in store
    requires store[key].attemptCount + |guesses| <= MAX_ATTEMPTS
    requires forall i :: 0 <= i < |guesses| ==> WrongGuess(store[key], guesses[i], sha256)
    ensures forall i :: 0 <= i < |guesses| ==>
              VerifyAllAt(store, key, guesses, token, sha256).replies[i] == VerifyError(PermissionDenied)
    decreases |guesses|
  {
    if guesses != [] {
      var r := store[key];
      var g := guesses[0];
      var rest := guesses[1..];
      WrongGuessAt(store, key, g, token, sha256);
      var s1 := store[key := Failed(r, g.at)];
      WrongGuessesStayWrong(r, g.at, rest, sha256);
      WrongGuessesDenied(s1, key, rest, token, sha256);
      var tail := VerifyAllAt(s1, key, rest, token, sha256);
      var run := VerifyAllAt(store, key, guesses, token, sha256);
      assert run.replies == [VerifyError(PermissionDenied)] + tail.replies;
      forall i | 0 <= i < |guesses|
        ensures run.replies[i] == VerifyError(PermissionDenied)
      {
        if i > 0 {
          assert run.replies[i] == tail.replies[i - 1];
        }
      }
    }
  }


  /** Guesses seen from the record: five wrong ones lock it, and the next guess deletes it. */
  lemma WrongGuessesLockOut(store: Store, key: string, rec: Record, guesses: seq<Guess>, next: Guess,
                            token: string, sha256: Digest)
    requires rec.attemptCount == 0
    requires |guesses| == MAX_ATTEMPTS
    requires forall i :: 0 <= i < |guesses| ==> WrongGuess(rec, guesses[i], sha256)
    requires !Expired(rec, next.at)
    ensures VerifyAllAt(store[key := rec], key, guesses, token, sha256).replies
         == seq(MAX_ATTEMPTS, _ => VerifyError(PermissionDenied))
    ensures VerifyAt(VerifyAllAt(store[key := rec], key, guesses, token, sha256).store, key, next.code, next.at,
                     token, sha256)
         == VerifyResult(store - {key}, VerifyError(ResourceExhausted))
  {
    var s1 := store[key := rec];
    WrongGuessesCount(s1, key, guesses, token, sha256);
    WrongGuessesDenied(s1, key, guesses, token, sha256);
    var run := VerifyAllAt(s1, key, guesses, token, sha256);
    assert run.replies == seq(MAX_ATTEMPTS, _ => VerifyError(PermissionDenied));
    PutThenRemove(store, key, rec);
  }

  /** Guesses seen from the record: fewer than five wrong ones, then the right one signs in. */
  lemma WrongGuessesThenRight(store: Store, key: string, rec: Record, guesses: seq<Guess>, right: Guess,
                              token: string, sha256: Digest)
    requires rec.attemptCount == 0
    requires |guesses| < MAX_ATTEMPTS
    requires forall i :: 0 <= i < |guesses| ==> WrongGuess(rec, guesses[i], sha256)
    requires !Expired(rec, right.at) && HashCode(sha256, right.code, rec.salt) == rec.codeHash
    ensures VerifyAt(VerifyAllAt(store[key := rec], key, guesses, token, sha256).store, key, right.code, right.at,
                     token, sha256)
         == VerifyResult(store - {key}, SignedIn(token))
  {
    var s1 := store[key := rec];
    WrongGuessesCount(s1, key, guesses, token, sha256);
    PutThenRemove(store, key, rec);
  }

  /** Every attempt of `attempts` is well formed and wrong for `rec`, as a guess. */
  lemma {:induction false} WrongAttemptsAsGuesses(rec: Record, attempts: seq<Attempt>, sha256: Digest)
    requires forall i :: 0 <= i < |attempts| ==> WrongAttempt(rec, attempts[i], sha256)
    ensures WellFormedCodes(attempts)
    ensures forall i :: 0 <= i < |Guesses(attempts)| ==> WrongGuess(rec, Guesses(attempts)[i], sha256)
    decreases |attempts|
  {
    if attempts != [] {
      assert WrongAttempt(rec, attempts[0], sha256);
      WrongAttemptsAsGuesses(rec, attempts[1..], sha256);
      GuessesStep(rec, attempts, sha256);
    }
  }

  lemma GuessesStep(rec: Record, attempts: seq<Attempt>, sha256: Digest)
    requires attempts != [] && WrongGuess(rec, GuessOf(attempts[0]), sha256)
    requires forall i :: 0 <= i < |Guesses(attempts[1..])| ==> WrongGuess(rec, Guesses(attempts[1..])[i], sha256)
    ensures forall i :: 0 <= i < |Guesses(attempts)| ==> WrongGuess(rec, Guesses(attempts)[i], sha256)
  {
    var gs := Guesses(attempts);
    assert gs == [GuessOf(attempts[0])] + Guesses(attempts[1..]);
  }

  /**
   * After a request, five wrong codes are each refused with
   * permission-denied (the fifth too), and the next attempt, whatever its
   * code (the issued one included), is refused with resource-exhausted and
   * deletes the record.
   */
  lemma LockoutAfterFiveWrongCodes(store: Store, email: Field, draw: int, random: seq<Byte>, issuedAt: int,
                                   mail: MailOutcome, wrong: seq<Attempt>, next: Attempt, token: string,
                                   sha256: Digest)
    requires 0 <= draw < CODE_RANGE
    requires IsValidEmail(Normalize(email))
    requires |wrong| == MAX_ATTEMPTS
    requires forall i :: 0 <= i < |wrong| ==> WrongAttempt(NewRecord(Normalize(email), draw, random, issuedAt, sha256), wrong[i], sha256)
    requires |CodeText(next.code)| == CODE_LENGTH && issuedAt <= next.at <= issuedAt + CODE_TTL_MS
    ensures var key := Key(Normalize(email));
            var s1 := RequestStep(store, email, draw, random, issuedAt, mail, sha256).store;
            var run := VerifyAll(s1, email, wrong, token, sha256);
            && run.replies == seq(MAX_ATTEMPTS, _ => VerifyError(PermissionDenied))
            && VerifyStep(run.store, email, next.code, next.at, token, sha256)
               == VerifyResult(store - {key}, VerifyError(ResourceExhausted))
  {
    var e := Normalize(email);
    var key := Key(e);
    var rec := NewRecord(e, draw, random, issuedAt, sha256);
    RequestStepValidated(store, email, draw, random, issuedAt, mail, sha256);
    var s1 := store[key := rec];
    WrongAttemptsAsGuesses(rec, wrong, sha256);
    VerifyAllValidated(s1, email, wrong, token, sha256);
    WrongGuessesLockOut(store, key, rec, Guesses(wrong), GuessOf(next), token, sha256);
    VerifyStepValidated(VerifyAll(s1, email, wrong, token, sha256).store, email, next.code, next.at, token, sha256);
  }

  /** Fewer than five wrong codes do not lock the address out: the issued code still signs in. */
  lemma IssuedCodeWorksWithinLimit(store: Store, email: Field, draw: int, random: seq<Byte>, issuedAt: int,
                                   mail: MailOutcome, wrong: seq<Attempt>, now: int, token: string,
                                   sha256: Digest)
    requires 0 <= draw < CODE_RANGE
    requires IsValidEmail(Normalize(email))
    requires |wrong| < MAX_ATTEMPTS
    requires forall i :: 0 <= i < |wrong| ==> WrongAttempt(NewRecord(Normalize(email), draw, random, issuedAt, sha256), wrong[i], sha256)
    requires issuedAt <= now <= issuedAt + CODE_TTL_MS
    ensures var key := Key(Normalize(email));
            var s1 := RequestStep(store, email, draw, random, issuedAt, mail, sha256).store;
            var run := VerifyAll(s1, email, wrong, token, sha256);
            VerifyStep(run.store, email, Text(GenerateCode(draw)), now, token, sha256)
               == VerifyResult(store - {key}, SignedIn(token))
  {
    IssuedCodeText(draw);
    RightCodeWithinLimit(store, email, draw, random, issuedAt, mail, wrong, Text(GenerateCode(draw)), now, token, sha256);
  }

  lemma RightCodeWithinLimit(store: Store, email: Field, draw: int, random: seq<Byte>, issuedAt: int,
                             mail: MailOutcome, wrong: seq<Attempt>, code: Field, now: int, token: string,
                             sha256: Digest)
    requires 0 <= draw < CODE_RANGE
    requires IsValidEmail(Normalize(email))
    requires |wrong| < MAX_ATTEMPTS
    requires forall i :: 0 <= i < |wrong| ==> WrongAttempt(NewRecord(Normalize(email), draw, random, issuedAt, sha256), wrong[i], sha256)
    requires issuedAt <= now <= issuedAt + CODE_TTL_MS
    requires CodeText(code) == GenerateCode(draw)
    ensures var key := Key(Normalize(email));
            var s1 := RequestStep(store, email, draw, random, issuedAt, mail, sha256).store;
            var run := VerifyAll(s1, email, wrong, token, sha256);
            VerifyStep(run.store, email, code, now, token, sha256) == VerifyResult(store - {key}, SignedIn(token))
  {
    var e := Normalize(email);
    var key := Key(e);
    var rec := NewRecord(e, draw, random, issuedAt, sha256);
    RequestStepValidated(store, email, draw, random, issuedAt, mail, sha256);
    var s1 := store[key := rec];
    WrongAttemptsAsGuesses(rec, wrong, sha256);
    VerifyAllValidated(s1, email, wrong, token, sha256);
    WrongGuessesThenRight(store, key, rec, Guesses(wrong), Guess(CodeText(code), now), token, sha256);
    VerifyStepValidated(VerifyAll(s1, email, wrong, token, sha256).store, email, code, now, token, sha256);
  }
}
