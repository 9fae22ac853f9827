/** The backend's authentication and answer endpoints over in-memory tables:
    users keyed by email, tokens keyed by token string, and answers. */
module Backend {
  import opened Wrappers
  import opened Text

  /** An `HTTPException`: status code and detail text. */
  datatype HttpError = HttpError(status: nat, detail: string)

  /** A `tokens` row; times are seconds on the UTC clock. */
  datatype TokenRow = TokenRow(email: string, expiresAt: int)

  /** An `answers` row. */
  datatype AnswerRow = AnswerRow(id: string, userEmail: string, content: string, createdAt: int)

  /** One element of the `answers` list returned by `get_answers`. */
  datatype AnswerView = AnswerView(id: string, content: string, createdAt: int)

  predicate IsHexDigit(c: char)
  {
    '0' <= c <= '9' || 'a' <= c <= 'f'
  }

  /** What `hexdigest()` of SHA-256 returns: 64 lower-case hexadecimal digits. */
  type HexDigest = s: string | |s| == 64 && forall i :: 0 <= i < |s| ==> IsHexDigit(s[i])
    witness seq(64, _ => '0')

  /** The body `login` returns. */
  datatype TokenResponse = TokenResponse(accessToken: string, tokenType: string)

  /** `timedelta(hours=1)` in seconds. */
  const TokenLifetime: int := 3600

  const BearerPrefix := "Bearer "

  const DuplicateEmail := HttpError(400, "Email already registered")
  const BadCredentials := HttpError(401, "Invalid email or password")
  const BadHeader := HttpError(401, "Invalid Authorization header format")
  const BadToken := HttpError(401, "Invalid or expired token")
  /** What a primary-key clash on commit turns into. */
  const KeyClash := HttpError(500, "Internal Server Error")

  const SignedUp := "User registered successfully"
  const AnswerSaved := "Answer saved successfully"

  // ---------------------------------------------------------------------------
  // Pure helpers
  // ---------------------------------------------------------------------------

  /** The token of an `Authorization` header: the header must start with the
      case-sensitive "Bearer ", and the token is its second space-separated
      field (`authorization.split(" ")[1]`). */
  function BearerToken(header: string): (r: Option<string>)
    ensures r.Some? <==> StartsWith(header, BearerPrefix)
    ensures r.Some? ==> ' ' !in r.value
  {
    if !StartsWith(header, BearerPrefix) then None
    else
      assert header[6] == ' ';
      SplitAtLeastTwo(header, ' ');
      SplitFieldsHaveNoSeparator(header, ' ');
      Some(Split(header, ' ')[1])
  }

  /** A header built as "Bearer " + token yields that token, and so does one
      with further space-separated words after it. */
  lemma BearerTokenRoundTrip(token: string, rest: string)
    requires ' ' !in token
    ensures BearerToken(BearerPrefix + token) == Some(token)
    ensures BearerToken(BearerPrefix + token + " " + rest) == Some(token)
  {
    assert BearerPrefix == "Bearer" + [' '];
    assert ' ' !in "Bearer";
    SplitAfterPrefix("Bearer", ' ', token);
    assert BearerPrefix + token == "Bearer" + [' '] + token;
    SplitWithoutSeparator(token, ' ');
    assert (BearerPrefix + token)[..7] == BearerPrefix;
    SplitAfterPrefix("Bearer", ' ', token + " " + rest);
    assert BearerPrefix + token + " " + rest == "Bearer" + [' '] + (token + " " + rest);
    SplitAfterPrefix(token, ' ', rest);
    assert token + " " + rest == token + [' '] + rest;
    assert (BearerPrefix + token + " " + rest)[..7] == BearerPrefix;
  }

  /** The scheme test is case-sensitive and needs the space. */
  lemma BearerSchemeIsExact()
    ensures BearerToken("bearer abc").None?
    ensures BearerToken("BEARER abc").None?
    ensures BearerToken("Bearerabc").None?
    ensures BearerToken("abc").None?
  {
    assert "bearer abc"[..7] != BearerPrefix by { assert "bearer abc"[0] == 'b'; }
    assert "BEARER abc"[..7] != BearerPrefix by { assert "BEARER abc"[1] == 'E'; }
    assert "Bearerabc"[..7] != BearerPrefix by { assert "Bearerabc"[6] == 'a'; }
  }

  /** `not db_token or db_token.expires_at < now` is false. */
  function TokenValid(tokens: map<string, TokenRow>, token: string, now: int): (ok: bool)
    ensures ok ==> token in tokens
    ensures token in tokens ==> (ok <==> now <= tokens[token].expiresAt)
  {
    token in tokens && !(tokens[token].expiresAt < now)
  }

  /** A token issued at `issuedAt` is accepted up to and including one hour
      later, and refused from then on. */
  lemma IssuedTokenLifetime(tokens: map<string, TokenRow>, token: string, email: string, issuedAt: int, now: int)
    ensures TokenValid(tokens[token := TokenRow(email, issuedAt + TokenLifetime)], token, now)
            <==> now <= issuedAt + TokenLifetime
  {
  }

  /** What the token check raises, as the code is written, for a token that is
      in the table: `expires_at` is read back from a `DateTime` column without
      a time zone, and comparing that naive value with the aware
      `datetime.now(timezone.utc)` raises, which the framework answers with
      status 500. */
  const NaiveAwareComparison := HttpError(500, "Internal Server Error")

  /** The token check as written: a missing token is refused with 401 before
      the comparison runs; for a present token the comparison itself raises.
      No token passes. */
  function TokenCheckAsWritten(tokens: map<string, TokenRow>, token: string): (r: Result<TokenRow, HttpError>)
    ensures r.Err?
    ensures r.error == BadToken <==> token !in tokens
    ensures r.error.status == 500 <==> token in tokens
  {
    if token !in tokens then Err(BadToken) else Err(NaiveAwareComparison)
  }

  /** A token that `login` has just issued is accepted by the intended check
      for its whole hour, yet the check as written answers it with 500. */
  lemma IssuedTokenRefusedAsWritten(tokens: map<string, TokenRow>, drawn: string, email: string, now: int)
    ensures var issued := tokens[drawn := TokenRow(email, now + TokenLifetime)];
            TokenValid(issued, drawn, now) && TokenValid(issued, drawn, now + TokenLifetime)
            && TokenCheckAsWritten(issued, drawn) == Err(NaiveAwareComparison)
  {
  }

  /** `filter(Answer.user_email == email)`, in table order. */
  function OwnedBy(answers: seq<AnswerRow>, email: string): (r: seq<AnswerRow>)
    ensures forall a :: a in r <==> a in answers && a.userEmail == email
    ensures |r| <= |answers|
    decreases |answers|
  {
    if answers == [] then []
    else
      var rest := OwnedBy(answers[1..], email);
      assert forall a :: a in answers <==> a == answers[0] || a in answers[1..];
      if answers[0].userEmail == email then [answers[0]] + rest else rest
  }

  /** Appending an answer adds it to its owner's list, at the end, and to no
      one else's. */
  lemma {:induction false} OwnedByAppend(answers: seq<AnswerRow>, a: AnswerRow, email: string)
    ensures OwnedBy(answers + [a], email) == OwnedBy(answers, email) + (if a.userEmail == email then [a] else [])
    decreases |answers|
  {
    if answers == [] {
      assert [a][1..] == [];
    } else {
      assert (answers + [a])[1..] == answers[1..] + [a];
      OwnedByAppend(answers[1..], a, email);
    }
  }

  function Views(rows: seq<AnswerRow>): (r: seq<AnswerView>)
    ensures |r| == |rows|
    ensures forall i :: 0 <= i < |rows| ==>
              r[i].id == rows[i].id && r[i].content == rows[i].content && r[i].createdAt == rows[i].createdAt
  {
    seq(|rows|, i requires 0 <= i < |rows| => AnswerView(rows[i].id, rows[i].content, rows[i].createdAt))
  }

  function AnswerIds(answers: seq<AnswerRow>): set<string>
  {
    set a | a in answers :: a.id
  }

  // ---------------------------------------------------------------------------
  // The server
  // ---------------------------------------------------------------------------

  class Server {
    /** SHA-256 of the password's bytes, left uninterpreted but for the shape
        of its hex digest. */
    const hash: string -> HexDigest
    var users: map<string, string>
    var tokens: map<string, TokenRow>
    var answers: seq<AnswerRow>

    constructor (hash: string -> HexDigest)
      ensures this.hash == hash && users == map[] && tokens == map[] && answers == []
    {
      this.hash := hash;
      users, tokens, answers := map[], map[], [];
    }

    /** `hash_password`. */
    function HashPassword(password: string): (h: string)
      ensures |h| == 64 && forall i :: 0 <= i < |h| ==> IsHexDigit(h[i])
    {
      hash(password)
    }

    /** `verify_password`: accepts exactly the stored hash of the password. */
    function VerifyPassword(plain: string, hashed: string): (ok: bool)
      ensures ok <==> HashPassword(plain) == hashed
    {
      HashPassword(plain) == hashed
    }

    /** `signup`: a known email is refused and the table kept; a new one is
        stored with the hash of its password. */
    method Signup(email: string, password: string) returns (result: Result<string, HttpError>)
      modifies this
      ensures email in old(users) ==> result == Err(DuplicateEmail) && users == old(users)
      ensures email !in old(users) ==>
                result == Ok(SignedUp) && users == old(users)[email := HashPassword(password)]
      ensures tokens == old(tokens) && answers == old(answers)
    {
      if email in users {
        return Err(DuplicateEmail);
      }
      users := users[email := HashPassword(password)];
      result := Ok(SignedUp);
    }

    /** `login`: an unknown email or a wrong password is refused with 401 and
        no token; otherwise `drawn` (the `token_hex` draw) is stored for the
        email with an expiry one hour after `now`. A drawn token that is
        already a key fails the commit. */
    method Login(email: string, password: string, now: int, drawn: string)
      returns (result: Result<TokenResponse, HttpError>)
      modifies this
      ensures (email !in old(users) || !VerifyPassword(password, old(users)[email])) ==>
                result == Err(BadCredentials) && tokens == old(tokens)
      ensures email in old(users) && VerifyPassword(password, old(users)[email]) && drawn in old(tokens) ==>
                result == Err(KeyClash) && tokens == old(tokens)
      ensures email in old(users) && VerifyPassword(password, old(users)[email]) && drawn !in old(tokens) ==>
                result == Ok(TokenResponse(drawn, "bearer"))
                && tokens == old(tokens)[drawn := TokenRow(email, now + TokenLifetime)]
      ensures users == old(users) && answers == old(answers)
    {
      if email !in users || !VerifyPassword(password, users[email]) {
        return Err(BadCredentials);
      }
      if drawn in tokens {
        return Err(KeyClash);
      }
      tokens := tokens[drawn := TokenRow(email, now + TokenLifetime)];
      result := Ok(TokenResponse(drawn, "bearer"));
    }

    /** `save_answer`: the header and then the token are checked; a valid token
        adds one answer owned by the token's email under the `uuid4` draw
        `freshId`, stamped with `now`. */
    method SaveAnswer(authorization: string, content: string, now: int, freshId: string)
      returns (result: Result<string, HttpError>)
      modifies this
      ensures BearerToken(authorization).None? ==> result == Err(BadHeader) && answers == old(answers)
      ensures BearerToken(authorization).Some? && !TokenValid(tokens, BearerToken(authorization).value, now) ==>
                result == Err(BadToken) && answers == old(answers)
      ensures BearerToken(authorization).Some? && TokenValid(tokens, BearerToken(authorization).value, now) ==>
                if freshId in AnswerIds(old(answers)) then
                  result == Err(KeyClash) && answers == old(answers)
                else
                  result == Ok(AnswerSaved)
                  && answers == old(answers)
                                + [AnswerRow(freshId, tokens[BearerToken(authorization).value].email, content, now)]
      ensures users == old(users) && tokens == old(tokens)
    {
      var token := BearerToken(authorization);
      if token.None? {
        return Err(BadHeader);
      }
      if !TokenValid(tokens, token.value, now) {
        return Err(BadToken);
      }
      if freshId in AnswerIds(answers) {
        return Err(KeyClash);
      }
      answers := answers + [AnswerRow(freshId, tokens[token.value].email, content, now)];
      result := Ok(AnswerSaved);
    }

    /** `get_answers`: the raw `token` header must name a valid token; the
        result is every answer of that token's email, in table order. */
    function GetAnswers(token: string, now: int): (r: Result<seq<AnswerView>, HttpError>)
      reads this
      ensures r.Err? <==> !TokenValid(tokens, token, now)
      ensures r.Err? ==> r.error == BadToken
      ensures r.Ok? ==> forall v :: v in r.value <==>
                exists a :: a in answers && a.userEmail == tokens[token].email
                            && v == AnswerView(a.id, a.content, a.createdAt)
    {
      if !TokenValid(tokens, token, now) then Err(BadToken)
      else
        var own := OwnedBy(answers, tokens[token].email);
        var vs := Views(own);
        assert forall v :: v in vs <==> exists a :: a in own && v == AnswerView(a.id, a.content, a.createdAt) by {
          forall v ensures v in vs <==> exists a :: a in own && v == AnswerView(a.id, a.content, a.createdAt) {
            if v in vs {
              var i :| 0 <= i < |vs| && vs[i] == v;
              assert own[i] in own;
            }
            if exists a :: a in own && v == AnswerView(a.id, a.content, a.createdAt) {
              var a :| a in own && v == AnswerView(a.id, a.content, a.createdAt);
              var i :| 0 <= i < |own| && own[i] == a;
              assert vs[i] == v;
            }
          }
        }
        Ok(vs)
    }
    /** `save_answer` as written: after the header check, the token check of
        `TokenCheckAsWritten` refuses every token, so nothing is ever saved. */
    method SaveAnswerAsWritten(authorization: string, content: string) returns (result: Result<string, HttpError>)
      ensures result.Err?
      ensures BearerToken(authorization).None? ==> result == Err(BadHeader)
      ensures BearerToken(authorization).Some? ==>
                result == Err(TokenCheckAsWritten(tokens, BearerToken(authorization).value).error)
    {
      var token := BearerToken(authorization);
      if token.None? {
        return Err(BadHeader);
      }
      var check := TokenCheckAsWritten(tokens, token.value);
      result := Err(check.error);
    }

    /** `get_answers` as written: no list is ever returned; a stored token gets
        500 and any other 401. */
    function GetAnswersAsWritten(token: string): (r: Result<seq<AnswerView>, HttpError>)
      reads this
      ensures r.Err?
      ensures r.error == (if token in tokens then NaiveAwareComparison else BadToken)
    {
      var check := TokenCheckAsWritten(tokens, token);
      Err(check.error)
    }
  }

  /** Where the two readings part: for a token the intended check accepts,
      `get_answers` returns the owner's answers, while the code as written
      answers 500, and `save_answer` likewise fails instead of saving. */
  method ValidTokenAsWritten(s: Server, token: string, content: string, now: int)
    returns (saved: Result<string, HttpError>)
    requires ' ' !in token && TokenValid(s.tokens, token, now)
    ensures s.GetAnswers(token, now) == Ok(Views(OwnedBy(s.answers, s.tokens[token].email)))
    ensures s.GetAnswersAsWritten(token) == Err(NaiveAwareComparison)
    ensures saved == Err(NaiveAwareComparison)
  {
    BearerTokenRoundTrip(token, "");
    saved := s.SaveAnswerAsWritten(BearerPrefix + token, content);
  }

  /** A password always verifies against its own hash. */
  lemma VerifyOwnHash(s: Server, password: string)
    ensures s.VerifyPassword(password, s.HashPassword(password))
  {
  }

  /** Signing up and then logging in with the same credentials issues a token
      for that email, and that token is accepted by `get_answers` until it
      expires, showing the email's answers and only those. */
  method SignupLoginFetch(s: Server, email: string, password: string, now: int, drawn: string)
    returns (login: Result<TokenResponse, HttpError>)
    requires email !in s.users && drawn !in s.tokens
    modifies s
    ensures s.tokens == old(s.tokens)[drawn := TokenRow(email, now + TokenLifetime)]
    ensures login == Ok(TokenResponse(drawn, "bearer"))
    ensures s.GetAnswers(drawn, now).Ok?
    ensures s.GetAnswers(drawn, now + TokenLifetime + 1).Err?
    ensures s.GetAnswers(drawn, now) == Ok(Views(OwnedBy(s.answers, email)))
  {
    var signup := s.Signup(email, password);
    login := s.Login(email, password, now, drawn);
  }

  /** Saving an answer with a valid bearer token makes it the last entry in
      its owner's `get_answers` list, while other users' lists stay as they were. */
  method SaveThenFetch(s: Server, token: string, content: string, now: int, freshId: string, other: string)
    returns (saved: Result<string, HttpError>)
    requires ' ' !in token && TokenValid(s.tokens, token, now) && freshId !in AnswerIds(s.answers)
    requires TokenValid(s.tokens, other, now) && s.tokens[other].email != s.tokens[token].email
    modifies s
    ensures s.tokens == old(s.tokens) && saved == Ok(AnswerSaved)
    ensures s.GetAnswers(token, now) ==
            Ok(Views(OwnedBy(old(s.answers), s.tokens[token].email)
                     + [AnswerRow(freshId, s.tokens[token].email, content, now)]))
    ensures s.GetAnswers(other, now) == Ok(Views(OwnedBy(old(s.answers), s.tokens[other].email)))
  {
    BearerTokenRoundTrip(token, "");
    saved := s.SaveAnswer(BearerPrefix + token, content, now, freshId);
    var row := AnswerRow(freshId, s.tokens[token].email, content, now);
    OwnedByAppend(old(s.answers), row, s.tokens[token].email);
    OwnedByAppend(old(s.answers), row, s.tokens[other].email);
    assert OwnedBy(s.answers, s.tokens[other].email) == OwnedBy(old(s.answers), s.tokens[other].email);
  }
}
