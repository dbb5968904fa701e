/** The bearer-token gate in front of every owner-scoped route
    (backend/src/middlewares/auth.middleware.js). */
module AuthMiddleware {
  import opened Common
  import opened Response

  const BearerPrefix := "Bearer "
  const MissingTokenMessage := "Unauthorized"
  const BadTokenMessage := "Invalid or expired token"

  /** `s.startsWith(p)`. */
  predicate StartsWith(s: string, p: string) {
    |p| <= |s| && s[..|p|] == p
  }

  /** The index of the first space of `s`. */
  function FirstSpace(s: string): (k: nat)
    requires ' ' in s
    ensures k < |s| && s[k] == ' ' && ' ' !in s[..k]
  {
    if s[0] == ' ' then 0
    else
      var k := 1 + FirstSpace(s[1..]);
      assert s[..k] == [s[0]] + s[1..][..k - 1];
      k
  }

  /** The inverse of `Split`: the pieces with one space between neighbours. */
  function Join(parts: seq<string>): string
    requires |parts| >= 1
  {
    if |parts| == 1 then parts[0] else parts[0] + " " + Join(parts[1..])
  }

  /** `s.split(" ")`: the pieces between single spaces, empty ones included;
      a string without a space is one piece. */
  function Split(s: string): (parts: seq<string>)
    ensures |parts| >= 1
    ensures forall i :: 0 <= i < |parts| ==> ' ' !in parts[i]
    ensures ' ' !in s ==> parts == [s]
    ensures ' ' in s ==> |parts| >= 2 && parts[0] == s[..FirstSpace(s)] && parts[1..] == Split(s[FirstSpace(s) + 1..])
    ensures |parts[0]| <= |s| && parts[0] == s[..|parts[0]|] && (|parts[0]| == |s| || s[|parts[0]|] == ' ')
    decreases |s|
  {
    if ' ' !in s then [s]
    else
      var k := FirstSpace(s);
      [s[..k]] + Split(s[k + 1..])
  }

  /** Joining the pieces gives back the header. */
  lemma {:induction false} SplitThenJoin(s: string)
    ensures Join(Split(s)) == s
    decreases |s|
  {
    if ' ' in s {
      var k := FirstSpace(s);
      SplitThenJoin(s[k + 1..]);
      assert Split(s)[1..] == Split(s[k + 1..]);
      assert s == s[..k] + " " + s[k + 1..];
    }
  }

  /** The first space after a space-free word is the one that follows it. */
  lemma FirstSpaceAfterWord(w: string, rest: string)
    requires ' ' !in w
    ensures ' ' in w + " " + rest && FirstSpace(w + " " + rest) == |w|
  {
    var s := w + " " + rest;
    assert s[|w|] == ' ';
  }

  /** Splitting space-free pieces joined by spaces gives them back. */
  lemma {:induction false} JoinThenSplit(parts: seq<string>)
    requires |parts| >= 1
    requires forall i :: 0 <= i < |parts| ==> ' ' !in parts[i]
    ensures Split(Join(parts)) == parts
    decreases |parts|
  {
    if |parts| > 1 {
      var rest := Join(parts[1..]);
      FirstSpaceAfterWord(parts[0], rest);
      JoinThenSplit(parts[1..]);
      var s := parts[0] + " " + rest;
      var k := |parts[0]|;
      assert Join(parts) == s;
      assert s[..k] == parts[0];
      assert s[k + 1..] == rest;
      assert Split(s) == [s[..k]] + Split(s[k + 1..]);
      assert parts == [parts[0]] + parts[1..];
    } else {
      assert ' ' !in parts[0];
    }
  }

  /** `authHeader.split(" ")[1]` for a header that starts with the prefix:
      the text after the prefix up to the next space, or to the end. */
  function BearerToken(header: string): (t: string)
    requires StartsWith(header, BearerPrefix)
    ensures ' ' !in t
    ensures |BearerPrefix| + |t| <= |header| && header[|BearerPrefix|..|BearerPrefix| + |t|] == t
    ensures |BearerPrefix| + |t| == |header| || header[|BearerPrefix| + |t|] == ' '
  {
    var rest := header[|BearerPrefix|..];
    assert header == "Bearer" + " " + rest;
    FirstSpaceAfterWord("Bearer", rest);
    assert Split(header)[1..] == Split(rest);
    assert header[|BearerPrefix|..|BearerPrefix| + |Split(rest)[0]|] == rest[..|Split(rest)[0]|];
    Split(header)[1]
  }

  /** The token is the first space-separated word after the prefix: the text
      up to the next space, or to the end. */
  lemma {:induction false} BearerTokenIsFirstWord(header: string)
    requires StartsWith(header, BearerPrefix)
    ensures BearerToken(header) == Split(header[|BearerPrefix|..])[0]
  {
    var rest := header[|BearerPrefix|..];
    assert header == "Bearer" + " " + rest;
    FirstSpaceAfterWord("Bearer", rest);
    assert Split(header)[1..] == Split(rest);
  }

  /** A space-free token behind the prefix is extracted unchanged. */
  lemma {:induction false} BearerTokenRoundTrip(token: string)
    requires ' ' !in token
    ensures StartsWith(BearerPrefix + token, BearerPrefix)
    ensures BearerToken(BearerPrefix + token) == token
  {
    var h := BearerPrefix + token;
    assert h[..|BearerPrefix|] == BearerPrefix;
    BearerTokenIsFirstWord(h);
    assert h[|BearerPrefix|..] == token;
  }

  /** What the gate does with a request. */
  datatype Gate = Reject(reply: Envelope<()>) | Next(user: Claims)

  /** The middleware; `header` is the `Authorization` header, absent when not sent. */
  function Authenticate(header: Option<string>, jwt: Jwt): (g: Gate)
    ensures (!Present(header) || !StartsWith(header.value, BearerPrefix)) ==> g == Reject(Fail(MissingTokenMessage, 401))
    ensures Present(header) && StartsWith(header.value, BearerPrefix) ==>
      && (jwt.verify(BearerToken(header.value)).None? ==> g == Reject(Fail(BadTokenMessage, 401)))
      && (jwt.verify(BearerToken(header.value)).Some? ==> g == Next(jwt.verify(BearerToken(header.value)).value))
    ensures g.Reject? ==> g.reply.status == 401 && !g.reply.success
  {
    if !Present(header) || !StartsWith(header.value, BearerPrefix) then Reject(Fail(MissingTokenMessage, 401))
    else
      match jwt.verify(BearerToken(header.value))
      case None => Reject(Fail(BadTokenMessage, 401))
      case Some(claims) => Next(claims)
  }

  /** Two spaces after "Bearer" leave an empty token, which a faithful token
      library refuses: such a header is answered "Invalid or expired token". */
  lemma {:induction false} DoubleSpaceGivesEmptyToken(rest: string, jwt: Jwt)
    ensures StartsWith(BearerPrefix + " " + rest, BearerPrefix)
    ensures BearerToken(BearerPrefix + " " + rest) == ""
    ensures Faithful(jwt) ==> Authenticate(Some(BearerPrefix + " " + rest), jwt) == Reject(Fail(BadTokenMessage, 401))
  {
    var h := BearerPrefix + " " + rest;
    assert h[..|BearerPrefix|] == BearerPrefix;
    assert StartsWith(h, BearerPrefix);
    BearerTokenIsFirstWord(h);
    assert h[|BearerPrefix|..] == "" + " " + rest;
    FirstSpaceAfterWord("", rest);
    assert BearerToken(h) == "";
    assert Authenticate(Some(h), jwt) == Reject(Fail(BadTokenMessage, 401)) <==> jwt.verify("").None?;
  }

  /** A request passes exactly with a prefixed header whose first word after
      the prefix verifies, and then carries that token's payload. */
  lemma {:induction false} PassesIffTokenVerifies(header: Option<string>, jwt: Jwt)
    ensures Authenticate(header, jwt).Next? <==>
      header.Some? && StartsWith(header.value, BearerPrefix)
      && jwt.verify(Split(header.value[|BearerPrefix|..])[0]).Some?
    ensures Authenticate(header, jwt).Next? ==>
      Authenticate(header, jwt).user == jwt.verify(Split(header.value[|BearerPrefix|..])[0]).value
  {
    if header.Some? && StartsWith(header.value, BearerPrefix) {
      BearerTokenIsFirstWord(header.value);
    }
  }

  /** A token issued by the library, sent behind the prefix, lets the request
      through with the payload it was issued for. */
  lemma {:induction false} IssuedTokenPasses(jwt: Jwt, c: Claims)
    requires Faithful(jwt) && ' ' !in jwt.sign(c)
    ensures Authenticate(Some(BearerPrefix + jwt.sign(c)), jwt) == Next(c)
  {
    BearerTokenRoundTrip(jwt.sign(c));
    assert jwt.verify(jwt.sign(c)) == Some(c);
  }
}
