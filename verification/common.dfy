/** Vocabulary shared by every part of the model: optional values, results,
    the integer clock, record identifiers and JavaScript truthiness. */
module Common {

  /** A value that may be absent (`undefined` or `null` in the original). */
  datatype Option<+T> = None | Some(value: T) {
    /** The value, or `default` when absent. */
    function GetOr(default: T): T {
      match this
      case Some(v) => v
      case None => default
    }
  }

  /** The outcome of an operation that can fail with an error value. */
  datatype Result<+T, +E> = Ok(value: T) | Err(error: E)

  /** Milliseconds since the Unix epoch, as a JavaScript `Date` holds them. */
  type Time = int

  /** A record's primary key (`_id`). */
  type LinkId = string

  /** An account's primary key. */
  type UserId = string

  /** JavaScript truthiness of an optional string: absent, `null` and "" are falsy. */
  predicate Present(s: Option<string>) {
    s.Some? && s.value != ""
  }

  /** The JavaScript expression `a || b` on optional strings. */
  function Or(a: Option<string>, b: Option<string>): Option<string> {
    if Present(a) then a else b
  }

  /** JavaScript's `length` of a string: UTF-16 code units, so a character
      outside the Basic Multilingual Plane counts twice. */
  function Utf16Length(s: string): (n: nat)
    ensures |s| <= n <= 2 * |s|
    decreases |s|
  {
    if |s| == 0 then 0
    else Utf16Length(s[..|s| - 1]) + (if s[|s| - 1] as int >= 0x1_0000 then 2 else 1)
  }

  /** On text of the Basic Multilingual Plane the two lengths agree. */
  lemma {:induction false} Utf16LengthOfBmp(s: string)
    requires forall i :: 0 <= i < |s| ==> s[i] as int < 0x1_0000
    ensures Utf16Length(s) == |s|
    decreases |s|
  {
    if |s| > 0 {
      Utf16LengthOfBmp(s[..|s| - 1]);
    }
  }

  /** Code units add up over concatenation. */
  lemma {:induction false} Utf16LengthConcat(a: string, b: string)
    ensures Utf16Length(a + b) == Utf16Length(a) + Utf16Length(b)
    decreases |b|
  {
    if |b| > 0 {
      var b' := b[..|b| - 1];
      assert (a + b)[..|a + b| - 1] == a + b';
      Utf16LengthConcat(a, b');
    } else {
      assert a + b == a;
    }
  }

  /** Three emoji are six code units: JavaScript counts them as length 6. */
  lemma ThreeEmojiAreSixUnits()
    ensures |"\U{1F600}\U{1F600}\U{1F600}"| == 3
    ensures Utf16Length("\U{1F600}\U{1F600}\U{1F600}") == 6
  {
    var e := "\U{1F600}\U{1F600}\U{1F600}";
    assert e[..2] == "\U{1F600}\U{1F600}";
    assert e[..2][..1] == "\U{1F600}";
    assert e[..2][..1][..0] == "";
  }

  /** A scalar JSON value as it can arrive in a request body. */
  datatype Json = JNull | JBool(b: bool) | JNum(n: int) | JStr(s: string)

  /** JavaScript `Boolean(v)` for an optional JSON scalar (absent is `undefined`). */
  predicate Truthy(v: Option<Json>) {
    match v
    case None => false
    case Some(JNull) => false
    case Some(JBool(b)) => b
    case Some(JNum(n)) => n != 0
    case Some(JStr(s)) => s != ""
  }

  /** The bcrypt library, left uninterpreted: a salted one-way hash and its check. */
  datatype Bcrypt = Bcrypt(hash: (string, nat) -> string, compare: (string, string) -> bool)

  /** A bcrypt whose check accepts every password against a hash made from it. */
  ghost predicate Sound(b: Bcrypt) {
    forall p: string, salt: nat {:trigger b.hash(p, salt)} :: b.compare(p, b.hash(p, salt))
  }

  /** The identity carried by a bearer token: the `{id, email}` payload. */
  datatype Claims = Claims(id: UserId, email: string)

  /** The jsonwebtoken library, left uninterpreted: `sign` a payload, and
      `verify` a token at the current instant (secret and lifetime folded in). */
  datatype Jwt = Jwt(sign: Claims -> string, verify: string -> Option<Claims>)

  /** A token library that accepts its own fresh tokens and gives back their
      payload, and refuses the empty token (jsonwebtoken throws "jwt must be
      provided" for it). */
  ghost predicate Faithful(j: Jwt) {
    && j.verify("") == None
    && forall c: Claims {:trigger j.sign(c)} :: j.verify(j.sign(c)) == Some(c)
  }
}
