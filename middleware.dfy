/// The bearer-token guard placed in front of the protected routes: it reads
/// the `Authorization` header, takes the token after "Bearer ", asks the
/// token verifier for its claims and, on success, attaches them to the
/// request and hands the request on.
module AuthMiddleware {
  import opened Js

  /** What a session token carries: the user's name and role. */
  datatype Claims = Claims(username: string, role: string)

  /** The response the guard sends when it stops a request. */
  datatype Rejection = Rejection(status: int, message: string)

  const NoTokenProvided: string := "No token provided"
  const InvalidToken: string := "Invalid token"
  const BearerPrefix: string := "Bearer "

  /** `s.split(sep)` for a one-character separator: the maximal runs between
      separators, empty runs included. */
  function Split(s: string, sep: char): (fields: seq<string>)
    ensures 1 <= |fields| && (sep in s ==> 2 <= |fields|)
    ensures forall i :: 0 <= i < |fields| ==> sep !in fields[i]
  {
    if s == [] then [""]
    else
      assert s == [s[0]] + s[1..];
      var rest := Split(s[1..], sep);
      if s[0] == sep then [""] + rest
      else [[s[0]] + rest[0]] + rest[1..]
  }

  /** There is one more field than there are separators. */
  lemma {:induction false} SplitCount(s: string, sep: char)
    ensures |Split(s, sep)| == multiset(s)[sep] + 1
  {
    if s != [] {
      SplitCount(s[1..], sep);
      assert s == [s[0]] + s[1..];
    }
  }

  /** `fields.join(sep)`. */
  function Join(fields: seq<string>, sep: char): string
    requires |fields| >= 1
  {
    if |fields| == 1 then fields[0] else fields[0] + [sep] + Join(fields[1..], sep)
  }

  /** Splitting loses nothing: joining the fields back gives the string. */
  lemma {:induction false} JoinSplit(s: string, sep: char)
    ensures Join(Split(s, sep), sep) == s
  {
    if s != [] {
      JoinSplit(s[1..], sep);
      JoinSplitStep(s, sep);
    }
  }

  /** The inductive step: one more leading character. */
  lemma JoinSplitStep(s: string, sep: char)
    requires s != [] && Join(Split(s[1..], sep), sep) == s[1..]
    ensures Join(Split(s, sep), sep) == s
  {
    var rest := Split(s[1..], sep);
    assert s == [s[0]] + s[1..];
    if s[0] != sep && |rest| > 1 {
      assert Join(rest, sep) == rest[0] + [sep] + Join(rest[1..], sep);
      assert ([[s[0]] + rest[0]] + rest[1..])[1..] == rest[1..];
    }
  }

  /** The first field is the longest separator-free prefix. */
  lemma {:induction false} FirstField(s: string, sep: char)
    ensures var f := Split(s, sep)[0];
            && StartsWith(s, f)
            && (|f| == |s| || s[|f|] == sep)
  {
    if s != [] && s[0] != sep {
      FirstField(s[1..], sep);
      var f := Split(s[1..], sep)[0];
      assert Split(s, sep)[0] == [s[0]] + f;
      assert s[..|f| + 1] == [s[0]] + s[1..][..|f|];
    }
  }

  /** A separator-free field in front of a separator is split off whole. */
  lemma {:induction false} SplitLeadingField(a: string, sep: char, t: string)
    requires sep !in a
    ensures Split(a + [sep] + t, sep) == [a] + Split(t, sep)
  {
    if a != [] {
      SplitLeadingField(a[1..], sep, t);
      var s := a + [sep] + t;
      assert s[0] == a[0] && s[1..] == a[1..] + [sep] + t;
      assert [a[0]] + a[1..] == a;
    } else {
      assert (a + [sep] + t)[1..] == t;
    }
  }

  /** The token the guard passes to the verifier: `header.split(" ")[1]`
      when the header is present and starts with "Bearer ", none otherwise. */
  function BearerToken(header: Option<string>): (token: Option<string>)
    ensures token.Some? <==> header.Some? && StartsWith(header.value, BearerPrefix)
  {
    if !Truthy(header) || !StartsWith(header.value, BearerPrefix) then None
    else
      assert header.value[|BearerPrefix| - 1] == ' ';
      Some(Split(header.value, ' ')[1])
  }

  /** That token is the text after "Bearer " up to the next space. */
  lemma BearerTokenIsFirstWord(h: string)
    requires StartsWith(h, BearerPrefix)
    ensures var rest := h[|BearerPrefix|..];
            var token := BearerToken(Some(h)).value;
            && ' ' !in token
            && StartsWith(rest, token)
            && (|token| == |rest| || rest[|token|] == ' ')
  {
    var rest := h[|BearerPrefix|..];
    assert h == "Bearer" + [' '] + rest;
    SplitLeadingField("Bearer", ' ', rest);
    FirstField(rest, ' ');
  }

  /** The second field of `p a b` is `a` when neither `p` nor `a` holds a space. */
  lemma SecondField(p: string, a: string, b: string)
    requires ' ' !in p && ' ' !in a
    ensures Split(p + [' '] + a + [' '] + b, ' ')[1] == a
  {
    assert p + [' '] + a + [' '] + b == p + [' '] + (a + [' '] + b);
    SplitLeadingField(p, ' ', a + [' '] + b);
    SplitLeadingField(a, ' ', b);
  }

  /** Only the second space-separated field is the token: for
      "Bearer a b" the verifier is asked about "a", never "a b". */
  lemma {:induction false} BearerTokenIsSecondField(a: string, b: string)
    requires ' ' !in a
    ensures BearerToken(Some(BearerPrefix + a + [' '] + b)) == Some(a)
  {
    var h := BearerPrefix + a + [' '] + b;
    assert StartsWith(h, BearerPrefix);
    SecondField("Bearer", a, b);
    assert h == "Bearer" + [' '] + a + [' '] + b;
  }

  /** A request on its way through the guard: its header, the user the guard
      attaches, and how many times the next handler was called. */
  class AuthRequest {
    const authorization: Option<string>
    var user: Option<Claims>
    var nextCalls: nat

    constructor (authorization: Option<string>)
      ensures this.authorization == authorization && user == None && nextCalls == 0
    {
      this.authorization := authorization;
      user := None;
      nextCalls := 0;
    }
  }

  /** The guard. A missing or non-bearer header is refused with "No token
      provided", a token the verifier rejects with "Invalid token"; in both
      cases the request is untouched and not passed on. Otherwise the
      verified claims become `req.user` and the next handler runs once.
      `verify` stands for the signature and expiry check of the token
      library: it yields the claims, or none when it would throw. */
  method Authenticate(req: AuthRequest, verify: string -> Option<Claims>) returns (rejected: Option<Rejection>)
    modifies req
    ensures BearerToken(req.authorization).None? ==>
              rejected == Some(Rejection(401, NoTokenProvided)) && unchanged(req)
    ensures BearerToken(req.authorization).Some? && verify(BearerToken(req.authorization).value).None? ==>
              rejected == Some(Rejection(401, InvalidToken)) && unchanged(req)
    ensures BearerToken(req.authorization).Some? && verify(BearerToken(req.authorization).value).Some? ==>
              && rejected == None
              && req.user == verify(BearerToken(req.authorization).value)
              && req.nextCalls == old(req.nextCalls) + 1
  {
    var header := req.authorization;
    if !Truthy(header) || !StartsWith(header.value, BearerPrefix) {
      return Some(Rejection(401, NoTokenProvided));
    }
    assert header.value[|BearerPrefix| - 1] == ' ';
    var token := Split(header.value, ' ')[1];
    var decoded := verify(token);
    if decoded.None? {
      return Some(Rejection(401, InvalidToken));
    }
    req.user := decoded;
    req.nextCalls := req.nextCalls + 1;
    rejected := None;
  }
}
