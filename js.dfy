/// JavaScript value conventions that the route handlers rely on: a field of a
/// request body may be absent (`undefined`), and `a || b` yields `b` whenever
/// `a` is falsy.
module Js {

  datatype Option<+T> = None | Some(value: T)

  /** A string-valued field is truthy when it is present and not empty. */
  predicate Truthy(o: Option<string>)
    ensures !Truthy(o) <==> o == None || o == Some("")
  {
    o.Some? && o.value != ""
  }

  /** `a || b` where both operands are optional strings. */
  function Or(a: Option<string>, b: Option<string>): (r: Option<string>)
    ensures r == a || r == b
    ensures Truthy(r) <==> Truthy(a) || Truthy(b)
    ensures Truthy(a) ==> r == a
    ensures !Truthy(a) ==> r == b
  {
    if Truthy(a) then a else b
  }

  /** `a || b` where `b` is a string literal. */
  function OrElse(a: Option<string>, b: string): (r: string)
    ensures r == b || a == Some(r)
    ensures r != "" <==> Truthy(a) || b != ""
    ensures Truthy(a) ==> r == a.value
  {
    if Truthy(a) then a.value else b
  }

  /** `a || b` where `a` is an optional number and `b` a number: 0 is falsy. */
  function NumberOr(a: Option<int>, b: int): (r: int)
    ensures r == b || a == Some(r)
    ensures r != 0 <==> (a.Some? && a.value != 0) || b != 0
    ensures a.Some? && a.value != 0 ==> r == a.value
  {
    if a.Some? && a.value != 0 then a.value else b
  }

  /** `s.startsWith(prefix)`. */
  predicate StartsWith(s: string, prefix: string)
    ensures StartsWith(s, prefix) ==> |prefix| <= |s| && s == prefix + s[|prefix|..]
    ensures forall t :: s == prefix + t ==> StartsWith(s, prefix)
  {
    |prefix| <= |s| && s[..|prefix|] == prefix
  }
}
