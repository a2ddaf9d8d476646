/**
 * The parts of JavaScript's string semantics the handlers rely on:
 * the white space that `String.prototype.trim` and `parseInt` skip,
 * and `trim` itself.
 */
module JsText {

  /**
   * ECMAScript WhiteSpace (TAB, VT, FF, ZWNBSP and every space separator of
   * category Zs) together with LineTerminator (LF, CR, LS, PS). All of these
   * lie in the Basic Multilingual Plane, so a UTF-16 code unit and a Dafny
   * char agree on them.
   */
  predicate IsWhitespace(c: char) {
    var n := c as int;
    || n == 0x09 || n == 0x0B || n == 0x0C || n == 0x20 || n == 0xA0 || n == 0xFEFF
    || n == 0x1680 || (0x2000 <= n <= 0x200A) || n == 0x202F || n == 0x205F || n == 0x3000
    || n == 0x0A || n == 0x0D || n == 0x2028 || n == 0x2029
  }

  /** Every character of `s` is white space (vacuously true of ""). */
  predicate Blank(s: string) {
    forall i :: 0 <= i < |s| ==> IsWhitespace(s[i])
  }

  /** Drops leading white space. */
  function TrimStart(s: string): (r: string)
    ensures r == [] <==> Blank(s)
    ensures r != [] ==> !IsWhitespace(r[0])
  {
    if s == [] || !IsWhitespace(s[0]) then s
    else
      assert forall i :: 0 <= i < |s| - 1 ==> s[1..][i] == s[i + 1];
      TrimStart(s[1..])
  }

  /** Drops trailing white space; the result is a prefix of `s`. */
  function TrimEnd(s: string): (r: string)
    ensures |r| <= |s| && r == s[..|r|]
    ensures r == [] <==> Blank(s)
    ensures r != [] ==> !IsWhitespace(r[|r| - 1])
  {
    if s == [] || !IsWhitespace(s[|s| - 1]) then s
    else TrimEnd(s[..|s| - 1])
  }

  /** `s.trim()`: empty exactly when `s` holds nothing but white space. */
  function Trim(s: string): (r: string)
    ensures r == [] <==> Blank(s)
    ensures r != [] ==> !IsWhitespace(r[0]) && !IsWhitespace(r[|r| - 1])
  {
    var u := TrimStart(s);
    assert Blank(u) ==> u == [] by {
      if u != [] { assert !IsWhitespace(u[0]); }
    }
    TrimEnd(u)
  }

  /** Leading white space in front of a non-space character is all `TrimStart` removes. */
  lemma {:induction false} TrimStartAfterPadding(pad: string, x: string)
    requires Blank(pad)
    requires x != [] && !IsWhitespace(x[0])
    ensures TrimStart(pad + x) == x
  {
    if pad != [] {
      assert (pad + x)[1..] == pad[1..] + x;
      TrimStartAfterPadding(pad[1..], x);
    } else {
      assert pad + x == x;
    }
  }
}
