/** The JavaScript string behaviour the article pipeline relies on: truthiness
    of optional text fields, `||` defaults, `toLowerCase`, `trim`, `includes`,
    and the decimal rendering of a number inside a template string. */
module JsStrings {
  import opened Prelude

  /** A text field is truthy unless it is absent (`null`/`undefined`) or `""`. */
  predicate Truthy(x: Option<string>)
  {
    x.Some? && x.value != ""
  }

  /** `x || fallback` for a text field. */
  function Or(x: Option<string>, fallback: string): string
  {
    if Truthy(x) then x.value else fallback
  }

  /** `toLowerCase` on one character; only the ASCII letters are mapped. */
  function LowerChar(c: char): char
  {
    if 'A' <= c <= 'Z' then (c as int + 32) as char else c
  }

  function ToLower(s: string): string
  {
    seq(|s|, i requires 0 <= i < |s| => LowerChar(s[i]))
  }

  /** The characters `String.prototype.trim` removes: the ECMAScript
      WhiteSpace and LineTerminator code points. */
  predicate IsSpace(c: char)
  {
    || c == '\t' || c == '\n' || c == '\U{B}' || c == '\U{C}' || c == '\r'
    || c == ' ' || c == '\U{A0}' || c == '\U{1680}'
    || ('\U{2000}' <= c <= '\U{200A}')
    || c == '\U{2028}' || c == '\U{2029}' || c == '\U{202F}' || c == '\U{205F}'
    || c == '\U{3000}' || c == '\U{FEFF}'
  }

  /** `s` with its leading white space removed. */
  function TrimStart(s: string): (r: string)
    ensures |r| <= |s| && r == s[|s| - |r|..]
    ensures r == [] || !IsSpace(r[0])
    ensures forall p :: 0 <= p < |s| - |r| ==> IsSpace(s[p])
  {
    if s != [] && IsSpace(s[0]) then TrimStart(s[1..]) else s
  }

  /** `s` with its trailing white space removed. */
  function TrimEnd(s: string): (r: string)
    ensures |r| <= |s| && r == s[..|r|]
    ensures r == [] || !IsSpace(r[|r| - 1])
    ensures forall p :: |r| <= p < |s| ==> IsSpace(s[p])
  {
    if s != [] && IsSpace(s[|s| - 1]) then TrimEnd(s[..|s| - 1]) else s
  }

  /** `r` is the infix of `s` at `i`, and everything of `s` before and after it is white space. */
  ghost predicate TrimmedAt(s: string, r: string, i: int)
  {
    && 0 <= i <= |s| - |r| && r == s[i..i + |r|]
    && (forall p :: 0 <= p < i ==> IsSpace(s[p]))
    && (forall p :: i + |r| <= p < |s| ==> IsSpace(s[p]))
  }

  /** `trim`: the infix of `s` left once the white space at both ends is
      removed; what is removed is all white space and what is left neither
      starts nor ends with it. */
  function Trim(s: string): (r: string)
    ensures r == [] || (!IsSpace(r[0]) && !IsSpace(r[|r| - 1]))
    ensures |r| <= |s|
    ensures exists i :: TrimmedAt(s, r, i)
  {
    var u := TrimStart(s);
    var r := TrimEnd(u);
    TrimmedFrom(s, u, r);
    r
  }

  /** Removing white space first from the front, then from the back. */
  lemma TrimmedFrom(s: string, u: string, r: string)
    requires |u| <= |s| && u == s[|s| - |u|..] && forall p :: 0 <= p < |s| - |u| ==> IsSpace(s[p])
    requires |r| <= |u| && r == u[..|r|] && forall p :: |r| <= p < |u| ==> IsSpace(u[p])
    ensures TrimmedAt(s, r, |s| - |u|)
  {
    var i := |s| - |u|;
    assert r == s[i..i + |r|];
    forall p | i + |r| <= p < |s|
      ensures IsSpace(s[p])
    {
      assert s[p] == u[p - i];
    }
  }

  /** `q` occurs in `s` starting at position `i`. */
  predicate OccursAt(s: string, q: string, i: int)
  {
    0 <= i <= |s| - |q| && s[i..i + |q|] == q
  }

  /** `s.includes(q)`, scanning `s` from the left. */
  function Contains(s: string, q: string): (r: bool)
    ensures r <==> exists i :: OccursAt(s, q, i)
    decreases |s|
  {
    if q <= s then
      assert OccursAt(s, q, 0);
      true
    else if s == [] then
      false
    else
      assert forall i :: OccursAt(s, q, i) ==> i == 0 || OccursAt(s[1..], q, i - 1);
      assert forall i :: OccursAt(s[1..], q, i) ==> OccursAt(s, q, i + 1);
      Contains(s[1..], q)
  }

  /** The character of decimal digit `d`. */
  function DigitChar(d: nat): (c: char)
    requires d < 10
    ensures '0' <= c <= '9' && c as int - '0' as int == d
  {
    ('0' as int + d) as char
  }

  /** The number a text of decimal digits denotes. */
  function DecimalValue(r: string): nat
    decreases |r|
  {
    if r == [] then 0
    else
      var c := r[|r| - 1];
      var d := if '0' <= c <= '9' then c as int - '0' as int else 0;
      10 * DecimalValue(r[..|r| - 1]) + d
  }

  /** The decimal text of `n`, as a template string renders a number: only
      digits, no leading zero, and denoting `n`. */
  function NatToString(n: nat): (r: string)
    ensures r != []
    ensures forall k :: 0 <= k < |r| ==> '0' <= r[k] <= '9'
    ensures r[0] == '0' ==> n == 0 && r == "0"
    ensures DecimalValue(r) == n
    decreases n
  {
    if n < 10 then [DigitChar(n)]
    else
      var init := NatToString(n / 10);
      var r := init + [DigitChar(n % 10)];
      assert r[..|r| - 1] == init;
      r
  }
}
