/** String helpers the source takes from JavaScript: `String.prototype.trim`, the default
    ordering `Array.prototype.sort` uses on strings, and the text form of an identifier. */
module Text {

  /** The code points JavaScript's `trim` removes: WhiteSpace and LineTerminator of
      ECMA-262 (sections 12.2 and 12.3), that is TAB, VT, FF, ZWNBSP, every Zs space,
      LF, CR, LINE SEPARATOR and PARAGRAPH SEPARATOR. */
  predicate IsSpace(c: char) {
    || c == '\t' || c == '\n' || c == '\U{000B}' || c == '\U{000C}' || c == '\r'
    || c == ' ' || c == '\U{00A0}' || c == '\U{1680}'
    || ('\U{2000}' <= c <= '\U{200A}')
    || c == '\U{2028}' || c == '\U{2029}' || c == '\U{202F}' || c == '\U{205F}'
    || c == '\U{3000}' || c == '\U{FEFF}'
  }

  predicate AllSpace(s: string) {
    forall i :: 0 <= i < |s| ==> IsSpace(s[i])
  }

  /** `s` without its leading white space: a suffix of `s` whose dropped part is all space. */
  function TrimStart(s: string): (t: string)
    ensures |t| <= |s| && t == s[|s| - |t|..]
    ensures AllSpace(s[..|s| - |t|])
    ensures t == [] || !IsSpace(t[0])
    decreases |s|
  {
    if s != [] && IsSpace(s[0]) then
      var t := TrimStart(s[1..]);
      assert s[..|s| - |t|] == [s[0]] + s[1..][..|s| - 1 - |t|];
      t
    else
      s
  }

  /** `s` without its trailing white space: a prefix of `s` whose dropped part is all space. */
  function TrimEnd(s: string): (t: string)
    ensures |t| <= |s| && t == s[..|t|]
    ensures AllSpace(s[|t|..])
    ensures t == [] || !IsSpace(t[|t| - 1])
    decreases |s|
  {
    if s != [] && IsSpace(s[|s| - 1]) then
      var t := TrimEnd(s[..|s| - 1]);
      assert s[|t|..] == s[..|s| - 1][|t|..] + [s[|s| - 1]];
      t
    else
      s
  }

  /** `t` is `s` with the all-space prefix `s[..p]` and an all-space suffix cut off. */
  predicate CutFrom(s: string, t: string, p: int) {
    0 <= p <= |s| - |t| && t == s[p..p + |t|] && AllSpace(s[..p]) && AllSpace(s[p + |t|..])
  }

  /** JavaScript's `s.trim()`: the middle part of `s` left once the white space at both ends
      is cut off. It is empty exactly when `s` is all white space. */
  function Trim(s: string): (t: string)
    ensures |t| <= |s|
    ensures t == [] || (!IsSpace(t[0]) && !IsSpace(t[|t| - 1]))
    ensures exists p :: CutFrom(s, t, p)
    ensures t == [] <==> AllSpace(s)
  {
    TrimCut(s);
    TrimEmpty(s);
    TrimEnd(TrimStart(s))
  }

  lemma TrimCut(s: string)
    ensures exists p :: CutFrom(s, TrimEnd(TrimStart(s)), p)
  {
    var u := TrimStart(s);
    var t := TrimEnd(u);
    var p := |s| - |u|;
    assert s[p + |t|..] == u[|t|..];
    assert CutFrom(s, t, p);
  }

  lemma TrimEmpty(s: string)
    ensures TrimEnd(TrimStart(s)) == [] <==> AllSpace(s)
  {
    var u := TrimStart(s);
    if TrimEnd(u) == [] {
      assert u == [];
      assert s == s[..|s| - |u|];
    }
  }

  /** The order JavaScript uses to sort strings: code unit by code unit, a proper prefix
      first. */
  predicate LexLe(a: string, b: string) {
    a == [] || (b != [] && (a[0] < b[0] || (a[0] == b[0] && LexLe(a[1..], b[1..]))))
  }

  lemma {:induction false} LexLeTotal(a: string, b: string)
    ensures LexLe(a, b) || LexLe(b, a)
  {
    if a != [] && b != [] && a[0] == b[0] {
      LexLeTotal(a[1..], b[1..]);
    }
  }

  lemma {:induction false} LexLeAntisymmetric(a: string, b: string)
    requires LexLe(a, b) && LexLe(b, a)
    ensures a == b
  {
    if a != [] && b != [] {
      LexLeAntisymmetric(a[1..], b[1..]);
      assert a == [a[0]] + a[1..] && b == [b[0]] + b[1..];
    }
  }

  function Digit(d: nat): (c: char)
    requires d < 10
    ensures '0' <= c <= '9'
    ensures c as int == '0' as int + d
  {
    ('0' as int + d) as char
  }

  /** The text an identifier is written as where the source interpolates it into a string:
      a non-empty run of decimal digits, so it never holds the ':' separator. */
  function IdText(n: nat): (s: string)
    ensures s != []
    ensures forall i :: 0 <= i < |s| ==> '0' <= s[i] <= '9'
  {
    if n < 10 then [Digit(n)] else IdText(n / 10) + [Digit(n % 10)]
  }

  /** One-digit numbers and only they are written with one character. */
  lemma IdTextSingle(n: nat)
    ensures |IdText(n)| == 1 <==> n < 10
  {
  }

  /** Different identifiers are written differently. */
  lemma {:induction false} IdTextInjective(m: nat, n: nat)
    requires IdText(m) == IdText(n)
    ensures m == n
  {
    IdTextSingle(m);
    IdTextSingle(n);
    if m >= 10 && n >= 10 {
      var tm, tn := IdText(m), IdText(n);
      assert tm[|tm| - 1] == Digit(m % 10) && tn[|tn| - 1] == Digit(n % 10);
      assert tm[..|tm| - 1] == IdText(m / 10) && tn[..|tn| - 1] == IdText(n / 10);
      IdTextInjective(m / 10, n / 10);
    }
  }
}
