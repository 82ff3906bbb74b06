/**
 * String helpers with JavaScript semantics. A `string` is a sequence of Unicode
 * scalar values; `Utf16` gives the code units JavaScript lengths and indices count.
 * The two agree on text inside the Basic Multilingual Plane.
 */
module Text {

  /** The characters removed by `String.prototype.trim`: WhiteSpace and LineTerminator. */
  predicate IsJsSpace(c: char) {
    || c == '\t' || c == '\n' || c == '\U{000B}' || c == '\U{000C}' || c == '\r'
    || c == ' ' || c == '\U{00A0}' || c == '\U{1680}'
    || ('\U{2000}' <= c <= '\U{200A}')
    || c == '\U{2028}' || c == '\U{2029}' || c == '\U{202F}' || c == '\U{205F}'
    || c == '\U{3000}' || c == '\U{FEFF}'
  }

  predicate AllSpace(s: string) {
    forall i :: 0 <= i < |s| ==> IsJsSpace(s[i])
  }

  /** Neither end of `s` is a trimmable character. */
  predicate IsTrimmed(s: string) {
    |s| == 0 || (!IsJsSpace(s[0]) && !IsJsSpace(s[|s| - 1]))
  }

  /** Length of the longest all-space prefix. */
  function LeadingSpaces(s: string): (n: nat)
    ensures n <= |s|
    ensures AllSpace(s[..n])
    ensures n < |s| ==> !IsJsSpace(s[n])
    decreases |s|
  {
    if |s| > 0 && IsJsSpace(s[0]) then
      var m := LeadingSpaces(s[1..]);
      assert s[1..][..m] == s[1..m + 1];
      1 + m
    else 0
  }

  /** Where the run of spaces that ends at offset `e` begins. */
  function SpaceRunStart(s: string, e: nat): (b: nat)
    requires e <= |s|
    ensures b <= e
    ensures forall i :: b <= i < e ==> IsJsSpace(s[i])
    ensures b > 0 ==> !IsJsSpace(s[b - 1])
    decreases e
  {
    if e > 0 && IsJsSpace(s[e - 1]) then SpaceRunStart(s, e - 1) else e
  }

  /** Length of the longest all-space suffix. */
  function TrailingSpaces(s: string): (n: nat)
    ensures n <= |s|
    ensures AllSpace(s[|s| - n..])
    ensures n < |s| ==> !IsJsSpace(s[|s| - n - 1])
  {
    var b := SpaceRunStart(s, |s|);
    assert forall j :: 0 <= j < |s| - b ==> s[b..][j] == s[b + j];
    |s| - b
  }

  /**
   * `String.prototype.trim`: the part of `s` left after removing the leading
   * space run; everything after the result is space as well.
   */
  function Trim(s: string): (r: string)
    ensures IsTrimmed(r)
    ensures LeadingSpaces(s) + |r| <= |s|
    ensures r == s[LeadingSpaces(s)..LeadingSpaces(s) + |r|]
    ensures AllSpace(s[LeadingSpaces(s) + |r|..])
  {
    var a := LeadingSpaces(s);
    if a == |s| then "" else s[a..|s| - TrailingSpaces(s)]
  }

  /** Trimming strips exactly the surrounding space runs and nothing of a trimmed core. */
  lemma TrimStrips(w1: string, t: string, w2: string)
    requires AllSpace(w1) && AllSpace(w2) && IsTrimmed(t)
    ensures Trim(w1 + t + w2) == t
  {
    var s := w1 + t + w2;
    if |t| == 0 {
      assert AllSpace(s) by {
        forall i | 0 <= i < |s| ensures IsJsSpace(s[i]) {
          if i < |w1| { assert s[i] == w1[i]; } else { assert s[i] == w2[i - |w1|]; }
        }
      }
    } else {
      assert s[..|w1|] == w1 && s[|w1|..|w1| + |t|] == t && s[|w1| + |t|..] == w2;
      TrimUnique(s, |w1|, t);
    }
  }

  /** A non-empty trimmed infix with only spaces around it is the trim. */
  lemma TrimUnique(s: string, i: nat, t: string)
    requires i + |t| <= |s| && 0 < |t| && IsTrimmed(t)
    requires AllSpace(s[..i]) && s[i..i + |t|] == t && AllSpace(s[i + |t|..])
    ensures Trim(s) == t
  {
    var a := LeadingSpaces(s);
    var r := Trim(s);
    assert s[i] == t[0];
    assert a == i;
    assert s[i + |t| - 1] == t[|t| - 1];
    SpaceSuffix(s, a + |r|);
    assert |r| >= |t|;
    SpaceSuffix(s, i + |t|);
    assert r[|r| - 1] == s[a + |r| - 1];
    assert |r| == |t|;
  }

  lemma SpaceSuffix(s: string, k: nat)
    requires k <= |s| && AllSpace(s[k..])
    ensures forall i :: k <= i < |s| ==> IsJsSpace(s[i])
  {
    forall i | k <= i < |s| ensures IsJsSpace(s[i]) {
      assert s[k..][i - k] == s[i];
    }
  }

  /** Cutting at two indices and joining the pieces gives the string back. */
  lemma Split3(s: string, a: nat, b: nat)
    requires a <= b <= |s|
    ensures s == s[..a] + s[a..b] + s[b..]
  {
  }

  /** `s` splits into its leading spaces, its trim, and trailing spaces. */
  lemma TrimSplit(s: string)
    ensures s == s[..LeadingSpaces(s)] + Trim(s) + s[LeadingSpaces(s) + |Trim(s)|..]
  {
    var a := LeadingSpaces(s);
    var r := Trim(s);
    Split3(s, a, a + |r|);
  }

  /** Trimming leaves an already trimmed string alone; in particular it is idempotent. */
  lemma TrimKeepsTrimmed(t: string)
    requires IsTrimmed(t)
    ensures Trim(t) == t
  {
    assert t == "" + t + "";
    TrimStrips("", t, "");
  }

  lemma SpacesThenNewline(w: string)
    requires AllSpace(w)
    ensures AllSpace(w + "\n")
  {
    forall i | 0 <= i < |w + "\n"| ensures IsJsSpace((w + "\n")[i]) {
      if i < |w| { assert (w + "\n")[i] == w[i]; }
    }
  }

  /** Appending a newline never changes the trimmed text. */
  lemma {:induction false} TrimIgnoresTrailingNewline(s: string)
    ensures Trim(s + "\n") == Trim(s)
  {
    var a := LeadingSpaces(s);
    var r := Trim(s);
    TrimSplit(s);
    var w2 := s[a + |r|..];
    assert s + "\n" == s[..a] + r + (w2 + "\n");
    SpacesThenNewline(w2);
    TrimStrips(s[..a], r, w2 + "\n");
  }

  /** `\w` without the `u` flag: ASCII letters, digits and underscore. */
  predicate IsWordChar(c: char) {
    ('a' <= c <= 'z') || ('A' <= c <= 'Z') || ('0' <= c <= '9') || c == '_'
  }

  predicate AllWord(s: string) {
    forall i :: 0 <= i < |s| ==> IsWordChar(s[i])
  }

  predicate NoBacktick(s: string) {
    forall i :: 0 <= i < |s| ==> s[i] != '`'
  }

  /** `s.slice(-n)` for n > 0: the last n characters, or all of `s` when shorter. */
  function SliceLast(s: string, n: nat): (r: string)
    requires n > 0
    ensures |r| == if |s| < n then |s| else n
    ensures r == s[|s| - |r|..]
  {
    var start := if |s| - n < 0 then 0 else |s| - n;
    s[start..]
  }

  function DigitChar(d: nat): (c: char)
    requires d < 10
  {
    "0123456789"[d]
  }

  function DigitValue(c: char): (d: nat)
    requires '0' <= c <= '9'
    ensures d < 10
  {
    (c as int - '0' as int) as nat
  }

  /** Decimal rendering of a natural number, as JavaScript's number-to-string gives it. */
  function NatToString(n: nat): (r: string)
    ensures |r| > 0
    ensures forall i :: 0 <= i < |r| ==> '0' <= r[i] <= '9'
    ensures (|r| == 1) == (n < 10)
    ensures |r| > 1 ==> r[0] != '0'
    decreases n
  {
    if n < 10 then [DigitChar(n)] else NatToString(n / 10) + [DigitChar(n % 10)]
  }

  /** Decimal rendering of an integer; negatives carry a leading '-'. */
  function IntToString(i: int): string {
    if i < 0 then "-" + NatToString(-i) else NatToString(i)
  }

  /** Value of a string of decimal digits. */
  function DecimalValue(s: string): nat
    requires forall i :: 0 <= i < |s| ==> '0' <= s[i] <= '9'
    decreases |s|
  {
    if |s| == 0 then 0 else 10 * DecimalValue(s[..|s| - 1]) + DigitValue(s[|s| - 1])
  }

  /** Reading the decimal rendering back gives the number. */
  lemma {:induction false} NatToStringRoundTrip(n: nat)
    ensures DecimalValue(NatToString(n)) == n
    decreases n
  {
    var s := NatToString(n);
    if n < 10 {
      assert DigitValue(DigitChar(n)) == n;
    } else {
      NatToStringRoundTrip(n / 10);
      assert s[..|s| - 1] == NatToString(n / 10);
      assert DigitValue(DigitChar(n % 10)) == n % 10;
    }
  }

  /** A digit string with a leading non-zero digit has a positive value. */
  lemma {:induction false} LeadingDigitPositive(s: string)
    requires |s| > 0 && s[0] != '0'
    requires forall i :: 0 <= i < |s| ==> '0' <= s[i] <= '9'
    ensures DecimalValue(s) > 0
    decreases |s|
  {
    if |s| > 1 {
      var p := s[..|s| - 1];
      assert p[0] == s[0];
      LeadingDigitPositive(p);
    }
  }

  /** The rendering is the only digit string without a leading zero that reads back as n. */
  lemma {:induction false} NatToStringUnique(s: string, n: nat)
    requires |s| > 0 && (|s| > 1 ==> s[0] != '0')
    requires forall i :: 0 <= i < |s| ==> '0' <= s[i] <= '9'
    requires DecimalValue(s) == n
    ensures s == NatToString(n)
    decreases |s|
  {
    var d := s[|s| - 1];
    if |s| == 1 {
      assert DigitChar(DigitValue(d)) == d;
    } else {
      var p := s[..|s| - 1];
      assert p[0] == s[0];
      LeadingDigitPositive(p);
      assert n / 10 == DecimalValue(p) && n % 10 == DigitValue(d);
      NatToStringUnique(p, n / 10);
      assert DigitChar(DigitValue(d)) == d;
      assert s == p + [d];
    }
  }

  /** A UTF-16 code unit: what JavaScript's `length` and `substring` count. */
  newtype CodeUnit = x: int | 0 <= x < 0x1_0000

  /** One character in UTF-16: one unit inside the Basic Multilingual Plane, else a surrogate pair. */
  function Utf16Char(c: char): (u: seq<CodeUnit>)
    ensures c as int < 0x1_0000 ==> u == [c as int as CodeUnit]
    ensures c as int >= 0x1_0000 ==>
              && |u| == 2
              && 0xD800 <= u[0] as int < 0xDC00 <= u[1] as int < 0xE000
              && (u[0] as int - 0xD800) * 0x400 + (u[1] as int - 0xDC00) + 0x1_0000 == c as int
  {
    var v := c as int;
    if v < 0x1_0000 then [v as CodeUnit]
    else [(0xD800 + (v - 0x1_0000) / 0x400) as CodeUnit, (0xDC00 + (v - 0x1_0000) % 0x400) as CodeUnit]
  }

  /** The UTF-16 encoding of a string, character by character. */
  function Utf16(s: string): (u: seq<CodeUnit>)
    ensures |u| >= |s|
    decreases |s|
  {
    if |s| == 0 then [] else Utf16Char(s[0]) + Utf16(s[1..])
  }

  predicate InBmp(s: string) {
    forall i :: 0 <= i < |s| ==> s[i] as int < 0x1_0000
  }

  /** Encoding distributes over concatenation. */
  lemma {:induction false} Utf16Append(a: string, b: string)
    ensures Utf16(a + b) == Utf16(a) + Utf16(b)
    decreases |a|
  {
    if |a| == 0 {
      assert a + b == b;
    } else {
      assert (a + b)[0] == a[0] && (a + b)[1..] == a[1..] + b;
      Utf16Append(a[1..], b);
    }
  }

  /** Inside the Basic Multilingual Plane each character is exactly one code unit. */
  lemma {:induction false} Utf16OfBmp(s: string)
    requires InBmp(s)
    ensures |Utf16(s)| == |s|
    ensures forall i :: 0 <= i < |s| ==> Utf16(s)[i] as int == s[i] as int
    decreases |s|
  {
    if |s| > 0 {
      Utf16OfBmp(s[1..]);
      forall i | 0 <= i < |s|
        ensures Utf16(s)[i] as int == s[i] as int
      {
        if i > 0 {
          assert Utf16(s)[i] == Utf16(s[1..])[i - 1];
        }
      }
    }
  }

  /** Inside the Basic Multilingual Plane, cutting characters and cutting code units agree. */
  lemma Utf16PrefixOfBmp(s: string, k: nat)
    requires InBmp(s) && k <= |s|
    ensures Utf16(s[..k]) == Utf16(s)[..k]
  {
    Utf16OfBmp(s);
    Utf16OfBmp(s[..k]);
  }

  /** Outside the Basic Multilingual Plane each character takes two code units. */
  lemma {:induction false} Utf16OfAstral(s: string)
    requires forall i :: 0 <= i < |s| ==> s[i] as int >= 0x1_0000
    ensures |Utf16(s)| == 2 * |s|
    decreases |s|
  {
    if |s| > 0 {
      Utf16OfAstral(s[1..]);
    }
  }
}
