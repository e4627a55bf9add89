/** The handful of Python `str` operations the handlers rely on, restricted to
    ASCII: `lower`, `endswith`, `sep.join`, `split(c)`, `split()`, `strip()`,
    and the decimal rendering used by f-strings. */
module Strings {

  /** Python's `str.isspace` on the 7-bit range: tab, newline, vertical tab,
      form feed, carriage return, the four information separators and space. */
  predicate IsSpace(c: char) {
    var n := c as int;
    n == 32 || (9 <= n <= 13) || (28 <= n <= 31)
  }

  predicate IsBlank(s: string) {
    forall i :: 0 <= i < |s| ==> IsSpace(s[i])
  }

  // ---------------------------------------------------------------- lower

  function LowerChar(c: char): (d: char)
    ensures ('A' <= c <= 'Z') ==> 'a' <= d <= 'z'
    ensures !('A' <= c <= 'Z') ==> d == c
  {
    if 'A' <= c <= 'Z' then (c as int + 32) as char else c
  }

  /** ASCII `str.lower`: each character is lowered in place. */
  function Lower(s: string): (r: string)
    ensures |r| == |s|
  {
    seq(|s|, i requires 0 <= i < |s| => LowerChar(s[i]))
  }

  /** No upper-case letter is left, each upper-case letter becomes the letter
      32 code points above it, every other character is kept, and lowering
      twice is lowering once. */
  lemma LowerSpec(s: string)
    ensures forall i :: 0 <= i < |s| ==> !('A' <= Lower(s)[i] <= 'Z')
    ensures forall i :: 0 <= i < |s| && !('A' <= s[i] <= 'Z') ==> Lower(s)[i] == s[i]
    ensures forall i :: 0 <= i < |s| && 'A' <= s[i] <= 'Z' ==> Lower(s)[i] as int == s[i] as int + 32
    ensures Lower(Lower(s)) == Lower(s)
  {
  }

  /** Lowering commutes with taking a slice. */
  lemma LowerSlice(s: string, a: nat, b: nat)
    requires a <= b <= |s|
    ensures Lower(s)[a..b] == Lower(s[a..b])
  {
  }

  // ------------------------------------------------------------- endswith

  predicate EndsWith(s: string, suffix: string) {
    |suffix| <= |s| && s[|s| - |suffix|..] == suffix
  }

  // ----------------------------------------------------------------- join

  /** `sep.join(parts)`: the parts in order with `sep` between neighbours. */
  function Join(parts: seq<string>, sep: string): string
    decreases |parts|
  {
    if |parts| == 0 then ""
    else if |parts| == 1 then parts[0]
    else Join(parts[..|parts| - 1], sep) + sep + parts[|parts| - 1]
  }

  lemma JoinSnoc(parts: seq<string>, x: string, sep: string)
    requires |parts| > 0
    ensures Join(parts + [x], sep) == Join(parts, sep) + sep + x
  {
    assert (parts + [x])[..|parts|] == parts;
  }

  function TotalLength(parts: seq<string>): nat
    decreases |parts|
  {
    if |parts| == 0 then 0 else TotalLength(parts[..|parts| - 1]) + |parts[|parts| - 1]|
  }

  /** The joined text holds every character of every part plus one separator
      between each pair of neighbours, and nothing else. */
  lemma {:induction false} JoinLength(parts: seq<string>, sep: string)
    requires |parts| > 0
    ensures |Join(parts, sep)| == TotalLength(parts) + (|parts| - 1) * |sep|
    decreases |parts|
  {
    if |parts| > 1 {
      JoinLength(parts[..|parts| - 1], sep);
    }
  }

  /** The joined text begins with the first part and ends with the last one. */
  lemma {:induction false} JoinEnds(parts: seq<string>, sep: string)
    requires |parts| > 0
    ensures parts[0] <= Join(parts, sep)
    ensures EndsWith(Join(parts, sep), parts[|parts| - 1])
    decreases |parts|
  {
    if |parts| > 1 {
      var init := parts[..|parts| - 1];
      JoinEnds(init, sep);
      assert init[0] == parts[0];
      var j := Join(init, sep);
      assert Join(parts, sep) == j + sep + parts[|parts| - 1];
      assert (j + sep + parts[|parts| - 1])[..|parts[0]|] == j[..|parts[0]|];
    }
  }

  // ---------------------------------------------------------------- split

  /** Position of the last `c` in `s`. */
  function LastIndex(s: string, c: char): (i: nat)
    requires c in s
    ensures i < |s| && s[i] == c
    ensures c !in s[i + 1..]
    decreases |s|
  {
    if s[|s| - 1] == c then |s| - 1
    else
      assert s == s[..|s| - 1] + [s[|s| - 1]];
      var i := LastIndex(s[..|s| - 1], c);
      assert s[i + 1..] == s[..|s| - 1][i + 1..] + [s[|s| - 1]];
      i
  }

  /** The only `c` in `a + [c] + b` is the one between them. */
  lemma LastIndexBetween(a: string, c: char, b: string)
    requires c !in a && c !in b
    ensures c in a + [c] + b && LastIndex(a + [c] + b, c) == |a|
  {
    var t := a + [c] + b;
    assert t[|a|] == c;
  }

  /** `s.split(c)` for a one-character separator: the maximal pieces free of
      `c`, in order, empty pieces included; never an empty list. Built from
      the right, so the last piece is the text after the last `c`. */
  function Split(s: string, c: char): (r: seq<string>)
    ensures |r| >= 1
    ensures forall k :: 0 <= k < |r| ==> c !in r[k]
    ensures c !in s ==> r == [s]
    decreases |s|
  {
    if c !in s then [s]
    else
      var i := LastIndex(s, c);
      Split(s[..i], c) + [s[i + 1..]]
  }

  /** Joining the pieces with the separator gives back the original text. */
  lemma {:induction false} SplitJoin(s: string, c: char)
    ensures Join(Split(s, c), [c]) == s
    decreases |s|
  {
    if c in s {
      var i := LastIndex(s, c);
      SplitJoin(s[..i], c);
      JoinSnoc(Split(s[..i], c), s[i + 1..], [c]);
      assert s == s[..i] + [c] + s[i + 1..];
    }
  }

  /** The last piece of a split is the text after the last separator, or the
      whole text when the separator does not occur. */
  lemma SplitLast(s: string, c: char)
    ensures var r := Split(s, c);
      r[|r| - 1] == if c in s then s[LastIndex(s, c) + 1..] else s
  {
  }

  /** Lowering leaves the dots where they are, so the last dot is found at
      the same place before and after. */
  lemma LowerDots(s: string)
    ensures '.' in Lower(s) <==> '.' in s
    ensures '.' in s ==> LastIndex(Lower(s), '.') == LastIndex(s, '.')
  {
    var low := Lower(s);
    assert forall i :: 0 <= i < |s| ==> (low[i] == '.' <==> s[i] == '.');
  }

  /** A text ends with a dot and then `e` (which has no dot) exactly when it
      has a dot and `e` is what follows the last one. */
  lemma SuffixIffAfterLastDot(s: string, e: string)
    requires '.' !in e
    ensures EndsWith(s, "." + e) <==> '.' in s && s[LastIndex(s, '.') + 1..] == e
  {
    var d := "." + e;
    if EndsWith(s, d) {
      var p := |s| - |d|;
      assert s[p] == '.' by { assert s[p..][0] == d[0]; }
      var i := LastIndex(s, '.');
      assert s[i + 1..] == s[p..][1..];
    }
    if '.' in s && s[LastIndex(s, '.') + 1..] == e {
      var i := LastIndex(s, '.');
      assert s[|s| - |d|..] == [s[i]] + s[i + 1..];
    }
  }

  // ---------------------------------------------------------------- strip

  function TrimLeft(s: string): (r: string)
    ensures r == [] || !IsSpace(r[0])
    decreases |s|
  {
    if s != [] && IsSpace(s[0]) then TrimLeft(s[1..]) else s
  }

  function TrimRight(s: string): (r: string)
    decreases |s|
  {
    if s != [] && IsSpace(s[|s| - 1]) then TrimRight(s[..|s| - 1]) else s
  }

  /** `str.strip()` with no argument. */
  function Strip(s: string): string {
    TrimRight(TrimLeft(s))
  }

  lemma {:induction false} TrimLeftEmpty(s: string)
    ensures TrimLeft(s) == [] <==> IsBlank(s)
    decreases |s|
  {
    if s != [] && IsSpace(s[0]) {
      TrimLeftEmpty(s[1..]);
      assert forall i :: 1 <= i < |s| ==> s[i] == s[1..][i - 1];
    }
  }

  lemma {:induction false} TrimRightKeepsHead(s: string)
    requires s != [] && !IsSpace(s[0])
    ensures TrimRight(s) != []
    decreases |s|
  {
    if IsSpace(s[|s| - 1]) {
      TrimRightKeepsHead(s[..|s| - 1]);
    }
  }

  /** A stripped text is empty exactly when the text is all whitespace. */
  lemma StripEmptyIffBlank(s: string)
    ensures Strip(s) == [] <==> IsBlank(s)
  {
    TrimLeftEmpty(s);
    var t := TrimLeft(s);
    if t != [] {
      TrimRightKeepsHead(t);
    }
  }

  // ---------------------------------------------------------- split words

  /** The longest prefix of `s` without whitespace. */
  function Word(s: string): (w: string)
    ensures w <= s
    ensures forall i :: 0 <= i < |w| ==> !IsSpace(w[i])
    ensures |w| < |s| ==> IsSpace(s[|w|])
    decreases |s|
  {
    if s == [] || IsSpace(s[0]) then [] else [s[0]] + Word(s[1..])
  }

  /** `str.split()` with no argument: the maximal runs of non-whitespace
      characters, in order; leading, trailing and repeated whitespace yield
      no empty tokens. */
  function Words(s: string): (r: seq<string>)
    ensures forall k :: 0 <= k < |r| ==> r[k] != []
    ensures forall k, i :: 0 <= k < |r| && 0 <= i < |r[k]| ==> !IsSpace(r[k][i])
    decreases |s|
  {
    if s == [] then []
    else if IsSpace(s[0]) then Words(s[1..])
    else
      var w := Word(s);
      [w] + Words(s[|w|..])
  }

  lemma {:induction false} WordBeforeSpace(x: string, y: string)
    requires y != [] && IsSpace(y[0])
    ensures Word(x + y) == Word(x)
    decreases |x|
  {
    if x == [] {
      assert (x + y)[0] == y[0];
    } else if !IsSpace(x[0]) {
      assert (x + y)[1..] == x[1..] + y;
      WordBeforeSpace(x[1..], y);
    }
  }

  /** Splitting text that was glued with one space gives the tokens of the
      left part followed by the tokens of the right part. */
  lemma {:induction false} WordsAroundSpace(a: string, b: string)
    ensures Words(a + " " + b) == Words(a) + Words(b)
    decreases |a|
  {
    var s := a + " " + b;
    if a == [] {
      assert s[1..] == b;
    } else if IsSpace(a[0]) {
      assert s[1..] == a[1..] + " " + b;
      WordsAroundSpace(a[1..], b);
    } else {
      assert s == a + (" " + b);
      WordBeforeSpace(a, " " + b);
      var w := Word(a);
      assert |w| >= 1;
      assert s[|w|..] == a[|w|..] + " " + b;
      WordsAroundSpace(a[|w|..], b);
    }
  }

  /** A text with no whitespace that is not empty is a single token. */
  lemma {:induction false} WordsOfToken(s: string)
    requires s != [] && forall i :: 0 <= i < |s| ==> !IsSpace(s[i])
    ensures Words(s) == [s]
  {
    var w := Word(s);
    assert |w| == |s|;
    assert w == s;
  }

  /** A text has no tokens exactly when it is all whitespace. */
  lemma {:induction false} WordsEmptyIffBlank(s: string)
    ensures Words(s) == [] <==> IsBlank(s)
    decreases |s|
  {
    if s != [] && IsSpace(s[0]) {
      WordsEmptyIffBlank(s[1..]);
      assert forall i :: 1 <= i < |s| ==> s[i] == s[1..][i - 1];
    }
  }

  // ------------------------------------------------------ decimal numbers

  predicate IsDigit(c: char) {
    '0' <= c <= '9'
  }

  predicate AllDigits(s: string) {
    forall i :: 0 <= i < |s| ==> IsDigit(s[i])
  }

  function DigitChar(d: nat): (c: char)
    requires d < 10
    ensures IsDigit(c) && c as int - '0' as int == d
  {
    ('0' as int + d) as char
  }

  lemma DigitsHaveNo(s: string, c: char)
    requires AllDigits(s) && !IsDigit(c)
    ensures c !in s
  {
  }

  /** `str(n)` for a natural number: its decimal digits, no leading zero. */
  function NatToDecimal(n: nat): (r: string)
    ensures r != [] && AllDigits(r)
    ensures n < 10 <==> |r| == 1
    ensures n < 100 ==> |r| <= 2
    ensures r[0] == '0' <==> n == 0
    decreases n
  {
    if n < 10 then [DigitChar(n)] else NatToDecimal(n / 10) + [DigitChar(n % 10)]
  }

  /** `str(i)` for any integer: a minus sign before the digits when negative. */
  function IntToDecimal(i: int): string {
    if i < 0 then "-" + NatToDecimal(-i) else NatToDecimal(i)
  }

  /** `f"{n:02d}"` for a natural number: padded with one zero below ten. */
  function Pad2(n: nat): (r: string)
    ensures AllDigits(r) && |r| >= 2
    ensures n < 100 ==> |r| == 2
    ensures r[0] == '0' <==> n < 10
  {
    if n < 10 then "0" + NatToDecimal(n) else NatToDecimal(n)
  }

  /** The reading of a digit string as a number, most significant first. */
  function ParseNat(s: string): nat
    requires AllDigits(s)
    decreases |s|
  {
    if s == [] then 0
    else ParseNat(s[..|s| - 1]) * 10 + (s[|s| - 1] as int - '0' as int)
  }

  /** Reading the digits back gives the number. */
  lemma {:induction false} ParseNatDecimal(n: nat)
    ensures ParseNat(NatToDecimal(n)) == n
    decreases n
  {
    if n >= 10 {
      ParseNatDecimal(n / 10);
      var r := NatToDecimal(n);
      assert r[..|r| - 1] == NatToDecimal(n / 10);
    }
  }

  lemma ParsePad2(n: nat)
    ensures ParseNat(Pad2(n)) == n
  {
    ParseNatDecimal(n);
    if n < 10 {
      var r := Pad2(n);
      assert r[..1] == "0";
      assert ParseNat(r[..1]) == 0 by {
        assert r[..1][..0] == [];
      }
    }
  }
}
