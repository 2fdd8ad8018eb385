/**
 * Character and string operations of the Java and Python standard libraries that the
 * rest of the model relies on: decimal rendering, zero padding, ASCII case mapping,
 * `String.trim`, `String.isBlank`, `String.contains`, single-character `String.replace`
 * and single-character `String.split`.
 */
module Text {

  // ---------------------------------------------------------------------------
  // Decimal digits
  // ---------------------------------------------------------------------------

  predicate IsDigit(c: char) {
    '0' <= c <= '9'
  }

  predicate AllDigits(s: string) {
    forall i :: 0 <= i < |s| ==> IsDigit(s[i])
  }

  function DigitValue(c: char): nat
    requires IsDigit(c)
  {
    c as int - '0' as int
  }

  function DigitChar(d: nat): (c: char)
    requires d < 10
    ensures IsDigit(c) && DigitValue(c) == d
  {
    ('0' as int + d) as char
  }

  /** The value of a string of decimal digits, most significant digit first. */
  function DecimalValue(s: string): nat
    requires AllDigits(s)
  {
    if s == [] then 0 else 10 * DecimalValue(s[..|s| - 1]) + DigitValue(s[|s| - 1])
  }

  /**
   * Decimal rendering of a natural number, as `String.valueOf(long)` writes it:
   * at least one digit, no leading zero unless the number is zero, and reading the
   * digits back gives the number.
   */
  function NatToDecimal(n: nat): (s: string)
    ensures |s| >= 1 && AllDigits(s)
    ensures (s[0] == '0') == (n == 0)
    ensures DecimalValue(s) == n
  {
    if n < 10 then
      [DigitChar(n)]
    else
      var prefix := NatToDecimal(n / 10);
      var s := prefix + [DigitChar(n % 10)];
      assert s[..|s| - 1] == prefix;
      s
  }

  /** Decimal rendering of a signed number, as `String.valueOf(long)` writes it. */
  function IntToDecimal(i: int): (s: string)
    ensures |s| >= 1
    ensures (s[0] == '-') == (i < 0)
    ensures i >= 0 ==> s == NatToDecimal(i)
  {
    if i < 0 then "-" + NatToDecimal(-i) else NatToDecimal(i)
  }

  /** A canonical digit string: non-empty, and no leading zero unless it is "0" itself. */
  predicate IsCanonicalDecimal(s: string) {
    |s| >= 1 && AllDigits(s) && (s[0] == '0' ==> |s| == 1)
  }

  /** The decimal rendering of a natural number is canonical. */
  lemma NatToDecimalCanonical(n: nat)
    ensures IsCanonicalDecimal(NatToDecimal(n))
  {
    if n == 0 {
      assert NatToDecimal(n) == [DigitChar(0)];
    }
  }

  lemma {:induction false} LeadingNonZeroPositive(s: string)
    requires |s| >= 1 && AllDigits(s) && s[0] != '0'
    ensures DecimalValue(s) > 0
  {
    if |s| > 1 {
      LeadingNonZeroPositive(s[..|s| - 1]);
    }
  }

  /** Reading a canonical digit string and printing the value gives the string back. */
  lemma {:induction false} DecimalRoundTrip(s: string)
    requires IsCanonicalDecimal(s)
    ensures NatToDecimal(DecimalValue(s)) == s
  {
    if |s| > 1 {
      var p := s[..|s| - 1];
      var d := DigitValue(s[|s| - 1]);
      DecimalRoundTrip(p);
      LeadingNonZeroPositive(p);
      DigitStep(DecimalValue(p), d);
      assert DigitChar(d) == s[|s| - 1];
      assert s == p + [s[|s| - 1]];
    }
  }

  /** Appending a digit multiplies by ten and adds it; dividing by ten undoes that. */
  lemma DigitStep(v: nat, d: nat)
    requires d < 10
    ensures (10 * v + d) / 10 == v && (10 * v + d) % 10 == d
  {
  }

  /** `NatToDecimal` is injective: distinct numbers print differently. */
  lemma NatToDecimalInjective(m: nat, n: nat)
    requires NatToDecimal(m) == NatToDecimal(n)
    ensures m == n
  {
  }

  function Pow10(k: nat): (r: nat)
    ensures r >= 1
  {
    if k == 0 then 1 else 10 * Pow10(k - 1)
  }

  /** A number below `10^k` prints in at most `k` digits. */
  lemma {:induction false} DecimalLength(n: nat, k: nat)
    requires k >= 1 && n < Pow10(k)
    ensures |NatToDecimal(n)| <= k
  {
    if n >= 10 {
      DecimalLength(n / 10, k - 1);
    }
  }

  // ---------------------------------------------------------------------------
  // Zero padding (the `%0<w>d` conversion of `String.format` on non-negative values)
  // ---------------------------------------------------------------------------

  function Repeat(c: char, k: nat): (r: string)
    ensures |r| == k && forall i :: 0 <= i < k ==> r[i] == c
  {
    if k == 0 then [] else [c] + Repeat(c, k - 1)
  }

  lemma {:induction false} LeadingZeroIgnored(s: string)
    requires AllDigits(s)
    ensures AllDigits("0" + s) && DecimalValue("0" + s) == DecimalValue(s)
  {
    if s != [] {
      var t := s[..|s| - 1];
      LeadingZeroIgnored(t);
      assert ("0" + s)[..|"0" + s| - 1] == "0" + t;
    }
  }

  lemma {:induction false} LeadingZerosIgnored(k: nat, s: string)
    requires AllDigits(s)
    ensures AllDigits(Repeat('0', k) + s) && DecimalValue(Repeat('0', k) + s) == DecimalValue(s)
  {
    if k > 0 {
      var t := Repeat('0', k - 1) + s;
      LeadingZerosIgnored(k - 1, s);
      assert Repeat('0', k) == "0" + Repeat('0', k - 1);
      assert Repeat('0', k) + s == "0" + t;
      LeadingZeroIgnored(t);
    } else {
      assert Repeat('0', k) + s == s;
    }
  }

  /**
   * `String.format("%0<width>d", n)` for a non-negative `n`: the decimal digits of `n`,
   * left-padded with zeros up to `width` characters; the digits still read as `n`.
   */
  function PadDecimal(n: nat, width: nat): (s: string)
    ensures |s| == if |NatToDecimal(n)| >= width then |NatToDecimal(n)| else width
    ensures AllDigits(s) && DecimalValue(s) == n
    ensures width >= 1 && n < Pow10(width) ==> |s| == width
  {
    var digits := NatToDecimal(n);
    if width >= 1 && n < Pow10(width) then
      DecimalLength(n, width);
      PadDigits(digits, width)
    else
      PadDigits(digits, width)
  }

  function PadDigits(digits: string, width: nat): (s: string)
    requires AllDigits(digits)
    ensures |s| == if |digits| >= width then |digits| else width
    ensures AllDigits(s) && DecimalValue(s) == DecimalValue(digits)
  {
    if |digits| >= width then
      digits
    else
      LeadingZerosIgnored(width - |digits|, digits);
      Repeat('0', width - |digits|) + digits
  }

  // ---------------------------------------------------------------------------
  // Case, whitespace and trimming
  // ---------------------------------------------------------------------------

  predicate IsUpper(c: char) {
    'A' <= c <= 'Z'
  }

  function ToLowerChar(c: char): char {
    if IsUpper(c) then (c as int + 32) as char else c
  }

  /** `String.toLowerCase` restricted to ASCII letters. */
  function ToLower(s: string): (r: string)
    ensures |r| == |s| && forall i :: 0 <= i < |s| ==> r[i] == ToLowerChar(s[i])
  {
    if s == [] then [] else [ToLowerChar(s[0])] + ToLower(s[1..])
  }

  lemma ToLowerIdempotent(s: string)
    ensures ToLower(ToLower(s)) == ToLower(s)
  {
  }

  /** `String.equalsIgnoreCase` on ASCII text. */
  predicate EqualsIgnoreCase(a: string, b: string) {
    ToLower(a) == ToLower(b)
  }

  /** `Character.isWhitespace`: the Unicode space separators except the no-break ones, plus the listed controls. */
  predicate IsJavaWhitespace(c: char) {
    var u := c as int;
    (0x09 <= u <= 0x0D) || (0x1C <= u <= 0x20) || u == 0x1680
    || (0x2000 <= u <= 0x2006) || (0x2008 <= u <= 0x200A)
    || u == 0x2028 || u == 0x2029 || u == 0x205F || u == 0x3000
  }

  /** `String.isBlank`: empty or only whitespace. */
  predicate IsBlank(s: string) {
    forall i :: 0 <= i < |s| ==> IsJavaWhitespace(s[i])
  }

  /** The first position from `i` on whose character's code is above U+0020, or the end. */
  function TrimStart(s: string, i: nat): (k: nat)
    requires i <= |s|
    ensures i <= k <= |s| && (forall m :: i <= m < k ==> s[m] <= ' ') && (k == |s| || s[k] > ' ')
    decreases |s| - i
  {
    if i < |s| && s[i] <= ' ' then TrimStart(s, i + 1) else i
  }

  /** The end left once the characters before `j` and from `lo` on whose code is at most U+0020 are cut. */
  function TrimEnd(s: string, lo: nat, j: nat): (k: nat)
    requires lo <= j <= |s|
    ensures lo <= k <= j && (forall m :: k <= m < j ==> s[m] <= ' ') && (k == lo || s[k - 1] > ' ')
    decreases j
  {
    if j > lo && s[j - 1] <= ' ' then TrimEnd(s, lo, j - 1) else j
  }

  /**
   * `String.trim`: removes every leading and trailing character whose code is at most
   * U+0020; what remains is a contiguous slice of `s` whose ends are not such characters.
   */
  function Trim(s: string): (r: string)
    ensures exists i, j ::
              && 0 <= i <= j <= |s| && r == s[i..j]
              && (forall k :: 0 <= k < i ==> s[k] <= ' ')
              && (forall k :: j <= k < |s| ==> s[k] <= ' ')
    ensures r == [] || (r[0] > ' ' && r[|r| - 1] > ' ')
  {
    var i := TrimStart(s, 0);
    var j := TrimEnd(s, i, |s|);
    var r := s[i..j];
    assert r == [] || (r[0] == s[i] && r[|r| - 1] == s[j - 1]);
    r
  }

  /** Trimming removes exactly the padding around a value whose ends are not padding. */
  lemma TrimPadded(before: string, s: string, after: string)
    requires forall k :: 0 <= k < |before| ==> before[k] <= ' '
    requires forall k :: 0 <= k < |after| ==> after[k] <= ' '
    requires s != [] && s[0] > ' ' && s[|s| - 1] > ' '
    ensures Trim(before + s + after) == s
  {
    var t := before + s + after;
    var i := TrimStart(t, 0);
    assert t[|before|] == s[0];
    assert forall k :: 0 <= k < |before| ==> t[k] == before[k];
    assert i == |before|;
    var e := |before| + |s|;
    var j := TrimEnd(t, i, |t|);
    assert t[e - 1] == s[|s| - 1];
    assert forall k :: e <= k < |t| ==> t[k] == after[k - e];
    assert j == e;
    assert t[i..j] == s;
  }

  // ---------------------------------------------------------------------------
  // Searching and single-character replacement
  // ---------------------------------------------------------------------------

  lemma SliceOfSlice(s: string, lo: int, hi: int, i: int, j: int)
    requires 0 <= lo <= hi <= |s| && 0 <= i <= j <= hi - lo
    ensures s[lo..hi][i..j] == s[lo + i..lo + j]
  {
    assert forall k :: 0 <= k < j - i ==> s[lo..hi][i..j][k] == s[lo + i..lo + j][k];
  }

  /** `String.contains`: `needle` occurs in `s` as a contiguous substring. */
  predicate Contains(s: string, needle: string) {
    exists i :: 0 <= i <= |s| && OccursAt(s, needle, i)
  }

  /** `needle` occurs in `s` starting at index `i`. */
  predicate OccursAt(s: string, needle: string, i: nat) {
    i + |needle| <= |s| && s[i..i + |needle|] == needle
  }

  /** The number of occurrences of `c` in `s`. */
  function Count(s: string, c: char): nat {
    if s == [] then 0 else (if s[0] == c then 1 else 0) + Count(s[1..], c)
  }

  /** `String.replace(target, replacement)` with a one-character target. */
  function ReplaceChar(s: string, c: char, replacement: string): (r: string)
    ensures |r| == |s| + Count(s, c) * (|replacement| - 1)
  {
    if s == [] then [] else (if s[0] == c then replacement else [s[0]]) + ReplaceChar(s[1..], c, replacement)
  }

  lemma {:induction false} ReplaceCharAppend(a: string, b: string, c: char, replacement: string)
    ensures ReplaceChar(a + b, c, replacement) == ReplaceChar(a, c, replacement) + ReplaceChar(b, c, replacement)
  {
    if a != [] {
      ReplaceCharAppend(a[1..], b, c, replacement);
      assert (a + b)[1..] == a[1..] + b;
    } else {
      assert a + b == b;
    }
  }

  /** After replacing every `c` by a text without `c`, no `c` is left. */
  lemma {:induction false} ReplaceCharRemoves(s: string, c: char, replacement: string)
    requires c !in replacement
    ensures c !in ReplaceChar(s, c, replacement)
  {
    if s != [] {
      ReplaceCharRemoves(s[1..], c, replacement);
    }
  }

  /** Replacing `c` brings in no character that neither the text nor the replacement holds. */
  lemma {:induction false} ReplaceCharAvoids(s: string, c: char, replacement: string, x: char)
    requires x !in s && x !in replacement
    ensures x !in ReplaceChar(s, c, replacement)
  {
    if s != [] {
      ReplaceCharAvoids(s[1..], c, replacement, x);
    }
  }

  // ---------------------------------------------------------------------------
  // Splitting on a single character
  // ---------------------------------------------------------------------------

  /** The pieces of `s` between occurrences of `sep`: one more piece than there are separators. */
  function Pieces(s: string, sep: char): (ps: seq<string>)
    ensures |ps| == Count(s, sep) + 1
    ensures forall k :: 0 <= k < |ps| ==> sep !in ps[k]
  {
    if s == [] then
      [[]]
    else
      var rest := Pieces(s[1..], sep);
      if s[0] == sep then [[]] + rest else [[s[0]] + rest[0]] + rest[1..]
  }

  /** Text without the separator is one piece. */
  lemma {:induction false} PiecesWithoutSeparator(s: string, sep: char)
    requires sep !in s
    ensures Pieces(s, sep) == [s]
  {
    if s != [] {
      PiecesWithoutSeparator(s[1..], sep);
      assert s == [s[0]] + s[1..];
    }
  }

  /** A separator after separator-free text ends the first piece there. */
  lemma {:induction false} PiecesAfterFirst(a: string, sep: char, b: string)
    requires sep !in a
    ensures Pieces(a + [sep] + b, sep) == [a] + Pieces(b, sep)
  {
    if a != [] {
      PiecesAfterFirst(a[1..], sep, b);
      assert (a + [sep] + b)[1..] == a[1..] + [sep] + b;
      assert a == [a[0]] + a[1..];
    } else {
      assert ([] + [sep] + b)[1..] == b;
    }
  }

  /** Joins pieces with `sep` between consecutive ones. */
  function Join(ps: seq<string>, sep: char): string {
    if ps == [] then [] else if |ps| == 1 then ps[0] else ps[0] + [sep] + Join(ps[1..], sep)
  }

  /** Splitting and joining again gives back the original text. */
  lemma {:induction false} JoinPieces(s: string, sep: char)
    ensures Join(Pieces(s, sep), sep) == s
  {
    if s != [] {
      var rest := Pieces(s[1..], sep);
      JoinPieces(s[1..], sep);
      if s[0] == sep {
        assert ([[]] + rest)[1..] == rest;
        assert s == [] + [sep] + s[1..];
      } else {
        var ps := [[s[0]] + rest[0]] + rest[1..];
        if |rest| == 1 {
          assert s == [s[0]] + s[1..];
        } else {
          assert ps[1..] == rest[1..];
          assert Join(rest, sep) == rest[0] + [sep] + Join(rest[1..], sep);
          assert s == [s[0]] + s[1..];
        }
      }
    }
  }

  /** Text without the separator is a single piece. */
  lemma {:induction false} PiecesNoSep(s: string, sep: char)
    requires sep !in s
    ensures Pieces(s, sep) == [s]
  {
    if s != [] {
      PiecesNoSep(s[1..], sep);
      assert s == [s[0]] + s[1..];
    }
  }

  lemma {:induction false} PiecesCons(a: string, b: string, sep: char)
    requires sep !in a
    ensures Pieces(a + [sep] + b, sep) == [a] + Pieces(b, sep)
  {
    if a == [] {
      assert a + [sep] + b == [sep] + b;
      assert ([sep] + b)[1..] == b;
    } else {
      PiecesCons(a[1..], b, sep);
      assert (a + [sep] + b)[1..] == a[1..] + [sep] + b;
      assert a == [a[0]] + a[1..];
    }
  }

  /** Joining pieces that do not contain the separator and splitting again gives the pieces back. */
  lemma {:induction false} PiecesJoin(ps: seq<string>, sep: char)
    requires |ps| >= 1
    requires forall k :: 0 <= k < |ps| ==> sep !in ps[k]
    ensures Pieces(Join(ps, sep), sep) == ps
  {
    if |ps| == 1 {
      PiecesNoSep(ps[0], sep);
    } else {
      PiecesJoin(ps[1..], sep);
      PiecesCons(ps[0], Join(ps[1..], sep), sep);
      assert ps == [ps[0]] + ps[1..];
    }
  }

  /** A character that is neither the separator nor in any piece is not in the joined text. */
  lemma {:induction false} JoinAvoids(ps: seq<string>, sep: char, x: char)
    requires x != sep
    requires forall k :: 0 <= k < |ps| ==> x !in ps[k]
    ensures x !in Join(ps, sep)
  {
    if |ps| > 1 {
      JoinAvoids(ps[1..], sep, x);
      assert ps[0] == ps[0];
    }
  }

  function DropTrailingEmpty(ps: seq<string>): (r: seq<string>)
    ensures |r| <= |ps| && r == ps[..|r|]
    ensures r == [] || r[|r| - 1] != []
    ensures forall k :: |r| <= k < |ps| ==> ps[k] == []
  {
    if ps != [] && ps[|ps| - 1] == [] then DropTrailingEmpty(ps[..|ps| - 1]) else ps
  }

  /**
   * `String.split(sep)` for a separator that is not a regular-expression metacharacter:
   * a text without the separator gives itself as the only element; otherwise the pieces
   * between separators, with trailing empty pieces removed.
   */
  function JavaSplit(s: string, sep: char): (ps: seq<string>)
    ensures forall k :: 0 <= k < |ps| ==> sep !in ps[k]
  {
    if sep !in s then [s] else DropTrailingEmpty(Pieces(s, sep))
  }

  lemma {:induction false} PiecesAllEmpty(s: string, sep: char)
    requires forall i :: 0 <= i < |s| ==> s[i] == sep
    ensures forall k :: 0 <= k < |Pieces(s, sep)| ==> Pieces(s, sep)[k] == []
  {
    if s != [] {
      PiecesAllEmpty(s[1..], sep);
    }
  }

  lemma {:induction false} PieceNonEmpty(s: string, sep: char, i: nat)
    requires i < |s| && s[i] != sep
    ensures exists k :: 0 <= k < |Pieces(s, sep)| && Pieces(s, sep)[k] != []
  {
    var rest := Pieces(s[1..], sep);
    if s[0] != sep {
      assert Pieces(s, sep)[0] != [];
    } else {
      PieceNonEmpty(s[1..], sep, i - 1);
      var k :| 0 <= k < |rest| && rest[k] != [];
      assert Pieces(s, sep)[k + 1] == rest[k];
    }
  }

  /**
   * `String.split` returns an empty array exactly when the text is non-empty and made of
   * nothing but separators.
   */
  lemma JavaSplitEmpty(s: string, sep: char)
    ensures JavaSplit(s, sep) == [] <==> (s != [] && forall i :: 0 <= i < |s| ==> s[i] == sep)
  {
    if s != [] && forall i :: 0 <= i < |s| ==> s[i] == sep {
      PiecesAllEmpty(s, sep);
      assert s[0] == sep;
    }
    if JavaSplit(s, sep) == [] {
      assert sep in s;
      forall i | 0 <= i < |s| ensures s[i] == sep {
        if s[i] != sep {
          PieceNonEmpty(s, sep, i);
        }
      }
    }
  }

  /** The text before the first line break (the whole text when it has none). */
  function FirstLine(s: string): (r: string)
    ensures '\n' !in r
    ensures r == s || (|r| < |s| && s[..|r| + 1] == r + "\n")
  {
    if s == [] || s[0] == '\n' then
      []
    else
      var rest := FirstLine(s[1..]);
      assert s == [s[0]] + s[1..];
      [s[0]] + rest
  }

  /** The first piece of a split on line feeds is the first line. */
  lemma {:induction false} FirstPieceIsFirstLine(s: string)
    ensures Pieces(s, '\n')[0] == FirstLine(s)
  {
    if s != [] && s[0] != '\n' {
      FirstPieceIsFirstLine(s[1..]);
    }
  }

  /** Whenever `split("\n")` gives at least one piece, its first piece is the first line. */
  lemma JavaSplitFirstLine(s: string)
    requires JavaSplit(s, '\n') != []
    ensures JavaSplit(s, '\n')[0] == FirstLine(s)
  {
    if '\n' in s {
      FirstPieceIsFirstLine(s);
    }
  }
}
