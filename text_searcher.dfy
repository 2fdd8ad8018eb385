/**
 * `TextSearcher`: the four fixed regular expressions that recognise sensitive text, and
 * `Matcher.find` over them. Each pattern is written as the set of texts it matches in
 * full (its language); `find` succeeds when some substring of the input is in that set,
 * since a backtracking matcher tries every start position and every alternative.
 */
module TextSearcher {
  import opened Text

  // ---------------------------------------------------------------------------
  // Character classes
  // ---------------------------------------------------------------------------

  predicate IsAsciiLetter(c: char) {
    'a' <= c <= 'z' || 'A' <= c <= 'Z'
  }

  /** `[0-9a-fA-F]` */
  predicate IsHexDigit(c: char) {
    IsDigit(c) || 'a' <= c <= 'f' || 'A' <= c <= 'F'
  }

  /** `[a-zA-Z0-9._%+\-*]`, the local part of an address. */
  predicate IsLocalChar(c: char) {
    IsAsciiLetter(c) || IsDigit(c) || c == '.' || c == '_' || c == '%' || c == '+' || c == '-' || c == '*'
  }

  /** `[a-zA-Z0-9.\-*]`, the domain. */
  predicate IsDomainChar(c: char) {
    IsAsciiLetter(c) || IsDigit(c) || c == '.' || c == '-' || c == '*'
  }

  /** `[a-zA-Z*]`, the top-level domain. */
  predicate IsTldChar(c: char) {
    IsAsciiLetter(c) || c == '*'
  }

  // ---------------------------------------------------------------------------
  // The octet `25[0-5]|2[0-4]\d|1\d{2}|[1-9]?\d`
  // ---------------------------------------------------------------------------

  /** The octet alternatives, in the order the pattern lists them. */
  predicate IsOctet(s: string) {
    || (|s| == 3 && s[0] == '2' && s[1] == '5' && '0' <= s[2] <= '5')
    || (|s| == 3 && s[0] == '2' && '0' <= s[1] <= '4' && IsDigit(s[2]))
    || (|s| == 3 && s[0] == '1' && IsDigit(s[1]) && IsDigit(s[2]))
    || (|s| == 2 && '1' <= s[0] <= '9' && IsDigit(s[1]))
    || (|s| == 1 && IsDigit(s[0]))
  }

  lemma DecimalOfTwo(s: string)
    requires |s| == 2 && AllDigits(s)
    ensures DecimalValue(s) == 10 * DigitValue(s[0]) + DigitValue(s[1])
  {
    var p1 := s[..1];
    assert p1[..0] == [];
    assert DecimalValue(p1) == DigitValue(s[0]);
  }

  lemma DecimalOfThree(s: string)
    requires |s| == 3 && AllDigits(s)
    ensures DecimalValue(s) == 100 * DigitValue(s[0]) + 10 * DigitValue(s[1]) + DigitValue(s[2])
  {
    var p2 := s[..2];
    DecimalOfTwo(p2);
  }

  lemma {:induction false} FourDigitsAtLeastThousand(s: string)
    requires |s| >= 4 && AllDigits(s) && s[0] != '0'
    ensures DecimalValue(s) >= 1000
  {
    var p := s[..|s| - 1];
    if |s| == 4 {
      DecimalOfThree(p);
    } else {
      FourDigitsAtLeastThousand(p);
    }
  }

  /** The octet matches exactly the canonical decimal texts of the numbers 0 to 255. */
  lemma OctetIsByte(s: string)
    ensures IsOctet(s) <==> IsCanonicalDecimal(s) && DecimalValue(s) <= 255
  {
    if |s| == 1 && AllDigits(s) {
      assert s[..0] == [];
    } else if |s| == 2 && AllDigits(s) {
      DecimalOfTwo(s);
    } else if |s| == 3 && AllDigits(s) {
      DecimalOfThree(s);
    } else if |s| >= 4 && IsCanonicalDecimal(s) {
      FourDigitsAtLeastThousand(s);
    }
  }

  // ---------------------------------------------------------------------------
  // The four patterns
  // ---------------------------------------------------------------------------

  /** `IPV4`: four octets separated by three dots. */
  predicate IsIpv4(s: string) {
    var ps := Pieces(s, '.');
    |ps| == 4 && forall k :: 0 <= k < 4 ==> IsOctet(ps[k])
  }

  /** `IPV4_MASKED`: two octets followed by `.x.x`. */
  predicate IsMaskedIpv4(s: string) {
    var ps := Pieces(s, '.');
    |ps| == 4 && IsOctet(ps[0]) && IsOctet(ps[1]) && ps[2] == "x" && ps[3] == "x"
  }

  /** One group `[0-9a-fA-F]{1,4}` of an IPv6 address. */
  predicate IsHexGroup(g: string) {
    1 <= |g| <= 4 && forall i :: 0 <= i < |g| ==> IsHexDigit(g[i])
  }

  /** `IPV6`: eight groups separated by seven colons (the full form, without `::`). */
  predicate IsIpv6(s: string) {
    var gs := Pieces(s, ':');
    |gs| == 8 && forall k :: 0 <= k < 8 ==> IsHexGroup(gs[k])
  }

  /** `EMAIL` with `@` at index `at` and the dot before the top-level domain at index `dot`. */
  predicate EmailSplit(s: string, at: int, dot: int) {
    && 0 < at && at + 1 < dot && dot + 3 <= |s|
    && s[at] == '@' && s[dot] == '.'
    && (forall i :: 0 <= i < at ==> IsLocalChar(s[i]))
    && (forall i :: at < i < dot ==> IsDomainChar(s[i]))
    && (forall i :: dot < i < |s| ==> IsTldChar(s[i]))
  }

  /** `EMAIL`: `[local]+@[domain]+\.[tld]{2,}`. */
  predicate IsEmail(s: string) {
    exists at, dot | 0 <= at < |s| && 0 <= dot < |s| :: EmailSplit(s, at, dot)
  }

  datatype Pattern = EmailPattern | Ipv4Pattern | Ipv4MaskedPattern | Ipv6Pattern

  /** The text is matched in full by the pattern. */
  predicate Matches(p: Pattern, s: string) {
    match p
    case EmailPattern => IsEmail(s)
    case Ipv4Pattern => IsIpv4(s)
    case Ipv4MaskedPattern => IsMaskedIpv4(s)
    case Ipv6Pattern => IsIpv6(s)
  }

  /** `Matcher.find`: some substring of `s` is matched in full. */
  predicate Finds(p: Pattern, s: string) {
    exists i, j | 0 <= i <= j <= |s| :: Matches(p, s[i..j])
  }

  /** `containsEmailAddress` */
  predicate ContainsEmailAddress(s: string) {
    Finds(EmailPattern, s)
  }

  /** `containsIpAddress`: any of the three address patterns is found. */
  predicate ContainsIpAddress(s: string) {
    Finds(Ipv4Pattern, s) || Finds(Ipv4MaskedPattern, s) || Finds(Ipv6Pattern, s)
  }

  // ---------------------------------------------------------------------------
  // What the patterns accept
  // ---------------------------------------------------------------------------

  /** The dotted-decimal text of four numbers. */
  function DottedQuad(a: nat, b: nat, c: nat, d: nat): string {
    Join([NatToDecimal(a), NatToDecimal(b), NatToDecimal(c), NatToDecimal(d)], '.')
  }

  lemma DigitsHaveNo(s: string, x: char)
    requires AllDigits(s) && !IsDigit(x)
    ensures x !in s
  {
  }

  /** Every dotted quad of numbers up to 255 is an IPv4 address. */
  lemma DottedQuadIsIpv4(a: nat, b: nat, c: nat, d: nat)
    requires a <= 255 && b <= 255 && c <= 255 && d <= 255
    ensures IsIpv4(DottedQuad(a, b, c, d))
  {
    var ps := [NatToDecimal(a), NatToDecimal(b), NatToDecimal(c), NatToDecimal(d)];
    forall k | 0 <= k < 4 ensures '.' !in ps[k] && IsOctet(ps[k]) {
      DigitsHaveNo(ps[k], '.');
      NatToDecimalCanonical([a, b, c, d][k]);
      OctetIsByte(ps[k]);
    }
    PiecesJoin(ps, '.');
  }

  /** Every IPv4 address is the dotted quad of four numbers up to 255. */
  lemma Ipv4IsDottedQuad(s: string)
    requires IsIpv4(s)
    ensures exists a: nat, b: nat, c: nat, d: nat :: a <= 255 && b <= 255 && c <= 255 && d <= 255 && s == DottedQuad(a, b, c, d)
  {
    var ps := Pieces(s, '.');
    forall k | 0 <= k < 4 ensures IsCanonicalDecimal(ps[k]) && DecimalValue(ps[k]) <= 255 && NatToDecimal(DecimalValue(ps[k])) == ps[k] {
      OctetIsByte(ps[k]);
      DecimalRoundTrip(ps[k]);
    }
    JoinPieces(s, '.');
    assert ps == [ps[0], ps[1], ps[2], ps[3]];
    var a, b, c, d := DecimalValue(ps[0]), DecimalValue(ps[1]), DecimalValue(ps[2]), DecimalValue(ps[3]);
    assert s == DottedQuad(a, b, c, d);
  }

  /** The eight groups joined by colons always form a full-form IPv6 address, and every such address is made so. */
  lemma Ipv6IsEightGroups(gs: seq<string>, s: string)
    requires |gs| == 8 && forall k :: 0 <= k < 8 ==> IsHexGroup(gs[k])
    ensures IsIpv6(Join(gs, ':'))
    ensures IsIpv6(s) ==> s == Join(Pieces(s, ':'), ':') && Count(s, ':') == 7
  {
    forall k | 0 <= k < 8 ensures ':' !in gs[k] {
      assert !IsHexDigit(':');
    }
    PiecesJoin(gs, ':');
    JoinPieces(s, ':');
  }

  /** The `@` of an address is its only one, and the dot before the top-level domain is its last dot. */
  lemma AtAndLastDot(s: string, at: int, dot: int)
    requires EmailSplit(s, at, dot)
    ensures forall i :: 0 <= i < |s| ==> (s[i] == '@' <==> i == at)
    ensures forall i :: dot < i < |s| ==> s[i] != '.'
  {
    forall i | 0 <= i < |s| ensures s[i] == '@' <==> i == at {
      if i < at {
        assert IsLocalChar(s[i]);
      } else if at < i < dot {
        assert IsDomainChar(s[i]);
      } else if dot < i {
        assert IsTldChar(s[i]);
      }
    }
  }

  /** An address splits into local part, domain and top-level domain in exactly one way. */
  lemma EmailSplitUnique(s: string, at: int, dot: int, at': int, dot': int)
    requires EmailSplit(s, at, dot) && EmailSplit(s, at', dot')
    ensures at' == at && dot' == dot
  {
    AtAndLastDot(s, at, dot);
    AtAndLastDot(s, at', dot');
  }

  /** A text without `@` contains no address. */
  lemma NoAtNoEmail(s: string)
    requires '@' !in s
    ensures !ContainsEmailAddress(s)
  {
    forall i, j, at, dot | 0 <= i <= j <= |s| ensures !EmailSplit(s[i..j], at, dot) {
      if 0 <= at < j - i {
        assert s[i..j][at] == s[i + at];
      }
    }
  }

  /** An octet, a masked address and an IPv4 or IPv6 address never contain `-`. */
  lemma AddressHasNoDash(p: Pattern, s: string)
    requires p != EmailPattern
    ensures Matches(p, s) ==> '-' !in s
  {
    if Matches(p, s) {
      var sep := if p == Ipv6Pattern then ':' else '.';
      var ps := Pieces(s, sep);
      forall k | 0 <= k < |ps| ensures '-' !in ps[k] {
        if p == Ipv6Pattern {
          assert IsHexGroup(ps[k]);
        } else if p == Ipv4Pattern || k < 2 {
          assert IsOctet(ps[k]);
        }
      }
      JoinAvoids(ps, sep, '-');
      JoinPieces(s, sep);
    }
  }

  /** No pattern matches the empty text. */
  lemma NoEmptyMatch(p: Pattern)
    ensures !Matches(p, "")
  {
  }

  // ---------------------------------------------------------------------------
  // Examples
  // ---------------------------------------------------------------------------

  /** Four octets joined by dots form an IPv4 address. */
  lemma Ipv4OfOctets(a: string, b: string, c: string, d: string)
    requires IsOctet(a) && IsOctet(b) && IsOctet(c) && IsOctet(d)
    ensures IsIpv4(Join([a, b, c, d], '.'))
  {
    assert '.' !in a && '.' !in b && '.' !in c && '.' !in d;
    PiecesJoin([a, b, c, d], '.');
  }

  /** Two octets joined by dots and followed by `.x.x` form a masked address. */
  lemma MaskedOfOctets(a: string, b: string)
    requires IsOctet(a) && IsOctet(b)
    ensures IsMaskedIpv4(Join([a, b, "x", "x"], '.'))
  {
    assert '.' !in a && '.' !in b;
    PiecesJoin([a, b, "x", "x"], '.');
  }

  /** `192.168.x.x` is a masked address. */
  lemma MaskedExample()
    ensures IsMaskedIpv4("192.168.x.x")
  {
    assert Join(["192", "168", "x", "x"], '.') == "192.168.x.x";
    MaskedOfOctets("192", "168");
  }

  /** `999.1.1.1` is not an address: its first piece is above 255. */
  lemma OutOfRangeIsNoAddress()
    ensures !IsIpv4("999.1.1.1")
  {
    var ps := ["999", "1", "1", "1"];
    assert Join(ps, '.') == "999.1.1.1";
    PiecesJoin(ps, '.');
    assert !IsOctet("999");
  }

  /** The patterns are not anchored: the search still finds the address `99.1.1.1` inside `999.1.1.1`. */
  lemma UnanchoredSearch()
    ensures ContainsIpAddress("999.1.1.1")
  {
    var s := "999.1.1.1";
    assert Join(["99", "1", "1", "1"], '.') == s[1..9];
    Ipv4OfOctets("99", "1", "1", "1");
    assert Matches(Ipv4Pattern, s[1..9]);
  }

  /** `user@example.com` is an address. */
  lemma EmailExample()
    ensures ContainsEmailAddress("user@example.com")
  {
    var s := "user@example.com";
    assert EmailSplit(s, 4, 12);
    assert s[0..|s|] == s;
    assert Matches(EmailPattern, s[0..|s|]);
  }
}
