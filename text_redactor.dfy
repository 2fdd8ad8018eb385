/**
 * `TextRedactor`: the texts the text redactor writes into the page. The page itself (reading
 * and writing `outerHTML`, running scripts) is outside the model; what is modelled is the
 * placeholder text, the escaping that makes page content safe inside a single-quoted
 * JavaScript string, and `Matcher.replaceAll` of the sensitive patterns by the placeholder.
 */
module TextRedactor {
  import opened Wrappers
  import opened Text
  import opened TextSearcher

  /** The text that replaces every piece of redacted information. */
  const DefaultRedactionText: string := "----"

  // ---------------------------------------------------------------------------
  // Passkeys
  // ---------------------------------------------------------------------------

  /** `redactPasskey`: the placeholder, after the prefix when one is given. */
  function PasskeyText(prefix: Option<string>): (r: string)
    ensures |r| >= 4 && r[|r| - 4..] == DefaultRedactionText
    ensures r[..|r| - 4] == (if prefix.Some? then prefix.value else "")
  {
    match prefix
    case None => DefaultRedactionText
    case Some(p) => p + DefaultRedactionText
  }

  // ---------------------------------------------------------------------------
  // Escaping for a single-quoted JavaScript string
  // ---------------------------------------------------------------------------

  /**
   * `escapeForJavaScriptString`: backslashes are doubled first, then quotes and double
   * quotes are escaped, carriage returns dropped and line feeds written as `\n`.
   */
  function EscapeForJavaScriptString(input: string): (r: string)
    ensures '\r' !in r && '\n' !in r
  {
    var s1 := ReplaceChar(input, '\\', "\\\\");
    var s2 := ReplaceChar(s1, '\'', "\\'");
    var s3 := ReplaceChar(s2, '"', "\\\"");
    var s4 := ReplaceChar(s3, '\r', "");
    ReplaceCharRemoves(s3, '\r', "");
    ReplaceCharRemoves(s4, '\n', "\\n");
    ReplaceCharAvoids(s4, '\n', "\\n", '\r');
    ReplaceChar(s4, '\n', "\\n")
  }

  /** What the chain of replacements does to one character. */
  function EscapeChar(c: char): string {
    if c == '\\' then "\\\\"
    else if c == '\'' then "\\'"
    else if c == '"' then "\\\""
    else if c == '\r' then ""
    else if c == '\n' then "\\n"
    else [c]
  }

  /** Escaping character by character. */
  function EscapeEach(s: string): string {
    if s == [] then [] else EscapeChar(s[0]) + EscapeEach(s[1..])
  }

  lemma EscapeOneChar(c: char)
    ensures EscapeForJavaScriptString([c]) == EscapeChar(c)
  {
    var s1 := ReplaceChar([c], '\\', "\\\\");
    var s2 := ReplaceChar(s1, '\'', "\\'");
    var s3 := ReplaceChar(s2, '"', "\\\"");
    var s4 := ReplaceChar(s3, '\r', "");
    if c == '\\' {
      assert s1 == "\\\\" && s2 == s1 && s3 == s1 && s4 == s1;
    } else if c == '\'' {
      assert s1 == [c] && s2 == "\\'" && s3 == s2 && s4 == s2;
    } else if c == '"' {
      assert s1 == [c] && s2 == [c] && s3 == "\\\"" && s4 == s3;
    } else if c == '\r' {
      assert s1 == [c] && s2 == [c] && s3 == [c] && s4 == "";
    } else {
      assert s1 == [c] && s2 == [c] && s3 == [c] && s4 == [c];
    }
  }

  lemma EscapeAppend(a: string, b: string)
    ensures EscapeForJavaScriptString(a + b) == EscapeForJavaScriptString(a) + EscapeForJavaScriptString(b)
  {
    var a1, b1 := ReplaceChar(a, '\\', "\\\\"), ReplaceChar(b, '\\', "\\\\");
    ReplaceCharAppend(a, b, '\\', "\\\\");
    var a2, b2 := ReplaceChar(a1, '\'', "\\'"), ReplaceChar(b1, '\'', "\\'");
    ReplaceCharAppend(a1, b1, '\'', "\\'");
    var a3, b3 := ReplaceChar(a2, '"', "\\\""), ReplaceChar(b2, '"', "\\\"");
    ReplaceCharAppend(a2, b2, '"', "\\\"");
    var a4, b4 := ReplaceChar(a3, '\r', ""), ReplaceChar(b3, '\r', "");
    ReplaceCharAppend(a3, b3, '\r', "");
    ReplaceCharAppend(a4, b4, '\n', "\\n");
  }

  /**
   * The five replacements in a row act on each character independently: because
   * backslashes are doubled first, no later replacement touches the text an earlier one
   * wrote.
   */
  lemma {:induction false} EscapeIsPerCharacter(s: string)
    ensures EscapeForJavaScriptString(s) == EscapeEach(s)
  {
    if s != [] {
      EscapeIsPerCharacter(s[1..]);
      EscapeAppend([s[0]], s[1..]);
      EscapeOneChar(s[0]);
      assert s == [s[0]] + s[1..];
    }
  }

  /** The character a JavaScript escape sequence `\c` stands for, for the escapes written here. */
  function Unescaped(c: char): char
    requires c == '\\' || c == '\'' || c == '"' || c == 'n'
  {
    if c == 'n' then '\n' else c
  }

  /**
   * Reads the body of a single-quoted JavaScript string literal (section 12.8.4 of the
   * ECMAScript 2015 Language Specification), for the escapes `\\`, `\'`, `\"` and `\n`:
   * an unescaped quote, backslash or line terminator makes the body invalid.
   */
  function ReadSingleQuoted(t: string): Option<string> {
    if t == [] then
      Some([])
    else if t[0] == '\\' then
      if |t| >= 2 && (t[1] == '\\' || t[1] == '\'' || t[1] == '"' || t[1] == 'n') then
        match ReadSingleQuoted(t[2..])
        case None => None
        case Some(rest) => Some([Unescaped(t[1])] + rest)
      else
        None
    else if t[0] == '\'' || t[0] == '\n' || t[0] == '\r' then
      None
    else
      match ReadSingleQuoted(t[1..])
      case None => None
      case Some(rest) => Some([t[0]] + rest)
  }

  /**
   * The escaped text is a valid single-quoted string body that reads back as the input
   * without its carriage returns: the page content cannot end the string early.
   */
  lemma {:induction false} EscapeRoundTrip(s: string)
    ensures ReadSingleQuoted(EscapeForJavaScriptString(s)) == Some(ReplaceChar(s, '\r', ""))
  {
    EscapeIsPerCharacter(s);
    EscapeEachRoundTrip(s);
  }

  lemma {:induction false} EscapeEachRoundTrip(s: string)
    ensures ReadSingleQuoted(EscapeEach(s)) == Some(ReplaceChar(s, '\r', ""))
  {
    if s != [] {
      var c, rest := s[0], EscapeEach(s[1..]);
      EscapeEachRoundTrip(s[1..]);
      var read := ReplaceChar(s[1..], '\r', "");
      var t := EscapeChar(c) + rest;
      assert EscapeEach(s) == t;
      if c == '\r' {
        assert t == rest;
        assert ReplaceChar(s, '\r', "") == "" + read == read;
      } else if c == '\\' || c == '\'' || c == '"' || c == '\n' {
        assert t[0] == '\\' && t[2..] == rest;
        assert ReplaceChar(s, '\r', "") == [c] + read;
        assert Unescaped(t[1]) == c;
      } else {
        assert t[0] == c && t[1..] == rest;
        assert ReplaceChar(s, '\r', "") == [c] + read;
      }
    }
  }

  /** `retrieveOuterHtml`: a missing `outerHTML` gives the empty text, otherwise its escaped form. */
  function RetrieveOuterHtml(outerHtml: Option<string>): (r: string)
    ensures outerHtml.None? ==> r == []
    ensures outerHtml.Some? ==> ReadSingleQuoted(r) == Some(ReplaceChar(outerHtml.value, '\r', ""))
  {
    match outerHtml
    case None => []
    case Some(html) =>
      EscapeRoundTrip(html);
      EscapeForJavaScriptString(html)
  }

  // ---------------------------------------------------------------------------
  // Matcher.replaceAll
  // ---------------------------------------------------------------------------

  /** The end of the longest match that starts at `i` and ends at or before `j`. */
  function LongestMatchEnd(p: Pattern, s: string, i: nat, j: nat): (r: Option<nat>)
    requires i <= j <= |s|
    ensures r.Some? ==> i < r.value <= j && Matches(p, s[i..r.value])
    ensures r.Some? ==> forall k :: r.value < k <= j ==> !Matches(p, s[i..k])
    ensures r.None? ==> forall k :: i <= k <= j ==> !Matches(p, s[i..k])
    decreases j
  {
    if j == i then
      NoEmptyMatch(p);
      assert s[i..j] == [];
      None
    else if Matches(p, s[i..j]) then
      Some(j)
    else
      LongestMatchEnd(p, s, i, j - 1)
  }

  /**
   * The match `replaceAll` finds next: the leftmost start at or after `i` where some match
   * begins, with the longest match there.
   */
  function FirstMatch(p: Pattern, s: string, i: nat): (r: Option<(nat, nat)>)
    requires i <= |s|
    ensures r.Some? ==> i <= r.value.0 < r.value.1 <= |s| && Matches(p, s[r.value.0..r.value.1])
    ensures r.Some? ==> forall k :: r.value.1 < k <= |s| ==> !Matches(p, s[r.value.0..k])
    ensures r.Some? ==> forall a, k :: i <= a < r.value.0 && a <= k <= |s| ==> !Matches(p, s[a..k])
    ensures r.None? ==> forall a, k :: i <= a <= k <= |s| ==> !Matches(p, s[a..k])
    decreases |s| - i
  {
    match LongestMatchEnd(p, s, i, |s|)
    case Some(b) => Some((i, b))
    case None => if i == |s| then None else FirstMatch(p, s, i + 1)
  }

  /**
   * `Matcher.replaceAll(DEFAULT_REDACTION_TEXT)`: every match, taken from left to right
   * and as long as possible, becomes the placeholder.
   */
  function ReplaceAll(p: Pattern, s: string): string
    decreases |s|
  {
    match FirstMatch(p, s, 0)
    case None => s
    case Some((a, b)) => s[..a] + DefaultRedactionText + ReplaceAll(p, s[b..])
  }

  /** `replaceEmail` */
  function ReplaceEmail(input: string): string {
    ReplaceAll(EmailPattern, input)
  }

  /** `replaceIpAddresses`: IPv4 addresses first, then masked addresses, then IPv6 addresses. */
  function ReplaceIpAddresses(input: string): string {
    ReplaceAll(Ipv6Pattern, ReplaceAll(Ipv4MaskedPattern, ReplaceAll(Ipv4Pattern, input)))
  }

  // ---------------------------------------------------------------------------
  // What replacement guarantees
  // ---------------------------------------------------------------------------

  /** A text in which nothing is found is left as it is. */
  lemma ReplaceAllUnchanged(p: Pattern, s: string)
    requires !Finds(p, s)
    ensures ReplaceAll(p, s) == s
  {
    match FirstMatch(p, s, 0)
    case None =>
    case Some(_) => assert false;
  }

  /** A text without `@` goes through `replaceEmail` unchanged. */
  lemma ReplaceEmailWithoutAt(s: string)
    requires '@' !in s
    ensures ReplaceEmail(s) == s
  {
    NoAtNoEmail(s);
    ReplaceAllUnchanged(EmailPattern, s);
  }

  lemma SliceNoMatch(p: Pattern, s: string, lo: nat, hi: nat)
    requires lo <= hi <= |s| && !Finds(p, s)
    ensures !Finds(p, s[lo..hi])
  {
    forall i, j | 0 <= i <= j <= hi - lo ensures !Matches(p, s[lo..hi][i..j]) {
      SliceOfSlice(s, lo, hi, i, j);
    }
  }

  /** Nothing is found before the first match. */
  lemma NoMatchBeforeFirst(p: Pattern, s: string)
    requires FirstMatch(p, s, 0).Some?
    ensures !Finds(p, s[..FirstMatch(p, s, 0).value.0])
  {
    var a := FirstMatch(p, s, 0).value.0;
    forall i, j | 0 <= i <= j <= a ensures !Matches(p, s[..a][i..j]) {
      SliceOfSlice(s, 0, a, i, j);
      assert s[0..a] == s[..a];
    }
  }

  /** A slice lying wholly in the right part of a concatenation is a slice of that part. */
  lemma SliceOfRight(a: string, b: string, i: int, j: int)
    requires |a| <= i <= j <= |a| + |b|
    ensures (a + b)[i..j] == b[i - |a|..j - |a|]
  {
  }

  /** Where a substring of `x + "----" + y` can lie when it holds no `-`. */
  lemma MatchPlacement(p: Pattern, x: string, y: string, i: int, j: int)
    requires p != EmailPattern && !Finds(p, x) && !Finds(p, y)
    requires 0 <= i <= j <= |x| + 4 + |y|
    ensures !Matches(p, (x + DefaultRedactionText + y)[i..j])
  {
    var t := x + DefaultRedactionText + y;
    if j <= |x| {
      assert t[i..j] == x[i..j];
    } else if i >= |x| + 4 {
      var left := x + DefaultRedactionText;
      assert t == left + y && |left| == |x| + 4;
      SliceOfRight(left, y, i, j);
    } else if i == j {
      NoEmptyMatch(p);
      assert t[i..j] == [];
    } else {
      var m := if i >= |x| then i else |x|;
      assert t[m] == '-';
      assert t[i..j][m - i] == '-';
      AddressHasNoDash(p, t[i..j]);
    }
  }

  /**
   * An address contains no `-`, so none can overlap the placeholder: joining two texts
   * without addresses around the placeholder gives a text without addresses.
   */
  lemma NoMatchAcross(p: Pattern, x: string, y: string)
    requires p != EmailPattern && !Finds(p, x) && !Finds(p, y)
    ensures !Finds(p, x + DefaultRedactionText + y)
  {
    forall i, j | 0 <= i <= j <= |x + DefaultRedactionText + y| ensures !Matches(p, (x + DefaultRedactionText + y)[i..j]) {
      MatchPlacement(p, x, y, i, j);
    }
  }

  /** After replacing an address pattern, the pattern is found nowhere in the result. */
  lemma {:induction false} ReplaceAllRemoves(p: Pattern, s: string)
    requires p != EmailPattern
    ensures !Finds(p, ReplaceAll(p, s))
    decreases |s|
  {
    match FirstMatch(p, s, 0)
    case None =>
    case Some((a, b)) =>
      ReplaceAllRemoves(p, s[b..]);
      NoMatchBeforeFirst(p, s);
      NoMatchAcross(p, s[..a], ReplaceAll(p, s[b..]));
  }

  /** Replacing any pattern by the placeholder brings in no address that was not there. */
  lemma {:induction false} ReplaceAllKeepsAbsent(p: Pattern, q: Pattern, s: string)
    requires q != EmailPattern && !Finds(q, s)
    ensures !Finds(q, ReplaceAll(p, s))
    decreases |s|
  {
    match FirstMatch(p, s, 0)
    case None =>
    case Some((a, b)) =>
      SliceNoMatch(q, s, b, |s|);
      assert s[b..|s|] == s[b..];
      ReplaceAllKeepsAbsent(p, q, s[b..]);
      SliceNoMatch(q, s, 0, a);
      assert s[0..a] == s[..a];
      NoMatchAcross(q, s[..a], ReplaceAll(p, s[b..]));
  }

  /** After `replaceIpAddresses`, `containsIpAddress` finds nothing. */
  lemma RedactedTextHasNoIpAddress(s: string)
    ensures !ContainsIpAddress(ReplaceIpAddresses(s))
  {
    var r1 := ReplaceAll(Ipv4Pattern, s);
    var r2 := ReplaceAll(Ipv4MaskedPattern, r1);
    ReplaceAllRemoves(Ipv4Pattern, s);
    ReplaceAllKeepsAbsent(Ipv4MaskedPattern, Ipv4Pattern, r1);
    ReplaceAllKeepsAbsent(Ipv6Pattern, Ipv4Pattern, r2);
    ReplaceAllRemoves(Ipv4MaskedPattern, r1);
    ReplaceAllKeepsAbsent(Ipv6Pattern, Ipv4MaskedPattern, r2);
    ReplaceAllRemoves(Ipv6Pattern, r2);
  }
}
