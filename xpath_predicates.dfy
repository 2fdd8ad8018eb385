/**
 * XPath predicates (`XpathPredicate`) and the factory of attribute, text and index
 * predicates (`XpathAttributePredicate`). A predicate edits the expression being built;
 * every predicate the factory makes appends one bracketed clause and nothing else.
 */
module XpathPredicates {
  import opened Text

  /**
   * An XPath predicate: given the expression built so far, the expression after the
   * predicate has been applied to it.
   */
  type XpathPredicate = string -> string

  /** The text a predicate appends to an empty expression. */
  function Fragment(p: XpathPredicate): string {
    p([])
  }

  /** The predicate only appends a fixed clause, as implementations of the interface are asked to. */
  ghost predicate Appends(p: XpathPredicate) {
    forall buf :: p(buf) == buf + Fragment(p)
  }

  // ---------------------------------------------------------------------------
  // Escaping of attribute and text values
  // ---------------------------------------------------------------------------

  /** The escaping applied to every value placed between quotes: each `'` becomes `\'`. */
  function EscapeXpath(value: string): string {
    if value == [] then
      []
    else
      var rest := EscapeXpath(value[1..]);
      if value[0] == '\'' then "\\'" + rest else [value[0]] + rest
  }

  /**
   * The escaped value grows by one character per quote, and every quote in it is preceded
   * by a backslash.
   */
  lemma {:induction false} EscapeXpathShape(value: string)
    ensures var r := EscapeXpath(value);
      && |r| == |value| + Count(value, '\'')
      && (forall i :: 0 <= i < |r| && r[i] == '\'' ==> 0 < i && r[i - 1] == '\\')
      && (r == [] || r[0] != '\'')
  {
    if value != [] {
      EscapeXpathShape(value[1..]);
    }
  }

  /** Undoes `EscapeXpath`: each `\'` becomes `'`. */
  function UnescapeXpath(s: string): string {
    if s == [] then []
    else if |s| >= 2 && s[0] == '\\' && s[1] == '\'' then "'" + UnescapeXpath(s[2..])
    else [s[0]] + UnescapeXpath(s[1..])
  }

  /** Escaping loses nothing: the value can always be recovered from its escaped form. */
  lemma {:induction false} EscapeXpathRoundTrip(value: string)
    ensures UnescapeXpath(EscapeXpath(value)) == value
  {
    if value != [] {
      var rest := EscapeXpath(value[1..]);
      EscapeXpathRoundTrip(value[1..]);
      EscapeXpathShape(value[1..]);
      if value[0] == '\'' {
        assert ("\\'" + rest)[2..] == rest;
      } else {
        assert ([value[0]] + rest)[1..] == rest;
      }
      assert value == [value[0]] + value[1..];
    }
  }

  /** Distinct values escape to distinct texts. */
  lemma EscapeXpathInjective(v: string, w: string)
    requires EscapeXpath(v) == EscapeXpath(w)
    ensures v == w
  {
    EscapeXpathRoundTrip(v);
    EscapeXpathRoundTrip(w);
  }

  /** A value without quotes is left as it is. */
  lemma {:induction false} EscapeXpathNoQuote(value: string)
    requires '\'' !in value
    ensures EscapeXpath(value) == value
  {
    if value != [] {
      EscapeXpathNoQuote(value[1..]);
      assert value == [value[0]] + value[1..];
    }
  }

  // ---------------------------------------------------------------------------
  // The predicate factory
  // ---------------------------------------------------------------------------

  /** The predicate that appends a fixed clause. */
  function Suffix(clause: string): XpathPredicate {
    buf => buf + clause
  }

  /** A predicate made from a clause only appends, and what it appends is the clause. */
  lemma SuffixAppends(clause: string)
    ensures Fragment(Suffix(clause)) == clause
    ensures Appends(Suffix(clause))
  {
    assert [] + clause == clause;
  }

  /** `atIndex`: appends `[index]`. */
  function AtIndex(index: int): XpathPredicate {
    Suffix("[" + IntToDecimal(index) + "]")
  }

  /** `atFirstIndex`: the predicate selecting the first match, `[1]`. */
  function AtFirstIndex(): (p: XpathPredicate)
    ensures Fragment(p) == "[1]"
  {
    AtIndex(1)
  }

  /** An index predicate only appends. */
  lemma AtIndexAppends(index: int)
    ensures Appends(AtIndex(index))
  {
    SuffixAppends("[" + IntToDecimal(index) + "]");
  }

  /** What the index predicate appends, as the bracketed rendering of the index. */
  lemma AtIndexClause(index: int)
    ensures Fragment(AtIndex(index)) == "[" + IntToDecimal(index) + "]"
  {
    SuffixAppends("[" + IntToDecimal(index) + "]");
  }

  /**
   * What an index predicate appends is a bracketed canonical decimal that reads back as
   * the index, with a minus sign before it for a negative index.
   */
  lemma AtIndexFragment(index: int)
    ensures var f := Fragment(AtIndex(index));
      |f| >= 3 && f[0] == '[' && f[|f| - 1] == ']'
      && (index >= 0 ==> IsCanonicalDecimal(f[1..|f| - 1]) && DecimalValue(f[1..|f| - 1]) == index)
      && (index < 0 ==> f[1] == '-' && IsCanonicalDecimal(f[2..|f| - 1]) && DecimalValue(f[2..|f| - 1]) == -index)
  {
    var f := Fragment(AtIndex(index));
    AtIndexClause(index);
    if index >= 0 {
      var digits := NatToDecimal(index);
      NatToDecimalCanonical(index);
      assert f == "[" + digits + "]";
      assert f[1..|f| - 1] == digits;
    } else {
      var digits := NatToDecimal(-index);
      NatToDecimalCanonical(-index);
      assert f == "[" + "-" + digits + "]";
      assert f[2..|f| - 1] == digits;
    }
  }

  /** `containsAttributeFunction`: appends `[contains(name, 'value')]` with the value escaped. */
  function ContainsAttributeFunction(name: string, value: string): XpathPredicate {
    buf => buf + "[contains(" + name + ", '" + EscapeXpath(value) + "')]"
  }

  /** `withAttributeFunction`: appends `[name='value']` with the value escaped. */
  function WithAttributeFunction(name: string, value: string): XpathPredicate {
    buf => buf + "[" + name + "='" + EscapeXpath(value) + "']"
  }

  /** Both attribute-function predicates only append. */
  lemma AttributeFunctionsAppend(name: string, v: string)
    ensures Appends(ContainsAttributeFunction(name, v)) && Appends(WithAttributeFunction(name, v))
  {
    var prefix1 := "[contains(" + name + ", '";
    var prefix2 := "[" + name + "='";
    forall buf ensures ContainsAttributeFunction(name, v)(buf) == buf + Fragment(ContainsAttributeFunction(name, v)) {
      assert ContainsAttributeFunction(name, v)(buf) == buf + (prefix1 + EscapeXpath(v) + "')]");
    }
    forall buf ensures WithAttributeFunction(name, v)(buf) == buf + Fragment(WithAttributeFunction(name, v)) {
      assert WithAttributeFunction(name, v)(buf) == buf + (prefix2 + EscapeXpath(v) + "']");
    }
  }

  /** For a given attribute function, the appended clause determines the value searched for. */
  lemma AttributeFunctionsDetermineValue(name: string, v: string, w: string)
    ensures Fragment(ContainsAttributeFunction(name, v)) == Fragment(ContainsAttributeFunction(name, w)) ==> v == w
    ensures Fragment(WithAttributeFunction(name, v)) == Fragment(WithAttributeFunction(name, w)) ==> v == w
  {
    var prefix1 := "[contains(" + name + ", '";
    var prefix2 := "[" + name + "='";
    if Fragment(ContainsAttributeFunction(name, v)) == Fragment(ContainsAttributeFunction(name, w)) {
      var fv := Fragment(ContainsAttributeFunction(name, v));
      var fw := Fragment(ContainsAttributeFunction(name, w));
      assert fv == prefix1 + EscapeXpath(v) + "')]";
      assert fw == prefix1 + EscapeXpath(w) + "')]";
      assert EscapeXpath(v) == fv[|prefix1|..|fv| - 3];
      assert EscapeXpath(w) == fw[|prefix1|..|fw| - 3];
      EscapeXpathInjective(v, w);
    }
    if Fragment(WithAttributeFunction(name, v)) == Fragment(WithAttributeFunction(name, w)) {
      var fv := Fragment(WithAttributeFunction(name, v));
      var fw := Fragment(WithAttributeFunction(name, w));
      assert fv == prefix2 + EscapeXpath(v) + "']";
      assert fw == prefix2 + EscapeXpath(w) + "']";
      assert EscapeXpath(v) == fv[|prefix2|..|fv| - 2];
      assert EscapeXpath(w) == fw[|prefix2|..|fw| - 2];
      EscapeXpathInjective(v, w);
    }
  }

  /** `containsAttribute`: appends `[contains(@name, 'value')]`. */
  function ContainsAttribute(name: string, value: string): (p: XpathPredicate)
    ensures Fragment(p) == "[contains(@" + name + ", '" + EscapeXpath(value) + "')]"
  {
    ContainsAttributeFunction("@" + name, value)
  }

  /** `withAttribute`: appends `[@name='value']`. */
  function WithAttribute(name: string, value: string): (p: XpathPredicate)
    ensures Fragment(p) == "[@" + name + "='" + EscapeXpath(value) + "']"
  {
    WithAttributeFunction("@" + name, value)
  }

  /** `withClass`: appends `[contains(@class, 'value')]`. */
  function WithClass(value: string): (p: XpathPredicate)
    ensures Fragment(p) == "[contains(@class, '" + EscapeXpath(value) + "')]"
  {
    ContainsAttribute("class", value)
  }

  /** `withId`: appends `[@id='value']`. */
  function WithId(value: string): (p: XpathPredicate)
    ensures Fragment(p) == "[@id='" + EscapeXpath(value) + "']"
  {
    WithAttribute("id", value)
  }

  /** `withName`: appends `[@name='value']`. */
  function WithName(value: string): (p: XpathPredicate)
    ensures Fragment(p) == "[@name='" + EscapeXpath(value) + "']"
  {
    WithAttribute("name", value)
  }

  /** `withText`: appends `[contains(normalize-space(), 'value')]`. */
  function WithText(value: string): (p: XpathPredicate)
    ensures Fragment(p) == "[contains(normalize-space(), '" + EscapeXpath(value) + "')]"
  {
    ContainsAttributeFunction("normalize-space()", value)
  }

  /** `withType`: appends `[@type='value']`. */
  function WithType(value: string): (p: XpathPredicate)
    ensures Fragment(p) == "[@type='" + EscapeXpath(value) + "']"
  {
    WithAttribute("type", value)
  }

  // The factory predicates applied to an expression under construction.

  lemma AtIndexApplied(buf: string, index: int)
    ensures AtIndex(index)(buf) == buf + "[" + IntToDecimal(index) + "]"
  {
  }

  lemma AtFirstIndexApplied(buf: string)
    ensures AtFirstIndex()(buf) == buf + "[1]"
  {
    assert IntToDecimal(1) == "1";
    assert "[" + "1" + "]" == "[1]";
  }

  lemma WithClassApplied(buf: string, value: string)
    ensures WithClass(value)(buf) == buf + "[contains(@class, '" + EscapeXpath(value) + "')]"
  {
    assert WithClass(value)(buf) == buf + ("[contains(" + "@class" + ", '" + EscapeXpath(value) + "')]");
  }

  lemma WithAttributeApplied(buf: string, name: string, value: string)
    ensures WithAttribute(name, value)(buf) == buf + "[@" + name + "='" + EscapeXpath(value) + "']"
  {
    assert WithAttribute(name, value)(buf) == buf + ("[" + ("@" + name) + "='" + EscapeXpath(value) + "']");
  }

  lemma WithIdApplied(buf: string, value: string)
    ensures WithId(value)(buf) == buf + "[@id='" + EscapeXpath(value) + "']"
  {
    assert WithId(value)(buf) == buf + ("[" + "@id" + "='" + EscapeXpath(value) + "']");
  }

  lemma WithTextApplied(buf: string, value: string)
    ensures WithText(value)(buf) == buf + "[contains(normalize-space(), '" + EscapeXpath(value) + "')]"
  {
    assert WithText(value)(buf) == buf + ("[contains(" + "normalize-space()" + ", '" + EscapeXpath(value) + "')]");
  }

  // ---------------------------------------------------------------------------
  // String literals as XPath 1.0 reads them (section 3.7 of XML Path Language 1.0)
  // ---------------------------------------------------------------------------

  /**
   * A Literal token of XPath 1.0: text between two matching single or double quotes that
   * does not contain that quote. There is no escape character.
   */
  predicate IsXpathLiteral(token: string) {
    |token| >= 2 && (token[0] == '\'' || token[0] == '"')
    && token[|token| - 1] == token[0]
    && token[0] !in token[1..|token| - 1]
  }

  /** The string a Literal token denotes. */
  function LiteralValue(token: string): string
    requires |token| >= 2
  {
    token[1..|token| - 1]
  }

  lemma {:induction false} EscapeXpathKeepsQuote(value: string)
    requires '\'' in value
    ensures '\'' in EscapeXpath(value)
  {
    if value[0] != '\'' {
      EscapeXpathKeepsQuote(value[1..]);
    }
  }

  /**
   * The value placed between single quotes by the attribute predicates is not an XPath 1.0
   * Literal as soon as the value holds a quote: the backslash does not escape it, and the
   * literal ends at the first quote of the escaped value.
   */
  lemma QuotedEscapeIsNotLiteral(value: string)
    requires '\'' in value
    ensures !IsXpathLiteral("'" + EscapeXpath(value) + "'")
  {
    EscapeXpathKeepsQuote(value);
    var t := "'" + EscapeXpath(value) + "'";
    assert t[1..|t| - 1] == EscapeXpath(value);
  }

  /** The value `it's` is rendered as `'it\'s'`, which XPath 1.0 reads as the literal `'it\'` followed by stray text. */
  lemma QuotedEscapeExample()
    ensures "'" + EscapeXpath("it's") + "'" == "'it\\'s'"
    ensures !IsXpathLiteral("'" + EscapeXpath("it's") + "'")
  {
    QuotedEscapeIsNotLiteral("it's");
  }

  /** Concatenation of the values of a list of Literal tokens. */
  function LiteralsValue(tokens: seq<string>): string
    requires forall k :: 0 <= k < |tokens| ==> IsXpathLiteral(tokens[k])
  {
    if tokens == [] then [] else assert IsXpathLiteral(tokens[0]); LiteralValue(tokens[0]) + LiteralsValue(tokens[1..])
  }

  /** The pieces of a value between its quotes, each single-quoted, with a double-quoted `'` between them. */
  function QuotedPieces(pieces: seq<string>): (tokens: seq<string>)
    requires |pieces| >= 1 && forall k :: 0 <= k < |pieces| ==> '\'' !in pieces[k]
    ensures |tokens| >= 1
    ensures forall k :: 0 <= k < |tokens| ==> IsXpathLiteral(tokens[k])
    ensures LiteralsValue(tokens) == Join(pieces, '\'')
  {
    var first := "'" + pieces[0] + "'";
    assert LiteralValue(first) == pieces[0];
    if |pieces| == 1 then
      [first]
    else
      var rest := QuotedPieces(pieces[1..]);
      var quote := "\"'\"";
      var tokens := [first, quote] + rest;
      assert tokens[1..] == [quote] + rest && tokens[2..] == rest;
      assert LiteralValue(quote) == "'";
      assert LiteralsValue(tokens[1..]) == "'" + LiteralsValue(rest);
      assert LiteralsValue(tokens) == pieces[0] + "'" + LiteralsValue(rest);
      tokens
  }

  /**
   * The Literal tokens an XPath 1.0 expression for `value` is made of: one single-quoted
   * literal when the value has no single quote, one double-quoted literal when it has no
   * double quote, otherwise the arguments of a `concat(...)` call.
   */
  function XpathLiteralTokens(value: string): (tokens: seq<string>)
    ensures |tokens| >= 1
    ensures forall k :: 0 <= k < |tokens| ==> IsXpathLiteral(tokens[k])
    ensures LiteralsValue(tokens) == value
  {
    if '\'' !in value then
      var t := "'" + value + "'";
      assert LiteralValue(t) == value;
      [t]
    else if '"' !in value then
      var t := "\"" + value + "\"";
      assert LiteralValue(t) == value;
      [t]
    else
      JoinPieces(value, '\'');
      QuotedPieces(Pieces(value, '\''))
  }

  function JoinArguments(tokens: seq<string>): string {
    if tokens == [] then [] else if |tokens| == 1 then tokens[0] else tokens[0] + ", " + JoinArguments(tokens[1..])
  }

  /**
   * `e` is an XPath 1.0 expression whose value is the string `value`, built from string
   * literals only: one Literal (section 3.7), or a call of `concat` (section 4.2, two or
   * more arguments) on Literals whose values, in order, make up `value`.
   */
  ghost predicate Denotes(e: string, value: string) {
    exists tokens: seq<string> ::
      && |tokens| >= 1
      && (forall k :: 0 <= k < |tokens| ==> IsXpathLiteral(tokens[k]))
      && LiteralsValue(tokens) == value
      && e == (if |tokens| == 1 then tokens[0] else "concat(" + JoinArguments(tokens) + ")")
  }

  /**
   * The XPath 1.0 expression whose value is `value`: a single literal, or a `concat(...)`
   * of literals. For a value without single quotes it is exactly what the predicates
   * write today, so the correction changes no expression that is currently valid.
   */
  function XpathStringExpression(value: string): (e: string)
    ensures Denotes(e, value)
    ensures '\'' !in value ==> e == "'" + EscapeXpath(value) + "'" && IsXpathLiteral(e) && LiteralValue(e) == value
  {
    var tokens := XpathLiteralTokens(value);
    var e := if |tokens| == 1 then tokens[0] else "concat(" + JoinArguments(tokens) + ")";
    assert Denotes(e, value);
    if '\'' !in value then EscapeXpathNoQuote(value); e
    else e
  }

  /** A value with a single quote but no double quote becomes one double-quoted Literal. */
  lemma DoubleQuotedExpression(value: string)
    requires '\'' in value && '"' !in value
    ensures XpathStringExpression(value) == "\"" + value + "\""
  {
  }

  /** The value `it's` of the finding becomes the Literal `"it's"`. */
  lemma SingleQuoteExpression()
    ensures XpathStringExpression("it's") == "\"it's\""
  {
    var v := "it's";
    assert v[2] == '\'';
    assert '"' !in v by {
      assert forall k :: 0 <= k < |v| ==> v[k] != '"';
    }
    DoubleQuotedExpression(v);
  }

  /** The expression is the single token, or the `concat` of the tokens when there are several. */
  lemma ExpressionOfTokens(value: string)
    ensures var tokens := XpathLiteralTokens(value);
      XpathStringExpression(value) == if |tokens| == 1 then tokens[0] else "concat(" + JoinArguments(tokens) + ")"
  {
  }

  /** The tokens of a value holding both kinds of quote and one single quote. */
  lemma TwoPiecesTokens(a: string, b: string)
    requires '\'' !in a && '\'' !in b && '"' in b
    ensures XpathLiteralTokens(a + "'" + b) == ["'" + a + "'", "\"'\"", "'" + b + "'"]
  {
    var v := a + "'" + b;
    assert v[|a|] == '\'';
    assert '"' in v by {
      var k :| 0 <= k < |b| && b[k] == '"';
      assert v[|a| + 1 + k] == '"';
    }
    PiecesAfterFirst(a, '\'', b);
    PiecesWithoutSeparator(b, '\'');
    assert Pieces(v, '\'') == [a, b];
    assert [a, b][1..] == [b];
    assert QuotedPieces([b]) == ["'" + b + "'"];
    assert QuotedPieces([a, b]) == ["'" + a + "'", "\"'\""] + QuotedPieces([b]);
    assert XpathLiteralTokens(v) == QuotedPieces(Pieces(v, '\''));
  }

  /** The `concat` call on the three tokens, written out. */
  lemma TwoPiecesConcat(a: string, b: string)
    ensures "concat(" + JoinArguments(["'" + a + "'", "\"'\"", "'" + b + "'"]) + ")"
         == "concat('" + a + "', \"'\", '" + b + "')"
  {
    var tokens := ["'" + a + "'", "\"'\"", "'" + b + "'"];
    var last := tokens[1..][1..];
    assert last == ["'" + b + "'"];
    assert JoinArguments(tokens[1..]) == "\"'\"" + ", " + ("'" + b + "'");
    assert JoinArguments(tokens) == "'" + a + "'" + ", " + JoinArguments(tokens[1..]);
    assert "concat('" == "concat(" + "'";
    assert "', \"'\", '" == "'" + ", " + "\"'\"" + ", " + "'";
    assert "')" == "'" + ")";
  }

  /**
   * A value holding both kinds of quote, with one single quote, becomes a `concat` of the
   * text before it, a double-quoted `'`, and the text after it.
   */
  lemma TwoPiecesExpression(a: string, b: string)
    requires '\'' !in a && '\'' !in b && '"' in b
    ensures XpathStringExpression(a + "'" + b) == "concat('" + a + "', \"'\", '" + b + "')"
  {
    TwoPiecesTokens(a, b);
    ExpressionOfTokens(a + "'" + b);
    TwoPiecesConcat(a, b);
  }
}
