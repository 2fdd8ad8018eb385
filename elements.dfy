/**
 * The HTML elements an XPath step can name: the fixed set of common tags (`HtmlElement`)
 * and arbitrary, validated tag names (`NamedHtmlElement`).
 */
module Elements {
  import opened Wrappers
  import opened Text

  /** The common HTML tags; each constant is named exactly as its tag. */
  datatype HtmlElement =
    | a | button | div | form | img | input | li
    | span | table | tbody | td | th | tr | ul

  /** Every `HtmlElement` constant, in declaration order. */
  const AllHtmlElements: seq<HtmlElement> :=
    [a, button, div, form, img, input, li, span, table, tbody, td, th, tr, ul]

  /** The constant's own name (Java's `Enum.name()`). */
  function Name(e: HtmlElement): string {
    match e
    case a => "a"
    case button => "button"
    case div => "div"
    case form => "form"
    case img => "img"
    case input => "input"
    case li => "li"
    case span => "span"
    case table => "table"
    case tbody => "tbody"
    case td => "td"
    case th => "th"
    case tr => "tr"
    case ul => "ul"
  }

  /** The tag name: the constant's name, lower-cased. */
  function HtmlTagName(e: HtmlElement): string {
    ToLower(Name(e))
  }

  /** Lower-casing changes none of the constant names, so every tag is the constant's own name. */
  lemma HtmlTagNameIsName(e: HtmlElement)
    ensures HtmlTagName(e) == Name(e) && HtmlTagName(e) != []
  {
    match e
    case a =>
    case button =>
    case div =>
    case form =>
    case img =>
    case input =>
    case li =>
    case span =>
    case table =>
    case tbody =>
    case td =>
    case th =>
    case tr =>
    case ul =>
  }

  /** No two constants share a tag name. */
  lemma HtmlTagNameInjective(e: HtmlElement, f: HtmlElement)
    requires HtmlTagName(e) == HtmlTagName(f)
    ensures e == f
  {
    HtmlTagNameIsName(e);
    HtmlTagNameIsName(f);
    match e
    case a =>
    case button =>
    case div =>
    case form =>
    case img =>
    case input =>
    case li =>
    case span =>
    case table =>
    case tbody =>
    case td =>
    case th =>
    case tr =>
    case ul =>
  }

  /** The list of constants names every constant. */
  lemma AllHtmlElementsComplete(e: HtmlElement)
    ensures e in AllHtmlElements && |AllHtmlElements| == 14
  {
  }

  /** A tag that is not in `HtmlElement`, such as a custom element or the wildcard `*`. */
  datatype NamedHtmlElement = NamedHtmlElement(rawTagName: string)

  datatype ElementError = BlankTagName

  /** `NamedHtmlElement.of`: rejects a blank name, otherwise keeps the name exactly as given. */
  function Of(tagName: string): (r: Result<NamedHtmlElement, ElementError>)
    ensures r.Failure? <==> IsBlank(tagName)
    ensures r.Success? ==> r.value.rawTagName == tagName
  {
    if IsBlank(tagName) then Failure(BlankTagName) else Success(NamedHtmlElement(tagName))
  }

  /** `NamedHtmlElement.any`: the wildcard element, whose tag name is `*`. */
  function Any(): (e: NamedHtmlElement)
    ensures NamedTagName(e) == "*"
  {
    assert !IsBlank("*") by {
      assert !IsJavaWhitespace("*"[0]);
    }
    Of("*").value
  }

  /** The tag name of a named element: the stored name, lower-cased. */
  function NamedTagName(e: NamedHtmlElement): string {
    ToLower(e.rawTagName)
  }

  /** Anything that has a tag name and can be placed in an XPath step. */
  datatype Element = Html(html: HtmlElement) | Named(named: NamedHtmlElement)

  function TagName(e: Element): string {
    match e
    case Html(h) => HtmlTagName(h)
    case Named(n) => NamedTagName(n)
  }

  /**
   * A named element's tag name has no upper-case letter, and naming an element after
   * another element's tag name gives that same tag name back.
   */
  lemma {:induction false} NamedTagNameNormalised(name: string)
    requires !IsBlank(name)
    ensures forall i :: 0 <= i < |NamedTagName(Of(name).value)| ==> !IsUpper(NamedTagName(Of(name).value)[i])
    ensures !IsBlank(NamedTagName(Of(name).value))
    ensures NamedTagName(Of(NamedTagName(Of(name).value)).value) == NamedTagName(Of(name).value)
  {
    var t := NamedTagName(Of(name).value);
    var i :| 0 <= i < |name| && !IsJavaWhitespace(name[i]);
    assert t[i] == ToLowerChar(name[i]);
    assert !IsJavaWhitespace(t[i]);
    ToLowerIdempotent(name);
  }
}
