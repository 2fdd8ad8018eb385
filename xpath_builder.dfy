/**
 * `XpathBuilder`: the entry point that starts an expression at any depth of the document.
 * The usage examples of its documentation and of its tests are written here as methods,
 * first for any attribute or text value, then for the values the examples use.
 */
module XpathBuilder {
  import opened Text
  import opened Elements
  import opened XpathPredicates
  import opened Xpath

  /** `from`: a fresh step holding `//tag` followed by the predicates' edits. */
  method From(element: Element, predicates: seq<XpathPredicate>) returns (step: XpathStep)
    ensures fresh(step)
    ensures step.xpath == ApplyAll("//" + TagName(element), predicates)
  {
    step := new XpathStep();
    assert step.xpath + "//" + TagName(element) == "//" + TagName(element);
    step := step.From(element, predicates);
  }

  lemma ApplyAllOne(buf: string, p: XpathPredicate)
    ensures ApplyAll(buf, [p]) == p(buf)
  {
    assert [p][..0] == [];
  }

  lemma ApplyAllTwo(buf: string, p: XpathPredicate, q: XpathPredicate)
    ensures ApplyAll(buf, [p, q]) == q(p(buf))
  {
    assert [p, q][..1] == [p];
    ApplyAllOne(buf, p);
    assert ApplyAll(buf, [p, q]) == q(ApplyAll(buf, [p]));
  }

  lemma TagNameOfHtml(e: HtmlElement)
    ensures TagName(Html(e)) == Name(e)
  {
    HtmlTagNameIsName(e);
  }

  /** The custom element `root` used by the documentation's third example. */
  function Root(): (e: Element)
    ensures TagName(e) == "root"
  {
    assert !IsBlank("root") by {
      assert !IsJavaWhitespace("root"[0]);
    }
    Named(Of("root").value)
  }

  /** An index predicate after any element gives `//tag[index]`, the index written in decimal. */
  method IndexedLookup(e: HtmlElement, index: int) returns (query: string)
    ensures query == "//" + Name(e) + "[" + IntToDecimal(index) + "]"
  {
    TagNameOfHtml(e);
    var step := From(Html(e), [AtIndex(index)]);
    ApplyAllOne("//" + Name(e), AtIndex(index));
    AtIndexApplied("//" + Name(e), index);
    query := step.ToString();
  }

  /** A child of the custom element `root` gives `//root/tag`. */
  method RootChild(e: HtmlElement) returns (query: string)
    ensures query == "//root/" + Name(e)
  {
    TagNameOfHtml(e);
    var step := From(Root(), []);
    step := step.Child(Html(e), []);
    query := step.ToString();
  }

  /** The parent lookup after any element gives `//tag/ancestor::parent[1]`, the nearest enclosing `parent`. */
  method ParentLookup(start: HtmlElement, e: HtmlElement) returns (query: string)
    ensures query == "//" + Name(start) + "/ancestor::" + Name(e) + "[1]"
  {
    TagNameOfHtml(start);
    TagNameOfHtml(e);
    var step := From(Html(start), []);
    assert step.xpath == "//" + Name(start);
    step := step.Parent(Html(e));
    query := step.ToString();
  }

  /** Example 1 of the documentation: the plain lookup `//div`. */
  method SimpleLookup() returns (selector: By)
    ensures selector == ByXpath("//div")
  {
    TagNameOfHtml(div);
    var step := From(Html(div), []);
    selector := step.Build();
  }

  /** Example 2 of the documentation, for any class and title: a direct child with two predicates. */
  method ChildWithPredicates(cls: string, title: string) returns (selector: By)
    ensures selector == ByXpath("//form/input[contains(@class, '" + EscapeXpath(cls) + "')][@title='" + EscapeXpath(title) + "']")
  {
    TagNameOfHtml(form);
    TagNameOfHtml(input);
    var p, q := WithClass(cls), WithAttribute("title", title);
    var step := From(Html(form), []);
    assert step.xpath == "//form";
    step := step.Child(Html(input), [p, q]);
    var buf := "//form/input";
    assert "//form" + "/" + TagName(Html(input)) == buf;
    ApplyAllTwo(buf, p, q);
    WithClassApplied(buf, cls);
    WithAttributeApplied(p(buf), "title", title);
    ChildText(EscapeXpath(cls), EscapeXpath(title));
    selector := step.Build();
  }

  lemma ChildText(x: string, y: string)
    ensures "//form/input" + "[contains(@class, '" + x + "')]" + "[@" + "title" + "='" + y + "']"
         == "//form/input[contains(@class, '" + x + "')][@title='" + y + "']"
  {
  }

  lemma DocumentedChildText(x: string, y: string)
    requires x == "email" && y == "user-email"
    ensures "//form/input[contains(@class, '" + x + "')][@title='" + y + "']"
         == "//form/input[contains(@class, 'email')][@title='user-email']"
  {
  }

  /** Example 2 with the documented values gives the documented expression. */
  method DocumentedChild() returns (selector: By)
    ensures selector == ByXpath("//form/input[contains(@class, 'email')][@title='user-email']")
  {
    selector := ChildWithPredicates("email", "user-email");
    EscapeXpathNoQuote("email");
    EscapeXpathNoQuote("user-email");
    DocumentedChildText(EscapeXpath("email"), EscapeXpath("user-email"));
  }

  /**
   * The opening of example 3 of the documentation: `atFirstIndex()` after the `table`
   * descendant appends `[1]`, so the full expression starts `//root//table[1]`, where the
   * result quoted in the documentation continues `//root//table//td`.
   */
  method FirstTableUnderRoot() returns (selector: By)
    ensures selector == ByXpath("//root//table[1]")
  {
    var step := From(Root(), []);
    step := step.Descendant(Html(table), [AtFirstIndex()]);
    FirstTable("//root");
    assert "//root" + "//" + "table" + "[1]" == "//root//table[1]";
    selector := step.Build();
  }

  lemma FirstTable(p: string)
    ensures ApplyAll(p + "//" + TagName(Html(table)), [AtFirstIndex()]) == p + "//" + "table" + "[1]"
  {
    assert TagName(Html(table)) == "table" by {
      TagNameOfHtml(table);
    }
    ApplyAllOne(p + "//" + "table", AtFirstIndex());
    AtFirstIndexApplied(p + "//" + "table");
  }

  /** `build` on `//div[@id=...]` gives the locator whose text is `By.xpath: //div[@id=...]`. */
  method BuildText(id: string) returns (text: string)
    ensures text == "By.xpath: //div[@id='" + EscapeXpath(id) + "']"
  {
    TagNameOfHtml(div);
    var step := From(Html(div), [WithId(id)]);
    ApplyAllOne("//div", WithId(id));
    WithIdApplied("//div", id);
    text := ByText(step.Build());
  }
}
