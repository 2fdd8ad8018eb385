/**
 * `XpathStep`: the mutable XPath expression under construction. Each navigation call
 * appends an axis and a tag name, then lets the given predicates edit the expression
 * in order.
 */
module Xpath {
  import opened Elements
  import opened XpathPredicates

  /** The expression after applying `ps`, in order, to `buf`. */
  function ApplyAll(buf: string, ps: seq<XpathPredicate>): string {
    if ps == [] then buf else ps[|ps| - 1](ApplyAll(buf, ps[..|ps| - 1]))
  }

  /** The clauses of `ps`, one after the other. */
  function Fragments(ps: seq<XpathPredicate>): string {
    if ps == [] then [] else Fragments(ps[..|ps| - 1]) + Fragment(ps[|ps| - 1])
  }

  ghost predicate AllAppend(ps: seq<XpathPredicate>) {
    forall k :: 0 <= k < |ps| ==> Appends(ps[k])
  }

  /**
   * When every predicate only appends, applying them appends their clauses in order and
   * leaves what was already written untouched.
   */
  lemma {:induction false} ApplyAllAppends(buf: string, ps: seq<XpathPredicate>)
    requires AllAppend(ps)
    ensures ApplyAll(buf, ps) == buf + Fragments(ps)
  {
    if ps != [] {
      var init := ps[..|ps| - 1];
      var last := ps[|ps| - 1];
      assert AllAppend(init) by {
        forall k | 0 <= k < |init| ensures Appends(init[k]) {
          assert init[k] == ps[k];
        }
      }
      ApplyAllAppends(buf, init);
      var mid := ApplyAll(buf, init);
      assert Appends(last);
      assert ApplyAll(buf, ps) == last(mid);
      assert last(mid) == mid + Fragment(last);
      assert Fragments(ps) == Fragments(init) + Fragment(last);
      assert buf + Fragments(init) + Fragment(last) == buf + (Fragments(init) + Fragment(last));
    }
  }

  /** A Selenium locator; only the XPath kind is built here. */
  datatype By = ByXpath(expression: string) | ById(id: string)

  /** The text Selenium gives a locator (`By.toString`). */
  function ByText(b: By): string {
    match b
    case ByXpath(e) => "By.xpath: " + e
    case ById(i) => "By.id: " + i
  }

  class XpathStep {
    /** The expression written so far (the `StringBuilder` of the source). */
    var xpath: string

    /** A new step holds the empty expression. */
    constructor()
      ensures xpath == []
    {
      xpath := [];
    }

    /** `from`: appends `//tag`, then applies the predicates. */
    method From(element: Element, predicates: seq<XpathPredicate>) returns (step: XpathStep)
      modifies this
      ensures step == this
      ensures xpath == ApplyAll(old(xpath) + "//" + TagName(element), predicates)
    {
      xpath := xpath + "//" + TagName(element);
      ApplyPredicates(predicates);
      step := this;
    }

    /** `child`: appends `/tag`, then applies the predicates. */
    method Child(element: Element, predicates: seq<XpathPredicate>) returns (step: XpathStep)
      modifies this
      ensures step == this
      ensures xpath == ApplyAll(old(xpath) + "/" + TagName(element), predicates)
    {
      xpath := xpath + "/" + TagName(element);
      ApplyPredicates(predicates);
      step := this;
    }

    /** `descendant`: appends `//tag`, then applies the predicates. */
    method Descendant(element: Element, predicates: seq<XpathPredicate>) returns (step: XpathStep)
      modifies this
      ensures step == this
      ensures xpath == ApplyAll(old(xpath) + "//" + TagName(element), predicates)
    {
      xpath := xpath + "//" + TagName(element);
      ApplyPredicates(predicates);
      step := this;
    }

    /** `parent`: appends `/ancestor::tag[1]`, selecting the nearest enclosing element with that tag. */
    method Parent(element: Element) returns (step: XpathStep)
      modifies this
      ensures step == this
      ensures xpath == old(xpath) + "/ancestor::" + TagName(element) + "[1]"
    {
      xpath := xpath + "/ancestor::" + TagName(element) + "[1]";
      step := this;
    }

    /** `build`: the XPath locator for the expression written so far. */
    function Build(): (b: By)
      reads this
      ensures b.ByXpath? && ByText(b) == "By.xpath: " + xpath
    {
      ByXpath(xpath)
    }

    /** `toString`: the expression written so far. */
    function ToString(): string
      reads this
    {
      xpath
    }

    /** Applies each predicate to the expression, in order. */
    method ApplyPredicates(predicates: seq<XpathPredicate>)
      modifies this
      ensures xpath == ApplyAll(old(xpath), predicates)
    {
      var i := 0;
      while i < |predicates|
        invariant 0 <= i <= |predicates|
        invariant xpath == ApplyAll(old(xpath), predicates[..i])
      {
        assert predicates[..i + 1][..i] == predicates[..i];
        xpath := predicates[i](xpath);
        i := i + 1;
      }
      assert predicates[..i] == predicates;
    }
  }
}
