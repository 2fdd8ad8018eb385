/**
 * `AbstractTrackerHandler`: the control flow every tracker handler shares. The browser is
 * not part of this model: what loading a URL leads to is a parameter, and so are the texts
 * of the elements a selector finds. The model decides which URL the tracker is opened on,
 * which elements are redacted and how many, and which selector marks a finished logout.
 */
module TrackerHandling {
  import opened Wrappers
  import opened Text
  import opened TextSearcher
  import opened Xpath

  // ---------------------------------------------------------------------------
  // Opening the tracker
  // ---------------------------------------------------------------------------

  /** What navigating to one URL leads to: a page with its body text, or a `WebDriverException` with its message. */
  datatype Visit =
    | Loaded(bodyText: string)
    | NavigationFailed(message: Option<string>)

  /** How `openTracker` ends: on the URL at `index`, with `IllegalStateException`, or by rethrowing the exception. */
  datatype Connection =
    | Connected(index: nat)
    | Unavailable
    | Rethrown(message: Option<string>)

  /** The page is Cloudflare's error 523 (origin is unreachable). */
  predicate IsError523(bodyText: string) {
    Contains(bodyText, "HTTP ERROR 523") || Contains(bodyText, "Error code 523")
  }

  /** The exception says the host name could not be resolved. */
  predicate IsNameNotResolved(message: Option<string>) {
    message.Some? && Contains(message.value, "ERR_NAME_NOT_RESOLVED")
  }

  /** The URL is given up on and the next one tried. */
  predicate Skipped(v: Visit) {
    match v
    case Loaded(bodyText) => IsError523(bodyText)
    case NavigationFailed(message) => IsNameNotResolved(message)
  }

  /** The outcome of trying the URLs from `i` on, one at a time. */
  function FirstReachable(urls: seq<string>, visit: string -> Visit, i: nat): Connection
    requires i <= |urls|
    decreases |urls| - i
  {
    if i == |urls| then Unavailable
    else
      match visit(urls[i])
      case Loaded(bodyText) =>
        if IsError523(bodyText) then FirstReachable(urls, visit, i + 1) else Connected(i)
      case NavigationFailed(message) =>
        if IsNameNotResolved(message) then FirstReachable(urls, visit, i + 1) else Rethrown(message)
  }

  /** What stopping at a URL that is not skipped leads to. */
  function Stop(i: nat, v: Visit): Connection {
    if v.Loaded? then Connected(i) else Rethrown(v.message)
  }

  /**
   * The tracker is unavailable exactly when every URL is skipped (in particular when there
   * are none); otherwise the first URL that is not skipped decides the outcome.
   */
  lemma {:induction false} FirstReachableCharacterised(urls: seq<string>, visit: string -> Visit, i: nat)
    requires i <= |urls|
    ensures FirstReachable(urls, visit, i) == Unavailable <==> forall j :: i <= j < |urls| ==> Skipped(visit(urls[j]))
    ensures FirstReachable(urls, visit, i) != Unavailable ==>
      exists k :: i <= k < |urls| && !Skipped(visit(urls[k])) && (forall j :: i <= j < k ==> Skipped(visit(urls[j])))
                  && FirstReachable(urls, visit, i) == Stop(k, visit(urls[k]))
    decreases |urls| - i
  {
    if i < |urls| {
      FirstReachableCharacterised(urls, visit, i + 1);
      if Skipped(visit(urls[i])) {
        if FirstReachable(urls, visit, i + 1) != Unavailable {
          var k :| i + 1 <= k < |urls| && !Skipped(visit(urls[k])) && (forall j :: i + 1 <= j < k ==> Skipped(visit(urls[j])))
                   && FirstReachable(urls, visit, i + 1) == Stop(k, visit(urls[k]));
          assert forall j :: i <= j < k ==> Skipped(visit(urls[j]));
        }
      } else {
        assert FirstReachable(urls, visit, i) == Stop(i, visit(urls[i]));
      }
    }
  }

  /** The tracker is opened on a URL only when its page is not the error 523 page. */
  lemma ConnectedPageIsReachable(urls: seq<string>, visit: string -> Visit)
    requires FirstReachable(urls, visit, 0).Connected?
    ensures var k := FirstReachable(urls, visit, 0).index;
            k < |urls| && visit(urls[k]).Loaded? && !IsError523(visit(urls[k]).bodyText)
  {
    FirstReachableCharacterised(urls, visit, 0);
  }

  /**
   * The warning for an unresolved name prints `split("\n")[0]` of the message; the message
   * holds a character other than a line feed, so the split has a first piece, its first line.
   */
  lemma NameNotResolvedSplits(message: string)
    requires Contains(message, "ERR_NAME_NOT_RESOLVED")
    ensures JavaSplit(message, '\n') != [] && JavaSplit(message, '\n')[0] == FirstLine(message)
  {
    var i :| 0 <= i <= |message| && OccursAt(message, "ERR_NAME_NOT_RESOLVED", i);
    assert message[i] == message[i..i + 21][0] == 'E';
    JavaSplitEmpty(message, '\n');
    JavaSplitFirstLine(message);
  }

  /**
   * `openTracker`: the URLs are tried in order. An error 523 page or an unresolved name moves
   * on to the next URL; any other page ends the loop connected, any other exception is
   * rethrown, and running out of URLs (none at all included) throws `IllegalStateException`.
   */
  method OpenTracker(urls: seq<string>, visit: string -> Visit) returns (r: Connection)
    ensures r == FirstReachable(urls, visit, 0)
    ensures urls == [] ==> r == Unavailable
  {
    var unableToConnect := true;
    r := Unavailable;
    var i := 0;
    while i < |urls|
      invariant 0 <= i <= |urls|
      invariant unableToConnect
      invariant FirstReachable(urls, visit, 0) == FirstReachable(urls, visit, i)
    {
      var v := visit(urls[i]);
      if v.Loaded? {
        if IsError523(v.bodyText) {
          i := i + 1;
          continue;
        }
        unableToConnect := false;
        r := Connected(i);
        break;
      } else if IsNameNotResolved(v.message) {
        NameNotResolvedSplits(v.message.value);
        var errorMessage := JavaSplit(v.message.value, '\n')[0];
        i := i + 1;
      } else {
        return Rethrown(v.message);
      }
    }
    if unableToConnect {
      return Unavailable;
    }
  }

  // ---------------------------------------------------------------------------
  // Redaction
  // ---------------------------------------------------------------------------

  /** A handler names no element that may hold sensitive information unless it says otherwise. */
  const DefaultSensitiveSelectors: seq<By> := []

  /** `hasElementsNeedingRedaction`: some selector names elements that may hold sensitive information. */
  predicate HasElementsNeedingRedaction(selectors: seq<By>) {
    selectors != []
  }

  /** The texts of the elements every selector finds, selector by selector, in document order. */
  function ElementTexts(selectors: seq<By>, elementsOf: By -> seq<string>): seq<string> {
    if selectors == [] then []
    else ElementTexts(selectors[..|selectors| - 1], elementsOf) + elementsOf(selectors[|selectors| - 1])
  }

  /** The texts that pass the filter, in order. */
  function Filter(texts: seq<string>, keep: string -> bool): (r: seq<string>)
    ensures |r| <= |texts|
    ensures forall t :: t in r <==> t in texts && keep(t)
  {
    if texts == [] then []
    else
      var rest := Filter(texts[1..], keep);
      assert forall t :: t in texts <==> t == texts[0] || t in texts[1..];
      if keep(texts[0]) then [texts[0]] + rest else rest
  }

  /** A call to the redactor on one element. */
  datatype RedactionCall = RedactEmail(text: string) | RedactIpAddress(text: string)

  /** What `redactElements` does: the redactor calls it makes, in order, and the number it returns. */
  datatype Redaction = Redaction(calls: seq<RedactionCall>, count: nat)

  function EmailCalls(texts: seq<string>): (r: seq<RedactionCall>)
    ensures |r| == |texts| && forall k :: 0 <= k < |r| ==> r[k] == RedactEmail(texts[k])
  {
    if texts == [] then [] else [RedactEmail(texts[0])] + EmailCalls(texts[1..])
  }

  function IpAddressCalls(texts: seq<string>): (r: seq<RedactionCall>)
    ensures |r| == |texts| && forall k :: 0 <= k < |r| ==> r[k] == RedactIpAddress(texts[k])
  {
    if texts == [] then [] else [RedactIpAddress(texts[0])] + IpAddressCalls(texts[1..])
  }

  /**
   * `redactElements`: no selectors means nothing to do. Otherwise every element holding an
   * email address has it redacted, then every element holding an IP address, and the number
   * of redactions is returned; an element holding both is redacted, and counted, twice.
   */
  function RedactElements(selectors: seq<By>, elementsOf: By -> seq<string>): (r: Redaction)
    ensures !HasElementsNeedingRedaction(selectors) ==> r == Redaction([], 0)
    ensures r.count == |r.calls|
    ensures forall k :: 0 <= k < |r.calls| ==>
      (if r.calls[k].RedactEmail? then ContainsEmailAddress(r.calls[k].text) else ContainsIpAddress(r.calls[k].text))
    ensures forall k, m :: 0 <= k < m < |r.calls| && r.calls[k].RedactIpAddress? ==> r.calls[m].RedactIpAddress?
    ensures forall c: RedactionCall :: c in r.calls ==> c.text in ElementTexts(selectors, elementsOf)
    ensures forall t :: t in ElementTexts(selectors, elementsOf) ==>
      (RedactEmail(t) in r.calls <==> ContainsEmailAddress(t)) && (RedactIpAddress(t) in r.calls <==> ContainsIpAddress(t))
  {
    if selectors == [] then
      Redaction([], 0)
    else
      var texts := ElementTexts(selectors, elementsOf);
      var emailElements := Filter(texts, ContainsEmailAddress);
      var ipElements := Filter(texts, ContainsIpAddress);
      if emailElements == [] && ipElements == [] then
        Redaction([], 0)
      else
        Redaction(Calls(emailElements, ipElements), |emailElements| + |ipElements|)
  }

  /**
   * The email redactions, then the IP address redactions: each call is on an element holding
   * its kind of address, and no email redaction follows an IP address redaction.
   */
  function Calls(emailElements: seq<string>, ipElements: seq<string>): (calls: seq<RedactionCall>)
    requires forall t :: t in emailElements ==> ContainsEmailAddress(t)
    requires forall t :: t in ipElements ==> ContainsIpAddress(t)
    ensures |calls| == |emailElements| + |ipElements|
    ensures forall k :: 0 <= k < |calls| ==>
      (if calls[k].RedactEmail? then ContainsEmailAddress(calls[k].text) else ContainsIpAddress(calls[k].text))
    ensures forall k, m :: 0 <= k < m < |calls| && calls[k].RedactIpAddress? ==> calls[m].RedactIpAddress?
    ensures forall c: RedactionCall :: c in calls <==> (c.RedactEmail? && c.text in emailElements) || (c.RedactIpAddress? && c.text in ipElements)
  {
    var emails, ips := EmailCalls(emailElements), IpAddressCalls(ipElements);
    var n := |emails|;
    forall k | 0 <= k < n ensures (emails + ips)[k] == RedactEmail(emailElements[k]) && emailElements[k] in emailElements { }
    forall k | n <= k < n + |ips| ensures (emails + ips)[k] == RedactIpAddress(ipElements[k - n]) && ipElements[k - n] in ipElements { }
    forall c: RedactionCall | (c.RedactEmail? && c.text in emailElements) || (c.RedactIpAddress? && c.text in ipElements)
      ensures c in emails + ips
    {
      if c.RedactEmail? && c.text in emailElements {
        var k :| 0 <= k < |emailElements| && emailElements[k] == c.text;
        assert (emails + ips)[k] == c;
      } else {
        var k :| 0 <= k < |ipElements| && ipElements[k] == c.text;
        assert (emails + ips)[n + k] == c;
      }
    }
    emails + ips
  }

  /** The redactions one element calls for: one for an email address, one for an IP address. */
  function Marks(text: string): nat {
    (if ContainsEmailAddress(text) then 1 else 0) + (if ContainsIpAddress(text) then 1 else 0)
  }

  /** The redactions a run of elements calls for, element by element. */
  function TotalMarks(texts: seq<string>): nat {
    if texts == [] then 0 else Marks(texts[0]) + TotalMarks(texts[1..])
  }

  /** The two filters together keep as many elements as the elements' marks add up to. */
  lemma {:induction false} FiltersCountMarks(texts: seq<string>)
    ensures |Filter(texts, ContainsEmailAddress)| + |Filter(texts, ContainsIpAddress)| == TotalMarks(texts)
  {
    if texts != [] {
      FiltersCountMarks(texts[1..]);
    }
  }

  /** No marks at all means no element holds either kind of address. */
  lemma {:induction false} NoMarks(texts: seq<string>)
    ensures TotalMarks(texts) == 0 <==> forall k :: 0 <= k < |texts| ==> !ContainsEmailAddress(texts[k]) && !ContainsIpAddress(texts[k])
  {
    if texts != [] {
      NoMarks(texts[1..]);
      assert forall k :: 1 <= k < |texts| ==> texts[k] == texts[1..][k - 1];
    }
  }

  /**
   * The number `redactElements` returns is the number of addresses of either kind over all
   * the elements found, counting an element once per kind of address it holds; it is zero
   * without selectors.
   */
  lemma RedactedCount(selectors: seq<By>, elementsOf: By -> seq<string>)
    ensures RedactElements(selectors, elementsOf).count
            == (if selectors == [] then 0 else TotalMarks(ElementTexts(selectors, elementsOf)))
  {
    if selectors != [] {
      var texts := ElementTexts(selectors, elementsOf);
      FiltersCountMarks(texts);
    }
  }

  /** An element that holds an email address and an IP address, found by the only selector, is redacted twice. */
  lemma BothKindsCountTwice(selector: By, elementsOf: By -> seq<string>, text: string)
    requires elementsOf(selector) == [text]
    requires ContainsEmailAddress(text) && ContainsIpAddress(text)
    ensures RedactElements([selector], elementsOf) == Redaction([RedactEmail(text), RedactIpAddress(text)], 2)
  {
    assert [selector][..0] == [];
    assert ElementTexts([selector], elementsOf) == [text];
  }

  /** A handler that keeps the default selectors needs no redaction and redacts nothing. */
  lemma DefaultRedactsNothing(elementsOf: By -> seq<string>)
    ensures !HasElementsNeedingRedaction(DefaultSensitiveSelectors)
    ensures RedactElements(DefaultSensitiveSelectors, elementsOf).count == 0
  {
  }

  // ---------------------------------------------------------------------------
  // Logging out
  // ---------------------------------------------------------------------------

  /**
   * `postLogoutElementSelector`: after logging out the handler expects the login page, marked
   * by its username field, unless the tracker first needs a link followed to reach the login
   * page; then it expects the home page, marked by that link.
   */
  function PostLogoutElementSelector(loginPageSelector: Option<By>, usernameFieldSelector: By): (r: By)
    ensures loginPageSelector.None? ==> r == usernameFieldSelector
    ensures loginPageSelector.Some? ==> r == loginPageSelector.value
  {
    if loginPageSelector.None? then usernameFieldSelector else loginPageSelector.value
  }
}
