# Tracker profile screenshots — a Dafny model

The system logs into the profile pages of private torrent trackers, hides sensitive text
(email addresses, IP addresses, passkeys) on the page, and saves a screenshot of each
profile. A Java application drives a Chrome browser through Selenium, and a small Python
service can launch the browser for it. This project models the parts of that system that
decide things, as opposed to the parts that drive the browser:

- **XPath selector builder.** `XpathStep` (a class over the expression buffer),
  the predicate factory `XpathAttributePredicate`, the entry point `XpathBuilder`, and the
  element names `HtmlElement` and `NamedHtmlElement`. The model also reads the
  predicates against the Literal syntax of XPath 1.0 (section 3.7 of XML Path Language
  (XPath) Version 1.0).
- **Text utilities.**
  - `TimingUtils.toNaturalTime` and `StringUtils.pluralise`.
  - The four `TextSearcher` patterns: email, IPv4, masked IPv4, and the full IPv6 form of
    section 2.2 of RFC 4291.
  - The texts `TextRedactor` writes: the placeholder, the escaping for a single-quoted
    JavaScript string (section 12.8.4 of ECMAScript 2015), and `replaceAll` of the
    address patterns.
- **Configuration.**
  - `ApplicationConfiguration`'s environment readers, with the environment as a map.
  - `RedactionType.get`.
  - The header and file checks of `TrackerCsvReader`.
- **Run bookkeeping.**
  - `ResultCollector`: a class with two maps that `addResult` updates in place.
  - The decisions, the handler call sequence and the exception handling of
    `ProfileScreenshotExecutor`.
  - The grouping loops of `TrackerRetriever` and `ProfileScreenshotter`, and the exit
    state of a run.
- **Handler control flow.** `AbstractTrackerHandler`'s URL fallback in `openTracker`,
  the redaction count of `redactElements`, and the post-logout selector.
- **Browser options.** The arguments and preferences built by
  `JavaWebDriverFactory.createDriver` and by the Python `create_chrome_options`. The model
  proves how the two translation whitelists relate.

Each source file is one module. Code that builds results by mutation or loops is a
`method` proved against a specification function. Examples include `XpathStep`'s buffer,
`ResultCollector`'s maps, the execution-order loop, the URL loop and the whitelist loops.
The specification functions carry the lemmas. Java library behaviour the code depends on
is in module `Text`:

- `String.split` with a single-character separator drops trailing empty pieces.
- `String.trim`, `equalsIgnoreCase`, `Integer.parseInt` and `%0Nd` are modelled as
  written, with ASCII case mapping.

## Model

Source paths are relative to the repository root.

| member | source | states |
|---|---|---|
| Xpath.XpathStep.constructor | tracker-profiles-screenshots/src/main/java/net/zodac/tracker/framework/xpath/XpathStep.java:42-46 | A new step holds the empty expression. |
| Xpath.XpathStep.From | tracker-profiles-screenshots/src/main/java/net/zodac/tracker/framework/xpath/XpathStep.java:62-66 | The buffer becomes the old buffer plus `//tag`, then edited by each predicate in argument order; the same step is returned. |
| Xpath.XpathStep.Child | tracker-profiles-screenshots/src/main/java/net/zodac/tracker/framework/xpath/XpathStep.java:82-86 | As `From`, with `/tag`. |
| Xpath.XpathStep.Descendant | tracker-profiles-screenshots/src/main/java/net/zodac/tracker/framework/xpath/XpathStep.java:102-106 | As `From`, with `//tag`. |
| Xpath.XpathStep.Parent | tracker-profiles-screenshots/src/main/java/net/zodac/tracker/framework/xpath/XpathStep.java:121-126 | Appends exactly `/ancestor::tag[1]` and takes no predicates. |
| Xpath.XpathStep.Build | tracker-profiles-screenshots/src/main/java/net/zodac/tracker/framework/xpath/XpathStep.java:133-135 | An XPath locator whose text is `By.xpath: ` followed by the buffer, unchanged. |
| Xpath.XpathStep.ApplyPredicates | tracker-profiles-screenshots/src/main/java/net/zodac/tracker/framework/xpath/XpathStep.java:142-146 | The loop applies every predicate to the buffer, in order. |
| Xpath.ApplyAllAppends | tracker-profiles-screenshots/src/main/java/net/zodac/tracker/framework/xpath/XpathStep.java:142-146 | When every predicate only appends, applying them keeps the old expression as a prefix and appends their clauses in order. |
| XpathPredicates.AtIndexClause | tracker-profiles-screenshots/src/main/java/net/zodac/tracker/framework/xpath/XpathAttributePredicate.java:44-46 | `atIndex(i)` appends `[`, the decimal of `i`, `]`. |
| XpathPredicates.AtIndexAppends | tracker-profiles-screenshots/src/main/java/net/zodac/tracker/framework/xpath/XpathAttributePredicate.java:44-46 | The index predicate only appends to what is already written. |
| XpathPredicates.AtIndexFragment | tracker-profiles-screenshots/src/main/java/net/zodac/tracker/framework/xpath/XpathAttributePredicate.java:44-46 | The clause is a bracketed canonical decimal that reads back as the index, with a minus sign for a negative index. |
| XpathPredicates.AtFirstIndex | tracker-profiles-screenshots/src/main/java/net/zodac/tracker/framework/xpath/XpathAttributePredicate.java:61-63 | `atFirstIndex()` appends `[1]`. |
| XpathPredicates.AttributeFunctionsAppend | tracker-profiles-screenshots/src/main/java/net/zodac/tracker/framework/xpath/XpathAttributePredicate.java:97-145 | `containsAttributeFunction` and `withAttributeFunction` only append. |
| XpathPredicates.AttributeFunctionsDetermineValue | tracker-profiles-screenshots/src/main/java/net/zodac/tracker/framework/xpath/XpathAttributePredicate.java:97-145 | For one attribute function, equal clauses mean equal values: the escaping loses nothing. |
| XpathPredicates.ContainsAttribute | tracker-profiles-screenshots/src/main/java/net/zodac/tracker/framework/xpath/XpathAttributePredicate.java:79-81 | Appends `[contains(@name, 'value')]`, with the value escaped. |
| XpathPredicates.WithAttribute | tracker-profiles-screenshots/src/main/java/net/zodac/tracker/framework/xpath/XpathAttributePredicate.java:120-122 | Appends `[@name='value']`, with the value escaped. |
| XpathPredicates.WithClass | tracker-profiles-screenshots/src/main/java/net/zodac/tracker/framework/xpath/XpathAttributePredicate.java:160-162 | The `contains` form on `@class`. |
| XpathPredicates.WithId | tracker-profiles-screenshots/src/main/java/net/zodac/tracker/framework/xpath/XpathAttributePredicate.java:177-179 | The equality form on `@id`. |
| XpathPredicates.WithName | tracker-profiles-screenshots/src/main/java/net/zodac/tracker/framework/xpath/XpathAttributePredicate.java:194-196 | The equality form on `@name`. |
| XpathPredicates.WithText | tracker-profiles-screenshots/src/main/java/net/zodac/tracker/framework/xpath/XpathAttributePredicate.java:211-213 | The `contains` form on `normalize-space()`. |
| XpathPredicates.WithType | tracker-profiles-screenshots/src/main/java/net/zodac/tracker/framework/xpath/XpathAttributePredicate.java:228-230 | The equality form on `@type`. |
| XpathPredicates.EscapeXpath | tracker-profiles-screenshots/src/main/java/net/zodac/tracker/framework/xpath/XpathAttributePredicate.java:232-234 | `escapeXpath`. Characterised by `EscapeXpathShape`, `EscapeXpathRoundTrip`, `EscapeXpathInjective` and `EscapeXpathNoQuote`. |
| XpathPredicates.EscapeXpathShape | tracker-profiles-screenshots/src/main/java/net/zodac/tracker/framework/xpath/XpathAttributePredicate.java:232-234 | The escaped value is one character longer per quote, and every quote in it follows a backslash. |
| XpathPredicates.EscapeXpathRoundTrip | tracker-profiles-screenshots/src/main/java/net/zodac/tracker/framework/xpath/XpathAttributePredicate.java:232-234 | Un-escaping (`\'` becomes `'`) gives the value back. |
| XpathPredicates.EscapeXpathInjective | tracker-profiles-screenshots/src/main/java/net/zodac/tracker/framework/xpath/XpathAttributePredicate.java:232-234 | Distinct values escape differently. |
| XpathPredicates.EscapeXpathNoQuote | tracker-profiles-screenshots/src/main/java/net/zodac/tracker/framework/xpath/XpathAttributePredicate.java:232-234 | A value without quotes is left unchanged. |
| XpathPredicates.QuotedEscapeIsNotLiteral | tracker-profiles-screenshots/src/main/java/net/zodac/tracker/framework/xpath/XpathAttributePredicate.java:232-234 | When the value holds a quote, the quoted escaped value is not an XPath 1.0 Literal. |
| XpathPredicates.QuotedEscapeExample | tracker-profiles-screenshots/src/main/java/net/zodac/tracker/framework/xpath/XpathAttributePredicate.java:232-234 | `it's` is written `'it\'s'`, which is not a Literal. |
| XpathPredicates.QuotedPieces | tracker-profiles-screenshots/src/main/java/net/zodac/tracker/framework/xpath/XpathAttributePredicate.java:232-234 | Quote-free pieces become Literal tokens whose values, joined with `'`, give the original text. |
| XpathPredicates.XpathLiteralTokens | tracker-profiles-screenshots/src/main/java/net/zodac/tracker/framework/xpath/XpathAttributePredicate.java:232-234 | Any value splits into one or more valid Literal tokens whose values concatenate to the value. |
| XpathPredicates.XpathStringExpression | tracker-profiles-screenshots/src/main/java/net/zodac/tracker/framework/xpath/XpathAttributePredicate.java:232-234 | The corrected quoting, for every value, is an XPath 1.0 expression that denotes the value: one Literal, or a `concat` of Literals whose values make up the value. For a value without single quotes it is exactly what the code writes now. |
| XpathPredicates.DoubleQuotedExpression | tracker-profiles-screenshots/src/main/java/net/zodac/tracker/framework/xpath/XpathAttributePredicate.java:232-234 | A value with a single quote but no double quote is written as one double-quoted Literal. |
| XpathPredicates.SingleQuoteExpression | tracker-profiles-screenshots/src/main/java/net/zodac/tracker/framework/xpath/XpathAttributePredicate.java:232-234 | The value `it's` is written `"it's"`. |
| XpathPredicates.TwoPiecesTokens | tracker-profiles-screenshots/src/main/java/net/zodac/tracker/framework/xpath/XpathAttributePredicate.java:232-234 | A value `a'b` holding a double quote splits into the tokens `'a'`, `"'"`, `'b'`. |
| XpathPredicates.TwoPiecesExpression | tracker-profiles-screenshots/src/main/java/net/zodac/tracker/framework/xpath/XpathAttributePredicate.java:232-234 | Such a value is written `concat('a', "'", 'b')`. |
| XpathBuilder.From | tracker-profiles-screenshots/src/main/java/net/zodac/tracker/framework/xpath/XpathBuilder.java:110-112 | A fresh step holding `//tag` followed by the predicates' edits. |
| XpathBuilder.SimpleLookup | tracker-profiles-screenshots/src/main/java/net/zodac/tracker/framework/xpath/XpathBuilder.java:34-41 | Example 1 builds `//div`. |
| XpathBuilder.ChildWithPredicates | tracker-profiles-screenshots/src/main/java/net/zodac/tracker/framework/xpath/XpathBuilder.java:46-54 | Example 2, for any class and title, builds `//form/input[contains(@class, '…')][@title='…']` with both values escaped. |
| XpathBuilder.DocumentedChild | tracker-profiles-screenshots/src/main/java/net/zodac/tracker/framework/xpath/XpathBuilder.java:46-54 | Example 2 with its own values builds the documented expression. |
| XpathBuilder.FirstTableUnderRoot | tracker-profiles-screenshots/src/main/java/net/zodac/tracker/framework/xpath/XpathBuilder.java:59-70 | The code of example 3 begins `//root//table[1]`, but the documented result has no `[1]`. |
| XpathBuilder.FirstTable | tracker-profiles-screenshots/src/main/java/net/zodac/tracker/framework/xpath/XpathBuilder.java:62 | After any prefix, `table` with `atFirstIndex()` appends `//table[1]`. |
| XpathBuilder.Root | tracker-profiles-screenshots/src/test/java/net/zodac/tracker/framework/xpath/XpathBuilderTest.java:123 | `NamedHtmlElement.of("root")` is accepted and has the tag name `root`. |
| XpathBuilder.RootChild | tracker-profiles-screenshots/src/test/java/net/zodac/tracker/framework/xpath/XpathBuilderTest.java:116-127 | A child of `root` gives `//root/tag` for every common element. |
| XpathBuilder.ParentLookup | tracker-profiles-screenshots/src/test/java/net/zodac/tracker/framework/xpath/XpathBuilderTest.java:144-152 | Any element followed by `parent(e)` gives `//tag/ancestor::e[1]`. The tested case is `input` with `div`. |
| XpathBuilder.IndexedLookup | tracker-profiles-screenshots/src/test/java/net/zodac/tracker/framework/xpath/XpathBuilderTest.java:257-266 | An element with `atIndex(i)` gives `//tag[i]`, for every index. |
| XpathBuilder.BuildText | tracker-profiles-screenshots/src/test/java/net/zodac/tracker/framework/xpath/XpathBuilderTest.java:52-58 | The locator text of `//div` with `withId` is `By.xpath: //div[@id='…']`. |
| Elements.HtmlTagNameIsName | tracker-profiles-screenshots/src/main/java/net/zodac/tracker/framework/xpath/HtmlElement.java:112-114 | Every constant's tag name is its own (already lower-case) name and is non-empty. |
| Elements.HtmlTagNameInjective | tracker-profiles-screenshots/src/main/java/net/zodac/tracker/framework/xpath/HtmlElement.java:44-109 | No two constants share a tag name. |
| Elements.AllHtmlElementsComplete | tracker-profiles-screenshots/src/main/java/net/zodac/tracker/framework/xpath/HtmlElement.java:44-109 | There are exactly 14 constants, and the list names each of them. |
| Elements.Of | tracker-profiles-screenshots/src/main/java/net/zodac/tracker/framework/xpath/NamedHtmlElement.java:47-53 | Fails exactly when the name is blank; otherwise it stores the name unchanged. |
| Elements.Any | tracker-profiles-screenshots/src/main/java/net/zodac/tracker/framework/xpath/NamedHtmlElement.java:60-62 | The wildcard element's tag name is `*`. |
| Elements.NamedTagNameNormalised | tracker-profiles-screenshots/src/main/java/net/zodac/tracker/framework/xpath/NamedHtmlElement.java:65-67 | The tag name has no upper-case letter and is not blank. Building an element from a tag name gives the same tag name back. |
| Timing.ToNaturalTime | tracker-profiles-screenshots/src/main/java/net/zodac/tracker/util/TimingUtils.java:48-70 | `toNaturalTime` renders the millisecond breakdown. Characterised by `Breakdown`, `RenderedFieldsReadBack`, `SameMillisecondSameText`, `NegativeElapsedPrintsMillis` and the four tested values. |
| Timing.Render | tracker-profiles-screenshots/src/main/java/net/zodac/tracker/util/TimingUtils.java:51-69 | The four formats. Their fields read back by `RenderedFieldsReadBack`. |
| Timing.Breakdown | tracker-profiles-screenshots/src/main/java/net/zodac/tracker/util/TimingUtils.java:48-70 | The format is chosen by magnitude: below 1 s, below 1 min, below 1 h, or above. The fields recompose the total (whole seconds in the hour format), and every lower field stays within its unit. |
| Timing.JavaDiv | tracker-profiles-screenshots/src/main/java/net/zodac/tracker/util/TimingUtils.java:49 | Division truncates toward zero, for both signs. |
| Timing.RenderedFieldsReadBack | tracker-profiles-screenshots/src/main/java/net/zodac/tracker/util/TimingUtils.java:58-70 | Each padded field has its fixed width (three digits for milliseconds, two otherwise) and reads back as its value. |
| Timing.SameMillisecondSameText | tracker-profiles-screenshots/src/main/java/net/zodac/tracker/util/TimingUtils.java:49 | Nanosecond counts within the same millisecond print the same text. |
| Timing.NegativeElapsedPrintsMillis | tracker-profiles-screenshots/src/main/java/net/zodac/tracker/util/TimingUtils.java:51-53 | A negative duration of at least 1 ms prints as `-…ms`. |
| Timing.TestedMillis | tracker-profiles-screenshots/src/test/java/net/zodac/tracker/util/TimingUtilsTest.java:36 | 999 ms prints `999ms`. |
| Timing.TestedSeconds | tracker-profiles-screenshots/src/test/java/net/zodac/tracker/util/TimingUtilsTest.java:40 | 1037 ms prints `1s:037ms`. |
| Timing.TestedMinutes | tracker-profiles-screenshots/src/test/java/net/zodac/tracker/util/TimingUtilsTest.java:46 | 61015 ms prints `1m:01s:015ms`. |
| Timing.TestedHours | tracker-profiles-screenshots/src/test/java/net/zodac/tracker/util/TimingUtilsTest.java:51 | 3661000 ms prints `1h:01m:01s`. |
| StringUtils.Pluralise | tracker-profiles-screenshots/src/main/java/net/zodac/tracker/util/StringUtils.java:37-39 | No suffix exactly for a count of one; `s` for every other count, including zero and negatives. |
| StringUtils.PluraliseCollection | tracker-profiles-screenshots/src/main/java/net/zodac/tracker/util/StringUtils.java:49-51 | The suffix for the collection's size. |
| StringUtils.PluraliseCollectionExamples | tracker-profiles-screenshots/src/test/java/net/zodac/tracker/util/StringUtilsTest.java:60-68 | Empty and two-element collections take `s`; a singleton takes nothing. |
| TextSearcher.ContainsEmailAddress | tracker-profiles-screenshots/src/main/java/net/zodac/tracker/util/TextSearcher.java:57-59 | `containsEmailAddress`: some substring matches `EMAIL`. Characterised by `NoAtNoEmail`, `EmailExample`, `AtAndLastDot` and `EmailSplitUnique`. |
| TextSearcher.ContainsIpAddress | tracker-profiles-screenshots/src/main/java/net/zodac/tracker/util/TextSearcher.java:68-72 | `containsIpAddress`: some substring matches one of the three address patterns. Characterised by `DottedQuadIsIpv4`, `Ipv4IsDottedQuad`, `MaskedOfOctets`, `Ipv6IsEightGroups` and `UnanchoredSearch`. |
| TextSearcher.OctetIsByte | tracker-profiles-screenshots/src/main/java/net/zodac/tracker/util/TextSearcher.java:35 | The octet alternatives match exactly the canonical decimals of 0 to 255. |
| TextSearcher.DottedQuadIsIpv4 | tracker-profiles-screenshots/src/main/java/net/zodac/tracker/util/TextSearcher.java:35 | Every dotted quad of numbers up to 255 is matched by `IPV4`. |
| TextSearcher.Ipv4IsDottedQuad | tracker-profiles-screenshots/src/main/java/net/zodac/tracker/util/TextSearcher.java:35 | Everything `IPV4` matches is such a dotted quad. |
| TextSearcher.OutOfRangeIsNoAddress | tracker-profiles-screenshots/src/main/java/net/zodac/tracker/util/TextSearcher.java:35 | `999.1.1.1` is not matched in full. |
| TextSearcher.UnanchoredSearch | tracker-profiles-screenshots/src/main/java/net/zodac/tracker/util/TextSearcher.java:68-72 | `find` still reports an IP address in `999.1.1.1`, because the pattern is not anchored. |
| TextSearcher.Ipv4OfOctets | tracker-profiles-screenshots/src/main/java/net/zodac/tracker/util/TextSearcher.java:35 | Four octets joined by dots are matched. |
| TextSearcher.MaskedOfOctets | tracker-profiles-screenshots/src/main/java/net/zodac/tracker/util/TextSearcher.java:40 | Two octets followed by `.x.x` are matched by `IPV4_MASKED`. |
| TextSearcher.MaskedExample | tracker-profiles-screenshots/src/main/java/net/zodac/tracker/util/TextSearcher.java:40 | `192.168.x.x` is matched. |
| TextSearcher.Ipv6IsEightGroups | tracker-profiles-screenshots/src/main/java/net/zodac/tracker/util/TextSearcher.java:45 | Eight hex groups joined by colons are matched. A match is such a join, with exactly seven colons. |
| TextSearcher.AtAndLastDot | tracker-profiles-screenshots/src/main/java/net/zodac/tracker/util/TextSearcher.java:30 | In an address the `@` is the only one, and the dot before the top-level domain is the last dot. |
| TextSearcher.EmailSplitUnique | tracker-profiles-screenshots/src/main/java/net/zodac/tracker/util/TextSearcher.java:30 | An address splits into local part, domain and top-level domain in one way only. |
| TextSearcher.NoAtNoEmail | tracker-profiles-screenshots/src/main/java/net/zodac/tracker/util/TextSearcher.java:57-59 | Text without `@` contains no email address. |
| TextSearcher.EmailExample | tracker-profiles-screenshots/src/main/java/net/zodac/tracker/util/TextSearcher.java:57-59 | `user@example.com` contains an address. |
| TextSearcher.AddressHasNoDash | tracker-profiles-screenshots/src/main/java/net/zodac/tracker/util/TextSearcher.java:35-45 | No IPv4, masked or IPv6 match contains `-`. |
| TextSearcher.NoEmptyMatch | tracker-profiles-screenshots/src/main/java/net/zodac/tracker/util/TextSearcher.java:30-45 | No pattern matches the empty text. |
| TextRedactor.PasskeyText | tracker-profiles-screenshots/src/main/java/net/zodac/tracker/redaction/TextRedactor.java:52-59 | The placeholder `----`, after the prefix when one is given. |
| TextRedactor.EscapeForJavaScriptString | tracker-profiles-screenshots/src/main/java/net/zodac/tracker/redaction/TextRedactor.java:99-108 | The result holds no carriage return and no line feed. |
| TextRedactor.EscapeIsPerCharacter | tracker-profiles-screenshots/src/main/java/net/zodac/tracker/redaction/TextRedactor.java:100-105 | The five chained replacements equal escaping each character on its own. Doubling backslashes first keeps later escapes from being escaped again. |
| TextRedactor.EscapeAppend | tracker-profiles-screenshots/src/main/java/net/zodac/tracker/redaction/TextRedactor.java:100-105 | Escaping distributes over concatenation. |
| TextRedactor.EscapeRoundTrip | tracker-profiles-screenshots/src/main/java/net/zodac/tracker/redaction/TextRedactor.java:99-108 | The escaped text is a valid single-quoted JavaScript string body that reads back as the input without its carriage returns. |
| TextRedactor.RetrieveOuterHtml | tracker-profiles-screenshots/src/main/java/net/zodac/tracker/redaction/TextRedactor.java:76-83 | A missing `outerHTML` gives empty text; otherwise the result reads back as the HTML without carriage returns. |
| TextRedactor.FirstMatch | tracker-profiles-screenshots/src/main/java/net/zodac/tracker/redaction/TextRedactor.java:89-97 | The next replaced match starts at the leftmost position with a match and is the longest match there. |
| TextRedactor.LongestMatchEnd | tracker-profiles-screenshots/src/main/java/net/zodac/tracker/redaction/TextRedactor.java:89-97 | The end of the longest match from a position, or none when nothing matches from there. |
| TextRedactor.ReplaceEmail | tracker-profiles-screenshots/src/main/java/net/zodac/tracker/redaction/TextRedactor.java:89-91 | `replaceEmail`. Unchanged without `@` (`ReplaceEmailWithoutAt`); matches are chosen as `FirstMatch` states. |
| TextRedactor.ReplaceAllUnchanged | tracker-profiles-screenshots/src/main/java/net/zodac/tracker/redaction/TextRedactor.java:89-97 | Text with no match is left unchanged. |
| TextRedactor.ReplaceIpAddresses | tracker-profiles-screenshots/src/main/java/net/zodac/tracker/redaction/TextRedactor.java:93-97 | `replaceIpAddresses`: afterwards no IP address is found (`RedactedTextHasNoIpAddress`). |
| TextRedactor.ReplaceEmailWithoutAt | tracker-profiles-screenshots/src/main/java/net/zodac/tracker/redaction/TextRedactor.java:89-91 | Text without `@` goes through `replaceEmail` unchanged. |
| TextRedactor.ReplaceAllRemoves | tracker-profiles-screenshots/src/main/java/net/zodac/tracker/redaction/TextRedactor.java:93-97 | After replacing an address pattern, that pattern is found nowhere in the result. |
| TextRedactor.ReplaceAllKeepsAbsent | tracker-profiles-screenshots/src/main/java/net/zodac/tracker/redaction/TextRedactor.java:93-97 | Replacing the matches of any pattern by `----` creates no match of an address pattern other than `EMAIL` where there was none. |
| TextRedactor.NoMatchAcross | tracker-profiles-screenshots/src/main/java/net/zodac/tracker/redaction/TextRedactor.java:37 | No address can overlap the placeholder, so two address-free texts joined around it stay address-free. |
| TextRedactor.RedactedTextHasNoIpAddress | tracker-profiles-screenshots/src/main/java/net/zodac/tracker/redaction/TextRedactor.java:93-97 | After `replaceIpAddresses`, `containsIpAddress` finds nothing. |
| Configuration.GetOrDefault | tracker-profiles-screenshots/src/main/java/net/zodac/tracker/framework/config/ApplicationConfiguration.java:227-233 | `getOrDefault`. Characterised by `GetOrDefaultOverride`. |
| Configuration.GetOrDefaultOverride | tracker-profiles-screenshots/src/main/java/net/zodac/tracker/framework/config/ApplicationConfiguration.java:227-233 | A set variable decides its value, other variables do not affect it, and an unset one gives the default. |
| Configuration.BrowserDimensions | tracker-profiles-screenshots/src/main/java/net/zodac/tracker/framework/config/ApplicationConfiguration.java:124-135 | Succeeds exactly when the width and height are a whitelisted pair, and then gives `W,H`. Otherwise it fails naming `WxH`. |
| Configuration.WhitelistIsPairs | tracker-profiles-screenshots/src/main/java/net/zodac/tracker/framework/config/ApplicationConfiguration.java:85-97 | `WxH` is in the whitelist exactly when `(W, H)` is one of the 11 listed pairs. |
| Configuration.DefaultDimensions | tracker-profiles-screenshots/src/main/java/net/zodac/tracker/framework/config/ApplicationConfiguration.java:74-75 | With nothing set, the dimensions are `1680,1050`. |
| Configuration.ParseInt | tracker-profiles-screenshots/src/main/java/net/zodac/tracker/framework/config/ApplicationConfiguration.java:217 | `Integer.parseInt`: an accepted value fits in 32 bits and starts with a sign or a digit. |
| Configuration.ParseIntRoundTrip | tracker-profiles-screenshots/src/main/java/net/zodac/tracker/framework/config/ApplicationConfiguration.java:217 | Every 32-bit value is parsed back from its decimal text. |
| Configuration.ParsePositiveInteger | tracker-profiles-screenshots/src/main/java/net/zodac/tracker/framework/config/ApplicationConfiguration.java:215-225 | Accepts exactly a number above zero and returns it. Otherwise it fails as "not a number" or "not positive". |
| Configuration.InputTimeoutSeconds | tracker-profiles-screenshots/src/main/java/net/zodac/tracker/framework/config/ApplicationConfiguration.java:141-145 | The input timeout in seconds. Characterised by `InputTimeoutDefault` and `ParsePositiveInteger`. |
| Configuration.ParsePositiveIntegerAccepts | tracker-profiles-screenshots/src/main/java/net/zodac/tracker/framework/config/ApplicationConfiguration.java:215-225 | The decimal text of every positive 32-bit number is accepted with its value. |
| Configuration.InputTimeoutDefault | tracker-profiles-screenshots/src/main/java/net/zodac/tracker/framework/config/ApplicationConfiguration.java:141-145 | Without the variable the timeout is 300 s, and any accepted timeout is positive. |
| Configuration.ParseBoolean | tracker-profiles-screenshots/src/main/java/net/zodac/tracker/framework/config/ApplicationConfiguration.java:212 | `Boolean.parseBoolean`: true exactly for `true` in any case, as `GetBoolean` states. |
| Configuration.GetBoolean | tracker-profiles-screenshots/src/main/java/net/zodac/tracker/framework/config/ApplicationConfiguration.java:211-213 | Without the variable the value is the default; otherwise it is true exactly when the value is `true` ignoring case. |
| Configuration.BooleanDefaults | tracker-profiles-screenshots/src/main/java/net/zodac/tracker/framework/config/ApplicationConfiguration.java:109-112 | Translation is on by default; forcing a visible browser and the input timeout are off. `TRUE` counts as true. |
| Configuration.CsvCommentSymbol | tracker-profiles-screenshots/src/main/java/net/zodac/tracker/framework/config/ApplicationConfiguration.java:137-139 | The first character of the value, `#` by default. An empty value is an error. |
| Configuration.GetRedactionType | tracker-profiles-screenshots/src/main/java/net/zodac/tracker/framework/config/ApplicationConfiguration.java:163-171 | `TEXT` by default. A result's name equals the value ignoring case; a failure names the value. |
| Configuration.ExecutionOrder | tracker-profiles-screenshots/src/main/java/net/zodac/tracker/framework/config/ApplicationConfiguration.java:183-205 | The tracker execution order or its error. Characterised by `ExecutionOrderCharacterised`. |
| Configuration.OrderOfCharacterised | tracker-profiles-screenshots/src/main/java/net/zodac/tracker/framework/config/ApplicationConfiguration.java:192-204 | The token loop succeeds exactly when every token names a type and no type repeats. It then lists the types in token order. |
| Configuration.ExecutionOrderCharacterised | tracker-profiles-screenshots/src/main/java/net/zodac/tracker/framework/config/ApplicationConfiguration.java:183-205 | The order is accepted exactly when there are 1 to `typeCount` comma-split tokens, all known and none repeated. It is then the named types in order. |
| Configuration.GetTrackerExecutionOrder | tracker-profiles-screenshots/src/main/java/net/zodac/tracker/framework/config/ApplicationConfiguration.java:183-205 | The loop over the tokens of the variable (default `headless,manual,cloudflare-check`) computes the characterised order or its error. |
| RedactionTypes.Get | tracker-profiles-screenshots/src/main/java/net/zodac/tracker/framework/config/RedactionType.java:45-50 | A found value's name equals the input ignoring case. Nothing is found exactly when no name does. |
| RedactionTypes.GetIsUnambiguous | tracker-profiles-screenshots/src/main/java/net/zodac/tracker/framework/config/RedactionType.java:45-50 | Any case-insensitive match of a name finds that value. |
| RedactionTypes.GetRoundTrip | tracker-profiles-screenshots/src/main/java/net/zodac/tracker/framework/config/RedactionType.java:31-50 | Both `OVERLAY` and `TEXT` are found from their names and from their lower-case names. |
| CsvReader.IsHeaderRow | tracker-profiles-screenshots/src/main/java/net/zodac/tracker/framework/TrackerCsvReader.java:104-116 | The size check and cell loop decide exactly `IsHeader`: three cells, each trimmed equal to its header name ignoring case. |
| CsvReader.MatchCells | tracker-profiles-screenshots/src/main/java/net/zodac/tracker/framework/TrackerCsvReader.java:109-115 | The loop returns whether every cell matches the name at its position. |
| CsvReader.HeaderAcceptance | tracker-profiles-screenshots/src/main/java/net/zodac/tracker/framework/TrackerCsvReader.java:104-116 | The header in any letter case, with spaces or tabs around each cell, is accepted. |
| CsvReader.WrongSizeIsNoHeader | tracker-profiles-screenshots/src/main/java/net/zodac/tracker/framework/TrackerCsvReader.java:105-107 | A row that does not have three cells is never a header. |
| CsvReader.ValidateFilePath | tracker-profiles-screenshots/src/main/java/net/zodac/tracker/framework/TrackerCsvReader.java:81-89 | Passes exactly for a regular file. A missing path and a path that is not a file give their own errors. |
| CsvReader.ValidateCsvFileContent | tracker-profiles-screenshots/src/main/java/net/zodac/tracker/framework/TrackerCsvReader.java:91-102 | Passes exactly when there is a first record and it is the header. Otherwise it reports an empty file or a missing header. |
| CsvReader.ReadTrackerInfo | tracker-profiles-screenshots/src/main/java/net/zodac/tracker/framework/TrackerCsvReader.java:61-79 | Succeeds exactly when both checks pass, with one credential per record after the header, in order. A failure is the first check's error. |
| CsvReader.HeaderOnlyGivesNothing | tracker-profiles-screenshots/src/main/java/net/zodac/tracker/framework/TrackerCsvReader.java:73-77 | A file with only the header row gives no credentials. |
| ResultCollection.ResultCollector.constructor | tracker-profiles-screenshots/src/main/java/net/zodac/tracker/app/ResultCollector.java:38-39 | Both maps start empty. |
| ResultCollection.ResultCollector.AddResult | tracker-profiles-screenshots/src/main/java/net/zodac/tracker/app/ResultCollector.java:48-53 | The name joins its type's set in the map the outcome selects, and the other map is unchanged. |
| ResultCollection.Record | tracker-profiles-screenshots/src/main/java/net/zodac/tracker/app/ResultCollector.java:50-52 | The type becomes a key, its set gains the name, and other types are unchanged. |
| ResultCollection.RecordCounts | tracker-profiles-screenshots/src/main/java/net/zodac/tracker/app/ResultCollector.java:50-52 | Recording adds one to the total unless the name was already there for that type. |
| ResultCollection.TotalZeroIffEmpty | tracker-profiles-screenshots/src/main/java/net/zodac/tracker/app/ResultCollector.java:62-70 | When no set is empty, the total is zero exactly when the map is empty. |
| ResultCollection.Verdict | tracker-profiles-screenshots/src/main/java/net/zodac/tracker/app/ResultCollector.java:72-112 | `FAILURE` exactly when nothing succeeded; `SUCCESS` exactly when something succeeded and nothing failed; `PARTIAL_FAILURE` exactly when both happened. |
| ResultCollection.ResultCollector.GenerateSummary | tracker-profiles-screenshots/src/main/java/net/zodac/tracker/app/ResultCollector.java:61-113 | The verdict of the two totals. All-failed reports by declaration order, a partial failure by execution order, and a success reports nothing. The maps are only read. |
| ResultCollection.ResultCollector.ReportFailures | tracker-profiles-screenshots/src/main/java/net/zodac/tracker/app/ResultCollector.java:102-110 | The loop lists the failing types of the given order with their names. |
| ResultCollection.FailureReport | tracker-profiles-screenshots/src/main/java/net/zodac/tracker/app/ResultCollector.java:102-110 | Every listed type is in the order and has a non-empty set, and every such type is listed. |
| ResultCollection.RecordedSomething | tracker-profiles-screenshots/src/main/java/net/zodac/tracker/app/ResultCollector.java:48-76 | After any `addResult` the totals are not both zero, so "no trackers ran" cannot follow it. |
| ScreenshotExecution.ExistingScreenshotDecision | tracker-profiles-screenshots/src/main/java/net/zodac/tracker/app/ProfileScreenshotExecutor.java:206-228 | With no earlier screenshot, `(OVERWRITE, 0)`. Otherwise the configured action, with index 0 for `OVERWRITE` and the number of earlier screenshots for the others. |
| ScreenshotExecution.SkipOnlyWhenConfigured | tracker-profiles-screenshots/src/main/java/net/zodac/tracker/app/ProfileScreenshotExecutor.java:206-228 | A tracker is skipped exactly when a screenshot exists and `SKIP` is configured. |
| ScreenshotExecution.ProfileSteps | tracker-profiles-screenshots/src/main/java/net/zodac/tracker/app/ProfileScreenshotExecutor.java:164-204 | A skip makes no handler call. Otherwise the tracker is opened first, then comes the screenshot with the decided index, then logout; redaction happens exactly when the page holds sensitive information. |
| ScreenshotExecution.ScreenshotIndex | tracker-profiles-screenshots/src/main/java/net/zodac/tracker/app/ProfileScreenshotExecutor.java:197-198 | A non-zero screenshot index only arises from `CREATE_ANOTHER`, and it is the number of earlier screenshots. |
| ScreenshotExecution.Classify | tracker-profiles-screenshots/src/main/java/net/zodac/tracker/app/ProfileScreenshotExecutor.java:75-122 | The catch clauses as written. A caught exception never succeeds. A closed browser rethrows as `BrowserClosed`. The cleaning exception escapes exactly for a timeout or unexpected exception whose message is non-empty and all line feeds. An error screenshot is considered only for those two kinds, and a logged failure never carries the out-of-bounds detail. |
| ScreenshotExecution.ErrorShot | tracker-profiles-screenshots/src/main/java/net/zodac/tracker/app/ProfileScreenshotExecutor.java:130-151 | The error screenshot is taken exactly when enabled and a handler exists. |
| ScreenshotExecution.LoggedFailure | tracker-profiles-screenshots/src/main/java/net/zodac/tracker/app/ProfileScreenshotExecutor.java:95-106 | After the error screenshot, the clause escapes exactly when the as-written cleaning throws; otherwise it is a failure with the cleaned message. |
| ScreenshotExecution.ClassifyCorrected | tracker-profiles-screenshots/src/main/java/net/zodac/tracker/app/ProfileScreenshotExecutor.java:95-122 | The clauses with the corrected cleaning never let an exception escape. They agree with the as-written clauses wherever those do not escape, and they log an empty first line where those escape. |
| ScreenshotExecution.IsSuccessfullyScreenshot | tracker-profiles-screenshots/src/main/java/net/zodac/tracker/app/ProfileScreenshotExecutor.java:64-128 | Success exactly when the handler ran without an exception; any other outcome is the as-written catch clause, an escaping exception included. The handler is closed exactly when it was created, whatever the outcome. |
| ScreenshotExecution.SkippedCountsAsSuccess | tracker-profiles-screenshots/src/main/java/net/zodac/tracker/app/ProfileScreenshotExecutor.java:166-169 | A skipped tracker makes no call and counts as successful. |
| ScreenshotExecution.ErrorScreenshotNeedsHandler | tracker-profiles-screenshots/src/main/java/net/zodac/tracker/app/ProfileScreenshotExecutor.java:130-139 | An error screenshot, whether the clause then returns or escapes, is never taken without a handler or when disabled. |
| ScreenshotExecution.LineFeedTimeoutEscapes | tracker-profiles-screenshots/src/main/java/net/zodac/tracker/app/ProfileScreenshotExecutor.java:94-106 | A timeout whose message is `"\n"` takes the configured error screenshot, then escapes the catch clause, and the handler is still closed. |
| ScreenshotExecution.CleanedErrorMessageAsWritten | tracker-profiles-screenshots/src/main/java/net/zodac/tracker/app/ProfileScreenshotExecutor.java:99-105 | `split("\n")[0]` throws exactly for a non-empty message made only of line feeds. |
| ScreenshotExecution.LineFeedMessageThrows | tracker-profiles-screenshots/src/main/java/net/zodac/tracker/app/ProfileScreenshotExecutor.java:103 | The message `"\n"` makes the handler branch throw. |
| ScreenshotExecution.CleanedErrorMessage | tracker-profiles-screenshots/src/main/java/net/zodac/tracker/app/ProfileScreenshotExecutor.java:114-120 | The corrected cleaning never throws and contains no line feed. It agrees with the code wherever the code does not throw. |
| TrackerRetrieval.Selection | tracker-profiles-screenshots/src/main/java/net/zodac/tracker/app/TrackerRetriever.java:66-83 | A credential is kept exactly when a handler matches, the handler's type is in the execution order, and the tracker is not adult unless adult content is on. |
| TrackerRetrieval.Grouped | tracker-profiles-screenshots/src/main/java/net/zodac/tracker/app/TrackerRetriever.java:67-92 | The grouping of the kept credentials by tracker type. Characterised by `GroupedKeys`, `GroupedMembers` and `GroupedHandler`. |
| TrackerRetrieval.GetTrackers | tracker-profiles-screenshots/src/main/java/net/zodac/tracker/app/TrackerRetriever.java:57-103 | The loop computes the grouping of the credentials read. An unusable file gives the empty map. |
| TrackerRetrieval.GroupedKeys | tracker-profiles-screenshots/src/main/java/net/zodac/tracker/app/TrackerRetriever.java:74-92 | A type is present exactly when some credential is kept with it. |
| TrackerRetrieval.GroupedMembers | tracker-profiles-screenshots/src/main/java/net/zodac/tracker/app/TrackerRetriever.java:85-92 | A present type holds every credential kept with it, and no other. |
| TrackerRetrieval.GroupedHandler | tracker-profiles-screenshots/src/main/java/net/zodac/tracker/app/TrackerRetriever.java:85-92 | A present type keeps the handler of its first kept credential in file order. |
| ProfileScreenshotting.Credentials | tracker-profiles-screenshots/src/main/java/net/zodac/tracker/ProfileScreenshotter.java:165-191 | The credential sets of a grouping, without handlers; the keys are the grouping's keys. |
| ProfileScreenshotting.GetTrackers | tracker-profiles-screenshots/src/main/java/net/zodac/tracker/ProfileScreenshotter.java:165-191 | The loop gives the retriever's grouping without handlers, with every type allowed and adult trackers kept. An unusable file gives the empty map. |
| ProfileScreenshotting.CredentialsOfAdd | tracker-profiles-screenshots/src/main/java/net/zodac/tracker/ProfileScreenshotter.java:170-180 | One loop turn adds a credential with a handler to its type's set and ignores one without a handler. |
| ProfileScreenshotting.GetTrackersKeys | tracker-profiles-screenshots/src/main/java/net/zodac/tracker/ProfileScreenshotter.java:170-183 | A type has credentials exactly when some credential's handler has that type. |
| ProfileScreenshotting.EnabledCount | tracker-profiles-screenshots/src/main/java/net/zodac/tracker/ProfileScreenshotter.java:157-163 | `countAllEnabled` over a list of types. Characterised by `EnabledCountZero` and `CountZeroIffNothingEnabled`. |
| ProfileScreenshotting.CountZeroIffNothingEnabled | tracker-profiles-screenshots/src/main/java/net/zodac/tracker/ProfileScreenshotter.java:157-163 | The enabled count is zero exactly when no enabled type has a credential. |
| ProfileScreenshotting.EnabledCountZero | tracker-profiles-screenshots/src/main/java/net/zodac/tracker/ProfileScreenshotter.java:157-163 | The same over any list of types, with a missing type counting zero. |
| ProfileScreenshotting.ReturnResultSummary | tracker-profiles-screenshots/src/main/java/net/zodac/tracker/ProfileScreenshotter.java:121-147 | The same verdict as the result collector for the two name sets. The failed names are listed unless the run succeeded. |
| ProfileScreenshotting.ExecuteProfileScreenshotter | tracker-profiles-screenshots/src/main/java/net/zodac/tracker/ProfileScreenshotter.java:76-119 | `FAILURE` when no enabled type has a credential. Otherwise the verdict of the names that succeeded and failed over the enabled types in execution order. |
| ProfileScreenshotting.RunType | tracker-profiles-screenshots/src/main/java/net/zodac/tracker/ProfileScreenshotter.java:108-115 | Every credential of a type is attempted, and its name joins the successful or the failed set. |
| TrackerHandling.FirstReachable | tracker-profiles-screenshots/src/main/java/net/zodac/tracker/handler/AbstractTrackerHandler.java:130-164 | The result of trying the URLs in order. Characterised by `FirstReachableCharacterised` and `ConnectedPageIsReachable`. |
| TrackerHandling.OpenTracker | tracker-profiles-screenshots/src/main/java/net/zodac/tracker/handler/AbstractTrackerHandler.java:130-164 | The URL loop returns the outcome of the first URL that is neither a 523 page nor an unresolved name, and no URLs at all means unavailable. |
| TrackerHandling.FirstReachableCharacterised | tracker-profiles-screenshots/src/main/java/net/zodac/tracker/handler/AbstractTrackerHandler.java:132-163 | Unavailable exactly when every URL gives a 523 page or an unresolved name. Otherwise the first URL that does not decides: connected on a page, or the rethrown exception. |
| TrackerHandling.ConnectedPageIsReachable | tracker-profiles-screenshots/src/main/java/net/zodac/tracker/handler/AbstractTrackerHandler.java:139-147 | The tracker is connected only on a loaded page that is not Cloudflare's error 523. |
| TrackerHandling.NameNotResolvedSplits | tracker-profiles-screenshots/src/main/java/net/zodac/tracker/handler/AbstractTrackerHandler.java:150-151 | Here `split("\n")[0]` cannot throw: the message has a first piece, which is its first line. |
| TrackerHandling.RedactElements | tracker-profiles-screenshots/src/main/java/net/zodac/tracker/handler/AbstractTrackerHandler.java:412-454 | No selectors means no call. Every call is on a found text holding its kind of address. Every found text holding an email is redacted as an email, and every one holding an IP address as an IP address. All email calls come first, and the count is the number of calls. |
| TrackerHandling.Calls | tracker-profiles-screenshots/src/main/java/net/zodac/tracker/handler/AbstractTrackerHandler.java:445-453 | The email calls followed by the IP calls, one per element, each on matching text. A call is made exactly for each email element and each IP element. |
| TrackerHandling.HasElementsNeedingRedaction | tracker-profiles-screenshots/src/main/java/net/zodac/tracker/handler/AbstractTrackerHandler.java:407-409 | `hasElementsNeedingRedaction`: some selector is given (`DefaultRedactsNothing`, `RedactElements`). |
| TrackerHandling.Filter | tracker-profiles-screenshots/src/main/java/net/zodac/tracker/handler/AbstractTrackerHandler.java:428-438 | Keeps exactly the texts that pass, and never more than there were. |
| TrackerHandling.RedactedCount | tracker-profiles-screenshots/src/main/java/net/zodac/tracker/handler/AbstractTrackerHandler.java:419-454 | The count is the number of address kinds summed over all elements found, and zero without selectors. |
| TrackerHandling.FiltersCountMarks | tracker-profiles-screenshots/src/main/java/net/zodac/tracker/handler/AbstractTrackerHandler.java:428-438 | The two filtered lists together are as long as the per-element marks add up to. |
| TrackerHandling.NoMarks | tracker-profiles-screenshots/src/main/java/net/zodac/tracker/handler/AbstractTrackerHandler.java:440-443 | The count is zero exactly when no element holds either kind of address. |
| TrackerHandling.BothKindsCountTwice | tracker-profiles-screenshots/src/main/java/net/zodac/tracker/handler/AbstractTrackerHandler.java:445-453 | An element with both an email and an IP address is redacted, and counted, twice. |
| TrackerHandling.DefaultRedactsNothing | tracker-profiles-screenshots/src/main/java/net/zodac/tracker/handler/AbstractTrackerHandler.java:407-467 | With the default selectors a handler needs no redaction and redacts nothing. |
| TrackerHandling.PostLogoutElementSelector | tracker-profiles-screenshots/src/main/java/net/zodac/tracker/handler/AbstractTrackerHandler.java:525-527 | The username field without a login-page link, otherwise that link. |
| JavaDriver.CreateDriver | tracker-profiles-screenshots/src/main/java/net/zodac/tracker/framework/driver/java/JavaWebDriverFactory.java:65-114 | The arguments are the Java argument list for the configuration and tracker type. The preferences carry the Java whitelist, and the extension files are the extensions, in order. |
| JavaDriver.CanTrackerUseHeadlessBrowser | tracker-profiles-screenshots/src/main/java/net/zodac/tracker/framework/driver/java/JavaWebDriverFactory.java:137-139 | Headless unless a visible browser is forced or the tracker is manual, as used by `HeadlessIff`. |
| JavaDriver.GetTranslationWhitelist | tracker-profiles-screenshots/src/main/java/net/zodac/tracker/framework/driver/java/JavaWebDriverFactory.java:116-135 | The loop maps every listed language to `en`. |
| JavaDriver.AddExtensions | tracker-profiles-screenshots/src/main/java/net/zodac/tracker/framework/driver/java/JavaWebDriverFactory.java:106-110 | One extension file per extension, in iteration order. |
| JavaDriver.HeadlessIff | tracker-profiles-screenshots/src/main/java/net/zodac/tracker/framework/driver/java/JavaWebDriverFactory.java:71-74 | `--headless=new` and `--start-maximized` are present exactly when neither a visible browser is forced nor the tracker is manual. |
| JavaDriver.LanguageIff | tracker-profiles-screenshots/src/main/java/net/zodac/tracker/framework/driver/java/JavaWebDriverFactory.java:89-96 | `--lang=en` is present exactly when translation is on. |
| JavaDriver.AlwaysPresent | tracker-profiles-screenshots/src/main/java/net/zodac/tracker/framework/driver/java/JavaWebDriverFactory.java:70-104 | The window size comes first and the four automation flags last. The storage arguments are always present. |
| BrowserOptions.Whitelist | tracker-profiles-screenshots/src/main/java/net/zodac/tracker/framework/driver/java/JavaWebDriverFactory.java:130-134 | The whitelist's keys are exactly the listed languages, each mapped to `en`. |
| BrowserOptions.FillWhitelist | python/selenium_manager/chromeoptions_config.py:76-77 | The Python loop builds the same whitelist. |
| BrowserOptions.WhitelistSnoc | python/selenium_manager/chromeoptions_config.py:76-77 | Listing one more language adds exactly that entry. |
| BrowserOptions.WhitelistExtends | python/selenium_manager/chromeoptions_config.py:62-77 | A list made of another list plus new languages whitelists exactly both, with as many more entries as new languages. |
| BrowserOptions.PrefsShape | tracker-profiles-screenshots/src/main/java/net/zodac/tracker/framework/driver/java/JavaWebDriverFactory.java:84-96 | The password manager is always off, and the translation keys (the whitelist among them) are present exactly when translating. |
| ChromeOptionsConfig.CreateChromeOptions | python/selenium_manager/chromeoptions_config.py:20-84 | The nine fixed arguments, plus `--lang=en` when translating. The preferences carry the Python whitelist, and there are no extensions. |
| ChromeOptionsConfig.AddFixedArguments | python/selenium_manager/chromeoptions_config.py:36-44 | The nine `add_argument` calls, in order. |
| ChromeOptionsConfig.ArgumentsShape | python/selenium_manager/chromeoptions_config.py:36-53 | The nine fixed arguments come first. The only other argument is the language flag, present exactly when translating. |
| ChromeOptionsConfig.SessionDirectoriesDiffer | python/selenium_manager/chromeoptions_config.py:32-38 | Different session ids give different user-data directories; the cache directory is shared. |
| ChromeOptionsConfig.WhitelistsCompared | python/selenium_manager/chromeoptions_config.py:62-74 | The Python whitelist is the Java one plus exactly five languages (`ceb`, `haw`, `hmn`, `ht`, `tl`). |
| Text.JavaSplitEmpty | tracker-profiles-screenshots/src/main/java/net/zodac/tracker/app/ProfileScreenshotExecutor.java:103 | `String.split` returns no pieces exactly for non-empty text made only of separators. |
| Text.JavaSplitFirstLine | tracker-profiles-screenshots/src/main/java/net/zodac/tracker/app/ProfileScreenshotExecutor.java:118 | Whenever the split has a piece, its first piece is the text's first line. |
| Text.TrimPadded | tracker-profiles-screenshots/src/main/java/net/zodac/tracker/framework/TrackerCsvReader.java:110 | `trim` removes exactly the padding around a value whose ends are not padding. |
| Text.Trim | tracker-profiles-screenshots/src/main/java/net/zodac/tracker/framework/TrackerCsvReader.java:110 | The result is a slice of the text with only low characters cut off each end, and its own ends are not low characters. |
| Text.ToLowerIdempotent | tracker-profiles-screenshots/src/main/java/net/zodac/tracker/framework/xpath/NamedHtmlElement.java:65-67 | Lower-casing twice is lower-casing once. |
| Text.IntToDecimal | tracker-profiles-screenshots/src/main/java/net/zodac/tracker/framework/xpath/XpathAttributePredicate.java:45 | The decimal text of an integer starts with `-` exactly for negatives, and is the digits of the value otherwise. |
| Text.DecimalRoundTrip | tracker-profiles-screenshots/src/main/java/net/zodac/tracker/framework/xpath/XpathAttributePredicate.java:45 | Printing the value of a canonical digit string gives the string back. |
| Text.PadDecimal | tracker-profiles-screenshots/src/main/java/net/zodac/tracker/util/TimingUtils.java:58 | `%0Nd` pads to at least N digits, exactly N below 10^N, and the digits read back as the number. |

## Left out

- Browser work is outside the model: Selenium, the page DOM, `executeScript`, waits,
  screenshots, files and directories. The results the modelled code needs become
  parameters:
  - what loading a URL leads to;
  - the texts of the elements a selector finds (assumed the same on both passes of
    `redactElements`);
  - the number of existing screenshots;
  - whether one tracker's screenshot succeeded;
  - the file-system kind of the CSV path.
- Parsing CSV text is done by a library and is not part of this model. The reader starts
  from parsed records. `IOException` paths are modelled as "the file could not be used".
- `TrackerType.java`, `ExitState.java`, `ExistingScreenshotAction.java`,
  `TrackerCredential.java`, `TrackerHandlerFactory.java` and the `TrackerHandler`
  annotation are not part of this model. Their constants and fields are declared as the
  modelled code uses them. `TrackerType.find`, `TrackerType.isEnabled`,
  `findMatchingHandler` and `TrackerCredential.fromCsv` are parameters.
- Some configuration readers are not modelled:
  - `getOutputDirectory`, which needs the clock, time zones and date formats;
  - `getScreenshotExistsAction`, whose enum is not part of this model;
  - `getTrackerInputFilePath`;
  - the `load` record assembly and `print`.
- Log messages, `printTrackersInfo` and `printSummary` are not modelled.
- `ProfileScreenshotter.isAbleToTakeScreenshot` and its own `screenshotProfile` are
  covered only by the finding below. They repeat the executor's handling with a slightly
  different exception list.
- Ordering is not modelled. `TreeSet` is a `set`, so the order of names and credentials
  within a type is lost. `EnumMap` iteration is the declaration order `AllTrackerTypes`.
- A `BrowserClosedException` is an outcome of one tracker. Aborting the rest of the run
  is not modelled.
- `Configuration.ParseInt`: only ASCII digits are accepted; Java also accepts other
  Unicode decimal digits.
- `Text.ToLower`, `Text.EqualsIgnoreCase`: ASCII case mapping only. Java maps the case of
  every Unicode letter under the default locale.
- `ChromeOptionsConfig.CreateChromeOptions`: `pathlib` joins are plain `/`
  concatenations, with no normalisation of the storage path. The Java `File.separator`
  is fixed to `/`.
- `System.nanoTime()` and `uuid.uuid4()` are parameters. Constructing `ChromeDriver` or
  `uc.ChromeOptions` is not modelled.
- `TextRedactor.EscapeForJavaScriptString`: its own ensures states only the absence of
  CR and LF. The full meaning is in `EscapeRoundTrip`.
- `TextRedactor.ReplaceAllRemoves`: proved for the three address patterns, not for
  `EMAIL`, whose matches can overlap the placeholder's dashes.
- `XpathBuilder.FirstTableUnderRoot`: only the opening `//root//table[1]` of example 3 is
  proved as a literal, not the whole chain.
- The long chain of XpathBuilderTest.java lines 268-279 is not proved as one literal.
  Each step it uses (`From`, `Descendant`, `Child`, `WithId`, `WithAttribute`, `AtIndex`,
  `WithClass`) is proved separately.
- `AbstractTrackerHandler.configure` and the other browser-driving handler methods are
  not part of this model.
- The Python Flask application and its session routes are not part of this model.

## Findings

| source | as written | input that shows it | evidently intended | confidence | as-written member | corrected member |
|---|---|---|---|---|---|---|
| tracker-profiles-screenshots/src/main/java/net/zodac/tracker/app/ProfileScreenshotExecutor.java:103 | The timeout and generic catch clauses guard only against `null` and empty messages, then take `errorMessage.split("\n")[0]`. `split` drops trailing empty pieces, so a message made only of line feeds gives an empty array and an `ArrayIndexOutOfBoundsException` escapes the catch block. The same code is in ProfileScreenshotter.java lines 227 and 244. | an exception whose message is `"\n"` | log the message's first line (here empty) and return `false` | not executed | ScreenshotExecution.LineFeedTimeoutEscapes | ScreenshotExecution.ClassifyCorrected |
| tracker-profiles-screenshots/src/main/java/net/zodac/tracker/framework/xpath/XpathAttributePredicate.java:232-234 | `escapeXpath` writes `'` as `\'` inside a single-quoted value. An XPath 1.0 Literal (section 3.7) has no escape character, so the literal ends at the escaped quote. | the value `it's`, written `'it\'s'` | an expression that denotes the value: `"it's"` here, a `concat` of literals when the value holds both kinds of quote, and the current text when it holds no single quote | not executed | XpathPredicates.QuotedEscapeIsNotLiteral | XpathPredicates.XpathStringExpression |
