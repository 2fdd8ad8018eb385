/**
 * `ProfileScreenshotExecutor`: one tracker's screenshot attempt. The browser work is done
 * by the tracker's handler and is not part of this model; what the handler does is given
 * as the exception (if any) the attempt raised, and the model decides how the executor
 * reacts: the existing-screenshot decision, the sequence of handler calls, the outcome
 * each exception leads to, and the closing of the handler.
 */
module ScreenshotExecution {
  import opened Wrappers
  import opened Text
  import opened TrackerTypes

  // ---------------------------------------------------------------------------
  // Existing screenshots
  // ---------------------------------------------------------------------------

  /**
   * `doesScreenshotExistAndSkipSelected`: with no earlier screenshot the new one simply
   * gets index 0; otherwise the configured action decides, and only `CREATE_ANOTHER` and
   * `SKIP` keep the number of earlier screenshots as the index.
   */
  function ExistingScreenshotDecision(existing: nat, configured: ExistingScreenshotAction): (r: (ExistingScreenshotAction, nat))
    ensures existing == 0 ==> r == (OVERWRITE, 0)
    ensures existing > 0 ==> r.0 == configured
    ensures r.1 == (if r.0 == OVERWRITE then 0 else existing)
  {
    if existing == 0 then
      (OVERWRITE, existing)
    else
      match configured
      case CREATE_ANOTHER => (CREATE_ANOTHER, existing)
      case OVERWRITE => (OVERWRITE, 0)
      case SKIP => (SKIP, existing)
  }

  /** A tracker is skipped exactly when a screenshot exists and skipping is configured. */
  lemma SkipOnlyWhenConfigured(existing: nat, configured: ExistingScreenshotAction)
    ensures ExistingScreenshotDecision(existing, configured).0 == SKIP <==> existing > 0 && configured == SKIP
  {
  }

  // ---------------------------------------------------------------------------
  // The handler calls of `screenshotProfile`
  // ---------------------------------------------------------------------------

  /**
   * One handler call. `ClearBanner` and `UnfixHeader` are the calls `canBannerBeCleared()`
   * and `hasFixedHeader()`, which are made every time; only the log line depends on their
   * answers.
   */
  datatype Step =
    | OpenTracker
    | NavigateToLoginPage
    | Login
    | ClearBanner
    | OpenProfilePage
    | RedactElements
    | UnfixHeader
    | TakeScreenshot(index: nat)
    | Logout

  /**
   * `screenshotProfile`: the handler calls made, in order, when none of them raises. A
   * skipped tracker makes none; otherwise the page is opened and logged into, redacted only
   * when it holds sensitive information, and the screenshot, named with the decided index,
   * is taken just before logging out.
   */
  function ProfileSteps(existing: nat, configured: ExistingScreenshotAction, hasSensitiveInformation: bool): (steps: seq<Step>)
    ensures ExistingScreenshotDecision(existing, configured).0 == SKIP ==> steps == []
    ensures ExistingScreenshotDecision(existing, configured).0 != SKIP ==>
      && |steps| >= 2
      && steps[0] == OpenTracker
      && steps[|steps| - 2] == TakeScreenshot(ExistingScreenshotDecision(existing, configured).1)
      && steps[|steps| - 1] == Logout
      && (RedactElements in steps <==> hasSensitiveInformation)
  {
    var decision := ExistingScreenshotDecision(existing, configured);
    if decision.0 == SKIP then
      []
    else
      [OpenTracker, NavigateToLoginPage, Login, ClearBanner, OpenProfilePage]
      + (if hasSensitiveInformation then [RedactElements] else [])
      + [UnfixHeader, TakeScreenshot(decision.1), Logout]
  }

  /** Only `CREATE_ANOTHER` over an existing screenshot names the new one with a non-zero index. */
  lemma ScreenshotIndex(existing: nat, configured: ExistingScreenshotAction, hasSensitiveInformation: bool, index: nat)
    requires TakeScreenshot(index) in ProfileSteps(existing, configured, hasSensitiveInformation)
    ensures index != 0 ==> existing > 0 && configured == CREATE_ANOTHER && index == existing
  {
    var steps := ProfileSteps(existing, configured, hasSensitiveInformation);
    var k :| 0 <= k < |steps| && steps[k] == TakeScreenshot(index);
    assert k == |steps| - 2;
  }

  // ---------------------------------------------------------------------------
  // Exceptions and the outcome of an attempt
  // ---------------------------------------------------------------------------

  /** The exceptions the executor tells apart, with the message where it uses one. */
  datatype Raised =
    | CancelledInput
    | DriverAttach
    | FileNotFound(message: Option<string>)
    | NoSuchElement
    | NoUserInput
    | Timeout(message: Option<string>)
    | BrowserUnavailable  // NoSuchSessionException, NoSuchWindowException, UnreachableBrowserException
    | Other(message: Option<string>)

  /** How far the attempt got: the handler lookup itself failed, or the handler was created. */
  datatype Attempt =
    | HandlerNotCreated(raisedByLookup: Raised)
    | HandlerCreated(raised: Option<Raised>)

  datatype FailureReason = Cancelled | AttachFailed | MissingFile | NoImplementation | NoInput | TimedOut | Unexpected

  /** What happened to the screenshot that is taken on an error. */
  datatype ErrorScreenshot = NotAttempted | Disabled | NoHandler | Taken

  /** The text after the warning: absent for no message, otherwise its first line. */
  datatype Cleaned = NoDetail | Detail(text: string) | IndexOutOfBounds

  datatype Verdict =
    | Succeeded
    | Failed(reason: FailureReason, detail: Cleaned, errorScreenshot: ErrorScreenshot)
    | BrowserClosed  // rethrown as `BrowserClosedException`
    | Escaped(reason: FailureReason, errorScreenshot: ErrorScreenshot)  // `ArrayIndexOutOfBoundsException` thrown from the catch clause

  datatype Outcome = Outcome(verdict: Verdict, handlerClosed: bool)

  /**
   * The error message as the timeout and generic branches print it: `null` and the empty
   * message print nothing, any other message prints `split("\n")[0]`. A message made only of
   * line feeds splits into no pieces at all, and indexing the first one throws.
   */
  function CleanedErrorMessageAsWritten(message: Option<string>): (r: Cleaned)
    ensures r == IndexOutOfBounds <==> message.Some? && message.value != [] && forall i :: 0 <= i < |message.value| ==> message.value[i] == '\n'
  {
    var text := if message.None? then "" else message.value;
    JavaSplitEmpty(text, '\n');
    if text == [] then
      NoDetail
    else
      var pieces := JavaSplit(text, '\n');
      if pieces == [] then IndexOutOfBounds else Detail(pieces[0])
  }

  /** A single line feed as the message makes the as-written branch throw from inside the handler. */
  lemma LineFeedMessageThrows()
    ensures CleanedErrorMessageAsWritten(Some("\n")) == IndexOutOfBounds
  {
  }

  /**
   * The evidently intended cleaning: the message's first line. It never throws, prints no
   * line feed, and agrees with the as-written branch wherever that one does not throw.
   */
  function CleanedErrorMessage(message: Option<string>): (r: Cleaned)
    ensures r != IndexOutOfBounds
    ensures r.Detail? ==> '\n' !in r.text
    ensures CleanedErrorMessageAsWritten(message) != IndexOutOfBounds ==> r == CleanedErrorMessageAsWritten(message)
  {
    var text := if message.None? then "" else message.value;
    FirstPieceAgrees(text);
    if text == [] then NoDetail else Detail(FirstLine(text))
  }

  lemma FirstPieceAgrees(text: string)
    ensures JavaSplit(text, '\n') != [] ==> JavaSplit(text, '\n')[0] == FirstLine(text)
  {
    if JavaSplit(text, '\n') != [] {
      JavaSplitFirstLine(text);
    }
  }

  /** The error screenshot of the timeout and generic branches. */
  function ErrorShot(takeScreenshotOnError: bool, handlerCreated: bool): (e: ErrorScreenshot)
    ensures e == Taken <==> takeScreenshotOnError && handlerCreated
    ensures e != NotAttempted
  {
    if !takeScreenshotOnError then Disabled else if !handlerCreated then NoHandler else Taken
  }

  /**
   * The timeout and generic catch clauses as written: the error screenshot is taken first,
   * then the message is cleaned; when the cleaning throws, the exception leaves the catch
   * clause instead of the method returning `false`.
   */
  function LoggedFailure(reason: FailureReason, message: Option<string>, shot: ErrorScreenshot): (v: Verdict)
    ensures v.Escaped? <==> CleanedErrorMessageAsWritten(message) == IndexOutOfBounds
    ensures v.Failed? <==> !v.Escaped?
    ensures v.reason == reason && v.errorScreenshot == shot
    ensures v.Failed? ==> v.detail == CleanedErrorMessageAsWritten(message)
  {
    var detail := CleanedErrorMessageAsWritten(message);
    if detail == IndexOutOfBounds then Escaped(reason, shot) else Failed(reason, detail, shot)
  }

  /**
   * The catch clauses, in order, for an exception raised with or without a handler, as
   * written: a line-feed-only message of a timeout or an unexpected exception makes the
   * clause itself throw.
   */
  function Classify(raised: Raised, takeScreenshotOnError: bool, handlerCreated: bool): (v: Verdict)
    ensures v != Succeeded
    ensures v == BrowserClosed <==> raised == BrowserUnavailable
    ensures v.Escaped? <==> (raised.Timeout? || raised.Other?) && CleanedErrorMessageAsWritten(raised.message) == IndexOutOfBounds
    ensures (v.Failed? || v.Escaped?) && v.errorScreenshot != NotAttempted <==> raised.Timeout? || raised.Other?
    ensures v.Failed? ==> v.detail != IndexOutOfBounds
  {
    match raised
    case CancelledInput => Failed(Cancelled, NoDetail, NotAttempted)
    case DriverAttach => Failed(AttachFailed, NoDetail, NotAttempted)
    case FileNotFound(message) => Failed(MissingFile, if message.None? then NoDetail else Detail(message.value), NotAttempted)
    case NoSuchElement => Failed(NoImplementation, NoDetail, NotAttempted)
    case NoUserInput => Failed(NoInput, NoDetail, NotAttempted)
    case Timeout(message) => LoggedFailure(TimedOut, message, ErrorShot(takeScreenshotOnError, handlerCreated))
    case BrowserUnavailable => BrowserClosed
    case Other(message) => LoggedFailure(Unexpected, message, ErrorShot(takeScreenshotOnError, handlerCreated))
  }

  /**
   * The catch clauses with the corrected message cleaning: nothing escapes any more, and
   * every exception the as-written clauses handle is handled the same way.
   */
  function ClassifyCorrected(raised: Raised, takeScreenshotOnError: bool, handlerCreated: bool): (v: Verdict)
    ensures !v.Escaped? && v != Succeeded
    ensures v == BrowserClosed <==> raised == BrowserUnavailable
    ensures !Classify(raised, takeScreenshotOnError, handlerCreated).Escaped? ==> v == Classify(raised, takeScreenshotOnError, handlerCreated)
    ensures Classify(raised, takeScreenshotOnError, handlerCreated).Escaped? ==>
      var w := Classify(raised, takeScreenshotOnError, handlerCreated);
      v == Failed(w.reason, Detail([]), w.errorScreenshot)
  {
    match raised
    case Timeout(message) => Failed(TimedOut, CleanedErrorMessage(message), ErrorShot(takeScreenshotOnError, handlerCreated))
    case Other(message) => Failed(Unexpected, CleanedErrorMessage(message), ErrorShot(takeScreenshotOnError, handlerCreated))
    case _ => Classify(raised, takeScreenshotOnError, handlerCreated)
  }

  /**
   * `isSuccessfullyScreenshot`: success when the handler ran every step; otherwise the
   * catch clause for the exception, as written. The `finally` block closes the handler
   * whenever it was created, whatever the outcome, including an exception that escapes a
   * catch clause.
   */
  function IsSuccessfullyScreenshot(attempt: Attempt, takeScreenshotOnError: bool): (o: Outcome)
    ensures o.verdict == Succeeded <==> attempt == HandlerCreated(None)
    ensures o.handlerClosed <==> attempt.HandlerCreated?
    ensures attempt.HandlerNotCreated? ==> o.verdict == Classify(attempt.raisedByLookup, takeScreenshotOnError, false)
    ensures attempt.HandlerCreated? && attempt.raised.Some? ==> o.verdict == Classify(attempt.raised.value, takeScreenshotOnError, true)
  {
    match attempt
    case HandlerNotCreated(raised) => Outcome(Classify(raised, takeScreenshotOnError, false), false)
    case HandlerCreated(None) => Outcome(Succeeded, true)
    case HandlerCreated(Some(raised)) => Outcome(Classify(raised, takeScreenshotOnError, true), true)
  }

  /** The tracker counts as successful exactly when the outcome is a success; a closed browser aborts the run instead. */
  predicate WasSuccessful(o: Outcome) {
    o.verdict == Succeeded
  }

  /** A skipped tracker runs no handler step, raises nothing and so counts as a success. */
  lemma SkippedCountsAsSuccess(existing: nat, hasSensitiveInformation: bool, takeScreenshotOnError: bool)
    requires existing > 0
    ensures ProfileSteps(existing, SKIP, hasSensitiveInformation) == []
    ensures WasSuccessful(IsSuccessfullyScreenshot(HandlerCreated(None), takeScreenshotOnError))
  {
  }

  /** An error screenshot is never taken without a handler, and never unless enabled. */
  lemma ErrorScreenshotNeedsHandler(attempt: Attempt, takeScreenshotOnError: bool)
    ensures var v := IsSuccessfullyScreenshot(attempt, takeScreenshotOnError).verdict;
            (v.Failed? || v.Escaped?) && v.errorScreenshot == Taken ==> takeScreenshotOnError && attempt.HandlerCreated?
  {
  }

  /**
   * A timeout whose message is a single line feed, raised by a created handler: the error
   * screenshot is taken as configured, the handler is closed, and the exception escapes
   * instead of the method returning `false`.
   */
  lemma LineFeedTimeoutEscapes(takeScreenshotOnError: bool)
    ensures IsSuccessfullyScreenshot(HandlerCreated(Some(Timeout(Some("\n")))), takeScreenshotOnError)
         == Outcome(Escaped(TimedOut, ErrorShot(takeScreenshotOnError, true)), true)
  {
    LineFeedMessageThrows();
  }
}
