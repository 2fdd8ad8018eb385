/**
 * `ApplicationConfiguration`: the run's settings, read from environment variables with
 * defaults. The environment is a map from variable names to values; a thrown
 * `IllegalArgumentException` is a `Failure` carrying the reason.
 */
module Configuration {
  import opened Wrappers
  import opened Text
  import opened RedactionTypes

  type Environment = map<string, string>

  datatype ConfigError =
    | UnsupportedResolution(resolution: string)
    | NotANumber(variable: string, input: string)
    | NotPositive(variable: string, input: string)
    | TrackerCountOutOfRange(tokens: seq<string>)
    | InvalidTracker(token: string)
    | DuplicateTracker(token: string)
    | InvalidRedactionType(raw: string)
    | EmptyCommentSymbol  // `charAt(0)` on an empty value

  // ---------------------------------------------------------------------------
  // Environment lookup
  // ---------------------------------------------------------------------------

  /** `getOrDefault`: the variable's value when it is set, otherwise the default. */
  function GetOrDefault(env: Environment, name: string, default: string): string {
    if name in env then env[name] else default
  }

  /** Setting a variable decides its value, and setting any other variable changes nothing. */
  lemma GetOrDefaultOverride(env: Environment, name: string, other: string, value: string, default: string)
    ensures GetOrDefault(env[name := value], name, default) == value
    ensures other != name ==> GetOrDefault(env[other := value], name, default) == GetOrDefault(env, name, default)
    ensures name !in env ==> GetOrDefault(env, name, default) == default
  {
  }

  // ---------------------------------------------------------------------------
  // Browser dimensions
  // ---------------------------------------------------------------------------

  /** The supported resolutions as (width, height), in the order the source lists them. */
  const ResolutionPairs: seq<(string, string)> := [
    ("800", "600"), ("1024", "768"), ("1280", "720"), ("1280", "800"), ("1280", "1024"),
    ("1600", "1000"), ("1600", "1200"), ("1680", "1050"), ("1920", "1080"), ("1920", "1200"),
    ("2560", "1440")]

  /** The text `WIDTHxHEIGHT` the whitelist is made of. */
  function ResolutionText(width: string, height: string): string {
    width + "x" + height
  }

  predicate IsValidResolution(resolution: string) {
    exists k :: 0 <= k < |ResolutionPairs| && ResolutionText(ResolutionPairs[k].0, ResolutionPairs[k].1) == resolution
  }

  /**
   * `getBrowserDimensions`: `WIDTH,HEIGHT` when `WIDTHxHEIGHT` is a supported resolution,
   * otherwise an error naming the resolution.
   */
  function BrowserDimensions(env: Environment): (r: Result<string, ConfigError>)
    ensures var w, h := GetOrDefault(env, "BROWSER_WIDTH", "1680"), GetOrDefault(env, "BROWSER_HEIGHT", "1050");
      && (r.Success? <==> (w, h) in ResolutionPairs)
      && (r.Success? ==> r.value == w + "," + h)
      && (r.Failure? ==> r.error == UnsupportedResolution(w + "x" + h))
  {
    var width := GetOrDefault(env, "BROWSER_WIDTH", "1680");
    var height := GetOrDefault(env, "BROWSER_HEIGHT", "1050");
    WhitelistIsPairs(width, height);
    var resolution := ResolutionText(width, height);
    if IsValidResolution(resolution) then Success(width + "," + height) else Failure(UnsupportedResolution(resolution))
  }

  lemma ResolutionPartsHaveNoX()
    ensures forall k :: 0 <= k < |ResolutionPairs| ==> AllDigits(ResolutionPairs[k].0) && AllDigits(ResolutionPairs[k].1)
  {
  }

  /** `w + "x" + h` can equal `a + "x" + b` only as `w == a` and `h == b` when `a` and `b` hold no `x`. */
  lemma SplitAtX(w: string, h: string, a: string, b: string)
    requires 'x' !in a && 'x' !in b && w + "x" + h == a + "x" + b
    ensures w == a && h == b
  {
    var t := a + "x" + b;
    forall i | 0 <= i < |t| && i != |a| ensures t[i] != 'x' {
      if i < |a| {
        assert t[i] == a[i];
      } else {
        assert t[i] == b[i - |a| - 1];
      }
    }
    assert t[|w|] == 'x';
    assert w == t[..|w|] && a == t[..|a|];
    assert h == t[|w| + 1..] && b == t[|a| + 1..];
  }

  /** A width and height pass the whitelist exactly when they are one of the listed pairs. */
  lemma WhitelistIsPairs(width: string, height: string)
    ensures IsValidResolution(ResolutionText(width, height)) <==> (width, height) in ResolutionPairs
  {
    ResolutionPartsHaveNoX();
    if IsValidResolution(ResolutionText(width, height)) {
      var k :| 0 <= k < |ResolutionPairs| && ResolutionText(ResolutionPairs[k].0, ResolutionPairs[k].1) == ResolutionText(width, height);
      DigitsHaveNoX(ResolutionPairs[k].0);
      DigitsHaveNoX(ResolutionPairs[k].1);
      SplitAtX(width, height, ResolutionPairs[k].0, ResolutionPairs[k].1);
    }
    if (width, height) in ResolutionPairs {
      var k :| 0 <= k < |ResolutionPairs| && ResolutionPairs[k] == (width, height);
      assert ResolutionText(ResolutionPairs[k].0, ResolutionPairs[k].1) == ResolutionText(width, height);
    }
  }

  lemma DigitsHaveNoX(s: string)
    requires AllDigits(s)
    ensures 'x' !in s
  {
  }

  /** With neither variable set, the dimensions are the whitelisted default `1680,1050`. */
  lemma DefaultDimensions()
    ensures BrowserDimensions(map[]) == Success("1680,1050")
  {
    assert ResolutionPairs[7] == ("1680", "1050");
    assert GetOrDefault(map[], "BROWSER_WIDTH", "1680") == "1680";
    assert GetOrDefault(map[], "BROWSER_HEIGHT", "1050") == "1050";
    assert "1680" + "," + "1050" == "1680,1050";
  }

  // ---------------------------------------------------------------------------
  // Numbers
  // ---------------------------------------------------------------------------

  const IntMin: int := -0x8000_0000
  const IntMax: int := 0x7FFF_FFFF

  /**
   * `Integer.parseInt`: an optional `+` or `-`, then one or more decimal digits, whose value
   * must fit in 32 bits.
   */
  function ParseInt(s: string): (r: Option<int>)
    ensures r.Some? ==> IntMin <= r.value <= IntMax
    ensures r.Some? ==> |s| >= 1 && (s[0] == '-' || s[0] == '+' || IsDigit(s[0]))
  {
    if s == [] then
      None
    else
      var digits := if s[0] == '-' || s[0] == '+' then s[1..] else s;
      if digits == [] || !AllDigits(digits) then
        None
      else
        var v := if s[0] == '-' then -(DecimalValue(digits) as int) else DecimalValue(digits) as int;
        if IntMin <= v <= IntMax then Some(v) else None
  }

  /** Every 32-bit value is read back from its decimal text. */
  lemma ParseIntRoundTrip(i: int)
    requires IntMin <= i <= IntMax
    ensures ParseInt(IntToDecimal(i)) == Some(i)
  {
    var s := IntToDecimal(i);
    if i < 0 {
      var digits := NatToDecimal(-i);
      assert s == "-" + digits;
      assert s[0] == '-' && s[1..] == digits;
      assert DecimalValue(digits) == -i;
    } else {
      var digits := NatToDecimal(i);
      assert s == digits && IsDigit(s[0]);
      assert s[0] != '-' && s[0] != '+';
      assert DecimalValue(digits) == i;
    }
  }

  /** `parsePositiveInteger`: a number that is not above zero, or no number at all, is refused. */
  function ParsePositiveInteger(input: string, variable: string): (r: Result<int, ConfigError>)
    ensures r.Success? <==> ParseInt(input).Some? && ParseInt(input).value > 0
    ensures r.Success? ==> 0 < r.value <= IntMax && Some(r.value) == ParseInt(input)
    ensures ParseInt(input).None? ==> r == Failure(NotANumber(variable, input))
    ensures ParseInt(input).Some? && ParseInt(input).value <= 0 ==> r == Failure(NotPositive(variable, input))
  {
    match ParseInt(input)
    case None => Failure(NotANumber(variable, input))
    case Some(n) => if n <= 0 then Failure(NotPositive(variable, input)) else Success(n)
  }

  /** The decimal text of every positive 32-bit number is accepted with its value. */
  lemma ParsePositiveIntegerAccepts(n: nat, variable: string)
    requires 0 < n <= IntMax
    ensures ParsePositiveInteger(NatToDecimal(n), variable) == Success(n)
  {
    ParseIntRoundTrip(n);
  }

  /** `getInputTimeoutDuration`, in seconds. */
  function InputTimeoutSeconds(env: Environment): Result<int, ConfigError> {
    ParsePositiveInteger(GetOrDefault(env, "INPUT_TIMEOUT_SECONDS", "300"), "INPUT_TIMEOUT_SECONDS")
  }

  /** Without the variable the timeout is 300 seconds; a set variable must be a positive number. */
  lemma InputTimeoutDefault(env: Environment)
    ensures "INPUT_TIMEOUT_SECONDS" !in env ==> InputTimeoutSeconds(env) == Success(300)
    ensures InputTimeoutSeconds(env).Success? ==> InputTimeoutSeconds(env).value > 0
  {
    if "INPUT_TIMEOUT_SECONDS" !in env {
      assert NatToDecimal(300) == "300";
      ParsePositiveIntegerAccepts(300, "INPUT_TIMEOUT_SECONDS");
    }
  }

  // ---------------------------------------------------------------------------
  // Booleans, the comment symbol and the redaction type
  // ---------------------------------------------------------------------------

  /** `Boolean.parseBoolean`: `true` in any case is true, anything else is false. */
  predicate ParseBoolean(s: string) {
    EqualsIgnoreCase(s, "true")
  }

  /** `getBooleanEnvironmentVariable`: the default is written as `true`/`false` and read back. */
  function GetBoolean(env: Environment, name: string, default: bool): (b: bool)
    ensures name !in env ==> b == default
    ensures name in env ==> (b <==> EqualsIgnoreCase(env[name], "true"))
  {
    ParseBoolean(GetOrDefault(env, name, if default then "true" else "false"))
  }

  /** Translation is on unless disabled; forcing a visible browser and the input timeout are off unless enabled. */
  lemma BooleanDefaults()
    ensures GetBoolean(map[], "ENABLE_TRANSLATION_TO_ENGLISH", true)
    ensures !GetBoolean(map[], "FORCE_UI_BROWSER", false)
    ensures !GetBoolean(map[], "INPUT_TIMEOUT_ENABLED", false)
    ensures GetBoolean(map["FORCE_UI_BROWSER" := "TRUE"], "FORCE_UI_BROWSER", false)
  {
  }

  /** `getCsvCommentSymbol`: the first character of the value, `#` by default. */
  function CsvCommentSymbol(env: Environment): (r: Result<char, ConfigError>)
    ensures "CSV_COMMENT_SYMBOL" !in env ==> r == Success('#')
    ensures "CSV_COMMENT_SYMBOL" in env ==>
      (if env["CSV_COMMENT_SYMBOL"] == [] then r == Failure(EmptyCommentSymbol) else r == Success(env["CSV_COMMENT_SYMBOL"][0]))
  {
    var raw := GetOrDefault(env, "CSV_COMMENT_SYMBOL", "#");
    if raw == [] then Failure(EmptyCommentSymbol) else Success(raw[0])
  }

  /** `getRedactionType`: the value named by the variable, ignoring case; `TEXT` by default. */
  function GetRedactionType(env: Environment): (r: Result<RedactionType, ConfigError>)
    ensures "REDACTION_TYPE" !in env ==> r == Success(TEXT)
    ensures r.Success? ==> EqualsIgnoreCase(RedactionTypeName(r.value), GetOrDefault(env, "REDACTION_TYPE", "TEXT"))
    ensures r.Failure? ==> r.error == InvalidRedactionType(env["REDACTION_TYPE"])
  {
    var raw := GetOrDefault(env, "REDACTION_TYPE", RedactionTypeName(TEXT));
    GetRoundTrip(TEXT);
    match Get(raw)
    case None => Failure(InvalidRedactionType(raw))
    case Some(t) => Success(t)
  }

  // ---------------------------------------------------------------------------
  // Tracker execution order
  // ---------------------------------------------------------------------------

  /**
   * The order the tokens name, in the form of the loop over them: an unknown token or a
   * type already named stops with an error.
   */
  function OrderOf<T(==)>(tokens: seq<string>, find: string -> Option<T>, seen: seq<T>): Result<seq<T>, ConfigError>
    decreases |tokens|
  {
    if tokens == [] then
      Success(seen)
    else
      match find(tokens[0])
      case None => Failure(InvalidTracker(tokens[0]))
      case Some(t) => if t in seen then Failure(DuplicateTracker(tokens[0])) else OrderOf(tokens[1..], find, seen + [t])
  }

  /** No element twice. */
  predicate Distinct<T(==)>(s: seq<T>) {
    forall i, j :: 0 <= i < j < |s| ==> s[i] != s[j]
  }

  /** Every token names a type. */
  predicate AllKnown<T>(tokens: seq<string>, find: string -> Option<T>) {
    forall i :: 0 <= i < |tokens| ==> find(tokens[i]).Some?
  }

  /** The types the tokens name, in order. */
  function Found<T>(tokens: seq<string>, find: string -> Option<T>): (r: seq<T>)
    requires AllKnown(tokens, find)
    ensures |r| == |tokens| && forall i :: 0 <= i < |tokens| ==> r[i] == find(tokens[i]).value
  {
    if tokens == [] then [] else [find(tokens[0]).value] + Found(tokens[1..], find)
  }

  lemma AllKnownCons<T>(tokens: seq<string>, find: string -> Option<T>)
    requires tokens != []
    ensures AllKnown(tokens, find) <==> find(tokens[0]).Some? && AllKnown(tokens[1..], find)
  {
    if find(tokens[0]).Some? && AllKnown(tokens[1..], find) {
      forall i | 0 <= i < |tokens| ensures find(tokens[i]).Some? {
        if i > 0 {
          assert tokens[i] == tokens[1..][i - 1];
        }
      }
    }
  }

  lemma RepeatNotDistinct<T>(seen: seq<T>, t: T, rest: seq<T>)
    requires t in seen
    ensures !Distinct(seen + ([t] + rest))
  {
    var k :| 0 <= k < |seen| && seen[k] == t;
    assert (seen + ([t] + rest))[k] == t == (seen + ([t] + rest))[|seen|];
  }

  lemma DistinctSnoc<T>(seen: seq<T>, t: T)
    requires Distinct(seen) && t !in seen
    ensures Distinct(seen + [t])
  {
  }

  /**
   * The loop succeeds exactly when every token names a type and no type is named twice
   * (also not one of those already seen); it then lists the seen types followed by the
   * named ones, in token order.
   */
  lemma {:induction false} OrderOfCharacterised<T>(tokens: seq<string>, find: string -> Option<T>, seen: seq<T>)
    requires Distinct(seen)
    ensures OrderOf(tokens, find, seen).Success? <==> AllKnown(tokens, find) && Distinct(seen + Found(tokens, find))
    ensures OrderOf(tokens, find, seen).Success? ==> OrderOf(tokens, find, seen).value == seen + Found(tokens, find)
    decreases |tokens|
  {
    if tokens == [] {
      assert seen + [] == seen;
    } else {
      AllKnownCons(tokens, find);
      match find(tokens[0])
      case None =>
      case Some(t) =>
        if t in seen {
          if AllKnown(tokens, find) {
            RepeatNotDistinct(seen, t, Found(tokens[1..], find));
          }
        } else {
          DistinctSnoc(seen, t);
          OrderOfCharacterised(tokens[1..], find, seen + [t]);
          FreshStep(tokens, find, seen, t);
        }
    }
  }

  /** One step of `OrderOfCharacterised`: a new type carries the characterisation of the rest over. */
  lemma FreshStep<T>(tokens: seq<string>, find: string -> Option<T>, seen: seq<T>, t: T)
    requires tokens != [] && find(tokens[0]) == Some(t) && t !in seen
    requires AllKnown(tokens, find) <==> AllKnown(tokens[1..], find)
    requires OrderOf(tokens[1..], find, seen + [t]).Success? <==> AllKnown(tokens[1..], find) && Distinct(seen + [t] + Found(tokens[1..], find))
    requires OrderOf(tokens[1..], find, seen + [t]).Success? ==> OrderOf(tokens[1..], find, seen + [t]).value == seen + [t] + Found(tokens[1..], find)
    ensures OrderOf(tokens, find, seen).Success? <==> AllKnown(tokens, find) && Distinct(seen + Found(tokens, find))
    ensures OrderOf(tokens, find, seen).Success? ==> OrderOf(tokens, find, seen).value == seen + Found(tokens, find)
  {
    var rest := tokens[1..];
    assert OrderOf(tokens, find, seen) == OrderOf(rest, find, seen + [t]);
    if AllKnown(tokens, find) {
      FoundAfterSeen(tokens, find, seen, t);
    }
  }

  /** Naming `t` first and then the rest lists the same types as seeing `t` and then naming the rest. */
  lemma FoundAfterSeen<T>(tokens: seq<string>, find: string -> Option<T>, seen: seq<T>, t: T)
    requires tokens != [] && find(tokens[0]) == Some(t) && AllKnown(tokens, find) && AllKnown(tokens[1..], find)
    ensures seen + Found(tokens, find) == seen + [t] + Found(tokens[1..], find)
  {
    var rest := Found(tokens[1..], find);
    assert Found(tokens, find) == [t] + rest;
    assert seen + ([t] + rest) == seen + [t] + rest;
  }


  /** The execution order the raw value describes, split on commas as `String.split` does. */
  function ExecutionOrder<T(==)>(raw: string, find: string -> Option<T>, typeCount: nat): Result<seq<T>, ConfigError> {
    var tokens := JavaSplit(raw, ',');
    if |tokens| == 0 || |tokens| > typeCount then Failure(TrackerCountOutOfRange(tokens)) else OrderOf(tokens, find, [])
  }

  /**
   * The order is accepted exactly when there are between one and `typeCount` tokens, each
   * names a type and no type is named twice; it is then the named types in token order.
   */
  lemma ExecutionOrderCharacterised<T>(raw: string, find: string -> Option<T>, typeCount: nat)
    ensures var tokens := JavaSplit(raw, ',');
      && (ExecutionOrder(raw, find, typeCount).Success? <==>
            1 <= |tokens| <= typeCount && AllKnown(tokens, find) && Distinct(Found(tokens, find)))
      && (ExecutionOrder(raw, find, typeCount).Success? ==> ExecutionOrder(raw, find, typeCount).value == Found(tokens, find))
  {
    var tokens := JavaSplit(raw, ',');
    OrderOfCharacterised(tokens, find, []);
    if AllKnown(tokens, find) {
      assert [] + Found(tokens, find) == Found(tokens, find);
    }
  }

  /**
   * `getTrackerExecutionOrder`: splits the value on commas, checks there are between one
   * and `typeCount` tokens, then adds the type each token names to an insertion-ordered
   * set, failing on an unknown token or on a type that is already in the set.
   */
  method GetTrackerExecutionOrder<T(==)>(env: Environment, find: string -> Option<T>, typeCount: nat)
    returns (r: Result<seq<T>, ConfigError>)
    ensures r == ExecutionOrder(GetOrDefault(env, "TRACKER_EXECUTION_ORDER", "headless,manual,cloudflare-check"), find, typeCount)
  {
    var raw := GetOrDefault(env, "TRACKER_EXECUTION_ORDER", "headless,manual,cloudflare-check");
    var tokens := JavaSplit(raw, ',');
    if |tokens| == 0 || |tokens| > typeCount {
      return Failure(TrackerCountOutOfRange(tokens));
    }
    var order: seq<T> := [];
    var i := 0;
    while i < |tokens|
      invariant 0 <= i <= |tokens|
      invariant Distinct(order)
      invariant OrderOf(tokens, find, []) == OrderOf(tokens[i..], find, order)
    {
      assert tokens[i..][1..] == tokens[i + 1..];
      var found := find(tokens[i]);
      if found.None? {
        assert OrderOf(tokens[i..], find, order) == Failure(InvalidTracker(tokens[i]));
        return Failure(InvalidTracker(tokens[i]));
      }
      if found.value in order {
        assert OrderOf(tokens[i..], find, order) == Failure(DuplicateTracker(tokens[i]));
        return Failure(DuplicateTracker(tokens[i]));
      }
      assert OrderOf(tokens[i..], find, order) == OrderOf(tokens[i + 1..], find, order + [found.value]);
      DistinctSnoc(order, found.value);
      order := order + [found.value];
      i := i + 1;
    }
    assert tokens[i..] == [];
    r := Success(order);
  }
}
