/**
 * `chromeoptions_config.create_chrome_options`: the Chrome options the Python service
 * launches its browser with. The session id that names the user-data directory
 * (`uuid.uuid4()`) is a parameter; starting the browser is not part of this model.
 */
module ChromeOptionsConfig {
  import opened BrowserOptions
  import JavaDriver

  /** The languages translated into English, as the configuration lists them, ten to a row (the second row has eight). */
  const PythonLanguages0: seq<string> := ["af", "sq", "am", "ar", "hy", "az", "eu", "be", "bn", "bs"]
  const PythonLanguages1: seq<string> := ["bg", "ca", "ceb", "ny", "zh", "co", "hr", "cs"]
  const PythonLanguages2: seq<string> := ["da", "nl", "eo", "et", "tl", "fi", "fr", "fy", "gl", "ka"]
  const PythonLanguages3: seq<string> := ["de", "el", "gu", "ht", "ha", "haw", "he", "iw", "hi", "hmn"]
  const PythonLanguages4: seq<string> := ["hu", "is", "ig", "id", "ga", "it", "ja", "jw", "kn", "kk"]
  const PythonLanguages5: seq<string> := ["km", "ko", "ku", "ky", "lo", "la", "lv", "lt", "lb", "mk"]
  const PythonLanguages6: seq<string> := ["mg", "ms", "ml", "mt", "mi", "mr", "mn", "my", "ne", "no"]
  const PythonLanguages7: seq<string> := ["ps", "fa", "pl", "pt", "pa", "ro", "ru", "sm", "gd", "sr"]
  const PythonLanguages8: seq<string> := ["st", "sn", "sd", "si", "sk", "sl", "so", "es", "su", "sw"]
  const PythonLanguages9: seq<string> := ["sv", "tg", "ta", "te", "th", "tr", "uk", "ur", "uz", "vi"]
  const PythonLanguages10: seq<string> := ["cy", "xh", "yi", "yo", "zu"]
  const BaseLanguages: seq<string> :=
    PythonLanguages0 + PythonLanguages1 + PythonLanguages2 + PythonLanguages3 + PythonLanguages4 + PythonLanguages5 + PythonLanguages6 + PythonLanguages7 + PythonLanguages8 + PythonLanguages9 + PythonLanguages10

  /** The languages the Python list has and the Java factory's does not. */
  const AddedLanguages: seq<string> := ["ceb", "haw", "hmn", "ht", "tl"]

  /** The user-data directory: a directory of its own for each session under the storage path. */
  function UserDataDir(storagePath: string, sessionId: string): string {
    storagePath + Separator + "session_" + sessionId
  }

  /** The nine arguments every browser starts with, in order. */
  function FixedArguments(storagePath: string, browserDimensions: string, sessionId: string): seq<string> {
    ["--window-size=" + browserDimensions,
     "--disk-cache-dir=" + DiskCacheDir(storagePath),
     "--user-data-dir=" + UserDataDir(storagePath, sessionId),
     "--no-sandbox",
     "--disable-dev-shm-usage",
     "--disable-gpu",
     "--disable-notifications",
     "--disable-blink-features=AutomationControlled",
     "--ignore-certificate-errors"]
  }

  /** The arguments `create_chrome_options` adds, in order: the nine, then the language flag when translating. */
  function PythonArguments(storagePath: string, browserDimensions: string, enableTranslation: bool, sessionId: string): seq<string> {
    FixedArguments(storagePath, browserDimensions, sessionId) + (if enableTranslation then ["--lang=en"] else [])
  }

  /** The nine `add_argument` calls. */
  method AddFixedArguments(storagePath: string, browserDimensions: string, sessionId: string) returns (arguments: seq<string>)
    ensures arguments == FixedArguments(storagePath, browserDimensions, sessionId)
  {
    var userDataDir := UserDataDir(storagePath, sessionId);
    var diskCacheDir := DiskCacheDir(storagePath);
    arguments := ["--window-size=" + browserDimensions];
    arguments := arguments + ["--disk-cache-dir=" + diskCacheDir];
    arguments := arguments + ["--user-data-dir=" + userDataDir];
    arguments := arguments + ["--no-sandbox"];
    arguments := arguments + ["--disable-dev-shm-usage"];
    arguments := arguments + ["--disable-gpu"];
    arguments := arguments + ["--disable-notifications"];
    arguments := arguments + ["--disable-blink-features=AutomationControlled"];
    arguments := arguments + ["--ignore-certificate-errors"];
  }

  /**
   * `create_chrome_options`: the nine fixed arguments; the password manager off; when
   * translating, the language flag, the translation preferences and the whitelist. No
   * extension is installed.
   */
  method CreateChromeOptions(storagePath: string, browserDimensions: string, enableTranslation: bool, sessionId: string)
    returns (options: ChromeOptions)
    ensures options.arguments == PythonArguments(storagePath, browserDimensions, enableTranslation, sessionId)
    ensures options.prefs == Prefs(enableTranslation, Whitelist(BaseLanguages))
    ensures options.extensions == []
  {
    var arguments := AddFixedArguments(storagePath, browserDimensions, sessionId);
    var driverPreferences: map<string, PrefValue> :=
      map["credentials_enable_service" := BoolPref(false), "profile.password_manager_enabled" := BoolPref(false)];
    if enableTranslation {
      arguments := arguments + ["--lang=en"];
      var translateWhitelists := FillWhitelist(BaseLanguages);
      driverPreferences := AddTranslationPreferences(driverPreferences, translateWhitelists);
    }
    options := ChromeOptions(arguments, driverPreferences, []);
  }

  /**
   * The nine fixed arguments always come first and in the same order; the language flag is
   * the only other argument, there exactly when translating.
   */
  lemma ArgumentsShape(storagePath: string, browserDimensions: string, enableTranslation: bool, sessionId: string)
    ensures var args := PythonArguments(storagePath, browserDimensions, enableTranslation, sessionId);
      && args[..9] == FixedArguments(storagePath, browserDimensions, sessionId)
      && |args| == (if enableTranslation then 10 else 9)
      && ("--lang=en" in args <==> enableTranslation)
  {
    ThirdCharDiffers("--window-size=", browserDimensions, "--lang=en");
    ThirdCharDiffers("--disk-cache-dir=", DiskCacheDir(storagePath), "--lang=en");
    ThirdCharDiffers("--user-data-dir=", UserDataDir(storagePath, sessionId), "--lang=en");
  }

  /** Different sessions get different user-data directories; the cache directory is the same for all. */
  lemma SessionDirectoriesDiffer(storagePath: string, sessionId: string, otherId: string)
    requires sessionId != otherId
    ensures UserDataDir(storagePath, sessionId) != UserDataDir(storagePath, otherId)
    ensures FixedArguments(storagePath, "", sessionId)[1] == FixedArguments(storagePath, "", otherId)[1]
  {
    var prefix := storagePath + Separator + "session_";
    assert UserDataDir(storagePath, sessionId)[|prefix|..] == sessionId;
    assert UserDataDir(storagePath, otherId)[|prefix|..] == otherId;
  }

  /** Every language of the Java factory's list is in this list. */
  lemma JavaLanguagesListed()
    ensures forall l :: l in JavaDriver.JavaBaseLanguages ==> l in BaseLanguages
  {
    assert forall l :: l in JavaDriver.JavaLanguages0 ==> l in BaseLanguages;
    assert forall l :: l in JavaDriver.JavaLanguages1 ==> l in BaseLanguages;
    assert forall l :: l in JavaDriver.JavaLanguages2 ==> l in BaseLanguages;
    assert forall l :: l in JavaDriver.JavaLanguages3 ==> l in BaseLanguages;
    assert forall l :: l in JavaDriver.JavaLanguages4 ==> l in BaseLanguages;
    assert forall l :: l in JavaDriver.JavaLanguages5 ==> l in BaseLanguages;
    assert forall l :: l in JavaDriver.JavaLanguages6 ==> l in BaseLanguages;
    assert forall l :: l in JavaDriver.JavaLanguages7 ==> l in BaseLanguages;
    assert forall l :: l in JavaDriver.JavaLanguages8 ==> l in BaseLanguages;
    assert forall l :: l in JavaDriver.JavaLanguages9 ==> l in BaseLanguages;
  }

  /** Every language of the first six rows is in the Java factory's list or among the added ones. */
  lemma FirstRowsOldOrAdded()
    ensures forall l :: l in PythonLanguages0 + PythonLanguages1 + PythonLanguages2 + PythonLanguages3 + PythonLanguages4 + PythonLanguages5
                        ==> l in JavaDriver.JavaBaseLanguages || l in AddedLanguages
  {
    assert forall l :: l in PythonLanguages0 ==> l in JavaDriver.JavaBaseLanguages || l in AddedLanguages;
    assert forall l :: l in PythonLanguages1 ==> l in JavaDriver.JavaBaseLanguages || l in AddedLanguages;
    assert forall l :: l in PythonLanguages2 ==> l in JavaDriver.JavaBaseLanguages || l in AddedLanguages;
    assert forall l :: l in PythonLanguages3 ==> l in JavaDriver.JavaBaseLanguages || l in AddedLanguages;
    assert forall l :: l in PythonLanguages4 ==> l in JavaDriver.JavaBaseLanguages || l in AddedLanguages;
    assert forall l :: l in PythonLanguages5 ==> l in JavaDriver.JavaBaseLanguages || l in AddedLanguages;
  }

  /** Every language of the last five rows is in the Java factory's list or among the added ones. */
  lemma LastRowsOldOrAdded()
    ensures forall l :: l in PythonLanguages6 + PythonLanguages7 + PythonLanguages8 + PythonLanguages9 + PythonLanguages10
                        ==> l in JavaDriver.JavaBaseLanguages || l in AddedLanguages
  {
    assert forall l :: l in PythonLanguages6 ==> l in JavaDriver.JavaBaseLanguages || l in AddedLanguages;
    assert forall l :: l in PythonLanguages7 ==> l in JavaDriver.JavaBaseLanguages || l in AddedLanguages;
    assert forall l :: l in PythonLanguages8 ==> l in JavaDriver.JavaBaseLanguages || l in AddedLanguages;
    assert forall l :: l in PythonLanguages9 ==> l in JavaDriver.JavaBaseLanguages || l in AddedLanguages;
    assert forall l :: l in PythonLanguages10 ==> l in JavaDriver.JavaBaseLanguages || l in AddedLanguages;
  }

  /** Every language of this list is in the Java factory's list or among the added ones. */
  lemma OnlyAddedLanguagesNew()
    ensures forall l :: l in BaseLanguages ==> l in JavaDriver.JavaBaseLanguages || l in AddedLanguages
  {
    FirstRowsOldOrAdded();
    LastRowsOldOrAdded();
    assert BaseLanguages == (PythonLanguages0 + PythonLanguages1 + PythonLanguages2 + PythonLanguages3 + PythonLanguages4 + PythonLanguages5)
                          + (PythonLanguages6 + PythonLanguages7 + PythonLanguages8 + PythonLanguages9 + PythonLanguages10);
  }

  /** A two-letter code other than `ht` and `tl`. */
  predicate TwoLettersNotAdded(l: string) {
    |l| == 2 && (l[0] == 'h' ==> l[1] != 't') && (l[0] == 't' ==> l[1] != 'l')
  }

  lemma JavaRow0NotAdded()
    ensures forall l :: l in JavaDriver.JavaLanguages0 ==> TwoLettersNotAdded(l)
  {
  }

  lemma JavaRow1NotAdded()
    ensures forall l :: l in JavaDriver.JavaLanguages1 ==> TwoLettersNotAdded(l)
  {
  }

  lemma JavaRow2NotAdded()
    ensures forall l :: l in JavaDriver.JavaLanguages2 ==> TwoLettersNotAdded(l)
  {
  }

  lemma JavaRow3NotAdded()
    ensures forall l :: l in JavaDriver.JavaLanguages3 ==> TwoLettersNotAdded(l)
  {
  }

  lemma JavaRow4NotAdded()
    ensures forall l :: l in JavaDriver.JavaLanguages4 ==> TwoLettersNotAdded(l)
  {
  }

  lemma JavaRow5NotAdded()
    ensures forall l :: l in JavaDriver.JavaLanguages5 ==> TwoLettersNotAdded(l)
  {
  }

  lemma JavaRow6NotAdded()
    ensures forall l :: l in JavaDriver.JavaLanguages6 ==> TwoLettersNotAdded(l)
  {
  }

  lemma JavaRow7NotAdded()
    ensures forall l :: l in JavaDriver.JavaLanguages7 ==> TwoLettersNotAdded(l)
  {
  }

  lemma JavaRow8NotAdded()
    ensures forall l :: l in JavaDriver.JavaLanguages8 ==> TwoLettersNotAdded(l)
  {
  }

  lemma JavaRow9NotAdded()
    ensures forall l :: l in JavaDriver.JavaLanguages9 ==> TwoLettersNotAdded(l)
  {
  }

  /** None of the added languages is in the Java factory's list. */
  lemma AddedLanguagesAreNew()
    ensures forall l :: l in AddedLanguages ==> l !in JavaDriver.JavaBaseLanguages
  {
    JavaRow0NotAdded();
    JavaRow1NotAdded();
    JavaRow2NotAdded();
    JavaRow3NotAdded();
    JavaRow4NotAdded();
    JavaRow5NotAdded();
    JavaRow6NotAdded();
    JavaRow7NotAdded();
    JavaRow8NotAdded();
    JavaRow9NotAdded();
    assert forall l :: l in JavaDriver.JavaBaseLanguages ==> TwoLettersNotAdded(l);
  }

  lemma FiveAdded()
    ensures |set l | l in AddedLanguages| == 5
  {
    assert (set l | l in AddedLanguages) == {"ceb", "haw", "hmn", "ht", "tl"};
  }

  /**
   * The Python whitelist is the Java factory's with exactly the five added languages more:
   * both translate every language of the Java list, and the Python one has five more entries.
   */
  lemma WhitelistsCompared()
    ensures Whitelist(BaseLanguages).Keys == Whitelist(JavaDriver.JavaBaseLanguages).Keys + (set l | l in AddedLanguages)
    ensures Whitelist(JavaDriver.JavaBaseLanguages).Keys !! (set l | l in AddedLanguages)
    ensures |Whitelist(BaseLanguages)| == |Whitelist(JavaDriver.JavaBaseLanguages)| + 5
  {
    JavaLanguagesListed();
    OnlyAddedLanguagesNew();
    AddedLanguagesAreNew();
    AddedLanguagesListed();
    FiveAdded();
    WhitelistExtends(BaseLanguages, JavaDriver.JavaBaseLanguages, AddedLanguages);
  }

  lemma AddedLanguagesListed()
    ensures forall l :: l in AddedLanguages ==> l in BaseLanguages
  {
  }
}
