/**
 * `JavaWebDriverFactory`: the Chrome options the Java application launches its browser
 * with. The configuration values, the tracker's type, the extension files and the clock
 * reading that names the user-data directory are parameters; starting the browser is not
 * part of this model.
 */
module JavaDriver {
  import opened Text
  import opened TrackerTypes
  import opened BrowserOptions

  /** The configuration values the factory reads. */
  datatype DriverConfig = DriverConfig(
    browserDimensions: string,
    browserDataStoragePath: string,
    enableTranslationToEnglish: bool,
    forceUiBrowser: bool)

  /** `canTrackerUseHeadlessBrowser`: headless unless a visible browser is forced or the tracker needs a person at it. */
  predicate CanTrackerUseHeadlessBrowser(forceUiBrowser: bool, trackerType: TrackerType) {
    !(forceUiBrowser || trackerType == MANUAL)
  }

  /** The flags that hide automation and noise, always added last. */
  const AutomationFlags: seq<string> :=
    ["--disable-blink-features=AutomationControlled", "--disable-gpu", "--disable-notifications", "--ignore-certificate-errors"]

  /** The languages translated into English, as the factory lists them, ten to a row. */
  const JavaLanguages0: seq<string> := ["af", "am", "ar", "az", "be", "bg", "bn", "bs", "ca", "co"]
  const JavaLanguages1: seq<string> := ["cs", "cy", "da", "de", "el", "eo", "es", "et", "eu", "fa"]
  const JavaLanguages2: seq<string> := ["fi", "fr", "fy", "ga", "gd", "gl", "gu", "ha", "he", "hi"]
  const JavaLanguages3: seq<string> := ["hr", "hu", "hy", "id", "ig", "is", "it", "iw", "ja", "jw"]
  const JavaLanguages4: seq<string> := ["ka", "kk", "km", "kn", "ko", "ku", "ky", "la", "lb", "lo"]
  const JavaLanguages5: seq<string> := ["lt", "lv", "mg", "mi", "mk", "ml", "mn", "mr", "ms", "mt"]
  const JavaLanguages6: seq<string> := ["my", "ne", "nl", "no", "ny", "pa", "pl", "ps", "pt", "ro"]
  const JavaLanguages7: seq<string> := ["ru", "sd", "si", "sk", "sl", "sm", "sn", "so", "sq", "sr"]
  const JavaLanguages8: seq<string> := ["st", "su", "sv", "sw", "ta", "te", "tg", "th", "tr", "uk"]
  const JavaLanguages9: seq<string> := ["ur", "uz", "vi", "xh", "yi", "yo", "zh", "zu"]
  const JavaBaseLanguages: seq<string> :=
    JavaLanguages0 + JavaLanguages1 + JavaLanguages2 + JavaLanguages3 + JavaLanguages4 + JavaLanguages5 + JavaLanguages6 + JavaLanguages7 + JavaLanguages8 + JavaLanguages9

  /** `getTranslationWhitelist`: each listed language is put into the map with English as its target. */
  method GetTranslationWhitelist() returns (translateWhitelists: map<string, string>)
    ensures translateWhitelists == Whitelist(JavaBaseLanguages)
  {
    translateWhitelists := FillWhitelist(JavaBaseLanguages);
  }

  /** The user-data directory: a fresh directory under the storage path, named by the clock reading. */
  function UserDataDir(storagePath: string, nanoTime: int): string {
    storagePath + Separator + IntToDecimal(nanoTime)
  }

  /** The window size, then the headless pair when the tracker may run headless. */
  function DisplayArguments(config: DriverConfig, trackerType: TrackerType): seq<string> {
    ["--window-size=" + config.browserDimensions]
    + (if CanTrackerUseHeadlessBrowser(config.forceUiBrowser, trackerType) then ["--headless=new", "--start-maximized"] else [])
  }

  /** The cache and user-data directories, then the two flags for running in a container. */
  function StorageArguments(storagePath: string, nanoTime: int): seq<string> {
    ["--disk-cache-dir=" + DiskCacheDir(storagePath),
     "--user-data-dir=" + UserDataDir(storagePath, nanoTime),
     "--no-sandbox",
     "--disable-dev-shm-usage"]
  }

  /** The language flag, when translating. */
  function LanguageArguments(enableTranslationToEnglish: bool): seq<string> {
    if enableTranslationToEnglish then ["--lang=en"] else []
  }

  /** The arguments `createDriver` adds, in order. */
  function JavaArguments(config: DriverConfig, trackerType: TrackerType, nanoTime: int): seq<string> {
    DisplayArguments(config, trackerType)
    + StorageArguments(config.browserDataStoragePath, nanoTime)
    + LanguageArguments(config.enableTranslationToEnglish)
    + AutomationFlags
  }

  /** The user-defined options: the window size, and the headless pair when the tracker may run headless. */
  method AddDisplayArguments(arguments0: seq<string>, config: DriverConfig, trackerType: TrackerType) returns (arguments: seq<string>)
    ensures arguments == arguments0 + DisplayArguments(config, trackerType)
  {
    arguments := arguments0 + ["--window-size=" + config.browserDimensions];
    if CanTrackerUseHeadlessBrowser(config.forceUiBrowser, trackerType) {
      arguments := arguments + ["--headless=new"];
      arguments := arguments + ["--start-maximized"];
    }
  }

  /** The cache directory, then the user-data directory and the two flags for running in a container. */
  method AddStorageArguments(arguments0: seq<string>, storagePath: string, nanoTime: int) returns (arguments: seq<string>)
    ensures arguments == arguments0 + StorageArguments(storagePath, nanoTime)
  {
    arguments := arguments0 + ["--disk-cache-dir=" + DiskCacheDir(storagePath)];
    arguments := arguments + ["--user-data-dir=" + UserDataDir(storagePath, nanoTime)];
    arguments := arguments + ["--no-sandbox"];
    arguments := arguments + ["--disable-dev-shm-usage"];
  }

  /** The preferences: the password manager off, and the translation preferences when translating. */
  method DriverPreferences(enableTranslationToEnglish: bool) returns (driverPreferences: map<string, PrefValue>)
    ensures driverPreferences == Prefs(enableTranslationToEnglish, Whitelist(JavaBaseLanguages))
  {
    driverPreferences := map[];
    driverPreferences := driverPreferences["credentials_enable_service" := BoolPref(false)];
    driverPreferences := driverPreferences["profile.password_manager_enabled" := BoolPref(false)];
    assert driverPreferences == PasswordManagerPrefs;
    if enableTranslationToEnglish {
      var whitelist := GetTranslationWhitelist();
      driverPreferences := AddTranslationPreferences(driverPreferences, whitelist);
    }
  }

  /** The flags that hide automation and noise. */
  method AddAutomationFlags(arguments0: seq<string>) returns (arguments: seq<string>)
    ensures arguments == arguments0 + AutomationFlags
  {
    arguments := arguments0 + ["--disable-blink-features=AutomationControlled"];
    arguments := arguments + ["--disable-gpu"];
    arguments := arguments + ["--disable-notifications"];
    arguments := arguments + ["--ignore-certificate-errors"];
  }

  /** One extension file per extension, in iteration order. */
  method AddExtensions(extensions: seq<string>) returns (extensionFiles: seq<string>)
    ensures extensionFiles == extensions
  {
    extensionFiles := [];
    for i := 0 to |extensions|
      invariant extensionFiles == extensions[..i]
    {
      assert extensions[..i + 1] == extensions[..i] + [extensions[i]];
      extensionFiles := extensionFiles + [extensions[i]];
    }
    assert extensions[..|extensions|] == extensions;
  }

  /**
   * `createDriver`: the window size first; the headless pair only when the tracker may run
   * headless; the cache and user-data directories and the two flags for running in a
   * container; the language flag and the translation preferences only when translating;
   * the automation flags; then one extension file per extension, in order.
   */
  method CreateDriver(config: DriverConfig, trackerType: TrackerType, extensions: seq<string>, nanoTime: int)
    returns (options: ChromeOptions)
    ensures options.arguments == JavaArguments(config, trackerType, nanoTime)
    ensures options.prefs == Prefs(config.enableTranslationToEnglish, Whitelist(JavaBaseLanguages))
    ensures options.extensions == extensions
  {
    var arguments := AddDisplayArguments([], config, trackerType);
    assert arguments == DisplayArguments(config, trackerType);
    arguments := AddStorageArguments(arguments, config.browserDataStoragePath, nanoTime);
    ghost var beforeLanguage := arguments;
    if config.enableTranslationToEnglish {
      arguments := arguments + ["--lang=en"];
    }
    assert arguments == beforeLanguage + LanguageArguments(config.enableTranslationToEnglish);
    var driverPreferences := DriverPreferences(config.enableTranslationToEnglish);
    arguments := AddAutomationFlags(arguments);
    var extensionFiles := AddExtensions(extensions);
    options := ChromeOptions(arguments, driverPreferences, extensionFiles);
  }

  /** The headless pair comes only from the display arguments. */
  lemma HeadlessPairOnlyInDisplay(storagePath: string, nanoTime: int, enableTranslationToEnglish: bool, flag: string)
    requires flag == "--headless=new" || flag == "--start-maximized"
    ensures flag !in StorageArguments(storagePath, nanoTime)
    ensures flag !in LanguageArguments(enableTranslationToEnglish)
    ensures flag !in AutomationFlags
  {
    ThirdCharDiffers("--disk-cache-dir=", DiskCacheDir(storagePath), flag);
    ThirdCharDiffers("--user-data-dir=", UserDataDir(storagePath, nanoTime), flag);
  }

  /** The language flag comes only from the language arguments. */
  lemma LanguageFlagOnlyInLanguage(config: DriverConfig, trackerType: TrackerType, nanoTime: int)
    ensures "--lang=en" !in DisplayArguments(config, trackerType)
    ensures "--lang=en" !in StorageArguments(config.browserDataStoragePath, nanoTime)
    ensures "--lang=en" !in AutomationFlags
  {
    ThirdCharDiffers("--window-size=", config.browserDimensions, "--lang=en");
    ThirdCharDiffers("--disk-cache-dir=", DiskCacheDir(config.browserDataStoragePath), "--lang=en");
    ThirdCharDiffers("--user-data-dir=", UserDataDir(config.browserDataStoragePath, nanoTime), "--lang=en");
  }

  /** The headless pair is added exactly when the tracker may run headless. */
  lemma HeadlessIff(config: DriverConfig, trackerType: TrackerType, nanoTime: int)
    ensures var args := JavaArguments(config, trackerType, nanoTime);
      && ("--headless=new" in args <==> CanTrackerUseHeadlessBrowser(config.forceUiBrowser, trackerType))
      && ("--start-maximized" in args <==> CanTrackerUseHeadlessBrowser(config.forceUiBrowser, trackerType))
  {
    var path, translate := config.browserDataStoragePath, config.enableTranslationToEnglish;
    HeadlessPairOnlyInDisplay(path, nanoTime, translate, "--headless=new");
    HeadlessPairOnlyInDisplay(path, nanoTime, translate, "--start-maximized");
    ThirdCharDiffers("--window-size=", config.browserDimensions, "--headless=new");
    ThirdCharDiffers("--window-size=", config.browserDimensions, "--start-maximized");
  }

  /** The language flag is added exactly when translating. */
  lemma LanguageIff(config: DriverConfig, trackerType: TrackerType, nanoTime: int)
    ensures "--lang=en" in JavaArguments(config, trackerType, nanoTime) <==> config.enableTranslationToEnglish
  {
    LanguageFlagOnlyInLanguage(config, trackerType, nanoTime);
  }

  /**
   * The arguments start with the window size and end with the automation flags, and the
   * directories and the container flags are always among them.
   */
  lemma AlwaysPresent(config: DriverConfig, trackerType: TrackerType, nanoTime: int)
    ensures var args := JavaArguments(config, trackerType, nanoTime);
      && args[0] == "--window-size=" + config.browserDimensions
      && args[|args| - 4..] == AutomationFlags
      && forall a :: a in StorageArguments(config.browserDataStoragePath, nanoTime) ==> a in args
  {
    var display := DisplayArguments(config, trackerType);
    var rest := StorageArguments(config.browserDataStoragePath, nanoTime) + LanguageArguments(config.enableTranslationToEnglish);
    assert JavaArguments(config, trackerType, nanoTime) == display + rest + AutomationFlags;
  }
}
