/**
 * The Chrome launch options both browser factories build: command-line arguments, the
 * `prefs` experimental option and extension files. The Java factory and the Python
 * configuration build them separately; what they share is stated here.
 */
module BrowserOptions {
  /** A value in the `prefs` dictionary. */
  datatype PrefValue =
    | BoolPref(b: bool)
    | IntPref(i: int)
    | StringPref(s: string)
    | MapPref(m: map<string, string>)

  /** The options handed to the driver: arguments in the order added, preferences, extension files. */
  datatype ChromeOptions = ChromeOptions(arguments: seq<string>, prefs: map<string, PrefValue>, extensions: seq<string>)

  /** The directory separator of the host the browser runs on (a Linux container). */
  const Separator: string := "/"

  /** The cache directory under the storage path, shared by every browser. */
  function DiskCacheDir(storagePath: string): string {
    storagePath + Separator + "selenium"
  }

  /** The two preferences that turn off the password manager's pop-ups. */
  const PasswordManagerPrefs: map<string, PrefValue> :=
    map["credentials_enable_service" := BoolPref(false), "profile.password_manager_enabled" := BoolPref(false)]

  /** The preferences that translate every page into English, given the languages to translate from. */
  function TranslationPrefs(whitelist: map<string, string>): map<string, PrefValue> {
    map["intl.accept_languages" := StringPref("en,en_US"),
        "translate_accepted_count" := IntPref(1),
        "translate.enabled" := BoolPref(true),
        "translate_whitelists" := MapPref(whitelist)]
  }

  /** The keys the translation preferences add. */
  const TranslationPrefKeys: set<string> :=
    {"intl.accept_languages", "translate_accepted_count", "translate.enabled", "translate_whitelists"}

  /** The translation whitelist: every listed language is translated into English, and no other. */
  function Whitelist(languages: seq<string>): (w: map<string, string>)
    ensures w.Keys == set l | l in languages
    ensures forall l :: l in w ==> w[l] == "en"
  {
    map l | l in languages :: "en"
  }

  /** Listing one more language adds it to the whitelist and changes nothing else. */
  lemma WhitelistSnoc(languages: seq<string>, l: string)
    ensures Whitelist(languages + [l]) == Whitelist(languages)[l := "en"]
  {
    var w, w' := Whitelist(languages + [l]), Whitelist(languages)[l := "en"];
    assert forall x :: x in languages + [l] <==> x in languages || x == l;
    assert w.Keys == w'.Keys;
  }

  /** The loop that fills a whitelist: each listed language is put into the map with English as its target. */
  method FillWhitelist(baseLanguages: seq<string>) returns (translateWhitelists: map<string, string>)
    ensures translateWhitelists == Whitelist(baseLanguages)
  {
    translateWhitelists := map[];
    for i := 0 to |baseLanguages|
      invariant translateWhitelists == Whitelist(baseLanguages[..i])
    {
      WhitelistSnoc(baseLanguages[..i], baseLanguages[i]);
      assert baseLanguages[..i + 1] == baseLanguages[..i] + [baseLanguages[i]];
      translateWhitelists := translateWhitelists[baseLanguages[i] := "en"];
    }
    assert baseLanguages[..|baseLanguages|] == baseLanguages;
  }

  /**
   * A list holding every language of another and some new ones, and nothing else, whitelists
   * the other's languages and the new ones, and as many more as there are new ones.
   */
  lemma WhitelistExtends(longer: seq<string>, shorter: seq<string>, added: seq<string>)
    requires forall l :: l in shorter ==> l in longer
    requires forall l :: l in added ==> l in longer
    requires forall l :: l in longer ==> l in shorter || l in added
    requires forall l :: l in added ==> l !in shorter
    ensures Whitelist(longer).Keys == Whitelist(shorter).Keys + (set l | l in added)
    ensures Whitelist(shorter).Keys !! (set l | l in added)
    ensures |Whitelist(longer)| == |Whitelist(shorter)| + |set l | l in added|
  {
    var old_, new_ := Whitelist(shorter).Keys, set l | l in added;
    assert Whitelist(longer).Keys == old_ + new_;
    assert |old_ + new_| == |old_| + |new_|;
  }

  /** The translation preferences, with the given whitelist. */
  method AddTranslationPreferences(driverPreferences0: map<string, PrefValue>, whitelist: map<string, string>)
    returns (driverPreferences: map<string, PrefValue>)
    ensures driverPreferences == driverPreferences0 + TranslationPrefs(whitelist)
  {
    driverPreferences := driverPreferences0["intl.accept_languages" := StringPref("en,en_US")];
    driverPreferences := driverPreferences["translate_accepted_count" := IntPref(1)];
    driverPreferences := driverPreferences["translate.enabled" := BoolPref(true)];
    driverPreferences := driverPreferences["translate_whitelists" := MapPref(whitelist)];
  }

  /** The preferences a factory sets: the password manager's two, and the translation preferences when translating. */
  function Prefs(translate: bool, whitelist: map<string, string>): map<string, PrefValue> {
    PasswordManagerPrefs + (if translate then TranslationPrefs(whitelist) else map[])
  }

  /**
   * The password manager stays off whatever else is set, and the translation keys, the
   * whitelist among them, are there exactly when translating.
   */
  lemma PrefsShape(translate: bool, whitelist: map<string, string>)
    ensures Prefs(translate, whitelist).Keys
            == {"credentials_enable_service", "profile.password_manager_enabled"} + (if translate then TranslationPrefKeys else {})
    ensures Prefs(translate, whitelist)["credentials_enable_service"] == BoolPref(false)
    ensures Prefs(translate, whitelist)["profile.password_manager_enabled"] == BoolPref(false)
    ensures translate ==> Prefs(translate, whitelist)["translate_whitelists"] == MapPref(whitelist)
  {
  }

  /** Two arguments whose third characters differ are different arguments, whatever follows. */
  lemma ThirdCharDiffers(prefix: string, rest: string, flag: string)
    requires |prefix| >= 3 && |flag| >= 3 && prefix[2] != flag[2]
    ensures prefix + rest != flag
  {
    assert (prefix + rest)[2] == prefix[2];
  }
}
