/** The translation service: the languages found next to it on disk, the
    fallback language, the current language and its loaded translation
    tree. The disk is given to each operation as a snapshot: the directory
    listing (`None` when it cannot be read) and the language files by file
    name (`None` when a file exists but cannot be read or parsed). */
module I18nState {
  import opened Wrappers
  import opened Json
  import opened Strings

  const JsonSuffix: string := ".json"
  const DefaultLanguage: string := "en"

  /** What the process reports about the system language: the app's locale
      and the LANG, LANGUAGE and LC_ALL environment variables. */
  datatype SystemLocale = SystemLocale(locale: string, lang: Option<string>, language: Option<string>, lcAll: Option<string>)

  // ------------------------------------------------------------------ scan

  /** The listing's `.json` file names with the first `.json` removed, in
      listing order. */
  function LanguagesIn(listing: seq<string>): (r: seq<string>)
    ensures forall x :: x in r <==> exists f :: f in listing && EndsWith(f, JsonSuffix) && x == RemoveFirst(f, JsonSuffix)
  {
    if |listing| == 0 then []
    else
      var init := listing[..|listing| - 1];
      var f := listing[|listing| - 1];
      assert listing == init + [f];
      LanguagesIn(init) + (if EndsWith(f, JsonSuffix) then [RemoveFirst(f, JsonSuffix)] else [])
  }

  /** The language list and fallback after `scanAvailableLanguages`: the
      sorted language names and, when the fallback is not among them, the
      first of them; `["en"]` with the fallback untouched when the directory
      cannot be read. */
  function Scanned(listing: Option<seq<string>>, fallback: string): (seq<string>, string)
  {
    match listing
    case None => ([DefaultLanguage], fallback)
    case Some(files) =>
      var langs := Sort(LanguagesIn(files));
      if fallback !in langs && |langs| > 0 then (langs, langs[0]) else (langs, fallback)
  }

  /** The scanned list is sorted and holds exactly the listing's language
      names; a non-empty list always holds the new fallback, which is the
      old one whenever that one is listed. */
  lemma ScannedSpec(listing: Option<seq<string>>, fallback: string)
    ensures var (langs, fb) := Scanned(listing, fallback);
      && Sorted(langs)
      && (listing.None? ==> langs == [DefaultLanguage] && fb == fallback)
      && (listing.Some? ==> multiset(langs) == multiset(LanguagesIn(listing.value)))
      && (listing.Some? && |langs| > 0 ==> fb in langs)
      && (listing.Some? && fallback in langs ==> fb == fallback)
      && (listing.Some? && fallback !in langs && |langs| > 0 ==> fb == langs[0] && forall l :: l in langs ==> LexLessEq(fb, l))
  {
    if listing.Some? {
      var langs := Sort(LanguagesIn(listing.value));
      forall l | l in langs
        ensures LexLessEq(langs[0], l)
      {
        var j :| 0 <= j < |langs| && langs[j] == l;
        SortedPairwise(langs, 0, j);
      }
    }
  }

  // ------------------------------------------------------------------ load

  /** The translations after `loadLanguage(language)`: the language's file
      when it parses; otherwise, for a language other than the fallback, the
      fallback's; otherwise the translations are left as they were. */
  function Loaded(translations: JsonValue, language: string, fallback: string, files: map<string, Option<JsonValue>>): JsonValue
    decreases if language == fallback then 0 else 1
  {
    var name := language + JsonSuffix;
    if name in files && files[name].Some? then files[name].value
    else if language != fallback then Loaded(translations, fallback, fallback, files)
    else translations
  }

  /** The three outcomes of loading, by which files parse. */
  lemma LoadedSpec(translations: JsonValue, language: string, fallback: string, files: map<string, Option<JsonValue>>)
    ensures var own := language + JsonSuffix;
      var fb := fallback + JsonSuffix;
      var r := Loaded(translations, language, fallback, files);
      && (own in files && files[own].Some? ==> r == files[own].value)
      && (!(own in files && files[own].Some?) && fb in files && files[fb].Some? ==> r == files[fb].value)
      && (!(own in files && files[own].Some?) && !(fb in files && files[fb].Some?) ==> r == translations)
  {
  }

  // ---------------------------------------------------------------- detect

  /** `LANG || LANGUAGE || LC_ALL`: the first one that is set and not empty. */
  function EnvLanguage(sys: SystemLocale): (r: Option<string>)
    ensures r.Some? ==> r.value != ""
    ensures r.None? ==> (sys.lang.None? || sys.lang.value == "") && (sys.language.None? || sys.language.value == "")
                        && (sys.lcAll.None? || sys.lcAll.value == "")
  {
    if sys.lang.Some? && sys.lang.value != "" then sys.lang
    else if sys.language.Some? && sys.language.value != "" then sys.language
    else if sys.lcAll.Some? && sys.lcAll.value != "" then sys.lcAll
    else None
  }

  /** The language code a non-blank locale names: the lowercased part
      before the first `-`. */
  function LocaleCode(locale: string, lowercase: string -> string): string
  {
    lowercase(PrefixBefore(locale, '-'))
  }

  /** The language code an environment value names: the lowercased part
      before the first `_`, then before the first `.`. */
  function EnvCode(env: string, lowercase: string -> string): string
  {
    lowercase(PrefixBefore(PrefixBefore(env, '_'), '.'))
  }

  /** `detectSystemLanguage`: the fallback before the app is ready; for a
      blank locale the environment's code if available; otherwise the
      locale's code if available; the fallback in every other case.
      `lowercase` is `String.prototype.toLowerCase`. */
  function DetectedLanguage(available: seq<string>, fallback: string, appReady: bool, sys: SystemLocale,
                            lowercase: string -> string): (r: string)
    ensures r in available || r == fallback
    ensures !appReady ==> r == fallback
  {
    if !appReady then fallback
    else if IsBlank(sys.locale) then
      var env := EnvLanguage(sys);
      if env.Some? && EnvCode(env.value, lowercase) in available then EnvCode(env.value, lowercase) else fallback
    else if LocaleCode(sys.locale, lowercase) in available then LocaleCode(sys.locale, lowercase)
    else fallback
  }

  /** A non-blank locale decides alone: the environment is not consulted,
      and its code is chosen exactly when it is available. */
  lemma LocaleDecides(available: seq<string>, fallback: string, sys: SystemLocale, env: SystemLocale,
                      lowercase: string -> string)
    requires !IsBlank(sys.locale) && env.locale == sys.locale
    ensures DetectedLanguage(available, fallback, true, sys, lowercase) == DetectedLanguage(available, fallback, true, env, lowercase)
    ensures LocaleCode(sys.locale, lowercase) in available ==>
      DetectedLanguage(available, fallback, true, sys, lowercase) == LocaleCode(sys.locale, lowercase)
    ensures DetectedLanguage(available, fallback, true, sys, lowercase) != fallback ==>
      DetectedLanguage(available, fallback, true, sys, lowercase) == LocaleCode(sys.locale, lowercase)
  {
  }

  /** "de-AT" names "de" (with `lowercase` the identity on it). */
  lemma LocaleRegionIsDropped(lowercase: string -> string)
    requires lowercase("de") == "de"
    ensures DetectedLanguage(["de", "en"], "en", true, SystemLocale("de-AT", None, None, None), lowercase) == "de"
  {
    var loc := "de-AT";
    TrimEmptyIff(loc);
    assert !IsJsSpace(loc[0]);
    assert loc == "de" + "-" + "AT";
    SplitAfterPiece("de", '-', "AT");
  }

  /** A blank locale defers to the first non-empty of LANG, LANGUAGE and
      LC_ALL, whose code is chosen exactly when it is available. */
  lemma BlankLocaleUsesEnvironment(available: seq<string>, fallback: string, sys: SystemLocale, lowercase: string -> string)
    requires IsBlank(sys.locale)
    ensures var r := DetectedLanguage(available, fallback, true, sys, lowercase);
      && (EnvLanguage(sys).Some? && EnvCode(EnvLanguage(sys).value, lowercase) in available ==>
            r == EnvCode(EnvLanguage(sys).value, lowercase))
      && (r != fallback ==> EnvLanguage(sys).Some? && r == EnvCode(EnvLanguage(sys).value, lowercase))
  {
  }

  /** "fr_CA.UTF-8" names "fr": region and encoding are cut off. */
  lemma EnvCodeDropsRegionAndEncoding(lowercase: string -> string)
    requires lowercase("fr") == "fr"
    ensures EnvCode("fr_CA.UTF-8", lowercase) == "fr"
  {
    assert "fr_CA.UTF-8" == "fr" + "_" + "CA.UTF-8";
    SplitAfterPiece("fr", '_', "CA.UTF-8");
    SplitWithoutSeparator("fr", '.');
  }

  /** With an empty locale, "fr_CA.UTF-8" in LANG selects "fr". */
  lemma EnvironmentCodeIsStripped(lowercase: string -> string)
    requires lowercase("fr") == "fr"
    ensures DetectedLanguage(["en", "fr"], "en", true, SystemLocale("", Some("fr_CA.UTF-8"), None, None), lowercase) == "fr"
  {
    var sys := SystemLocale("", Some("fr_CA.UTF-8"), None, None);
    EnvCodeDropsRegionAndEncoding(lowercase);
    assert TrimStart("") == "";
    assert EnvLanguage(sys) == Some("fr_CA.UTF-8");
    BlankLocaleUsesEnvironment(["en", "fr"], "en", sys, lowercase);
  }

  // ---------------------------------------------------------------- state

  class I18n {
    var translations: JsonValue
    var currentLanguage: string
    var fallbackLanguage: string
    var availableLanguages: seq<string>
    var initialized: bool

    /** The language list is kept sorted by every operation. */
    predicate Valid()
      reads this
    {
      Sorted(availableLanguages)
    }

    /** `new I18n()`: scan the directory, then load the fallback language. */
    constructor(listing: Option<seq<string>>, files: map<string, Option<JsonValue>>)
      ensures Valid()
      ensures (availableLanguages, fallbackLanguage) == Scanned(listing, DefaultLanguage)
      ensures translations == Loaded(JObject(map[]), fallbackLanguage, fallbackLanguage, files)
      ensures currentLanguage == DefaultLanguage && !initialized
    {
      translations := JObject(map[]);
      currentLanguage := DefaultLanguage;
      fallbackLanguage := DefaultLanguage;
      availableLanguages := [];
      initialized := false;
      new;
      ScanAvailableLanguages(listing);
      LoadLanguage(fallbackLanguage, files);
    }

    /** `scanAvailableLanguages` */
    method ScanAvailableLanguages(listing: Option<seq<string>>)
      modifies this`availableLanguages, this`fallbackLanguage
      ensures Valid()
      ensures (availableLanguages, fallbackLanguage) == Scanned(listing, old(fallbackLanguage))
    {
      if listing.None? {
        availableLanguages := [DefaultLanguage];
        return;
      }
      availableLanguages := Sort(LanguagesIn(listing.value));
      if fallbackLanguage !in availableLanguages {
        if |availableLanguages| > 0 {
          fallbackLanguage := availableLanguages[0];
        }
      }
    }

    /** `refreshAvailableLanguages`: scans again. */
    method RefreshAvailableLanguages(listing: Option<seq<string>>)
      modifies this`availableLanguages, this`fallbackLanguage
      ensures Valid()
      ensures (availableLanguages, fallbackLanguage) == Scanned(listing, old(fallbackLanguage))
    {
      ScanAvailableLanguages(listing);
    }

    /** `loadLanguage(language)`, falling back once to the fallback
        language. */
    method LoadLanguage(language: string, files: map<string, Option<JsonValue>>)
      modifies this`translations
      ensures translations == Loaded(old(translations), language, fallbackLanguage, files)
      decreases if language == fallbackLanguage then 0 else 1
    {
      var name := language + JsonSuffix;
      if name in files && files[name].Some? {
        translations := files[name].value;
      } else if language != fallbackLanguage {
        LoadLanguage(fallbackLanguage, files);
      }
    }

    /** `initialize`: once only, after the app is ready, switch to the
        detected system language. */
    method Initialize(sys: SystemLocale, lowercase: string -> string, files: map<string, Option<JsonValue>>)
      modifies this`currentLanguage, this`translations, this`initialized
      ensures old(initialized) ==> unchanged(this)
      ensures !old(initialized) ==>
        && initialized
        && currentLanguage == DetectedLanguage(availableLanguages, fallbackLanguage, true, sys, lowercase)
        && translations == Loaded(old(translations), currentLanguage, fallbackLanguage, files)
    {
      if initialized {
        return;
      }
      currentLanguage := DetectedLanguage(availableLanguages, fallbackLanguage, true, sys, lowercase);
      LoadLanguage(currentLanguage, files);
      initialized := true;
    }

    /** `setLanguage(language)`: switches only to an available language. */
    method SetLanguage(language: string, files: map<string, Option<JsonValue>>)
      modifies this`currentLanguage, this`translations
      ensures language in availableLanguages ==>
        currentLanguage == language && translations == Loaded(old(translations), language, fallbackLanguage, files)
      ensures language !in availableLanguages ==> currentLanguage == old(currentLanguage) && translations == old(translations)
    {
      if language in availableLanguages {
        currentLanguage := language;
        LoadLanguage(language, files);
      }
    }

    /** `getAvailableLanguages`: a copy of the list; it changes nothing. */
    method GetAvailableLanguages() returns (r: seq<string>)
      requires Valid()
      ensures r == availableLanguages && Sorted(r)
    {
      r := availableLanguages;
    }

    /** `addAvailableLanguage(language)`: append, then sort, unless already
        listed. The result is the list with `language` inserted in order. */
    method AddAvailableLanguage(language: string)
      requires Valid()
      modifies this`availableLanguages
      ensures Valid()
      ensures language in old(availableLanguages) ==> availableLanguages == old(availableLanguages)
      ensures language !in old(availableLanguages) ==>
        && multiset(availableLanguages) == multiset(old(availableLanguages)) + multiset{language}
        && availableLanguages == Insert(language, old(availableLanguages))
    {
      if language !in availableLanguages {
        var before := availableLanguages;
        availableLanguages := Sort(availableLanguages + [language]);
        SortedUnique(availableLanguages, Insert(language, before));
      }
    }
  }

  /** Adding keeps the list free of duplicates and makes `language` listed. */
  lemma AddKeepsDistinct(languages: seq<string>, language: string)
    requires Sorted(languages)
    requires forall i, j :: 0 <= i < j < |languages| ==> languages[i] != languages[j]
    requires language !in languages
    ensures var r := Insert(language, languages);
      && language in r
      && (forall i, j :: 0 <= i < j < |r| ==> r[i] != r[j])
  {
    var r := Insert(language, languages);
    assert language in multiset(r);
    forall i, j | 0 <= i < j < |r|
      ensures r[i] != r[j]
    {
      DistinctCount(languages, r[i]);
      RepeatCounted(r, i, j);
    }
  }

  /** An element at two positions occurs at least twice. */
  lemma RepeatCounted(s: seq<string>, i: int, j: int)
    requires 0 <= i < j < |s|
    ensures s[i] == s[j] ==> multiset(s)[s[i]] >= 2
  {
    assert s == s[..i] + [s[i]] + s[i + 1..j] + [s[j]] + s[j + 1..];
  }

  lemma {:induction false} DistinctCount(s: seq<string>, x: string)
    requires forall i, j :: 0 <= i < j < |s| ==> s[i] != s[j]
    ensures multiset(s)[x] <= 1
    decreases |s|
  {
    if |s| > 0 {
      assert s == [s[0]] + s[1..];
      DistinctCount(s[1..], x);
      if s[0] == x {
        assert x !in s[1..];
      }
    }
  }
}
