// The main process's shared state (src/state.js): the signed-in user, the
// application settings and their file, and the translation cache.
//
// The three classes hold static fields in the source; here each is an
// object. The settings file and the language files are inputs: the text
// of the settings file, a `parse` standing for JSON.parse, and a `files`
// function telling what reading and parsing `languages/<lang>.json` gives.
// Console output is left out, but the translated log lines are not: the
// source looks them up with getMessage, which may load a language file and
// so change the state.

module State {
  import opened Common

  // ---------------------------------------------------------------------
  // LocalUserBase
  // ---------------------------------------------------------------------

  /** The argument of setUserData: None for a field left out (or null). */
  datatype UserData = UserData(id: Option<int>, username: Option<string>, premiumUntil: Option<string>)

  class LocalUserBase {
    var id: Option<int>
    var username: Option<string>
    var premiumUntil: Option<string>

    constructor()
      ensures id.None? && username.None? && premiumUntil.None?
    {
      id, username, premiumUntil := None, None, None;
    }

    /** setUserData: every field is replaced, a field left out by null. */
    method SetUserData(data: UserData)
      modifies this
      ensures id == data.id && username == data.username && premiumUntil == data.premiumUntil
    {
      id := data.id;
      username := data.username;
      premiumUntil := data.premiumUntil;
    }
  }

  // ---------------------------------------------------------------------
  // The state of ApplicationSettings and LanguageVariables as a value
  // ---------------------------------------------------------------------

  /** A settings object; values other than strings are not modelled. */
  type Settings = map<string, string>

  const DefaultSettings: Settings := map["language" := "ru", "theme" := "dark"]

  /** A language file: messages by section, then by code. */
  type Translations = map<string, map<string, string>>

  /** What `_loadLanguageFile` meets: a file it cannot read, text JSON.parse
      rejects, a falsy JSON value (null, false, 0, ""), or an object. */
  datatype LangFile = Unreadable | Malformed | Falsy | Parsed(translations: Translations)

  /** The settings (`settings`, and the object last written to the settings
      file by saveSettings, if any) and the translation cache (`_cache`,
      `_loadedLang`). */
  datatype Snapshot = Snapshot(settings: Settings, stored: Option<Settings>,
                               cache: map<string, Translations>, loadedLang: Option<string>)

  /** Every default key is present: Object.assign keeps them and
      updateSetting only changes existing keys. */
  predicate HasDefaults(s: Snapshot) {
    forall k :: k in DefaultSettings ==> k in s.settings
  }

  /** `this.settings.language`; undefined makes getMessage use its default 'ru'. */
  function Language(s: Snapshot): string {
    if "language" in s.settings then s.settings["language"] else "ru"
  }

  /** `Object.assign({}, defaultSettings, loaded)`: the saved keys win. */
  function Merge(loaded: Settings): (r: Settings)
    ensures forall k :: k in r <==> k in DefaultSettings || k in loaded
    ensures forall k :: k in loaded ==> r[k] == loaded[k]
    ensures forall k :: k in DefaultSettings && k !in loaded ==> r[k] == DefaultSettings[k]
  {
    DefaultSettings + loaded
  }

  /** The success path of updateSetting: change the key and save. */
  function Store(s: Snapshot, key: string, value: string): (r: Snapshot)
    requires key in s.settings
    ensures r.settings.Keys == s.settings.Keys
    ensures r.settings[key] == value && forall k :: k in s.settings && k != key ==> r.settings[k] == s.settings[k]
    ensures r.stored == Some(r.settings) && r.cache == s.cache && r.loadedLang == s.loadedLang
  {
    var settings := s.settings[key := value];
    s.(settings := settings, stored := Some(settings))
  }

  const LoadErrorPrefix := "[STATE] Ошибка при загрузке языка. Код: "

  /** The message for a code, or `section.code` when the section or the
      code is missing or the message is empty. */
  function Lookup(t: Translations, section: string, code: string): (r: string)
    ensures section in t && code in t[section] && t[section][code] != "" ==> r == t[section][code]
    ensures !(section in t && code in t[section] && t[section][code] != "") ==> r == section + "." + code
  {
    if section in t && code in t[section] && t[section][code] != "" then t[section][code]
    else section + "." + code
  }

  /** The cache can answer without reading a file. */
  predicate Current(s: Snapshot, lang: string) {
    lang in s.cache && s.loadedLang == Some(lang)
  }

  /** getMessage: the message, and the state afterwards. A load first
      stores `lang` as the language setting (the file was read, whatever
      JSON.parse then makes of it); only a truthy result is cached. */
  function GetMessageSpec(s: Snapshot, code: string, section: string, lang: string, files: string -> LangFile): (string, Snapshot)
    requires HasDefaults(s)
  {
    if Current(s, lang) then (Lookup(s.cache[lang], section, code), s)
    else
      match files(lang)
      case Unreadable => (LoadErrorPrefix + code, s)
      case Malformed => (LoadErrorPrefix + code, Store(s, "language", lang))
      case Falsy => (LoadErrorPrefix + code, Store(s, "language", lang))
      case Parsed(t) =>
        var s1 := Store(s, "language", lang);
        (Lookup(t, section, code), s1.(cache := s1.cache[lang := t], loadedLang := Some(lang)))
  }

  /** updateSetting: true and saved for a key that exists; otherwise false,
      after the translated error message is looked up. */
  function UpdateSettingSpec(s: Snapshot, key: string, value: string, files: string -> LangFile): (bool, Snapshot)
    requires HasDefaults(s)
  {
    if key in s.settings then (true, Store(s, key, value))
    else (false, GetMessageSpec(s, "SETTINGS_UPDATE_ERROR", "errors", Language(s), files).1)
  }

  /** loadSettings: `savedData` is the file's text, None when it does not
      exist; `parse` is JSON.parse, None when it throws. */
  function LoadSettingsSpec(s: Snapshot, savedData: Option<string>, parse: string -> Option<Settings>,
                            files: string -> LangFile): Snapshot
    requires HasDefaults(s)
  {
    if savedData.None? || savedData.value == "" then s
    else
      match parse(savedData.value)
      case Some(loaded) =>
        var s1 := s.(settings := Merge(loaded));
        GetMessageSpec(s1, "SETTINGS_LOADED", "success", Language(s1), files).1
      case None =>
        GetMessageSpec(s, "SETTINGS_LOAD_ERROR", "errors", Language(s), files).1
  }

  // ---------------------------------------------------------------------
  // What the operations promise
  // ---------------------------------------------------------------------

  /** getMessage keeps every default key. */
  lemma GetMessageKeepsDefaults(s: Snapshot, code: string, section: string, lang: string, files: string -> LangFile)
    requires HasDefaults(s)
    ensures var r := GetMessageSpec(s, code, section, lang, files).1;
      HasDefaults(r) && r.settings.Keys == s.settings.Keys
  {
  }

  /** With the language cached and current, getMessage reads no file and
      changes nothing. */
  lemma GetMessageCached(s: Snapshot, code: string, section: string, lang: string, files: string -> LangFile)
    requires HasDefaults(s) && Current(s, lang)
    ensures GetMessageSpec(s, code, section, lang, files) == (Lookup(s.cache[lang], section, code), s)
  {
  }

  /** After getMessage the language is cached and current exactly when it
      was already or its file parsed to an object; then the message comes
      from the cache, and a load made it the language setting. */
  lemma GetMessageCurrent(s: Snapshot, code: string, section: string, lang: string, files: string -> LangFile)
    requires HasDefaults(s)
    ensures var (msg, r) := GetMessageSpec(s, code, section, lang, files);
      && (Current(r, lang) <==> Current(s, lang) || files(lang).Parsed?)
      && (Current(r, lang) ==> msg == Lookup(r.cache[lang], section, code))
      && (!Current(s, lang) && !files(lang).Unreadable? ==> r.settings["language"] == lang && r.stored == Some(r.settings))
  {
  }

  /** A failed load returns the error text and leaves the cache alone;
      only an unreadable file also leaves the settings alone. */
  lemma GetMessageLoadFails(s: Snapshot, code: string, section: string, lang: string, files: string -> LangFile)
    requires HasDefaults(s) && !Current(s, lang) && !files(lang).Parsed?
    ensures var (msg, r) := GetMessageSpec(s, code, section, lang, files);
      && msg == LoadErrorPrefix + code
      && r.cache == s.cache && r.loadedLang == s.loadedLang
      && (files(lang).Unreadable? ==> r == s)
  {
  }

  /** A cached language that is not the last one loaded is read again: if
      its file has become unreadable, the cached messages are not used. */
  lemma SwitchBackRereads(s: Snapshot, code: string, section: string, lang: string, files: string -> LangFile)
    requires HasDefaults(s) && lang in s.cache && s.loadedLang != Some(lang)
    requires files(lang) == Unreadable
    ensures GetMessageSpec(s, code, section, lang, files).0 == LoadErrorPrefix + code
  {
  }

  /** updateSetting succeeds exactly for an existing key, which then holds
      the value and is saved; a refused key leaves the settings as they were
      (the error lookup may only store the same language again). */
  lemma UpdateSettingSpecProps(s: Snapshot, key: string, value: string, files: string -> LangFile)
    requires HasDefaults(s)
    ensures var (ok, r) := UpdateSettingSpec(s, key, value, files);
      && (ok <==> key in s.settings)
      && (ok ==> r.settings == s.settings[key := value] && r.stored == Some(r.settings))
      && (!ok ==> r.settings == s.settings)
      && HasDefaults(r)
  {
    if key !in s.settings {
      assert s.settings["language" := Language(s)] == s.settings;
    }
  }

  /** loadSettings: with a file that parses, the settings become the
      defaults overridden by the saved keys; otherwise they stay as they
      were. The default keys are always kept. */
  lemma LoadSettingsProps(s: Snapshot, savedData: Option<string>, parse: string -> Option<Settings>, files: string -> LangFile)
    requires HasDefaults(s)
    ensures var r := LoadSettingsSpec(s, savedData, parse, files);
      && HasDefaults(r)
      && (savedData.Some? && savedData.value != "" && parse(savedData.value).Some? ==>
            r.settings == Merge(parse(savedData.value).value))
      && (savedData.None? || savedData.value == "" || parse(savedData.value).None? ==> r.settings == s.settings)
  {
    if savedData.Some? && savedData.value != "" {
      match parse(savedData.value)
      case Some(loaded) =>
        var m := Merge(loaded);
        assert m["language" := m["language"]] == m;
      case None =>
        assert s.settings["language" := Language(s)] == s.settings;
    }
  }

  /** After clearCache no language is current: the next getMessage reads
      its file. */
  lemma ClearedReloads(s: Snapshot, lang: string)
    ensures !Current(s.(cache := map[], loadedLang := None), lang)
  {
  }

  // ---------------------------------------------------------------------
  // The classes
  // ---------------------------------------------------------------------

  class ApplicationSettings {
    var settings: Settings
    var stored: Option<Settings>

    constructor()
      ensures settings == DefaultSettings && stored.None?
    {
      settings, stored := DefaultSettings, None;
    }

    /** saveSettings: the settings file now holds the settings. */
    method SaveSettings()
      modifies this`stored
      ensures stored == Some(settings)
    {
      stored := Some(settings);
    }

    /** updateSetting. */
    method UpdateSetting(key: string, value: string, lv: LanguageVariables, files: string -> LangFile) returns (ok: bool)
      requires lv.app == this && HasDefaults(lv.State())
      modifies this, lv
      ensures (ok, lv.State()) == UpdateSettingSpec(old(lv.State()), key, value, files)
    {
      if key in settings {
        settings := settings[key := value];
        SaveSettings();
        return true;
      }
      var _ := lv.GetMessage("SETTINGS_UPDATE_ERROR", "errors", if "language" in settings then settings["language"] else "ru", files);
      return false;
    }

    /** loadSettings. */
    method LoadSettings(savedData: Option<string>, parse: string -> Option<Settings>, lv: LanguageVariables, files: string -> LangFile)
      requires lv.app == this && HasDefaults(lv.State())
      modifies this, lv
      ensures lv.State() == LoadSettingsSpec(old(lv.State()), savedData, parse, files)
    {
      if savedData.Some? && savedData.value != "" {
        match parse(savedData.value)
        case Some(loaded) =>
          settings := DefaultSettings + loaded;
          var _ := lv.GetMessage("SETTINGS_LOADED", "success", if "language" in settings then settings["language"] else "ru", files);
        case None =>
          var _ := lv.GetMessage("SETTINGS_LOAD_ERROR", "errors", if "language" in settings then settings["language"] else "ru", files);
      }
    }
  }

  class LanguageVariables {
    var cache: map<string, Translations>
    var loadedLang: Option<string>
    const app: ApplicationSettings

    constructor(app: ApplicationSettings)
      ensures this.app == app && cache == map[] && loadedLang.None?
    {
      this.app := app;
      cache, loadedLang := map[], None;
    }

    function State(): Snapshot
      reads this, app
    {
      Snapshot(app.settings, app.stored, cache, loadedLang)
    }

    /** getMessage. */
    method GetMessage(code: string, section: string, lang: string, files: string -> LangFile) returns (msg: string)
      requires HasDefaults(State())
      modifies this, app
      ensures (msg, State()) == GetMessageSpec(old(State()), code, section, lang, files)
    {
      var translations: Translations;
      if lang in cache && loadedLang == Some(lang) {
        translations := cache[lang];
      } else {
        var file := files(lang);
        if file.Unreadable? {
          return LoadErrorPrefix + code;
        }
        // _loadLanguageFile: updateSetting('language', lang) before JSON.parse
        app.settings := app.settings["language" := lang];
        app.SaveSettings();
        if !file.Parsed? {
          return LoadErrorPrefix + code;
        }
        translations := file.translations;
        cache := cache[lang := translations];
        loadedLang := Some(lang);
      }
      msg := Lookup(translations, section, code);
    }

    /** clearCache. */
    method ClearCache()
      modifies this
      ensures cache == map[] && loadedLang.None?
    {
      cache := map[];
      loadedLang := None;
    }
  }

  // ---------------------------------------------------------------------
  // getAllLanguagesWithTag
  // ---------------------------------------------------------------------

  /** A language file as getAllLanguagesWithTag reads it: unreadable or
      rejected by JSON.parse, the JSON null (reading `.language` of it
      throws), or a value whose `language` field is given. */
  datatype LangInfoFile = InfoUnreadable | InfoNull | InfoParsed(language: Option<string>)

  datatype LanguageInfo = LanguageInfo(code: string, name: string)

  const JsonExt := ".json"

  /** path.basename(file, ext): the last segment, without `ext` when it
      ends with it and is longer. */
  function Basename(file: string, ext: string): string {
    var seg := LastSegment(StripTrailingSlashes(file));
    if EndsWith(seg, ext) && seg != ext then seg[..|seg| - |ext|] else seg
  }

  predicate IsJsonFile(file: string) {
    Extname(file) == JsonExt
  }

  /** A '.json' file's code with the extension put back is its last segment. */
  lemma JsonFileCode(file: string)
    requires IsJsonFile(file)
    ensures Basename(file, JsonExt) + JsonExt == LastSegment(StripTrailingSlashes(file))
  {
    var seg := LastSegment(StripTrailingSlashes(file));
    var d := LastIndexOf(seg, '.');
    assert d > 0 && seg[d..] == JsonExt;
    assert seg == seg[..d] + seg[d..];
  }

  /** The entry pushed for a file, if any. */
  function EntryOf(file: string, read: string -> LangInfoFile): Option<LanguageInfo> {
    if IsJsonFile(file) && read(file).InfoParsed? then
      var code := Basename(file, JsonExt);
      var language := read(file).language;
      Some(LanguageInfo(code, if language.Some? && language.value != "" then language.value else code))
    else None
  }

  /** The entries for the listed files, in listing order. */
  function LanguagesOf(files: seq<string>, read: string -> LangInfoFile): (r: seq<LanguageInfo>)
    ensures |r| <= |files|
  {
    if files == [] then []
    else
      var init := LanguagesOf(files[..|files| - 1], read);
      var e := EntryOf(files[|files| - 1], read);
      if e.Some? then init + [e.value] else init
  }

  /** An entry per readable '.json' file, named by its `language` field or
      else by its code. */
  lemma {:induction false} LanguagesOfMembers(files: seq<string>, read: string -> LangInfoFile)
    ensures forall e :: e in LanguagesOf(files, read) <==> exists f :: f in files && EntryOf(f, read) == Some(e)
  {
    if files != [] {
      var init := files[..|files| - 1];
      LanguagesOfMembers(init, read);
      assert files == init + [files[|files| - 1]];
    }
  }

  /** Each entry comes from a '.json' file, and its code is that file's
      name without '.json'. */
  lemma EntryShape(f: string, read: string -> LangInfoFile)
    requires EntryOf(f, read).Some?
    ensures IsJsonFile(f) && EntryOf(f, read).value.code + JsonExt == LastSegment(StripTrailingSlashes(f))
  {
    JsonFileCode(f);
  }

  /** For a plain file name (no '/'), the code with '.json' put back is
      the file name itself. */
  lemma EntryNamesFile(f: string, read: string -> LangInfoFile)
    requires '/' !in f && EntryOf(f, read).Some?
    ensures EntryOf(f, read).value.code + JsonExt == f
  {
    EntryShape(f, read);
    PlainName(f);
  }

  /** An entry already collected from `init` cannot share its code with the
      entry of a file that is not in `init`. */
  lemma NewCodeFresh(init: seq<string>, last: string, read: string -> LangInfoFile, x: LanguageInfo)
    requires forall f :: f in init ==> '/' !in f
    requires '/' !in last && last !in init && EntryOf(last, read).Some?
    requires x in LanguagesOf(init, read)
    ensures x.code != EntryOf(last, read).value.code
  {
    LanguagesOfMembers(init, read);
    var f :| f in init && EntryOf(f, read) == Some(x);
    EntryNamesFile(f, read);
    EntryNamesFile(last, read);
  }

  predicate CodesDistinct(r: seq<LanguageInfo>) {
    forall i, j :: 0 <= i < j < |r| ==> r[i].code != r[j].code
  }

  lemma AppendDistinctCode(r: seq<LanguageInfo>, x: LanguageInfo)
    requires CodesDistinct(r)
    requires forall i :: 0 <= i < |r| ==> r[i].code != x.code
    ensures CodesDistinct(r + [x])
  {
  }

  /** Distinct file names (as readdirSync lists them, without '/') give
      distinct codes. */
  lemma {:induction false} LanguagesOfCodesDistinct(files: seq<string>, read: string -> LangInfoFile)
    requires NoDuplicates(files) && forall f :: f in files ==> '/' !in f
    ensures CodesDistinct(LanguagesOf(files, read))
  {
    if files != [] {
      var init := files[..|files| - 1];
      var last := files[|files| - 1];
      assert NoDuplicates(init);
      LanguagesOfCodesDistinct(init, read);
      var e := EntryOf(last, read);
      var r0 := LanguagesOf(init, read);
      if e.Some? {
        assert last !in init;
        forall i | 0 <= i < |r0|
          ensures r0[i].code != e.value.code
        {
          NewCodeFresh(init, last, read, r0[i]);
        }
        assert LanguagesOf(files, read) == r0 + [e.value];
        AppendDistinctCode(r0, e.value);
      } else {
        assert LanguagesOf(files, read) == r0;
      }
    }
  }

  /** getAllLanguagesWithTag: `listing` is readdirSync's answer, None when
      it throws; a file that cannot be read or parsed is skipped. */
  method GetAllLanguagesWithTag(listing: Option<seq<string>>, read: string -> LangInfoFile) returns (languages: seq<LanguageInfo>)
    ensures listing.None? ==> languages == []
    ensures listing.Some? ==> languages == LanguagesOf(listing.value, read)
  {
    languages := [];
    if listing.None? {
      return;
    }
    var files := listing.value;
    for i := 0 to |files|
      invariant languages == LanguagesOf(files[..i], read)
    {
      assert files[..i + 1][..i] == files[..i];
      var file := files[i];
      if IsJsonFile(file) {
        var content := read(file);
        if content.InfoParsed? {
          var langCode := Basename(file, JsonExt);
          var name := if content.language.Some? && content.language.value != "" then content.language.value else langCode;
          languages := languages + [LanguageInfo(langCode, name)];
        }
      }
    }
    assert files[..|files|] == files;
  }
}
