/** The application settings (`src/config.py`): the values read from the
    environment and from `config.ini`, the comma list of target post types,
    the webhook selection, the database path and the once-only
    initialisation of the shared instance.

    Reading `.env` and `config.ini` and creating directories are outside the
    model: the environment variables and the file's values arrive as
    strings, and a missing file as `None`. */
module Config {
  import opened Basics
  import opened Text

  // ---------------------------------------------------------------------------
  // target_post_types
  // ---------------------------------------------------------------------------

  /** `t.strip().lower()` for one entry of the comma list. */
  function CleanType(t: string): string {
    Lower(Strip(t))
  }

  /** What an entry of `target_post_types` looks like: not empty, without
      surrounding whitespace, lower-case and without a comma. */
  predicate IsCleanType(t: string) {
    t != [] && Strip(t) == t && Lower(t) == t && ',' !in t
  }

  /** Lower-casing keeps whitespace where it was. */
  lemma LowerKeepsSpace(s: string)
    ensures forall i :: 0 <= i < |s| ==> (IsSpace(Lower(s)[i]) <==> IsSpace(s[i]))
  {
  }

  /** Lower-casing twice is lower-casing once. */
  lemma LowerIdempotent(s: string)
    ensures Lower(Lower(s)) == Lower(s)
  {
  }

  /** A non-blank entry without a comma cleans to a clean type. */
  lemma CleanTypeIsClean(t: string)
    requires Strip(t) != [] && ',' !in t
    ensures IsCleanType(CleanType(t))
  {
    var s := Strip(t);
    var r := Lower(s);
    StripWithin(t);
    LowerKeepsSpace(s);
    assert !IsSpace(r[0]) && !IsSpace(r[|r| - 1]);
    StripOfStripped(r);
    LowerIdempotent(s);
    assert ',' !in s;
    assert forall i :: 0 <= i < |r| ==> r[i] != ',' by {
      forall i | 0 <= i < |r| ensures r[i] != ',' {
        assert s[i] in s;
      }
    }
  }

  /** The filter of the comprehension: `t.strip()` is not empty. */
  predicate NonBlank(t: string) {
    !IsBlank(t)
  }

  /** The list comprehension over the comma-split entries: blank entries
      are dropped, the others stripped and lower-cased, in order. */
  function CleanTypes(entries: seq<string>): (r: seq<string>)
    ensures |r| == Count(entries, NonBlank)
  {
    FilterMap(entries, NonBlank, CleanType)
  }

  /** Every non-blank entry is in the list, cleaned. */
  lemma CleanTypesKeepsEntries(entries: seq<string>)
    ensures forall j :: 0 <= j < |entries| && NonBlank(entries[j]) ==> CleanType(entries[j]) in CleanTypes(entries)
  {
    FilterMapKeeps(entries, NonBlank, CleanType);
  }

  /** Entries without a comma clean to clean types. */
  lemma CleanTypesAreClean(entries: seq<string>)
    requires forall j :: 0 <= j < |entries| ==> ',' !in entries[j]
    ensures forall i :: 0 <= i < |CleanTypes(entries)| ==> IsCleanType(CleanTypes(entries)[i])
  {
    forall i | 0 <= i < |entries| && NonBlank(entries[i]) ensures IsCleanType(CleanType(entries[i])) {
      BlankIffStripsToEmpty(entries[i]);
      CleanTypeIsClean(entries[i]);
    }
    FilterMapAll(entries, NonBlank, CleanType, IsCleanType);
  }

  /** Cleaning distributes over concatenation: the order of the entries is
      the order of the list. */
  lemma CleanTypesAppend(a: seq<string>, b: seq<string>)
    ensures CleanTypes(a + b) == CleanTypes(a) + CleanTypes(b)
  {
    FilterMapAppend(a, b, NonBlank, CleanType);
  }

  /** A clean type is kept and cleans to itself. */
  lemma CleanTypeOfClean(t: string)
    requires IsCleanType(t)
    ensures NonBlank(t) && CleanType(t) == t
  {
    BlankIffStripsToEmpty(t);
  }

  /** Entries that are already clean come through unchanged. */
  lemma CleanTypesOfClean(ts: seq<string>)
    requires forall i :: 0 <= i < |ts| ==> IsCleanType(ts[i])
    ensures CleanTypes(ts) == ts
  {
    forall i | 0 <= i < |ts| ensures NonBlank(ts[i]) && CleanType(ts[i]) == ts[i] {
      CleanTypeOfClean(ts[i]);
    }
    FilterMapIdentity(ts, NonBlank, CleanType);
  }

  /** `Config.target_post_types` from the raw `target_post_type` option. */
  function TargetPostTypes(raw: string): (r: seq<string>)
    ensures |r| == Count(SplitOn(raw, ','), NonBlank)
  {
    CleanTypes(SplitOn(raw, ','))
  }

  /** Every entry of `target_post_types` is clean, and every non-blank
      comma-separated entry of the option is in it, cleaned. */
  lemma TargetPostTypesClean(raw: string)
    ensures forall i :: 0 <= i < |TargetPostTypes(raw)| ==> IsCleanType(TargetPostTypes(raw)[i])
    ensures forall j :: 0 <= j < |SplitOn(raw, ',')| && NonBlank(SplitOn(raw, ',')[j]) ==>
              CleanType(SplitOn(raw, ',')[j]) in TargetPostTypes(raw)
  {
    var entries := SplitOn(raw, ',');
    assert forall j :: 0 <= j < |entries| ==> ',' !in entries[j] by {
      forall j | 0 <= j < |entries| ensures ',' !in entries[j] {
        assert entries[j] in entries;
      }
    }
    CleanTypesAreClean(entries);
    CleanTypesKeepsEntries(entries);
  }

  /** Writing the parsed list back as a comma list and parsing it again
      gives the same list. */
  lemma TargetPostTypesRoundTrip(raw: string)
    ensures TargetPostTypes(Join(TargetPostTypes(raw), ",")) == TargetPostTypes(raw)
  {
    var ts := TargetPostTypes(raw);
    TargetPostTypesClean(raw);
    if ts == [] {
      assert SplitOn([], ',') == [[]] by {
        assert FindChar([], ',') == 0;
      }
      assert CleanTypes([[]]) == [] by {
        assert IsBlank([]);
      }
    } else {
      assert forall i :: 0 <= i < |ts| ==> ',' !in ts[i];
      SplitOnJoin(ts, ',');
      CleanTypesOfClean(ts);
    }
  }

  /** `Config.target_post_type`: the first configured type, or `''`. */
  function TargetPostType(types: seq<string>): (r: string)
    ensures types == [] ==> r == []
    ensures types != [] ==> r == types[0]
  {
    if types != [] then types[0] else []
  }

  /** The singular type is empty exactly when the option lists no
      non-blank entry, and otherwise is the first non-blank entry, cleaned. */
  lemma {:induction false} TargetPostTypeFirst(raw: string)
    ensures TargetPostType(TargetPostTypes(raw)) == [] <==> Count(SplitOn(raw, ','), NonBlank) == 0
    ensures forall j :: (0 <= j < |SplitOn(raw, ',')| && NonBlank(SplitOn(raw, ',')[j]) &&
                         (forall k :: 0 <= k < j ==> !NonBlank(SplitOn(raw, ',')[k]))) ==>
                        TargetPostType(TargetPostTypes(raw)) == CleanType(SplitOn(raw, ',')[j])
  {
    var entries := SplitOn(raw, ',');
    TargetPostTypesClean(raw);
    forall j | 0 <= j < |entries| && NonBlank(entries[j]) && (forall k :: 0 <= k < j ==> !NonBlank(entries[k]))
      ensures TargetPostType(TargetPostTypes(raw)) == CleanType(entries[j])
    {
      FirstKept(entries, j);
    }
  }

  /** When the first `j` entries are blank and entry `j` is not, the list
      starts with entry `j`, cleaned. */
  lemma FirstKept(entries: seq<string>, j: nat)
    requires j < |entries| && NonBlank(entries[j])
    requires forall k :: 0 <= k < j ==> !NonBlank(entries[k])
    ensures CleanTypes(entries) != [] && CleanTypes(entries)[0] == CleanType(entries[j])
  {
    FilterMapFirst(entries, NonBlank, CleanType, j);
  }

  // ---------------------------------------------------------------------------
  // Reading the settings
  // ---------------------------------------------------------------------------

  /** `ConfigParser.getboolean`: the spellings configparser accepts, in any
      case; anything else raises `ValueError` (`None`). */
  function ParseBoolean(s: string): (r: Option<bool>)
    ensures r == Some(true) <==> Lower(s) in {"1", "yes", "true", "on"}
    ensures r == Some(false) <==> Lower(s) in {"0", "no", "false", "off"}
  {
    var l := Lower(s);
    if l in {"1", "yes", "true", "on"} then Some(true)
    else if l in {"0", "no", "false", "off"} then Some(false)
    else None
  }

  /** `webhook_prod if use_prod else webhook_test`. */
  function WebhookUrl(production: string, test: string, useProduction: bool): (r: string)
    ensures useProduction ==> r == production
    ensures !useProduction ==> r == test
  {
    if useProduction then production else test
  }

  /** The options of `config.ini` the pipeline reads (configparser has
      already stripped each value). The options whose values the model does
      not keep are summed up in two flags: `readsBefore` says that every
      option read before `use_production` is present and, for `getint`,
      `getfloat` and `getboolean`, parses; `readsAfter` says the same of
      the options read after it. */
  datatype Ini = Ini(
    baseUrl: string,
    categoryUrl: string,
    targetPostType: string,
    databaseName: string,
    maxSummaryChars: int,
    webhookUrlProduction: string,
    webhookUrlTest: string,
    useProduction: string,
    readsBefore: bool,
    readsAfter: bool)

  /** The attributes a loaded `Config` carries. */
  datatype Settings = Settings(
    openaiApiKey: string,
    environment: string,
    baseUrl: string,
    categoryUrl: string,
    targetPostTypes: seq<string>,
    targetPostType: string,
    databaseName: string,
    maxSummaryChars: int,
    webhookUrl: string)

  /** The exceptions loading raises: `ValueError` for a missing API key,
      `FileNotFoundError` for a missing `config.ini`, `ValueError` from
      `getboolean` on `use_production`, and the `NoSectionError`,
      `NoOptionError` or `ValueError` of any other option. */
  datatype ConfigError = MissingApiKey | MissingConfigFile | InvalidBoolean | InvalidOption

  datatype Loaded = Ready(settings: Settings) | Raised(error: ConfigError)

  /** `_load_env` followed by `_load_config_file`: the API key is checked
      before the file is looked for. An empty key counts as missing. */
  function Load(apiKey: Option<string>, environment: Option<string>, ini: Option<Ini>): (r: Loaded)
    ensures r == Raised(MissingApiKey) <==> apiKey.None? || apiKey == Some([])
    ensures apiKey.Some? && apiKey.value != [] && ini.None? ==> r == Raised(MissingConfigFile)
    ensures apiKey.Some? && apiKey.value != [] && ini.Some? && !ini.value.readsBefore ==>
              r == Raised(InvalidOption)
    ensures (apiKey.Some? && apiKey.value != [] && ini.Some? && ini.value.readsBefore &&
             ParseBoolean(ini.value.useProduction).None?) ==> r == Raised(InvalidBoolean)
    ensures (apiKey.Some? && apiKey.value != [] && ini.Some? && ini.value.readsBefore &&
             ParseBoolean(ini.value.useProduction).Some? && !ini.value.readsAfter) ==> r == Raised(InvalidOption)
    ensures r.Ready? <==> apiKey.Some? && apiKey.value != [] && ini.Some? && ini.value.readsBefore &&
                          ParseBoolean(ini.value.useProduction).Some? && ini.value.readsAfter
  {
    var key := apiKey.GetOr([]);
    if key == [] then Raised(MissingApiKey)
    else if ini.None? then Raised(MissingConfigFile)
    else if !ini.value.readsBefore then Raised(InvalidOption)
    else
      var f := ini.value;
      var types := TargetPostTypes(f.targetPostType);
      match ParseBoolean(f.useProduction)
      case None => Raised(InvalidBoolean)
      case Some(useProduction) =>
        if !f.readsAfter then Raised(InvalidOption)
        else
          Ready(Settings(key, environment.GetOr("production"), f.baseUrl, f.categoryUrl, types,
            TargetPostType(types), f.databaseName, f.maxSummaryChars,
            WebhookUrl(f.webhookUrlProduction, f.webhookUrlTest, useProduction)))
  }

  /** A completed load carries the API key, the environment (by default
      `production`), the parsed type list and its first element, and the
      webhook `use_production` selects. */
  lemma LoadedSettings(apiKey: Option<string>, environment: Option<string>, ini: Option<Ini>)
    requires Load(apiKey, environment, ini).Ready?
    ensures var st := Load(apiKey, environment, ini).settings;
            apiKey == Some(st.openaiApiKey) && ini.Some? &&
            st.environment == environment.GetOr("production") &&
            st.databaseName == ini.value.databaseName &&
            st.targetPostTypes == TargetPostTypes(ini.value.targetPostType) &&
            st.targetPostType == TargetPostType(st.targetPostTypes) &&
            (ParseBoolean(ini.value.useProduction) == Some(true) ==> st.webhookUrl == ini.value.webhookUrlProduction) &&
            (ParseBoolean(ini.value.useProduction) == Some(false) ==> st.webhookUrl == ini.value.webhookUrlTest)
  {
  }

  /** `Config.get_database_path`: `Path('database') / database_name`. An
      absolute name replaces the directory and an empty one adds nothing. */
  function DatabasePath(name: string): (r: string)
    ensures name != [] && name[0] != '/' ==> |r| == 9 + |name| && r[9..] == name
    ensures name != [] && name[0] == '/' ==> r == name
  {
    if name == [] then "database"
    else if name[0] == '/' then name
    else "database/" + name
  }

  /** A relative database name is a path inside the `database` directory:
      its components are `database` followed by the name's own. */
  lemma DatabasePathComponents(name: string)
    requires name != [] && name[0] != '/'
    ensures SplitOn(DatabasePath(name), '/') == ["database"] + SplitOn(name, '/')
  {
    var r := DatabasePath(name);
    assert r == "database" + ("/" + name);
    FindCharPrefix("database", "/" + name, '/');
    assert r[..8] == "database";
    assert r[9..] == name;
  }

  // ---------------------------------------------------------------------------
  // The shared instance
  // ---------------------------------------------------------------------------

  /** `Config._instance`: none yet, or the one instance, with its settings
      if its initialisation completed. `_initialized` is set before
      loading, so an instance whose loading raised stays without settings. */
  datatype Slot = NoInstance | Instance(settings: Option<Settings>)

  /** The shared instance after `Config()` and the exception it raised, if
      any. */
  datatype Construction = Construction(slot: Slot, raised: Option<ConfigError>)

  /** `Config()`: `__new__` returns the shared instance and `__init__` loads
      only the first time. */
  function Construct(slot: Slot, apiKey: Option<string>, environment: Option<string>, ini: Option<Ini>): (r: Construction)
    ensures r.slot.Instance?
    ensures slot.Instance? ==> r == Construction(slot, None)
    ensures slot.NoInstance? ==> (r.raised.None? <==> r.slot.settings.Some?)
  {
    match slot
    case Instance(_) => Construction(slot, None)
    case NoInstance =>
      match Load(apiKey, environment, ini)
      case Ready(s) => Construction(Instance(Some(s)), None)
      case Raised(e) => Construction(Instance(None), Some(e))
  }

  /** A second `Config()` returns the instance the first one built, whatever
      the environment says by then, and raises nothing, even when the first
      one raised. */
  lemma ConstructOnce(apiKey: Option<string>, environment: Option<string>, ini: Option<Ini>,
                      apiKey2: Option<string>, environment2: Option<string>, ini2: Option<Ini>)
    ensures var first := Construct(NoInstance, apiKey, environment, ini);
            var second := Construct(first.slot, apiKey2, environment2, ini2);
            second.slot == first.slot && second.raised.None? &&
            (first.raised.Some? ==> second.slot.settings.None?)
  {
  }
}
