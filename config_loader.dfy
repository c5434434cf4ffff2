/**
 * The application's configuration: a YAML document read once, queried by
 * dot-separated keys, with a literal default behind every named setting, and
 * a single shared instance.
 */
module ConfigLoader {
  import opened Wrappers
  import opened Text
  import opened Paths

  /** A value as `yaml.safe_load` produces it (mappings keyed by strings). */
  datatype Yaml =
    | Null
    | Bool(b: bool)
    | Int(i: int)
    | Real(r: real)
    | Str(s: string)
    | List(items: seq<Yaml>)
    | Dict(entries: map<string, Yaml>)

  /** The value reached by descending through mappings along `keys`, if every step exists. */
  function Find(v: Yaml, keys: seq<string>): Option<Yaml>
    decreases |keys|
  {
    if |keys| == 0 then Some(v)
    else if v.Dict? && keys[0] in v.entries then Find(v.entries[keys[0]], keys[1..])
    else None
  }

  /** One step further down: the value under `k` of what `keys` reaches. */
  function Child(found: Option<Yaml>, k: string): Option<Yaml> {
    if found.Some? && found.value.Dict? && k in found.value.entries then Some(found.value.entries[k])
    else None
  }

  /** Descending along `keys + [k]` is descending along `keys`, then taking `k`. */
  lemma {:induction false} FindAppend(v: Yaml, keys: seq<string>, k: string)
    ensures Find(v, keys + [k]) == Child(Find(v, keys), k)
    decreases |keys|
  {
    if |keys| == 0 {
      assert keys + [k] == [k];
      assert [k][1..] == [];
    } else {
      assert (keys + [k])[1..] == keys[1..] + [k];
      if v.Dict? && keys[0] in v.entries {
        FindAppend(v.entries[keys[0]], keys[1..], k);
      }
    }
  }

  /** `Config.get` on the parsed key: the value found, or `default`. */
  function Lookup(v: Yaml, keys: seq<string>, default: Yaml): Yaml {
    Find(v, keys).GetOr(default)
  }

  /** Whatever is stored along the path is returned, even `null` or `false`. */
  lemma LookupFound(v: Yaml, keys: seq<string>, default: Yaml)
    requires Find(v, keys).Some?
    ensures Lookup(v, keys, default) == Find(v, keys).value
  {
  }

  /** A missing step, or a step through something other than a mapping, gives the default. */
  lemma LookupMissing(v: Yaml, keys: seq<string>, default: Yaml)
    requires Find(v, keys).None?
    ensures Lookup(v, keys, default) == default
  {
  }

  /**
   * `get("p.k")` is `get("p")["k"]` when `get("p")` is a mapping holding `k`,
   * and the default otherwise.
   */
  lemma LookupNested(v: Yaml, p: string, k: string, default: Yaml)
    requires '.' !in k
    ensures Lookup(v, Split(p + "." + k, '.'), default) == Child(Find(v, Split(p, '.')), k).GetOr(default)
  {
    assert p + "." + k == p + ['.'] + k;
    SplitLast(p, '.', k);
    FindAppend(v, Split(p, '.'), k);
  }

  /** Every convenience property of `Config`. */
  datatype Setting =
    | GcsBucket | CacheDir | IndexCacheFile | VariablesYaml | ExperimentsYaml
    | AppTitle | AppPort | ThemeName | AccentColor | HeaderBackground | SidebarWidth
    | PlotWidth | PlotHeight | AspectRatio | DataAspect
    | DefaultNanValues | ColormapOptions | TimeStepModes | NetcdfEngine
    | PlotTools | ToolbarPosition | LayoutColumns | SharedAxes
    | PercentileLow | PercentileHigh
    | UrlParamsEnabled | UrlParamNames | UrlListDelimiter
    | VerboseLogging | NotificationsEnabled | SuccessDuration | WarningDuration | ErrorDuration
  {
    /** The dotted key the property passes to `get`. */
    function Key(): string {
      match this
      case GcsBucket => "data_sources.gcs_bucket"
      case CacheDir => "data_sources.cache_dir"
      case IndexCacheFile => "data_sources.index_cache_file"
      case VariablesYaml => "data_sources.variables_yaml"
      case ExperimentsYaml => "data_sources.experiments_yaml"
      case AppTitle => "app.title"
      case AppPort => "app.port"
      case ThemeName => "app.theme.name"
      case AccentColor => "app.theme.accent_color"
      case HeaderBackground => "app.theme.header_background"
      case SidebarWidth => "app.sidebar.width"
      case PlotWidth => "visualization.plot_width"
      case PlotHeight => "visualization.plot_height"
      case AspectRatio => "visualization.aspect_ratio"
      case DataAspect => "visualization.data_aspect"
      case DefaultNanValues => "data_loading.default_nan_values"
      case ColormapOptions => "data_loading.colormap_options"
      case TimeStepModes => "data_loading.time_step_modes"
      case NetcdfEngine => "data_loading.netcdf_engine"
      case PlotTools => "visualization.tools"
      case ToolbarPosition => "visualization.toolbar"
      case LayoutColumns => "visualization.layout.columns"
      case SharedAxes => "visualization.layout.shared_axes"
      case PercentileLow => "visualization.percentile_range.low"
      case PercentileHigh => "visualization.percentile_range.high"
      case UrlParamsEnabled => "url_params.enabled"
      case UrlParamNames => "url_params.param_names"
      case UrlListDelimiter => "url_params.list_delimiter"
      case VerboseLogging => "debug.verbose"
      case NotificationsEnabled => "ui.notifications.enabled"
      case SuccessDuration => "ui.notifications.success_duration"
      case WarningDuration => "ui.notifications.warning_duration"
      case ErrorDuration => "ui.notifications.error_duration"
    }

    /** The segments of the key, as `get` splits it. */
    function Path(): seq<string> {
      Split(Key(), '.')
    }

    /** The literal the property falls back to. */
    function Default(): Yaml {
      match this
      case GcsBucket => Str("gs://ismip6")
      case CacheDir => Str(".cache")
      case IndexCacheFile => Str(".cache/ismip6_index.parquet")
      case VariablesYaml => Str("ismip_metadata/variables.yaml")
      case ExperimentsYaml => Str("ismip_metadata/experiments.yaml")
      case AppTitle => Str("ISMIP6 Interactive Comparison Tool")
      case AppPort => Int(5006)
      case ThemeName => Str("default")
      case AccentColor => Str("#0072B2")
      case HeaderBackground => Str("#0072B2")
      case SidebarWidth => Int(340)
      case PlotWidth => Int(450)
      case PlotHeight => Int(450)
      case AspectRatio => Str("equal")
      case DataAspect => Int(1)
      case DefaultNanValues => List([Int(0)])
      case ColormapOptions => List([Str("auto"), Str("viridis"), Str("Blues"), Str("RdBu_r")])
      case TimeStepModes => List([Str("first"), Str("last"), Str("all"), Str("custom")])
      case NetcdfEngine => Str("h5netcdf")
      case PlotTools => List([Str("hover"), Str("pan"), Str("wheel_zoom"), Str("box_zoom"), Str("reset")])
      case ToolbarPosition => Str("above")
      case LayoutColumns => Int(2)
      case SharedAxes => Bool(true)
      case PercentileLow => Real(5.0)
      case PercentileHigh => Real(95.0)
      case UrlParamsEnabled => Bool(true)
      case UrlParamNames => Dict(map[])
      case UrlListDelimiter => Str(",")
      case VerboseLogging => Bool(true)
      case NotificationsEnabled => Bool(true)
      case SuccessDuration => Int(3000)
      case WarningDuration => Int(5000)
      case ErrorDuration => Int(10000)
    }
  }

  // ---------------------------------------------------------------------
  // Loaded configurations and the shared instance
  // ---------------------------------------------------------------------

  /** A loaded configuration: the file it came from and its parsed content. */
  class Config {
    const path: string
    const data: Yaml

    constructor(path: string, data: Yaml)
      ensures this.path == path && this.data == data
    {
      this.path := path;
      this.data := data;
    }

    /** `get(key, default)`: walk the `.`-separated parts of `key` down the mappings. */
    method Get(key: string, default: Yaml) returns (r: Yaml)
      ensures r == Lookup(data, Split(key, '.'), default)
    {
      var keys := Split(key, '.');
      var value := data;
      var i := 0;
      while i < |keys|
        invariant 0 <= i <= |keys|
        invariant Find(value, keys[i..]) == Find(data, keys)
      {
        var k := keys[i];
        assert keys[i..][1..] == keys[i + 1..];
        if value.Dict? && k in value.entries {
          value := value.entries[k];
        } else {
          return default;
        }
        i := i + 1;
      }
      assert keys[i..] == [];
      return value;
    }

    /** `get_section`: the top-level entry, `{}` when absent; `None` where the call would raise. */
    function Section(section: string): (r: Option<Yaml>)
      ensures r.Some? <==> data.Dict?
      ensures data.Dict? && section in data.entries ==> r == Some(data.entries[section])
      ensures data.Dict? && section !in data.entries ==> r == Some(Dict(map[]))
    {
      if data.Dict? then Some(if section in data.entries then data.entries[section] else Dict(map[]))
      else None
    }

    /** A convenience property: `get(s.Key(), s.Default())`. */
    function Property(s: Setting): Yaml {
      Lookup(data, s.Path(), s.Default())
    }
  }

  /** For a name without dots, `get_section(name)` agrees with `get(name, {})`. */
  lemma SectionIsGet(c: Config, section: string)
    requires '.' !in section && c.data.Dict?
    ensures c.Section(section) == Some(Lookup(c.data, Split(section, '.'), Dict(map[])))
  {
    SplitWithout(section, '.');
    assert [section][1..] == [];
    if section in c.data.entries {
      assert Find(c.data, [section]) == Find(c.data.entries[section], []);
    }
  }

  /** A key of two dot-free parts splits back into them. */
  lemma TwoPartKey(a: string, b: string)
    requires '.' !in a && '.' !in b
    ensures Split(a + "." + b, '.') == [a] + [b]
  {
    SplitJoin([a, b], '.');
    assert [a, b][1..] == [b];
    assert a + "." + b == a + ['.'] + b;
  }

  /** The bucket and cache keys are `data_sources.<name>`. */
  lemma SourceKey(s: Setting, name: string)
    requires s == GcsBucket || s == CacheDir
    requires name == if s == GcsBucket then "gcs_bucket" else "cache_dir"
    ensures s.Key() == "data_sources" + "." + name
  {
  }

  lemma SourcePath(s: Setting, name: string)
    requires s == GcsBucket || s == CacheDir
    requires name == if s == GcsBucket then "gcs_bucket" else "cache_dir"
    ensures s.Path() == ["data_sources"] + [name]
  {
    SourceKey(s, name);
    TwoPartKey("data_sources", name);
  }

  /** An empty or null document holds nothing under any non-empty key path. */
  lemma FindInEmpty(v: Yaml, keys: seq<string>)
    requires v == Dict(map[]) || v == Null
    requires |keys| > 0
    ensures Find(v, keys) == None
  {
  }

  /** With nothing configured, every property is its literal default. */
  lemma EmptyDefaults(c: Config, s: Setting)
    requires c.data == Dict(map[]) || c.data == Null
    ensures c.Property(s) == s.Default()
  {
    FindInEmpty(c.data, s.Path());
  }

  /** The configuration with only `data_sources.cache_dir` set, to `/tmp`. */
  predicate OnlyCacheDir(c: Config) {
    c.data == Dict(map["data_sources" := Dict(map["cache_dir" := Str("/tmp")])])
  }

  lemma OnlyCacheDirSection(c: Config)
    requires OnlyCacheDir(c)
    ensures Find(c.data, ["data_sources"]) == Some(Dict(map["cache_dir" := Str("/tmp")]))
  {
    assert ["data_sources"][1..] == [];
  }

  /** Inside a configured section, a missing key still falls back to its literal. */
  lemma SectionDefaults(c: Config)
    requires OnlyCacheDir(c)
    ensures c.Property(GcsBucket) == Str("gs://ismip6")
  {
    OnlyCacheDirSection(c);
    SourceProperty(c, GcsBucket, "gcs_bucket");
  }

  /** The key that is set is read from the file. */
  lemma SectionValueWins(c: Config)
    requires OnlyCacheDir(c)
    ensures c.Property(CacheDir) == Str("/tmp")
  {
    OnlyCacheDirSection(c);
    SourceProperty(c, CacheDir, "cache_dir");
  }

  /** The bucket and cache properties read `<name>` inside the `data_sources` section. */
  lemma SourceProperty(c: Config, s: Setting, name: string)
    requires s == GcsBucket || s == CacheDir
    requires name == if s == GcsBucket then "gcs_bucket" else "cache_dir"
    ensures c.Property(s) == Child(Find(c.data, ["data_sources"]), name).GetOr(s.Default())
  {
    SourcePath(s, name);
    FindAppend(c.data, ["data_sources"], name);
  }

  /** The process-wide `_config_instance` and `get_config`. */
  class Registry {
    var instance: Config?

    constructor()
      ensures instance == null
    {
      instance := null;
    }

    /**
     * The first call loads `path`, in the normal form `pathlib` gives it
     * (a missing file raises, naming that form); every later call returns
     * that same instance, whatever path it is given.
     */
    method GetConfig(path: string, files: string -> Option<Yaml>) returns (r: Result<Config, string>)
      modifies this
      ensures old(instance) != null ==> r == Ok(old(instance)) && instance == old(instance)
      ensures old(instance) == null && files(NormalPath(path)).Some? ==>
        r.Ok? && fresh(r.value) && instance == r.value &&
        r.value.path == NormalPath(path) && r.value.data == files(NormalPath(path)).value
      ensures old(instance) == null && files(NormalPath(path)).None? ==>
        r == Err("Configuration file not found: " + NormalPath(path)) && instance == null
    {
      if instance == null {
        var p := NormalPath(path);
        var loaded := files(p);
        if loaded.None? {
          return Err("Configuration file not found: " + p);
        }
        instance := new Config(p, loaded.value);
      }
      return Ok(instance);
    }
  }
}
