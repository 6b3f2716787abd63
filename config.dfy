/** Layered configuration: command-line settings take priority over the
    per-directory `sprite.conf` sources, which are searched in order, and the
    built-in defaults answer last (glue/core.py, `ConfigManager`). */
module Config {
  import opened Text
  import opened Options
  import opened Values

  /** One configuration source: a Python dict from setting names to values. */
  type Dict = map<string, Value>

  /** `d.get(name)`. */
  function Get(d: Dict, name: string): Value {
    if name in d then d[name] else PyNone
  }

  /** The first value of `name` in `chain` that is not `None`, else `defaults.get(name)`. */
  function FindIn(chain: seq<Dict>, defaults: Dict, name: string): Value
    decreases |chain|
  {
    if |chain| == 0 then Get(defaults, name)
    else if Get(chain[0], name) != PyNone then Get(chain[0], name)
    else FindIn(chain[1..], defaults, name)
  }

  /** The search answers with the first source that has a value for the name. */
  lemma {:induction false} FindInFirstHit(chain: seq<Dict>, defaults: Dict, name: string, j: nat)
    requires j < |chain|
    requires Get(chain[j], name) != PyNone
    requires forall i :: 0 <= i < j ==> Get(chain[i], name) == PyNone
    ensures FindIn(chain, defaults, name) == Get(chain[j], name)
    decreases j
  {
    if j > 0 {
      assert Get(chain[0], name) == PyNone;
      FindInFirstHit(chain[1..], defaults, name, j - 1);
    }
  }

  /** When no source has a value, the defaults answer (possibly with `None`). */
  lemma {:induction false} FindInMiss(chain: seq<Dict>, defaults: Dict, name: string)
    requires forall i :: 0 <= i < |chain| ==> Get(chain[i], name) == PyNone
    ensures FindIn(chain, defaults, name) == Get(defaults, name)
    decreases |chain|
  {
    if |chain| > 0 {
      assert Get(chain[0], name) == PyNone;
      FindInMiss(chain[1..], defaults, name);
    }
  }

  /** A value found is either in some source or a default. */
  lemma {:induction false} FindInOrigin(chain: seq<Dict>, defaults: Dict, name: string)
    ensures var v := FindIn(chain, defaults, name);
      v == Get(defaults, name) || exists i :: 0 <= i < |chain| && v == Get(chain[i], name) && v != PyNone
    decreases |chain|
  {
    if |chain| > 0 && Get(chain[0], name) == PyNone {
      FindInOrigin(chain[1..], defaults, name);
      var v := FindIn(chain, defaults, name);
      if v != Get(defaults, name) {
        var i :| 0 <= i < |chain[1..]| && v == Get(chain[1..][i], name) && v != PyNone;
        assert v == Get(chain[i + 1], name);
      }
    }
  }

  /** Putting a new source in front of the others: the command line still wins,
      then the new source, then the search as before. */
  lemma ExtendedSearch(priority: Dict, config: Dict, sources: seq<Dict>, defaults: Dict, name: string)
    ensures FindIn([priority] + ([config] + sources), defaults, name)
         == if Get(priority, name) != PyNone then Get(priority, name)
            else if Get(config, name) != PyNone then Get(config, name)
            else FindIn([priority] + sources, defaults, name)
  {
    var ext := [priority] + ([config] + sources);
    assert ext[1..] == [config] + sources;
    assert ext[1..][1..] == sources;
    assert ([priority] + sources)[1..] == sources;
  }

  /** `get_file_config`'s `clean`: the words `true` and `false`, in any case,
      become booleans; every other string is kept as it is. */
  function Clean(value: string): (v: Value)
    ensures v.Bool? || v == Str(value)
    ensures v == Bool(true) <==> Lower(value) == "true"
    ensures v == Bool(false) <==> Lower(value) == "false"
  {
    var key := Lower(value);
    if key == "true" then Bool(true) else if key == "false" then Bool(false) else Str(value)
  }

  /** `get_file_config` once the file has been read: `options` is the `[sprite]`
      section's raw option strings, or `None` when the file has no such section. */
  function FileConfig(options: Option<map<string, string>>): (d: Dict)
    ensures options.None? ==> d == map[]
    ensures options.Some? ==> d.Keys == options.value.Keys
    ensures options.Some? ==> forall k :: k in d ==> d[k] == Clean(options.value[k])
  {
    match options
    case None => map[]
    case Some(raw) => map k | k in raw :: Clean(raw[k])
  }

  /** `DEFAULT_SETTINGS`. */
  const DefaultSettings: Dict := map[
    "padding" := Str("0"),
    "margin" := Str("0"),
    "algorithm" := Str("square"),
    "ordering" := Str("maxside"),
    "namespace" := Str("sprite"),
    "sprite_namespace" := Str("%(sprite)s"),
    "crop" := Bool(false),
    "url" := Str(""),
    "less" := Bool(false),
    "force" := Bool(false),
    "optipng" := Bool(false),
    "html" := Bool(false),
    "ignore_filename_paddings" := Bool(false),
    "png8" := Bool(false),
    "ratios" := Str(""),
    "retina" := Bool(false),
    "imagemagick" := Bool(false),
    "imagemagickpath" := Str("convert"),
    "separator" := Str("-"),
    "optipngpath" := Str("optipng"),
    "project" := Bool(false),
    "recursive" := Bool(false),
    "follow_links" := Bool(false),
    "quiet" := Bool(false),
    "no_css" := Bool(false),
    "no_img" := Bool(false),
    "cachebuster" := Bool(false),
    "cachebuster-filename" := Bool(false),
    "global_template" :=
      Str("%(all_classes)s{background-image:url('%(sprite_url)s');background-repeat:no-repeat}\n"),
    "each_template" :=
      Str("%(class_name)s{background-position:%(x)s %(y)s;width:%(width)s;height:%(height)s;}\n"),
    "ratio_template" :=
      Str("@media only screen and (-webkit-min-device-pixel-ratio: %(ratio)s), "
        + "only screen and (min--moz-device-pixel-ratio: %(ratio)s), "
        + "only screen and (-o-min-device-pixel-ratio: %(ratio_fraction)s), "
        + "only screen and (min-device-pixel-ratio: %(ratio)s) {"
        + "%(all_classes)s{background-image:url('%(sprite_url)s');"
        + "-webkit-background-size: %(width)s %(height)s;"
        + "-moz-background-size: %(width)s %(height)s;"
        + "background-size: %(width)s %(height)s;"
        + "}}\n")
  ]

  class ConfigManager {
    const defaults: Dict
    const priority: Dict
    const sources: seq<Dict>
    /** `_cache`: setting names already looked up, with the value found. */
    var cache: Dict

    /** `_sources`: the command-line settings, then the other sources in order. */
    function Chain(): seq<Dict> {
      [priority] + sources
    }

    /** `find`. */
    function Find(name: string): (v: Value)
      ensures Get(priority, name) != PyNone ==> v == Get(priority, name)
      ensures Get(priority, name) == PyNone ==> v == FindIn(sources, defaults, name)
    {
      assert Chain()[1..] == sources;
      FindIn(Chain(), defaults, name)
    }

    /** The memo never disagrees with a fresh search. */
    ghost predicate Valid()
      reads this
    {
      forall k :: k in cache ==> cache[k] == Find(k)
    }

    constructor (sources: seq<Dict>, priority: Dict, defaults: Dict)
      ensures this.sources == sources && this.priority == priority && this.defaults == defaults
      ensures cache == map[]
      ensures Valid()
    {
      this.sources := sources;
      this.priority := priority;
      this.defaults := defaults;
      cache := map[];
    }

    /** Attribute access (`__getattr__`): answer from the memo, or search and
        remember the answer. */
    method Lookup(name: string) returns (v: Value)
      requires Valid()
      modifies this`cache
      ensures Valid()
      ensures v == Find(name)
      ensures cache == old(cache)[name := v]
    {
      if name in cache {
        v := cache[name];
      } else {
        v := Find(name);
        cache := cache[name := v];
      }
    }

    /** `extend`: a new manager with `config` ahead of this one's sources, the
        same command-line settings and defaults, and an empty memo. */
    method Extend(config: Dict) returns (r: ConfigManager)
      ensures fresh(r)
      ensures r.sources == [config] + sources && r.priority == priority && r.defaults == defaults
      ensures r.cache == map[] && r.Valid()
      ensures forall name :: r.Find(name) ==
                (if Get(priority, name) != PyNone then Get(priority, name)
                 else if Get(config, name) != PyNone then Get(config, name)
                 else Find(name))
    {
      r := new ConfigManager([config] + sources, priority, defaults);
      forall name
        ensures r.Find(name) ==
          if Get(priority, name) != PyNone then Get(priority, name)
          else if Get(config, name) != PyNone then Get(config, name)
          else Find(name)
      {
        ExtendedSearch(priority, config, sources, defaults, name);
      }
    }
  }
}
