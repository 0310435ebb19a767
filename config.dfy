/**
 * Configuration handling of plex_sync/config.py: the defaults, the recursive
 * merge of the file's settings into them, the PLEX_URL / PLEX_TOKEN
 * overrides, and the search for the configuration file. The parsed YAML
 * document, the environment and the file system are inputs.
 */
module Config {

  import opened Wrappers

  /** A YAML value: a nested mapping, or a scalar (written here as its text). */
  datatype Value = Leaf(text: string) | Dict(entries: map<string, Value>)

  type Settings = map<string, Value>

  /** `DEFAULT_CONFIG`. */
  function DefaultConfig(): (r: Settings)
    ensures r.Keys == {"plex", "rsync"}
    ensures r["plex"].Dict? && r["plex"].entries.Keys == {"url", "token"}
    ensures r["rsync"].Dict? && r["rsync"].entries.Keys == {"server_path", "target", "options"}
  {
    map["plex" := Dict(map["url" := Leaf("http://localhost:32400"), "token" := Leaf("")]),
        "rsync" := Dict(map["server_path" := Leaf(""), "target" := Leaf(""), "options" := Leaf("-avP")])]
  }

  /** When both sides hold a mapping at a key, `deep_update` recurses instead of replacing. */
  predicate Recurses(source: Settings, key: string, value: Value) {
    value.Dict? && key in source && source[key].Dict?
  }

  /**
   * The settings `deep_update(source, overrides)` leaves in `source`: every
   * key of either side; a key only in `source` keeps its value; an override
   * replaces the old value wholesale unless both are mappings, in which case
   * the two mappings are merged the same way, so nested keys only in `source`
   * survive.
   */
  function Merged(source: Settings, overrides: Settings): Settings
    decreases Dict(overrides)
  {
    map k | k in source.Keys + overrides.Keys ::
      if k in overrides then
        if Recurses(source, k, overrides[k]) then Dict(Merged(source[k].entries, overrides[k].entries))
        else overrides[k]
      else source[k]
  }

  /**
   * What the merge keeps: every key of either side; a key only in `source`
   * keeps its value; an override replaces the old value wholesale unless
   * both are mappings, and then nested keys only in `source` survive.
   */
  lemma MergedShape(source: Settings, overrides: Settings)
    ensures var r := Merged(source, overrides);
            && r.Keys == source.Keys + overrides.Keys
            && (forall k :: k in source && k !in overrides ==> r[k] == source[k])
            && (forall k :: k in overrides && !Recurses(source, k, overrides[k]) ==> r[k] == overrides[k])
            && (forall k :: k in overrides && Recurses(source, k, overrides[k]) ==>
                  r[k].Dict?
                  && r[k].entries.Keys == source[k].entries.Keys + overrides[k].entries.Keys
                  && forall n :: n in source[k].entries && n !in overrides[k].entries ==>
                                   r[k].entries[n] == source[k].entries[n])
  {
  }

  function Restrict(m: Settings, keys: set<string>): (r: Settings)
    ensures r.Keys == m.Keys * keys
    ensures forall k :: k in r ==> r[k] == m[k]
  {
    map k | k in m && k in keys :: m[k]
  }

  lemma MergedStep(source: Settings, overrides: Settings, done: set<string>, key: string, r: Settings, v: Value)
    requires done <= overrides.Keys && key in overrides && key !in done
    requires r == Merged(source, Restrict(overrides, done))
    requires Recurses(r, key, overrides[key]) ==> v == Dict(Merged(r[key].entries, overrides[key].entries))
    requires !Recurses(r, key, overrides[key]) ==> v == overrides[key]
    ensures r[key := v] == Merged(source, Restrict(overrides, done + {key}))
  {
    var step := Restrict(overrides, done + {key});
    var after := Merged(source, step);
    assert key in source ==> r[key] == source[key];
    assert r[key := v].Keys == after.Keys;
    forall k | k in after ensures r[key := v][k] == after[k] {
      if k != key {
        if k in done {
          assert step[k] == Restrict(overrides, done)[k];
        }
      }
    }
  }

  /**
   * `deep_update(source, overrides)`: walks the override keys, recursing
   * where both sides hold mappings; the result is the merge above.
   */
  method DeepUpdate(source: Settings, overrides: Settings) returns (r: Settings)
    decreases Dict(overrides)
    ensures r == Merged(source, overrides)
  {
    r := source;
    var todo := overrides.Keys;
    assert Restrict(overrides, {}) == map[];
    assert Merged(source, map[]) == source;
    while todo != {}
      invariant todo <= overrides.Keys
      invariant r == Merged(source, Restrict(overrides, overrides.Keys - todo))
      decreases todo
    {
      var key :| key in todo;
      var value := overrides[key];
      ghost var done := overrides.Keys - todo;
      if value.Dict? && key in r && r[key].Dict? {
        assert value == Dict(value.entries);
        var sub := DeepUpdate(r[key].entries, value.entries);
        MergedStep(source, overrides, done, key, r, Dict(sub));
        r := r[key := Dict(sub)];
      } else {
        MergedStep(source, overrides, done, key, r, value);
        r := r[key := value];
      }
      todo := todo - {key};
      assert overrides.Keys - todo == done + {key};
    }
    assert Restrict(overrides, overrides.Keys) == overrides;
  }

  /** An empty override mapping changes nothing. */
  lemma MergedEmpty(source: Settings)
    ensures Merged(source, map[]) == source
  {
  }

  /** Merging a mapping into itself gives it back. */
  lemma {:induction false} MergedSelf(s: Settings)
    decreases Dict(s)
    ensures Merged(s, s) == s
  {
    forall k | k in s && s[k].Dict? ensures Merged(s[k].entries, s[k].entries) == s[k].entries {
      assert s[k] == Dict(s[k].entries);
      MergedSelf(s[k].entries);
    }
  }

  /** Applying the same overrides twice is the same as applying them once. */
  lemma {:induction false} MergedIdempotent(source: Settings, overrides: Settings)
    decreases Dict(overrides)
    ensures Merged(Merged(source, overrides), overrides) == Merged(source, overrides)
  {
    var once := Merged(source, overrides);
    forall k | k in overrides && Recurses(once, k, overrides[k])
      ensures Merged(once[k].entries, overrides[k].entries) == once[k].entries
    {
      var o := overrides[k].entries;
      assert overrides[k] == Dict(o);
      if Recurses(source, k, overrides[k]) {
        MergedIdempotent(source[k].entries, o);
      } else {
        MergedSelf(o);
      }
    }
  }

  /** An environment variable counts only when it is set and non-empty. */
  predicate IsSet(v: Option<string>) {
    v.Some? && v.value != ""
  }

  /**
   * The settings after the file: `file` is what `yaml.safe_load` returned
   * (None when no file was found or reading it failed); only a non-empty
   * mapping is merged, anything else leaves the defaults.
   */
  function FileMerged(file: Option<Value>): (r: Settings)
    ensures "plex" in r && "rsync" in r
    ensures (file.None? || file.value.Leaf?) ==> r == DefaultConfig()
  {
    if file.Some? && file.value.Dict? && file.value.entries != map[] then Merged(DefaultConfig(), file.value.entries)
    else DefaultConfig()
  }

  /** `config["plex"][field]`, when there is such a field. */
  function PlexField(c: Settings, field: string): Option<Value> {
    if "plex" in c && c["plex"].Dict? && field in c["plex"].entries then Some(c["plex"].entries[field]) else None
  }

  /** Writing into `config["plex"]` when the file made it a scalar raises a TypeError. */
  datatype ConfigError = PlexNotAMapping

  /** `config["plex"][field] = value`: only that field of the `plex` mapping changes. */
  function WithPlexField(c: Settings, field: string, value: string): (r: Settings)
    requires "plex" in c && c["plex"].Dict?
    ensures r.Keys == c.Keys && r["plex"].Dict?
    ensures forall k :: k in c && k != "plex" ==> r[k] == c[k]
    ensures PlexField(r, field) == Some(Leaf(value))
    ensures forall f :: f != field ==> PlexField(r, f) == PlexField(c, f)
  {
    c["plex" := Dict(c["plex"].entries[field := Leaf(value)])]
  }

  /**
   * `load_config()`: the defaults, then the file, then PLEX_URL and PLEX_TOKEN
   * written into the `plex` mapping when set and non-empty.
   */
  method LoadConfig(file: Option<Value>, plexUrl: Option<string>, plexToken: Option<string>)
    returns (r: Result<Settings, ConfigError>)
    ensures r.Err? <==> (IsSet(plexUrl) || IsSet(plexToken)) && !FileMerged(file)["plex"].Dict?
    ensures r.Ok? ==> r.value.Keys == FileMerged(file).Keys
    ensures r.Ok? ==> forall k :: k in r.value && k != "plex" ==> r.value[k] == FileMerged(file)[k]
    ensures r.Ok? && IsSet(plexUrl) ==> PlexField(r.value, "url") == Some(Leaf(plexUrl.value))
    ensures r.Ok? && IsSet(plexToken) ==> PlexField(r.value, "token") == Some(Leaf(plexToken.value))
    ensures r.Ok? ==> forall f :: (f != "url" || !IsSet(plexUrl)) && (f != "token" || !IsSet(plexToken)) ==>
                               PlexField(r.value, f) == PlexField(FileMerged(file), f)
    ensures r.Ok? && !IsSet(plexUrl) && !IsSet(plexToken) ==> r.value == FileMerged(file)
  {
    var config := DefaultConfig();
    if file.Some? && file.value.Dict? && file.value.entries != map[] {
      config := DeepUpdate(config, file.value.entries);
    }
    ghost var merged := FileMerged(file);
    assert config == merged;
    if IsSet(plexUrl) {
      if !config["plex"].Dict? {
        return Err(PlexNotAMapping);
      }
      config := WithPlexField(config, "url", plexUrl.value);
    }
    if IsSet(plexToken) {
      if !config["plex"].Dict? {
        return Err(PlexNotAMapping);
      }
      config := WithPlexField(config, "token", plexToken.value);
    }
    return Ok(config);
  }

  /** `Path(base) / name`, with the separator written out. */
  function Join(base: string, name: string): string {
    base + "/" + name
  }

  /** The places searched, in order; the XDG one only when XDG_CONFIG_HOME is set and non-empty. */
  function Candidates(cwd: string, home: string, xdgConfigHome: Option<string>): seq<string> {
    [Join(cwd, "config.yml"), Join(Join(Join(home, ".config"), "plex-sync"), "config.yml")]
    + if IsSet(xdgConfigHome) then [Join(Join(xdgConfigHome.value, "plex-sync"), "config.yml")] else []
  }

  /**
   * `get_config_path()`: the first candidate that exists, or None when none
   * does. `isFile` stands for `Path.exists()`.
   */
  function ConfigPath(cwd: string, home: string, xdgConfigHome: Option<string>, isFile: string -> bool)
    : (r: Option<string>)
    ensures var c := Candidates(cwd, home, xdgConfigHome);
            r.Some? ==> exists i :: 0 <= i < |c| && c[i] == r.value && isFile(c[i])
                                    && forall j :: 0 <= j < i ==> !isFile(c[j])
    ensures r.None? ==> forall p :: p in Candidates(cwd, home, xdgConfigHome) ==> !isFile(p)
  {
    var local := Join(cwd, "config.yml");
    var homeConfig := Join(Join(Join(home, ".config"), "plex-sync"), "config.yml");
    var c := Candidates(cwd, home, xdgConfigHome);
    assert c[0] == local && c[1] == homeConfig;
    if isFile(local) then Some(local)
    else if isFile(homeConfig) then Some(homeConfig)
    else if IsSet(xdgConfigHome) then
      var xdg := Join(Join(xdgConfigHome.value, "plex-sync"), "config.yml");
      assert c[2] == xdg;
      if isFile(xdg) then Some(xdg) else None
    else None
  }
}
