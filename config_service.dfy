/**
  `ConfigService` without its file system: how a vehicle name becomes a file
  name, how detected PIDs are chosen, the fallback to the default PIDs when
  a config is created, and the order of the config list.
*/
module ConfigService {
  import opened Common
  import opened Text
  import opened Ordering
  import opened Timestamps
  import opened ConfigModels

  const ConfigSuffix: string := ".json"
  const DatabaseSuffix: string := ".db"

  /** `DEFAULT_SUPPORTED_PIDS`; as a value, every use is a fresh copy. */
  const DefaultSupportedPids: seq<string> :=
    ["SPEED", "RPM", "COOLANT_TEMP", "INTAKE_TEMP", "THROTTLE_POS", "FUEL_LEVEL", "MAF"]

  // ---------------------------------------------------------------- slugs

  predicate IsSlugChar(c: char) { IsAsciiLower(c) || IsAsciiDigit(c) || c == '-' }

  /** What `_slugify` produces: lower-case letters, digits and single dashes
      between them, never empty. */
  predicate IsSlug(s: string) {
    && s != []
    && (forall i :: 0 <= i < |s| ==> IsSlugChar(s[i]))
    && s[0] != '-' && s[|s| - 1] != '-'
    && (forall i :: 0 <= i < |s| - 1 ==> !(s[i] == '-' && s[i + 1] == '-'))
  }

  /** Characters that are ASCII letters, digits or dashes, with no two dashes in a row. */
  predicate DashedAlnum(s: string) {
    && (forall i :: 0 <= i < |s| ==> IsAsciiAlnum(s[i]) || s[i] == '-')
    && (forall i :: 0 <= i < |s| - 1 ==> !(s[i] == '-' && s[i + 1] == '-'))
  }

  /** The ASCII letters and digits of `s`, in order. */
  function Alnums(s: string): string {
    if s == [] then []
    else (if IsAsciiAlnum(s[0]) then [s[0]] else []) + Alnums(s[1..])
  }

  lemma {:induction false} AlnumsAppend(a: string, b: string)
    ensures Alnums(a + b) == Alnums(a) + Alnums(b)
  {
    if a == [] {
      assert a + b == b;
    } else {
      var head := if IsAsciiAlnum(a[0]) then [a[0]] else [];
      assert (a + b)[0] == a[0] && (a + b)[1..] == a[1..] + b;
      assert Alnums(a + b) == head + Alnums(a[1..] + b);
      AlnumsAppend(a[1..], b);
      assert Alnums(a) == head + Alnums(a[1..]);
    }
  }

  /** Drops the leading run of characters that are not ASCII letters or digits. */
  function SkipRun(s: string): (r: string)
    ensures |r| <= |s| && r == s[|s| - |r|..]
    ensures r != [] ==> IsAsciiAlnum(r[0])
    ensures Alnums(r) == Alnums(s)
  {
    if s == [] || IsAsciiAlnum(s[0]) then s else SkipRun(s[1..])
  }

  /** `re.sub(r"[^a-zA-Z0-9]+", "-", s)`: every maximal run of other
      characters becomes one dash. */
  function Collapse(s: string): (r: string)
    ensures s != [] && IsAsciiAlnum(s[0]) ==> r != [] && r[0] == s[0]
    ensures s == [] <==> r == []
    decreases |s|
  {
    if s == [] then []
    else if IsAsciiAlnum(s[0]) then [s[0]] + Collapse(s[1..])
    else "-" + Collapse(SkipRun(s[1..]))
  }

  /** A letter or digit in front keeps the shape. */
  lemma DashedAlnumCons(c: char, rest: string)
    requires IsAsciiAlnum(c) && DashedAlnum(rest)
    ensures DashedAlnum([c] + rest)
  {
    var r := [c] + rest;
    forall i | 0 <= i < |r| - 1 ensures !(r[i] == '-' && r[i + 1] == '-') {
      if i > 0 { assert r[i] == rest[i - 1] && r[i + 1] == rest[i]; }
    }
  }

  /** A dash in front of a letter or digit, or of nothing, keeps the shape. */
  lemma DashedAlnumDash(rest: string)
    requires DashedAlnum(rest) && (rest == [] || IsAsciiAlnum(rest[0]))
    ensures DashedAlnum("-" + rest)
  {
    var r := "-" + rest;
    forall i | 0 <= i < |r| - 1 ensures !(r[i] == '-' && r[i + 1] == '-') {
      if i > 0 { assert r[i] == rest[i - 1] && r[i + 1] == rest[i]; }
    }
  }

  /** The substitution keeps the letters and digits in order and leaves no
      other character than single dashes between them. */
  lemma {:induction false} CollapseShape(s: string)
    ensures DashedAlnum(Collapse(s)) && Alnums(Collapse(s)) == Alnums(s)
    decreases |s|
  {
    if s != [] {
      if IsAsciiAlnum(s[0]) {
        var rest := Collapse(s[1..]);
        CollapseShape(s[1..]);
        assert Alnums(s) == [s[0]] + Alnums(s[1..]);
        AlnumsAppend([s[0]], rest);
        DashedAlnumCons(s[0], rest);
      } else {
        var t := SkipRun(s[1..]);
        var rest := Collapse(t);
        CollapseShape(t);
        AlnumsAppend("-", rest);
        assert Alnums(s) == Alnums(s[1..]);
        DashedAlnumDash(rest);
      }
    }
  }

  /** `s.strip("-")`. */
  function TrimDashes(s: string): (r: string)
    ensures |r| <= |s|
    ensures r != [] ==> r[0] != '-' && r[|r| - 1] != '-'
  {
    if s != [] && s[0] == '-' then TrimDashes(s[1..])
    else if s != [] && s[|s| - 1] == '-' then TrimDashes(s[..|s| - 1])
    else s
  }

  /** Trimming only removes dashes: the letters and digits stay, and so does
      the shape. */
  lemma {:induction false} TrimDashesKeeps(s: string)
    requires DashedAlnum(s)
    ensures DashedAlnum(TrimDashes(s)) && Alnums(TrimDashes(s)) == Alnums(s)
    decreases |s|
  {
    if s != [] && s[0] == '-' {
      assert DashedAlnum(s[1..]);
      TrimDashesKeeps(s[1..]);
      AlnumsAppend([s[0]], s[1..]);
      assert s == [s[0]] + s[1..];
    } else if s != [] && s[|s| - 1] == '-' {
      assert DashedAlnum(s[..|s| - 1]);
      TrimDashesKeeps(s[..|s| - 1]);
      AlnumsAppend(s[..|s| - 1], [s[|s| - 1]]);
      assert s == s[..|s| - 1] + [s[|s| - 1]];
    }
  }

  /** `_slugify(name)`. */
  function Slugify(name: string): (r: string)
    ensures IsSlug(r)
    ensures Alnums(Lower(Strip(name))) == [] ==> r == "vehicle"
    ensures Alnums(Lower(Strip(name))) != [] ==> Alnums(r) == Alnums(Lower(Strip(name)))
  {
    var lowered := Lower(Strip(name));
    var t := TrimDashes(Collapse(lowered));
    SlugifyShape(lowered, t);
    if t == [] then VehicleIsSlug(); "vehicle" else t
  }

  lemma VehicleIsSlug()
    ensures IsSlug("vehicle")
  {
    var v := "vehicle";
    assert forall i :: 0 <= i < |v| ==> IsAsciiLower(v[i]);
  }

  lemma SlugifyShape(lowered: string, t: string)
    requires forall i :: 0 <= i < |lowered| ==> !IsAsciiUpper(lowered[i])
    requires t == TrimDashes(Collapse(lowered))
    ensures t == [] <==> Alnums(lowered) == []
    ensures t != [] ==> IsSlug(t)
    ensures Alnums(t) == Alnums(lowered)
  {
    var c := Collapse(lowered);
    CollapseShape(lowered);
    TrimDashesKeeps(c);
    NoUpperAlnums(lowered);
    assert Alnums(t) == Alnums(c);
    if t != [] {
      assert IsAsciiAlnum(t[0]);
      assert Alnums(t) == [t[0]] + Alnums(t[1..]);
      forall i | 0 <= i < |t| ensures IsSlugChar(t[i]) {
        if t[i] != '-' { AlnumMember(t, i); }
      }
    }
  }

  /** Each ASCII letter or digit of `s` shows up in `Alnums(s)`. */
  lemma {:induction false} AlnumMember(s: string, i: int)
    requires 0 <= i < |s| && IsAsciiAlnum(s[i])
    ensures s[i] in Alnums(s)
  {
    if i > 0 { AlnumMember(s[1..], i - 1); }
  }

  lemma {:induction false} NoUpperAlnums(s: string)
    requires forall i :: 0 <= i < |s| ==> !IsAsciiUpper(s[i])
    ensures forall c :: c in Alnums(s) ==> IsAsciiLower(c) || IsAsciiDigit(c)
  {
    if s != [] { NoUpperAlnums(s[1..]); }
  }

  lemma {:induction false} CollapseFixed(s: string)
    requires DashedAlnum(s)
    ensures Collapse(s) == s
    decreases |s|
  {
    if s != [] {
      assert DashedAlnum(s[1..]);
      CollapseFixed(s[1..]);
      if !IsAsciiAlnum(s[0]) {
        assert s[1..] == [] || IsAsciiAlnum(s[1]);
        assert SkipRun(s[1..]) == s[1..];
      }
    }
  }

  /** A slug is its own slug. */
  lemma SlugFixed(s: string)
    requires IsSlug(s)
    ensures Slugify(s) == s
  {
    assert !IsSpace(s[0]) && !IsSpace(s[|s| - 1]);
    StripIdentity(s);
    assert forall i :: 0 <= i < |s| ==> LowerFixed(s[i]);
    LowerIdentity(s);
    assert DashedAlnum(s);
    CollapseFixed(s);
    assert TrimDashes(s) == s;
  }

  /** `_slugify` is idempotent. */
  lemma SlugifyIdempotent(name: string)
    ensures Slugify(Slugify(name)) == Slugify(name)
  {
    SlugFixed(Slugify(name));
  }

  // ---------------------------------------------------------------- paths

  /** `_config_path_for_name`. */
  function ConfigPathFor(configDir: Path, name: string): Path {
    configDir + [Slugify(name) + ConfigSuffix]
  }

  /** `_database_path_for_name`, without `.resolve()`. */
  function DatabasePathFor(databaseRoot: Path, name: string): Path {
    databaseRoot + [Slugify(name) + DatabaseSuffix]
  }

  lemma SuffixCancel(a: string, b: string, suffix: string)
    requires a + suffix == b + suffix
    ensures a == b
  {
    assert a == (a + suffix)[..|a|];
    assert b == (b + suffix)[..|b|];
  }

  /** Two names share their config file, and their database file, exactly
      when they have the same slug; the file names are the slug and a suffix. */
  lemma SameFilesIffSameSlug(configDir: Path, databaseRoot: Path, a: string, b: string)
    ensures ConfigPathFor(configDir, a) == ConfigPathFor(configDir, b) <==> Slugify(a) == Slugify(b)
    ensures DatabasePathFor(databaseRoot, a) == DatabasePathFor(databaseRoot, b) <==> Slugify(a) == Slugify(b)
    ensures ConfigPathFor(configDir, a)[..|configDir|] == configDir
    ensures ConfigPathFor(configDir, a)[|configDir|] == Slugify(a) + ".json"
    ensures DatabasePathFor(databaseRoot, a)[|databaseRoot|] == Slugify(a) + ".db"
  {
    if ConfigPathFor(configDir, a) == ConfigPathFor(configDir, b) {
      assert ConfigPathFor(configDir, a)[|configDir|] == ConfigPathFor(configDir, b)[|configDir|];
      SuffixCancel(Slugify(a), Slugify(b), ConfigSuffix);
    }
    if DatabasePathFor(databaseRoot, a) == DatabasePathFor(databaseRoot, b) {
      assert DatabasePathFor(databaseRoot, a)[|databaseRoot|] == DatabasePathFor(databaseRoot, b)[|databaseRoot|];
      SuffixCancel(Slugify(a), Slugify(b), DatabaseSuffix);
    }
  }

  // ---------------------------------------------------------------- detection

  /** What opening the adapter gives `detect_supported_pids`: the constructor
      raised, the adapter is not connected, or it reports `supported_commands`
      by name (an empty name stands for a command without a name attribute;
      an empty list also covers a missing or `None` attribute). */
  datatype Probe = OpenRaised | NotConnected | Connected(commands: seq<string>)

  /** `ConfigDetectionError`, by cause. */
  datatype DetectionError =
    | OpenFailed(port: string)
    | AdapterNotConnected(port: string)
    | NoCommandsReported

  function NonEmptyNames(names: seq<string>): (r: seq<string>)
    ensures forall x :: x in r <==> x in names && x != ""
  {
    if names == [] then []
    else (if names[0] != "" then [names[0]] else []) + NonEmptyNames(names[1..])
  }

  ghost predicate NoRepeats(s: seq<string>) { forall x :: multiset(s)[x] <= 1 }

  /** The elements of `s`, each once. */
  function Dedup(s: seq<string>): (r: seq<string>)
    ensures forall x :: x in r <==> x in s
    ensures NoRepeats(r)
  {
    if s == [] then []
    else if s[0] in s[1..] then Dedup(s[1..])
    else
      var rest := Dedup(s[1..]);
      assert multiset([s[0]] + rest) == multiset{s[0]} + multiset(rest);
      [s[0]] + rest
  }

  predicate StrictlyAscending(s: seq<string>) {
    forall i, j :: 0 <= i < j < |s| ==> Less(s[i], s[j])
  }

  lemma RepeatCounts(s: seq<string>, i: int, j: int)
    requires 0 <= i < j < |s| && s[i] == s[j]
    ensures multiset(s)[s[i]] >= 2
  {
    assert s == s[..j] + [s[j]] + s[j + 1..];
    assert s[i] in s[..j];
  }

  /** `sorted({cmd.name for cmd in commands if cmd.name})`. */
  function SortedNameSet(commands: seq<string>): (r: seq<string>)
    ensures StrictlyAscending(r)
    ensures forall x :: x in r <==> x in commands && x != ""
  {
    var names := Dedup(NonEmptyNames(commands));
    var r := SortStrings(names);
    SortStringsSpec(names);
    assert forall x :: x in r <==> x in multiset(names);
    forall i, j | 0 <= i < j < |r| ensures Less(r[i], r[j]) {
      if r[i] == r[j] { RepeatCounts(r, i, j); }
    }
    r
  }

  /** The outcome of `detect_supported_pids(port)` for the adapter's answer. */
  function DetectSupportedPids(port: string, probe: Probe): (r: Result<seq<string>, DetectionError>)
    ensures probe.OpenRaised? ==> r == Err(OpenFailed(port))
    ensures probe.NotConnected? ==> r == Err(AdapterNotConnected(port))
    ensures probe.Connected? && probe.commands == [] ==> r == Err(NoCommandsReported)
    ensures probe.Connected? && probe.commands != [] && (forall x :: x in probe.commands ==> x == "")
      ==> r == Ok(DefaultSupportedPids)
    ensures probe.Connected? && (exists x :: x in probe.commands && x != "") ==> (
      && r.Ok? && StrictlyAscending(r.value)
      && forall x :: x in r.value <==> x in probe.commands && x != "")
    ensures r.Ok? ==> r.value != []
  {
    match probe
    case OpenRaised => Err(OpenFailed(port))
    case NotConnected => Err(AdapterNotConnected(port))
    case Connected(commands) =>
      if commands == [] then Err(NoCommandsReported)
      else
        var names := SortedNameSet(commands);
        if names == [] then Ok(DefaultSupportedPids)
        else assert names[0] in names; Ok(names)
  }

  // ---------------------------------------------------------------- creation

  /** `create_config` without writing the file: PIDs come from detection when
      it is enabled and succeeds, and are the defaults otherwise. */
  method CreateConfig(databaseRoot: Path, name: string, adapterPort: string, metadata: Option<map<string, string>>,
                      pollingInterval: real, autoDetect: bool, probe: Probe, now: Instant)
    returns (r: Result<CarConfig, ValidationError>)
    ensures r.Ok? <==> pollingInterval >= MinPollingInterval
    ensures r.Err? ==> r.error == IntervalTooSmall(pollingInterval)
    ensures r.Ok? ==> (
      && r.value.name == name && r.value.adapterPort == adapterPort
      && r.value.databasePath == DatabasePathFor(databaseRoot, name)
      && r.value.supportedPids
         == (if autoDetect && DetectSupportedPids(adapterPort, probe).Ok?
             then DetectSupportedPids(adapterPort, probe).value else DefaultSupportedPids)
      && r.value.pollingInterval == pollingInterval
      && r.value.metadata == (if metadata.Some? then metadata.value else map[])
      && r.value.createdAt == Some(now))
    ensures r.Ok? ==> r.value.supportedPids != []
  {
    var supported: seq<string> := [];
    if autoDetect {
      var detected := DetectSupportedPids(adapterPort, probe);
      if detected.Ok? {
        supported := detected.value;
      } else {
        supported := DefaultSupportedPids;
      }
    } else {
      supported := DefaultSupportedPids;
    }
    var meta := if metadata.Some? then metadata.value else map[];
    r := NewCarConfig(name, adapterPort, DatabasePathFor(databaseRoot, name), supported, pollingInterval, meta, Some(now));
  }

  // ---------------------------------------------------------------- listing

  /** The sort key of `list_configs`. */
  function LowerName(c: CarConfig): string { Lower(c.name) }

  /** The configs that passed validation, in file order. */
  function Loaded(files: seq<Option<CarConfig>>): (r: seq<CarConfig>)
    ensures forall c :: c in r <==> Some(c) in files
  {
    if files == [] then []
    else
      var last := files[|files| - 1];
      assert files == files[..|files| - 1] + [last];
      Loaded(files[..|files| - 1]) + (if last.Some? then [last.value] else [])
  }

  /** `list_configs` over the config files in path order, each already
      validated (`None` for a file validation rejected): the valid configs
      sorted by lower-cased name, configs with equal keys kept in path order. */
  method ListConfigs(files: seq<Option<CarConfig>>) returns (r: seq<CarConfig>)
    ensures SortedBy(r, LowerName, false)
    ensures multiset(r) == multiset(Loaded(files))
    ensures forall k :: WithKey(r, LowerName, k) == WithKey(Loaded(files), LowerName, k)
  {
    var configs: seq<CarConfig> := [];
    for i := 0 to |files|
      invariant configs == Loaded(files[..i])
    {
      assert files[..i + 1] == files[..i] + [files[i]];
      if files[i].Some? {
        configs := configs + [files[i].value];
      }
    }
    assert files[..|files|] == files;
    SortBySorted(configs, LowerName, false);
    forall k ensures WithKey(SortBy(configs, LowerName, false), LowerName, k) == WithKey(configs, LowerName, k) {
      SortByStable(configs, LowerName, false, k);
    }
    r := SortBy(configs, LowerName, false);
  }
}
