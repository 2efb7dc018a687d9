/**
 * The disk manager (`yzh52521\filesystem\Filesystem`): lookups in the
 * `filesystem` configuration, the table of custom driver creators that
 * `extend` fills, and the order in which a disk's driver constructor is
 * chosen.
 */
module Registry {
  import opened Php
  import opened Errors

  /**
   * `isset`-style lookup one level down: the value under `key` when `v` is
   * an array that sets it, else `default`.
   */
  function Setting(v: Value, key: string, default: Value): (r: Value)
    ensures v.Arr? && Isset(v.entries, key) ==> r == v.entries[key]
    ensures !(v.Arr? && Isset(v.entries, key)) ==> r == default
  {
    if v.Arr? && Isset(v.entries, key) then v.entries[key] else default
  }

  /**
   * The walk `think\Config::get` makes over the segments of a dotted name:
   * each segment must be set (present and not null), or the default is the
   * answer.
   */
  function Walk(segments: seq<string>, v: Value, default: Value): (r: Value)
    ensures segments == [] ==> r == v
    ensures segments != [] && !(v.Arr? && Isset(v.entries, segments[0])) ==> r == default
    ensures |segments| == 1 ==> r == Setting(v, segments[0], default)
    ensures segments != [] ==> r == default || r != Null
    decreases |segments|
  {
    if segments == [] then v
    else if v.Arr? && Isset(v.entries, segments[0]) then Walk(segments[1..], v.entries[segments[0]], default)
    else default
  }

  /**
   * `think\Config::get($name, $default)`: a name without '.' reads the
   * whole section (an unset one is `[]`); a dotted name walks its segments.
   */
  function ConfigGet(root: map<string, Value>, name: string, default: Value): (r: Value)
    ensures '.' !in name ==> r == Setting(Arr(root), name, Arr(map[]))
    ensures '.' in name && !Isset(root, Split(name, '.')[0]) ==> r == default
    ensures '.' in name ==> r == default || r != Null
  {
    if '.' !in name then (if Isset(root, name) then root[name] else Arr(map[]))
    else Walk(Split(name, '.'), Arr(root), default)
  }

  /** The first `d` of `a + [d] + b` when `a` has none is the one after `a`. */
  lemma {:induction false} FirstIndexAfter(a: string, d: char, b: string)
    requires d !in a
    ensures FirstIndex(a + [d] + b, d) == |a|
    decreases |a|
  {
    var s := a + [d] + b;
    if a != [] {
      assert s[0] == a[0] && a[0] != d;
      assert s[1..] == a[1..] + [d] + b;
      FirstIndexAfter(a[1..], d, b);
    }
  }

  /** Splitting at the first '.' of `prefix.rest` when `prefix` has none. */
  lemma SplitDotted(prefix: string, rest: string)
    requires '.' !in prefix
    ensures Split(prefix + "." + rest, '.') == [prefix] + Split(rest, '.')
  {
    var s := prefix + "." + rest;
    assert s[|prefix|] == '.';
    FirstIndexAfter(prefix, '.', rest);
    assert s[..|prefix|] == prefix;
    assert s[|prefix| + 1..] == rest;
  }

  /** The segments of `filesystem.<name>`. */
  lemma FilesystemSplit(name: string)
    ensures Split("filesystem." + name, '.') == ["filesystem"] + Split(name, '.')
  {
    assert "filesystem" + "." + name == "filesystem." + name;
    SplitDotted("filesystem", name);
  }

  /** `filesystem` is a plain section name. */
  lemma SectionNameIsPlain()
    ensures '.' !in "filesystem"
  {
    var section := "filesystem";
    forall i | 0 <= i < |section| ensures section[i] != '.' {
    }
  }

  /** Reading `filesystem.<name>` for a plain name is two `isset` lookups. */
  lemma SettingLookup(root: map<string, Value>, name: string, default: Value)
    ensures '.' !in name ==>
      ConfigGet(root, "filesystem." + name, default) == Setting(Setting(Arr(root), "filesystem", Null), name, default)
  {
    if '.' !in name {
      var full := "filesystem." + name;
      assert full[10] == '.';
      FilesystemSplit(name);
      assert Split(name, '.') == [name];
      var segments := ["filesystem"] + [name];
      assert Split(full, '.') == segments;
      assert '.' in full;
      assert ConfigGet(root, full, default) == Walk(segments, Arr(root), default);
      assert segments[0] == "filesystem" && segments[1..] == [name];
      var section := Setting(Arr(root), "filesystem", Null);
      if Isset(root, "filesystem") {
        assert Walk(segments, Arr(root), default) == Walk([name], section, default);
        assert [name][1..] == [];
        assert Walk([name], section, default) == Setting(section, name, default);
      } else {
        assert Walk(segments, Arr(root), default) == default;
      }
    }
  }

  /** Reading `filesystem.disks.<disk>` for a plain disk name is three `isset` lookups. */
  lemma DiskLookup(root: map<string, Value>, disk: string)
    ensures '.' !in disk ==>
      ConfigGet(root, "filesystem." + ("disks." + disk), Null)
        == Setting(Setting(Setting(Arr(root), "filesystem", Null), "disks", Null), disk, Null)
  {
    if '.' !in disk {
      var full := "filesystem." + ("disks." + disk);
      assert full[10] == '.';
      FilesystemSplit("disks." + disk);
      DisksSplit(disk);
      var segments := ["filesystem", "disks", disk];
      assert Split(full, '.') == segments;
      assert ConfigGet(root, full, Null) == Walk(segments, Arr(root), Null);
      assert segments[1..] == ["disks", disk] && segments[1..][1..] == [disk] && segments[1..][1..][1..] == [];
      var section := Setting(Arr(root), "filesystem", Null);
      var disks := Setting(section, "disks", Null);
      assert Walk(segments, Arr(root), Null) == Walk(["disks", disk], section, Null);
      assert Walk(["disks", disk], section, Null) == Walk([disk], disks, Null);
      assert Walk([disk], disks, Null) == Setting(disks, disk, Null);
    }
  }

  /** The segments of `disks.<disk>` for a disk name without '.'. */
  lemma DisksSplit(disk: string)
    ensures '.' !in disk ==> Split("disks." + disk, '.') == ["disks", disk]
  {
    if '.' !in disk {
      assert "disks" + "." + disk == "disks." + disk;
      SplitDotted("disks", disk);
      assert Split(disk, '.') == [disk];
    }
  }

  /**
   * `think\helper\Arr::get($array, $key, $default)`: a non-array gives the
   * default; a null key the whole array; a present key its value, even
   * null; a missing key without '.' the default; a dotted key walks the
   * segments by presence.
   */
  function ArrGet(v: Value, key: Option<string>, default: Value): (r: Value)
    ensures !v.Arr? ==> r == default
    ensures v.Arr? && key.None? ==> r == v
    ensures v.Arr? && key.Some? && key.value in v.entries ==> r == v.entries[key.value]
    ensures v.Arr? && key.Some? && key.value !in v.entries && '.' !in key.value ==> r == default
  {
    if !v.Arr? then default
    else if key.None? then v
    else if key.value in v.entries then v.entries[key.value]
    else if '.' !in key.value then default
    else ArrWalk(Split(key.value, '.'), v, default)
  }

  /**
   * `Arr::get`'s walk: each segment must be present; a null value is kept.
   * It answers what the configuration walk answers, except that where the
   * last segment holds a present null it answers that null instead of the
   * default.
   */
  function ArrWalk(segments: seq<string>, v: Value, default: Value): (r: Value)
    ensures segments == [] ==> r == v
    ensures segments != [] && !(v.Arr? && segments[0] in v.entries) ==> r == default
    ensures segments != [] ==> Walk(segments, v, default) == (if r == Null then default else r)
    decreases |segments|
  {
    if segments == [] then v
    else if v.Arr? && segments[0] in v.entries then ArrWalk(segments[1..], v.entries[segments[0]], default)
    else default
  }

  /**
   * Unlike the configuration walk, `Arr::get` follows a dotted key into a
   * present null value.
   */
  lemma ArrGetKeepsNull(outer: string, inner: string, default: Value)
    requires '.' !in outer && '.' !in inner
    ensures ArrGet(Arr(map[outer := Arr(map[inner := Null])]), Some(outer + "." + inner), default) == Null
  {
    var key := outer + "." + inner;
    assert key[|outer|] == '.';
    SplitDotted(outer, inner);
    assert Split(inner, '.') == [inner];
    assert |key| > |outer|;
    var segments := [outer, inner];
    assert Split(key, '.') == segments;
    var m := map[outer := Arr(map[inner := Null])];
    assert key !in m;
    assert ArrGet(Arr(m), Some(key), default) == ArrWalk(segments, Arr(m), default);
    assert segments[1..] == [inner] && segments[1..][1..] == [];
    assert ArrWalk(segments, Arr(m), default) == ArrWalk([inner], Arr(map[inner := Null]), default);
    assert ArrWalk([inner], Arr(map[inner := Null]), default) == ArrWalk([], Null, default);
  }

  /** A closure registered with `extend`, by identity. */
  datatype Creator = Creator(id: nat)

  /** How `createDriver` builds a disk's driver. */
  datatype Construction =
    | ByCustomCreator(creator: Creator)  // a creator registered under the disk's name
    | ByFactoryMethod(name: string)      // a `create<Type>Driver` method of the manager
    | ByDriverClass(name: string)        // a driver class instantiated by the container

  /** The namespace driver classes are resolved in. */
  const DriverNamespace := "\\yzh52521\\filesystem\\driver\\"

  /** The exception `driver` raises when neither a name nor a default is given. */
  const NullDriver := "Unable to resolve NULL driver for [yzh52521\\filesystem\\Filesystem]."

  /** The message of the exception for a disk without configuration. */
  function DiskNotFound(disk: string): string
  {
    "Disk [" + disk + "] not found."
  }

  class Filesystem {
    /** The registered custom driver creators, by disk name. */
    var customCreators: map<string, Creator>

    /** The application's configuration. */
    const config: map<string, Value>
    /** `Str::studly`. */
    const studly: string -> string
    /** The `create...Driver` methods the manager defines. */
    const factoryMethods: set<string>
    /** The classes that exist. */
    const classes: set<string>

    constructor (config: map<string, Value>, studly: string -> string, factoryMethods: set<string>,
                 classes: set<string>)
      ensures this.config == config && this.studly == studly
      ensures this.factoryMethods == factoryMethods && this.classes == classes
      ensures customCreators == map[]
    {
      this.config := config;
      this.studly := studly;
      this.factoryMethods := factoryMethods;
      this.classes := classes;
      customCreators := map[];
    }

    /**
     * `getConfig`: the `filesystem` section, or the setting `name` inside
     * it with `default` for one that is not set.
     */
    function GetConfig(name: Option<string>, default: Value): (r: Value)
      ensures name.None? ==> r == (if Isset(config, "filesystem") then config["filesystem"] else Arr(map[]))
      ensures name.Some? && '.' !in name.value ==>
        r == Setting(Setting(Arr(config), "filesystem", Null), name.value, default)
    {
      if name.None? then
        SectionNameIsPlain();
        ConfigGet(config, "filesystem", Null)
      else
        SettingLookup(config, name.value, default);
        ConfigGet(config, "filesystem." + name.value, default)
    }

    /** `getDefaultDriver`: the `filesystem.default` setting, or null. */
    function GetDefaultDriver(): (r: Value)
      ensures r == Setting(Setting(Arr(config), "filesystem", Null), "default", Null)
    {
      GetConfig(Some("default"), Null)
    }

    /** `config('filesystem.disks.<disk>')`: the disk's configuration, or null. */
    function DiskEntry(disk: string): (v: Value)
      ensures '.' !in disk ==>
        v == Setting(Setting(Setting(Arr(config), "filesystem", Null), "disks", Null), disk, Null)
    {
      DiskLookup(config, disk);
      GetConfig(Some("disks." + disk), Null)
    }

    /**
     * `getDiskConfig`: a disk whose configuration is missing or falsy (an
     * empty array included) is refused; otherwise the setting `name` of it,
     * looked up as `Arr::get` does.
     */
    function GetDiskConfig(disk: string, name: Option<string>, default: Value): (r: Result<Value>)
      ensures r.Raised? <==> !Truthy(DiskEntry(disk))
      ensures r.Raised? ==> r.error == InvalidArgument(DiskNotFound(disk))
      ensures r.Ok? && !DiskEntry(disk).Arr? ==> r.value == default
      ensures r.Ok? && DiskEntry(disk).Arr? && name.None? ==> r.value == DiskEntry(disk)
      ensures r.Ok? && DiskEntry(disk).Arr? && name.Some? && '.' !in name.value ==>
        r.value == (if name.value in DiskEntry(disk).entries then DiskEntry(disk).entries[name.value] else default)
    {
      var entry := DiskEntry(disk);
      if Truthy(entry) then Ok(ArrGet(entry, name, default))
      else Raised(InvalidArgument(DiskNotFound(disk)))
    }

    /**
     * `resolveType`: the disk's `type`, `local` when it has none; an
     * unknown disk is refused.
     */
    function ResolveType(disk: string): (r: Result<Value>)
      ensures r.Raised? <==> !Truthy(DiskEntry(disk))
      ensures r.Raised? ==> r.error == InvalidArgument(DiskNotFound(disk))
      ensures r.Ok? && DiskEntry(disk).Arr? ==>
        r.value == (if "type" in DiskEntry(disk).entries then DiskEntry(disk).entries["type"] else Str("local"))
    {
      GetDiskConfig(disk, Some("type"), Str("local"))
    }

    /**
     * The class a type names: the type itself when it holds a '\', else
     * the studly type in the driver namespace; one that does not exist is
     * refused.
     */
    function ResolveClass(t: string): (r: Result<Construction>)
      ensures r.Ok? ==> r.value.ByDriverClass? && r.value.name in classes
      ensures '\\' in t ==> (r.Ok? <==> t in classes)
      ensures '\\' !in t ==> (r.Ok? <==> DriverNamespace + studly(t) in classes)
      ensures r.Raised? ==> r.error == InvalidArgument("Driver [" + t + "] not supported.")
      ensures r.Ok? ==> r.value == ByDriverClass(if '\\' in t then t else DriverNamespace + studly(t))
    {
      var cls := if '\\' in t then t else DriverNamespace + studly(t);
      if cls in classes then Ok(ByDriverClass(cls))
      else Raised(InvalidArgument("Driver [" + t + "] not supported."))
    }

    /**
     * `createDriver`: the disk's type is resolved first, so an unknown
     * disk is refused even when a creator is registered for it; then a
     * creator registered under the disk's name wins; then a
     * `create<Type>Driver` method; then the driver class.
     */
    function CreateDriver(disk: string): (r: Result<Construction>)
      reads this
      ensures ResolveType(disk).Raised? ==> r == Raised(ResolveType(disk).error)
      ensures ResolveType(disk).Ok? && disk in customCreators ==> r == Ok(ByCustomCreator(customCreators[disk]))
      ensures r.Ok? && r.value.ByCustomCreator? ==> disk in customCreators
      ensures ResolveType(disk).Ok? && disk !in customCreators && ResolveType(disk).value.Str? ==>
        r == (if "create" + studly(ResolveType(disk).value.s) + "Driver" in factoryMethods
              then Ok(ByFactoryMethod("create" + studly(ResolveType(disk).value.s) + "Driver"))
              else ResolveClass(ResolveType(disk).value.s))
      ensures ResolveType(disk).Ok? && disk !in customCreators && !ResolveType(disk).value.Str? ==>
        r == Raised(TypeError)
      ensures r.Ok? && r.value.ByFactoryMethod? ==>
        && disk !in customCreators
        && ResolveType(disk).Ok? && ResolveType(disk).value.Str?
        && r.value.name == "create" + studly(ResolveType(disk).value.s) + "Driver"
        && r.value.name in factoryMethods
      ensures r.Ok? && r.value.ByDriverClass? ==>
        && disk !in customCreators
        && ResolveType(disk).Ok? && ResolveType(disk).value.Str?
        && "create" + studly(ResolveType(disk).value.s) + "Driver" !in factoryMethods
        && r == ResolveClass(ResolveType(disk).value.s)
    {
      match ResolveType(disk)
      case Raised(e) => Raised(e)
      case Ok(t) =>
        if disk in customCreators then Ok(ByCustomCreator(customCreators[disk]))
        else if !t.Str? then Raised(TypeError)
        else
          var factory := "create" + studly(t.s) + "Driver";
          if factory in factoryMethods then Ok(ByFactoryMethod(factory))
          else ResolveClass(t.s)
    }

    /**
     * `callCustomCreator($config)` as `createDriver` calls it: with the
     * resolved type in the slot declared `array`. A type that is not an
     * array is refused with a `TypeError`; an array type calls the creator
     * registered under its `driver` entry.
     */
    function CallCustomCreatorWithType(t: Value): (r: Result<Construction>)
      reads this
      ensures !t.Arr? ==> r == Raised(TypeError)
      ensures r.Ok? ==> t.Arr? && "driver" in t.entries && t.entries["driver"].Str?
                        && t.entries["driver"].s in customCreators
                        && r.value == ByCustomCreator(customCreators[t.entries["driver"].s])
      ensures r.Raised? && t.Arr? ==> r.error == PhpError
      ensures t.Arr? && "driver" in t.entries && t.entries["driver"].Str? && t.entries["driver"].s in customCreators ==>
        r.Ok?
    {
      if !t.Arr? then Raised(TypeError)
      else if "driver" in t.entries && t.entries["driver"].Str? && t.entries["driver"].s in customCreators then
        Ok(ByCustomCreator(customCreators[t.entries["driver"].s]))
      else Raised(PhpError)
    }

    /**
     * `createDriver` as written: once a creator is registered under the
     * disk's name, the type is handed to `callCustomCreator`.
     */
    function CreateDriverAsWritten(disk: string): (r: Result<Construction>)
      reads this
      ensures ResolveType(disk).Raised? ==> r == Raised(ResolveType(disk).error)
      ensures ResolveType(disk).Ok? && disk in customCreators ==>
        r == CallCustomCreatorWithType(ResolveType(disk).value)
      ensures disk !in customCreators ==> r == CreateDriver(disk)
    {
      match ResolveType(disk)
      case Raised(e) => Raised(e)
      case Ok(t) =>
        if disk in customCreators then CallCustomCreatorWithType(t)
        else CreateDriver(disk)
    }

    /**
     * `extend`: registers `callback` under `driver`, replacing any earlier
     * one, and answers the manager itself. Only that disk's construction
     * changes.
     */
    method Extend(driver: string, callback: Creator) returns (self: Filesystem)
      modifies this
      ensures self == this
      ensures customCreators == old(customCreators)[driver := callback]
      ensures ResolveType(driver).Ok? ==> CreateDriver(driver) == Ok(ByCustomCreator(callback))
      ensures forall disk :: disk != driver ==> CreateDriver(disk) == old(CreateDriver(disk))
    {
      customCreators := customCreators[driver := callback];
      self := this;
    }

    /**
     * `driver` of the manager: an empty name (or none) falls back to the
     * default disk; no default at all is refused.
     */
    function Driver(name: Option<string>): (r: Result<Construction>)
      reads this
      ensures name.Some? && Truthy(Str(name.value)) ==> r == CreateDriver(name.value)
      ensures !(name.Some? && Truthy(Str(name.value))) && GetDefaultDriver().Str? ==>
        r == CreateDriver(GetDefaultDriver().s)
      ensures !(name.Some? && Truthy(Str(name.value))) && GetDefaultDriver() == Null ==>
        r == Raised(InvalidArgument(NullDriver))
      ensures !(name.Some? && Truthy(Str(name.value))) && GetDefaultDriver() != Null && !GetDefaultDriver().Str? ==>
        r == Raised(TypeError)
    {
      var resolved := if name.Some? && Truthy(Str(name.value)) then Str(name.value) else GetDefaultDriver();
      match resolved
      case Null => Raised(InvalidArgument(NullDriver))
      case Str(s) => CreateDriver(s)
      case _ => Raised(TypeError)
    }

    /** `disk`: the named disk's driver, or the default disk's. */
    function Disk(name: Option<string>): (r: Result<Construction>)
      reads this
      ensures name.Some? && Truthy(Str(name.value)) ==> r == CreateDriver(name.value)
      ensures !(name.Some? && Truthy(Str(name.value))) && GetDefaultDriver().Str? ==>
        r == CreateDriver(GetDefaultDriver().s)
      ensures !(name.Some? && Truthy(Str(name.value))) && GetDefaultDriver() == Null ==>
        r == Raised(InvalidArgument(NullDriver))
      ensures !(name.Some? && Truthy(Str(name.value))) && GetDefaultDriver() != Null && !GetDefaultDriver().Str? ==>
        r == Raised(TypeError)
    {
      Driver(name)
    }

    /** `cloud`: the same driver `disk` gives. */
    function Cloud(name: Option<string>): (r: Result<Construction>)
      reads this
      ensures r == Disk(name)
    {
      Driver(name)
    }
  }

  /**
   * As written, a creator registered for a disk whose type is a string (the
   * `local` default included) is never called: the call is refused with a
   * `TypeError`, where the corrected `CreateDriver` builds the disk with it.
   */
  lemma CustomCreatorNeverCalledAsWritten(fs: Filesystem, disk: string, callback: Creator)
    requires fs.ResolveType(disk).Ok? && fs.ResolveType(disk).value.Str?
    requires disk in fs.customCreators && fs.customCreators[disk] == callback
    ensures fs.CreateDriverAsWritten(disk) == Raised(TypeError)
    ensures fs.CreateDriver(disk) == Ok(ByCustomCreator(callback))
  {
  }

  /**
   * A disk configured as an empty array is unknown: `getDiskConfig` tests
   * the entry's truth, not its presence.
   */
  lemma EmptyDiskIsUnknown(fs: Filesystem, disk: string)
    requires '.' !in disk
    requires "filesystem" in fs.config && fs.config["filesystem"].Arr?
    requires "disks" in fs.config["filesystem"].entries && fs.config["filesystem"].entries["disks"].Arr?
    requires fs.config["filesystem"].entries["disks"].entries == map[disk := Arr(map[])]
    ensures fs.ResolveType(disk) == Raised(InvalidArgument(DiskNotFound(disk)))
  {
    assert fs.DiskEntry(disk) == Arr(map[]);
  }

  /** A configured disk without a `type` is a local disk. */
  lemma TypeDefaultsToLocal(fs: Filesystem, disk: string, settings: map<string, Value>)
    requires '.' !in disk && settings != map[] && "type" !in settings
    requires "filesystem" in fs.config && fs.config["filesystem"].Arr?
    requires "disks" in fs.config["filesystem"].entries && fs.config["filesystem"].entries["disks"].Arr?
    requires disk in fs.config["filesystem"].entries["disks"].entries
    requires fs.config["filesystem"].entries["disks"].entries[disk] == Arr(settings)
    ensures fs.ResolveType(disk) == Ok(Str("local"))
  {
    assert fs.DiskEntry(disk) == Arr(settings);
  }
}
