/** The urunc configuration as it travels through state.json: flattened to dotted string keys at create, and
    rebuilt by loops over a map in whatever order the map is visited. */
module UruncConfig {
  import opened GoStrings
  import opened Strconv
  import opened ConfigKeys

  datatype Runtime = Runtime(libcontainer: bool, vAccel: bool)

  datatype Monitor = Monitor(
    memoryMB: uint64, vcpus: uint64, binaryPath: string, dataPath: string, vhost: bool, socketPath: string)

  datatype ExtraBin = ExtraBin(path: string, options: string)

  datatype Config = Config(runtime: Runtime, monitors: map<string, Monitor>, extraBins: map<string, ExtraBin>)

  const DEFAULT_MONITOR := Monitor(256, 1, "", "", false, "")
  const ZERO_MONITOR := Monitor(0, 0, "", "", false, "")
  const ZERO_EXTRA_BIN := ExtraBin("", "")

  function DefaultMonitors(): map<string, Monitor> {
    map[
      "qemu" := DEFAULT_MONITOR, "hvt" := DEFAULT_MONITOR, "spt" := DEFAULT_MONITOR, "firecracker" := DEFAULT_MONITOR,
      "cloud-hypervisor" := DEFAULT_MONITOR, "hyperlight-unikraft" := DEFAULT_MONITOR]
  }

  function DefaultExtraBins(): map<string, ExtraBin> {
    map["virtiofsd" := ExtraBin("/usr/libexec/virtiofsd", "--cache always --sandbox none")]
  }

  // ------------------------------------------------------------------ flattening

  function MonitorText(m: Monitor, field: Field): Option<string> {
    match field
    case MemoryMB => Some(FormatUint(m.memoryMB))
    case VCPUs => Some(FormatUint(m.vcpus))
    case BinaryPath => Some(m.binaryPath)
    case DataPath => Some(m.dataPath)
    case Vhost => Some(FormatBool(m.vhost))
    case SocketPath => Some(m.socketPath)
    case Path => None
    case Options => None
  }

  function ExtraBinText(b: ExtraBin, field: Field): Option<string> {
    match field
    case Path => Some(b.path)
    case Options => Some(b.options)
    case _ => None
  }

  /** What the configuration has to say at a place. */
  function ValueAt(cfg: Config, s: Slot): Option<string> {
    match s
    case RuntimeSlot(Libcontainer) => Some(FormatBool(cfg.runtime.libcontainer))
    case RuntimeSlot(VAccel) => Some(FormatBool(cfg.runtime.vAccel))
    case Slot(Monitors, name, field) =>
      if name in cfg.monitors then MonitorText(cfg.monitors[name], field) else None
    case Slot(ExtraBinaries, name, field) =>
      if name in cfg.extraBins then ExtraBinText(cfg.extraBins[name], field) else None
  }

  /** What a flat map records at a place. */
  function Get(flat: map<string, string>, s: Slot): Option<string> {
    if SlotKey(s) in flat then Some(flat[SlotKey(s)]) else None
  }

  /** Every key of the map is the key of some place. */
  ghost predicate OnlySlots(flat: map<string, string>) {
    forall key :: key in flat ==> exists s :: SlotKey(s) == key
  }

  /** The map records the configuration: every place, with its value, and nothing else. */
  ghost predicate IsMapOf(cfg: Config, flat: map<string, string>) {
    OnlySlots(flat) && forall s :: Get(flat, s) == ValueAt(cfg, s)
  }

  function Put(flat: map<string, string>, s: Slot, val: string): map<string, string> {
    flat[SlotKey(s) := val]
  }

  lemma PutGet(flat: map<string, string>, s: Slot, val: string)
    ensures forall t :: Get(Put(flat, s, val), t) == if t == s then Some(val) else Get(flat, t)
    ensures OnlySlots(flat) ==> OnlySlots(Put(flat, s, val))
  {
    hide SlotKey;
    forall t ensures Get(Put(flat, s, val), t) == if t == s then Some(val) else Get(flat, t) {
      SlotKeyInjective(s, t);
    }
    if OnlySlots(flat) {
      forall key | key in Put(flat, s, val) ensures exists t :: SlotKey(t) == key {
        assert key == SlotKey(s) || key in flat;
      }
    }
  }

  /** The part of a map that a loop has visited, given the keys that are left. */
  ghost function Visited<V>(m: map<string, V>, left: set<string>): map<string, V> {
    map key | key in m && key !in left :: m[key]
  }

  lemma VisitedStep<V>(m: map<string, V>, left: set<string>, key: string)
    requires key in left && left <= m.Keys
    ensures key !in Visited(m, left)
    ensures Visited(m, left - {key}) == Visited(m, left)[key := m[key]]
  {
  }

  lemma VisitedEnds<V>(m: map<string, V>)
    ensures Visited(m, m.Keys) == map[] && Visited(m, {}) == m
  {
  }

  /** `Map`: the entries of every monitor and every extra binary, in whatever order they are visited. */
  method Map(cfg: Config) returns (flat: map<string, string>)
    ensures IsMapOf(cfg, flat)
  {
    hide IsMapOf, Visited;
    flat := PutRuntime(cfg.runtime);
    var names := cfg.monitors.Keys;
    VisitedEnds(cfg.monitors);
    while names != {}
      invariant names <= cfg.monitors.Keys
      invariant IsMapOf(Config(cfg.runtime, Visited(cfg.monitors, names), map[]), flat)
      decreases |names|
    {
      var hv :| hv in names;
      VisitedStep(cfg.monitors, names, hv);
      flat := PutMonitor(Config(cfg.runtime, Visited(cfg.monitors, names), map[]), hv, cfg.monitors[hv], flat);
      names := names - {hv};
    }
    names := cfg.extraBins.Keys;
    VisitedEnds(cfg.extraBins);
    while names != {}
      invariant names <= cfg.extraBins.Keys
      invariant IsMapOf(Config(cfg.runtime, cfg.monitors, Visited(cfg.extraBins, names)), flat)
      decreases |names|
    {
      var eb :| eb in names;
      VisitedStep(cfg.extraBins, names, eb);
      flat := PutExtraBin(Config(cfg.runtime, cfg.monitors, Visited(cfg.extraBins, names)), eb, cfg.extraBins[eb],
                          flat);
      names := names - {eb};
    }
  }

  method PutRuntime(r: Runtime) returns (flat: map<string, string>)
    ensures IsMapOf(Config(r, map[], map[]), flat)
  {
    hide SlotKey, FormatBool, Get, Put, OnlySlots;
    flat := map[];
    NothingRecorded();
    PutGet(flat, RuntimeSlot(Libcontainer), FormatBool(r.libcontainer));
    flat := Put(flat, RuntimeSlot(Libcontainer), FormatBool(r.libcontainer));
    PutGet(flat, RuntimeSlot(VAccel), FormatBool(r.vAccel));
    flat := Put(flat, RuntimeSlot(VAccel), FormatBool(r.vAccel));
  }

  lemma NothingRecorded()
    ensures OnlySlots(map[]) && forall s :: Get(map[], s) == None
  {
  }

  /** The entries of one monitor, added to a map that records the configuration without it. */
  method PutMonitor(ghost cfg: Config, hv: string, m: Monitor, before: map<string, string>)
    returns (flat: map<string, string>)
    requires IsMapOf(cfg, before) && hv !in cfg.monitors
    ensures IsMapOf(cfg.(monitors := cfg.monitors[hv := m]), flat)
  {
    hide SlotKey, FormatBool, FormatUint, Get, Put, OnlySlots;
    flat := before;
    PutGet(flat, Slot(Monitors, hv, MemoryMB), FormatUint(m.memoryMB));
    flat := Put(flat, Slot(Monitors, hv, MemoryMB), FormatUint(m.memoryMB));
    PutGet(flat, Slot(Monitors, hv, VCPUs), FormatUint(m.vcpus));
    flat := Put(flat, Slot(Monitors, hv, VCPUs), FormatUint(m.vcpus));
    PutGet(flat, Slot(Monitors, hv, BinaryPath), m.binaryPath);
    flat := Put(flat, Slot(Monitors, hv, BinaryPath), m.binaryPath);
    PutGet(flat, Slot(Monitors, hv, DataPath), m.dataPath);
    flat := Put(flat, Slot(Monitors, hv, DataPath), m.dataPath);
    PutGet(flat, Slot(Monitors, hv, Vhost), FormatBool(m.vhost));
    flat := Put(flat, Slot(Monitors, hv, Vhost), FormatBool(m.vhost));
    PutGet(flat, Slot(Monitors, hv, SocketPath), m.socketPath);
    flat := Put(flat, Slot(Monitors, hv, SocketPath), m.socketPath);
  }

  method PutExtraBin(ghost cfg: Config, eb: string, b: ExtraBin, before: map<string, string>)
    returns (flat: map<string, string>)
    requires IsMapOf(cfg, before) && eb !in cfg.extraBins
    ensures IsMapOf(cfg.(extraBins := cfg.extraBins[eb := b]), flat)
  {
    hide SlotKey, FormatBool, FormatUint, Get, Put, OnlySlots;
    flat := before;
    PutGet(flat, Slot(ExtraBinaries, eb, Path), b.path);
    flat := Put(flat, Slot(ExtraBinaries, eb, Path), b.path);
    PutGet(flat, Slot(ExtraBinaries, eb, Options), b.options);
    flat := Put(flat, Slot(ExtraBinaries, eb, Options), b.options);
  }

  // ------------------------------------------------------------------ rebuilding, without an order

  /** The names that the loop over a section finds. */
  function NamesIn(m: map<string, string>, section: Section): set<string> {
    set key | key in m && ParseKey(section, key).Some? :: ParseKey(section, key).value.0
  }

  /** A number is taken if it is a positive int, a flag if it is a boolean; anything else keeps the default. */
  function Number(val: Option<string>, default_: uint64): uint64 {
    if val.Some? && Atoi(val.value).Some? && 0 < Atoi(val.value).value <= MAX_INT then Atoi(val.value).value
    else default_
  }

  function Flag(val: Option<string>, default_: bool): bool {
    if val.Some? && ParseBool(val.value).Some? then ParseBool(val.value).value else default_
  }

  function Text(val: Option<string>, default_: string): string {
    if val.Some? then val.value else default_
  }

  function BaseMonitor(name: string): Monitor {
    if name in DefaultMonitors() then DefaultMonitors()[name] else ZERO_MONITOR
  }

  function BaseExtraBin(name: string): ExtraBin {
    if name in DefaultExtraBins() then DefaultExtraBins()[name] else ZERO_EXTRA_BIN
  }

  /** What the entries of the map say about one monitor, over what it is by default. */
  function MonitorIn(m: map<string, string>, name: string): Monitor {
    var base := BaseMonitor(name);
    Monitor(
      Number(Get(m, Slot(Monitors, name, MemoryMB)), base.memoryMB),
      Number(Get(m, Slot(Monitors, name, VCPUs)), base.vcpus),
      Text(Get(m, Slot(Monitors, name, BinaryPath)), base.binaryPath),
      Text(Get(m, Slot(Monitors, name, DataPath)), base.dataPath),
      Flag(Get(m, Slot(Monitors, name, Vhost)), base.vhost),
      Text(Get(m, Slot(Monitors, name, SocketPath)), base.socketPath))
  }

  function ExtraBinIn(m: map<string, string>, name: string): ExtraBin {
    var base := BaseExtraBin(name);
    ExtraBin(
      Text(Get(m, Slot(ExtraBinaries, name, Path)), base.path),
      Text(Get(m, Slot(ExtraBinaries, name, Options)), base.options))
  }

  /** `runtimeFromMap` */
  function RuntimeIn(m: map<string, string>): Runtime {
    Runtime(Flag(Get(m, RuntimeSlot(Libcontainer)), false), Flag(Get(m, RuntimeSlot(VAccel)), false))
  }

  function MonitorsIn(m: map<string, string>): map<string, Monitor> {
    map name | name in DefaultMonitors().Keys + NamesIn(m, Monitors) :: MonitorIn(m, name)
  }

  function ExtraBinsIn(m: map<string, string>): map<string, ExtraBin> {
    map name | name in DefaultExtraBins().Keys + NamesIn(m, ExtraBinaries) :: ExtraBinIn(m, name)
  }

  function FromMap(m: map<string, string>): Config {
    Config(RuntimeIn(m), MonitorsIn(m), ExtraBinsIn(m))
  }

  // ------------------------------------------------------------------ rebuilding, key by key

  /** The switch over the fields of a monitor: a value that does not parse changes nothing. */
  function WithField(m: Monitor, field: string, val: string): Monitor {
    match FieldNamed(field)
    case Some(MemoryMB) => m.(memoryMB := Number(Some(val), m.memoryMB))
    case Some(VCPUs) => m.(vcpus := Number(Some(val), m.vcpus))
    case Some(BinaryPath) => m.(binaryPath := val)
    case Some(DataPath) => m.(dataPath := val)
    case Some(SocketPath) => m.(socketPath := val)
    case Some(Vhost) => m.(vhost := Flag(Some(val), m.vhost))
    case _ => m
  }

  function WithBinField(b: ExtraBin, field: string, val: string): ExtraBin {
    match FieldNamed(field)
    case Some(Path) => b.(path := val)
    case Some(Options) => b.(options := val)
    case _ => b
  }

  /** `UruncConfigFromMap`: whatever order its two loops visit the keys in, the result is the same. */
  method UruncConfigFromMap(m: map<string, string>) returns (cfg: Config)
    ensures cfg == FromMap(m)
  {
    hide RuntimeIn, MonitorsIn, ExtraBinsIn;
    var monitors := MonitorsFromMap(m);
    var extraBins := ExtraBinsFromMap(m);
    return Config(RuntimeIn(m), monitors, extraBins);
  }

  method MonitorsFromMap(m: map<string, string>) returns (monitors: map<string, Monitor>)
    ensures monitors == MonitorsIn(m)
  {
    hide ParseKey, MonitorsIn, WithField, DefaultMonitors, Visited;
    monitors := DefaultMonitors();
    Untouched();
    var keys := m.Keys;
    VisitedEnds(m);
    while keys != {}
      invariant keys <= m.Keys && monitors == MonitorsIn(Visited(m, keys))
      decreases |keys|
    {
      var key :| key in keys;
      VisitedStep(m, keys, key);
      MonitorStep(Visited(m, keys), key, m[key]);
      keys := keys - {key};
      var parsed := ParseKey(Monitors, key);
      if parsed.None? {
        continue;
      }
      var (hv, field) := parsed.value;
      var hvCfg := if hv in monitors then monitors[hv] else ZERO_MONITOR;
      monitors := monitors[hv := WithField(hvCfg, field, m[key])];
    }
  }

  method ExtraBinsFromMap(m: map<string, string>) returns (extraBins: map<string, ExtraBin>)
    ensures extraBins == ExtraBinsIn(m)
  {
    hide ParseKey, ExtraBinsIn, WithBinField, DefaultExtraBins, Visited;
    extraBins := DefaultExtraBins();
    Untouched();
    var keys := m.Keys;
    VisitedEnds(m);
    while keys != {}
      invariant keys <= m.Keys && extraBins == ExtraBinsIn(Visited(m, keys))
      decreases |keys|
    {
      var key :| key in keys;
      VisitedStep(m, keys, key);
      ExtraBinStep(Visited(m, keys), key, m[key]);
      keys := keys - {key};
      var parsed := ParseKey(ExtraBinaries, key);
      if parsed.None? {
        continue;
      }
      var (eb, field) := parsed.value;
      var ebCfg := if eb in extraBins then extraBins[eb] else ZERO_EXTRA_BIN;
      extraBins := extraBins[eb := WithBinField(ebCfg, field, m[key])];
    }
  }

  lemma Untouched()
    ensures MonitorsIn(map[]) == DefaultMonitors() && ExtraBinsIn(map[]) == DefaultExtraBins()
  {
    hide DefaultMonitors, DefaultExtraBins, ParseKey;
    NothingRecorded();
    hide Get;
    assert NamesIn(map[], Monitors) == {} && NamesIn(map[], ExtraBinaries) == {};
    assert forall name | name in DefaultMonitors() :: MonitorIn(map[], name) == DefaultMonitors()[name];
  }

  lemma DefaultNamesNoDot()
    ensures forall name :: name in DefaultMonitors() || name in DefaultExtraBins() ==> NoDot(name)
  {
  }

  lemma NamesNoDot(m: map<string, string>, section: Section)
    ensures forall name :: name in NamesIn(m, section) ==> NoDot(name)
  {
    hide ParseKey, NoDot;
    forall name | name in NamesIn(m, section) ensures NoDot(name) {
      var key :| key in m && ParseKey(section, key).Some? && ParseKey(section, key).value.0 == name;
      KeyOfParseKey(section, key);
    }
  }

  lemma NamesInStep(m: map<string, string>, key: string, val: string, section: Section)
    ensures NamesIn(m[key := val], section) ==
            NamesIn(m, section) + if ParseKey(section, key).Some? then {ParseKey(section, key).value.0} else {}
  {
    hide ParseKey;
    var m' := m[key := val];
    forall name | name in NamesIn(m, section) ensures name in NamesIn(m', section) {
      var k :| k in m && ParseKey(section, k).Some? && ParseKey(section, k).value.0 == name;
      assert k in m';
    }
    if ParseKey(section, key).Some? {
      assert key in m';
    }
  }

  /** One more entry is seen at one place of its section, which had none, or at no place. */
  lemma GetStep(m: map<string, string>, key: string, val: string, section: Section, name: string, field: Field)
    requires NoDot(name) && key !in m
    ensures Get(m[key := val], Slot(section, name, field)) ==
            if ParseKey(section, key) == Some((name, FieldName(field))) then Some(val)
            else Get(m, Slot(section, name, field))
    ensures ParseKey(section, key) == Some((name, FieldName(field))) ==> Get(m, Slot(section, name, field)) == None
  {
    FieldNames(field);
    hide ParseKey, NoDot, FieldName, Key;
    ParseKeyOfKey(section, name, FieldName(field));
    if ParseKey(section, key) == Some((name, FieldName(field))) {
      KeyOfParseKey(section, key);
    }
  }

  /** Only a name that some key gives has an entry. */
  lemma EntryGivesName(m: map<string, string>, section: Section, name: string, field: Field)
    requires NoDot(name)
    ensures Get(m, Slot(section, name, field)).Some? ==> name in NamesIn(m, section)
  {
    FieldNames(field);
    hide ParseKey, NoDot, FieldName, Key;
    ParseKeyOfKey(section, name, FieldName(field));
    var key := SlotKey(Slot(section, name, field));
    assert ParseKey(section, key) == Some((name, FieldName(field)));
  }

  /** The loop over the section takes this name from the key. */
  predicate GivesName(section: Section, key: string, name: string) {
    ParseKey(section, key).Some? && ParseKey(section, key).value.0 == name
  }

  lemma MonitorInStep(m: map<string, string>, key: string, val: string, name: string)
    requires NoDot(name) && key !in m
    ensures MonitorIn(m[key := val], name) ==
            if GivesName(Monitors, key, name) then
              WithField(MonitorIn(m, name), ParseKey(Monitors, key).value.1, val)
            else MonitorIn(m, name)
  {
    hide ParseKey, NoDot, Get, Atoi, ParseBool, BaseMonitor, FieldName, FieldNamed;
    forall f: Field
      ensures Get(m[key := val], Slot(Monitors, name, f)) ==
              if ParseKey(Monitors, key) == Some((name, FieldName(f))) then Some(val)
              else Get(m, Slot(Monitors, name, f))
      ensures ParseKey(Monitors, key) == Some((name, FieldName(f))) ==> Get(m, Slot(Monitors, name, f)) == None
      ensures FieldNamed(FieldName(f)) == Some(f)
    {
      GetStep(m, key, val, Monitors, name, f);
      FieldNames(f);
    }
    if ParseKey(Monitors, key).Some? {
      FieldNamedInverse(ParseKey(Monitors, key).value.1);
    }
  }

  lemma ExtraBinInStep(m: map<string, string>, key: string, val: string, name: string)
    requires NoDot(name) && key !in m
    ensures ExtraBinIn(m[key := val], name) ==
            if GivesName(ExtraBinaries, key, name) then
              WithBinField(ExtraBinIn(m, name), ParseKey(ExtraBinaries, key).value.1, val)
            else ExtraBinIn(m, name)
  {
    hide ParseKey, NoDot, Get, BaseExtraBin, FieldName, FieldNamed;
    forall f: Field
      ensures Get(m[key := val], Slot(ExtraBinaries, name, f)) ==
              if ParseKey(ExtraBinaries, key) == Some((name, FieldName(f))) then Some(val)
              else Get(m, Slot(ExtraBinaries, name, f))
      ensures FieldNamed(FieldName(f)) == Some(f)
    {
      GetStep(m, key, val, ExtraBinaries, name, f);
      FieldNames(f);
    }
    if ParseKey(ExtraBinaries, key).Some? {
      FieldNamedInverse(ParseKey(ExtraBinaries, key).value.1);
    }
  }

  /** A monitor without an entry is what it is by default. */
  lemma AbsentMonitor(m: map<string, string>, name: string)
    requires NoDot(name) && name !in NamesIn(m, Monitors)
    ensures MonitorIn(m, name) == BaseMonitor(name)
  {
    hide Get, NoDot, NamesIn, BaseMonitor;
    forall f: Field ensures Get(m, Slot(Monitors, name, f)) == None {
      EntryGivesName(m, Monitors, name, f);
    }
  }

  lemma AbsentExtraBin(m: map<string, string>, name: string)
    requires NoDot(name) && name !in NamesIn(m, ExtraBinaries)
    ensures ExtraBinIn(m, name) == BaseExtraBin(name)
  {
    hide Get, NoDot, NamesIn, BaseExtraBin;
    forall f: Field ensures Get(m, Slot(ExtraBinaries, name, f)) == None {
      EntryGivesName(m, ExtraBinaries, name, f);
    }
  }

  lemma MonitorsLookup(m: map<string, string>)
    ensures MonitorsIn(m).Keys == DefaultMonitors().Keys + NamesIn(m, Monitors)
    ensures forall name :: name in MonitorsIn(m) ==> NoDot(name) && MonitorsIn(m)[name] == MonitorIn(m, name)
    ensures forall name :: name !in DefaultMonitors() ==> BaseMonitor(name) == ZERO_MONITOR
  {
    NamesNoDot(m, Monitors);
    DefaultNamesNoDot();
    hide DefaultMonitors, NamesIn, NoDot, MonitorIn;
  }

  /** One more key: nothing happens unless it is in the section, and then one field of one monitor is set. */
  lemma MonitorStep(m: map<string, string>, key: string, val: string)
    requires key !in m
    ensures ParseKey(Monitors, key).None? ==> MonitorsIn(m[key := val]) == MonitorsIn(m)
    ensures ParseKey(Monitors, key).Some? ==>
              var (hv, field) := ParseKey(Monitors, key).value;
              var base := if hv in MonitorsIn(m) then MonitorsIn(m)[hv] else ZERO_MONITOR;
              MonitorsIn(m[key := val]) == MonitorsIn(m)[hv := WithField(base, field, val)]
  {
    MonitorsLookup(m);
    MonitorsLookup(m[key := val]);
    NamesInStep(m, key, val, Monitors);
    hide ParseKey, MonitorIn, WithField, NamesIn, NoDot, MonitorsIn, DefaultMonitors, BaseMonitor;
    var before, after := MonitorsIn(m), MonitorsIn(m[key := val]);
    forall name | name in after
      ensures after[name] ==
              if GivesName(Monitors, key, name) then
                WithField(MonitorIn(m, name), ParseKey(Monitors, key).value.1, val)
              else MonitorIn(m, name)
    {
      MonitorInStep(m, key, val, name);
    }
    if ParseKey(Monitors, key).Some? {
      var hv := ParseKey(Monitors, key).value.0;
      assert hv in after;
      if hv !in before {
        AbsentMonitor(m, hv);
      }
    }
  }

  lemma ExtraBinsLookup(m: map<string, string>)
    ensures ExtraBinsIn(m).Keys == DefaultExtraBins().Keys + NamesIn(m, ExtraBinaries)
    ensures forall name :: name in ExtraBinsIn(m) ==> NoDot(name) && ExtraBinsIn(m)[name] == ExtraBinIn(m, name)
    ensures forall name :: name !in DefaultExtraBins() ==> BaseExtraBin(name) == ZERO_EXTRA_BIN
  {
    NamesNoDot(m, ExtraBinaries);
    DefaultNamesNoDot();
    hide DefaultExtraBins, NamesIn, NoDot, ExtraBinIn;
  }

  lemma ExtraBinStep(m: map<string, string>, key: string, val: string)
    requires key !in m
    ensures ParseKey(ExtraBinaries, key).None? ==> ExtraBinsIn(m[key := val]) == ExtraBinsIn(m)
    ensures ParseKey(ExtraBinaries, key).Some? ==>
              var (eb, field) := ParseKey(ExtraBinaries, key).value;
              var base := if eb in ExtraBinsIn(m) then ExtraBinsIn(m)[eb] else ZERO_EXTRA_BIN;
              ExtraBinsIn(m[key := val]) == ExtraBinsIn(m)[eb := WithBinField(base, field, val)]
  {
    ExtraBinsLookup(m);
    ExtraBinsLookup(m[key := val]);
    NamesInStep(m, key, val, ExtraBinaries);
    hide ParseKey, ExtraBinIn, WithBinField, NamesIn, NoDot, ExtraBinsIn, DefaultExtraBins, BaseExtraBin;
    var before, after := ExtraBinsIn(m), ExtraBinsIn(m[key := val]);
    forall name | name in after
      ensures after[name] ==
              if GivesName(ExtraBinaries, key, name) then
                WithBinField(ExtraBinIn(m, name), ParseKey(ExtraBinaries, key).value.1, val)
              else ExtraBinIn(m, name)
    {
      ExtraBinInStep(m, key, val, name);
    }
    if ParseKey(ExtraBinaries, key).Some? {
      var eb := ParseKey(ExtraBinaries, key).value.0;
      assert eb in after;
      if eb !in before {
        AbsentExtraBin(m, eb);
      }
    }
  }

  // ------------------------------------------------------------------ the round trip

  /** What comes back of a monitor: its numbers if they are positive ints, else those of the default. */
  function RestoredMonitor(name: string, m: Monitor): Monitor {
    m.(memoryMB := if 0 < m.memoryMB <= MAX_INT then m.memoryMB else BaseMonitor(name).memoryMB,
       vcpus := if 0 < m.vcpus <= MAX_INT then m.vcpus else BaseMonitor(name).vcpus)
  }

  function RestoredMonitors(monitors: map<string, Monitor>): map<string, Monitor> {
    map name | name in DefaultMonitors().Keys + (set n | n in monitors && NoDot(n)) ::
      if name in monitors then RestoredMonitor(name, monitors[name]) else BaseMonitor(name)
  }

  function RestoredExtraBins(extraBins: map<string, ExtraBin>): map<string, ExtraBin> {
    map name | name in DefaultExtraBins().Keys + (set n | n in extraBins && NoDot(n)) ::
      if name in extraBins then extraBins[name] else BaseExtraBin(name)
  }

  /** What comes back of a configuration: the defaults, and every entry whose name has no dot. */
  function Restored(cfg: Config): Config {
    Config(cfg.runtime, RestoredMonitors(cfg.monitors), RestoredExtraBins(cfg.extraBins))
  }

  /** The names found in a recorded configuration are its own, without those that have a dot. */
  lemma NamesRecorded(cfg: Config, flat: map<string, string>)
    requires IsMapOf(cfg, flat)
    ensures NamesIn(flat, Monitors) == set n | n in cfg.monitors && NoDot(n)
    ensures NamesIn(flat, ExtraBinaries) == set n | n in cfg.extraBins && NoDot(n)
  {
    hide NamesIn, NoDot, IsMapOf;
    forall name ensures name in NamesIn(flat, Monitors) <==> NoDot(name) && name in cfg.monitors {
      NameRecorded(cfg, flat, Monitors, name);
    }
    forall name ensures name in NamesIn(flat, ExtraBinaries) <==> NoDot(name) && name in cfg.extraBins {
      NameRecorded(cfg, flat, ExtraBinaries, name);
    }
  }

  lemma NameRecorded(cfg: Config, flat: map<string, string>, section: Section, name: string)
    requires IsMapOf(cfg, flat)
    ensures name in NamesIn(flat, section) <==>
              NoDot(name)
              && match section { case Monitors => name in cfg.monitors case ExtraBinaries => name in cfg.extraBins }
  {
    var field := if section == Monitors then Vhost else Path;
    var s := Slot(section, name, field);
    assert Get(flat, s) == ValueAt(cfg, s);
    hide NoDot, ParseKey, Key;
    FieldNames(field);
    if NoDot(name) && ValueAt(cfg, s).Some? {
      ParseKeyOfKey(section, name, FieldName(field));
      assert SlotKey(s) in flat;
    }
    if name in NamesIn(flat, section) {
      var key :| key in flat && ParseKey(section, key).Some? && ParseKey(section, key).value.0 == name;
      KeyOfParseKey(section, key);
      RecordedKey(cfg, flat, section, key);
    }
  }

  lemma RecordedKey(cfg: Config, flat: map<string, string>, section: Section, key: string)
    requires IsMapOf(cfg, flat) && key in flat && ParseKey(section, key).Some?
    ensures var name := ParseKey(section, key).value.0;
            match section { case Monitors => name in cfg.monitors case ExtraBinaries => name in cfg.extraBins }
  {
    KeyOfParseKey(section, key);
    hide ParseKey, Key, NoDot, FieldName;
    var (name, field) := ParseKey(section, key).value;
    var s :| SlotKey(s) == key;
    assert Get(flat, s) == ValueAt(cfg, s);
    match s {
      case RuntimeSlot(option) => RuntimeKeyDiffers(option, section, name, field);
      case Slot(section', name', field') =>
        FieldNames(field');
        KeyInjective(section, name, field, section', name', FieldName(field'));
    }
  }

  lemma NumberReadBack(n: uint64, default_: uint64)
    ensures Number(Some(FormatUint(n)), default_) == if 0 < n <= MAX_INT then n else default_
  {
    AtoiFormat(n);
    hide Atoi, FormatUint;
  }

  lemma FlagReadBack(b: bool, default_: bool)
    ensures Flag(Some(FormatBool(b)), default_) == b
  {
    ParseBoolFormat(b);
    hide ParseBool, FormatBool;
  }

  lemma MonitorReadBack(flat: map<string, string>, name: string, m: Monitor)
    requires forall f :: MonitorText(m, f).Some? ==> Get(flat, Slot(Monitors, name, f)) == MonitorText(m, f)
    ensures MonitorIn(flat, name) == RestoredMonitor(name, m)
  {
    NumberReadBack(m.memoryMB, BaseMonitor(name).memoryMB);
    NumberReadBack(m.vcpus, BaseMonitor(name).vcpus);
    FlagReadBack(m.vhost, BaseMonitor(name).vhost);
    hide Get, Number, Flag, FormatUint, FormatBool, BaseMonitor;
    assert Get(flat, Slot(Monitors, name, MemoryMB)) == MonitorText(m, MemoryMB);
    assert Get(flat, Slot(Monitors, name, VCPUs)) == MonitorText(m, VCPUs);
    assert Get(flat, Slot(Monitors, name, BinaryPath)) == MonitorText(m, BinaryPath);
    assert Get(flat, Slot(Monitors, name, DataPath)) == MonitorText(m, DataPath);
    assert Get(flat, Slot(Monitors, name, Vhost)) == MonitorText(m, Vhost);
    assert Get(flat, Slot(Monitors, name, SocketPath)) == MonitorText(m, SocketPath);
  }

  lemma ExtraBinReadBack(flat: map<string, string>, name: string, b: ExtraBin)
    requires forall f :: ExtraBinText(b, f).Some? ==> Get(flat, Slot(ExtraBinaries, name, f)) == ExtraBinText(b, f)
    ensures ExtraBinIn(flat, name) == b
  {
    hide Get, BaseExtraBin;
    assert Get(flat, Slot(ExtraBinaries, name, Path)) == ExtraBinText(b, Path);
    assert Get(flat, Slot(ExtraBinaries, name, Options)) == ExtraBinText(b, Options);
  }

  lemma RuntimeReadBack(flat: map<string, string>, r: Runtime)
    requires Get(flat, RuntimeSlot(Libcontainer)) == Some(FormatBool(r.libcontainer))
    requires Get(flat, RuntimeSlot(VAccel)) == Some(FormatBool(r.vAccel))
    ensures RuntimeIn(flat) == r
  {
    FlagReadBack(r.libcontainer, false);
    FlagReadBack(r.vAccel, false);
    hide Get, Flag, FormatBool;
  }

  lemma MonitorRestored(cfg: Config, flat: map<string, string>, name: string)
    requires IsMapOf(cfg, flat) && NoDot(name)
    ensures MonitorIn(flat, name) ==
            if name in cfg.monitors then RestoredMonitor(name, cfg.monitors[name]) else BaseMonitor(name)
  {
    hide Get, MonitorIn, RestoredMonitor, BaseMonitor, NoDot, OnlySlots, NamesIn, MonitorText;
    assert forall f :: Get(flat, Slot(Monitors, name, f)) == ValueAt(cfg, Slot(Monitors, name, f));
    if name in cfg.monitors {
      MonitorReadBack(flat, name, cfg.monitors[name]);
    } else {
      NamesRecorded(cfg, flat);
      AbsentMonitor(flat, name);
    }
  }

  lemma ExtraBinRestored(cfg: Config, flat: map<string, string>, name: string)
    requires IsMapOf(cfg, flat) && NoDot(name)
    ensures ExtraBinIn(flat, name) == if name in cfg.extraBins then cfg.extraBins[name] else BaseExtraBin(name)
  {
    hide Get, ExtraBinIn, BaseExtraBin, NoDot, OnlySlots, NamesIn, ExtraBinText;
    assert forall f :: Get(flat, Slot(ExtraBinaries, name, f)) == ValueAt(cfg, Slot(ExtraBinaries, name, f));
    if name in cfg.extraBins {
      ExtraBinReadBack(flat, name, cfg.extraBins[name]);
    } else {
      NamesRecorded(cfg, flat);
      AbsentExtraBin(flat, name);
    }
  }

  lemma RuntimeRestored(cfg: Config, flat: map<string, string>)
    requires IsMapOf(cfg, flat)
    ensures RuntimeIn(flat) == cfg.runtime
  {
    assert Get(flat, RuntimeSlot(Libcontainer)) == ValueAt(cfg, RuntimeSlot(Libcontainer));
    assert Get(flat, RuntimeSlot(VAccel)) == ValueAt(cfg, RuntimeSlot(VAccel));
    RuntimeReadBack(flat, cfg.runtime);
  }

  lemma MonitorKeysRestored(cfg: Config, flat: map<string, string>)
    requires IsMapOf(cfg, flat)
    ensures MonitorsIn(flat).Keys == RestoredMonitors(cfg.monitors).Keys
  {
    hide NamesIn, MonitorIn, RestoredMonitor, BaseMonitor, IsMapOf, DefaultMonitors, NoDot;
    NamesRecorded(cfg, flat);
  }

  lemma RestoredLookup(monitors: map<string, Monitor>, name: string)
    requires name in RestoredMonitors(monitors)
    ensures NoDot(name)
    ensures RestoredMonitors(monitors)[name] ==
              if name in monitors then RestoredMonitor(name, monitors[name]) else BaseMonitor(name)
  {
    hide RestoredMonitor, BaseMonitor, DefaultMonitors, NoDot;
    DefaultNamesNoDot();
  }

  lemma MonitorsRestored(cfg: Config, flat: map<string, string>)
    requires IsMapOf(cfg, flat)
    ensures MonitorsIn(flat) == RestoredMonitors(cfg.monitors)
  {
    hide NamesIn, MonitorIn, RestoredMonitor, BaseMonitor, IsMapOf, DefaultMonitors, NoDot, MonitorsIn,
         RestoredMonitors;
    MonitorsLookup(flat);
    MonitorKeysRestored(cfg, flat);
    forall name | name in MonitorsIn(flat) ensures MonitorsIn(flat)[name] == RestoredMonitors(cfg.monitors)[name] {
      RestoredLookup(cfg.monitors, name);
      MonitorRestored(cfg, flat, name);
    }
  }

  lemma ExtraBinsRestored(cfg: Config, flat: map<string, string>)
    requires IsMapOf(cfg, flat)
    ensures ExtraBinsIn(flat) == RestoredExtraBins(cfg.extraBins)
  {
    NamesRecorded(cfg, flat);
    ExtraBinsLookup(flat);
    hide NamesIn, ExtraBinIn, BaseExtraBin, IsMapOf, DefaultExtraBins, NoDot, ExtraBinsIn;
    assert ExtraBinsIn(flat).Keys == RestoredExtraBins(cfg.extraBins).Keys;
    forall name | name in ExtraBinsIn(flat) ensures ExtraBinsIn(flat)[name] == RestoredExtraBins(cfg.extraBins)[name] {
      ExtraBinRestored(cfg, flat, name);
    }
  }

  /** Rebuilding what was flattened, for every configuration and every map that records it. */
  lemma FromMapOfMap(cfg: Config, flat: map<string, string>)
    requires IsMapOf(cfg, flat)
    ensures FromMap(flat) == Restored(cfg)
  {
    RuntimeRestored(cfg, flat);
    MonitorsRestored(cfg, flat);
    ExtraBinsRestored(cfg, flat);
  }

  /** The configuration over the defaults. */
  function Overlaid(cfg: Config): Config {
    Config(cfg.runtime, DefaultMonitors() + cfg.monitors, DefaultExtraBins() + cfg.extraBins)
  }

  /** A number that comes back as it is: a positive int, or what the default is anyway. */
  predicate NumberSurvives(n: uint64, default_: uint64) {
    0 < n <= MAX_INT || n == default_
  }

  ghost predicate Survives(cfg: Config) {
    && (forall name :: name in cfg.monitors ==>
          && NoDot(name)
          && NumberSurvives(cfg.monitors[name].memoryMB, BaseMonitor(name).memoryMB)
          && NumberSurvives(cfg.monitors[name].vcpus, BaseMonitor(name).vcpus))
    && (forall name :: name in cfg.extraBins ==> NoDot(name))
  }

  lemma SurvivorsRestored(cfg: Config)
    requires Survives(cfg)
    ensures Restored(cfg) == Overlaid(cfg)
  {
    hide DefaultMonitors, DefaultExtraBins, NoDot;
    var r, o := Restored(cfg), Overlaid(cfg);
    assert r.monitors.Keys == o.monitors.Keys;
    assert forall name :: name in o.monitors ==> r.monitors[name] == o.monitors[name];
    assert r.extraBins.Keys == o.extraBins.Keys;
    assert forall name :: name in o.extraBins ==> r.extraBins[name] == o.extraBins[name];
  }

  lemma RestoredSurvives(cfg: Config)
    requires Restored(cfg) == Overlaid(cfg)
    ensures Survives(cfg)
  {
    DefaultNamesNoDot();
    hide DefaultMonitors, DefaultExtraBins, NoDot;
    var r, o := Restored(cfg), Overlaid(cfg);
    forall name | name in cfg.monitors
      ensures NoDot(name)
      ensures NumberSurvives(cfg.monitors[name].memoryMB, BaseMonitor(name).memoryMB)
      ensures NumberSurvives(cfg.monitors[name].vcpus, BaseMonitor(name).vcpus)
    {
      assert name in o.monitors.Keys && r.monitors.Keys == o.monitors.Keys;
      assert r.monitors[name] == o.monitors[name] == cfg.monitors[name];
    }
    forall name | name in cfg.extraBins ensures NoDot(name) {
      assert name in o.extraBins.Keys && r.extraBins.Keys == o.extraBins.Keys;
    }
  }

  /** The rebuilt configuration is the defaults overlaid by the original one exactly if no name has a dot and
      every number is a positive int or the default. */
  lemma RoundTrip(cfg: Config, flat: map<string, string>)
    requires IsMapOf(cfg, flat)
    ensures FromMap(flat) == Overlaid(cfg) <==> Survives(cfg)
  {
    FromMapOfMap(cfg, flat);
    hide FromMap, IsMapOf, Restored, Overlaid, Survives;
    if Survives(cfg) {
      SurvivorsRestored(cfg);
    }
    if Restored(cfg) == Overlaid(cfg) {
      RestoredSurvives(cfg);
    }
  }

  /** A monitor whose name has a dot does not come back: one that is called "a.b" is lost. */
  lemma DottedNameIsLost(m: Monitor, flat: map<string, string>)
    requires IsMapOf(Config(Runtime(false, false), map["a.b" := m], map[]), flat)
    ensures "a.b" !in FromMap(flat).monitors
    ensures FromMap(flat) != Overlaid(Config(Runtime(false, false), map["a.b" := m], map[]))
  {
    var cfg := Config(Runtime(false, false), map["a.b" := m], map[]);
    FromMapOfMap(cfg, flat);
    DefaultNamesNoDot();
    hide FromMap, IsMapOf, DefaultMonitors;
    assert "a.b"[1] == '.';
    assert "a.b" in Overlaid(cfg).monitors;
  }

  /** The number 0 does not come back either: it becomes the default. */
  lemma ZeroBecomesDefault(m: Monitor, flat: map<string, string>)
    requires m.memoryMB == 0 && IsMapOf(Config(Runtime(false, false), map["qemu" := m], map[]), flat)
    ensures "qemu" in FromMap(flat).monitors && FromMap(flat).monitors["qemu"].memoryMB == DEFAULT_MONITOR.memoryMB
  {
    FromMapOfMap(Config(Runtime(false, false), map["qemu" := m], map[]), flat);
    hide FromMap, IsMapOf;
    assert "qemu" in DefaultMonitors();
  }

  // ------------------------------------------------------------------ loading

  const VIRTIOFSD := "virtiofsd"

  function LoadedMonitor(m: Monitor): Monitor {
    m.(memoryMB := if m.memoryMB == 0 then DEFAULT_MONITOR.memoryMB else m.memoryMB,
       vcpus := if m.vcpus == 0 then DEFAULT_MONITOR.vcpus else m.vcpus)
  }

  function LoadedMonitors(monitors: map<string, Monitor>): map<string, Monitor> {
    map name | name in monitors :: LoadedMonitor(monitors[name])
  }

  function LoadedExtraBins(extraBins: map<string, ExtraBin>): map<string, ExtraBin> {
    if VIRTIOFSD !in extraBins then extraBins
    else
      var bin, def := extraBins[VIRTIOFSD], BaseExtraBin(VIRTIOFSD);
      extraBins[VIRTIOFSD := ExtraBin(if bin.path == "" then def.path else bin.path,
                                      if bin.options == "" then def.options else bin.options)]
  }

  /** What the file says, with the defaults for what decoding it has zeroed. */
  function Loaded(cfg: Config): Config {
    Config(cfg.runtime, LoadedMonitors(cfg.monitors), LoadedExtraBins(cfg.extraBins))
  }

  function DefaultConfig(): Config {
    Config(Runtime(false, false), DefaultMonitors(), DefaultExtraBins())
  }

  /** What the defaults are for: each number 0 of a decoded monitor, and each empty text of virtiofsd, is filled in.
      Everything else is as decoded. */
  ghost predicate FilledIn(decoded: Config, cfg: Config) {
    && cfg.runtime == decoded.runtime
    && cfg.monitors.Keys == decoded.monitors.Keys && cfg.extraBins.Keys == decoded.extraBins.Keys
    && (forall name :: name in decoded.monitors ==> MonitorFilledIn(decoded.monitors[name], cfg.monitors[name]))
    && (forall name :: name in decoded.extraBins && name != "virtiofsd" ==>
          cfg.extraBins[name] == decoded.extraBins[name])
    && ("virtiofsd" in decoded.extraBins ==>
          var before, after := decoded.extraBins["virtiofsd"], cfg.extraBins["virtiofsd"];
          && after.path == (if before.path == "" then "/usr/libexec/virtiofsd" else before.path)
          && after.options == if before.options == "" then "--cache always --sandbox none" else before.options)
  }

  ghost predicate MonitorFilledIn(before: Monitor, after: Monitor) {
    && after.memoryMB == (if before.memoryMB == 0 then 256 else before.memoryMB)
    && after.vcpus == (if before.vcpus == 0 then 1 else before.vcpus)
    && after.binaryPath == before.binaryPath && after.dataPath == before.dataPath
    && after.vhost == before.vhost && after.socketPath == before.socketPath
  }

  /** The configuration without a file: six monitors with 256 MB and one vCPU, and virtiofsd. */
  ghost predicate IsDefault(cfg: Config) {
    && !cfg.runtime.libcontainer && !cfg.runtime.vAccel
    && cfg.monitors.Keys == {"qemu", "hvt", "spt", "firecracker", "cloud-hypervisor", "hyperlight-unikraft"}
    && (forall name :: name in cfg.monitors ==>
          var m := cfg.monitors[name];
          && m.memoryMB == 256 && m.vcpus == 1 && m.binaryPath == "" && m.dataPath == "" && !m.vhost
          && m.socketPath == "")
    && cfg.extraBins.Keys == {"virtiofsd"}
    && cfg.extraBins["virtiofsd"].path == "/usr/libexec/virtiofsd"
    && cfg.extraBins["virtiofsd"].options == "--cache always --sandbox none"
  }

  lemma DefaultConfigIs()
    ensures IsDefault(DefaultConfig())
  {
  }

  /** The loaded configuration, field by field. */
  lemma LoadedIsFilledIn(decoded: Config)
    ensures FilledIn(decoded, Loaded(decoded))
  {
    VirtiofsdDefault();
    hide DefaultExtraBins, DefaultMonitors, BaseExtraBin;
    forall name | name in decoded.monitors
      ensures MonitorFilledIn(decoded.monitors[name], LoadedMonitors(decoded.monitors)[name]) {
    }
  }

  lemma VirtiofsdDefault()
    ensures BaseExtraBin(VIRTIOFSD) == ExtraBin("/usr/libexec/virtiofsd", "--cache always --sandbox none")
  {
  }

  /** `LoadUruncConfig`; `decoded` is the file decoded over the defaults, or None if it cannot be. */
  method LoadUruncConfig(decoded: Option<Config>) returns (cfg: Config)
    ensures decoded.Some? ==> cfg == Loaded(decoded.value) && FilledIn(decoded.value, cfg)
    ensures decoded.None? ==> cfg == DefaultConfig() && IsDefault(cfg)
  {
    hide DefaultMonitors, DefaultExtraBins, BaseExtraBin, FilledIn, IsDefault;
    if decoded.None? {
      DefaultConfigIs();
      return DefaultConfig();
    }
    LoadedIsFilledIn(decoded.value);
    cfg := decoded.value;
    var monitors := cfg.monitors;
    var names := monitors.Keys;
    while names != {}
      invariant names <= cfg.monitors.Keys && monitors.Keys == cfg.monitors.Keys
      invariant forall name :: name in monitors ==>
                  monitors[name] == if name in names then cfg.monitors[name] else LoadedMonitor(cfg.monitors[name])
      decreases |names|
    {
      var name :| name in names;
      var mon := monitors[name];
      if mon.memoryMB == 0 {
        mon := mon.(memoryMB := DEFAULT_MONITOR.memoryMB);
      }
      if mon.vcpus == 0 {
        mon := mon.(vcpus := DEFAULT_MONITOR.vcpus);
      }
      monitors := monitors[name := mon];
      names := names - {name};
    }
    assert monitors == LoadedMonitors(cfg.monitors);
    var extraBins := cfg.extraBins;
    if VIRTIOFSD in extraBins {
      var bin, def := extraBins[VIRTIOFSD], BaseExtraBin(VIRTIOFSD);
      if bin.path == "" {
        bin := bin.(path := def.path);
      }
      if bin.options == "" {
        bin := bin.(options := def.options);
      }
      extraBins := extraBins[VIRTIOFSD := bin];
    }
    cfg := Config(cfg.runtime, monitors, extraBins);
  }

  predicate FitsInt(m: Monitor) {
    m.memoryMB <= MAX_INT && m.vcpus <= MAX_INT
  }

  /** No name has a dot, and all numbers are ints. */
  ghost predicate Storable(cfg: Config) {
    (forall name :: name in cfg.monitors ==> NoDot(name) && FitsInt(cfg.monitors[name]))
    && forall name :: name in cfg.extraBins ==> NoDot(name)
  }

  lemma LoadedSurvives(cfg: Config)
    ensures Survives(Loaded(cfg)) <==> Storable(cfg)
  {
    forall name | name in cfg.monitors
      ensures NumberSurvives(LoadedMonitors(cfg.monitors)[name].memoryMB, BaseMonitor(name).memoryMB)
              && NumberSurvives(LoadedMonitors(cfg.monitors)[name].vcpus, BaseMonitor(name).vcpus)
              <==> FitsInt(cfg.monitors[name]) {
      BaseNumbers(name);
      hide DefaultMonitors, DefaultExtraBins, BaseMonitor;
    }
    hide DefaultMonitors, DefaultExtraBins, BaseMonitor, BaseExtraBin, NoDot, NumberSurvives, FitsInt, LoadedMonitor;
    assert LoadedMonitors(cfg.monitors).Keys == cfg.monitors.Keys;
    assert LoadedExtraBins(cfg.extraBins).Keys == cfg.extraBins.Keys;
  }

  lemma BaseNumbers(name: string)
    ensures BaseMonitor(name).memoryMB <= MAX_INT && BaseMonitor(name).vcpus <= MAX_INT
  {
  }

  /** A configuration that was loaded has no number 0, so it comes back over the defaults exactly if no name has a dot
      and all numbers are ints. */
  lemma LoadedRoundTrip(cfg: Config, flat: map<string, string>)
    requires IsMapOf(Loaded(cfg), flat)
    ensures FromMap(flat) == Overlaid(Loaded(cfg)) <==> Storable(cfg)
  {
    hide FromMap, IsMapOf, Overlaid, Survives, Loaded, Storable;
    RoundTrip(Loaded(cfg), flat);
    LoadedSurvives(cfg);
  }

  /** Decoding adds to the defaults, so the file's configuration has them, and it comes back as it was loaded. */
  lemma LoadedComesBack(cfg: Config, flat: map<string, string>)
    requires DefaultMonitors().Keys <= cfg.monitors.Keys && DefaultExtraBins().Keys <= cfg.extraBins.Keys
    requires IsMapOf(Loaded(cfg), flat)
    ensures FromMap(flat) == Loaded(cfg) <==> Storable(cfg)
  {
    LoadedRoundTrip(cfg, flat);
    LoadedHasDefaults(cfg);
    hide FromMap, IsMapOf, Storable, Loaded, Overlaid, DefaultMonitors, DefaultExtraBins;
  }

  lemma LoadedHasDefaults(cfg: Config)
    requires DefaultMonitors().Keys <= cfg.monitors.Keys && DefaultExtraBins().Keys <= cfg.extraBins.Keys
    ensures Overlaid(Loaded(cfg)) == Loaded(cfg)
  {
    hide DefaultMonitors, DefaultExtraBins, LoadedMonitor, BaseExtraBin;
    assert LoadedMonitors(cfg.monitors).Keys == cfg.monitors.Keys;
    assert LoadedExtraBins(cfg.extraBins).Keys == cfg.extraBins.Keys;
    hide LoadedMonitors, LoadedExtraBins;
    NothingUnder(DefaultMonitors(), LoadedMonitors(cfg.monitors));
    NothingUnder(DefaultExtraBins(), LoadedExtraBins(cfg.extraBins));
  }

  lemma NothingUnder<V>(under: map<string, V>, over: map<string, V>)
    requires under.Keys <= over.Keys
    ensures under + over == over
  {
  }
}
