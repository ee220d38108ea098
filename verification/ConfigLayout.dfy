/** The keys and the texts under which state.json holds the urunc configuration, written out: what `Map` records at
    each of them, and what is read from each of them. */
module ConfigLayout {
  import opened GoStrings
  import opened Strconv
  import opened ConfigKeys
  import opened UruncConfig

  const LIBCONTAINER_KEY := "urunc_config.runtime.libcontainer"
  const VACCEL_KEY := "urunc_config.runtime.vAccel"

  /** What a map has at a key. */
  function At(flat: map<string, string>, key: string): Option<string> {
    if key in flat then Some(flat[key]) else None
  }

  function MonitorKey(name: string, field: string): string {
    "urunc_config.monitors." + name + "." + field
  }

  function ExtraBinKey(name: string, field: string): string {
    "urunc_config.extra_binaries." + name + "." + field
  }

  lemma RuntimeKeys()
    ensures SlotKey(RuntimeSlot(Libcontainer)) == LIBCONTAINER_KEY && SlotKey(RuntimeSlot(VAccel)) == VACCEL_KEY
  {
    LibcontainerKey();
  }

  lemma LibcontainerKey()
    ensures SlotKey(RuntimeSlot(Libcontainer)) == LIBCONTAINER_KEY
  {
  }

  lemma MonitorKeys(name: string)
    ensures SlotKey(Slot(Monitors, name, MemoryMB)) == MonitorKey(name, "default_memory_mb")
    ensures SlotKey(Slot(Monitors, name, VCPUs)) == MonitorKey(name, "default_vcpus")
    ensures SlotKey(Slot(Monitors, name, BinaryPath)) == MonitorKey(name, "binary_path")
    ensures SlotKey(Slot(Monitors, name, DataPath)) == MonitorKey(name, "data_path")
    ensures SlotKey(Slot(Monitors, name, Vhost)) == MonitorKey(name, "vhost")
    ensures SlotKey(Slot(Monitors, name, SocketPath)) == MonitorKey(name, "socket_path")
  {
    forall field: string ensures Key(Monitors, name, field) == MonitorKey(name, field) {
      KeyText(Monitors, name, field);
    }
    hide Key, MonitorKey;
  }

  lemma ExtraBinKeys(name: string)
    ensures SlotKey(Slot(ExtraBinaries, name, Path)) == ExtraBinKey(name, "path")
    ensures SlotKey(Slot(ExtraBinaries, name, Options)) == ExtraBinKey(name, "options")
  {
    KeyText(ExtraBinaries, name, "path");
    KeyText(ExtraBinaries, name, "options");
    hide Key, ExtraBinKey;
  }

  lemma KeyText(section: Section, name: string, field: string)
    ensures section == Monitors ==> Key(section, name, field) == MonitorKey(name, field)
    ensures section == ExtraBinaries ==> Key(section, name, field) == ExtraBinKey(name, field)
  {
    assert ROOT + "." + ("monitors" + "." + (name + "." + field)) == "urunc_config.monitors." + name + "." + field;
    assert ROOT + "." + ("extra_binaries" + "." + (name + "." + field)) ==
           "urunc_config.extra_binaries." + name + "." + field;
  }

  // ------------------------------------------------------------------ what is written

  /** The six entries of a monitor. */
  ghost predicate RecordsMonitor(flat: map<string, string>, name: string, m: Monitor) {
    && At(flat, MonitorKey(name, "default_memory_mb")) == Some(FormatUint(m.memoryMB))
    && At(flat, MonitorKey(name, "default_vcpus")) == Some(FormatUint(m.vcpus))
    && At(flat, MonitorKey(name, "binary_path")) == Some(m.binaryPath)
    && At(flat, MonitorKey(name, "data_path")) == Some(m.dataPath)
    && At(flat, MonitorKey(name, "vhost")) == Some(if m.vhost then "true" else "false")
    && At(flat, MonitorKey(name, "socket_path")) == Some(m.socketPath)
  }

  ghost predicate RecordsExtraBin(flat: map<string, string>, name: string, b: ExtraBin) {
    At(flat, ExtraBinKey(name, "path")) == Some(b.path) && At(flat, ExtraBinKey(name, "options")) == Some(b.options)
  }

  ghost predicate RecordsRuntime(flat: map<string, string>, r: Runtime) {
    At(flat, LIBCONTAINER_KEY) == Some(if r.libcontainer then "true" else "false")
    && At(flat, VACCEL_KEY) == Some(if r.vAccel then "true" else "false")
  }

  const MONITOR_FIELDS := {"default_memory_mb", "default_vcpus", "binary_path", "data_path", "vhost", "socket_path"}

  /** The keys of a configuration: two for the runtime, six for each monitor, two for each extra binary. */
  ghost predicate IsKeyOf(cfg: Config, key: string) {
    || key == LIBCONTAINER_KEY || key == VACCEL_KEY
    || (exists name, field :: name in cfg.monitors && field in MONITOR_FIELDS && key == MonitorKey(name, field))
    || (exists name, field :: name in cfg.extraBins && field in {"path", "options"} && key == ExtraBinKey(name, field))
  }

  /** What `Map` writes, key by key. */
  lemma WrittenUnderKeys(cfg: Config, flat: map<string, string>)
    requires IsMapOf(cfg, flat)
    ensures RecordsRuntime(flat, cfg.runtime)
    ensures forall name :: name in cfg.monitors ==> RecordsMonitor(flat, name, cfg.monitors[name])
    ensures forall name :: name in cfg.extraBins ==> RecordsExtraBin(flat, name, cfg.extraBins[name])
    ensures forall key :: key in flat ==> IsKeyOf(cfg, key)
  {
    hide IsMapOf, RecordsRuntime, RecordsMonitor, RecordsExtraBin, IsKeyOf;
    RuntimeWritten(cfg, flat);
    forall name | name in cfg.monitors ensures RecordsMonitor(flat, name, cfg.monitors[name]) {
      MonitorWritten(cfg, flat, name);
    }
    forall name | name in cfg.extraBins ensures RecordsExtraBin(flat, name, cfg.extraBins[name]) {
      ExtraBinWritten(cfg, flat, name);
    }
    forall key | key in flat ensures IsKeyOf(cfg, key) {
      KeyIsKnown(cfg, flat, key);
    }
  }

  lemma RuntimeWritten(cfg: Config, flat: map<string, string>)
    requires IsMapOf(cfg, flat)
    ensures RecordsRuntime(flat, cfg.runtime)
  {
    RuntimeKeys();
    hide SlotKey;
    assert Get(flat, RuntimeSlot(Libcontainer)) == ValueAt(cfg, RuntimeSlot(Libcontainer));
    assert Get(flat, RuntimeSlot(VAccel)) == ValueAt(cfg, RuntimeSlot(VAccel));
  }

  lemma MonitorWritten(cfg: Config, flat: map<string, string>, name: string)
    requires IsMapOf(cfg, flat) && name in cfg.monitors
    ensures RecordsMonitor(flat, name, cfg.monitors[name])
  {
    MonitorKeys(name);
    hide SlotKey, MonitorKey, FormatUint;
    forall field ensures Get(flat, Slot(Monitors, name, field)) == MonitorText(cfg.monitors[name], field) {
      assert Get(flat, Slot(Monitors, name, field)) == ValueAt(cfg, Slot(Monitors, name, field));
    }
    hide IsMapOf;
  }

  lemma ExtraBinWritten(cfg: Config, flat: map<string, string>, name: string)
    requires IsMapOf(cfg, flat) && name in cfg.extraBins
    ensures RecordsExtraBin(flat, name, cfg.extraBins[name])
  {
    ExtraBinKeys(name);
    hide SlotKey, ExtraBinKey;
    assert Get(flat, Slot(ExtraBinaries, name, Path)) == ValueAt(cfg, Slot(ExtraBinaries, name, Path));
    assert Get(flat, Slot(ExtraBinaries, name, Options)) == ValueAt(cfg, Slot(ExtraBinaries, name, Options));
  }

  lemma KeyIsKnown(cfg: Config, flat: map<string, string>, key: string)
    requires IsMapOf(cfg, flat) && key in flat
    ensures IsKeyOf(cfg, key)
  {
    var s :| SlotKey(s) == key;
    assert Get(flat, s) == ValueAt(cfg, s);
    hide SlotKey, IsKeyOf, IsMapOf, FormatUint;
    match s {
      case RuntimeSlot(option) => RuntimeKeyIsKnown(cfg, option);
      case Slot(Monitors, name, field) => MonitorKeyIsKnown(cfg, name, field);
      case Slot(ExtraBinaries, name, field) => ExtraBinKeyIsKnown(cfg, name, field);
    }
  }

  lemma RuntimeKeyIsKnown(cfg: Config, option: RuntimeField)
    ensures IsKeyOf(cfg, SlotKey(RuntimeSlot(option)))
  {
    RuntimeKeys();
    hide SlotKey;
  }

  lemma MonitorKeyIsKnown(cfg: Config, name: string, field: Field)
    requires name in cfg.monitors && MonitorText(cfg.monitors[name], field).Some?
    ensures IsKeyOf(cfg, SlotKey(Slot(Monitors, name, field)))
  {
    MonitorKeys(name);
    hide SlotKey, MonitorKey, FormatUint;
  }

  lemma ExtraBinKeyIsKnown(cfg: Config, name: string, field: Field)
    requires name in cfg.extraBins && ExtraBinText(cfg.extraBins[name], field).Some?
    ensures IsKeyOf(cfg, SlotKey(Slot(ExtraBinaries, name, field)))
  {
    ExtraBinKeys(name);
    hide SlotKey, ExtraBinKey;
  }

  // ------------------------------------------------------------------ what is read

  /** The number that an entry gives: a positive int, else the default. */
  function NumberAt(flat: map<string, string>, key: string, default_: uint64): uint64 {
    match At(flat, key)
    case None => default_
    case Some(val) =>
      match Atoi(val)
      case None => default_
      case Some(n) => if 0 < n <= MAX_INT then n else default_
  }

  function TextAt(flat: map<string, string>, key: string, default_: string): string {
    if At(flat, key).Some? then At(flat, key).value else default_
  }

  /** A flag is set exactly if its entry is one of the texts that Go takes for true. */
  predicate FlagAt(flat: map<string, string>, key: string) {
    key in flat && flat[key] in {"1", "t", "T", "TRUE", "true", "True"}
  }

  const DEFAULT_NAMES := {"qemu", "hvt", "spt", "firecracker", "cloud-hypervisor", "hyperlight-unikraft"}

  /** A monitor as it is rebuilt: its entries, and for what is not there the defaults of the monitors that have some. */
  ghost predicate ReadsMonitor(flat: map<string, string>, name: string, m: Monitor) {
    var known := name in DEFAULT_NAMES;
    && m.memoryMB == NumberAt(flat, MonitorKey(name, "default_memory_mb"), if known then 256 else 0)
    && m.vcpus == NumberAt(flat, MonitorKey(name, "default_vcpus"), if known then 1 else 0)
    && m.binaryPath == TextAt(flat, MonitorKey(name, "binary_path"), "")
    && m.dataPath == TextAt(flat, MonitorKey(name, "data_path"), "")
    && m.vhost == FlagAt(flat, MonitorKey(name, "vhost"))
    && m.socketPath == TextAt(flat, MonitorKey(name, "socket_path"), "")
  }

  ghost predicate ReadsExtraBin(flat: map<string, string>, name: string, b: ExtraBin) {
    var known := name == "virtiofsd";
    && b.path == TextAt(flat, ExtraBinKey(name, "path"), if known then "/usr/libexec/virtiofsd" else "")
    && b.options == TextAt(flat, ExtraBinKey(name, "options"), if known then "--cache always --sandbox none" else "")
  }

  /** A name that has an entry: a text without a dot between the section and the last part of a key. */
  ghost predicate Named(flat: map<string, string>, section: string, name: string) {
    '.' !in name && exists field :: '.' !in field && "urunc_config." + section + "." + name + "." + field in flat
  }

  /** What is read from a map, whatever it holds, key by key. */
  lemma ReadFromKeys(flat: map<string, string>)
    ensures var cfg := FromMap(flat);
            && cfg.runtime.libcontainer == FlagAt(flat, LIBCONTAINER_KEY)
            && cfg.runtime.vAccel == FlagAt(flat, VACCEL_KEY)
            && (forall name :: name in cfg.monitors <==> name in DEFAULT_NAMES || Named(flat, "monitors", name))
            && (forall name :: name in cfg.monitors ==> ReadsMonitor(flat, name, cfg.monitors[name]))
            && (forall name :: name in cfg.extraBins <==> name == "virtiofsd" || Named(flat, "extra_binaries", name))
            && forall name :: name in cfg.extraBins ==> ReadsExtraBin(flat, name, cfg.extraBins[name])
  {
    hide Named, ReadsMonitor, ReadsExtraBin, MonitorIn, ExtraBinIn, NamesIn, NoDot, Get, FlagAt;
    RuntimeRead(flat);
    DefaultsAre();
    MonitorsLookup(flat);
    ExtraBinsLookup(flat);
    hide MonitorsIn, ExtraBinsIn, RuntimeIn, DefaultMonitors, DefaultExtraBins;
    forall name ensures name in NamesIn(flat, Monitors) <==> Named(flat, "monitors", name) {
      NamesAre(flat, Monitors, "monitors", name);
    }
    forall name ensures name in NamesIn(flat, ExtraBinaries) <==> Named(flat, "extra_binaries", name) {
      NamesAre(flat, ExtraBinaries, "extra_binaries", name);
    }
    forall name ensures ReadsMonitor(flat, name, MonitorIn(flat, name)) {
      MonitorRead(flat, name);
    }
    forall name ensures ReadsExtraBin(flat, name, ExtraBinIn(flat, name)) {
      ExtraBinRead(flat, name);
    }
  }

  lemma DefaultsAre()
    ensures DefaultMonitors().Keys == DEFAULT_NAMES && DefaultExtraBins().Keys == {"virtiofsd"}
    ensures forall name :: name in DefaultMonitors() ==> DefaultMonitors()[name] == Monitor(256, 1, "", "", false, "")
  {
  }

  lemma RuntimeRead(flat: map<string, string>)
    ensures RuntimeIn(flat).libcontainer == FlagAt(flat, LIBCONTAINER_KEY)
    ensures RuntimeIn(flat).vAccel == FlagAt(flat, VACCEL_KEY)
  {
    RuntimeKeys();
    hide SlotKey;
  }

  lemma MonitorRead(flat: map<string, string>, name: string)
    ensures ReadsMonitor(flat, name, MonitorIn(flat, name))
  {
    MonitorKeys(name);
    DefaultsAre();
    hide SlotKey, MonitorKey, Atoi, DefaultMonitors;
  }

  lemma ExtraBinRead(flat: map<string, string>, name: string)
    ensures ReadsExtraBin(flat, name, ExtraBinIn(flat, name))
  {
    ExtraBinKeys(name);
    VirtiofsdDefault();
    DefaultsAre();
    hide SlotKey, ExtraBinKey;
  }

  lemma NamesAre(flat: map<string, string>, section: Section, text: string, name: string)
    requires text == match section { case Monitors => "monitors" case ExtraBinaries => "extra_binaries" }
    ensures name in NamesIn(flat, section) <==> Named(flat, text, name)
  {
    hide ParseKey;
    if name in NamesIn(flat, section) {
      var key :| key in flat && ParseKey(section, key).Some? && ParseKey(section, key).value.0 == name;
      var field := ParseKey(section, key).value.1;
      KeyOfParseKey(section, key);
      KeyOfSection(section, text, name, field);
      assert '.' !in field && "urunc_config." + text + "." + name + "." + field in flat;
    }
    if Named(flat, text, name) {
      var field :| '.' !in field && "urunc_config." + text + "." + name + "." + field in flat;
      KeyOfSection(section, text, name, field);
      ParseKeyOfKey(section, name, field);
      assert ParseKey(section, Key(section, name, field)) == Some((name, field));
    }
  }

  lemma KeyOfSection(section: Section, text: string, name: string, field: string)
    requires text == match section { case Monitors => "monitors" case ExtraBinaries => "extra_binaries" }
    ensures Key(section, name, field) == "urunc_config." + text + "." + name + "." + field
  {
    KeyText(section, name, field);
    assert "urunc_config." + "monitors" + "." == "urunc_config.monitors.";
    assert "urunc_config." + "extra_binaries" + "." == "urunc_config.extra_binaries.";
    hide Key;
  }
}
