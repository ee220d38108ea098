/** The dotted string keys under which state.json records the urunc configuration. */
module ConfigKeys {
  import opened GoStrings

  datatype Section = Monitors | ExtraBinaries

  datatype Field = MemoryMB | VCPUs | BinaryPath | DataPath | Vhost | SocketPath | Path | Options

  datatype RuntimeField = Libcontainer | VAccel

  /** A place of the configuration that a key stands for. */
  datatype Slot = RuntimeSlot(option: RuntimeField) | Slot(section: Section, name: string, field: Field)

  function SectionName(s: Section): string {
    match s
    case Monitors => "monitors"
    case ExtraBinaries => "extra_binaries"
  }

  function FieldName(f: Field): string {
    match f
    case MemoryMB => "default_memory_mb"
    case VCPUs => "default_vcpus"
    case BinaryPath => "binary_path"
    case DataPath => "data_path"
    case Vhost => "vhost"
    case SocketPath => "socket_path"
    case Path => "path"
    case Options => "options"
  }

  function FieldNamed(s: string): Option<Field> {
    if s == "default_memory_mb" then Some(MemoryMB)
    else if s == "default_vcpus" then Some(VCPUs)
    else if s == "binary_path" then Some(BinaryPath)
    else if s == "data_path" then Some(DataPath)
    else if s == "vhost" then Some(Vhost)
    else if s == "socket_path" then Some(SocketPath)
    else if s == "path" then Some(Path)
    else if s == "options" then Some(Options)
    else None
  }

  const ROOT := "urunc_config"

  function Key(section: Section, name: string, field: string): string {
    ROOT + "." + (SectionName(section) + "." + (name + "." + field))
  }

  function SlotKey(s: Slot): string {
    match s
    case RuntimeSlot(Libcontainer) => ROOT + "." + "runtime.libcontainer"
    case RuntimeSlot(VAccel) => ROOT + "." + "runtime.vAccel"
    case Slot(section, name, field) => Key(section, name, FieldName(field))
  }

  predicate NoDot(s: string) {
    '.' !in s
  }

  /** What the loops take from a key: it has the prefix of the section, four parts, and the last two count. */
  function ParseKey(section: Section, key: string): Option<(string, string)> {
    if HasPrefix(key, ROOT + "." + SectionName(section) + ".") && |Split(key, '.')| == 4 then
      Some((Split(key, '.')[2], Split(key, '.')[3]))
    else None
  }

  // ------------------------------------------------------------------ names without dots

  lemma SectionNames(s: Section)
    ensures NoDot(SectionName(s)) && NoDot(ROOT)
  {
  }

  lemma FieldNames(f: Field)
    ensures NoDot(FieldName(f)) && FieldNamed(FieldName(f)) == Some(f)
  {
  }

  lemma FieldNamedInverse(s: string)
    ensures FieldNamed(s).Some? ==> FieldName(FieldNamed(s).value) == s
  {
  }

  lemma DotBetween(a: string, x: string)
    ensures var s := a + "." + x;
            && s[|a|] == '.' && s[..|a|] == a && s[|a| + 1..] == x
            && (NoDot(a) ==> forall i :: 0 <= i < |a| ==> s[i] != '.')
            && (NoDot(x) ==> forall i :: |a| < i < |s| ==> s[i] != '.')
  {
    var s := a + "." + x;
    forall i | 0 <= i < |s| ensures (i < |a| ==> s[i] in a) && (|a| < i ==> s[i] in x) {
      if |a| < i {
        assert s[i] == x[i - |a| - 1];
      }
    }
  }

  lemma FirstDot(a: string, x: string, b: string, y: string)
    requires a + "." + x == b + "." + y && NoDot(a) && NoDot(b)
    ensures a == b && x == y
  {
    DotBetween(a, x);
    DotBetween(b, y);
    assert |a| == |b|;
  }

  lemma LastDot(a: string, x: string, b: string, y: string)
    requires a + "." + x == b + "." + y && NoDot(x) && NoDot(y)
    ensures a == b && x == y
  {
    DotBetween(a, x);
    DotBetween(b, y);
    assert |a| == |b|;
  }

  lemma SectionNameInjective(s: Section, t: Section)
    ensures SectionName(s) == SectionName(t) ==> s == t
  {
  }

  /** Keys with fields that have no dot differ if a part does, whatever the names are. */
  lemma KeyInjective(s: Section, a: string, f: string, t: Section, b: string, g: string)
    requires NoDot(f) && NoDot(g) && Key(s, a, f) == Key(t, b, g)
    ensures s == t && a == b && f == g
  {
    SectionNames(s);
    SectionNames(t);
    hide SectionName, NoDot;
    FirstDot(ROOT, SectionName(s) + "." + (a + "." + f), ROOT, SectionName(t) + "." + (b + "." + g));
    FirstDot(SectionName(s), a + "." + f, SectionName(t), b + "." + g);
    LastDot(a, f, b, g);
    SectionNameInjective(s, t);
  }

  lemma RuntimeKeyDiffers(option: RuntimeField, section: Section, name: string, field: string)
    ensures SlotKey(RuntimeSlot(option)) != Key(section, name, field)
  {
    var rest := SectionName(section) + "." + (name + "." + field);
    var runtime := if option == Libcontainer then "runtime.libcontainer" else "runtime.vAccel";
    assert SlotKey(RuntimeSlot(option)) == ROOT + "." + runtime;
    var n := |ROOT + "."|;
    assert (ROOT + "." + runtime)[n] == runtime[0] == 'r';
    assert (ROOT + "." + rest)[n] == rest[0] == SectionName(section)[0];
  }

  lemma RuntimeKeysDiffer()
    ensures SlotKey(RuntimeSlot(Libcontainer)) != SlotKey(RuntimeSlot(VAccel))
  {
    assert |SlotKey(RuntimeSlot(Libcontainer))| != |SlotKey(RuntimeSlot(VAccel))|;
  }

  /** No two places of the configuration share a key. */
  lemma SlotKeyInjective(s: Slot, t: Slot)
    ensures SlotKey(s) == SlotKey(t) ==> s == t
  {
    hide Key, FieldName, NoDot;
    match (s, t) {
      case (RuntimeSlot(_), RuntimeSlot(_)) => RuntimeKeysDiffer();
      case (RuntimeSlot(o), Slot(section, name, field)) => RuntimeKeyDiffers(o, section, name, FieldName(field));
      case (Slot(section, name, field), RuntimeSlot(o)) => RuntimeKeyDiffers(o, section, name, FieldName(field));
      case (Slot(s1, n1, f1), Slot(s2, n2, f2)) =>
        FieldNames(f1);
        FieldNames(f2);
        if Key(s1, n1, FieldName(f1)) == Key(s2, n2, FieldName(f2)) {
          KeyInjective(s1, n1, FieldName(f1), s2, n2, FieldName(f2));
        }
    }
  }

  // ------------------------------------------------------------------ parsing

  lemma SplitRest(section: Section, rest: string)
    ensures Split(ROOT + "." + (SectionName(section) + "." + rest), '.') ==
            [ROOT, SectionName(section)] + Split(rest, '.')
  {
    var sec := SectionName(section);
    SectionNames(section);
    hide SectionName, Split;
    SplitAtSep(ROOT, sec + "." + rest, '.');
    SplitAtSep(sec, rest, '.');
    SplitFree(ROOT, '.');
    SplitFree(sec, '.');
    assert [ROOT] + ([sec] + Split(rest, '.')) == [ROOT, sec] + Split(rest, '.');
  }

  lemma SplitKey(section: Section, name: string, field: string)
    requires NoDot(field)
    ensures Split(Key(section, name, field), '.') == [ROOT, SectionName(section)] + Split(name, '.') + [field]
  {
    hide SectionName, Split;
    SplitRest(section, name + "." + field);
    SplitAtSep(name, field, '.');
    SplitFree(field, '.');
    var start := [ROOT, SectionName(section)];
    assert start + (Split(name, '.') + [field]) == start + Split(name, '.') + [field];
  }

  lemma KeyHasPrefix(section: Section, name: string, field: string)
    ensures HasPrefix(Key(section, name, field), ROOT + "." + SectionName(section) + ".")
  {
    var prefix := ROOT + "." + SectionName(section) + ".";
    hide SectionName;
    assert Key(section, name, field) == prefix + (name + "." + field);
    assert (prefix + (name + "." + field))[..|prefix|] == prefix;
  }

  lemma DottedName(name: string)
    ensures |Split(name, '.')| == 1 <==> NoDot(name)
  {
    if NoDot(name) {
      SplitFree(name, '.');
    }
    if |Split(name, '.')| == 1 {
      SplitPartsFree(name, '.');
      JoinSplit(name, '.');
    }
  }

  /** A key is taken apart into what it was made of, unless the name has a dot: then no loop looks at it. */
  lemma ParseKeyOfKey(section: Section, name: string, field: string)
    requires NoDot(field)
    ensures ParseKey(section, Key(section, name, field)) == if NoDot(name) then Some((name, field)) else None
  {
    SplitKey(section, name, field);
    KeyHasPrefix(section, name, field);
    DottedName(name);
    if NoDot(name) {
      SplitFree(name, '.');
    }
    hide Key, NoDot, SectionName;
  }

  /** What is taken from a key makes up the whole key. */
  lemma KeyOfParseKey(section: Section, key: string)
    requires ParseKey(section, key).Some?
    ensures var (name, field) := ParseKey(section, key).value;
            key == Key(section, name, field) && NoDot(name) && NoDot(field)
  {
    SplitPartsFree(key, '.');
    var rest := RestOfKey(section, key);
    SplitRest(section, rest);
    TwoParts(rest);
    hide SectionName, HasPrefix, Split;
    var parts, tail := Split(key, '.'), Split(rest, '.');
    assert parts == [ROOT, SectionName(section)] + tail;
    assert |tail| == 2 && tail[0] == parts[2] && tail[1] == parts[3];
  }

  ghost function RestOfKey(section: Section, key: string): (rest: string)
    requires HasPrefix(key, ROOT + "." + SectionName(section) + ".")
    ensures key == ROOT + "." + (SectionName(section) + "." + rest)
  {
    var prefix := ROOT + "." + SectionName(section) + ".";
    assert key == prefix + key[|prefix|..];
    key[|prefix|..]
  }

  lemma TwoParts(s: string)
    ensures |Split(s, '.')| == 2 ==> s == Split(s, '.')[0] + "." + Split(s, '.')[1]
  {
    JoinSplit(s, '.');
    hide Split;
    if |Split(s, '.')| == 2 {
      assert Split(s, '.')[1..] == [Split(s, '.')[1]];
    }
  }
}
