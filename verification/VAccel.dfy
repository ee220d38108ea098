/** The vAccel annotations: what create accepts, and what Exec makes of the recorded values. */
module VAccel {
  import opened GoStrings
  import opened Strconv
  import opened Ports
  import ConfigKeys
  import UruncConfig
  import StateAnnotations

  const ANNOT_VACCEL := "com.urunc.unikernel.vAccel"
  const ANNOT_RPC_ADDRESS := "com.urunc.unikernel.RPCAddress"
  const ANNOT_HYPERVISOR := "com.urunc.unikernel.hypervisor"

  /** The part of the unikernel's configuration that concerns vAccel. */
  datatype Annotations = Annotations(hypervisor: string, vAccel: string, rpcAddress: string)

  // ------------------------------------------------------------------ address formats

  const VSOCK := "vsock://2:"
  const UNIX := "unix://"
  const SOCK := "/vaccel.sock_"

  predicate PlainChar(c: char) {
    'A' <= c <= 'Z' || 'a' <= c <= 'z' || '0' <= c <= '9' || c == '_' || c == '-'
  }

  /** `(?:/[A-Za-z0-9_-]+)+` */
  predicate IsSockDir(s: string) {
    var parts := Split(s, '/');
    |parts| >= 2 && parts[0] == ""
    && forall i :: 0 < i < |parts| ==> parts[i] != "" && forall j :: 0 <= j < |parts[i]| ==> PlainChar(parts[i][j])
  }

  /** The text of an address for firecracker, with the directory and the port that the groups capture. */
  predicate UnixAddress(s: string, dir: string, port: string) {
    s == UNIX + dir + SOCK + port && IsSockDir(dir) && IsPortText(port)
  }

  predicate VSockAddress(s: string, port: string) {
    s == VSOCK + port && IsPortText(port)
  }

  /** How many bytes follow the last `c`. */
  function AfterLast(s: string, c: char): (n: nat)
    ensures n <= |s|
  {
    if s == "" || s[|s| - 1] == c then 0 else 1 + AfterLast(s[..|s| - 1], c)
  }

  /** The port that the regular expression for firecracker captures. A port has no underscore, so it is what follows the
      last one, and that one has to end `/vaccel.sock_`. */
  function CapturedPort(s: string): Option<string> {
    var at := |s| - AfterLast(s, '_');
    var (head, port) := (s[..at], s[at..]);
    if |head| >= |UNIX| + |SOCK| && HasPrefix(head, UNIX) && head[|head| - |SOCK|..] == SOCK
       && IsSockDir(head[|UNIX|..|head| - |SOCK|]) && IsPortText(port) then Some(port)
    else None
  }

  lemma {:induction false} AfterLastOf(head: string, tail: string, c: char)
    requires c !in tail
    ensures AfterLast(head + [c] + tail, c) == |tail|
    decreases |tail|
  {
    var s := head + [c] + tail;
    if tail != "" {
      var front := tail[..|tail| - 1];
      assert tail[|tail| - 1] in tail && s[|s| - 1] == tail[|tail| - 1];
      assert s[..|s| - 1] == head + [c] + front;
      AfterLastOf(head, front, c);
    } else {
      assert s[|s| - 1] == c;
    }
  }

  lemma DigitsHaveNoUnderscore(port: string)
    requires IsPortText(port)
    ensures '_' !in port
  {
  }

  lemma UnixAddressCaptures(s: string, dir: string, port: string)
    requires UnixAddress(s, dir, port)
    ensures CapturedPort(s) == Some(port)
  {
    hide IsSockDir, IsPortText, HasPrefix, AfterLast;
    var stem := UNIX + dir + "/vaccel.sock";
    DigitsHaveNoUnderscore(port);
    assert s == stem + ['_'] + port by { assert SOCK == "/vaccel.sock" + ['_']; }
    AfterLastOf(stem, port, '_');
    var head := stem + ['_'];
    assert s[..|s| - |port|] == head && s[|s| - |port|..] == port;
    assert head == UNIX + dir + SOCK;
    PrefixOf(UNIX, dir + SOCK);
    assert UNIX + dir + SOCK == UNIX + (dir + SOCK);
    assert head[|UNIX|..|head| - |SOCK|] == dir;
    assert head[|head| - |SOCK|..] == SOCK;
  }

  lemma PrefixOf(a: string, b: string)
    ensures HasPrefix(a + b, a) && TrimPrefix(a + b, a) == b
  {
  }

  lemma CapturedIsUnixAddress(s: string)
    requires CapturedPort(s).Some?
    ensures exists dir :: UnixAddress(s, dir, CapturedPort(s).value)
  {
    hide IsSockDir, IsPortText, AfterLast;
    var at := |s| - AfterLast(s, '_');
    var head, port := s[..at], s[at..];
    var dir := head[|UNIX|..|head| - |SOCK|];
    assert head == UNIX + dir + SOCK;
    assert s == head + port;
    assert UnixAddress(s, dir, port);
  }

  /** `regex.MatchString` for a monitor; None if the monitor is not in the map. */
  function MatchesAddress(hypervisor: string, s: string): Option<bool> {
    if hypervisor == "qemu" then Some(HasPrefix(s, VSOCK) && IsPortText(s[|VSOCK|..]))
    else if hypervisor == "firecracker" then Some(CapturedPort(s).Some?)
    else None
  }

  /** What the two expressions accept. */
  lemma AddressFormats(s: string)
    ensures MatchesAddress("qemu", s) == Some(exists port :: VSockAddress(s, port))
    ensures MatchesAddress("firecracker", s) == Some(exists dir, port :: UnixAddress(s, dir, port))
  {
    hide IsPortText;
    if port :| VSockAddress(s, port) {
      PrefixOf(VSOCK, port);
      assert s[|VSOCK|..] == port;
    }
    if HasPrefix(s, VSOCK) && IsPortText(s[|VSOCK|..]) {
      assert s == VSOCK + s[|VSOCK|..];
      assert VSockAddress(s, s[|VSOCK|..]);
    }
    hide CapturedPort, IsSockDir;
    if dir, port :| UnixAddress(s, dir, port) {
      UnixAddressCaptures(s, dir, port);
    }
    if CapturedPort(s).Some? {
      CapturedIsUnixAddress(s);
      var dir :| UnixAddress(s, dir, CapturedPort(s).value);
    }
  }

  // ------------------------------------------------------------------ create

  /** The vAccel part of `validateValues`. */
  predicate Accepts(c: Annotations) {
    if c.vAccel == "" then c.rpcAddress == ""
    else c.vAccel == "vsock" && c.rpcAddress != "" && |c.rpcAddress| <= MAX_ANNOTATION_VALUE_LEN
         && MatchesAddress(c.hypervisor, c.rpcAddress) == Some(true)
  }

  /** The vAccel part of `validateValues`. */
  method ValidateVAccel(c: Annotations) returns (ok: bool)
    ensures ok == Accepts(c)
    ensures ok <==> (c.vAccel == "" && c.rpcAddress == "") || IsVSockRequest(c)
  {
    AcceptsExactly(c);
    hide MatchesAddress, IsVSockRequest;
    if c.vAccel == "" {
      return c.rpcAddress == "";
    }
    if c.vAccel != "vsock" {
      return false;
    }
    if c.rpcAddress == "" {
      return false;
    }
    if |c.rpcAddress| > MAX_ANNOTATION_VALUE_LEN {
      return false;
    }
    var matches := MatchesAddress(c.hypervisor, c.rpcAddress);
    if matches.None? {
      return false;
    }
    return matches.value;
  }

  /** A letter, a digit, an underscore or a dash. */
  predicate IsPathChar(c: char) {
    ('A' <= c <= 'Z') || ('a' <= c <= 'z') || ('0' <= c <= '9') || c == '_' || c == '-'
  }

  /** An absolute path: one or more names after a slash each. */
  ghost predicate IsPlainPath(dir: string) {
    exists names :: |names| >= 1 && dir == "/" + Join(names, '/') && AllPlain(names)
  }

  ghost predicate AllPlain(names: seq<string>) {
    forall i :: 0 <= i < |names| ==> names[i] != "" && forall j :: 0 <= j < |names[i]| ==> IsPathChar(names[i][j])
  }

  /** A port of the host, as a guest of qemu dials it. */
  ghost predicate IsHostPort(s: string) {
    exists port :: 1 <= port <= 65535 && s == "vsock://2:" + FormatUint(port)
  }

  /** A socket of the vAccel agent, named after the port that a guest of firecracker dials. */
  ghost predicate IsAgentSocket(s: string) {
    exists dir, port :: IsPlainPath(dir) && 1 <= port <= 65535
                        && s == "unix://" + dir + "/vaccel.sock_" + FormatUint(port)
  }

  ghost predicate IsVSockRequest(c: Annotations) {
    c.vAccel == "vsock" && |c.rpcAddress| <= 4096
    && ((c.hypervisor == "qemu" && IsHostPort(c.rpcAddress))
        || (c.hypervisor == "firecracker" && IsAgentSocket(c.rpcAddress)))
  }

  lemma SockDirIsPlainPath(dir: string)
    ensures IsSockDir(dir) <==> IsPlainPath(dir)
  {
    if IsSockDir(dir) {
      var parts := Split(dir, '/');
      JoinSplit(dir, '/');
      assert dir == "" + ['/'] + Join(parts[1..], '/') == "/" + Join(parts[1..], '/');
      hide Split, Join;
      assert AllPlain(parts[1..]);
    }
    if names :| |names| >= 1 && dir == "/" + Join(names, '/') && AllPlain(names) {
      assert forall i | 0 <= i < |names| :: '/' !in names[i];
      SplitJoin(names, '/');
      SplitAtSep("", Join(names, '/'), '/');
      SplitFree("", '/');
      hide Split, Join;
      assert "" + ['/'] + Join(names, '/') == dir;
      assert Split(dir, '/') == [""] + names;
    }
  }

  lemma PortTexts(s: string)
    ensures IsPortText(s) <==> exists port :: 1 <= port <= 65535 && s == FormatUint(port)
  {
    PortTextIsPort(s);
    hide IsPortText, FormatUint;
  }

  lemma VSockExactly(s: string)
    ensures MatchesAddress("qemu", s) == Some(IsHostPort(s))
  {
    AddressFormats(s);
    hide IsPortText, FormatUint, MatchesAddress;
    if port :| VSockAddress(s, port) {
      PortTexts(port);
    }
    if port :| 1 <= port <= 65535 && s == "vsock://2:" + FormatUint(port) {
      PortTexts(FormatUint(port));
      assert VSockAddress(s, FormatUint(port));
    }
  }

  lemma UnixExactly(s: string)
    ensures MatchesAddress("firecracker", s) == Some(IsAgentSocket(s))
  {
    AddressFormats(s);
    hide IsPortText, FormatUint, IsPlainPath, IsSockDir, MatchesAddress;
    if dir, text :| UnixAddress(s, dir, text) {
      PortTexts(text);
      SockDirIsPlainPath(dir);
      var port :| 1 <= port <= 65535 && text == FormatUint(port);
      assert s == "unix://" + dir + "/vaccel.sock_" + FormatUint(port);
    }
    if dir, port :| IsPlainPath(dir) && 1 <= port <= 65535
                    && s == "unix://" + dir + "/vaccel.sock_" + FormatUint(port) {
      PortTexts(FormatUint(port));
      SockDirIsPlainPath(dir);
      assert UnixAddress(s, dir, FormatUint(port));
    }
  }

  lemma RequestsNotEmpty(s: string)
    ensures IsHostPort(s) || IsAgentSocket(s) ==> s != ""
  {
  }

  /** Exactly what create accepts. */
  lemma AcceptsExactly(c: Annotations)
    ensures Accepts(c) <==> (c.vAccel == "" && c.rpcAddress == "") || IsVSockRequest(c)
  {
    VSockExactly(c.rpcAddress);
    UnixExactly(c.rpcAddress);
    RequestsNotEmpty(c.rpcAddress);
    hide IsHostPort, IsAgentSocket, IsPortText, HasPrefix, CapturedPort;
  }

  method PutNonEmpty(m: map<string, string>, key: string, val: string) returns (r: map<string, string>)
    ensures r == if val != "" then m[key := val] else m
  {
    r := if val != "" then m[key := val] else m;
  }

  /** The value of a key, as `annotations[key]` gives it. */
  function ValueOf(m: map<string, string>, key: string): string {
    if key in m then m[key] else ""
  }

  /** The three annotations are recorded, an empty one by its absence. */
  predicate Records(m: map<string, string>, c: Annotations) {
    && ValueOf(m, "com.urunc.unikernel.hypervisor") == c.hypervisor
    && ValueOf(m, "com.urunc.unikernel.vAccel") == c.vAccel
    && ValueOf(m, "com.urunc.unikernel.RPCAddress") == c.rpcAddress
    && ("com.urunc.unikernel.hypervisor" in m <==> c.hypervisor != "")
    && ("com.urunc.unikernel.vAccel" in m <==> c.vAccel != "")
    && ("com.urunc.unikernel.RPCAddress" in m <==> c.rpcAddress != "")
  }

  lemma KeysApart()
    ensures ANNOT_HYPERVISOR != ANNOT_VACCEL && ANNOT_HYPERVISOR != ANNOT_RPC_ADDRESS
            && ANNOT_VACCEL != ANNOT_RPC_ADDRESS
  {
    assert ANNOT_HYPERVISOR[20] == 'h' && ANNOT_VACCEL[20] == 'v' && ANNOT_RPC_ADDRESS[20] == 'R';
  }

  /** The part of `UnikernelConfig.Map` that records these annotations; `others` is the rest of the map. */
  method RecordVAccel(c: Annotations, others: map<string, string>) returns (m: map<string, string>)
    requires ANNOT_HYPERVISOR !in others && ANNOT_VACCEL !in others && ANNOT_RPC_ADDRESS !in others
    ensures Records(m, c)
    ensures forall key :: key != "com.urunc.unikernel.hypervisor" && key != "com.urunc.unikernel.vAccel"
                          && key != "com.urunc.unikernel.RPCAddress" ==>
              (key in m <==> key in others) && (key in m ==> m[key] == others[key])
  {
    KeysApart();
    m := others;
    m := PutNonEmpty(m, ANNOT_HYPERVISOR, c.hypervisor);
    m := PutNonEmpty(m, ANNOT_VACCEL, c.vAccel);
    m := PutNonEmpty(m, ANNOT_RPC_ADDRESS, c.rpcAddress);
  }

  // ------------------------------------------------------------------ exec

  datatype Resolved = Disabled | Misconfigured | Resolved(vAccelType: string, hostSocket: string, address: string)

  /** `isValidVSockAddress`: for firecracker the address is replaced. */
  method IsValidVSockAddress(rpcAddress: string, hypervisor: string)
    returns (valid: bool, hostSocket: string, rpcAddress': string)
    ensures valid <==> MatchesAddress(hypervisor, rpcAddress) == Some(true)
    ensures valid && hypervisor == "firecracker" ==>
              hostSocket == TrimPrefix(rpcAddress, UNIX) && rpcAddress' == VSOCK + CapturedPort(rpcAddress).value
    ensures !valid || hypervisor != "firecracker" ==> hostSocket == "" && rpcAddress' == rpcAddress
  {
    hide CapturedPort, TrimPrefix, IsPortText, HasPrefix;
    rpcAddress' := rpcAddress;
    var matches := MatchesAddress(hypervisor, rpcAddress);
    if matches.None? {
      return false, "", rpcAddress';
    }
    if !matches.value {
      return false, "", rpcAddress';
    }
    if hypervisor == "firecracker" {
      hostSocket := TrimPrefix(rpcAddress, UNIX);
      rpcAddress' := VSOCK + CapturedPort(rpcAddress).value;
      return true, hostSocket, rpcAddress';
    }
    return true, "", rpcAddress';
  }

  function ResolvedVAccel(hypervisor: string, annotations: map<string, string>): Resolved {
    var address := ValueOf(annotations, ANNOT_RPC_ADDRESS);
    if ANNOT_VACCEL !in annotations then Disabled
    else if address == "" then Misconfigured
    else if annotations[ANNOT_VACCEL] != "vsock" then Resolved(annotations[ANNOT_VACCEL], "", address)
    else if MatchesAddress(hypervisor, address) != Some(true) then Misconfigured
    else if hypervisor == "firecracker" then
      Resolved("vsock", TrimPrefix(address, UNIX), VSOCK + CapturedPort(address).value)
    else Resolved("vsock", "", address)
  }

  /** `resolveVAccelConfig` */
  method ResolveVAccelConfig(hypervisor: string, annotations: map<string, string>) returns (r: Resolved)
    ensures r == ResolvedVAccel(hypervisor, annotations)
  {
    hide CapturedPort, TrimPrefix, IsPortText, HasPrefix, MatchesAddress;
    var address := ValueOf(annotations, ANNOT_RPC_ADDRESS);
    if ANNOT_VACCEL !in annotations {
      return Disabled;
    }
    if address == "" {
      return Misconfigured;
    }
    var vAccelType, vsockSocketPath := annotations[ANNOT_VACCEL], "";
    if vAccelType == "vsock" {
      var success;
      success, vsockSocketPath, address := IsValidVSockAddress(address, hypervisor);
      if !success {
        return Misconfigured;
      }
    }
    return Resolved(vAccelType, vsockSocketPath, address);
  }

  // ------------------------------------------------------------------ create's checks are enough

  lemma SlotKeysAreNotAnnotations(s: ConfigKeys.Slot)
    ensures ConfigKeys.SlotKey(s) !in {ANNOT_HYPERVISOR, ANNOT_VACCEL, ANNOT_RPC_ADDRESS}
  {
    assert ConfigKeys.SlotKey(s)[0] == 'u';
  }

  lemma AnnotationsAreUruncs()
    ensures !StateAnnotations.Propagates(ANNOT_HYPERVISOR) && !StateAnnotations.Propagates(ANNOT_VACCEL)
            && !StateAnnotations.Propagates(ANNOT_RPC_ADDRESS)
  {
  }

  lemma ValueSurvives(unikernel: map<string, string>, flat: map<string, string>, specs: seq<map<string, string>>,
                      key: string)
    requires key !in flat && !StateAnnotations.Propagates(key)
    ensures var ann := StateAnnotations.AfterSaves(unikernel + flat, specs);
            ValueOf(ann, key) == ValueOf(unikernel, key) && (key in ann <==> key in unikernel)
  {
    hide StateAnnotations.Propagates;
    var ann := StateAnnotations.AfterSaves(unikernel + flat, specs);
    if key in unikernel {
      StateAnnotations.RecordedStays(unikernel + flat, specs, key);
    } else if key in ann {
      StateAnnotations.AddedComesFromSpec(unikernel + flat, specs, key);
    }
  }

  lemma RecordsSurvive(c: Annotations, cfg: UruncConfig.Config, unikernel: map<string, string>, flat: map<string,
                       string>,
                       specs: seq<map<string, string>>)
    requires Records(unikernel, c) && UruncConfig.IsMapOf(cfg, flat)
    ensures Records(StateAnnotations.AfterSaves(unikernel + flat, specs), c)
  {
    forall key | key in flat ensures key !in {ANNOT_HYPERVISOR, ANNOT_VACCEL, ANNOT_RPC_ADDRESS} {
      var s :| ConfigKeys.SlotKey(s) == key;
      SlotKeysAreNotAnnotations(s);
    }
    hide UruncConfig.IsMapOf, ValueOf, StateAnnotations.AfterSaves, StateAnnotations.Propagates;
    AnnotationsAreUruncs();
    ValueSurvives(unikernel, flat, specs, ANNOT_HYPERVISOR);
    ValueSurvives(unikernel, flat, specs, ANNOT_VACCEL);
    ValueSurvives(unikernel, flat, specs, ANNOT_RPC_ADDRESS);
  }

  /** What Exec has to get out of an accepted annotation: the port of the accepted address, and for firecracker the
      socket to mount, which is the one that the address names. */
  ghost predicate AsAccepted(c: Annotations, r: Resolved, p: nat) {
    1 <= p <= 65535 && r.Resolved? && r.vAccelType == "vsock" && r.address == "vsock://2:" + FormatUint(p)
    && if c.hypervisor == "firecracker" then
         c.rpcAddress == "unix://" + r.hostSocket
         && exists dir :: IsPlainPath(dir) && r.hostSocket == dir + "/vaccel.sock_" + FormatUint(p)
       else c.rpcAddress == r.address && r.hostSocket == ""
  }

  lemma UnixResolves(c: Annotations, m: map<string, string>, dir: string, port: string)
    requires c.hypervisor == "firecracker" && c.vAccel == "vsock" && Records(m, c) && Accepts(c)
    requires UnixAddress(c.rpcAddress, dir, port)
    ensures ParseDigits(port).Some? && AsAccepted(c, ResolvedVAccel(c.hypervisor, m), ParseDigits(port).value)
  {
    UnixAddressCaptures(c.rpcAddress, dir, port);
    PortTextInRange(port);
    UnixSocket(c.rpcAddress, dir, port);
    SockDirIsPlainPath(dir);
    hide CapturedPort, IsPlainPath, IsSockDir, IsPortText, FormatUint, ParseDigits, TrimPrefix, HasPrefix;
    assert ResolvedVAccel(c.hypervisor, m) == Resolved("vsock", dir + SOCK + port, VSOCK + port);
    hide ResolvedVAccel, Records, Accepts;
  }

  lemma UnixSocket(s: string, dir: string, port: string)
    requires UnixAddress(s, dir, port)
    ensures s == UNIX + (dir + SOCK + port) && TrimPrefix(s, UNIX) == dir + SOCK + port
    ensures IsSockDir(dir) && IsPortText(port)
  {
    hide TrimPrefix, IsSockDir, IsPortText;
    assert s == UNIX + (dir + SOCK + port);
    PrefixOf(UNIX, dir + SOCK + port);
  }

  lemma VSockResolves(c: Annotations, m: map<string, string>, port: string)
    requires c.hypervisor == "qemu" && c.vAccel == "vsock" && Records(m, c) && Accepts(c)
             && VSockAddress(c.rpcAddress, port)
    ensures ParseDigits(port).Some? && AsAccepted(c, ResolvedVAccel(c.hypervisor, m), ParseDigits(port).value)
  {
    PortTextInRange(port);
    hide CapturedPort, IsSockDir, IsPortText, FormatUint, ParseDigits, TrimPrefix, HasPrefix;
  }

  /** What Exec makes of any recorded annotations, accepted or not. */
  lemma ResolvesExactly(hypervisor: string, annotations: map<string, string>)
    ensures var r, address := ResolvedVAccel(hypervisor, annotations),
                ValueOf(annotations, "com.urunc.unikernel.RPCAddress");
            if "com.urunc.unikernel.vAccel" !in annotations then r == Disabled
            else if address == "" then r == Misconfigured
            else if annotations["com.urunc.unikernel.vAccel"] != "vsock" then
              r == Resolved(annotations["com.urunc.unikernel.vAccel"], "", address)
            else if hypervisor == "qemu" && IsHostPort(address) then r == Resolved("vsock", "", address)
            else if hypervisor == "firecracker" && IsAgentSocket(address) then
              exists dir, port :: IsPlainPath(dir) && 1 <= port <= 65535
                && address == "unix://" + (dir + "/vaccel.sock_" + FormatUint(port))
                && r == Resolved("vsock", dir + "/vaccel.sock_" + FormatUint(port), "vsock://2:" + FormatUint(port))
            else r == Misconfigured
  {
    var address := ValueOf(annotations, ANNOT_RPC_ADDRESS);
    VSockExactly(address);
    UnixExactly(address);
    hide IsHostPort, IsPortText, HasPrefix, CapturedPort, IsPlainPath, FormatUint, TrimPrefix;
    if hypervisor == "firecracker" && IsAgentSocket(address) {
      var dir, port :| IsPlainPath(dir) && 1 <= port <= 65535
                       && address == "unix://" + dir + "/vaccel.sock_" + FormatUint(port);
      PortTexts(FormatUint(port));
      SockDirIsPlainPath(dir);
      hide IsSockDir;
      assert UnixAddress(address, dir, FormatUint(port));
      UnixAddressCaptures(address, dir, FormatUint(port));
      UnixSocket(address, dir, FormatUint(port));
    }
    hide IsAgentSocket;
  }

  lemma AcceptedResolves(c: Annotations, m: map<string, string>)
    requires Accepts(c) && Records(m, c)
    ensures var r := ResolvedVAccel(ValueOf(m, ANNOT_HYPERVISOR), m);
            if c.vAccel == "" then r == Disabled else exists p :: AsAccepted(c, r, p)
  {
    hide IsPortText, CapturedPort, IsSockDir, FormatUint, ParseDigits, HasPrefix, TrimPrefix, UnixAddress, VSockAddress,
      AsAccepted;
    if c.vAccel != "" {
      AddressFormats(c.rpcAddress);
      if c.hypervisor == "firecracker" {
        var dir, port :| UnixAddress(c.rpcAddress, dir, port);
        UnixResolves(c, m, dir, port);
        assert exists p :: AsAccepted(c, ResolvedVAccel(c.hypervisor, m), p);
      } else {
        var port :| VSockAddress(c.rpcAddress, port);
        VSockResolves(c, m, port);
        assert exists p :: AsAccepted(c, ResolvedVAccel(c.hypervisor, m), p);
      }
    }
  }

  /** Whatever create accepts and records, Exec, after any number of saves, resolves to disabled or to
      `vsock://2:P` with P in 1 to 65535. */
  lemma AcceptedAddressesResolve(c: Annotations, cfg: UruncConfig.Config, unikernel: map<string, string>,
                                 flat: map<string, string>, specs: seq<map<string, string>>)
    requires Accepts(c) && Records(unikernel, c) && UruncConfig.IsMapOf(cfg, flat)
    ensures var ann := StateAnnotations.AfterSaves(unikernel + flat, specs);
            var r := ResolvedVAccel(ValueOf(ann, ANNOT_HYPERVISOR), ann);
            if c.vAccel == "" then r == Disabled else exists p :: AsAccepted(c, r, p)
  {
    RecordsSurvive(c, cfg, unikernel, flat, specs);
    AcceptedResolves(c, StateAnnotations.AfterSaves(unikernel + flat, specs));
    hide StateAnnotations.AfterSaves, UruncConfig.IsMapOf, AsAccepted, ResolvedVAccel, Accepts, Records;
  }
}
