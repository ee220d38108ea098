/** The native create / reexec / start handshake: three kinds of processes, interleaved step by step, that
    share the state file, the init socket pair, two unix sockets and the log of executed hooks. Every
    fallible action may fail, a read may return fewer bytes than were sent, the reexec process may die at
    any point, and any number of start attempts may run once create has succeeded. */
module Handshake {
  import opened GoStrings

  const ACK := "UC_ACK"
  const START := "UC_START"
  const SUCCESS := "RX_SUCCESS"
  const ERROR := "RX_ERROR"

  /** The hooks of the spec, and the pid that the kernel gives the reexec process. */
  datatype Config = Config(
    createRuntime: seq<string>, createContainer: seq<string>, startContainer: seq<string>, poststart: seq<string>,
    reexecPid: int)

  datatype Status = Creating | Created | Running

  /** state.json; torn if a save failed after it had opened the file. */
  datatype Disk = NoFile | Torn | StateFile(status: Status, pid: int)

  /** What a save that fails leaves behind; with `n == 0` it has not opened the file. */
  function AfterFailedSave(disk: Disk, n: nat): Disk {
    if n == 0 then disk else Torn
  }

  datatype Executed = Executed(hook: string, ok: bool)

  /** `CDone`: the acknowledgement is out. Closing the socket or the log forwarder may fail even then. */
  datatype CreatePc = CPrepare | CSpawn | CSave | CHooks(next: nat) | CDone(ok: bool) | CFailed

  datatype ReexecPc =
    | RAbsent | RAwaitAck | RLoad | RCreateContainer(next: nat) | RAccept | RReadStart | RUnlink(started: bool) | RDial
    | RSetup | RStartContainer(next: nat) | RReport | RExecve | RReportError | RMonitor | RDead

  datatype StartPc =
    | SLoad | SListen | SDial | SSend | SHangUp(sent: bool) | SAwait | SRead | SStore
    | SPoststart(next: nat) | SCleanup(ok: bool) | SDone(ok: bool)

  /** One start attempt. `sent` is what it wrote to reexec's socket; `queued`: its connection waits to be
      accepted; `bound`: it has opened urunc.sock; `stored`: it has stored the running status. */
  datatype Start = Start(pc: StartPc, loaded: Disk, sent: string, queued: bool, bound: bool, stored: bool)

  const NEW_START := Start(SLoad, NoFile, "", false, false, false)

  /** `owner`: the start attempt that listens on urunc.sock. `peer`: the one whose connection reexec accepted.
      `dialed`: the one that reexec's report goes to, over the bytes in `report`. */
  datatype System = System(
    create: CreatePc, initSent: string,
    reexec: ReexecPc, loaded: Disk, listening: bool, peer: Option<nat>, dialed: Option<nat>, built: bool,
        report: string,
    disk: Disk, owner: Option<nat>, starts: seq<Start>, hooks: seq<Executed>)

  const INITIAL := System(CPrepare, "", RAbsent, NoFile, false, None, None, false, "", NoFile, None, [], [])

  /** Who acts. `ok` says whether the action succeeds; `n` is how many bytes a read returns, or a write
      that fails leaves behind; `k` is the connection that reexec accepts. */
  datatype Step =
    | CreateActs(ok: bool, n: nat)
    | ReexecActs(ok: bool, n: nat, k: nat)
    | ReexecDies
    | StartBegins
    | StartActs(i: nat, ok: bool, n: nat)

  // ------------------------------------------------------------------ the steps

  /** The first `n` bytes, as a read into a buffer of `max` bytes may return them. */
  predicate CanRead(sent: string, n: nat, max: nat) {
    0 < n <= max && n <= |sent|
  }

  function Ran(s: System, hook: string, ok: bool): System {
    s.(hooks := s.hooks + [Executed(hook, ok)])
  }

  /** `createUnikontainer`; every return closes its end of the init socket. */
  function CreateStep(c: Config, s: System, ok: bool, n: nat): Option<System> {
    match s.create
    case CPrepare =>
      Some(if ok then s.(disk := StateFile(Creating, -1), create := CSpawn)
           else s.(disk := AfterFailedSave(s.disk, n), create := CFailed))
    case CSpawn =>
      Some(if ok then s.(reexec := RAwaitAck, create := CSave) else s.(create := CFailed))
    case CSave =>
      Some(if ok then s.(disk := StateFile(Created, c.reexecPid), create := CHooks(0))
           else s.(disk := AfterFailedSave(s.disk, n), create := CFailed))
    case CHooks(i) =>
      if i < |c.createRuntime| then
        Some(Ran(s, c.createRuntime[i], ok).(create := if ok then CHooks(i + 1) else CFailed))
      else if ok then Some(s.(initSent := ACK, create := CDone(true)))
      else if n < |ACK| then Some(s.(initSent := ACK[..n], create := CFailed))
      else if n == |ACK| then Some(s.(initSent := ACK, create := CDone(false)))
      else None
    case CDone(_) => None
    case CFailed => None
  }

  /** `reexecUnikontainer` and, from RSetup on, `Exec`. */
  function ReexecStep(c: Config, s: System, ok: bool, n: nat, k: nat): Option<System> {
    match s.reexec
    case RAwaitAck =>
      if !ok then Some(s.(reexec := RDead))
      else if !CanRead(s.initSent, n, |ACK|) then None
      else Some(s.(reexec := if s.initSent[..n] == ACK then RLoad else RDead))
    case RLoad =>
      Some(if ok && s.disk.StateFile? then s.(loaded := s.disk, reexec := RCreateContainer(0)) else s.(reexec := RDead))
    case RCreateContainer(i) =>
      if i < |c.createContainer| then
        Some(Ran(s, c.createContainer[i], ok).(reexec := if ok then RCreateContainer(i + 1) else RDead))
      else Some(if ok then s.(listening := true, reexec := RAccept) else s.(reexec := RDead))
    case RAccept =>
      if !ok then Some(s.(reexec := RUnlink(false)))
      else if k < |s.starts| && s.starts[k].queued then
        Some(s.(starts := s.starts[k := s.starts[k].(queued := false)], peer := Some(k), reexec := RReadStart))
      else None
    case RReadStart =>
      if !ok || s.peer.None? || s.peer.value >= |s.starts| then Some(s.(reexec := RUnlink(false)))
      else
        var sent := s.starts[s.peer.value].sent;
        if CanRead(sent, n, |START|) then Some(s.(reexec := RUnlink(sent[..n] == START))) else None
    case RUnlink(started) =>
      Some(s.(listening := false, reexec := if started then RDial else RDead))
    case RDial =>
      Some(if ok && s.owner.Some? then s.(dialed := s.owner, reexec := RSetup) else s.(reexec := RDead))
    case RSetup =>
      Some(s.(reexec := if ok then RStartContainer(0) else RReportError))
    case RStartContainer(i) =>
      if i < |c.startContainer| then
        Some(Ran(s, c.startContainer[i], ok).(reexec := if ok then RStartContainer(i + 1) else RReportError))
      else Some(if ok then s.(built := true, reexec := RReport) else s.(reexec := RReportError))
    case RReport =>
      if ok then Some(s.(report := s.report + SUCCESS, reexec := RExecve))
      else if n < |SUCCESS| then Some(s.(report := s.report + SUCCESS[..n], reexec := RReportError))
      else None
    case RExecve =>
      Some(s.(reexec := if ok then RMonitor else RReportError))
    case RReportError =>
      if n <= |ERROR| then Some(s.(report := s.report + ERROR[..n], reexec := RDead)) else None
    case RAbsent => None
    case RMonitor => None
    case RDead => None
  }

  /** What a start attempt changes: itself, the state file, the owner of urunc.sock and the hooks. */
  datatype Effect = Effect(start: Start, disk: Disk, owner: Option<nat>, hooks: seq<Executed>)

  /** `startUnikontainer` without libcontainer. */
  function StartEffect(c: Config, s: System, i: nat, ok: bool, n: nat): Option<Effect>
    requires i < |s.starts|
  {
    var t := s.starts[i];
    var e := Effect(t, s.disk, s.owner, s.hooks);
    match t.pc
    case SLoad =>
      Some(e.(start := if ok && s.disk.StateFile? then t.(loaded := s.disk, pc := SListen) else t.(pc := SDone(false))))
    case SListen =>
      Some(if ok && s.owner.None? then e.(start := t.(bound := true, pc := SDial), owner := Some(i))
           else e.(start := t.(pc := SDone(false))))
    case SDial =>
      Some(e.(start := if ok && s.listening then t.(queued := true, pc := SSend) else t.(pc := SCleanup(false))))
    case SSend =>
      if ok then Some(e.(start := t.(sent := START, pc := SHangUp(true))))
      else if n < |START| then Some(e.(start := t.(sent := START[..n], pc := SHangUp(false))))
      else None
    case SHangUp(sent) =>
      Some(e.(start := t.(pc := if ok && sent then SAwait else SCleanup(false))))
    case SAwait =>
      if !ok then Some(e.(start := t.(pc := SCleanup(false))))
      else if s.dialed == Some(i) then Some(e.(start := t.(pc := SRead)))
      else None
    case SRead =>
      if !ok then Some(e.(start := t.(pc := SCleanup(false))))
      else if CanRead(s.report, n, |SUCCESS|) then
        Some(e.(start := t.(pc := if s.report[..n] == SUCCESS then SStore else SCleanup(false))))
      else None
    case SStore =>
      Some(if ok && t.loaded.StateFile? then
             e.(start := t.(stored := true, pc := SPoststart(0)), disk := t.loaded.(status := Running))
           else e.(start := t.(pc := SCleanup(false)), disk := AfterFailedSave(s.disk, n)))
    case SPoststart(j) =>
      if j < |c.poststart| then
        Some(e.(start := t.(pc := if ok then SPoststart(j + 1) else SCleanup(false)),
                hooks := s.hooks + [Executed(c.poststart[j], ok)]))
      else Some(e.(start := t.(pc := SCleanup(true))))
    case SCleanup(b) =>
      Some(e.(start := t.(pc := SDone(b)), owner := None))
    case SDone(_) => None
  }

  function StartStep(c: Config, s: System, i: nat, ok: bool, n: nat): Option<System>
    requires i < |s.starts|
  {
    match StartEffect(c, s, i, ok, n)
    case None => None
    case Some(e) => Some(s.(starts := s.starts[i := e.start], disk := e.disk, owner := e.owner, hooks := e.hooks))
  }

  /** The state after a step, or None if nobody can act like that now. */
  function Apply(c: Config, s: System, step: Step): Option<System> {
    match step
    case CreateActs(ok, n) => CreateStep(c, s, ok, n)
    case ReexecActs(ok, n, k) => ReexecStep(c, s, ok, n, k)
    case ReexecDies => if s.reexec in {RAbsent, RMonitor} then None else Some(s.(listening := false, reexec := RDead))
    case StartBegins => if s.create == CDone(true) then Some(s.(starts := s.starts + [NEW_START])) else None
    case StartActs(i, ok, n) => if i < |s.starts| then StartStep(c, s, i, ok, n) else None
  }

  ghost predicate Next(c: Config, s: System, s': System) {
    exists step :: Apply(c, s, step) == Some(s')
  }

  ghost predicate IsRun(c: Config, run: seq<System>) {
    && |run| > 0 && run[0] == INITIAL
    && forall i :: 0 <= i < |run| - 1 ==> Next(c, run[i], run[i + 1])
  }

  // ------------------------------------------------------------------ what holds in every state

  /** All hooks, in the order of the container's life cycle. */
  function AllHooks(c: Config): seq<string> {
    c.createRuntime + c.createContainer + c.startContainer + c.poststart
  }

  /** The first `n` hooks have run, without a failure. */
  ghost predicate RanFirst(c: Config, hooks: seq<Executed>, n: nat) {
    |hooks| == n <= |AllHooks(c)| && forall i :: 0 <= i < n ==> hooks[i] == Executed(AllHooks(c)[i], true)
  }

  /** The executed hooks are the first of the life cycle, in order, and only the last one may have failed. */
  ghost predicate InOrder(c: Config, hooks: seq<Executed>) {
    && |hooks| <= |AllHooks(c)|
    && (forall i :: 0 <= i < |hooks| ==> hooks[i].hook == AllHooks(c)[i])
    && (forall i :: 0 <= i < |hooks| - 1 ==> hooks[i].ok)
  }

  predicate SuccessSent(s: System) {
    HasPrefix(s.report, SUCCESS)
  }

  /** Some start attempt has stored the running status. */
  predicate Stored(s: System) {
    s.dialed.Some? && s.dialed.value < |s.starts| && s.starts[s.dialed.value].stored
  }

  /** The start attempt that could store the running status has ended without. */
  predicate GivenUp(s: System) {
    s.dialed.Some? && s.dialed.value < |s.starts|
    && var t := s.starts[s.dialed.value]; !t.stored && (t.pc.SCleanup? || t.pc.SDone?)
  }

  /** The start attempt holds urunc.sock open. */
  predicate Listens(t: Start) {
    t.pc in {SDial, SSend, SAwait, SRead, SStore} || t.pc.SHangUp? || t.pc.SPoststart? || t.pc.SCleanup?
  }

  ghost predicate StartInv(c: Config, s: System, i: nat, t: Start) {
    && (s.owner == Some(i) <==> Listens(t))
    && (Listens(t) || t.queued || s.peer == Some(i) || s.dialed == Some(i) ==> t.bound)
    && (t.bound ==> t.pc !in {SLoad, SListen})
    && (t.pc == SListen || Listens(t) ==> t.loaded.StateFile? && t.loaded.pid == c.reexecPid)
    && (t.pc in {SRead, SStore} || t.pc.SPoststart? || t.stored ==> s.dialed == Some(i))
    && (t.pc == SStore || t.pc.SPoststart? || t.stored ==> SuccessSent(s))
    && (t.stored ==> t.pc.SPoststart? || t.pc.SCleanup? || t.pc.SDone?)
    && (t.pc.SPoststart? ==> t.stored && t.pc.next <= |c.poststart|)
    && (t.pc in {SLoad, SListen, SDial, SSend} ==> t.sent == "")
    && t.sent <= START
    && (s.peer == Some(i) && s.reexec in {RUnlink(true), RDial} ==> t.sent == START)
  }

  /** Create has not yet told reexec to go on. */
  ghost predicate EarlyInv(s: System) {
    && s.reexec in {RAbsent, RAwaitAck, RDead} && s.report == "" && s.dialed.None? && s.peer.None?
    && !s.built && s.starts == [] && s.owner.None? && !s.listening && s.initSent <= ACK && s.initSent != ACK
  }

  ghost predicate CreateInv(c: Config, s: System) {
    match s.create
    case CPrepare => EarlyInv(s) && s.reexec.RAbsent? && s.disk == NoFile && s.hooks == []
    case CSpawn => EarlyInv(s) && s.reexec.RAbsent? && s.disk == StateFile(Creating, -1) && s.hooks == []
    case CSave => EarlyInv(s) && !s.reexec.RAbsent? && s.disk == StateFile(Creating, -1) && s.hooks == []
    case CHooks(i) =>
      EarlyInv(s) && !s.reexec.RAbsent? && s.disk == StateFile(Created, c.reexecPid) && i <= |c.createRuntime|
          && RanFirst(c, s.hooks, i)
    case CFailed =>
      EarlyInv(s) && s.disk in {NoFile, Torn, StateFile(Creating, -1), StateFile(Created, c.reexecPid)}
          && InOrder(c, s.hooks)
    case CDone(ok) =>
      && s.initSent == ACK && !s.reexec.RAbsent? && InOrder(c, s.hooks)
      && |s.hooks| >= |c.createRuntime|
      && (ok || s.starts == [])
      && if s.disk == Torn then GivenUp(s) else s.disk == StateFile(if Stored(s) then Running else Created, c.reexecPid)
  }

  /** Before the report. */
  ghost predicate Unreported(s: System) {
    s.report == "" && !s.built
  }

  ghost predicate NotDialed(s: System) {
    Unreported(s) && s.dialed.None?
  }

  ghost predicate ReexecInv(c: Config, s: System) {
    var a := |c.createRuntime|;
    var b := a + |c.createContainer|;
    var d := b + |c.startContainer|;
    && (s.listening ==> s.reexec in {RAccept, RReadStart} || s.reexec.RUnlink?)
    && (s.reexec !in {RAbsent, RAwaitAck, RLoad, RDead} ==> s.loaded == StateFile(Created, c.reexecPid))
    && (s.reexec in {RReadStart, RDial, RUnlink(true)} ==> s.peer.Some?)
    && match s.reexec
       case RAwaitAck => NotDialed(s) && s.peer.None? && (s.create.CDone? ==> RanFirst(c, s.hooks, a))
       case RLoad => NotDialed(s) && s.peer.None? && RanFirst(c, s.hooks, a)
       case RCreateContainer(i) => NotDialed(s) && s.peer.None? && i <= |c.createContainer|
           && RanFirst(c, s.hooks, a + i)
       case RAccept => NotDialed(s) && s.peer.None? && RanFirst(c, s.hooks, b)
       case RReadStart => NotDialed(s) && RanFirst(c, s.hooks, b)
       case RUnlink(_) => NotDialed(s) && RanFirst(c, s.hooks, b)
       case RDial => NotDialed(s) && RanFirst(c, s.hooks, b)
       case RSetup => Unreported(s) && s.dialed.Some? && RanFirst(c, s.hooks, b)
       case RStartContainer(i) =>
         Unreported(s) && s.dialed.Some? && i <= |c.startContainer| && RanFirst(c, s.hooks, b + i)
       case RReport => s.report == "" && s.built && s.dialed.Some? && RanFirst(c, s.hooks, d)
       case RExecve => s.report == SUCCESS && s.built
       case RReportError => s.report == SUCCESS || (s.report <= SUCCESS && s.report != SUCCESS)
       case RMonitor => SuccessSent(s)
       case RAbsent => true
       case RDead => true
  }

  ghost predicate ReportInv(c: Config, s: System) {
    var d := |c.createRuntime| + |c.createContainer| + |c.startContainer|;
    && (SuccessSent(s) ==> s.built && s.dialed.Some?)
    && (SuccessSent(s) && !Stored(s) ==> RanFirst(c, s.hooks, d))
    && (forall i :: 0 <= i < |s.starts| && s.starts[i].pc.SPoststart? ==>
          RanFirst(c, s.hooks, d + s.starts[i].pc.next))
    && (s.dialed.Some? ==> s.dialed.value < |s.starts|)
    && (s.peer.Some? ==> s.peer.value < |s.starts|)
    && (s.owner.Some? ==> s.owner.value < |s.starts|)
  }

  ghost predicate Inv(c: Config, s: System) {
    && CreateInv(c, s) && ReexecInv(c, s) && ReportInv(c, s)
    && forall i :: 0 <= i < |s.starts| ==> StartInv(c, s, i, s.starts[i])
  }

  // ------------------------------------------------------------------ every step keeps it

  lemma HookRuns(c: Config, hooks: seq<Executed>, n: nat, hook: string, ok: bool)
    requires RanFirst(c, hooks, n) && n < |AllHooks(c)| && AllHooks(c)[n] == hook
    ensures InOrder(c, hooks + [Executed(hook, ok)])
    ensures ok ==> RanFirst(c, hooks + [Executed(hook, ok)], n + 1)
  {
  }

  lemma RanFirstInOrder(c: Config, hooks: seq<Executed>, n: nat)
    requires RanFirst(c, hooks, n)
    ensures InOrder(c, hooks)
  {
  }

  lemma CreateKeeps(c: Config, s: System, ok: bool, n: nat)
    requires Inv(c, s) && CreateStep(c, s, ok, n).Some?
    ensures Inv(c, CreateStep(c, s, ok, n).value)
  {
    hide HasPrefix, StartInv;
    if s.create.CHooks? {
      var i := s.create.next;
      RanFirstInOrder(c, s.hooks, i);
      if i < |c.createRuntime| {
        HookRuns(c, s.hooks, i, c.createRuntime[i], ok);
      }
    }
  }

  /** Once a proper part of the success message is out, no part of the error message completes it. */
  lemma NoForgedSuccess(p: string, n: nat)
    requires p <= SUCCESS && p != SUCCESS && n <= |ERROR|
    ensures !HasPrefix(p + ERROR[..n], SUCCESS)
  {
    var r, k := p + ERROR[..n], |p|;
    assert k < |SUCCESS|;
    if n > 0 && |r| >= |SUCCESS| {
      assert k > 0 && SUCCESS[k] != 'R';
      assert r[..|SUCCESS|][k] == r[k] == ERROR[..n][0] == 'R';
    }
  }

  lemma SuccessStays(p: string, more: string)
    ensures HasPrefix(p, SUCCESS) ==> HasPrefix(p + more, SUCCESS)
    ensures p == "" ==> p + more == more
  {
    if HasPrefix(p, SUCCESS) {
      assert (p + more)[..|SUCCESS|] == p[..|SUCCESS|];
    }
  }

  /** What reexec does to itself leaves the starts as they are. */
  lemma StartsKept(c: Config, s: System, s': System)
    requires forall i :: 0 <= i < |s.starts| ==> StartInv(c, s, i, s.starts[i])
    requires s'.starts == s.starts && s'.owner == s.owner && s'.peer == s.peer && s'.dialed == s.dialed
    requires SuccessSent(s) ==> SuccessSent(s')
    requires s'.reexec in {RUnlink(true), RDial} ==> s.reexec in {RUnlink(true), RDial}
    ensures forall i :: 0 <= i < |s'.starts| ==> StartInv(c, s', i, s'.starts[i])
  {
    hide HasPrefix;
    forall i | 0 <= i < |s'.starts| ensures StartInv(c, s', i, s'.starts[i]) {
      assert StartInv(c, s, i, s.starts[i]);
    }
  }

  /** A start that changes nothing but itself leaves the other starts as they are. */
  lemma OtherStartsKept(c: Config, s: System, i: nat, t: Start)
    requires i < |s.starts| && forall j :: 0 <= j < |s.starts| ==> StartInv(c, s, j, s.starts[j])
    ensures var s' := s.(starts := s.starts[i := t]);
            StartInv(c, s', i, t) ==> forall j :: 0 <= j < |s'.starts| ==> StartInv(c, s', j, s'.starts[j])
  {
    hide HasPrefix;
    var s' := s.(starts := s.starts[i := t]);
    forall j | 0 <= j < |s'.starts| && j != i ensures StartInv(c, s', j, s'.starts[j]) {
      assert StartInv(c, s, j, s.starts[j]);
    }
  }

  lemma ReexecWaitsKeeps(c: Config, s: System, ok: bool, n: nat, k: nat)
    requires Inv(c, s) && ReexecStep(c, s, ok, n, k).Some?
    requires s.reexec in {RAwaitAck, RLoad} || s.reexec.RCreateContainer?
    ensures Inv(c, ReexecStep(c, s, ok, n, k).value)
  {
    hide InOrder, RanFirst, HasPrefix;
    if s.reexec.RCreateContainer? && s.reexec.next < |c.createContainer| {
      var i := s.reexec.next;
      HookRuns(c, s.hooks, |c.createRuntime| + i, c.createContainer[i], ok);
    }
    StartsKept(c, s, ReexecStep(c, s, ok, n, k).value);
    hide StartInv;
  }

  lemma ReexecAcceptsKeeps(c: Config, s: System, ok: bool, n: nat, k: nat)
    requires Inv(c, s) && s.reexec == RAccept && ReexecStep(c, s, ok, n, k).Some?
    ensures Inv(c, ReexecStep(c, s, ok, n, k).value)
  {
    hide InOrder, RanFirst, HasPrefix;
  }

  lemma ReexecReadsKeeps(c: Config, s: System, ok: bool, n: nat, k: nat)
    requires Inv(c, s) && s.reexec == RReadStart && ReexecStep(c, s, ok, n, k).Some?
    ensures Inv(c, ReexecStep(c, s, ok, n, k).value)
  {
    hide InOrder, RanFirst, HasPrefix;
  }

  lemma ReexecUnlinksKeeps(c: Config, s: System, ok: bool, n: nat, k: nat)
    requires Inv(c, s) && s.reexec.RUnlink? && ReexecStep(c, s, ok, n, k).Some?
    ensures Inv(c, ReexecStep(c, s, ok, n, k).value)
  {
    hide InOrder, RanFirst, HasPrefix;
    StartsKept(c, s, ReexecStep(c, s, ok, n, k).value);
    hide StartInv;
  }

  lemma ReexecDialsKeeps(c: Config, s: System, ok: bool, n: nat, k: nat)
    requires Inv(c, s) && s.reexec == RDial && ReexecStep(c, s, ok, n, k).Some?
    ensures Inv(c, ReexecStep(c, s, ok, n, k).value)
  {
    hide InOrder, RanFirst, HasPrefix;
  }

  lemma ReexecSetsUpKeeps(c: Config, s: System, ok: bool, n: nat, k: nat)
    requires Inv(c, s) && ReexecStep(c, s, ok, n, k).Some?
    requires s.reexec.RSetup? || s.reexec.RStartContainer?
    ensures Inv(c, ReexecStep(c, s, ok, n, k).value)
  {
    hide InOrder, RanFirst, HasPrefix;
    if s.reexec.RStartContainer? && s.reexec.next < |c.startContainer| {
      var i := s.reexec.next;
      HookRuns(c, s.hooks, |c.createRuntime| + |c.createContainer| + i, c.startContainer[i], ok);
    }
    StartsKept(c, s, ReexecStep(c, s, ok, n, k).value);
    hide StartInv;
  }

  lemma ReexecReportsKeeps(c: Config, s: System, ok: bool, n: nat, k: nat)
    requires Inv(c, s) && s.reexec == RReport && ReexecStep(c, s, ok, n, k).Some?
    ensures Inv(c, ReexecStep(c, s, ok, n, k).value)
  {
    hide InOrder, RanFirst;
    SuccessStays(s.report, SUCCESS);
    if !ok {
      SuccessStays(s.report, SUCCESS[..n]);
    }
    StartsKept(c, s, ReexecStep(c, s, ok, n, k).value);
    hide StartInv;
  }

  lemma ReexecExecvesKeeps(c: Config, s: System, ok: bool, n: nat, k: nat)
    requires Inv(c, s) && s.reexec == RExecve && ReexecStep(c, s, ok, n, k).Some?
    ensures Inv(c, ReexecStep(c, s, ok, n, k).value)
  {
    hide InOrder, RanFirst;
    StartsKept(c, s, ReexecStep(c, s, ok, n, k).value);
    hide StartInv;
  }

  lemma ReexecReportsErrorKeeps(c: Config, s: System, ok: bool, n: nat, k: nat)
    requires Inv(c, s) && s.reexec == RReportError && ReexecStep(c, s, ok, n, k).Some?
    ensures Inv(c, ReexecStep(c, s, ok, n, k).value)
  {
    SuccessStays(s.report, ERROR[..n]);
    if s.report != SUCCESS {
      NoForgedSuccess(s.report, n);
    }
    var s' := ReexecStep(c, s, ok, n, k).value;
    assert SuccessSent(s') == SuccessSent(s);
    hide InOrder, RanFirst, HasPrefix;
  }

  lemma ReexecKeeps(c: Config, s: System, ok: bool, n: nat, k: nat)
    requires Inv(c, s) && ReexecStep(c, s, ok, n, k).Some?
    ensures Inv(c, ReexecStep(c, s, ok, n, k).value)
  {
    hide Inv;
    match s.reexec
    case RAwaitAck => ReexecWaitsKeeps(c, s, ok, n, k);
    case RLoad => ReexecWaitsKeeps(c, s, ok, n, k);
    case RCreateContainer(_) => ReexecWaitsKeeps(c, s, ok, n, k);
    case RAccept => ReexecAcceptsKeeps(c, s, ok, n, k);
    case RReadStart => ReexecReadsKeeps(c, s, ok, n, k);
    case RUnlink(_) => ReexecUnlinksKeeps(c, s, ok, n, k);
    case RDial => ReexecDialsKeeps(c, s, ok, n, k);
    case RSetup => ReexecSetsUpKeeps(c, s, ok, n, k);
    case RStartContainer(_) => ReexecSetsUpKeeps(c, s, ok, n, k);
    case RReport => ReexecReportsKeeps(c, s, ok, n, k);
    case RExecve => ReexecExecvesKeeps(c, s, ok, n, k);
    case RReportError => ReexecReportsErrorKeeps(c, s, ok, n, k);
    case RAbsent =>
    case RMonitor =>
    case RDead =>
  }

  lemma DeathKeeps(c: Config, s: System)
    requires Inv(c, s) && s.reexec !in {RAbsent, RMonitor}
    ensures Inv(c, s.(listening := false, reexec := RDead))
  {
  }

  lemma StartLoadsKeeps(c: Config, s: System, i: nat, ok: bool, n: nat)
    requires Inv(c, s) && i < |s.starts| && StartStep(c, s, i, ok, n).Some?
    requires s.starts[i].pc == SLoad
    ensures Inv(c, StartStep(c, s, i, ok, n).value)
  {
    hide InOrder, RanFirst, HasPrefix;
  }

  lemma StartListensKeeps(c: Config, s: System, i: nat, ok: bool, n: nat)
    requires Inv(c, s) && i < |s.starts| && StartStep(c, s, i, ok, n).Some?
    requires s.starts[i].pc == SListen
    ensures Inv(c, StartStep(c, s, i, ok, n).value)
  {
    hide InOrder, RanFirst, HasPrefix;
  }

  lemma StartDialsKeeps(c: Config, s: System, i: nat, ok: bool, n: nat)
    requires Inv(c, s) && i < |s.starts| && StartStep(c, s, i, ok, n).Some?
    requires s.starts[i].pc == SDial
    ensures Inv(c, StartStep(c, s, i, ok, n).value)
  {
    hide InOrder, RanFirst, HasPrefix;
  }

  lemma StartSendsKeeps(c: Config, s: System, i: nat, ok: bool, n: nat)
    requires Inv(c, s) && i < |s.starts| && StartStep(c, s, i, ok, n).Some?
    requires s.starts[i].pc == SSend
    ensures Inv(c, StartStep(c, s, i, ok, n).value)
  {
    hide InOrder, RanFirst, HasPrefix;
    assert StartInv(c, s, i, s.starts[i]);
    var t := StartEffect(c, s, i, ok, n).value.start;
    OtherStartsKept(c, s, i, t);
    assert StartInv(c, s.(starts := s.starts[i := t]), i, t);
    hide StartInv;
  }

  lemma StartHangsUpKeeps(c: Config, s: System, i: nat, ok: bool, n: nat)
    requires Inv(c, s) && i < |s.starts| && StartStep(c, s, i, ok, n).Some?
    requires s.starts[i].pc.SHangUp?
    ensures Inv(c, StartStep(c, s, i, ok, n).value)
  {
    hide InOrder, RanFirst, HasPrefix;
    assert StartInv(c, s, i, s.starts[i]);
    var t := StartEffect(c, s, i, ok, n).value.start;
    OtherStartsKept(c, s, i, t);
    assert StartInv(c, s.(starts := s.starts[i := t]), i, t);
    hide StartInv;
  }

  lemma StartAwaitsKeeps(c: Config, s: System, i: nat, ok: bool, n: nat)
    requires Inv(c, s) && i < |s.starts| && StartStep(c, s, i, ok, n).Some?
    requires s.starts[i].pc == SAwait
    ensures Inv(c, StartStep(c, s, i, ok, n).value)
  {
    hide InOrder, RanFirst, HasPrefix;
    assert StartInv(c, s, i, s.starts[i]);
    var t := StartEffect(c, s, i, ok, n).value.start;
    OtherStartsKept(c, s, i, t);
    assert StartInv(c, s.(starts := s.starts[i := t]), i, t);
    hide StartInv;
  }

  lemma StartReadsKeeps(c: Config, s: System, i: nat, ok: bool, n: nat)
    requires Inv(c, s) && i < |s.starts| && StartStep(c, s, i, ok, n).Some?
    requires s.starts[i].pc == SRead
    ensures Inv(c, StartStep(c, s, i, ok, n).value)
  {
    if ok && s.report[..n] == SUCCESS {
      assert SuccessSent(s);
    }
    hide InOrder, RanFirst, HasPrefix;
  }

  lemma StartStoresKeeps(c: Config, s: System, i: nat, ok: bool, n: nat)
    requires Inv(c, s) && i < |s.starts| && StartStep(c, s, i, ok, n).Some?
    requires s.starts[i].pc == SStore
    ensures Inv(c, StartStep(c, s, i, ok, n).value)
  {
    hide InOrder, RanFirst, HasPrefix;
    var s' := StartStep(c, s, i, ok, n).value;
    assert StartInv(c, s, i, s.starts[i]);
    assert s.dialed == Some(i) && !Stored(s) && SuccessSent(s);
    assert s.create.CDone?;
    assert CreateInv(c, s');
    assert ReexecInv(c, s');
    assert ReportInv(c, s');
    assert StartInv(c, s', i, s'.starts[i]);
  }

  lemma StartRunsHooksKeeps(c: Config, s: System, i: nat, ok: bool, n: nat)
    requires Inv(c, s) && i < |s.starts| && StartStep(c, s, i, ok, n).Some?
    requires s.starts[i].pc.SPoststart?
    ensures Inv(c, StartStep(c, s, i, ok, n).value)
  {
    var d := |c.createRuntime| + |c.createContainer| + |c.startContainer|;
    var j := s.starts[i].pc.next;
    if j < |c.poststart| {
      HookRuns(c, s.hooks, d + j, c.poststart[j], ok);
    }
    hide InOrder, RanFirst, HasPrefix;
  }

  lemma StartCleansUpKeeps(c: Config, s: System, i: nat, ok: bool, n: nat)
    requires Inv(c, s) && i < |s.starts| && StartStep(c, s, i, ok, n).Some?
    requires s.starts[i].pc.SCleanup?
    ensures Inv(c, StartStep(c, s, i, ok, n).value)
  {
    hide InOrder, RanFirst, HasPrefix;
  }

  lemma StartKeeps(c: Config, s: System, i: nat, ok: bool, n: nat)
    requires Inv(c, s) && i < |s.starts| && StartStep(c, s, i, ok, n).Some?
    ensures Inv(c, StartStep(c, s, i, ok, n).value)
  {
    hide Inv;
    match s.starts[i].pc
    case SLoad => StartLoadsKeeps(c, s, i, ok, n);
    case SListen => StartListensKeeps(c, s, i, ok, n);
    case SDial => StartDialsKeeps(c, s, i, ok, n);
    case SSend => StartSendsKeeps(c, s, i, ok, n);
    case SHangUp(_) => StartHangsUpKeeps(c, s, i, ok, n);
    case SAwait => StartAwaitsKeeps(c, s, i, ok, n);
    case SRead => StartReadsKeeps(c, s, i, ok, n);
    case SStore => StartStoresKeeps(c, s, i, ok, n);
    case SPoststart(_) => StartRunsHooksKeeps(c, s, i, ok, n);
    case SCleanup(_) => StartCleansUpKeeps(c, s, i, ok, n);
    case SDone(_) =>
  }

  lemma StepKeeps(c: Config, s: System, step: Step)
    requires Inv(c, s) && Apply(c, s, step).Some?
    ensures Inv(c, Apply(c, s, step).value)
  {
    hide Inv, CreateStep, ReexecStep, StartStep;
    match step
    case CreateActs(ok, n) => CreateKeeps(c, s, ok, n);
    case ReexecActs(ok, n, k) => ReexecKeeps(c, s, ok, n, k);
    case ReexecDies => DeathKeeps(c, s);
    case StartBegins => BeginKeeps(c, s);
    case StartActs(i, ok, n) => StartKeeps(c, s, i, ok, n);
  }

  lemma BeginKeeps(c: Config, s: System)
    requires Inv(c, s) && s.create == CDone(true)
    ensures Inv(c, s.(starts := s.starts + [NEW_START]))
  {
    hide InOrder, RanFirst, HasPrefix;
    var s' := s.(starts := s.starts + [NEW_START]);
    assert forall i | 0 <= i < |s.starts| :: s'.starts[i] == s.starts[i];
    BeginKeepsStarts(c, s);
    hide StartInv;
  }

  lemma BeginKeepsStarts(c: Config, s: System)
    requires Inv(c, s)
    ensures var s' := s.(starts := s.starts + [NEW_START]);
            forall i :: 0 <= i < |s'.starts| ==> StartInv(c, s', i, s'.starts[i])
  {
    hide InOrder, RanFirst, HasPrefix, CreateInv, ReexecInv;
    var s' := s.(starts := s.starts + [NEW_START]);
    forall i | 0 <= i < |s'.starts| ensures StartInv(c, s', i, s'.starts[i]) {
      assert i < |s.starts| ==> StartInv(c, s, i, s.starts[i]);
    }
  }

  lemma {:induction false} RunKeeps(c: Config, run: seq<System>, i: nat)
    requires IsRun(c, run) && i < |run|
    ensures Inv(c, run[i])
  {
    hide Inv, Apply;
    if i == 0 {
      InitialInv(c);
    } else {
      RunKeeps(c, run, i - 1);
      assert Next(c, run[i - 1], run[i]);
      var step :| Apply(c, run[i - 1], step) == Some(run[i]);
      StepKeeps(c, run[i - 1], step);
    }
  }

  lemma InitialInv(c: Config)
    ensures Inv(c, INITIAL)
  {
  }
}
