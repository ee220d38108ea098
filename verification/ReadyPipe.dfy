/** The handshake when libcontainer sets up the monitor: create, the monitor process and any number of start
    attempts, interleaved. The monitor inherits the write end of a FIFO and reports one byte over it. */
module ReadyPipe {
  import opened GoStrings
  import Handshake

  const READY_OK := 0
  const READY_FAILED := 1

  datatype Config = Config(poststart: seq<string>, monitorPid: int)

  datatype CreatePc = LPrepare | LMakePipe | LStart | LSave | LClosePipe | LDone | LFailed

  datatype MonitorPc =
    | MAbsent | MBlocked | MLoadSpec | MSetUp | MReport | MExecve | MReportFailure | MMonitor | MDead

  datatype StartPc =
    | PLoad | POpen | PRelease | PAwait | PStore | PPoststart(next: nat) | PClose(ok: bool)
    | PUnlink(ok: bool) | PDone(ok: bool)

  datatype Start = Start(pc: StartPc, loaded: Handshake.Disk, stored: bool)

  const NEW_START := Start(PLoad, Handshake.NoFile, false)

  /** `pipeExists`: the FIFO has its path. `createHolds` and `monitorHolds`: who has the write end open.
      `reports`: every byte written to the FIFO, of which the first `taken` are gone: read, or `lost` when nobody had
      the FIFO open any more. `released`: a start has opened the exec fifo. `winner`: the start that read the byte for
      success. */
  datatype System = System(
    create: CreatePc, pipeExists: bool, createHolds: bool,
    monitor: MonitorPc, monitorHolds: bool, released: bool, built: bool, reports: seq<int>, taken: nat,
    lost: bool, winner: Option<nat>, disk: Handshake.Disk, starts: seq<Start>, hooks: seq<Handshake.Executed>)

  const INITIAL := System(LPrepare, false, false, MAbsent, false, false, false, [], 0, false, None, Handshake.NoFile,
                          [], [])

  /** `wrote` and `closed`: how far a report that fails gets. `n`: what a save that fails leaves behind. */
  datatype Step =
    | CreateActs(ok: bool, n: nat)
    | MonitorActs(ok: bool, wrote: bool, closed: bool)
    | MonitorDies
    | StartBegins
    | StartActs(i: nat, ok: bool, n: nat)

  predicate HasWriter(s: System) {
    s.createHolds || s.monitorHolds
  }

  /** A read of the FIFO returns end of file: no byte, and nobody who could write one. */
  predicate AtEof(s: System) {
    s.taken >= |s.reports| && !HasWriter(s)
  }

  predicate Opened(t: Start) {
    t.pc in {PRelease, PAwait, PStore} || t.pc.PPoststart? || t.pc.PClose?
  }

  predicate HasReader(s: System) {
    exists i :: 0 <= i < |s.starts| && Opened(s.starts[i])
  }

  /** The kernel drops what is in a FIFO that nobody has open. */
  function Settle(s: System): System {
    if HasWriter(s) || HasReader(s) then s else s.(taken := |s.reports|, lost := s.lost || s.taken < |s.reports|)
  }

  /** `libcontainerCreate`. On a failure the deferred calls kill the monitor and close the write end. */
  function CreateStep(c: Config, s: System, ok: bool, n: nat): Option<System> {
    match s.create
    case LPrepare =>
      Some(if ok then s.(disk := Handshake.StateFile(Handshake.Creating, -1), create := LMakePipe)
           else s.(disk := Handshake.AfterFailedSave(s.disk, n), create := LFailed))
    case LMakePipe =>
      Some(if ok then s.(pipeExists := true, createHolds := true, create := LStart) else s.(create := LFailed))
    case LStart =>
      Some(if ok then s.(monitor := MBlocked, monitorHolds := true, create := LSave)
           else s.(createHolds := false, create := LFailed))
    case LSave =>
      Some(if ok then s.(disk := Handshake.StateFile(Handshake.Created, c.monitorPid), create := LClosePipe)
           else s.(disk := Handshake.AfterFailedSave(s.disk, n), monitor := MDead, monitorHolds := false,
                   createHolds := false, create := LFailed))
    case LClosePipe => Some(s.(createHolds := false, create := LDone))
    case LDone => None
    case LFailed => None
  }

  /** What the monitor process changes. */
  datatype MonitorEffect = MonitorEffect(monitor: MonitorPc, monitorHolds: bool, built: bool, reports: seq<int>)

  /** `ExecMonitor`, `runMonitor` and `signalReady`. A signal on a descriptor that is closed writes nothing. */
  function EffectOfMonitor(s: System, ok: bool, wrote: bool, closed: bool): Option<MonitorEffect> {
    var e := MonitorEffect(s.monitor, s.monitorHolds, s.built, s.reports);
    match s.monitor
    case MBlocked => if s.released then Some(e.(monitor := MLoadSpec)) else None
    case MLoadSpec => Some(e.(monitor := if ok then MSetUp else MReportFailure))
    case MSetUp => Some(if ok then e.(built := true, monitor := MReport) else e.(monitor := MReportFailure))
    case MReport =>
      if ok then Some(e.(reports := s.reports + [READY_OK], monitorHolds := false, monitor := MExecve))
      else if wrote && closed then None
      else
        Some(e.(reports := if wrote then s.reports + [READY_OK] else s.reports,
                monitorHolds := !closed, monitor := MReportFailure))
    case MExecve => Some(e.(monitor := if ok then MMonitor else MReportFailure))
    case MReportFailure =>
      Some(e.(reports := if s.monitorHolds && wrote then s.reports + [READY_FAILED] else s.reports,
              monitorHolds := false, monitor := MDead))
    case MAbsent => None
    case MMonitor => None
    case MDead => None
  }

  function MonitorStep(s: System, ok: bool, wrote: bool, closed: bool): Option<System> {
    match EffectOfMonitor(s, ok, wrote, closed)
    case None => None
    case Some(e) => Some(s.(monitor := e.monitor, monitorHolds := e.monitorHolds, built := e.built,
                            reports := e.reports))
  }

  datatype Effect = Effect(
    start: Start, disk: Handshake.Disk, hooks: seq<Handshake.Executed>,
    pipeExists: bool, released: bool, taken: nat, winner: Option<nat>)

  /** `startUnikontainer` with libcontainer. */
  function StartEffect(c: Config, s: System, i: nat, ok: bool, n: nat): Option<Effect>
    requires i < |s.starts|
  {
    var t := s.starts[i];
    var e := Effect(t, s.disk, s.hooks, s.pipeExists, s.released, s.taken, s.winner);
    match t.pc
    case PLoad =>
      Some(e.(start := if ok && s.disk.StateFile? then t.(loaded := s.disk, pc := POpen) else t.(pc := PDone(false))))
    case POpen =>
      Some(e.(start := t.(pc := if ok && s.pipeExists then PRelease else PDone(false))))
    case PRelease =>
      Some(if ok then e.(start := t.(pc := PAwait), released := true) else e.(start := t.(pc := PClose(false))))
    case PAwait =>
      if !ok then Some(e.(start := t.(pc := PClose(false))))
      else if s.taken < |s.reports| then
        Some(if s.reports[s.taken] == READY_OK then
               e.(start := t.(pc := PStore), taken := s.taken + 1, winner := Some(i))
             else e.(start := t.(pc := PClose(false)), taken := s.taken + 1))
      else if !HasWriter(s) then Some(e.(start := t.(pc := PClose(false))))
      else None
    case PStore =>
      Some(if ok && t.loaded.StateFile? then
             e.(start := t.(stored := true, pc := PPoststart(0)), disk := t.loaded.(status := Handshake.Running))
           else e.(start := t.(pc := PClose(false)), disk := Handshake.AfterFailedSave(s.disk, n)))
    case PPoststart(j) =>
      if j < |c.poststart| then
        Some(e.(start := t.(pc := if ok then PPoststart(j + 1) else PClose(false)),
                hooks := s.hooks + [Handshake.Executed(c.poststart[j], ok)]))
      else Some(e.(start := t.(pc := PClose(true))))
    case PClose(b) => Some(e.(start := t.(pc := PUnlink(b))))
    case PUnlink(b) => Some(e.(start := t.(pc := PDone(b)), pipeExists := false))
    case PDone(_) => None
  }

  function StartStep(c: Config, s: System, i: nat, ok: bool, n: nat): Option<System>
    requires i < |s.starts|
  {
    match StartEffect(c, s, i, ok, n)
    case None => None
    case Some(e) =>
      Some(s.(starts := s.starts[i := e.start], disk := e.disk, hooks := e.hooks, pipeExists := e.pipeExists,
              released := e.released, taken := e.taken, winner := e.winner))
  }

  function Act(c: Config, s: System, step: Step): Option<System> {
    match step
    case CreateActs(ok, n) => CreateStep(c, s, ok, n)
    case MonitorActs(ok, wrote, closed) => MonitorStep(s, ok, wrote, closed)
    case MonitorDies =>
      if s.monitor in {MAbsent, MMonitor} then None else Some(s.(monitor := MDead, monitorHolds := false))
    case StartBegins => if s.create.LDone? then Some(s.(starts := s.starts + [NEW_START])) else None
    case StartActs(i, ok, n) => if i < |s.starts| then StartStep(c, s, i, ok, n) else None
  }

  function Apply(c: Config, s: System, step: Step): Option<System> {
    match Act(c, s, step)
    case None => None
    case Some(s') => Some(Settle(s'))
  }

  ghost predicate Next(c: Config, s: System, s': System) {
    exists step :: Apply(c, s, step) == Some(s')
  }

  ghost predicate IsRun(c: Config, run: seq<System>) {
    && |run| > 0 && run[0] == INITIAL
    && forall i :: 0 <= i < |run| - 1 ==> Next(c, run[i], run[i + 1])
  }

  // ------------------------------------------------------------------ what holds in every state

  predicate SuccessSent(s: System) {
    |s.reports| > 0 && s.reports[0] == READY_OK
  }

  predicate Stored(s: System) {
    s.winner.Some? && s.winner.value < |s.starts| && s.starts[s.winner.value].stored
  }

  /** The start that read the byte for success has ended without storing the running status. */
  predicate GivenUp(s: System) {
    s.winner.Some? && s.winner.value < |s.starts|
    && var t := s.starts[s.winner.value]; !t.stored && (t.pc.PClose? || t.pc.PUnlink? || t.pc.PDone?)
  }

  ghost predicate CreateInv(c: Config, s: System) {
    && (s.create != LDone ==> s.starts == [] && !s.released && s.winner.None? && s.reports == [])
    && (s.create != LDone ==> s.monitor in {MAbsent, MBlocked, MDead})
    && (s.create in {LPrepare, LMakePipe, LStart} ==> s.monitor == MAbsent)
    && (s.create in {LPrepare, LMakePipe} ==> !s.pipeExists)
    && (s.create in {LStart, LSave, LClosePipe} ==> s.pipeExists && s.createHolds)
    && (s.create in {LDone, LSave, LClosePipe} ==> s.monitor != MAbsent)
    && (s.create in {LPrepare, LMakePipe, LDone, LFailed} ==> !s.createHolds)
    && match s.create
       case LPrepare => s.disk == Handshake.NoFile
       case LMakePipe => s.disk == Handshake.StateFile(Handshake.Creating, -1)
       case LStart => s.disk == Handshake.StateFile(Handshake.Creating, -1)
       case LSave => s.disk == Handshake.StateFile(Handshake.Creating, -1)
       case LClosePipe => s.disk == Handshake.StateFile(Handshake.Created, c.monitorPid)
       case LFailed => s.disk in {Handshake.NoFile, Handshake.Torn, Handshake.StateFile(Handshake.Creating, -1)}
       case LDone =>
         if s.disk == Handshake.Torn then GivenUp(s)
         else s.disk == Handshake.StateFile(if Stored(s) then Handshake.Running else Handshake.Created, c.monitorPid)
  }

  /** The byte for success comes first or never. */
  ghost predicate OnlyFirstIsOk(reports: seq<int>) {
    forall k :: 0 < k < |reports| ==> reports[k] != READY_OK
  }

  ghost predicate MonitorInv(s: System) {
    && (s.monitor in {MAbsent, MBlocked, MLoadSpec, MSetUp, MReport} ==> s.reports == [])
    && (s.monitor in {MAbsent, MBlocked, MLoadSpec, MSetUp} ==> !s.built)
    && (s.monitor in {MBlocked, MLoadSpec, MSetUp, MReport} ==> s.monitorHolds)
    && (s.monitor in {MAbsent, MExecve, MMonitor, MDead} ==> !s.monitorHolds)
    && (s.monitor == MReport ==> s.built)
    && (s.monitor in {MExecve, MMonitor} ==> |s.reports| == 1 && SuccessSent(s))
    && (s.monitor == MReportFailure && |s.reports| > 0 ==> |s.reports| == 1 && SuccessSent(s))
    && OnlyFirstIsOk(s.reports)
    && (SuccessSent(s) ==> s.built)
    && s.taken <= |s.reports|
    && (SuccessSent(s) && s.taken > 0 ==> s.winner.Some? || s.lost)
    && (s.winner.Some? ==> SuccessSent(s) && s.taken > 0 && s.winner.value < |s.starts|)
  }

  ghost predicate StartInv(c: Config, s: System, i: nat, t: Start) {
    && (t.pc in {POpen, PRelease, PAwait, PStore} ==> t.loaded.StateFile? && t.loaded.pid == c.monitorPid)
    && (t.pc == PStore || t.pc.PPoststart? || t.stored ==> s.winner == Some(i))
    && (t.stored ==> t.pc.PPoststart? || t.pc.PClose? || t.pc.PUnlink? || t.pc.PDone?)
    && (t.pc.PPoststart? ==> t.stored)
  }

  ghost predicate Inv(c: Config, s: System) {
    && CreateInv(c, s) && MonitorInv(s)
    && forall i :: 0 <= i < |s.starts| ==> StartInv(c, s, i, s.starts[i])
  }

  lemma CreateKeeps(c: Config, s: System, ok: bool, n: nat)
    requires Inv(c, s) && CreateStep(c, s, ok, n).Some?
    ensures Inv(c, CreateStep(c, s, ok, n).value)
  {
  }

  lemma MonitorKeeps(c: Config, s: System, ok: bool, wrote: bool, closed: bool)
    requires Inv(c, s) && MonitorStep(s, ok, wrote, closed).Some?
    ensures Inv(c, MonitorStep(s, ok, wrote, closed).value)
  {
    MonitorKeepsReports(s, ok, wrote, closed);
    MonitorKeepsCreate(c, s, ok, wrote, closed);
    hide EffectOfMonitor, CreateInv, MonitorInv, SuccessSent, StartInv;
    SameWinner(c, s, MonitorStep(s, ok, wrote, closed).value);
  }

  /** The monitor does nothing before a start has released it. */
  lemma MonitorActsLate(c: Config, s: System, ok: bool, wrote: bool, closed: bool)
    requires CreateInv(c, s) && MonitorStep(s, ok, wrote, closed).Some?
    ensures s.create == LDone
  {
    hide Stored, GivenUp;
  }

  lemma MonitorKeepsCreate(c: Config, s: System, ok: bool, wrote: bool, closed: bool)
    requires CreateInv(c, s) && MonitorStep(s, ok, wrote, closed).Some?
    ensures CreateInv(c, MonitorStep(s, ok, wrote, closed).value)
  {
    MonitorActsLate(c, s, ok, wrote, closed);
    MonitorIsThere(s, ok, wrote, closed);
    hide EffectOfMonitor;
  }

  lemma MonitorIsThere(s: System, ok: bool, wrote: bool, closed: bool)
    requires EffectOfMonitor(s, ok, wrote, closed).Some?
    ensures EffectOfMonitor(s, ok, wrote, closed).value.monitor != MAbsent
  {
  }

  lemma SameWinner(c: Config, s: System, s': System)
    requires s'.starts == s.starts && s'.winner == s.winner
    requires forall i :: 0 <= i < |s.starts| ==> StartInv(c, s, i, s.starts[i])
    ensures forall i :: 0 <= i < |s'.starts| ==> StartInv(c, s', i, s'.starts[i])
  {
    forall i | 0 <= i < |s'.starts| ensures StartInv(c, s', i, s'.starts[i]) {
      assert StartInv(c, s, i, s.starts[i]);
    }
  }

  lemma MonitorKeepsReports(s: System, ok: bool, wrote: bool, closed: bool)
    requires MonitorInv(s) && MonitorStep(s, ok, wrote, closed).Some?
    ensures MonitorInv(MonitorStep(s, ok, wrote, closed).value)
  {
  }

  lemma StartKeeps(c: Config, s: System, i: nat, ok: bool, n: nat)
    requires Inv(c, s) && i < |s.starts| && StartStep(c, s, i, ok, n).Some?
    ensures Inv(c, StartStep(c, s, i, ok, n).value)
  {
    assert StartInv(c, s, i, s.starts[i]);
    assert s.create.LDone?;
    WinnerEffect(c, s, i, ok, n);
    DiskEffect(c, s, i, ok, n);
    ActorKeeps(c, s, i, ok, n);
    OthersStay(c, s, i, ok, n);
    hide StartEffect, StartInv;
  }

  /** The byte for success is there to be read once: whoever reads it, nobody has before. */
  lemma WinnerEffect(c: Config, s: System, i: nat, ok: bool, n: nat)
    requires MonitorInv(s) && i < |s.starts| && StartEffect(c, s, i, ok, n).Some?
    ensures var e := StartEffect(c, s, i, ok, n).value;
            && s.taken <= e.taken <= |s.reports|
            && (e.taken > s.taken && s.taken == 0 && SuccessSent(s) ==> e.winner.Some?)
            && (e.winner != s.winner ==>
                  s.winner.None? && e.winner == Some(i) && SuccessSent(s) && e.taken > 0 && e.start.pc == PStore)
            && (e.start.pc == PStore ==> s.starts[i].pc == PAwait && e.winner == Some(i))
  {
  }

  /** What a start does to the state file. */
  lemma DiskEffect(c: Config, s: System, i: nat, ok: bool, n: nat)
    requires i < |s.starts| && StartEffect(c, s, i, ok, n).Some?
    ensures var e, t := StartEffect(c, s, i, ok, n).value, s.starts[i];
            && (t.pc != PStore ==> e.disk == s.disk && e.start.stored == t.stored)
            && (t.pc == PStore && e.start.stored && !t.stored ==>
                  t.loaded.StateFile? && e.disk == t.loaded.(status := Handshake.Running))
            && (t.pc == PStore && !e.start.stored ==> e.start.pc.PClose? && e.disk in {s.disk, Handshake.Torn})
            && (t.pc == PStore ==> e.winner == s.winner)
            && (t.pc.PClose? || t.pc.PUnlink? || t.pc.PDone? ==> e.start.pc.PUnlink? || e.start.pc.PDone?)
  {
  }

  lemma ActorKeeps(c: Config, s: System, i: nat, ok: bool, n: nat)
    requires Inv(c, s) && i < |s.starts| && StartStep(c, s, i, ok, n).Some?
    ensures StartInv(c, StartStep(c, s, i, ok, n).value, i, StartEffect(c, s, i, ok, n).value.start)
  {
    assert StartInv(c, s, i, s.starts[i]);
    assert s.create.LDone?;
  }

  lemma OthersStay(c: Config, s: System, i: nat, ok: bool, n: nat)
    requires Inv(c, s) && i < |s.starts| && StartStep(c, s, i, ok, n).Some?
    ensures var s' := StartStep(c, s, i, ok, n).value;
            forall j :: 0 <= j < |s'.starts| && j != i ==> StartInv(c, s', j, s'.starts[j])
  {
    WinnerEffect(c, s, i, ok, n);
    hide StartEffect, CreateInv, MonitorInv;
    var s' := StartStep(c, s, i, ok, n).value;
    forall j | 0 <= j < |s'.starts| && j != i ensures StartInv(c, s', j, s'.starts[j]) {
      assert StartInv(c, s, j, s.starts[j]);
    }
  }

  lemma OthersKeep(c: Config, s: System)
    requires Inv(c, s)
    ensures s.monitor !in {MAbsent, MMonitor} ==> Inv(c, s.(monitor := MDead, monitorHolds := false))
    ensures s.create.LDone? ==> Inv(c, s.(starts := s.starts + [NEW_START]))
  {
  }

  lemma ActKeeps(c: Config, s: System, step: Step)
    requires Inv(c, s) && Act(c, s, step).Some?
    ensures Inv(c, Act(c, s, step).value)
  {
    hide Inv, CreateStep, MonitorStep, StartStep;
    match step
    case CreateActs(ok, n) => CreateKeeps(c, s, ok, n);
    case MonitorActs(ok, wrote, closed) => MonitorKeeps(c, s, ok, wrote, closed);
    case MonitorDies => OthersKeep(c, s);
    case StartBegins => OthersKeep(c, s);
    case StartActs(i, ok, n) => StartKeeps(c, s, i, ok, n);
  }

  lemma SettleKeeps(c: Config, s: System)
    requires Inv(c, s)
    ensures Inv(c, Settle(s))
  {
    SameWinner(c, s, Settle(s));
    hide StartInv, HasReader;
  }

  lemma StepKeeps(c: Config, s: System, step: Step)
    requires Inv(c, s) && Apply(c, s, step).Some?
    ensures Inv(c, Apply(c, s, step).value)
  {
    hide Inv, Act, Settle;
    ActKeeps(c, s, step);
    SettleKeeps(c, Act(c, s, step).value);
  }

  lemma {:induction false} RunKeeps(c: Config, run: seq<System>, i: nat)
    requires IsRun(c, run) && i < |run|
    ensures Inv(c, run[i])
  {
    hide Apply;
    if i > 0 {
      RunKeeps(c, run, i - 1);
      assert Next(c, run[i - 1], run[i]);
      var step :| Apply(c, run[i - 1], step) == Some(run[i]);
      StepKeeps(c, run[i - 1], step);
    }
  }
}
