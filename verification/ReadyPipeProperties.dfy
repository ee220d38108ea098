/** Safety of the ready pipe, over every run, and the protocol it shares with the socket handshake. */
module ReadyPipeProperties {
  import opened GoStrings
  import opened ReadyPipe
  import Handshake
  import HandshakeProperties
  import Outcome

  /** From its creation on, the FIFO has a writer until the monitor reports, dies or create gives up. */
  lemma PipeHasWriter(c: Config, run: seq<System>, k: nat)
    requires IsRun(c, run) && k < |run|
    requires run[k].create in {LStart, LSave, LClosePipe, LDone}
    requires run[k].monitor in {MAbsent, MBlocked, MLoadSpec, MSetUp, MReport}
    ensures HasWriter(run[k])
  {
    RunKeeps(c, run, k);
  }

  /** A start that sees the end of file does not see it too early: the monitor is past its report, or it is
      dead, or its report has failed. No byte is left in the FIFO; and if the report was a success, some start has
      read it, or it was lost when nobody had the FIFO open. */
  lemma NoPrematureEof(c: Config, run: seq<System>, k: nat, i: nat)
    requires IsRun(c, run) && k < |run| && i < |run[k].starts| && run[k].starts[i].pc == PAwait && AtEof(run[k])
    ensures run[k].monitor in {MExecve, MMonitor, MReportFailure, MDead}
    ensures |run[k].reports| == run[k].taken
    ensures SuccessSent(run[k]) ==> run[k].winner.Some? || run[k].lost
  {
    RunKeeps(c, run, k);
    assert run[k].create.LDone?;
  }

  /** Nor does it wait for ever: once the monitor runs or is dead, the read returns, with a byte or the end of file. */
  lemma OutcomeIsSeen(c: Config, run: seq<System>, k: nat, i: nat)
    requires IsRun(c, run) && k < |run| && i < |run[k].starts| && run[k].starts[i].pc == PAwait
    requires run[k].monitor in {MExecve, MMonitor, MDead}
    ensures AtEof(run[k]) || run[k].taken < |run[k].reports|
    ensures Apply(c, run[k], StartActs(i, true, 0)).Some?
  {
    hide Settle;
    RunKeeps(c, run, k);
    assert run[k].create.LDone?;
  }

  /** A start stores the running status only if it has read the byte for success, which the monitor wrote
      after its command was built; no two start attempts do. */
  lemma RunningOnlyAfterReport(c: Config, run: seq<System>, k: nat, i: nat, j: nat)
    requires IsRun(c, run) && k < |run|
    ensures var s := run[k];
            i < |s.starts| && s.starts[i].stored ==> s.built && |s.reports| > 0 && s.reports[0] == 0
    ensures var s := run[k];
            i < |s.starts| && j < |s.starts| && s.starts[i].stored && s.starts[j].stored ==> i == j
    ensures run[k].disk.StateFile? && run[k].disk.status == Handshake.Running ==> run[k].built && Stored(run[k])
    ensures run[k].disk.StateFile? && run[k].disk.status != Handshake.Creating ==> run[k].disk.pid == c.monitorPid
  {
    RunKeeps(c, run, k);
    var s := run[k];
    assert i < |s.starts| ==> StartInv(c, s, i, s.starts[i]);
    assert j < |s.starts| ==> StartInv(c, s, j, s.starts[j]);
  }

  // ------------------------------------------------------------------ hooks and status

  /** The hooks are executed in order, and only the last one may have failed; none is before some start has stored the
      running status. */
  ghost predicate HooksInv(c: Config, s: System) {
    && |s.hooks| <= |c.poststart|
    && (forall k :: 0 <= k < |s.hooks| ==> s.hooks[k].hook == c.poststart[k])
    && (forall k :: 0 <= k < |s.hooks| - 1 ==> s.hooks[k].ok)
    && (!Stored(s) ==> s.hooks == [])
    && forall i :: 0 <= i < |s.starts| && s.starts[i].pc.PPoststart? ==> HooksUpTo(s, s.starts[i].pc.next)
  }

  ghost predicate HooksUpTo(s: System, n: nat) {
    |s.hooks| == n && forall k :: 0 <= k < n ==> s.hooks[k].ok
  }

  lemma HookStep(c: Config, s: System, i: nat, ok: bool, n: nat)
    requires Inv(c, s) && HooksInv(c, s) && i < |s.starts| && StartStep(c, s, i, ok, n).Some?
    ensures HooksInv(c, StartStep(c, s, i, ok, n).value)
  {
    assert StartInv(c, s, i, s.starts[i]);
    WinnerEffect(c, s, i, ok, n);
    HookEffect(c, s, i, ok, n);
    var s' := StartStep(c, s, i, ok, n).value;
    forall j | 0 <= j < |s'.starts| && s'.starts[j].pc.PPoststart? ensures HooksUpTo(s', s'.starts[j].pc.next) {
      if j != i {
        assert StartInv(c, s, j, s.starts[j]);
      }
    }
    hide StartEffect, CreateInv, MonitorInv;
  }

  /** A start runs a hook only as the one that has stored the running status. */
  lemma HookEffect(c: Config, s: System, i: nat, ok: bool, n: nat)
    requires i < |s.starts| && StartEffect(c, s, i, ok, n).Some?
    ensures var e, t := StartEffect(c, s, i, ok, n).value, s.starts[i];
            && (t.stored ==> e.start.stored)
            && (e.hooks != s.hooks ==>
                  t.pc.PPoststart? && t.pc.next < |c.poststart|
                  && e.hooks == s.hooks + [Handshake.Executed(c.poststart[t.pc.next], ok)]
                  && (e.start.pc.PPoststart? ==> ok && e.start.pc.next == t.pc.next + 1))
            && (e.hooks == s.hooks && e.start.pc.PPoststart? ==>
                  t.pc == PStore && e.start.pc.next == 0 && e.start.stored)
  {
  }

  lemma HooksKept(c: Config, s: System, s': System)
    requires HooksInv(c, s) && s'.hooks == s.hooks && s'.winner == s.winner
    requires s'.starts == s.starts || s'.starts == s.starts + [NEW_START]
    requires s.winner.Some? ==> s.winner.value < |s.starts|
    ensures HooksInv(c, s')
  {
    assert forall i | 0 <= i < |s.starts| :: s'.starts[i] == s.starts[i];
  }

  lemma CreateKeepsHooks(c: Config, s: System, ok: bool, n: nat)
    requires CreateStep(c, s, ok, n).Some?
    ensures var s' := CreateStep(c, s, ok, n).value;
            s'.hooks == s.hooks && s'.winner == s.winner && s'.starts == s.starts
  {
  }

  lemma ActKeepsHooks(c: Config, s: System, step: Step)
    requires Inv(c, s) && HooksInv(c, s) && Act(c, s, step).Some?
    ensures HooksInv(c, Act(c, s, step).value)
  {
    hide HooksInv, CreateStep, EffectOfMonitor, StartStep, CreateInv, StartInv;
    var s' := Act(c, s, step).value;
    match step
    case CreateActs(ok, n) =>
      CreateKeepsHooks(c, s, ok, n);
      HooksKept(c, s, s');
    case MonitorActs(ok, wrote, closed) => HooksKept(c, s, s');
    case MonitorDies => HooksKept(c, s, s');
    case StartBegins => HooksKept(c, s, s');
    case StartActs(i, ok, n) => HookStep(c, s, i, ok, n);
  }

  lemma {:induction false} RunKeepsHooks(c: Config, run: seq<System>, k: nat)
    requires IsRun(c, run) && k < |run|
    ensures HooksInv(c, run[k])
  {
    hide HooksInv, Apply, Inv;
    if k == 0 {
      NoHooksAtFirst(c, run);
    } else {
      RunKeepsHooks(c, run, k - 1);
      RunKeeps(c, run, k - 1);
      assert Next(c, run[k - 1], run[k]);
      var step :| Apply(c, run[k - 1], step) == Some(run[k]);
      StepKeepsHooks(c, run[k - 1], step);
    }
  }

  lemma NoHooksAtFirst(c: Config, run: seq<System>)
    requires IsRun(c, run)
    ensures HooksInv(c, run[0])
  {
    hide Next;
  }

  lemma StepKeepsHooks(c: Config, s: System, step: Step)
    requires Inv(c, s) && HooksInv(c, s) && Apply(c, s, step).Some?
    ensures HooksInv(c, Apply(c, s, step).value)
  {
    hide HooksInv, Act, Inv, Settle;
    ActKeepsHooks(c, s, step);
    ActKeeps(c, s, step);
    SettleKeepsHooks(c, Act(c, s, step).value);
  }

  lemma SettleKeepsHooks(c: Config, s: System)
    requires Inv(c, s) && HooksInv(c, s)
    ensures HooksInv(c, Settle(s))
  {
    hide HooksInv, CreateInv, StartInv, HasReader;
    HooksKept(c, s, Settle(s));
  }

  /** The hooks executed are a prefix of the Poststart hooks, a hook that fails is the last one, and there is none
      before the running status is stored. */
  lemma HooksInOrder(c: Config, run: seq<System>, k: nat)
    requires IsRun(c, run) && k < |run|
    ensures |run[k].hooks| <= |c.poststart|
    ensures forall i :: 0 <= i < |run[k].hooks| ==> run[k].hooks[i].hook == c.poststart[i]
    ensures forall i :: 0 <= i < |run[k].hooks| && !run[k].hooks[i].ok ==> i == |run[k].hooks| - 1
    ensures run[k].hooks != [] ==> Stored(run[k])
  {
    RunKeepsHooks(c, run, k);
  }

  // ------------------------------------------------------------------ what a start answers

  predicate LastFailed(hooks: seq<Handshake.Executed>) {
    hooks != [] && !hooks[|hooks| - 1].ok
  }

  ghost predicate Answered(c: Config, s: System, t: Start) {
    (t.pc in {PClose(true), PUnlink(true), PDone(true)} ==> t.stored && HooksUpTo(s, |c.poststart|))
    && (t.pc in {PClose(false), PUnlink(false), PDone(false)} && t.stored ==> LastFailed(s.hooks))
  }

  ghost predicate AllAnswered(c: Config, s: System) {
    forall i :: 0 <= i < |s.starts| ==> Answered(c, s, s.starts[i])
  }

  lemma ActorAnswers(c: Config, s: System, i: nat, ok: bool, n: nat)
    requires Inv(c, s) && HooksInv(c, s) && i < |s.starts| && StartStep(c, s, i, ok, n).Some?
    requires Answered(c, s, s.starts[i])
    ensures Answered(c, StartStep(c, s, i, ok, n).value, StartEffect(c, s, i, ok, n).value.start)
  {
    if s.starts[i].pc.PPoststart? {
      HookAnswers(c, s, i, ok, n);
    } else {
      assert StartInv(c, s, i, s.starts[i]);
      hide HooksInv, CreateInv, MonitorInv;
    }
  }

  lemma HookAnswers(c: Config, s: System, i: nat, ok: bool, n: nat)
    requires HooksInv(c, s) && i < |s.starts| && s.starts[i].pc.PPoststart? && StartStep(c, s, i, ok, n).Some?
    requires StartInv(c, s, i, s.starts[i])
    ensures Answered(c, StartStep(c, s, i, ok, n).value, StartEffect(c, s, i, ok, n).value.start)
  {
    assert HooksUpTo(s, s.starts[i].pc.next);
    hide CreateInv, MonitorInv, HooksInv;
  }

  /** A start that is not the one that stored the running status keeps its answer, and that one does while it has
      ended: nobody else runs hooks. */
  lemma StartStepAnswers(c: Config, s: System, i: nat, ok: bool, n: nat)
    requires Inv(c, s) && HooksInv(c, s) && AllAnswered(c, s) && i < |s.starts| && StartStep(c, s, i, ok, n).Some?
    ensures AllAnswered(c, StartStep(c, s, i, ok, n).value)
  {
    var s' := StartStep(c, s, i, ok, n).value;
    ActorAnswers(c, s, i, ok, n);
    HookEffect(c, s, i, ok, n);
    assert StartInv(c, s, i, s.starts[i]);
    hide StartEffect, CreateInv, MonitorInv, HooksInv;
    forall j | 0 <= j < |s'.starts| && j != i ensures Answered(c, s', s'.starts[j]) {
      assert StartInv(c, s, j, s.starts[j]);
    }
  }

  lemma AnswersKept(c: Config, s: System, s': System)
    requires AllAnswered(c, s) && s'.hooks == s.hooks
    requires s'.starts == s.starts || s'.starts == s.starts + [NEW_START]
    ensures AllAnswered(c, s')
  {
    forall j | 0 <= j < |s'.starts| ensures Answered(c, s', s'.starts[j]) {
      assert j < |s.starts| ==> Answered(c, s, s.starts[j]);
    }
  }

  lemma ActAnswers(c: Config, s: System, step: Step)
    requires Inv(c, s) && HooksInv(c, s) && AllAnswered(c, s) && Act(c, s, step).Some?
    ensures AllAnswered(c, Act(c, s, step).value)
  {
    hide Inv, HooksInv, AllAnswered, CreateStep, EffectOfMonitor, StartStep;
    var s' := Act(c, s, step).value;
    match step
    case CreateActs(ok, n) =>
      CreateKeepsHooks(c, s, ok, n);
      AnswersKept(c, s, s');
    case MonitorActs(ok, wrote, closed) => AnswersKept(c, s, s');
    case MonitorDies => AnswersKept(c, s, s');
    case StartBegins => AnswersKept(c, s, s');
    case StartActs(i, ok, n) => StartStepAnswers(c, s, i, ok, n);
  }

  lemma StepAnswers(c: Config, s: System, step: Step)
    requires Inv(c, s) && HooksInv(c, s) && AllAnswered(c, s) && Apply(c, s, step).Some?
    ensures AllAnswered(c, Apply(c, s, step).value)
  {
    ActAnswers(c, s, step);
    hide Act, Inv, HooksInv, AllAnswered, HasReader;
    var s' := Act(c, s, step).value;
    AnswersKept(c, s', Settle(s'));
  }

  lemma {:induction false} RunAnswers(c: Config, run: seq<System>, k: nat)
    requires IsRun(c, run) && k < |run|
    ensures AllAnswered(c, run[k])
  {
    if k > 0 {
      hide HooksInv, Apply, Inv, AllAnswered;
      RunAnswers(c, run, k - 1);
      RunKeepsHooks(c, run, k - 1);
      RunKeeps(c, run, k - 1);
      assert Next(c, run[k - 1], run[k]);
      var step :| Apply(c, run[k - 1], step) == Some(run[k]);
      StepAnswers(c, run[k - 1], step);
    }
  }

  /** What a start answers, in every run: a success only if it has read the byte 0, which the monitor wrote once its
      command was built, the running status is on disk, and all Poststart hooks have run without a failure; and if the
      running status is stored, a failure only if a hook failed. So one that has not stored it answers with a failure.
  */
  lemma StartAnswersRightly(c: Config, run: seq<System>, k: nat, i: nat)
    requires IsRun(c, run) && k < |run| && i < |run[k].starts|
    ensures var s, t := run[k], run[k].starts[i];
            t.pc in {PClose(true), PUnlink(true), PDone(true)} ==>
              t.stored && s.built && s.winner == Some(i) && |s.reports| > 0 && s.reports[0] == 0
              && s.disk == Handshake.StateFile(Handshake.Running, c.monitorPid)
              && |s.hooks| == |c.poststart| && forall n :: 0 <= n < |s.hooks| ==> s.hooks[n].ok
    ensures var s, t := run[k], run[k].starts[i];
            t.pc in {PClose(false), PUnlink(false), PDone(false)} && t.stored ==>
              s.hooks != [] && !s.hooks[|s.hooks| - 1].ok
    ensures run[k].starts[i].pc.PDone? && !run[k].starts[i].stored ==> run[k].starts[i].pc == PDone(false)
  {
    RunAnswers(c, run, k);
    RunKeeps(c, run, k);
    assert Answered(c, run[k], run[k].starts[i]);
    assert StartInv(c, run[k], i, run[k].starts[i]);
  }

  // ------------------------------------------------------------------ the status on disk

  lemma CreateRaisesRank(c: Config, s: System, ok: bool, n: nat)
    requires CreateInv(c, s) && CreateStep(c, s, ok, n).Some?
    ensures HandshakeProperties.Rank(s.disk) <= HandshakeProperties.Rank(CreateStep(c, s, ok, n).value.disk)
  {
    hide Stored, GivenUp;
  }

  lemma StartRaisesRank(c: Config, s: System, i: nat, ok: bool, n: nat)
    requires Inv(c, s) && i < |s.starts| && StartStep(c, s, i, ok, n).Some?
    ensures HandshakeProperties.Rank(s.disk) <= HandshakeProperties.Rank(StartStep(c, s, i, ok, n).value.disk)
  {
    assert StartInv(c, s, i, s.starts[i]);
    assert s.create.LDone?;
    DiskEffect(c, s, i, ok, n);
    hide StartEffect, MonitorInv;
  }

  lemma ActRaisesRank(c: Config, s: System, step: Step)
    requires Inv(c, s) && Act(c, s, step).Some?
    ensures HandshakeProperties.Rank(s.disk) <= HandshakeProperties.Rank(Act(c, s, step).value.disk)
  {
    hide CreateInv, MonitorInv, StartInv, CreateStep, EffectOfMonitor, StartStep, HandshakeProperties.Rank;
    match step
    case CreateActs(ok, n) => CreateRaisesRank(c, s, ok, n);
    case MonitorActs(ok, wrote, closed) =>
    case MonitorDies =>
    case StartBegins =>
    case StartActs(i, ok, n) => StartRaisesRank(c, s, i, ok, n);
  }

  lemma StepRaisesRank(c: Config, s: System, step: Step)
    requires Inv(c, s) && Apply(c, s, step).Some?
    ensures HandshakeProperties.Rank(s.disk) <= HandshakeProperties.Rank(Apply(c, s, step).value.disk)
  {
    ActRaisesRank(c, s, step);
    hide Act, Inv, HandshakeProperties.Rank, HasReader, HasWriter;
  }

  /** The status on disk only moves forward, from `created` on the stored pid is that of the monitor, and a save that
      fails midway is the last one. */
  lemma {:induction false} StatusMovesForward(c: Config, run: seq<System>, i: nat, j: nat)
    requires IsRun(c, run) && i <= j < |run|
    ensures HandshakeProperties.Rank(run[i].disk) <= HandshakeProperties.Rank(run[j].disk)
    ensures run[j].disk.StateFile? && run[j].disk.status != Handshake.Creating ==> run[j].disk.pid == c.monitorPid
    decreases j
  {
    hide Apply, Inv, HandshakeProperties.Rank;
    RunningOnlyAfterReport(c, run, j, 0, 0);
    if i < j {
      StatusMovesForward(c, run, i, j - 1);
      RunKeeps(c, run, j - 1);
      assert Next(c, run[j - 1], run[j]);
      var step :| Apply(c, run[j - 1], step) == Some(run[j]);
      StepRaisesRank(c, run[j - 1], step);
    }
  }

  // ------------------------------------------------------------------ the abstract protocol

  function ToReport(s: System): Outcome.Report {
    Outcome.Report(
      s.built,
      if SuccessSent(s) then Outcome.Succeeded
      else if s.monitor in {MReportFailure, MDead} then Outcome.Failed
      else Outcome.Pending,
      if Stored(s) then s.winner else None)
  }

  lemma CreateRefines(c: Config, s: System, ok: bool, n: nat)
    requires Inv(c, s) && CreateStep(c, s, ok, n).Some?
    ensures var r, r' := ToReport(s), ToReport(CreateStep(c, s, ok, n).value);
            Outcome.Apply(r, Outcome.EventOf(r, r')) == Some(r')
  {
  }

  lemma MonitorRefines(c: Config, s: System, ok: bool, wrote: bool, closed: bool)
    requires Inv(c, s) && MonitorStep(s, ok, wrote, closed).Some?
    ensures var r, r' := ToReport(s), ToReport(MonitorStep(s, ok, wrote, closed).value);
            Outcome.Apply(r, Outcome.EventOf(r, r')) == Some(r')
  {
    MonitorKeepsReports(s, ok, wrote, closed);
    MonitorReports(s, ok, wrote, closed);
    hide StartInv, CreateInv, GivenUp, EffectOfMonitor, MonitorInv;
  }

  lemma MonitorReports(s: System, ok: bool, wrote: bool, closed: bool)
    requires MonitorInv(s) && MonitorStep(s, ok, wrote, closed).Some?
    ensures var s' := MonitorStep(s, ok, wrote, closed).value;
            && (s.built ==> s'.built) && (SuccessSent(s) ==> SuccessSent(s'))
            && (SuccessSent(s') && !SuccessSent(s) ==> s.monitor == MReport && s.built)
            && (s'.built && !s.built ==> s.monitor == MSetUp && s'.monitor == MReport && s'.reports == s.reports)
            && (s.monitor in {MReportFailure, MDead} && !SuccessSent(s)
                ==> s'.monitor in {MReportFailure, MDead} && s'.built == s.built)
  {
  }

  lemma StartRefines(c: Config, s: System, i: nat, ok: bool, n: nat)
    requires Inv(c, s) && i < |s.starts| && StartStep(c, s, i, ok, n).Some?
    ensures var r, r' := ToReport(s), ToReport(StartStep(c, s, i, ok, n).value);
            Outcome.Apply(r, Outcome.EventOf(r, r')) == Some(r')
  {
    assert StartInv(c, s, i, s.starts[i]);
    WinnerEffect(c, s, i, ok, n);
    StoredEffect(c, s, i, ok, n);
    hide StartEffect, CreateInv;
  }

  lemma StoredEffect(c: Config, s: System, i: nat, ok: bool, n: nat)
    requires i < |s.starts| && StartEffect(c, s, i, ok, n).Some?
    ensures StartEffect(c, s, i, ok, n).value.start.stored <==>
            s.starts[i].stored || (s.starts[i].pc == PStore && ok && s.starts[i].loaded.StateFile?)
  {
  }

  lemma OthersRefine(c: Config, s: System)
    requires Inv(c, s)
    ensures s.monitor !in {MAbsent, MMonitor} ==>
              var r, r' := ToReport(s), ToReport(s.(monitor := MDead, monitorHolds := false));
              Outcome.Apply(r, Outcome.EventOf(r, r')) == Some(r')
    ensures var r, r' := ToReport(s), ToReport(s.(starts := s.starts + [NEW_START]));
            Outcome.Apply(r, Outcome.EventOf(r, r')) == Some(r')
  {
    hide StartInv, CreateInv;
  }

  lemma SettlingReportsNothing(s: System)
    ensures ToReport(Settle(s)) == ToReport(s)
  {
    hide HasReader;
  }

  /** The ready pipe implements the abstract protocol: every step is one of its events or none. */
  lemma StepRefines(c: Config, s: System, step: Step)
    requires Inv(c, s) && Apply(c, s, step).Some?
    ensures Outcome.Next(ToReport(s), ToReport(Apply(c, s, step).value))
  {
    hide Inv, Settle, CreateStep, MonitorStep, StartStep, ToReport, Outcome.EventOf, Outcome.Apply;
    var s' := Act(c, s, step).value;
    var r, r' := ToReport(s), ToReport(s');
    SettlingReportsNothing(s');
    match step
    case CreateActs(ok, n) => CreateRefines(c, s, ok, n);
    case MonitorActs(ok, wrote, closed) => MonitorRefines(c, s, ok, wrote, closed);
    case MonitorDies => OthersRefine(c, s);
    case StartBegins => OthersRefine(c, s);
    case StartActs(i, ok, n) => StartRefines(c, s, i, ok, n);
    assert Outcome.Apply(r, Outcome.EventOf(r, r')) == Some(r');
  }

  lemma RunRefines(c: Config, run: seq<System>)
    requires IsRun(c, run)
    ensures Outcome.IsRun(seq(|run|, i requires 0 <= i < |run| => ToReport(run[i])))
  {
    hide Inv, Apply, ToReport, Outcome.Apply;
    var abs := seq(|run|, i requires 0 <= i < |run| => ToReport(run[i]));
    InitialReport();
    forall i | 0 <= i < |run| - 1 ensures Outcome.Next(abs[i], abs[i + 1]) {
      RunKeeps(c, run, i);
      assert Next(c, run[i], run[i + 1]);
      var step :| Apply(c, run[i], step) == Some(run[i + 1]);
      StepRefines(c, run[i], step);
    }
  }

  lemma InitialReport()
    ensures ToReport(INITIAL) == Outcome.UNREPORTED
  {
  }

  /** The start that has stored the running status remains the one and only, for the rest of the run. */
  lemma WinnerIsFinal(c: Config, run: seq<System>, i: nat, j: nat)
    requires IsRun(c, run) && i <= j < |run| && Stored(run[i])
    ensures Stored(run[j]) && run[j].winner == run[i].winner
  {
    RunRefines(c, run);
    var abs := seq(|run|, i requires 0 <= i < |run| => ToReport(run[i]));
    assert abs[i].winner == run[i].winner;
    Outcome.WinnerIsFinal(abs, i, j);
    assert abs[j] == ToReport(run[j]);
  }
}
