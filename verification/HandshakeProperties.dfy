/** Safety of the native handshake, over every run of create, reexec and any number of start attempts. */
module HandshakeProperties {
  import opened GoStrings
  import opened Handshake
  import Outcome

  /** The running status is stored only by the start that reexec reported to, after the monitor command was
      built and the whole success message was sent; no two start attempts store it. */
  lemma RunningOnlyAfterSuccess(c: Config, run: seq<System>, k: nat, i: nat, j: nat)
    requires IsRun(c, run) && k < |run|
    ensures var s := run[k];
            i < |s.starts| && s.starts[i].stored ==> s.built && HasPrefix(s.report, "RX_SUCCESS") && s.dialed == Some(i)
    ensures var s := run[k];
            i < |s.starts| && j < |s.starts| && s.starts[i].stored && s.starts[j].stored ==> i == j
    ensures run[k].disk.StateFile? && run[k].disk.status == Running ==>
              run[k].built && exists n :: 0 <= n < |run[k].starts| && run[k].starts[n].stored
  {
    RunKeeps(c, run, k);
    var s := run[k];
    assert i < |s.starts| ==> StartInv(c, s, i, s.starts[i]);
    assert j < |s.starts| ==> StartInv(c, s, j, s.starts[j]);
    if s.disk.StateFile? && s.disk.status == Running {
      assert s.starts[s.dialed.value].stored;
      assert StartInv(c, s, s.dialed.value, s.starts[s.dialed.value]);
    }
  }

  /** The hooks that the three processes execute are a prefix of the life cycle,
      and a hook that fails is the last one. */
  lemma HooksInOrder(c: Config, run: seq<System>, k: nat)
    requires IsRun(c, run) && k < |run|
    ensures |run[k].hooks| <= |AllHooks(c)|
    ensures forall i :: 0 <= i < |run[k].hooks| ==> run[k].hooks[i].hook == AllHooks(c)[i]
    ensures forall i :: 0 <= i < |run[k].hooks| && !run[k].hooks[i].ok ==> i == |run[k].hooks| - 1
  {
    RunKeeps(c, run, k);
  }

  /** A Poststart hook runs only after all hooks of the earlier stages. */
  lemma PoststartComesLast(c: Config, run: seq<System>, k: nat, i: nat)
    requires IsRun(c, run) && k < |run| && i < |run[k].starts| && run[k].starts[i].pc.SPoststart?
    ensures |run[k].hooks| == |AllHooks(c)| - |c.poststart| + run[k].starts[i].pc.next
    ensures forall n :: 0 <= n < |run[k].hooks| ==> run[k].hooks[n].ok
  {
    RunKeeps(c, run, k);
  }

  // ------------------------------------------------------------------ what create and a start answer

  /** A start that ends with a success has stored the running status and has seen every hook of the life cycle run; one
      that has stored it and ends with a failure has seen the last hook fail. */
  ghost predicate Answered(c: Config, s: System, t: Start) {
    (t.pc in {SCleanup(true), SDone(true)} ==> t.stored && RanFirst(c, s.hooks, |AllHooks(c)|))
    && (t.pc in {SCleanup(false), SDone(false)} && t.stored ==> LastFailed(s.hooks))
  }

  predicate LastFailed(hooks: seq<Executed>) {
    hooks != [] && !hooks[|hooks| - 1].ok
  }

  ghost predicate AllAnswered(c: Config, s: System) {
    forall i :: 0 <= i < |s.starts| ==> Answered(c, s, s.starts[i])
  }

  /** Once all hooks have run, or one has failed, none runs any more. */
  lemma NoMoreHooks(c: Config, hooks: seq<Executed>, more: Executed)
    requires RanFirst(c, hooks, |AllHooks(c)|) || LastFailed(hooks)
    ensures !InOrder(c, hooks + [more])
  {
    hide AllHooks;
    var all := hooks + [more];
    if LastFailed(hooks) {
      assert all[|hooks| - 1] == hooks[|hooks| - 1];
    }
  }

  lemma InOrderAlways(c: Config, s: System)
    requires Inv(c, s)
    ensures InOrder(c, s.hooks) && forall i :: 0 <= i < |s.starts| && s.starts[i].stored ==> s.create.CDone?
  {
    hide AllHooks, ReexecInv, ReportInv, HasPrefix, Stored, GivenUp;
    if s.create.CHooks? {
      RanFirstInOrder(c, s.hooks, s.create.next);
    }
    hide InOrder, RanFirst;
  }

  /** A start that keeps its answer while the hooks stay in order. */
  lemma AnswerKept(c: Config, s: System, s': System, t: Start)
    requires Answered(c, s, t) && InOrder(c, s'.hooks)
    requires t.stored || t.pc !in {SCleanup(true), SDone(true)}
    requires s'.hooks == s.hooks || exists x :: s'.hooks == s.hooks + [x]
    ensures Answered(c, s', t)
  {
    if s'.hooks != s.hooks {
      var x :| s'.hooks == s.hooks + [x];
      if RanFirst(c, s.hooks, |AllHooks(c)|) || LastFailed(s.hooks) {
        NoMoreHooks(c, s.hooks, x);
      }
      hide InOrder, RanFirst, AllHooks, LastFailed;
    }
  }

  lemma HooksGrow(c: Config, s: System, step: Step)
    requires Apply(c, s, step).Some? && !step.StartActs?
    ensures var s' := Apply(c, s, step).value;
            s'.hooks == s.hooks || exists x :: s'.hooks == s.hooks + [x]
  {
    hide CanRead;
    if step.CreateActs? {
      CreateHooks(c, s, step.ok, step.n);
    } else if step.ReexecActs? {
      ReexecHooks(c, s, step.ok, step.n, step.k);
    }
    hide CreateStep, ReexecStep;
  }

  lemma CreateHooks(c: Config, s: System, ok: bool, n: nat)
    requires CreateStep(c, s, ok, n).Some?
    ensures var s' := CreateStep(c, s, ok, n).value;
            s'.starts == s.starts && (s'.hooks == s.hooks || exists x :: s'.hooks == s.hooks + [x])
  {
  }

  lemma ReexecHooks(c: Config, s: System, ok: bool, n: nat, k: nat)
    requires ReexecStep(c, s, ok, n, k).Some?
    ensures var s' := ReexecStep(c, s, ok, n, k).value;
            (s'.hooks == s.hooks || exists x :: s'.hooks == s.hooks + [x]) && |s'.starts| == |s.starts|
            && forall i :: 0 <= i < |s.starts| ==> s'.starts[i] in {s.starts[i], s.starts[i].(queued := false)}
  {
    hide CanRead;
  }

  lemma StartHooks(c: Config, s: System, i: nat, ok: bool, n: nat)
    requires i < |s.starts| && StartEffect(c, s, i, ok, n).Some?
    ensures var e := StartEffect(c, s, i, ok, n).value;
            e.hooks == s.hooks || exists x :: e.hooks == s.hooks + [x]
  {
  }

  /** How the acting start comes to its answer. */
  lemma ActorAnswers(c: Config, s: System, i: nat, ok: bool, n: nat)
    requires Inv(c, s) && i < |s.starts| && StartStep(c, s, i, ok, n).Some? && Answered(c, s, s.starts[i])
    ensures Answered(c, StartStep(c, s, i, ok, n).value, StartEffect(c, s, i, ok, n).value.start)
  {
    assert StartInv(c, s, i, s.starts[i]);
    hide CreateInv, ReexecInv, HasPrefix, CanRead;
  }

  lemma StartStepAnswers(c: Config, s: System, i: nat, ok: bool, n: nat)
    requires Inv(c, s) && AllAnswered(c, s) && i < |s.starts| && StartStep(c, s, i, ok, n).Some?
    requires InOrder(c, StartStep(c, s, i, ok, n).value.hooks)
    ensures AllAnswered(c, StartStep(c, s, i, ok, n).value)
  {
    hide Inv, InOrder, RanFirst, AllHooks;
    var s' := StartStep(c, s, i, ok, n).value;
    ActorAnswers(c, s, i, ok, n);
    StartHooks(c, s, i, ok, n);
    hide StartEffect;
    forall j | 0 <= j < |s'.starts| ensures Answered(c, s', s'.starts[j]) {
      if j != i {
        AnswerKept(c, s, s', s.starts[j]);
      }
    }
  }

  lemma OthersKeepAnswers(c: Config, s: System, step: Step)
    requires AllAnswered(c, s) && Apply(c, s, step).Some? && !step.StartActs?
    requires InOrder(c, Apply(c, s, step).value.hooks)
    ensures AllAnswered(c, Apply(c, s, step).value)
  {
    hide InOrder, RanFirst, AllHooks, CanRead, CreateStep, ReexecStep, LastFailed;
    var s' := Apply(c, s, step).value;
    HooksGrow(c, s, step);
    if step.CreateActs? {
      CreateHooks(c, s, step.ok, step.n);
    } else if step.ReexecActs? {
      ReexecHooks(c, s, step.ok, step.n, step.k);
    }
    forall j | 0 <= j < |s'.starts| ensures Answered(c, s', s'.starts[j]) {
      if j < |s.starts| {
        AnswerKept(c, s, s', s.starts[j]);
      }
    }
  }

  lemma StepAnswers(c: Config, s: System, step: Step)
    requires Inv(c, s) && AllAnswered(c, s) && Apply(c, s, step).Some?
    ensures AllAnswered(c, Apply(c, s, step).value)
  {
    StepKeeps(c, s, step);
    InOrderAlways(c, Apply(c, s, step).value);
    hide Inv, InOrder, AllAnswered, StartStep;
    if step.StartActs? {
      StartStepAnswers(c, s, step.i, step.ok, step.n);
    } else {
      OthersKeepAnswers(c, s, step);
    }
  }

  lemma {:induction false} RunAnswers(c: Config, run: seq<System>, k: nat)
    requires IsRun(c, run) && k < |run|
    ensures AllAnswered(c, run[k])
  {
    if k > 0 {
      hide Apply, Inv, AllAnswered;
      RunAnswers(c, run, k - 1);
      RunKeeps(c, run, k - 1);
      assert Next(c, run[k - 1], run[k]);
      var step :| Apply(c, run[k - 1], step) == Some(run[k]);
      StepAnswers(c, run[k - 1], step);
    }
  }

  /** What a start answers, in every run: a success only if reexec reported `RX_SUCCESS` to it, the running status is on
      disk, and all hooks of the life cycle have run without a failure; and if the running status is stored, a failure
      only if a hook failed. So one that has not stored it answers with a failure. */
  lemma StartAnswersRightly(c: Config, run: seq<System>, k: nat, i: nat)
    requires IsRun(c, run) && k < |run| && i < |run[k].starts|
    ensures var s, t := run[k], run[k].starts[i];
            t.pc in {SCleanup(true), SDone(true)} ==>
              t.stored && s.built && HasPrefix(s.report, "RX_SUCCESS") && s.dialed == Some(i)
              && s.disk == StateFile(Running, c.reexecPid)
              && |s.hooks| == |c.createRuntime| + |c.createContainer| + |c.startContainer| + |c.poststart|
              && forall n :: 0 <= n < |s.hooks| ==> s.hooks[n].ok
    ensures var s, t := run[k], run[k].starts[i];
            t.pc in {SCleanup(false), SDone(false)} && t.stored ==> s.hooks != [] && !s.hooks[|s.hooks| - 1].ok
    ensures run[k].starts[i].pc.SDone? && !run[k].starts[i].stored ==> run[k].starts[i].pc == SDone(false)
  {
    RunAnswers(c, run, k);
    RunKeeps(c, run, k);
    InOrderAlways(c, run[k]);
    assert Answered(c, run[k], run[k].starts[i]);
    assert StartInv(c, run[k], i, run[k].starts[i]);
    hide ReexecInv, InOrder, HasPrefix;
  }

  /** Create answers with a success only if it has stored the pid of reexec, all its hooks have run without a failure,
      and reexec has been sent `UC_ACK`. */
  lemma CreateAnswersRightly(c: Config, run: seq<System>, k: nat)
    requires IsRun(c, run) && k < |run| && run[k].create.CDone?
    ensures var s := run[k];
            s.initSent == "UC_ACK" && |s.hooks| >= |c.createRuntime| && s.disk != NoFile
            && (s.disk.StateFile? ==> s.disk.pid == c.reexecPid && s.disk.status != Creating)
            && forall n :: 0 <= n < |c.createRuntime| ==> s.hooks[n] == Executed(c.createRuntime[n], true)
  {
    CreateHooksStay(c, run, k);
    RunKeeps(c, run, k);
    hide ReexecInv, ReportInv, StartInv, InOrder, Stored, GivenUp;
  }

  ghost predicate CreateHooksRan(c: Config, s: System) {
    s.create.CDone? ==>
      |s.hooks| >= |c.createRuntime|
      && forall n :: 0 <= n < |c.createRuntime| ==> s.hooks[n] == Executed(c.createRuntime[n], true)
  }

  lemma CreateHooksStep(c: Config, s: System, step: Step)
    requires Inv(c, s) && CreateHooksRan(c, s) && Apply(c, s, step).Some?
    ensures CreateHooksRan(c, Apply(c, s, step).value)
  {
    hide ReexecInv, ReportInv, StartInv, EarlyInv, InOrder, CanRead, Stored, GivenUp;
    if step.StartActs? {
      StartHooks(c, s, step.i, step.ok, step.n);
      hide StartEffect;
    } else {
      HooksGrow(c, s, step);
      CreateFinishes(c, s, step);
      hide CreateStep, ReexecStep, RanFirst;
    }
  }

  lemma CreateFinishes(c: Config, s: System, step: Step)
    requires CreateInv(c, s) && Apply(c, s, step).Some? && !step.StartActs?
    ensures var s' := Apply(c, s, step).value;
            s'.create.CDone? ==> s.create.CDone? || (s'.hooks == s.hooks && CreateHooksRan(c, s'))
  {
    hide EarlyInv, InOrder, CanRead, Stored, GivenUp;
    if step.ReexecActs? {
      ReexecLeavesCreate(c, s, step.ok, step.n, step.k);
    }
    hide ReexecStep;
  }

  lemma ReexecLeavesCreate(c: Config, s: System, ok: bool, n: nat, k: nat)
    requires ReexecStep(c, s, ok, n, k).Some?
    ensures ReexecStep(c, s, ok, n, k).value.create == s.create
  {
    hide CanRead;
  }

  lemma {:induction false} CreateHooksStay(c: Config, run: seq<System>, k: nat)
    requires IsRun(c, run) && k < |run|
    ensures CreateHooksRan(c, run[k])
  {
    if k > 0 {
      hide Apply, Inv, CreateHooksRan;
      CreateHooksStay(c, run, k - 1);
      RunKeeps(c, run, k - 1);
      assert Next(c, run[k - 1], run[k]);
      var step :| Apply(c, run[k - 1], step) == Some(run[k]);
      CreateHooksStep(c, run[k - 1], step);
    }
  }

  // ------------------------------------------------------------------ the status on disk

  function Rank(d: Disk): nat {
    match d
    case NoFile => 0
    case StateFile(status, _) => match status { case Creating => 1 case Created => 2 case Running => 3 }
    case Torn => 4
  }

  lemma ReexecKeepsDisk(c: Config, s: System, ok: bool, n: nat, k: nat)
    requires ReexecStep(c, s, ok, n, k).Some?
    ensures ReexecStep(c, s, ok, n, k).value.disk == s.disk
  {
  }

  lemma CreateRaisesRank(c: Config, s: System, ok: bool, n: nat)
    requires CreateInv(c, s) && CreateStep(c, s, ok, n).Some?
    ensures Rank(s.disk) <= Rank(CreateStep(c, s, ok, n).value.disk)
  {
    hide InOrder, RanFirst, EarlyInv;
  }

  lemma StartRaisesRank(c: Config, s: System, i: nat, ok: bool, n: nat)
    requires Inv(c, s) && i < |s.starts| && StartStep(c, s, i, ok, n).Some?
    ensures Rank(s.disk) <= Rank(StartStep(c, s, i, ok, n).value.disk)
  {
    hide CanRead, InOrder, RanFirst, HasPrefix, ReexecInv, ReportInv;
    assert StartInv(c, s, i, s.starts[i]);
  }

  lemma StepRaisesRank(c: Config, s: System, step: Step)
    requires Inv(c, s) && Apply(c, s, step).Some?
    ensures Rank(s.disk) <= Rank(Apply(c, s, step).value.disk)
  {
    hide CreateInv, ReexecInv, ReportInv, StartInv, CreateStep, ReexecStep, StartStep, Rank;
    match step
    case CreateActs(ok, n) => CreateRaisesRank(c, s, ok, n);
    case ReexecActs(ok, n, k) => ReexecKeepsDisk(c, s, ok, n, k);
    case ReexecDies =>
    case StartBegins =>
    case StartActs(i, ok, n) => StartRaisesRank(c, s, i, ok, n);
  }

  /** The status on disk only moves forward, and from `created` on the stored pid is that of reexec. A save that
      fails midway is the last one. */
  lemma {:induction false} StatusMovesForward(c: Config, run: seq<System>, i: nat, j: nat)
    requires IsRun(c, run) && i <= j < |run|
    ensures Rank(run[i].disk) <= Rank(run[j].disk)
    ensures run[j].disk.StateFile? && run[j].disk.status != Creating ==> run[j].disk.pid == c.reexecPid
    decreases j
  {
    hide Apply;
    RunKeeps(c, run, j);
    if i < j {
      StatusMovesForward(c, run, i, j - 1);
      RunKeeps(c, run, j - 1);
      assert Next(c, run[j - 1], run[j]);
      var step :| Apply(c, run[j - 1], step) == Some(run[j]);
      StepRaisesRank(c, run[j - 1], step);
    }
  }

  /** Whatever reexec has loaded, from its first hook on, is the state that `Create` saved; it gets there only
      after the whole acknowledgement, and create acknowledges only once it is through with its own hooks. */
  lemma ReexecLoadsCreatedState(c: Config, run: seq<System>, k: nat)
    requires IsRun(c, run) && k < |run|
    requires run[k].reexec !in {RAbsent, RAwaitAck, RLoad, RDead}
    ensures run[k].loaded == StateFile(Created, c.reexecPid)
    ensures run[k].initSent == "UC_ACK" && run[k].create.CDone? && |run[k].hooks| >= |c.createRuntime|
  {
    hide HasPrefix;
    RunKeeps(c, run, k);
    assert run[k].create.CDone?;
  }

  /** When reexec is about to dial urunc.sock, the start whose message released it has opened the socket, and
      unless that start is over, the socket is still its own. */
  lemma SocketIsOpenBeforeDial(c: Config, run: seq<System>, k: nat)
    requires IsRun(c, run) && k < |run| && run[k].reexec == RDial
    ensures run[k].peer.Some? && run[k].peer.value < |run[k].starts|
    ensures var t := run[k].starts[run[k].peer.value];
            t.bound && t.sent == "UC_START" && (t.pc.SDone? || run[k].owner == run[k].peer)
  {
    RunKeeps(c, run, k);
    var s := run[k];
    assert StartInv(c, s, s.peer.value, s.starts[s.peer.value]);
  }

  /** A waiting start can go on, other than by giving up, exactly when reexec has dialed it. */
  lemma AwaitGoesOnExactly(c: Config, s: System, i: nat, n: nat)
    requires i < |s.starts| && s.starts[i].pc == SAwait
    ensures Apply(c, s, StartActs(i, true, n)).Some? <==> s.dialed == Some(i)
  {
  }

  /** The start waits, or has given up, for a reexec that is dead and has not dialed it. */
  ghost predicate Abandoned(s: System, i: nat) {
    i < |s.starts| && s.reexec == RDead && s.dialed != Some(i)
    && s.starts[i].pc in {SAwait, SCleanup(false), SDone(false)}
  }

  lemma StepAbandons(c: Config, s: System, step: Step, i: nat)
    requires Abandoned(s, i) && Apply(c, s, step).Some? && s.create.CDone?
    ensures Abandoned(Apply(c, s, step).value, i) && Apply(c, s, step).value.create.CDone?
  {
    hide CanRead;
  }

  lemma StartsAfterCreate(c: Config, s: System, i: nat)
    requires Inv(c, s) && i < |s.starts|
    ensures s.create.CDone?
  {
    hide ReexecInv, ReportInv, StartInv, InOrder, RanFirst, GivenUp, Stored;
  }

  /** The handshake over sockets has no end of file: if reexec dies before it dials, the start that waits for it never
      returns with a success, in whatever way the run goes on. */
  lemma {:induction false} DeadReexecNeverReports(c: Config, run: seq<System>, i: nat, k: nat, l: nat)
    requires IsRun(c, run) && k <= l < |run|
    requires i < |run[k].starts| && run[k].starts[i].pc == SAwait
    requires run[k].reexec == RDead && run[k].dialed != Some(i)
    ensures Abandoned(run[l], i) && run[l].create.CDone?
    decreases l
  {
    hide Apply;
    if k == l {
      RunKeeps(c, run, k);
      hide Inv;
      StartsAfterCreate(c, run[k], i);
    } else {
      hide Abandoned;
      DeadReexecNeverReports(c, run, i, k, l - 1);
      assert Next(c, run[l - 1], run[l]);
      var step :| Apply(c, run[l - 1], step) == Some(run[l]);
      StepAbandons(c, run[l - 1], step, i);
    }
  }

  // ------------------------------------------------------------------ the abstract protocol

  /** What the handshake has reported, and which start has taken it as a success. */
  function ToReport(s: System): Outcome.Report {
    Outcome.Report(
      s.built,
      if SuccessSent(s) then Outcome.Succeeded
      else if s.reexec in {RReportError, RDead} then Outcome.Failed
      else Outcome.Pending,
      if Stored(s) then s.dialed else None)
  }

  lemma CreateRefines(c: Config, s: System, ok: bool, n: nat)
    requires Inv(c, s) && CreateStep(c, s, ok, n).Some?
    ensures ToReport(CreateStep(c, s, ok, n).value) == ToReport(s)
  {
    hide InOrder, RanFirst, HasPrefix;
  }

  lemma ReexecRefines(c: Config, s: System, ok: bool, n: nat, k: nat)
    requires Inv(c, s) && ReexecStep(c, s, ok, n, k).Some?
    ensures var r, r' := ToReport(s), ToReport(ReexecStep(c, s, ok, n, k).value);
            r'.winner == r.winner && Outcome.Apply(r, Outcome.EventOf(r, r')) == Some(r')
  {
    hide InOrder, RanFirst, StartInv, CanRead;
    var s' := ReexecStep(c, s, ok, n, k).value;
    SuccessStays(s.report, SUCCESS);
    if s.reexec == RReportError {
      SuccessStays(s.report, ERROR[..n]);
      if s.report != SUCCESS {
        NoForgedSuccess(s.report, n);
      }
    }
    StoredBySteps(c, s, ok, n, k);
  }

  lemma StoredBySteps(c: Config, s: System, ok: bool, n: nat, k: nat)
    requires Inv(c, s) && ReexecStep(c, s, ok, n, k).Some?
    ensures var s' := ReexecStep(c, s, ok, n, k).value;
            Stored(s') == Stored(s) && (Stored(s) ==> s'.dialed == s.dialed)
  {
    hide InOrder, RanFirst, CanRead, HasPrefix;
    forall i | 0 <= i < |s.starts| ensures s.starts[i].stored ==> s.dialed == Some(i) {
      assert StartInv(c, s, i, s.starts[i]);
    }
  }

  lemma StoredAtStore(c: Config, s: System, i: nat, ok: bool, n: nat)
    requires i < |s.starts| && StartEffect(c, s, i, ok, n).Some?
    ensures StartEffect(c, s, i, ok, n).value.start.stored <==>
            s.starts[i].stored || (s.starts[i].pc == SStore && ok && s.starts[i].loaded.StateFile?)
  {
    hide CanRead;
  }

  lemma StartRefines(c: Config, s: System, i: nat, ok: bool, n: nat)
    requires Inv(c, s) && i < |s.starts| && StartStep(c, s, i, ok, n).Some?
    ensures var r, r' := ToReport(s), ToReport(StartStep(c, s, i, ok, n).value);
            Outcome.Apply(r, Outcome.EventOf(r, r')) == Some(r')
  {
    hide InOrder, RanFirst, HasPrefix, CanRead, CreateInv, ReexecInv, StartEffect;
    assert StartInv(c, s, i, s.starts[i]);
    StoredAtStore(c, s, i, ok, n);
  }

  /** The socket handshake implements the abstract protocol: every step is one of its events or none. */
  lemma StepRefines(c: Config, s: System, step: Step)
    requires Inv(c, s) && Apply(c, s, step).Some?
    ensures Outcome.Next(ToReport(s), ToReport(Apply(c, s, step).value))
  {
    hide Inv, CreateStep, ReexecStep, StartStep, ToReport, Outcome.EventOf, Outcome.Apply;
    var r, r' := ToReport(s), ToReport(Apply(c, s, step).value);
    NothingHappens(r);
    match step
    case CreateActs(ok, n) => CreateRefines(c, s, ok, n);
    case ReexecActs(ok, n, k) => ReexecRefines(c, s, ok, n, k);
    case ReexecDies => DeathRefines(c, s);
    case StartBegins => BeginRefines(c, s);
    case StartActs(i, ok, n) => StartRefines(c, s, i, ok, n);
    assert Outcome.Apply(r, Outcome.EventOf(r, r')) == Some(r');
  }

  lemma NothingHappens(r: Outcome.Report)
    ensures Outcome.Apply(r, Outcome.EventOf(r, r)) == Some(r)
  {
  }

  lemma DeathRefines(c: Config, s: System)
    requires Inv(c, s) && s.reexec !in {RAbsent, RMonitor}
    ensures var r, r' := ToReport(s), ToReport(s.(listening := false, reexec := RDead));
            Outcome.Apply(r, Outcome.EventOf(r, r')) == Some(r')
  {
    hide InOrder, RanFirst, HasPrefix, StartInv, CreateInv;
  }

  lemma BeginRefines(c: Config, s: System)
    requires Inv(c, s)
    ensures ToReport(s.(starts := s.starts + [NEW_START])) == ToReport(s)
  {
    hide InOrder, RanFirst, HasPrefix, StartInv, CreateInv, ReexecInv;
  }

  lemma RunRefines(c: Config, run: seq<System>)
    requires IsRun(c, run)
    ensures Outcome.IsRun(seq(|run|, i requires 0 <= i < |run| => ToReport(run[i])))
  {
    hide Inv, Apply, ToReport, Outcome.Apply;
    var abs := seq(|run|, i requires 0 <= i < |run| => ToReport(run[i]));
    InitialReport();
    forall i | 0 <= i < |run| - 1 ensures Outcome.Next(abs[i], abs[i + 1]) {
      RunKeeps(c, run, i);
      assert Next(c, run[i], run[i + 1]);
      var step :| Apply(c, run[i], step) == Some(run[i + 1]);
      StepRefines(c, run[i], step);
    }
  }

  lemma InitialReport()
    ensures ToReport(INITIAL) == Outcome.UNREPORTED
  {
  }

  /** The start that has stored the running status remains the one and only, for the rest of the run. */
  lemma WinnerIsFinal(c: Config, run: seq<System>, i: nat, j: nat)
    requires IsRun(c, run) && i <= j < |run| && Stored(run[i])
    ensures Stored(run[j]) && run[j].dialed == run[i].dialed
  {
    RunRefines(c, run);
    var abs := seq(|run|, i requires 0 <= i < |run| => ToReport(run[i]));
    assert abs[i].winner == run[i].dialed;
    Outcome.WinnerIsFinal(abs, i, j);
    assert abs[j] == ToReport(run[j]);
  }
}
