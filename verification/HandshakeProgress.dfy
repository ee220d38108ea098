/** The handshake can succeed: for every configuration there is a run that ends with a running container. */
module HandshakeProgress {
  import opened GoStrings
  import opened Handshake

  ghost predicate Reachable(c: Config, s: System) {
    exists run :: IsRun(c, run) && run[|run| - 1] == s
  }

  lemma Begin(c: Config)
    ensures Reachable(c, INITIAL)
  {
    var run := [INITIAL];
    assert IsRun(c, run) && run[|run| - 1] == INITIAL;
  }

  lemma Extend(c: Config, s: System, step: Step, s': System)
    requires Reachable(c, s) && Apply(c, s, step) == Some(s')
    ensures Reachable(c, s')
  {
    hide Apply;
    var run :| IsRun(c, run) && run[|run| - 1] == s;
    var longer := run + [s'];
    assert Next(c, s, s');
    forall i | 0 <= i < |longer| - 1 ensures Next(c, longer[i], longer[i + 1]) {
      assert i < |run| - 1 ==> Next(c, run[i], run[i + 1]);
    }
    assert IsRun(c, longer) && longer[|longer| - 1] == s';
  }

  function AllOk(hooks: seq<string>): seq<Executed> {
    seq(|hooks|, i requires 0 <= i < |hooks| => Executed(hooks[i], true))
  }

  lemma AllOkSnoc(hooks: seq<string>, i: nat)
    requires i < |hooks|
    ensures AllOk(hooks[..i + 1]) == AllOk(hooks[..i]) + [Executed(hooks[i], true)]
  {
  }

  // ------------------------------------------------------------------ the four loops over hooks

  lemma {:induction false} CreateRuntimeRuns(c: Config, s: System, i: nat)
    requires Reachable(c, s) && s.create == CHooks(0) && i <= |c.createRuntime|
    ensures Reachable(c, s.(create := CHooks(i), hooks := s.hooks + AllOk(c.createRuntime[..i])))
  {
    if i == 0 {
      assert s.hooks + AllOk(c.createRuntime[..0]) == s.hooks;
    } else {
      CreateRuntimeRuns(c, s, i - 1);
      AllOkSnoc(c.createRuntime, i - 1);
      hide Reachable, AllOk;
      var hooks1, hooks2 := s.hooks + AllOk(c.createRuntime[..i - 1]), s.hooks + AllOk(c.createRuntime[..i]);
      assert hooks2 == hooks1 + [Executed(c.createRuntime[i - 1], true)];
      CreateMoves(c, s.(create := CHooks(i - 1), hooks := hooks1), CHooks(i), hooks2);
    }
  }

  lemma CreateMoves(c: Config, s: System, pc: CreatePc, hooks: seq<Executed>)
    requires Reachable(c, s) && CreateStep(c, s, true, 0) == Some(s.(create := pc, hooks := hooks))
    ensures Reachable(c, s.(create := pc, hooks := hooks))
  {
    hide Reachable, CreateStep;
    Extend(c, s, CreateActs(true, 0), s.(create := pc, hooks := hooks));
  }

  lemma {:induction false} CreateContainerRuns(c: Config, s: System, i: nat)
    requires Reachable(c, s) && s.reexec == RCreateContainer(0) && i <= |c.createContainer|
    ensures Reachable(c, s.(reexec := RCreateContainer(i), hooks := s.hooks + AllOk(c.createContainer[..i])))
  {
    if i == 0 {
      assert s.hooks + AllOk(c.createContainer[..0]) == s.hooks;
    } else {
      CreateContainerRuns(c, s, i - 1);
      AllOkSnoc(c.createContainer, i - 1);
      var before := s.(reexec := RCreateContainer(i - 1), hooks := s.hooks + AllOk(c.createContainer[..i - 1]));
      hide Reachable, AllOk, CanRead;
      assert s.hooks + AllOk(c.createContainer[..i]) == before.hooks + [Executed(c.createContainer[i - 1], true)];
      Extend(c, before, ReexecActs(true, 0, 0), s.(reexec := RCreateContainer(i),
                                                   hooks := s.hooks + AllOk(c.createContainer[..i])));
    }
  }

  lemma {:induction false} StartContainerRuns(c: Config, s: System, i: nat)
    requires Reachable(c, s) && s.reexec == RStartContainer(0) && i <= |c.startContainer|
    ensures Reachable(c, s.(reexec := RStartContainer(i), hooks := s.hooks + AllOk(c.startContainer[..i])))
  {
    if i == 0 {
      assert s.hooks + AllOk(c.startContainer[..0]) == s.hooks;
    } else {
      StartContainerRuns(c, s, i - 1);
      AllOkSnoc(c.startContainer, i - 1);
      var before := s.(reexec := RStartContainer(i - 1), hooks := s.hooks + AllOk(c.startContainer[..i - 1]));
      hide Reachable, AllOk, CanRead;
      assert s.hooks + AllOk(c.startContainer[..i]) == before.hooks + [Executed(c.startContainer[i - 1], true)];
      Extend(c, before, ReexecActs(true, 0, 0), s.(reexec := RStartContainer(i),
                                                   hooks := s.hooks + AllOk(c.startContainer[..i])));
    }
  }

  lemma {:induction false} PoststartRuns(c: Config, s: System, t: Start, i: nat)
    requires Reachable(c, s) && s.starts == [t] && t.pc == SPoststart(0) && i <= |c.poststart|
    ensures Reachable(c, s.(starts := [t.(pc := SPoststart(i))], hooks := s.hooks + AllOk(c.poststart[..i])))
  {
    if i == 0 {
      assert s.hooks + AllOk(c.poststart[..0]) == s.hooks && [t.(pc := SPoststart(0))] == s.starts;
    } else {
      PoststartRuns(c, s, t, i - 1);
      AllOkSnoc(c.poststart, i - 1);
      hide Reachable, AllOk, CanRead;
      var t1, t2 := t.(pc := SPoststart(i - 1)), t.(pc := SPoststart(i));
      var hooks1, hooks2 := s.hooks + AllOk(c.poststart[..i - 1]), s.hooks + AllOk(c.poststart[..i]);
      assert hooks2 == hooks1 + [Executed(c.poststart[i - 1], true)];
      HookMoves(c, s.(starts := [t1], hooks := hooks1), t1, t2, hooks2);
    }
  }

  /** A step of the only start that runs a hook. */
  lemma HookMoves(c: Config, s: System, t: Start, t': Start, hooks: seq<Executed>)
    requires Reachable(c, s) && s.starts == [t]
    requires StartEffect(c, s, 0, true, 0) == Some(Effect(t', s.disk, s.owner, hooks))
    ensures Reachable(c, s.(starts := [t'], hooks := hooks))
  {
    hide Reachable, StartEffect;
    assert [t][0 := t'] == [t'];
    Extend(c, s, StartActs(0, true, 0), s.(starts := [t'], hooks := hooks));
  }

  // ------------------------------------------------------------------ the stages of a run that succeeds

  function Acknowledged(c: Config): System {
    INITIAL.(create := CDone(true), initSent := ACK, reexec := RAwaitAck, disk := StateFile(Created, c.reexecPid),
             hooks := AllOk(c.createRuntime))
  }

  lemma CreateSucceeds(c: Config)
    ensures Reachable(c, Acknowledged(c))
  {
    hide Reachable, AllOk;
    var s1 := INITIAL.(disk := StateFile(Creating, -1), create := CSpawn);
    var s2 := s1.(reexec := RAwaitAck, create := CSave);
    var s3 := s2.(disk := StateFile(Created, c.reexecPid), create := CHooks(0));
    Begin(c);
    Extend(c, INITIAL, CreateActs(true, 0), s1);
    Extend(c, s1, CreateActs(true, 0), s2);
    Extend(c, s2, CreateActs(true, 0), s3);
    CreateRuntimeRuns(c, s3, |c.createRuntime|);
    assert c.createRuntime[..|c.createRuntime|] == c.createRuntime;
    assert [] + AllOk(c.createRuntime) == AllOk(c.createRuntime);
    Extend(c, s3.(create := CHooks(|c.createRuntime|), hooks := AllOk(c.createRuntime)), CreateActs(true, 0),
           Acknowledged(c));
  }

  function Accepting(c: Config): System {
    Acknowledged(c).(reexec := RAccept, loaded := StateFile(Created, c.reexecPid), listening := true,
                     hooks := AllOk(c.createRuntime) + AllOk(c.createContainer))
  }

  lemma ReexecListens(c: Config)
    ensures Reachable(c, Accepting(c))
  {
    hide Reachable, AllOk;
    var s := Acknowledged(c);
    var s1 := s.(reexec := RLoad);
    var s2 := s1.(loaded := s.disk, reexec := RCreateContainer(0));
    CreateSucceeds(c);
    assert ACK[..|ACK|] == ACK;
    Extend(c, s, ReexecActs(true, |ACK|, 0), s1);
    hide CanRead;
    Extend(c, s1, ReexecActs(true, 0, 0), s2);
    CreateContainerRuns(c, s2, |c.createContainer|);
    assert c.createContainer[..|c.createContainer|] == c.createContainer;
    Extend(c, s2.(reexec := RCreateContainer(|c.createContainer|), hooks := s2.hooks + AllOk(c.createContainer)),
           ReexecActs(true, 0, 0), Accepting(c));
  }

  function Waiting(c: Config): Start {
    Start(SAwait, StateFile(Created, c.reexecPid), START, true, true, false)
  }

  lemma StartWaits(c: Config)
    ensures Reachable(c, Accepting(c).(starts := [Waiting(c)], owner := Some(0)))
  {
    hide Reachable, AllOk, CanRead;
    ReexecListens(c);
    var s := Accepting(c);
    var t1 := NEW_START.(loaded := s.disk, pc := SListen);
    var t2 := t1.(bound := true, pc := SDial);
    var t3 := t2.(queued := true, pc := SSend);
    var t4 := t3.(sent := START, pc := SHangUp(true));
    var bound := s.(starts := [t2], owner := Some(0));
    assert [] + [NEW_START] == [NEW_START];
    Extend(c, s, StartBegins, s.(starts := [NEW_START]));
    StartMoves(c, s.(starts := [NEW_START]), NEW_START, t1);
    assert [t1][0 := t2] == [t2];
    Extend(c, s.(starts := [t1]), StartActs(0, true, 0), bound);
    StartMoves(c, bound, t2, t3);
    StartMoves(c, bound.(starts := [t3]), t3, t4);
    StartMoves(c, bound.(starts := [t4]), t4, Waiting(c));
  }

  /** A step of the only start that changes nothing but itself. */
  lemma StartMoves(c: Config, s: System, t: Start, t': Start)
    requires Reachable(c, s) && s.starts == [t]
    requires StartEffect(c, s, 0, true, 0) == Some(Effect(t', s.disk, s.owner, s.hooks))
    ensures Reachable(c, s.(starts := [t']))
  {
    hide Reachable, StartEffect;
    assert [t][0 := t'] == [t'];
    Extend(c, s, StartActs(0, true, 0), s.(starts := [t']));
  }

  /** It can happen that a start waits for a reexec that died before it dialed. */
  lemma StartMayWaitInVain(c: Config)
    ensures exists s :: Reachable(c, s) && |s.starts| == 1 && s.starts[0].pc == SAwait && s.reexec == RDead
                        && s.dialed != Some(0)
  {
    hide Reachable, AllOk;
    StartWaits(c);
    var s := Accepting(c).(starts := [Waiting(c)], owner := Some(0));
    Extend(c, s, ReexecDies, s.(listening := false, reexec := RDead));
  }

  function Released(c: Config): System {
    Accepting(c).(starts := [Waiting(c).(queued := false)], owner := Some(0), listening := false, peer := Some(0),
                  dialed := Some(0), reexec := RStartContainer(0))
  }

  lemma ReexecIsReleased(c: Config)
    ensures Reachable(c, Released(c))
  {
    hide Reachable, AllOk;
    StartWaits(c);
    var s := Accepting(c).(starts := [Waiting(c)], owner := Some(0));
    var s1 := s.(starts := [Waiting(c).(queued := false)], peer := Some(0), reexec := RReadStart);
    assert s.starts[0 := Waiting(c).(queued := false)] == s1.starts;
    Extend(c, s, ReexecActs(true, 0, 0), s1);
    assert START[..|START|] == START;
    Extend(c, s1, ReexecActs(true, |START|, 0), s1.(reexec := RUnlink(true)));
    hide CanRead;
    var s2 := s1.(listening := false, reexec := RDial);
    Extend(c, s1.(reexec := RUnlink(true)), ReexecActs(true, 0, 0), s2);
    var s3 := s2.(dialed := Some(0), reexec := RSetup);
    Extend(c, s2, ReexecActs(true, 0, 0), s3);
    Extend(c, s3, ReexecActs(true, 0, 0), Released(c));
  }

  function Reported(c: Config): System {
    Released(c).(built := true, report := SUCCESS, reexec := RMonitor,
                 hooks := AllOk(c.createRuntime) + AllOk(c.createContainer) + AllOk(c.startContainer))
  }

  lemma ReexecReports(c: Config)
    ensures Reachable(c, Reported(c))
  {
    hide Reachable, AllOk, CanRead;
    ReexecIsReleased(c);
    var s := Released(c);
    StartContainerRuns(c, s, |c.startContainer|);
    assert c.startContainer[..|c.startContainer|] == c.startContainer;
    var s1 := s.(reexec := RStartContainer(|c.startContainer|), hooks := s.hooks + AllOk(c.startContainer));
    var s2 := s1.(built := true, reexec := RReport);
    Extend(c, s1, ReexecActs(true, 0, 0), s2);
    assert "" + SUCCESS == SUCCESS;
    var s3 := s2.(report := SUCCESS, reexec := RExecve);
    Extend(c, s2, ReexecActs(true, 0, 0), s3);
    Extend(c, s3, ReexecActs(true, 0, 0), Reported(c));
  }

  lemma AllOkTogether(c: Config)
    ensures AllOk(AllHooks(c)) ==
              AllOk(c.createRuntime) + AllOk(c.createContainer) + AllOk(c.startContainer) + AllOk(c.poststart)
  {
  }

  /** For every configuration some run ends with all hooks of the life cycle executed, the monitor running in the
      reexec process, that process recorded as running, and the start that waited for it returning a success. */
  lemma HandshakeSucceeds(c: Config)
    ensures exists s :: Reachable(c, s) && s.disk == StateFile(Running, c.reexecPid) && s.reexec == RMonitor
                        && s.hooks == AllOk(AllHooks(c)) && |s.starts| == 1 && s.starts[0].pc == SDone(true)
  {
    hide Reachable, AllOk, AllHooks;
    ReexecReports(c);
    var s, t := Reported(c), Waiting(c).(queued := false);
    StartMoves(c, s, t, t.(pc := SRead));
    assert SUCCESS[..|SUCCESS|] == SUCCESS;
    var s1 := s.(starts := [t.(pc := SStore)]);
    assert [t.(pc := SRead)][0 := t.(pc := SStore)] == s1.starts;
    Extend(c, s.(starts := [t.(pc := SRead)]), StartActs(0, true, |SUCCESS|), s1);
    hide CanRead;
    RunningIsStored(c, s1, t.(pc := SStore));
  }

  lemma RunningIsStored(c: Config, s: System, t: Start)
    requires Reachable(c, s) && s.starts == [t] && t.pc == SStore && t.loaded == StateFile(Created, c.reexecPid)
    requires s.reexec == RMonitor
    requires s.hooks == AllOk(c.createRuntime) + AllOk(c.createContainer) + AllOk(c.startContainer)
    ensures exists s :: Reachable(c, s) && s.disk == StateFile(Running, c.reexecPid) && s.reexec == RMonitor
                        && s.hooks == AllOk(AllHooks(c)) && |s.starts| == 1 && s.starts[0].pc == SDone(true)
  {
    hide Reachable, AllOk, CanRead, AllHooks;
    var t1 := t.(stored := true, pc := SPoststart(0));
    var s1 := s.(starts := [t1], disk := StateFile(Running, c.reexecPid));
    assert [t][0 := t1] == [t1];
    Extend(c, s, StartActs(0, true, 0), s1);
    PoststartRuns(c, s1, t1, |c.poststart|);
    assert c.poststart[..|c.poststart|] == c.poststart;
    AllOkTogether(c);
    var t2 := t1.(pc := SPoststart(|c.poststart|));
    var s2 := s1.(starts := [t2], hooks := AllOk(AllHooks(c)));
    StartMoves(c, s2, t2, t2.(pc := SCleanup(true)));
    var s3 := s2.(starts := [t2.(pc := SCleanup(true))]);
    var s4 := s2.(starts := [t2.(pc := SDone(true))], owner := None);
    assert s3.starts[0 := t2.(pc := SDone(true))] == s4.starts;
    Extend(c, s3, StartActs(0, true, 0), s4);
  }
}
