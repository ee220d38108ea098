/** The FIFO variant can succeed too: for every configuration there is a run that ends with a running container. */
module ReadyPipeProgress {
  import opened GoStrings
  import opened ReadyPipe
  import Handshake
  import HandshakeProgress

  ghost predicate Reachable(c: Config, s: System) {
    exists run :: IsRun(c, run) && run[|run| - 1] == s
  }

  lemma Begin(c: Config)
    ensures Reachable(c, INITIAL)
  {
    var run := [INITIAL];
    assert IsRun(c, run) && run[|run| - 1] == INITIAL;
  }

  /** A step after which no byte is lost. */
  lemma Extend(c: Config, s: System, step: Step, s': System)
    requires Reachable(c, s) && Act(c, s, step) == Some(s') && s'.taken == |s'.reports| && !s'.lost
    ensures Reachable(c, s')
  {
    SettledAlready(s');
    Append(c, s, step, s');
  }

  lemma SettledAlready(s: System)
    requires s.taken == |s.reports|
    ensures Settle(s) == s
  {
    hide HasReader;
  }

  lemma Append(c: Config, s: System, step: Step, s': System)
    requires Reachable(c, s) && Apply(c, s, step) == Some(s')
    ensures Reachable(c, s')
  {
    hide Apply;
    var run :| IsRun(c, run) && run[|run| - 1] == s;
    var longer := run + [s'];
    assert Next(c, s, s');
    forall i | 0 <= i < |longer| - 1 ensures Next(c, longer[i], longer[i + 1]) {
      assert i < |run| - 1 ==> Next(c, run[i], run[i + 1]);
    }
    assert IsRun(c, longer) && longer[|longer| - 1] == s';
  }

  function AfterCreate(c: Config): System {
    INITIAL.(disk := Handshake.StateFile(Handshake.Created, c.monitorPid), create := LDone, pipeExists := true,
             monitor := MBlocked, monitorHolds := true)
  }

  lemma CreateSucceeds(c: Config)
    ensures Reachable(c, AfterCreate(c))
  {
    hide Reachable;
    var s1 := INITIAL.(disk := Handshake.StateFile(Handshake.Creating, -1), create := LMakePipe);
    var s2 := s1.(pipeExists := true, createHolds := true, create := LStart);
    var s3 := s2.(monitor := MBlocked, monitorHolds := true, create := LSave);
    var s4 := s3.(disk := Handshake.StateFile(Handshake.Created, c.monitorPid), create := LClosePipe);
    Begin(c);
    Extend(c, INITIAL, CreateActs(true, 0), s1);
    Extend(c, s1, CreateActs(true, 0), s2);
    Extend(c, s2, CreateActs(true, 0), s3);
    Extend(c, s3, CreateActs(true, 0), s4);
    Extend(c, s4, CreateActs(true, 0), AfterCreate(c));
  }

  /** A step of the only start. */
  lemma StartMoves(c: Config, s: System, t: Start, e: Effect, s': System)
    requires Reachable(c, s) && s.starts == [t] && StartEffect(c, s, 0, true, 0) == Some(e)
    requires s' == s.(starts := [e.start], disk := e.disk, hooks := e.hooks, pipeExists := e.pipeExists,
                      released := e.released, taken := e.taken, winner := e.winner)
    requires s'.taken == |s'.reports| && !s'.lost
    ensures Reachable(c, s')
  {
    hide Reachable, StartEffect;
    assert [t][0 := e.start] == [e.start];
    Extend(c, s, StartActs(0, true, 0), s');
  }

  function Waiting(c: Config): Start {
    Start(PAwait, Handshake.StateFile(Handshake.Created, c.monitorPid), false)
  }

  lemma StartReleases(c: Config)
    ensures Reachable(c, AfterCreate(c).(starts := [Waiting(c)], released := true))
  {
    hide Reachable;
    CreateSucceeds(c);
    var s := AfterCreate(c);
    var t1, t2 := Waiting(c).(pc := POpen), Waiting(c).(pc := PRelease);
    assert [] + [NEW_START] == [NEW_START];
    Extend(c, s, StartBegins, s.(starts := [NEW_START]));
    StartMoves(c, s.(starts := [NEW_START]), NEW_START, Effect(t1, s.disk, s.hooks, true, false, 0, None),
               s.(starts := [t1]));
    StartMoves(c, s.(starts := [t1]), t1, Effect(t2, s.disk, s.hooks, true, false, 0, None), s.(starts := [t2]));
    StartMoves(c, s.(starts := [t2]), t2, Effect(Waiting(c), s.disk, s.hooks, true, true, 0, None),
               s.(starts := [Waiting(c)], released := true));
  }

  function Reported(c: Config): System {
    AfterCreate(c).(starts := [Waiting(c)], released := true, monitor := MMonitor, monitorHolds := false, built := true,
                    reports := [READY_OK])
  }

  lemma MonitorReports(c: Config)
    ensures Reachable(c, Reported(c))
  {
    hide Reachable;
    StartReleases(c);
    var s := AfterCreate(c).(starts := [Waiting(c)], released := true);
    Extend(c, s, MonitorActs(true, false, false), s.(monitor := MLoadSpec));
    Extend(c, s.(monitor := MLoadSpec), MonitorActs(true, false, false), s.(monitor := MSetUp));
    var s1 := s.(monitor := MReport, built := true);
    Extend(c, s.(monitor := MSetUp), MonitorActs(true, false, false), s1);
    var s2 := s1.(monitor := MExecve, monitorHolds := false, reports := [READY_OK]);
    assert [] + [READY_OK] == [READY_OK];
    assert Opened(s2.starts[0]) && Opened(Reported(c).starts[0]);
    Append(c, s1, MonitorActs(true, false, false), s2);
    Append(c, s2, MonitorActs(true, false, false), Reported(c));
  }

  lemma {:induction false} PoststartRuns(c: Config, s: System, t: Start, i: nat)
    requires Reachable(c, s) && s.starts == [t] && t.pc == PPoststart(0) && i <= |c.poststart|
    requires s.taken == |s.reports| && !s.lost
    ensures Reachable(c, s.(starts := [t.(pc := PPoststart(i))],
                            hooks := s.hooks + HandshakeProgress.AllOk(c.poststart[..i])))
  {
    if i == 0 {
      assert s.hooks + HandshakeProgress.AllOk(c.poststart[..0]) == s.hooks && [t.(pc := PPoststart(0))] == s.starts;
    } else {
      hide Reachable;
      PoststartRuns(c, s, t, i - 1);
      HandshakeProgress.AllOkSnoc(c.poststart, i - 1);
      var t1, t2 := t.(pc := PPoststart(i - 1)), t.(pc := PPoststart(i));
      var before := s.(starts := [t1], hooks := s.hooks + HandshakeProgress.AllOk(c.poststart[..i - 1]));
      var hooks := s.hooks + HandshakeProgress.AllOk(c.poststart[..i]);
      hide HandshakeProgress.AllOk;
      assert hooks == before.hooks + [Handshake.Executed(c.poststart[i - 1], true)];
      StartMoves(c, before, t1, Effect(t2, s.disk, hooks, s.pipeExists, s.released, s.taken, s.winner),
                 s.(starts := [t2], hooks := hooks));
    }
  }

  /** For every configuration some run ends with the Poststart hooks executed, the monitor running and recorded as
      running, the FIFO gone, and the start that waited for it returning a success. */
  lemma HandshakeSucceeds(c: Config)
    ensures exists s :: Reachable(c, s) && s.disk == Handshake.StateFile(Handshake.Running, c.monitorPid)
                        && s.monitor == MMonitor && s.hooks == HandshakeProgress.AllOk(c.poststart) && !s.pipeExists
                        && |s.starts| == 1 && s.starts[0].pc == PDone(true)
  {
    hide Reachable, HandshakeProgress.AllOk;
    MonitorReports(c);
    var s, t := Reported(c), Waiting(c);
    var t1 := t.(pc := PStore);
    var s1 := s.(starts := [t1], taken := 1, winner := Some(0));
    StartMoves(c, s, t, Effect(t1, s.disk, s.hooks, true, true, 1, Some(0)), s1);
    var t2 := t.(pc := PPoststart(0), stored := true);
    var s2 := s1.(starts := [t2], disk := Handshake.StateFile(Handshake.Running, c.monitorPid));
    StartMoves(c, s1, t1, Effect(t2, s2.disk, s.hooks, true, true, 1, Some(0)), s2);
    PoststartRuns(c, s2, t2, |c.poststart|);
    assert c.poststart[..|c.poststart|] == c.poststart;
    var hooks := HandshakeProgress.AllOk(c.poststart);
    assert [] + hooks == hooks;
    RunEnds(c, s2.(starts := [t2.(pc := PPoststart(|c.poststart|))], hooks := hooks),
            t2.(pc := PPoststart(|c.poststart|)));
  }

  lemma RunEnds(c: Config, s: System, t: Start)
    requires Reachable(c, s) && s.starts == [t] && t.pc == PPoststart(|c.poststart|) && s.taken == |s.reports|
             && !s.lost
    ensures Reachable(c, s.(starts := [t.(pc := PDone(true))], pipeExists := false))
  {
    hide Reachable;
    var t1, t2 := t.(pc := PClose(true)), t.(pc := PUnlink(true));
    StartMoves(c, s, t, Effect(t1, s.disk, s.hooks, s.pipeExists, s.released, s.taken, s.winner), s.(starts := [t1]));
    StartMoves(c, s.(starts := [t1]), t1, Effect(t2, s.disk, s.hooks, s.pipeExists, s.released, s.taken, s.winner),
               s.(starts := [t2]));
    StartMoves(c, s.(starts := [t2]), t2,
               Effect(t.(pc := PDone(true)), s.disk, s.hooks, false, s.released, s.taken, s.winner),
               s.(starts := [t.(pc := PDone(true))], pipeExists := false));
  }
}
