/** What a start may conclude from a report, whatever carries it: the abstract protocol that the socket
    handshake and the ready pipe both implement. */
module Outcome {
  import opened GoStrings

  datatype Phase = Pending | Succeeded | Failed

  /** `built`: the monitor command is built. `winner`: the start attempt that saw the success. */
  datatype Report = Report(built: bool, phase: Phase, winner: Option<nat>)

  const UNREPORTED := Report(false, Pending, None)

  datatype Event = Build | ReportSuccess | ReportFailure | Win(start: nat) | Nothing

  function Apply(r: Report, e: Event): Option<Report> {
    match e
    case Build => if r.phase.Pending? then Some(r.(built := true)) else None
    case ReportSuccess => if r.phase.Pending? && r.built then Some(r.(phase := Succeeded)) else None
    case ReportFailure => if r.phase.Pending? then Some(r.(phase := Failed)) else None
    case Win(i) => if r.phase.Succeeded? && r.winner.None? then Some(r.(winner := Some(i))) else None
    case Nothing => Some(r)
  }

  /** The only event that can lead from one report to the other. */
  function EventOf(r: Report, r': Report): Event {
    if r' == r then Nothing
    else if r'.winner.Some? && r.winner.None? then Win(r'.winner.value)
    else if r'.built != r.built then Build
    else if r'.phase.Succeeded? then ReportSuccess
    else ReportFailure
  }

  ghost predicate Next(r: Report, r': Report) {
    exists e :: Apply(r, e) == Some(r')
  }

  ghost predicate IsRun(run: seq<Report>) {
    && |run| > 0 && run[0] == UNREPORTED
    && forall i :: 0 <= i < |run| - 1 ==> Next(run[i], run[i + 1])
  }

  /** In every run a winner implies a success, and a success a command that was built. */
  lemma {:induction false} WinnerImpliesBuilt(run: seq<Report>, i: nat)
    requires IsRun(run) && i < |run|
    ensures run[i].winner.Some? ==> run[i].phase.Succeeded?
    ensures run[i].phase.Succeeded? ==> run[i].built
  {
    if i > 0 {
      WinnerImpliesBuilt(run, i - 1);
      assert Next(run[i - 1], run[i]);
    }
  }

  /** A winner stays the winner: no second start ever wins. */
  lemma {:induction false} WinnerIsFinal(run: seq<Report>, i: nat, j: nat)
    requires IsRun(run) && i <= j < |run| && run[i].winner.Some?
    ensures run[j].winner == run[i].winner
    decreases j
  {
    if i < j {
      WinnerIsFinal(run, i, j - 1);
      assert Next(run[j - 1], run[j]);
    }
  }
}
