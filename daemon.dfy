/**
 * The process around the cycle: the startup checks, one immediate cycle, then a loop
 * that waits for either the timer or a cancellation. The timer and the interrupt signal
 * are an ordered stream of events; each cycle's lookups and exchanges are given per cycle.
 */
module Daemon {
  import opened Wrappers
  import opened Provider
  import opened Reconcile

  /** The two settings the process needs; an unset one is the empty string. */
  datatype Settings = Settings(apiToken: string, zoneId: string)

  /** What the wait in the scheduling loop can resolve to. */
  datatype Event = Tick | Cancel

  /** What the outside world gives one cycle. */
  datatype CycleInputs = CycleInputs(lookup: IpLookup, listing: ListReply, transport: nat -> UpdateReply)

  /** Every condition that makes the process log an error and exit with status 1. */
  datatype FatalError =
    | MissingSetting(name: string)
    | StartupListFailed(listError: ProviderError)
    | NoRecords
    | CycleFailed(cycleError: CycleError)

  /**
   * Where the process stands after the events seen: still waiting for the next event,
   * shut down on cancellation, or stopped by a fatal error.
   */
  datatype Status = Watching | ShutDown | Failed(error: FatalError)

  /** The exit status of a process that has stopped; none while it is still watching. */
  function ExitCode(s: Status): (code: Option<int>)
    ensures code == Some(0) <==> s == ShutDown
    ensures code == Some(1) <==> s.Failed?
    ensures code.None? <==> s == Watching
  {
    match s
    case Watching => None
    case ShutDown => Some(0)
    case Failed(_) => Some(1)
  }

  /**
   * The checks before monitoring begins, in order: the API token, the zone id, the initial
   * listing, and that it listed at least one record of any type.
   */
  function Startup(settings: Settings, initial: ListReply): (r: Option<FatalError>)
    ensures r.None? <==>
      settings.apiToken != "" && settings.zoneId != "" &&
      AcceptList(initial).Success? && AcceptList(initial).value != []
    ensures settings.apiToken == "" ==> r == Some(MissingSetting("CLOUDFLARE_API_TOKEN"))
    ensures settings.apiToken != "" && settings.zoneId == "" ==> r == Some(MissingSetting("ZONE_ID"))
    ensures settings.apiToken != "" && settings.zoneId != "" && AcceptList(initial).Failure? ==>
      r == Some(StartupListFailed(AcceptList(initial).error))
    ensures settings.apiToken != "" && settings.zoneId != "" && AcceptList(initial) == Success([]) ==>
      r == Some(NoRecords)
  {
    if settings.apiToken == "" then Some(MissingSetting("CLOUDFLARE_API_TOKEN"))
    else if settings.zoneId == "" then Some(MissingSetting("ZONE_ID"))
    else match AcceptList(initial)
      case Failure(e) => Some(StartupListFailed(e))
      case Success(records) => if records == [] then Some(NoRecords) else None
  }

  /** The position of the first cancellation; every event before it is a timer tick. */
  function CancelAt(events: seq<Event>): (k: nat)
    ensures k <= |events|
    ensures forall j :: 0 <= j < k ==> events[j] == Tick
    ensures k < |events| ==> events[k] == Cancel
  {
    if events == [] || events[0] == Cancel then 0
    else
      assert events[0].Tick?;
      var k := CancelAt(events[1..]);
      assert forall j :: 1 <= j < 1 + k ==> events[j] == events[1..][j - 1];
      1 + k
  }

  /** The cycle as the given inputs drive it. */
  function RunCycle(inputs: CycleInputs): CycleResult
  {
    Cycle(inputs.lookup, inputs.listing, inputs.transport)
  }

  /**
   * Runs the process over the events observed so far. `inputs(n)` drives the n-th cycle,
   * the immediate one being cycle 0. Returns every cycle's result, in order, and where the
   * process stands.
   *
   * A failed startup check runs no cycle. Otherwise the immediate cycle runs, then one more
   * per tick before the first cancellation; a cycle starts only after the previous one
   * ended normally, and a fatal cycle stops the process. A cancellation reached with no
   * failure shuts the process down normally.
   */
  method Run(settings: Settings, initial: ListReply, inputs: nat -> CycleInputs, events: seq<Event>)
    returns (history: seq<CycleResult>, status: Status)
    ensures Startup(settings, initial).Some? ==>
      history == [] && status == Failed(Startup(settings, initial).value)
    ensures Startup(settings, initial).None? ==>
      && 1 <= |history| <= 1 + CancelAt(events)
      && (forall n :: 0 <= n < |history| ==> history[n] == RunCycle(inputs(n)))
      && (forall n :: 0 <= n < |history| - 1 ==> history[n].outcome == Done)
      && (status.Failed? <==> history[|history| - 1].outcome.Fatal?)
      && (status.Failed? ==> status == Failed(CycleFailed(history[|history| - 1].outcome.error)))
      && (!status.Failed? ==> |history| == 1 + CancelAt(events))
      && (status == ShutDown <==> !status.Failed? && CancelAt(events) < |events|)
  {
    var failure := Startup(settings, initial);
    if failure.Some? {
      return [], Failed(failure.value);
    }
    var calls, outcome := CheckAndUpdate(inputs(0).lookup, inputs(0).listing, inputs(0).transport);
    history := [CycleResult(calls, outcome)];
    if outcome.Fatal? {
      return history, Failed(CycleFailed(outcome.error));
    }
    var k := 0;
    while k < |events|
      invariant k <= CancelAt(events)
      invariant |history| == k + 1
      invariant forall n :: 0 <= n < |history| ==> history[n] == RunCycle(inputs(n))
      invariant forall n :: 0 <= n < |history| ==> history[n].outcome == Done
    {
      match events[k]
      case Cancel =>
        return history, ShutDown;
      case Tick =>
        calls, outcome := CheckAndUpdate(inputs(k + 1).lookup, inputs(k + 1).listing, inputs(k + 1).transport);
        history := history + [CycleResult(calls, outcome)];
        if outcome.Fatal? {
          return history, Failed(CycleFailed(outcome.error));
        }
        k := k + 1;
    }
    status := Watching;
  }
}
