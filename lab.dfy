/**
 * The benchmark program's state and its top level: the two module-level
 * references to the running browser and its server, `measure` over them,
 * the main loop over every browser and tab count, and `cleanupAndExit`.
 */
module Lab {
  import opened JsText
  import opened Optional
  import opened ProcessTree
  import opened Trial
  import opened Report

  /** The driver's handle on a connected browser. */
  datatype BrowserHandle = BrowserHandle(kind: BrowserKind)

  /** The driver's handle on a launched browser server, and its process id. */
  datatype ServerHandle = ServerHandle(kind: BrowserKind, pid: Pid)

  /** One trial of the main loop: a browser and a tab count. */
  datatype Config = Config(kind: BrowserKind, tabs: nat)

  /** The trials of the main loop, in order. */
  const SCHEDULE: seq<Config> := [
    Config(Chromium, 1), Config(Firefox, 1),
    Config(Chromium, 5), Config(Firefox, 5),
    Config(Chromium, 10), Config(Firefox, 10),
    Config(Chromium, 20), Config(Firefox, 20)
  ]

  /** The schedule is each tab count of `TABS_SET` in turn, Chromium then Firefox. */
  lemma ScheduleFollowsTabsSet()
    ensures |SCHEDULE| == 2 * |TABS_SET|
    ensures forall k :: 0 <= k < |TABS_SET| ==>
      SCHEDULE[2 * k] == Config(Chromium, TABS_SET[k]) && SCHEDULE[2 * k + 1] == Config(Firefox, TABS_SET[k])
  {
    forall k | 0 <= k < |TABS_SET|
      ensures SCHEDULE[2 * k] == Config(Chromium, TABS_SET[k]) && SCHEDULE[2 * k + 1] == Config(Firefox, TABS_SET[k])
    {
      if k == 0 {} else if k == 1 {} else if k == 2 {} else {}
    }
  }

  lemma ScheduleTabsPositive(k: nat)
    requires k < |SCHEDULE|
    ensures SCHEDULE[k].tabs > 0
  {
  }

  /** What the main program ends with: the results and the CSV text after
      `cleanupAndExit(0)`, or the first exception a trial threw (the main
      loop has no `catch`, so that exception ends the program). */
  datatype RunOutcome =
    | Finished(results: seq<TrialResult>, csv: string, exitCode: int)
    | Aborted(error: Error, completed: seq<TrialResult>)

  /** The main loop from trial `k` on, given what each trial returns or
      throws, with `done` the results so far. */
  function RunFrom(outcomes: seq<TrialOutcome>, k: nat, done: seq<TrialResult>): RunOutcome
    requires k <= |outcomes|
    decreases |outcomes| - k
  {
    if k == |outcomes| then Finished(done, CsvText(done), 0)
    else
      match outcomes[k]
      case Failed(e) => Aborted(e, done)
      case Completed(r) => RunFrom(outcomes, k + 1, done + [r])
  }

  /** The driver calls of the main loop from trial `k` on, given each trial's calls. */
  function RunEvents(logs: seq<seq<Event>>, outcomes: seq<TrialOutcome>, k: nat): seq<Event>
    requires |logs| == |outcomes| && k <= |outcomes|
    decreases |outcomes| - k
  {
    if k == |outcomes| then []
    else logs[k] + if outcomes[k].Failed? then [] else RunEvents(logs, outcomes, k + 1)
  }

  /** What trial `k` of the schedule returns or throws. */
  function OutcomeOf(scripts: nat -> TrialScript, k: nat): TrialOutcome
    requires k < |SCHEDULE|
  {
    ScheduleTabsPositive(k);
    TrialOutcomeOf(SCHEDULE[k].kind, SCHEDULE[k].tabs, scripts(k))
  }

  function Outcomes(scripts: nat -> TrialScript): seq<TrialOutcome>
  {
    seq(|SCHEDULE|, k requires 0 <= k < |SCHEDULE| => OutcomeOf(scripts, k))
  }

  function Logs(scripts: nat -> TrialScript): seq<seq<Event>>
  {
    seq(|SCHEDULE|, k requires 0 <= k < |SCHEDULE| => TrialEvents(SCHEDULE[k].kind, SCHEDULE[k].tabs, scripts(k)))
  }

  /** The main program's outcome and its driver calls. */
  function Main(scripts: nat -> TrialScript): RunOutcome {
    RunFrom(Outcomes(scripts), 0, [])
  }

  function MainEvents(scripts: nat -> TrialScript): seq<Event> {
    RunEvents(Logs(scripts), Outcomes(scripts), 0)
  }

  /** One completed trial takes the main loop one step further. */
  lemma RunAdvance(outcomes: seq<TrialOutcome>, logs: seq<seq<Event>>, k: nat, results: seq<TrialResult>,
                   before: seq<Event>, finalLog: seq<Event>, finalOutcome: RunOutcome)
    requires |logs| == |outcomes| && k < |outcomes| && outcomes[k].Completed?
    requires RunFrom(outcomes, k, results) == finalOutcome
    requires before + RunEvents(logs, outcomes, k) == finalLog
    ensures RunFrom(outcomes, k + 1, results + [outcomes[k].result]) == finalOutcome
    ensures (before + logs[k]) + RunEvents(logs, outcomes, k + 1) == finalLog
  {
    assert RunEvents(logs, outcomes, k) == logs[k] + RunEvents(logs, outcomes, k + 1);
  }

  /** A trial that throws ends the main loop with its exception. */
  lemma RunStop(outcomes: seq<TrialOutcome>, logs: seq<seq<Event>>, k: nat, results: seq<TrialResult>,
                before: seq<Event>, finalLog: seq<Event>, finalOutcome: RunOutcome)
    requires |logs| == |outcomes| && k < |outcomes| && outcomes[k].Failed?
    requires RunFrom(outcomes, k, results) == finalOutcome
    requires before + RunEvents(logs, outcomes, k) == finalLog
    ensures Aborted(outcomes[k].error, results) == finalOutcome
    ensures before + logs[k] == finalLog
  {
    assert RunEvents(logs, outcomes, k) == logs[k];
  }

  /** Each trial that completes reports the browser and tab count it was run with. */
  ghost predicate FollowsSchedule(outcomes: seq<TrialOutcome>) {
    |outcomes| == |SCHEDULE|
    && forall k :: 0 <= k < |outcomes| && outcomes[k].Completed? ==>
         outcomes[k].result.browser == SCHEDULE[k].kind && outcomes[k].result.tabs == SCHEDULE[k].tabs
  }

  lemma OutcomesFollowSchedule(scripts: nat -> TrialScript)
    ensures FollowsSchedule(Outcomes(scripts))
  {
    forall k | 0 <= k < |SCHEDULE| && Outcomes(scripts)[k].Completed?
      ensures Outcomes(scripts)[k].result.browser == SCHEDULE[k].kind
      ensures Outcomes(scripts)[k].result.tabs == SCHEDULE[k].tabs
    {
      ScheduleTabsPositive(k);
      CompletesIffNothingThrows(SCHEDULE[k].kind, SCHEDULE[k].tabs, scripts(k));
    }
  }

  /** The calls `cleanupAndExit` makes: close the browser if set, then the
      server if set, the first close that throws ending the closing. */
  function CleanupEvents(browser: Option<BrowserHandle>, server: Option<ServerHandle>, browserCloseOk: bool): seq<Event> {
    if browser.Some? && !browserCloseOk then [CloseBrowser]
    else (if browser.Some? then [CloseBrowser] else []) + (if server.Some? then [CloseServer] else [])
  }

  /** A run that finishes has one result per trial, in schedule order, the
      CSV made of them, and exit code 0. */
  lemma {:induction false} RunFromFinished(outcomes: seq<TrialOutcome>, k: nat, done: seq<TrialResult>)
    requires FollowsSchedule(outcomes)
    requires k <= |outcomes| && |done| == k
    requires forall i :: 0 <= i < k ==> done[i].browser == SCHEDULE[i].kind && done[i].tabs == SCHEDULE[i].tabs
    requires RunFrom(outcomes, k, done).Finished?
    ensures var out := RunFrom(outcomes, k, done);
      |out.results| == |SCHEDULE| && out.results[..k] == done
      && (forall i :: 0 <= i < |SCHEDULE| ==>
            out.results[i].browser == SCHEDULE[i].kind && out.results[i].tabs == SCHEDULE[i].tabs)
      && out.csv == CsvText(out.results) && out.exitCode == 0
    decreases |outcomes| - k
  {
    if k < |outcomes| {
      var r := outcomes[k].result;
      RunFromFinished(outcomes, k + 1, done + [r]);
      var out := RunFrom(outcomes, k, done);
      assert out.results[..k] == out.results[..k + 1][..k];
    }
  }

  /** The results of a finished run are the records the trials returned, in order. */
  lemma {:induction false} RunFromResults(outcomes: seq<TrialOutcome>, k: nat, done: seq<TrialResult>)
    requires k <= |outcomes| && |done| == k
    requires RunFrom(outcomes, k, done).Finished?
    ensures var out := RunFrom(outcomes, k, done);
      |out.results| == |outcomes| && out.results[..k] == done
      && forall i :: k <= i < |outcomes| ==> outcomes[i] == Completed(out.results[i])
    decreases |outcomes| - k
  {
    if k < |outcomes| {
      RunFromResults(outcomes, k + 1, done + [outcomes[k].result]);
      var out := RunFrom(outcomes, k, done);
      assert out.results[..k] == out.results[..k + 1][..k];
      assert out.results[k] == out.results[..k + 1][k];
    }
  }

  /** The results of a finished main program are the records its trials returned. */
  lemma MainFinishedResults(scripts: nat -> TrialScript)
    requires Main(scripts).Finished?
    ensures |Main(scripts).results| == |SCHEDULE|
    ensures forall k :: 0 <= k < |SCHEDULE| ==> OutcomeOf(scripts, k) == Completed(Main(scripts).results[k])
  {
    RunFromResults(Outcomes(scripts), 0, []);
    assert forall k :: 0 <= k < |SCHEDULE| ==> Outcomes(scripts)[k] == OutcomeOf(scripts, k);
  }

  /** The main loop runs to the end exactly when every trial from `k` on completes. */
  lemma {:induction false} RunFromFinishes(outcomes: seq<TrialOutcome>, k: nat, done: seq<TrialResult>)
    requires k <= |outcomes|
    ensures RunFrom(outcomes, k, done).Finished? <==> forall i :: k <= i < |outcomes| ==> outcomes[i].Completed?
    decreases |outcomes| - k
  {
    if k < |outcomes| && outcomes[k].Completed? {
      RunFromFinishes(outcomes, k + 1, done + [outcomes[k].result]);
    }
  }

  /** The main program finishes exactly when every trial of the schedule completes. */
  lemma MainFinishes(scripts: nat -> TrialScript)
    ensures Main(scripts).Finished? <==> forall k :: 0 <= k < |SCHEDULE| ==> OutcomeOf(scripts, k).Completed?
  {
    RunFromFinishes(Outcomes(scripts), 0, []);
    assert forall k :: 0 <= k < |SCHEDULE| ==> Outcomes(scripts)[k] == OutcomeOf(scripts, k);
  }

  /** A run that finishes has 8 results: Chromium then Firefox for 1, 5, 10
      and 20 tabs (`MainFinishedResults`: the records the trials returned),
      and its CSV has a header line and one line per result. */
  lemma MainFinishedShape(scripts: nat -> TrialScript)
    requires Main(scripts).Finished?
    ensures |Main(scripts).results| == 2 * |TABS_SET| && Main(scripts).exitCode == 0
    ensures forall k :: 0 <= k < |TABS_SET| ==>
      Main(scripts).results[2 * k].browser == Chromium && Main(scripts).results[2 * k].tabs == TABS_SET[k]
      && Main(scripts).results[2 * k + 1].browser == Firefox && Main(scripts).results[2 * k + 1].tabs == TABS_SET[k]
    ensures Split(Main(scripts).csv, '\n') == [Header] + Rows(Main(scripts).results)
  {
    OutcomesFollowSchedule(scripts);
    RunFromFinished(Outcomes(scripts), 0, []);
    ScheduleFollowsTabsSet();
    CsvLines(Main(scripts).results);
  }

  /** A run that aborts stops at the first trial that throws: the trials
      before it all completed, in order, and its exception is the run's. */
  lemma {:induction false} RunFromAborted(outcomes: seq<TrialOutcome>, k: nat, done: seq<TrialResult>)
    requires k <= |outcomes| && |done| == k
    requires RunFrom(outcomes, k, done).Aborted?
    ensures var out := RunFrom(outcomes, k, done);
      k <= |out.completed| < |outcomes| && out.completed[..k] == done
      && outcomes[|out.completed|] == Failed(out.error)
      && forall i :: k <= i < |out.completed| ==> outcomes[i] == Completed(out.completed[i])
    decreases |outcomes| - k
  {
    if outcomes[k].Completed? {
      RunFromAborted(outcomes, k + 1, done + [outcomes[k].result]);
      var out := RunFrom(outcomes, k, done);
      assert out.completed[..k] == out.completed[..k + 1][..k];
    }
  }

  /** A main program that aborts does so with the exception of the first
      trial that throws, after the results of those before it (`MainFinishes`
      gives the converse). */
  lemma MainAborted(scripts: nat -> TrialScript)
    requires Main(scripts).Aborted?
    ensures var n := |Main(scripts).completed|;
      n < |SCHEDULE| && OutcomeOf(scripts, n) == Failed(Main(scripts).error)
      && forall i :: 0 <= i < n ==> OutcomeOf(scripts, i) == Completed(Main(scripts).completed[i])
  {
    RunFromAborted(Outcomes(scripts), 0, []);
  }

  /** A reference after the `finally` block: `null` once both closes
      succeed, else what it was. */
  function Cleared<T>(s: TrialScript, before: Option<T>): Option<T> {
    if s.browserCloseOk && s.serverCloseOk then None else before
  }

  /** `activeBrowserServer` after `measure`: unchanged when the launch
      throws, else the launched server, cleared by a `finally` that ran and
      succeeded. */
  function ServerAfter(kind: BrowserKind, s: TrialScript, before: Option<ServerHandle>): Option<ServerHandle> {
    if !s.launchOk then before
    else if !s.connectOk then Some(ServerHandle(kind, s.rootPid))
    else Cleared(s, Some(ServerHandle(kind, s.rootPid)))
  }

  /** `activeBrowser` after `measure`: unchanged when the launch or the
      connect throws, else the connected browser, cleared by a `finally` that
      succeeded. */
  function BrowserAfter(kind: BrowserKind, s: TrialScript, before: Option<BrowserHandle>): Option<BrowserHandle> {
    if !s.launchOk || !s.connectOk then before
    else Cleared(s, Some(BrowserHandle(kind)))
  }

  /** After a trial that got as far as connecting, both references are
      `null` exactly when both closes succeeded, and neither is `null`
      otherwise; after a failed `connect` the launched server stays referenced. */
  lemma RefsAfterTrial(kind: BrowserKind, s: TrialScript, browser: Option<BrowserHandle>, server: Option<ServerHandle>)
    ensures s.launchOk && s.connectOk ==>
      ((BrowserAfter(kind, s, browser).None? && ServerAfter(kind, s, server).None?) <==> s.browserCloseOk && s.serverCloseOk)
      && (BrowserAfter(kind, s, browser).None? <==> ServerAfter(kind, s, server).None?)
    ensures s.launchOk && !s.connectOk ==> ServerAfter(kind, s, server) == Some(ServerHandle(kind, s.rootPid))
  {
  }

  /** The module-level state of the benchmark: the browser and the server of
      the trial in progress (`null` is `None`), and the driver calls made so far. */
  class Benchmark {
    var activeBrowser: Option<BrowserHandle>
    var activeBrowserServer: Option<ServerHandle>
    var log: seq<Event>

    constructor ()
      ensures activeBrowser == None && activeBrowserServer == None && log == []
    {
      activeBrowser := None;
      activeBrowserServer := None;
      log := [];
    }

    /** `measure(browserType, browserName, tabs)`. The server is launched and
        the browser connected before the `try`; the `finally` closes the
        browser, then the server, and only once both closes succeed sets
        both references back to `null`. */
    method Measure(kind: BrowserKind, tabs: nat, s: TrialScript) returns (outcome: TrialOutcome)
      requires tabs > 0
      modifies this
      ensures log == old(log) + TrialEvents(kind, tabs, s)
      ensures outcome == TrialOutcomeOf(kind, tabs, s)
      ensures activeBrowserServer == ServerAfter(kind, s, old(activeBrowserServer))
      ensures activeBrowser == BrowserAfter(kind, s, old(activeBrowser))
    {
      log := log + [LaunchServer(kind)];
      if !s.launchOk {
        return Failed(LaunchError);
      }
      activeBrowserServer := Some(ServerHandle(kind, s.rootPid));
      ghost var launched := log;
      outcome := ConnectAndRun(kind, tabs, s);
      assert log == old(log) + ([LaunchServer(kind)] + LaunchedEvents(kind, tabs, s)) by {
        assert launched == old(log) + [LaunchServer(kind)];
      }
    }

    /** `measure` after a successful launch: `connect`, then the `try` and
        `finally` blocks. */
    method ConnectAndRun(kind: BrowserKind, tabs: nat, s: TrialScript) returns (outcome: TrialOutcome)
      requires tabs > 0
      modifies this
      ensures !s.connectOk ==> log == old(log) + [Connect(kind)]
      ensures !s.connectOk ==> outcome == Failed(ConnectError)
      ensures !s.connectOk ==> activeBrowserServer == old(activeBrowserServer) && activeBrowser == old(activeBrowser)
      ensures s.connectOk ==> log == old(log) + ([Connect(kind)] + (TryEvents(s, tabs) + FinallyEvents(s)))
      ensures s.connectOk ==> outcome == FinallyOutcome(s, TryOutcome(kind, tabs, s))
      ensures s.connectOk ==> activeBrowserServer == Cleared(s, old(activeBrowserServer))
      ensures s.connectOk ==> activeBrowser == Cleared(s, Some(BrowserHandle(kind)))
    {
      log := log + [Connect(kind)];
      if !s.connectOk {
        return Failed(ConnectError);
      }
      activeBrowser := Some(BrowserHandle(kind));
      outcome := TryFinally(kind, tabs, s);
    }

    /** The `try` block of `measure`, then its `finally` block. */
    method TryFinally(kind: BrowserKind, tabs: nat, s: TrialScript) returns (outcome: TrialOutcome)
      requires tabs > 0
      modifies this
      ensures log == old(log) + (TryEvents(s, tabs) + FinallyEvents(s))
      ensures outcome == FinallyOutcome(s, TryOutcome(kind, tabs, s))
      ensures activeBrowserServer == Cleared(s, old(activeBrowserServer))
      ensures activeBrowser == Cleared(s, old(activeBrowser))
    {
      var tried, events := TryBlock(kind, tabs, s);
      log := log + events;
      var fault := Teardown(s);
      outcome := if fault.Some? then Failed(fault.value) else tried;
    }

    /** The `finally` block: `activeBrowser.close()`, then
        `activeBrowserServer.close()`, then both references set to `null`;
        a close that throws ends the block with its exception. */
    method Teardown(s: TrialScript) returns (fault: Option<Error>)
      modifies this
      ensures log == old(log) + FinallyEvents(s)
      ensures fault == if !s.browserCloseOk then Some(BrowserCloseError)
        else if !s.serverCloseOk then Some(ServerCloseError)
        else None
      ensures activeBrowserServer == Cleared(s, old(activeBrowserServer))
      ensures activeBrowser == Cleared(s, old(activeBrowser))
    {
      log := log + [CloseBrowser];
      if !s.browserCloseOk {
        return Some(BrowserCloseError);
      }
      log := log + [CloseServer];
      if !s.serverCloseOk {
        return Some(ServerCloseError);
      }
      activeBrowser := None;
      activeBrowserServer := None;
      return None;
    }

    /** `cleanupAndExit(code)`: close the browser if set, then the server if
        set; an exception from either close is swallowed, and the references
        are left as they are. Returns the exit code. */
    method CleanupAndExit(code: int, browserCloseOk: bool) returns (exitCode: int)
      modifies this
      ensures exitCode == code
      ensures activeBrowser == old(activeBrowser) && activeBrowserServer == old(activeBrowserServer)
      ensures log == old(log) + CleanupEvents(old(activeBrowser), old(activeBrowserServer), browserCloseOk)
    {
      var calls: seq<Event> := [];
      if activeBrowser.Some? {
        calls := calls + [CloseBrowser];
      }
      if activeBrowser.Some? && !browserCloseOk {
        log := log + calls;
        return code;
      }
      if activeBrowserServer.Some? {
        calls := calls + [CloseServer];
      }
      log := log + calls;
      return code;
    }

    /** Trial `k` of the main loop: `measure` with its browser and tab count. */
    method RunTrial(scripts: nat -> TrialScript, k: nat) returns (o: TrialOutcome)
      requires k < |SCHEDULE|
      modifies this
      ensures o == Outcomes(scripts)[k] && log == old(log) + Logs(scripts)[k]
      ensures activeBrowserServer == ServerAfter(SCHEDULE[k].kind, scripts(k), old(activeBrowserServer))
      ensures activeBrowser == BrowserAfter(SCHEDULE[k].kind, scripts(k), old(activeBrowser))
      ensures o.Completed? ==> activeBrowser == None && activeBrowserServer == None
    {
      ScheduleTabsPositive(k);
      var c := SCHEDULE[k];
      o := Measure(c.kind, c.tabs, scripts(k));
      CompletesIffNothingThrows(c.kind, c.tabs, scripts(k));
    }

    /** The main program: every trial of the schedule, stopping at the first
        that throws; when all complete, the CSV is built and
        `cleanupAndExit(0)` runs with both references already `null`. */
    method Run(scripts: nat -> TrialScript) returns (outcome: RunOutcome)
      modifies this
      ensures outcome == Main(scripts)
      ensures log == old(log) + MainEvents(scripts)
      ensures outcome.Finished? ==> activeBrowser == None && activeBrowserServer == None
      ensures outcome.Aborted? ==> |outcome.completed| < |SCHEDULE|
      ensures outcome.Aborted? ==>
        var k := |outcome.completed|;
        activeBrowserServer == ServerAfter(SCHEDULE[k].kind, scripts(k), if k == 0 then old(activeBrowserServer) else None)
        && activeBrowser == BrowserAfter(SCHEDULE[k].kind, scripts(k), if k == 0 then old(activeBrowser) else None)
    {
      ghost var outcomes := Outcomes(scripts);
      ghost var logs := Logs(scripts);
      ghost var finalLog := old(log) + RunEvents(logs, outcomes, 0);
      ghost var finalOutcome := RunFrom(outcomes, 0, []);
      var results: seq<TrialResult> := [];
      var k := 0;
      while k < |SCHEDULE|
        invariant 0 <= k <= |SCHEDULE| && |results| == k
        invariant RunFrom(outcomes, k, results) == finalOutcome
        invariant log + RunEvents(logs, outcomes, k) == finalLog
        invariant k > 0 ==> activeBrowser == None && activeBrowserServer == None
        invariant k == 0 ==> activeBrowser == old(activeBrowser) && activeBrowserServer == old(activeBrowserServer)
      {
        ghost var before := log;
        var o := RunTrial(scripts, k);
        if o.Failed? {
          RunStop(outcomes, logs, k, results, before, finalLog, finalOutcome);
          return Aborted(o.error, results);
        }
        RunAdvance(outcomes, logs, k, results, before, finalLog, finalOutcome);
        results := results + [o.result];
        k := k + 1;
      }
      var csv := CsvText(results);
      var code := CleanupAndExit(0, true);
      assert CleanupEvents(None, None, true) == [];
      return Finished(results, csv, code);
    }
  }

  /** `cleanupAndExit` closes the server only when no browser is set or the
      browser closed without throwing, and closes each reference it finds at
      most once; with neither set it makes no call. */
  lemma CleanupClosesWhatIsSet(browser: Option<BrowserHandle>, server: Option<ServerHandle>, browserCloseOk: bool)
    ensures var ev := CleanupEvents(browser, server, browserCloseOk);
      (CloseBrowser in ev <==> browser.Some?)
      && (CloseServer in ev <==> server.Some? && (browser.None? || browserCloseOk))
      && Count(ev, CloseBrowser) <= 1 && Count(ev, CloseServer) <= 1
      && (browser.None? && server.None? ==> ev == [])
  {
    var ev := CleanupEvents(browser, server, browserCloseOk);
    var none: seq<Event> := [];
    if browser.Some? && (!browserCloseOk || server.None?) {
      assert ev == [CloseBrowser] && ev[1..] == none;
    } else if browser.Some? {
      assert ev == [CloseBrowser, CloseServer] && ev[1..] == [CloseServer] && ev[1..][1..] == none;
      assert Count(ev[1..], CloseBrowser) == 0 && Count(ev[1..], CloseServer) == 1;
    } else if server.Some? {
      assert ev == [CloseServer] && ev[1..] == none;
    }
  }

  /** A failed `connect` leaves the launched server referenced and never
      closed by the trial: the server's close is not among its calls. */
  lemma ConnectFailureLeavesServer(kind: BrowserKind, tabs: nat, s: TrialScript)
    requires s.launchOk && !s.connectOk
    ensures TrialEvents(kind, tabs, s) == [LaunchServer(kind), Connect(kind)]
  {
  }
}
