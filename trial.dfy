/**
 * One benchmark trial, `measure(browserType, browserName, tabs)`, as a pure
 * specification: what the automation driver and procfs answer is a
 * `TrialScript`, and the trial's observable behaviour is the sequence of
 * driver calls and memory samples it makes (`TrialEvents`) and the value it
 * returns or the error it throws (`TrialOutcomeOf`). The stateful method
 * that runs it over the module-level references is `Lab.Benchmark.Measure`.
 */
module Trial {
  import opened Optional
  import opened ProcessTree
  import opened MemorySampler

  datatype BrowserKind = Chromium | Firefox

  /** The `browserName` the main loop passes for each browser type. */
  function BrowserName(kind: BrowserKind): string {
    match kind
    case Chromium => "chromium"
    case Firefox => "firefox"
  }

  /** The pages opened in turn, one per tab. */
  const URLS: seq<string> := [
    "about:blank",
    "https://www.wikipedia.org/",
    "https://news.ycombinator.com/",
    "https://www.example.com/"
  ]

  /** The tab counts, in the order the main loop runs them. */
  const TABS_SET: seq<nat> := [1, 5, 10, 20]

  /** `URLS[i % URLS.length]`: the page tab `i` navigates to. */
  function TabUrl(i: nat): string {
    URLS[i % |URLS|]
  }

  /** The rotation wraps: tab `i` and tab `i + 4` get the same page, and the
      first four tabs get the four pages in list order. */
  lemma TabUrlRotation(i: nat)
    ensures TabUrl(i + |URLS|) == TabUrl(i)
    ensures i < |URLS| ==> TabUrl(i) == URLS[i]
  {
    assert (i + |URLS|) % |URLS| == i % |URLS|;
  }

  /** What procfs shows at one instant: the children files and the status files. */
  datatype ProcSnapshot = ProcSnapshot(children: ChildrenFiles, status: map<Pid, string>)

  /** `sumRssKb(getProcessTree(rootPid))` against one snapshot. */
  function SampleKb(snap: ProcSnapshot, root: Pid): nat {
    RssTotal(snap.status, ProcessTree.ProcessTree(ChildrenRelation(snap.children), root))
  }

  /** What the automation driver and procfs answer during one trial: whether
      each driver call succeeds (a `false` or a listed tab index means that
      call throws), the server's pid, and the procfs snapshots seen by the
      baseline and the final sample. */
  datatype TrialScript = TrialScript(
    launchOk: bool,
    rootPid: Pid,
    connectOk: bool,
    contextOk: bool,
    newPageFails: set<nat>,
    gotoFails: set<nat>,
    baseline: ProcSnapshot,
    final: ProcSnapshot,
    browserCloseOk: bool,
    serverCloseOk: bool)

  /** The calls a trial makes on the driver, and its two memory samples. */
  datatype Event =
    | LaunchServer(kind: BrowserKind)
    | Connect(kind: BrowserKind)
    | SampleRss(kb: nat)
    | NewContext
    | NewPage(tab: nat)
    | Goto(tab: nat, url: string)
    | CloseBrowser
    | CloseServer

  /** The exception a trial ends with, by the call that threw it. */
  datatype Error =
    | LaunchError
    | ConnectError
    | ContextError
    | PageError(tab: nat)
    | NavigationError(tab: nat)
    | BrowserCloseError
    | ServerCloseError

  /** An opened tab and the page it was navigated to. */
  datatype Page = Page(tab: nat, url: string)

  /** The record `measure` returns. The three figures are in tenths of a
      megabyte: the number `+(x).toFixed(1)` denotes, times ten. */
  datatype TrialResult = TrialResult(browser: BrowserKind, tabs: nat, baselineMb: int, totalMb: int, perTabMb: int)

  datatype TrialOutcome = Completed(result: TrialResult) | Failed(error: Error)

  /** `x.toFixed(1)` for the exact value `x = num / den`, in tenths: the
      integer `n` nearest to `10 * x`, a tie going away from zero. */
  function RoundTenths(num: int, den: int): (n: int)
    requires den > 0
    ensures num >= 0 ==> -den < 2 * (n * den - 10 * num) <= den
    ensures num < 0 ==> -den <= 2 * (n * den - 10 * num) < den
    ensures num >= 0 ==> n >= 0
    ensures num <= 0 ==> n <= 0
  {
    if num >= 0 then
      var n := (20 * num + den) / (2 * den);
      DivBounds(20 * num + den, den, n);
      n
    else
      var m := (-20 * num + den) / (2 * den);
      DivBounds(-20 * num + den, den, m);
      -m
  }

  /** The quotient by `2 * den`, bounded as a product with `den`. */
  lemma DivBounds(a: int, den: int, q: int)
    requires den > 0 && q == a / (2 * den)
    ensures 2 * (q * den) <= a < 2 * (q * den) + 2 * den
  {
    var d := 2 * den;
    assert d * q <= a < d * q + d;
    assert d * q == 2 * (q * den);
  }

  /** `+(kb / 1024).toFixed(1)`. Dividing by 1024 is exact in binary floating
      point, so rounding the exact quotient is what the source computes. */
  function MbTenths(kb: nat): (t: int)
    ensures t >= 0 && -1024 < 2 * (1024 * t - 10 * kb) <= 1024
  {
    RoundTenths(kb, 1024)
  }

  /** A larger sample never gives a smaller figure. */
  lemma MbTenthsMonotone(a: nat, b: nat)
    ensures a <= b ==> MbTenths(a) <= MbTenths(b)
  {
  }

  /** `+((totalKb - baselineKb) / 1024 / tabs).toFixed(1)`, on the exact quotient. */
  function PerTabTenths(baselineKb: nat, totalKb: nat, tabs: nat): (t: int)
    requires tabs > 0
    ensures baselineKb <= totalKb ==> t >= 0 && -(1024 * tabs) < 2 * (t * (1024 * tabs) - 10 * (totalKb - baselineKb)) <= 1024 * tabs
    ensures totalKb < baselineKb ==> t <= 0 && -(1024 * tabs) <= 2 * (t * (1024 * tabs) - 10 * (totalKb - baselineKb)) < 1024 * tabs
  {
    RoundTenths(totalKb - baselineKb, 1024 * tabs)
  }

  /** The result `measure` returns, from the two samples: the browser and tab
      count it was run with, and the three rounded figures, which keep the
      order of the samples. */
  function MakeResult(kind: BrowserKind, tabs: nat, baselineKb: nat, totalKb: nat): (r: TrialResult)
    requires tabs > 0
    ensures r.browser == kind && r.tabs == tabs && r.baselineMb >= 0 && r.totalMb >= 0
    ensures baselineKb <= totalKb ==> r.baselineMb <= r.totalMb && r.perTabMb >= 0
    ensures totalKb <= baselineKb ==> r.totalMb <= r.baselineMb && r.perTabMb <= 0
  {
    MbTenthsMonotone(baselineKb, totalKb);
    MbTenthsMonotone(totalKb, baselineKb);
    TrialResult(kind, tabs, MbTenths(baselineKb), MbTenths(totalKb), PerTabTenths(baselineKb, totalKb, tabs))
  }

  /** What happens when tab `i` opens: `newPage` throws, `goto` throws, or neither. */
  function TabStep(s: TrialScript, i: nat): Option<Error> {
    if i in s.newPageFails then Some(PageError(i))
    else if i in s.gotoFails then Some(NavigationError(i))
    else None
  }

  function TabStepEvents(s: TrialScript, i: nat): seq<Event> {
    if i in s.newPageFails then [NewPage(i)] else [NewPage(i), Goto(i, TabUrl(i))]
  }

  /** The driver calls of the tab loop from tab `i` on, stopping at the first throw. */
  function TabEvents(s: TrialScript, i: nat, tabs: nat): seq<Event>
    decreases tabs - i
  {
    if i >= tabs then []
    else TabStepEvents(s, i) + (if TabStep(s, i).Some? then [] else TabEvents(s, i + 1, tabs))
  }

  /** The exception the tab loop ends with from tab `i` on, if any. */
  function TabFault(s: TrialScript, i: nat, tabs: nat): Option<Error>
    decreases tabs - i
  {
    if i >= tabs then None
    else if TabStep(s, i).Some? then TabStep(s, i)
    else TabFault(s, i + 1, tabs)
  }

  /** With no throw, tab `i` is opened and then navigated to `URLS[i % 4]`, in tab order. */
  lemma {:induction false} TabEventsWithoutFault(s: TrialScript, i: nat, tabs: nat)
    requires i <= tabs && TabFault(s, i, tabs).None?
    ensures |TabEvents(s, i, tabs)| == 2 * (tabs - i)
    ensures forall k :: i <= k < tabs ==>
      TabEvents(s, i, tabs)[2 * (k - i)] == NewPage(k) && TabEvents(s, i, tabs)[2 * (k - i) + 1] == Goto(k, TabUrl(k))
    decreases tabs - i
  {
    if i < tabs {
      TabEventsWithoutFault(s, i + 1, tabs);
    }
  }

  /** The loop ends with the error of the first tab whose step throws. */
  lemma {:induction false} TabFaultIsFirst(s: TrialScript, i: nat, tabs: nat)
    requires TabFault(s, i, tabs).Some?
    ensures exists k :: i <= k < tabs && TabStep(s, k) == TabFault(s, i, tabs) && forall j :: i <= j < k ==> TabStep(s, j).None?
    decreases tabs - i
  {
    if TabStep(s, i).Some? {
      assert i < tabs && TabStep(s, i) == TabFault(s, i, tabs);
    } else {
      TabFaultIsFirst(s, i + 1, tabs);
    }
  }

  /** The loop ends without an error exactly when no tab's step throws. */
  lemma {:induction false} TabFaultNone(s: TrialScript, i: nat, tabs: nat)
    ensures TabFault(s, i, tabs).None? <==> forall j :: i <= j < tabs ==> TabStep(s, j).None?
    decreases tabs - i
  {
    if i < tabs {
      TabFaultNone(s, i + 1, tabs);
    }
  }

  /** A tab whose step does not throw: its events are followed by the next tab's. */
  lemma TabAdvance(s: TrialScript, i: nat, tabs: nat, events: seq<Event>)
    requires i < tabs && TabStep(s, i).None?
    requires events + TabEvents(s, i, tabs) == TabEvents(s, 0, tabs)
    requires TabFault(s, i, tabs) == TabFault(s, 0, tabs)
    ensures (events + TabStepEvents(s, i)) + TabEvents(s, i + 1, tabs) == TabEvents(s, 0, tabs)
    ensures TabFault(s, i + 1, tabs) == TabFault(s, 0, tabs)
  {
    assert TabEvents(s, i, tabs) == TabStepEvents(s, i) + TabEvents(s, i + 1, tabs);
  }

  /** A tab whose step throws: its events end the loop's, and its error is the loop's. */
  lemma TabStop(s: TrialScript, i: nat, tabs: nat, events: seq<Event>)
    requires i < tabs && TabStep(s, i).Some?
    requires events + TabEvents(s, i, tabs) == TabEvents(s, 0, tabs)
    requires TabFault(s, i, tabs) == TabFault(s, 0, tabs)
    ensures events + TabStepEvents(s, i) == TabEvents(s, 0, tabs)
    ensures TabStep(s, i) == TabFault(s, 0, tabs)
  {
    assert TabEvents(s, i, tabs) == TabStepEvents(s, i);
  }

  /** The tab loop of `measure`: for each tab, `newPage`, then `goto` the
      rotated URL, then keep the page. A throw ends the loop. */
  method OpenTabs(s: TrialScript, tabs: nat) returns (pages: seq<Page>, events: seq<Event>, fault: Option<Error>)
    ensures events == TabEvents(s, 0, tabs)
    ensures fault == TabFault(s, 0, tabs)
    ensures forall i :: 0 <= i < |pages| ==> pages[i] == Page(i, TabUrl(i))
    ensures fault.None? ==> |pages| == tabs
    ensures fault.Some? ==> |pages| < tabs && TabStep(s, |pages|) == fault
  {
    pages, events, fault := [], [], None;
    var i := 0;
    while i < tabs && fault.None?
      invariant 0 <= i <= tabs && |pages| == i
      invariant forall j :: 0 <= j < i ==> pages[j] == Page(j, TabUrl(j))
      invariant fault.None? ==> events + TabEvents(s, i, tabs) == TabEvents(s, 0, tabs)
      invariant fault.None? ==> TabFault(s, i, tabs) == TabFault(s, 0, tabs)
      invariant fault.Some? ==> i < tabs && events == TabEvents(s, 0, tabs) && TabStep(s, i) == fault == TabFault(s, 0, tabs)
      decreases tabs - i, if fault.None? then 1 else 0
    {
      ghost var before := events;
      events := events + [NewPage(i)];
      if i in s.newPageFails {
        TabStop(s, i, tabs, before);
        fault := Some(PageError(i));
      } else {
        var url := TabUrl(i);
        events := events + [Goto(i, url)];
        assert events == before + TabStepEvents(s, i);
        if i in s.gotoFails {
          TabStop(s, i, tabs, before);
          fault := Some(NavigationError(i));
        } else {
          TabAdvance(s, i, tabs, before);
          pages := pages + [Page(i, url)];
          i := i + 1;
        }
      }
    }
  }

  /** The events of the `try` block: the baseline sample, `newContext`, the
      tab loop, and the final sample when nothing threw. */
  function TryEvents(s: TrialScript, tabs: nat): seq<Event> {
    [SampleRss(SampleKb(s.baseline, s.rootPid)), NewContext]
    + if !s.contextOk then []
      else TabEvents(s, 0, tabs) + if TabFault(s, 0, tabs).Some? then [] else [SampleRss(SampleKb(s.final, s.rootPid))]
  }

  /** The `finally` block: close the browser, then, if that did not throw, the server. */
  function FinallyEvents(s: TrialScript): seq<Event> {
    [CloseBrowser] + if s.browserCloseOk then [CloseServer] else []
  }

  /** Every driver call and sample of one trial, in order. Launching and
      connecting happen before the `try`, so when either throws no teardown runs. */
  function TrialEvents(kind: BrowserKind, tabs: nat, s: TrialScript): seq<Event> {
    [LaunchServer(kind)] + if !s.launchOk then [] else LaunchedEvents(kind, tabs, s)
  }

  /** The calls after a successful launch: `connect`, then the `try` and `finally` blocks. */
  function LaunchedEvents(kind: BrowserKind, tabs: nat, s: TrialScript): seq<Event> {
    [Connect(kind)] + if !s.connectOk then [] else TryEvents(s, tabs) + FinallyEvents(s)
  }

  /** What the `try` block returns or throws. */
  function TryOutcome(kind: BrowserKind, tabs: nat, s: TrialScript): TrialOutcome
    requires tabs > 0
  {
    if !s.contextOk then Failed(ContextError)
    else match TabFault(s, 0, tabs)
      case Some(e) => Failed(e)
      case None => Completed(MakeResult(kind, tabs, SampleKb(s.baseline, s.rootPid), SampleKb(s.final, s.rootPid)))
  }

  /** `sumRssKb(getProcessTree(rootPid))`: walk the tree, then add up its figures. */
  method SampleRssKb(snap: ProcSnapshot, root: Pid) returns (kb: nat)
    ensures kb == SampleKb(snap, root)
  {
    var tree := GetProcessTree(snap.children, root);
    kb := SumRssKb(snap.status, tree);
  }

  /** The `try` block of `measure`: the baseline sample, `newContext`, the tab
      loop, the final sample and the result record. */
  method TryBlock(kind: BrowserKind, tabs: nat, s: TrialScript) returns (outcome: TrialOutcome, events: seq<Event>)
    requires tabs > 0
    ensures events == TryEvents(s, tabs)
    ensures outcome == TryOutcome(kind, tabs, s)
  {
    var baselineRssKb := SampleRssKb(s.baseline, s.rootPid);
    events := [SampleRss(baselineRssKb), NewContext];
    if !s.contextOk {
      return Failed(ContextError), events;
    }
    var pages, tabEvents, fault := OpenTabs(s, tabs);
    events := events + tabEvents;
    if fault.Some? {
      return Failed(fault.value), events;
    }
    var totalRssKb := SampleRssKb(s.final, s.rootPid);
    events := events + [SampleRss(totalRssKb)];
    outcome := Completed(MakeResult(kind, tabs, baselineRssKb, totalRssKb));
  }

  /** What `measure` returns or throws. */
  function TrialOutcomeOf(kind: BrowserKind, tabs: nat, s: TrialScript): TrialOutcome
    requires tabs > 0
  {
    if !s.launchOk then Failed(LaunchError) else LaunchedOutcome(kind, tabs, s)
  }

  /** What `measure` returns or throws after a successful launch. */
  function LaunchedOutcome(kind: BrowserKind, tabs: nat, s: TrialScript): TrialOutcome
    requires tabs > 0
  {
    if !s.connectOk then Failed(ConnectError) else FinallyOutcome(s, TryOutcome(kind, tabs, s))
  }

  /** A throw from a close in the `finally` block replaces whatever the `try`
      block returned or threw. */
  function FinallyOutcome(s: TrialScript, tried: TrialOutcome): TrialOutcome {
    if !s.browserCloseOk then Failed(BrowserCloseError)
    else if !s.serverCloseOk then Failed(ServerCloseError)
    else tried
  }

  /** How many times `e` occurs in `events`. */
  function Count(events: seq<Event>, e: Event): nat
    decreases |events|
  {
    if |events| == 0 then 0 else (if events[0] == e then 1 else 0) + Count(events[1..], e)
  }

  lemma {:induction false} CountAppend(a: seq<Event>, b: seq<Event>, e: Event)
    ensures Count(a + b, e) == Count(a, e) + Count(b, e)
    decreases |a|
  {
    if |a| == 0 {
      assert a + b == b;
    } else {
      CountAppend(a[1..], b, e);
      assert (a + b)[1..] == a[1..] + b;
    }
  }

  lemma {:induction false} CountAbsent(a: seq<Event>, e: Event)
    requires e !in a
    ensures Count(a, e) == 0
    decreases |a|
  {
    if |a| > 0 {
      CountAbsent(a[1..], e);
    }
  }

  lemma TabEventsHaveNoTeardown(s: TrialScript, i: nat, tabs: nat)
    ensures CloseBrowser !in TabEvents(s, i, tabs) && CloseServer !in TabEvents(s, i, tabs)
    decreases tabs - i
  {
    if i < tabs {
      TabEventsHaveNoTeardown(s, i + 1, tabs);
    }
  }

  lemma TryEventsHaveNoTeardown(s: TrialScript, tabs: nat)
    ensures CloseBrowser !in TryEvents(s, tabs) && CloseServer !in TryEvents(s, tabs)
  {
    TabEventsHaveNoTeardown(s, 0, tabs);
  }

  lemma FinallyCounts(s: TrialScript)
    ensures Count(FinallyEvents(s), CloseBrowser) == 1
    ensures Count(FinallyEvents(s), CloseServer) == if s.browserCloseOk then 1 else 0
  {
    var fin := FinallyEvents(s);
    var tail: seq<Event> := [];
    assert Count(tail, CloseBrowser) == 0 && Count(tail, CloseServer) == 0;
    if s.browserCloseOk {
      assert fin == [CloseBrowser, CloseServer] && fin[1..] == [CloseServer];
      assert [CloseServer][1..] == tail;
      assert Count([CloseServer], CloseServer) == 1 && Count([CloseServer], CloseBrowser) == 0;
    } else {
      assert fin == [CloseBrowser] && fin[1..] == tail;
    }
  }

  /** Once launch and connect succeed, the trial ends with its teardown:
      exactly one browser close, then one server close unless the browser
      close threw, and no close before. */
  lemma TeardownRunsOnce(kind: BrowserKind, tabs: nat, s: TrialScript)
    requires s.launchOk && s.connectOk
    ensures Count(TrialEvents(kind, tabs, s), CloseBrowser) == 1
    ensures Count(TrialEvents(kind, tabs, s), CloseServer) == if s.browserCloseOk then 1 else 0
    ensures var events := TrialEvents(kind, tabs, s);
      |FinallyEvents(s)| <= |events| && events[|events| - |FinallyEvents(s)|..] == FinallyEvents(s)
  {
    var body := [LaunchServer(kind), Connect(kind)] + TryEvents(s, tabs);
    var fin := FinallyEvents(s);
    var events := TrialEvents(kind, tabs, s);
    assert events == body + fin;
    assert events[|body|..] == fin;
    TryEventsHaveNoTeardown(s, tabs);
    CountAbsent(body, CloseBrowser);
    CountAbsent(body, CloseServer);
    CountAppend(body, fin, CloseBrowser);
    CountAppend(body, fin, CloseServer);
    FinallyCounts(s);
  }

  /** When `launchServer` or `connect` throws, nothing is closed: those calls
      precede the `try`, so its `finally` never runs. */
  lemma NoTeardownBeforeTry(kind: BrowserKind, tabs: nat, s: TrialScript)
    requires !s.launchOk || !s.connectOk
    ensures CloseBrowser !in TrialEvents(kind, tabs, s) && CloseServer !in TrialEvents(kind, tabs, s)
  {
  }

  /** Once connected, the baseline is sampled before the context and any tab opens. */
  lemma BaselineFirst(kind: BrowserKind, tabs: nat, s: TrialScript)
    requires s.launchOk && s.connectOk
    ensures TrialEvents(kind, tabs, s)[..4]
      == [LaunchServer(kind), Connect(kind), SampleRss(SampleKb(s.baseline, s.rootPid)), NewContext]
  {
  }

  /** Every navigation of a trial goes to its tab's rotated URL, for a tab below the tab count. */
  lemma NavigationsFollowRotation(kind: BrowserKind, tabs: nat, s: TrialScript)
    ensures forall e :: e in TrialEvents(kind, tabs, s) && e.Goto? ==> e.tab < tabs && e.url == TabUrl(e.tab)
  {
    TabEventsNavigate(s, 0, tabs);
  }

  lemma {:induction false} TabEventsNavigate(s: TrialScript, i: nat, tabs: nat)
    ensures forall e :: e in TabEvents(s, i, tabs) && e.Goto? ==> i <= e.tab < tabs && e.url == TabUrl(e.tab)
    decreases tabs - i
  {
    if i < tabs {
      TabEventsNavigate(s, i + 1, tabs);
    }
  }

  /** A trial returns a result exactly when no driver call throws, and the
      result holds the browser, the tab count and the two samples, rounded. */
  lemma CompletesIffNothingThrows(kind: BrowserKind, tabs: nat, s: TrialScript)
    requires tabs > 0
    ensures TrialOutcomeOf(kind, tabs, s).Completed?
      <==> s.launchOk && s.connectOk && s.contextOk && s.browserCloseOk && s.serverCloseOk
           && forall i :: 0 <= i < tabs ==> TabStep(s, i).None?
    ensures TrialOutcomeOf(kind, tabs, s).Completed? ==>
      var r := TrialOutcomeOf(kind, tabs, s).result;
      var b := SampleKb(s.baseline, s.rootPid);
      var t := SampleKb(s.final, s.rootPid);
      r.browser == kind && r.tabs == tabs && r.baselineMb == MbTenths(b) && r.totalMb == MbTenths(t)
      && r.perTabMb == PerTabTenths(b, t, tabs)
  {
    TabFaultNone(s, 0, tabs);
  }
}
