/**
 Address paging (data_loader.dart) as steps between awaits. Addresses are named by their
 index; requests and scans that are under way are part of the state.
 */
module Paging {
  import opened Prelude

  const LOAD_AMOUNT: nat := 5
  const STOP_AMOUNT: nat := 3

  /** A scan waits for the mempool, then looks at the addresses it copied, one after another. */
  datatype Scan = WaitingMempool | Scanning(copied: seq<nat>, next: nat, unused: nat, firstUnused: Option<nat>)

  /** What the callback is told at the end of a scan. */
  datatype Report = Report(addresses: seq<nat>, unused: nat, receive: Option<nat>, paging: bool)

  datatype State = State(
    addresses: seq<nat>,
    startIndex: nat,
    continuePaging: bool,
    loading: bool,
    fetches: seq<nat>,        // the start index each pending request asked for
    scans: seq<Scan>,
    reports: seq<Report>)

  /** What can happen next; `i` picks one of the pending requests or scans. */
  datatype Event =
    | Tick
    | AddressesArrive(i: nat)
    | FetchFails(i: nat)
    | MempoolArrives(i: nat)
    | InfoArrives(i: nat, hasTransactions: bool)
    | ScanEnds(i: nat)
    | ScanFails(i: nat)

  function Range(from: nat, n: nat): (r: seq<nat>)
    ensures |r| == n && forall i :: 0 <= i < n ==> r[i] == from + i
  {
    seq(n, i => from + i)
  }

  function Without<T>(s: seq<T>, i: nat): (r: seq<T>)
    requires i < |s|
    ensures |r| == |s| - 1
  {
    s[..i] + s[i + 1..]
  }

  // ----- the handlers -----

  function Initial(startIndex: nat): State {
    RequestPage(State([], startIndex, true, false, [], [], []))
  }

  /** `_loadAddresses` up to its await. */
  function RequestPage(s: State): State {
    s.(fetches := s.fetches + [s.startIndex])
  }

  /** `_loadAddressInfoForAddresses` up to its first await. */
  function StartScan(s: State): State {
    if s.addresses == [] || s.loading then s
    else s.(loading := true, scans := s.scans + [WaitingMempool])
  }

  function ReceivePage(s: State, i: nat): State
    requires i < |s.fetches|
  {
    StartScan(s.(addresses := s.addresses + Range(s.fetches[i], LOAD_AMOUNT),
                 startIndex := s.startIndex + LOAD_AMOUNT,
                 fetches := Without(s.fetches, i)))
  }

  /** One address looked at. */
  function Look(scan: Scan, hasTransactions: bool): Scan
    requires scan.Scanning? && scan.next < |scan.copied|
  {
    if hasTransactions then scan.(next := scan.next + 1)
    else Scanning(scan.copied, scan.next + 1, scan.unused + 1,
                  if scan.firstUnused.None? then Some(scan.copied[scan.next]) else scan.firstUnused)
  }

  /** The end of a scan: another page, or no more paging; then the callback. */
  function Finish(s: State, i: nat): State
    requires i < |s.scans| && s.scans[i].Scanning?
  {
    var scan := s.scans[i];
    var paged :=
      if !s.continuePaging then s
      else if scan.unused < STOP_AMOUNT then RequestPage(s)
      else s.(continuePaging := false);
    paged.(loading := false,
           scans := Without(s.scans, i),
           reports := s.reports + [Report(scan.copied, scan.unused, scan.firstUnused, paged.continuePaging)])
  }

  predicate Enabled(s: State, e: Event) {
    match e
    case Tick => true
    case AddressesArrive(i) => i < |s.fetches|
    case FetchFails(i) => i < |s.fetches|
    case MempoolArrives(i) => i < |s.scans| && s.scans[i].WaitingMempool?
    case InfoArrives(i, _) => i < |s.scans| && s.scans[i].Scanning? && s.scans[i].next < |s.scans[i].copied|
    case ScanEnds(i) => i < |s.scans| && s.scans[i].Scanning? && s.scans[i].next == |s.scans[i].copied|
    case ScanFails(i) => i < |s.scans|
  }

  /** One event; what is not enabled changes nothing. A failed scan never clears the loading flag. */
  function Step(s: State, e: Event): State {
    if !Enabled(s, e) then s
    else
      match e
      case Tick => StartScan(s)
      case AddressesArrive(i) => ReceivePage(s, i)
      case FetchFails(i) => s.(fetches := Without(s.fetches, i))
      case MempoolArrives(i) => s.(scans := s.scans[i := Scanning(s.addresses, 0, 0, None)])
      case InfoArrives(i, hasTransactions) => s.(scans := s.scans[i := Look(s.scans[i], hasTransactions)])
      case ScanEnds(i) => Finish(s, i)
      case ScanFails(i) => s.(scans := Without(s.scans, i))
  }

  /** The state after a run of events. */
  function Run(s: State, events: seq<Event>): State {
    if events == [] then s else Step(Run(s, events[..|events| - 1]), events[|events| - 1])
  }

  // ----- the object -----

  /** `DataLoader`: each method is the code between two awaits. */
  class DataLoader {
    var addresses: seq<nat>
    var startIndex: nat
    var continuePaging: bool
    var loadingAddressInfos: bool
    var fetches: seq<nat>
    var scans: seq<Scan>
    var reports: seq<Report>

    function Snapshot(): State
      reads this
    {
      State(addresses, startIndex, continuePaging, loadingAddressInfos, fetches, scans, reports)
    }

    constructor (startIndex: nat)
      ensures Snapshot() == Initial(startIndex)
    {
      addresses := [];
      this.startIndex := startIndex;
      continuePaging := true;
      loadingAddressInfos := false;
      fetches := [];
      scans := [];
      reports := [];
      new;
      LoadAddresses();
    }

    method LoadAddresses()
      modifies this`fetches
      ensures Snapshot() == RequestPage(old(Snapshot()))
    {
      fetches := fetches + [startIndex];
    }

    method OnAddresses(i: nat)
      requires i < |fetches|
      modifies this
      ensures Snapshot() == Step(old(Snapshot()), AddressesArrive(i))
    {
      var page := Range(fetches[i], LOAD_AMOUNT);
      fetches := Without(fetches, i);
      var allAddresses: seq<nat> := [];
      allAddresses := allAddresses + addresses;
      allAddresses := allAddresses + page;
      startIndex := startIndex + LOAD_AMOUNT;
      addresses := [];
      addresses := addresses + allAddresses;
      LoadAddressInfoForAddresses();
    }

    /** Also what the timer calls. */
    method LoadAddressInfoForAddresses()
      modifies this`loadingAddressInfos, this`scans
      ensures Snapshot() == StartScan(old(Snapshot())) == Step(old(Snapshot()), Tick)
    {
      if addresses == [] {
        return;
      }
      if loadingAddressInfos {
        return;
      }
      loadingAddressInfos := true;
      scans := scans + [WaitingMempool];
    }

    method OnMempool(i: nat)
      requires i < |scans| && scans[i].WaitingMempool?
      modifies this`scans
      ensures Snapshot() == Step(old(Snapshot()), MempoolArrives(i))
    {
      var copiedAddresses: seq<nat> := [];
      copiedAddresses := copiedAddresses + addresses;
      assert copiedAddresses == addresses;
      scans := scans[i := Scanning(copiedAddresses, 0, 0, None)];
    }

    method OnAddressInfo(i: nat, hasTransactions: bool)
      requires i < |scans| && scans[i].Scanning? && scans[i].next < |scans[i].copied|
      modifies this`scans
      ensures Snapshot() == Step(old(Snapshot()), InfoArrives(i, hasTransactions))
    {
      var scan := scans[i];
      var unused, firstUnused := scan.unused, scan.firstUnused;
      if !hasTransactions {
        unused := unused + 1;
        if firstUnused.None? {
          firstUnused := Some(scan.copied[scan.next]);
        }
      }
      scans := scans[i := Scanning(scan.copied, scan.next + 1, unused, firstUnused)];
    }

    method FinishScan(i: nat)
      requires i < |scans| && scans[i].Scanning? && scans[i].next == |scans[i].copied|
      modifies this
      ensures Snapshot() == Step(old(Snapshot()), ScanEnds(i))
    {
      var scan := scans[i];
      if continuePaging {
        if scan.unused < STOP_AMOUNT {
          LoadAddresses();
        } else {
          continuePaging := false;
        }
      }
      reports := reports + [Report(scan.copied, scan.unused, scan.firstUnused, continuePaging)];
      loadingAddressInfos := false;
      scans := Without(scans, i);
    }
  }

  // ----- every interleaving -----

  /** At most one scan runs, under the flag, and the list is as long as the index has advanced. */
  ghost predicate Orderly(s: State, startIndex: nat) {
    && s.startIndex == startIndex + |s.addresses|
    && |s.scans| <= 1
    && (s.scans != [] ==> s.loading)
  }

  lemma StepOrderly(s: State, e: Event, startIndex: nat)
    requires Orderly(s, startIndex)
    ensures Orderly(Step(s, e), startIndex)
  {
  }

  /** Over every interleaving of ticks, scans, arrivals and failures. */
  lemma {:induction false} RunOrderly(startIndex: nat, events: seq<Event>)
    ensures Orderly(Run(Initial(startIndex), events), startIndex)
  {
    if events != [] {
      RunOrderly(startIndex, events[..|events| - 1]);
      StepOrderly(Run(Initial(startIndex), events[..|events| - 1]), events[|events| - 1], startIndex);
    }
  }

  // ----- a failed scan -----

  /** The loading flag is up and no scan is there to take it down. */
  predicate Stuck(s: State) {
    s.loading && s.scans == []
  }

  predicate ScanLost(s: State, e: Event) {
    e.ScanFails? && Enabled(s, e)
  }

  /** Somewhere in the run a scan fails. */
  ghost predicate AnyScanLost(s: State, events: seq<Event>) {
    exists k :: 0 <= k < |events| && ScanLost(Run(s, events[..k]), events[k])
  }

  lemma StuckStep(s: State, e: Event, startIndex: nat)
    requires Orderly(s, startIndex)
    ensures Stuck(Step(s, e)) <==> Stuck(s) || ScanLost(s, e)
  {
  }

  lemma LostInPrefix(s: State, events: seq<Event>)
    requires events != []
    ensures AnyScanLost(s, events)
         == (AnyScanLost(s, events[..|events| - 1])
             || ScanLost(Run(s, events[..|events| - 1]), events[|events| - 1]))
  {
    hide Run, ScanLost;
    var n := |events| - 1;
    assert forall k :: 0 <= k < n ==> events[..n][..k] == events[..k] && events[..n][k] == events[k];
    if AnyScanLost(s, events[..n]) {
      var k :| 0 <= k < n && ScanLost(Run(s, events[..n][..k]), events[..n][k]);
      assert ScanLost(Run(s, events[..k]), events[k]);
    }
  }

  /** The loader is stuck after a run exactly when a scan has failed in it. */
  lemma {:induction false} StuckIffScanLost(startIndex: nat, events: seq<Event>)
    ensures Stuck(Run(Initial(startIndex), events)) <==> AnyScanLost(Initial(startIndex), events)
  {
    if events != [] {
      var n := |events| - 1;
      StuckIffScanLost(startIndex, events[..n]);
      RunOrderly(startIndex, events[..n]);
      StuckStep(Run(Initial(startIndex), events[..n]), events[n], startIndex);
      hide Step, Orderly, Stuck, ScanLost, AnyScanLost, Initial;
      LostInPrefix(Initial(startIndex), events);
    }
  }

  lemma {:induction false} RunConcat(s: State, a: seq<Event>, b: seq<Event>)
    ensures Run(s, a + b) == Run(Run(s, a), b)
  {
    if b == [] {
      assert a + b == a;
    } else {
      var n := |b| - 1;
      assert (a + b)[..|a + b| - 1] == a + b[..n];
      RunConcat(s, a, b[..n]);
      hide Step;
    }
  }

  /** What a stuck loader keeps, whatever happens. */
  ghost predicate NoMoreScans(s: State, t: State) {
    && Stuck(t) && t.reports == s.reports && t.continuePaging == s.continuePaging
    && |t.fetches| <= |s.fetches|
  }

  lemma {:induction false} StuckForever(s: State, more: seq<Event>)
    requires Stuck(s)
    ensures NoMoreScans(s, Run(s, more))
  {
    if more != [] {
      StuckForever(s, more[..|more| - 1]);
    }
  }

  /**
   After a scan has failed, in any run, no scan ever runs again: nothing more is reported,
   and no page is asked for but those already under way.
   */
  lemma FailureIsForever(startIndex: nat, events: seq<Event>, more: seq<Event>)
    requires AnyScanLost(Initial(startIndex), events)
    ensures NoMoreScans(Run(Initial(startIndex), events), Run(Initial(startIndex), events + more))
  {
    hide AnyScanLost, Run, NoMoreScans, Initial;
    StuckIffScanLost(startIndex, events);
    StuckForever(Run(Initial(startIndex), events), more);
    RunConcat(Initial(startIndex), events, more);
  }

  // ----- when the loader reports again -----

  /** Nothing listed, nothing asked for, nothing scanned: every tick returns on the empty list. */
  predicate Empty(s: State) {
    s.addresses == [] && s.fetches == [] && s.scans == []
  }

  predicate FirstPageLost(s: State, e: Event) {
    e.FetchFails? && Enabled(s, e) && s.addresses == []
  }

  /** The request for the first page fails. */
  ghost predicate AnyFirstPageLost(s: State, events: seq<Event>) {
    exists k :: 0 <= k < |events| && FirstPageLost(Run(s, events[..k]), events[k])
  }

  /** Before the first page there is one request at most and no scan; a scan stays within its copy. */
  ghost predicate Begun(s: State) {
    && (s.addresses == [] ==> |s.fetches| <= 1 && s.scans == [] && !s.loading)
    && |s.scans| <= 1
    && (s.scans != [] && s.scans[0].Scanning? ==> s.scans[0].next <= |s.scans[0].copied|)
  }

  lemma BegunStep(s: State, e: Event)
    requires Begun(s) && (s.scans != [] ==> s.loading)
    ensures Begun(Step(s, e))
  {
  }

  lemma {:induction false} RunBegun(startIndex: nat, events: seq<Event>)
    ensures Begun(Run(Initial(startIndex), events))
  {
    if events != [] {
      var n := |events| - 1;
      RunBegun(startIndex, events[..n]);
      RunOrderly(startIndex, events[..n]);
      BegunStep(Run(Initial(startIndex), events[..n]), events[n]);
      hide Step, Begun, Initial;
    }
  }

  lemma EmptyStep(s: State, e: Event)
    requires Begun(s)
    ensures Empty(Step(s, e)) <==> Empty(s) || FirstPageLost(s, e)
  {
  }

  lemma FirstLostInPrefix(s: State, events: seq<Event>)
    requires events != []
    ensures AnyFirstPageLost(s, events)
         == (AnyFirstPageLost(s, events[..|events| - 1])
             || FirstPageLost(Run(s, events[..|events| - 1]), events[|events| - 1]))
  {
    hide Run, FirstPageLost;
    var n := |events| - 1;
    assert forall k :: 0 <= k < n ==> events[..n][..k] == events[..k] && events[..n][k] == events[k];
    if AnyFirstPageLost(s, events[..n]) {
      var k :| 0 <= k < n && FirstPageLost(Run(s, events[..n][..k]), events[..n][k]);
      assert FirstPageLost(Run(s, events[..k]), events[k]);
    }
  }

  /** The loader is left with nothing exactly when the request for the first page has failed. */
  lemma {:induction false} EmptyIffFirstPageLost(startIndex: nat, events: seq<Event>)
    ensures Empty(Run(Initial(startIndex), events)) <==> AnyFirstPageLost(Initial(startIndex), events)
  {
    if events == [] {
      assert Initial(startIndex).fetches == [startIndex];
    } else {
      var n := |events| - 1;
      EmptyIffFirstPageLost(startIndex, events[..n]);
      RunBegun(startIndex, events[..n]);
      EmptyStep(Run(Initial(startIndex), events[..n]), events[n]);
      hide Step, Begun, Empty, FirstPageLost, AnyFirstPageLost, Initial;
      FirstLostInPrefix(Initial(startIndex), events);
    }
  }

  lemma {:induction false} EmptyForever(s: State, more: seq<Event>)
    requires Empty(s)
    ensures Run(s, more) == s
  {
    if more != [] {
      EmptyForever(s, more[..|more| - 1]);
    }
  }

  lemma RunFirst(s: State, e: Event, more: seq<Event>)
    ensures Run(s, [e] + more) == Run(Step(s, e), more)
  {
    hide Step;
    assert [e][..0] == [];
    assert Run(s, [e]) == Step(s, e);
    RunConcat(s, [e], more);
  }

  /** A scan that is let run ends in a report. */
  lemma {:induction false} ScanReports(s: State) returns (more: seq<Event>)
    requires s.scans != [] && (s.scans[0].Scanning? ==> s.scans[0].next <= |s.scans[0].copied|)
    ensures |Run(s, more).reports| > |s.reports|
    decreases s.scans[0].WaitingMempool?, if s.scans[0].Scanning? then |s.scans[0].copied| - s.scans[0].next else 0
  {
    var scan := s.scans[0];
    if scan.WaitingMempool? {
      more := ScanReports(Step(s, MempoolArrives(0)));
      RunFirst(s, MempoolArrives(0), more);
      more := [MempoolArrives(0)] + more;
    } else if scan.next < |scan.copied| {
      more := ScanReports(Step(s, InfoArrives(0, true)));
      RunFirst(s, InfoArrives(0, true), more);
      more := [InfoArrives(0, true)] + more;
    } else {
      RunFirst(s, ScanEnds(0), []);
      assert Run(Step(s, ScanEnds(0)), []) == Step(s, ScanEnds(0));
      more := [ScanEnds(0)] + [];
    }
  }

  /** What is neither stuck nor empty has a scan, or an event that starts one. */
  lemma CanReport(s: State) returns (more: seq<Event>)
    requires Begun(s) && !Stuck(s) && !Empty(s)
    ensures |Run(s, more).reports| > |s.reports|
  {
    if s.scans != [] {
      more := ScanReports(s);
    } else {
      var e := if s.addresses != [] then Tick else AddressesArrive(0);
      var t := Step(s, e);
      assert t.scans == [WaitingMempool] && t.reports == s.reports;
      more := ScanReports(t);
      RunFirst(s, e, more);
      more := [e] + more;
    }
  }

  /** Some continuation makes a report. */
  ghost predicate CanStillReport(s: State) {
    exists more: seq<Event> :: |Run(s, more).reports| > |s.reports|
  }

  /**
   After any run the loader can still report exactly when no scan has failed in it and the
   request for the first page has not.
   */
  lemma ReportsAgainIff(startIndex: nat, events: seq<Event>)
    ensures CanStillReport(Run(Initial(startIndex), events))
       <==> !AnyScanLost(Initial(startIndex), events) && !AnyFirstPageLost(Initial(startIndex), events)
  {
    var s := Run(Initial(startIndex), events);
    StuckIffScanLost(startIndex, events);
    EmptyIffFirstPageLost(startIndex, events);
    RunBegun(startIndex, events);
    hide Run, AnyScanLost, AnyFirstPageLost, Initial, Begun, Stuck, Empty;
    if Stuck(s) || Empty(s) {
      forall more: seq<Event>
        ensures |Run(s, more).reports| <= |s.reports|
      {
        NothingMore(s, more);
      }
    } else {
      var more := CanReport(s);
    }
  }

  lemma NothingMore(s: State, more: seq<Event>)
    requires Stuck(s) || Empty(s)
    ensures |Run(s, more).reports| <= |s.reports|
  {
    hide Run, Stuck, Empty;
    if Stuck(s) {
      StuckForever(s, more);
    } else {
      EmptyForever(s, more);
    }
  }

  /** The shortest such run: the first request fails, no scan does, and nothing ever happens again. */
  lemma FirstRequestFails(startIndex: nat, more: seq<Event>)
    ensures !AnyScanLost(Initial(startIndex), [FetchFails(0)])
    ensures var t := Run(Initial(startIndex), [FetchFails(0)] + more);
      t.addresses == [] && t.fetches == [] && t.scans == [] && t.reports == []
  {
    var s := Step(Initial(startIndex), FetchFails(0));
    assert Without([startIndex], 0) == [];
    assert Initial(startIndex).fetches == [startIndex];
    assert Empty(s) && s.reports == [];
    assert forall k :: 0 <= k < 1 ==> [FetchFails(0)][k] == FetchFails(0);
    hide Run, Step, Initial;
    RunFirst(Initial(startIndex), FetchFails(0), more);
    EmptyForever(s, more);
  }

  // ----- when the list is right -----

  /** The list is the addresses from the first index on, each once, in order. */
  ghost predicate Exact(s: State, startIndex: nat) {
    s.addresses == Range(startIndex, |s.addresses|)
  }

  /** A page arrives that was asked for when the list was shorter or longer than it is now. */
  predicate StalePage(s: State, e: Event) {
    e.AddressesArrive? && Enabled(s, e) && s.fetches[e.i] != s.startIndex
  }

  ghost predicate NoStalePage(s: State, events: seq<Event>) {
    forall k :: 0 <= k < |events| ==> !StalePage(Run(s, events[..k]), events[k])
  }

  lemma StepExact(s: State, e: Event, startIndex: nat)
    requires Orderly(s, startIndex)
    ensures Exact(Step(s, e), startIndex) <==> Exact(s, startIndex) && !StalePage(s, e)
  {
    var t := Step(s, e);
    if e.AddressesArrive? && Enabled(s, e) {
      var n := |s.addresses|;
      assert t.addresses == s.addresses + Range(s.fetches[e.i], LOAD_AMOUNT);
      if Exact(t, startIndex) {
        assert t.addresses[n] == startIndex + n;
        forall k | 0 <= k < n
          ensures s.addresses[k] == startIndex + k
        {
          assert t.addresses[k] == s.addresses[k];
        }
      }
    }
  }

  /** The list is right at the end of a run exactly when no stale page arrived during it. */
  lemma {:induction false} ExactIffNoStalePage(startIndex: nat, events: seq<Event>)
    ensures Exact(Run(Initial(startIndex), events), startIndex) <==> NoStalePage(Initial(startIndex), events)
  {
    if events != [] {
      var init, last := events[..|events| - 1], events[|events| - 1];
      var s := Run(Initial(startIndex), init);
      ExactIffNoStalePage(startIndex, init);
      RunOrderly(startIndex, init);
      StepExact(s, last, startIndex);
      hide Step, Orderly, Exact;
      PrefixRuns(Initial(startIndex), events);
    }
  }

  lemma PrefixRuns(s: State, events: seq<Event>)
    requires events != []
    ensures NoStalePage(s, events)
         == (NoStalePage(s, events[..|events| - 1])
             && !StalePage(Run(s, events[..|events| - 1]), events[|events| - 1]))
  {
    hide Run, StalePage;
    var init := events[..|events| - 1];
    assert forall k :: 0 <= k < |init| ==> events[..k] == init[..k] && events[k] == init[k];
  }

  // ----- requests that do not overlap -----

  /** Never two requests at once. */
  ghost predicate NeverOverlaps(s: State, events: seq<Event>) {
    forall k :: 0 <= k <= |events| ==> |Run(s, events[..k]).fetches| <= 1
  }

  lemma NeverOverlapsInit(s: State, events: seq<Event>)
    requires events != [] && NeverOverlaps(s, events)
    ensures NeverOverlaps(s, events[..|events| - 1])
    ensures |Run(s, events).fetches| <= 1
  {
    hide Run;
    var init := events[..|events| - 1];
    assert forall k :: 0 <= k <= |init| ==> events[..k] == init[..k];
    assert events[..|events|] == events;
  }

  ghost predicate Single(s: State) {
    s.fetches == [] || s.fetches == [s.startIndex]
  }

  lemma SingleStep(s: State, e: Event)
    requires Single(s) && |Step(s, e).fetches| <= 1
    ensures Single(Step(s, e)) && !StalePage(s, e)
  {
    assert Without([s.startIndex], 0) == [];
  }

  /** Without overlap the one pending request asks for the page right after the list. */
  lemma {:induction false} SingleRequest(startIndex: nat, events: seq<Event>)
    requires NeverOverlaps(Initial(startIndex), events)
    ensures Single(Run(Initial(startIndex), events))
    ensures NoStalePage(Initial(startIndex), events)
  {
    if events == [] {
      assert Initial(startIndex).fetches == [startIndex];
    } else {
      var init := events[..|events| - 1];
      NeverOverlapsInit(Initial(startIndex), events);
      SingleRequest(startIndex, init);
      hide NoStalePage, NeverOverlaps, Step, StalePage, Single, Initial;
      PrefixRuns(Initial(startIndex), events);
      SingleStep(Run(Initial(startIndex), init), events[|events| - 1]);
    }
  }

  /** With requests that never overlap the list is exactly the addresses up to the index. */
  lemma NonOverlappingIsExact(startIndex: nat, events: seq<Event>)
    requires NeverOverlaps(Initial(startIndex), events)
    ensures var s := Run(Initial(startIndex), events);
      s.addresses == Range(startIndex, |s.addresses|) && s.startIndex == startIndex + |s.addresses|
  {
    SingleRequest(startIndex, events);
    ExactIffNoStalePage(startIndex, events);
    RunOrderly(startIndex, events);
    hide NeverOverlaps, NoStalePage, Run;
  }
}
