/** Every run of the paging in which requests never overlap comes to an end, and when it asks for too much. */
module PagingProgress {
  import opened Paging
  import opened PagingBounds

  // ----- counting what a run does -----

  predicate EndsScan(s: State, e: Event) {
    e.ScanEnds? && Enabled(s, e)
  }

  /** A scan ends and asks for another page. */
  predicate AsksForPage(s: State, e: Event) {
    EndsScan(s, e) && s.continuePaging && s.scans[e.i].unused < 3
  }

  predicate LosesPage(s: State, e: Event) {
    e.FetchFails? && Enabled(s, e)
  }

  /** How many scans have ended, how many pages they asked for, and how many requests have failed. */
  datatype Counts = Counts(ends: nat, asks: nat, losses: nat)

  function CountStep(n: Counts, s: State, e: Event): Counts {
    Counts(n.ends + if EndsScan(s, e) then 1 else 0,
           n.asks + if AsksForPage(s, e) then 1 else 0,
           n.losses + if LosesPage(s, e) then 1 else 0)
  }

  function Count(s: State, events: seq<Event>): Counts {
    if events == [] then Counts(0, 0, 0)
    else
      var init := events[..|events| - 1];
      CountStep(Count(s, init), Run(s, init), events[|events| - 1])
  }

  /** What the counts say about the state: pages asked for, and that every ended scan asked while paging goes on. */
  ghost predicate Tallied(s: State, n: Counts) {
    && Asked(s) + 5 * n.losses == 5 * (1 + n.asks)
    && n.asks <= n.ends
    && (s.continuePaging ==> n.ends == n.asks)
  }

  lemma TallyStep(s: State, e: Event, n: Counts)
    requires Tallied(s, n)
    ensures Tallied(Step(s, e), CountStep(n, s, e))
  {
  }

  lemma {:induction false} RunTallied(events: seq<Event>)
    ensures Tallied(Run(Initial(0), events), Count(Initial(0), events))
  {
    if events != [] {
      var n := |events| - 1;
      RunTallied(events[..n]);
      TallyStep(Run(Initial(0), events[..n]), events[n], Count(Initial(0), events[..n]));
      hide Step, CountStep, Tallied;
    }
  }

  /**
   Over every run with truthful answers and without overlapping requests, paging has
   stopped once more scans have ended than the pages needed and the requests lost together;
   when no scan outlives its list, once as many have ended.
   */
  lemma PagingEnds(used: Usage, bound: nat, events: seq<Event>)
    requires UsedBelow(used, bound)
    requires NeverOverlaps(Initial(0), events) && TruthfulRun(used, Initial(0), events)
    ensures var s, n := Run(Initial(0), events), Count(Initial(0), events);
      && (n.ends > Pages(bound) + n.losses ==> !s.continuePaging)
      && (NoStaleScan(Initial(0), events) && n.ends >= Pages(bound) + n.losses ==> !s.continuePaging)
  {
    PagingIsBounded(used, bound, events);
    RunTallied(events);
    hide Run, Count, NeverOverlaps, TruthfulRun, NoStaleScan, UsedBelow, Pages, Asked, Initial;
  }

  // ----- when a page too many is asked for -----

  /** A scan asks for a page although the list already holds enough. */
  predicate OverAsk(bound: nat, s: State, e: Event) {
    AsksForPage(s, e) && s.startIndex >= 5 * Pages(bound)
  }

  ghost predicate NeverOverAsks(bound: nat, s: State, events: seq<Event>) {
    forall k :: 0 <= k < |events| ==> !OverAsk(bound, Run(s, events[..k]), events[k])
  }

  /** No request ever goes beyond the pages needed. */
  ghost predicate AlwaysTight(bound: nat, s: State, events: seq<Event>) {
    forall k :: 0 <= k <= |events| ==> Tight(bound, Run(s, events[..k]))
  }

  lemma OverAskPrefix(bound: nat, s: State, events: seq<Event>)
    requires events != []
    ensures var n := |events| - 1;
      NeverOverAsks(bound, s, events)
      == (NeverOverAsks(bound, s, events[..n]) && !OverAsk(bound, Run(s, events[..n]), events[n]))
  {
    hide Run, OverAsk;
    var n := |events| - 1;
    assert forall k :: 0 <= k < n ==> events[..n][..k] == events[..k] && events[..n][k] == events[k];
  }

  lemma TightPrefix(bound: nat, s: State, events: seq<Event>)
    requires events != []
    ensures var n := |events| - 1;
      AlwaysTight(bound, s, events) == (AlwaysTight(bound, s, events[..n]) && Tight(bound, Run(s, events)))
  {
    hide Run, Tight;
    var n := |events| - 1;
    assert forall k :: 0 <= k <= n ==> events[..n][..k] == events[..k];
    assert events[..n + 1] == events;
  }

  predicate WholePages(s: State) {
    s.startIndex % 5 == 0
  }

  lemma WholeStep(s: State, e: Event)
    ensures WholePages(Step(s, e)) == WholePages(s)
  {
  }

  lemma TightStep(bound: nat, s: State, e: Event)
    requires WholePages(s) && |Step(s, e).fetches| <= 1
    ensures Tight(bound, s) ==> (Tight(bound, Step(s, e)) <==> !OverAsk(bound, s, e))
    ensures !Tight(bound, s) && !LosesPage(s, e) ==> !Tight(bound, Step(s, e))
  {
    var p := Pages(bound);
    assert s.startIndex < 5 * p ==> s.startIndex + 5 <= 5 * p by {
      assert s.startIndex == 5 * (s.startIndex / 5);
    }
    hide Pages;
  }

  lemma StartsTight(bound: nat)
    ensures Tight(bound, Initial(0)) && WholePages(Initial(0))
  {
  }

  /**
   In a run without overlapping requests, no request ever goes beyond the pages needed
   exactly when no scan asks for a page with enough of them listed.
   */
  lemma {:induction false} AlwaysTightIff(bound: nat, events: seq<Event>)
    requires NeverOverlaps(Initial(0), events)
    ensures WholePages(Run(Initial(0), events))
    ensures AlwaysTight(bound, Initial(0), events) <==> NeverOverAsks(bound, Initial(0), events)
    ensures Count(Initial(0), events).losses == 0 ==>
      (Tight(bound, Run(Initial(0), events)) <==> NeverOverAsks(bound, Initial(0), events))
  {
    StartsTight(bound);
    if events != [] {
      var n := |events| - 1;
      NeverOverlapsInit(Initial(0), events);
      AlwaysTightIff(bound, events[..n]);
      var s := Run(Initial(0), events[..n]);
      WholeStep(s, events[n]);
      TightStep(bound, s, events[n]);
      OverAskPrefix(bound, Initial(0), events);
      TightPrefix(bound, Initial(0), events);
      assert events[..n][..n] == events[..n];
      hide AlwaysTight, NeverOverAsks, NeverOverlaps, Step, Tight, OverAsk, WholePages, Initial, EndsScan, AsksForPage;
      TightAtEnd(bound, Initial(0), events[..n]);
    }
  }

  lemma TightAtEnd(bound: nat, s: State, events: seq<Event>)
    ensures AlwaysTight(bound, s, events) ==> Tight(bound, Run(s, events))
  {
    hide Run, Tight;
    assert events[..|events|] == events;
  }

  lemma OverAskIsStale(used: Usage, bound: nat, s: State, e: Event)
    requires UsedBelow(used, bound) && Paced(used, bound, s) && OverAsk(bound, s, e)
    ensures StaleScan(s, e)
  {
    var scan := s.scans[0];
    assert GoodScan(used, s, scan);
    UnusedAtLeast(used, bound, |scan.copied|);
    hide Unused, LowestUnused;
  }

  /** With truthful answers, only a scan that outlives its list asks for a page too many. */
  lemma OverAskOnlyWhenStale(used: Usage, bound: nat, events: seq<Event>, k: nat)
    requires UsedBelow(used, bound) && k < |events|
    requires NeverOverlaps(Initial(0), events) && TruthfulRun(used, Initial(0), events)
    requires OverAsk(bound, Run(Initial(0), events[..k]), events[k])
    ensures StaleScan(Run(Initial(0), events[..k]), events[k])
  {
    RunBefore(used, Initial(0), events, k);
    hide NeverOverlaps, TruthfulRun, Run, Initial, OverAsk, StaleScan, Paced, UsedBelow;
    PagingIsBounded(used, bound, events[..k]);
    OverAskIsStale(used, bound, Run(Initial(0), events[..k]), events[k]);
  }

  lemma RunBefore(used: Usage, s: State, events: seq<Event>, k: nat)
    requires k <= |events| && NeverOverlaps(s, events) && TruthfulRun(used, s, events)
    ensures NeverOverlaps(s, events[..k]) && TruthfulRun(used, s, events[..k])
  {
    hide Run, Truthful;
    assert forall j :: 0 <= j <= k ==> events[..k][..j] == events[..j];
    assert forall j :: 0 <= j < k ==> events[..k][j] == events[j];
  }
}
