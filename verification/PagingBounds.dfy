/** How far paging goes and what it reports when address use does not change. */
module PagingBounds {
  import opened Prelude
  import opened Paging

  type Usage = nat -> bool

  /** No address from index `bound` on is used. */
  ghost predicate UsedBelow(used: Usage, bound: nat) {
    forall i: nat :: i >= bound ==> !used(i)
  }

  /** How many of the first `n` addresses are unused. */
  function Unused(used: Usage, n: nat): nat {
    if n == 0 then 0 else Unused(used, n - 1) + if used(n - 1) then 0 else 1
  }

  /** The lowest unused address among the first `n`. */
  function LowestUnused(used: Usage, n: nat): Option<nat> {
    if n == 0 then None
    else if LowestUnused(used, n - 1).Some? then LowestUnused(used, n - 1)
    else if used(n - 1) then None
    else Some(n - 1)
  }

  lemma {:induction false} LowestUnusedIsLowest(used: Usage, n: nat)
    ensures match LowestUnused(used, n)
      case None => Unused(used, n) == 0 && forall i: nat :: i < n ==> used(i)
      case Some(k) => k < n && !used(k) && Unused(used, n) > 0 && forall i: nat :: i < k ==> used(i)
  {
    if n > 0 {
      LowestUnusedIsLowest(used, n - 1);
    }
  }

  lemma {:induction false} UnusedAtLeast(used: Usage, bound: nat, n: nat)
    requires UsedBelow(used, bound)
    ensures Unused(used, n) + bound >= n && Unused(used, n) <= n
  {
    if n > 0 {
      UnusedAtLeast(used, bound, n - 1);
      if n > bound {
        assert !used(n - 1);
        AllUnusedAfter(used, bound, n);
      }
    }
  }

  lemma {:induction false} AllUnusedAfter(used: Usage, bound: nat, n: nat)
    requires UsedBelow(used, bound) && n >= bound
    ensures Unused(used, n) == Unused(used, bound) + (n - bound)
  {
    if n > bound {
      AllUnusedAfter(used, bound, n - 1);
    }
  }

  /** Pages of five that hold `bound` used and three unused addresses, rounded up. */
  function Pages(bound: nat): nat {
    (bound + 3 + 4) / 5
  }

  /** Fewer than three unused addresses in whole pages means one page less than enough. */
  lemma FewUnusedFewPages(used: Usage, bound: nat, n: nat)
    requires UsedBelow(used, bound) && n % 5 == 0 && Unused(used, n) < 3
    ensures n + 5 <= 5 * Pages(bound)
  {
    UnusedAtLeast(used, bound, n);
    assert n < bound + 3;
  }

  // ----- runs over fixed use -----

  /** Each answer about an address is the truth. */
  predicate Truthful(used: Usage, s: State, e: Event) {
    e.InfoArrives? && Enabled(s, e) ==> e.hasTransactions == used(s.scans[e.i].copied[s.scans[e.i].next])
  }

  /** A scan ends that looked at a list which has grown since. */
  predicate StaleScan(s: State, e: Event) {
    e.ScanEnds? && Enabled(s, e) && s.scans[e.i].copied != s.addresses
  }

  ghost predicate TruthfulRun(used: Usage, s: State, events: seq<Event>) {
    forall k :: 0 <= k < |events| ==> Truthful(used, Run(s, events[..k]), events[k])
  }

  ghost predicate NoStaleScan(s: State, events: seq<Event>) {
    forall k :: 0 <= k < |events| ==> !StaleScan(Run(s, events[..k]), events[k])
  }

  /** A report tells the truth about the addresses it lists. */
  ghost predicate GoodReport(used: Usage, r: Report) {
    && r.addresses == Range(0, |r.addresses|)
    && r.unused == Unused(used, |r.addresses|)
    && r.receive == LowestUnused(used, |r.addresses|)
  }

  /** How far requests have gone. */
  function Asked(s: State): nat {
    s.startIndex + 5 * |s.fetches|
  }

  /** A scan over whole pages that has counted right and started at most one page ago. */
  ghost predicate GoodScan(used: Usage, s: State, scan: Scan) {
    scan.Scanning? ==>
      && scan.copied == Range(0, |scan.copied|)
      && |scan.copied| % 5 == 0 && |scan.copied| <= s.startIndex
      && scan.next <= |scan.copied|
      && scan.unused == Unused(used, scan.next) && scan.firstUnused == LowestUnused(used, scan.next)
      && Asked(s) <= |scan.copied| + 5
  }

  ghost predicate Paced(used: Usage, bound: nat, s: State) {
    && s.addresses == Range(0, s.startIndex) && s.startIndex % 5 == 0
    && (s.fetches == [] || s.fetches == [s.startIndex])
    && |s.scans| <= 1 && (s.scans != [] ==> s.loading)
    && (s.scans != [] ==> GoodScan(used, s, s.scans[0]))
    && Asked(s) <= 5 * (Pages(bound) + 1)
    && (forall k :: 0 <= k < |s.reports| ==> GoodReport(used, s.reports[k]))
    && (!s.continuePaging ==> exists k :: 0 <= k < |s.reports| && s.reports[k].unused >= 3)
  }

  /** The tighter bound that scans of the current list keep. */
  ghost predicate Tight(bound: nat, s: State) {
    Asked(s) <= 5 * Pages(bound)
  }

  lemma PageStep(used: Usage, bound: nat, s: State, e: Event)
    requires Paced(used, bound, s) && e.AddressesArrive?
    ensures Paced(used, bound, Step(s, e)) && Asked(Step(s, e)) == Asked(s)
  {
    if Enabled(s, e) {
      var t := Step(s, e);
      assert s.fetches == [s.startIndex] && t.fetches == [];
      assert t.addresses == Range(0, t.startIndex);
    }
  }

  lemma InfoStep(used: Usage, bound: nat, s: State, e: Event)
    requires Paced(used, bound, s) && (e.InfoArrives? || e.MempoolArrives?) && Truthful(used, s, e)
    ensures Paced(used, bound, Step(s, e)) && Asked(Step(s, e)) == Asked(s)
  {
    var t := Step(s, e);
    if Enabled(s, e) {
      assert t.scans == [t.scans[0]];
      assert GoodScan(used, t, t.scans[0]);
    }
  }

  lemma EndStep(used: Usage, bound: nat, s: State, e: Event)
    requires UsedBelow(used, bound) && Paced(used, bound, s) && e.ScanEnds? && |Step(s, e).fetches| <= 1
    ensures Paced(used, bound, Step(s, e))
    ensures Tight(bound, s) && !StaleScan(s, e) ==> Tight(bound, Step(s, e))
  {
    if Enabled(s, e) {
      var t, scan := Step(s, e), s.scans[0];
      assert t.scans == [];
      var n := |scan.copied|;
      assert t.reports[|s.reports|] == Report(scan.copied, Unused(used, n), LowestUnused(used, n), t.continuePaging);
      forall k | 0 <= k < |t.reports|
        ensures GoodReport(used, t.reports[k])
      {
        if k < |s.reports| {
          assert t.reports[k] == s.reports[k];
        }
      }
      assert forall k :: 0 <= k < |s.reports| ==> t.reports[k] == s.reports[k];
      if s.continuePaging && scan.unused < 3 {
        FewUnusedFewPages(used, bound, n);
        assert s.fetches == [] && t.fetches == [s.startIndex];
        hide Pages, Unused, LowestUnused;
      }
    }
  }

  lemma OtherStep(used: Usage, bound: nat, s: State, e: Event)
    requires Paced(used, bound, s) && (e.Tick? || e.FetchFails? || e.ScanFails?)
    ensures Paced(used, bound, Step(s, e)) && Asked(Step(s, e)) <= Asked(s)
  {
    hide GoodReport, Pages, Unused, LowestUnused;
    match e
    case Tick =>
    case FetchFails(_) =>
    case ScanFails(_) =>
  }

  /**
   With requests that never overlap and truthful answers: the list is exact, every report
   is right, paging has stopped only with three unused addresses in hand, and at most one
   page more than needed is asked for; no page more when no scan outlives its list.
   */
  lemma {:induction false} PagingIsBounded(used: Usage, bound: nat, events: seq<Event>)
    requires UsedBelow(used, bound)
    requires NeverOverlaps(Initial(0), events) && TruthfulRun(used, Initial(0), events)
    ensures Paced(used, bound, Run(Initial(0), events))
    ensures NoStaleScan(Initial(0), events) ==> Tight(bound, Run(Initial(0), events))
  {
    if events != [] {
      var init, e := events[..|events| - 1], events[|events| - 1];
      NeverOverlapsInit(Initial(0), events);
      RunPrefix(used, Initial(0), events);
      PagingIsBounded(used, bound, init);
      hide NeverOverlaps, TruthfulRun, NoStaleScan, Paced, Step, Asked, Pages, Truthful, StaleScan;
      var s := Run(Initial(0), init);
      match e
      case AddressesArrive(_) => PageStep(used, bound, s, e);
      case InfoArrives(_, _) => InfoStep(used, bound, s, e);
      case MempoolArrives(_) => InfoStep(used, bound, s, e);
      case ScanEnds(_) => EndStep(used, bound, s, e);
      case Tick => OtherStep(used, bound, s, e);
      case FetchFails(_) => OtherStep(used, bound, s, e);
      case ScanFails(_) => OtherStep(used, bound, s, e);
    }
  }

  lemma RunPrefix(used: Usage, s: State, events: seq<Event>)
    requires events != []
    ensures TruthfulRun(used, s, events) ==>
      && TruthfulRun(used, s, events[..|events| - 1])
      && Truthful(used, Run(s, events[..|events| - 1]), events[|events| - 1])
    ensures NoStaleScan(s, events) ==>
      && NoStaleScan(s, events[..|events| - 1])
      && !StaleScan(Run(s, events[..|events| - 1]), events[|events| - 1])
  {
    hide Run, Truthful, StaleScan;
    var init := events[..|events| - 1];
    assert forall k :: 0 <= k < |init| ==> events[..k] == init[..k] && events[k] == init[k];
  }

  /** A scan that ends over enough pages stops paging and reports the lowest unused address. */
  lemma EnoughPagesStop(used: Usage, bound: nat, s: State, e: Event)
    requires UsedBelow(used, bound) && Paced(used, bound, s) && e.ScanEnds? && Enabled(s, e)
    requires |s.scans[0].copied| >= 5 * Pages(bound)
    ensures var t := Step(s, e); var report := t.reports[|t.reports| - 1];
      && !t.continuePaging && t.fetches == s.fetches
      && report.unused >= 3 && report.receive.Some?
      && !used(report.receive.value) && forall i: nat :: i < report.receive.value ==> used(i)
  {
    var n := |s.scans[0].copied|;
    UnusedAtLeast(used, bound, n);
    LowestUnusedIsLowest(used, n);
  }
}
