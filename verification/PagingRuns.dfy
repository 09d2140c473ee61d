/** Runs of the address paging written out: the orderly one ends, two disorderly ones go wrong. */
module PagingRuns {
  import opened Prelude
  import opened Paging
  import opened PagingBounds

  lemma RunOne(s: State, e: Event)
    ensures Run(s, [e]) == Step(s, e)
  {
    hide Step;
    assert [e][..0] == [];
    assert Run(s, []) == s;
  }

  /** The true answers about the first `n` addresses, in order. */
  function Answers(used: Usage, n: nat): seq<Event> {
    if n == 0 then [] else Answers(used, n - 1) + [InfoArrives(0, used(n - 1))]
  }

  /** A scan that has looked at the first `m` of `n` addresses. */
  function Looked(used: Usage, n: nat, m: nat): Scan {
    Scanning(Range(0, n), m, Unused(used, m), LowestUnused(used, m))
  }

  lemma LookStep(used: Usage, n: nat, m: nat, s: State)
    requires m < n && s.scans == [Looked(used, n, m)]
    ensures Step(s, InfoArrives(0, used(m))) == s.(scans := [Looked(used, n, m + 1)])
  {
    assert Range(0, n)[m] == m;
    assert s.scans[0 := Looked(used, n, m + 1)] == [Looked(used, n, m + 1)];
  }

  lemma {:induction false} AnswersRun(used: Usage, n: nat, m: nat, s: State)
    requires m <= n && s.scans == [Looked(used, n, 0)]
    ensures Run(s, Answers(used, m)) == s.(scans := [Looked(used, n, m)])
  {
    hide *;
    if m == 0 {
      NoAnswers(used, n, s);
    } else {
      AnswersRun(used, n, m - 1, s);
      AnswerNext(used, n, m - 1, s);
    }
  }

  lemma NoAnswers(used: Usage, n: nat, s: State)
    requires s.scans == [Looked(used, n, 0)]
    ensures Run(s, Answers(used, 0)) == s.(scans := [Looked(used, n, 0)])
  {
    hide Step, Looked;
  }

  lemma AnswersNext(used: Usage, m: nat)
    ensures Answers(used, m + 1) == Answers(used, m) + [InfoArrives(0, used(m))]
  {
  }

  lemma AnswerNext(used: Usage, n: nat, m: nat, s: State)
    requires m < n && Run(s, Answers(used, m)) == s.(scans := [Looked(used, n, m)])
    ensures Run(s, Answers(used, m + 1)) == s.(scans := [Looked(used, n, m + 1)])
  {
    hide *;
    var t := s.(scans := [Looked(used, n, m)]);
    AnswersNext(used, m);
    RunConcat(s, Answers(used, m), [InfoArrives(0, used(m))]);
    RunOne(t, InfoArrives(0, used(m)));
    LookStep(used, n, m, t);
  }

  /** What a scan over the first `n` addresses leaves behind. */
  function Scanned(used: Usage, s: State, n: nat): State {
    var more := Unused(used, n) < STOP_AMOUNT;
    s.(continuePaging := s.continuePaging && more,
       loading := false,
       fetches := s.fetches + (if s.continuePaging && more then [s.startIndex] else []),
       scans := [],
       reports := s.reports
         + [Report(Range(0, n), Unused(used, n), LowestUnused(used, n), s.continuePaging && more)])
  }

  /** The answers, then the end of the scan. */
  function Rest(used: Usage, n: nat): seq<Event> {
    Answers(used, n) + [ScanEnds(0)]
  }

  lemma RestRuns(used: Usage, n: nat, s: State)
    requires s.scans == [Looked(used, n, 0)]
    ensures Run(s, Rest(used, n)) == Scanned(used, s, n)
  {
    var t := s.(scans := [Looked(used, n, n)]);
    AnswersRun(used, n, n, s);
    RunConcat(s, Answers(used, n), [ScanEnds(0)]);
    RunOne(t, ScanEnds(0));
    hide Run, Range, Unused, LowestUnused;
    assert Without(t.scans, 0) == [];
    assert s.fetches + [] == s.fetches;
  }

  lemma FirstLook(used: Usage, s: State)
    requires s.scans == [WaitingMempool] && s.addresses == Range(0, |s.addresses|)
    ensures Step(s, MempoolArrives(0)) == s.(scans := [Looked(used, |s.addresses|, 0)])
  {
    assert s.scans[0 := Looked(used, |s.addresses|, 0)] == [Looked(used, |s.addresses|, 0)];
  }

  /** A page arrives, and the scan it starts runs to its end. */
  function Round(used: Usage, n: nat): seq<Event> {
    [AddressesArrive(0)] + ([MempoolArrives(0)] + Rest(used, n + LOAD_AMOUNT))
  }

  /** Waiting for the page after the first `n` addresses, with no scan running. */
  ghost predicate Waiting(s: State, n: nat) {
    && s.addresses == Range(0, n) && s.startIndex == n && s.fetches == [n]
    && s.continuePaging && !s.loading && s.scans == []
  }

  /** The state between the arrival of a page and the first look at it. */
  function Arrived(s: State, n: nat): State {
    s.(addresses := Range(0, n + LOAD_AMOUNT), startIndex := n + LOAD_AMOUNT, fetches := [])
  }

  lemma ArrivalStep(s: State, n: nat)
    requires s.addresses == Range(0, n) && s.startIndex == n && s.fetches == [n]
    requires s.loading ==> s.scans != []
    ensures Step(s, AddressesArrive(0))
         == if s.loading then Arrived(s, n) else Arrived(s, n).(loading := true, scans := s.scans + [WaitingMempool])
  {
    assert Range(0, n) + Range(n, LOAD_AMOUNT) == Range(0, n + LOAD_AMOUNT);
    assert Without([n], 0) == [];
  }

  lemma RoundRuns(used: Usage, n: nat, s: State)
    requires Waiting(s, n)
    ensures Run(s, Round(used, n)) == Scanned(used, Arrived(s, n).(loading := true), n + LOAD_AMOUNT)
  {
    ArrivalStep(s, n);
    var t := Arrived(s, n).(loading := true, scans := [WaitingMempool]);
    assert [] + [WaitingMempool] == [WaitingMempool];
    FirstLook(used, t);
    var u := t.(scans := [Looked(used, n + LOAD_AMOUNT, 0)]);
    RestRuns(used, n + LOAD_AMOUNT, u);
    hide Step, Rest, Range, Looked, Run, Unused, LowestUnused;
    RunConcat(s, [AddressesArrive(0)], [MempoolArrives(0)] + Rest(used, n + LOAD_AMOUNT));
    RunOne(s, AddressesArrive(0));
    RunConcat(t, [MempoolArrives(0)], Rest(used, n + LOAD_AMOUNT));
    RunOne(t, MempoolArrives(0));
  }

  // ----- the orderly run ends -----

  /** Round after round, `k` of them. */
  function Rounds(used: Usage, k: nat): seq<Event> {
    if k == 0 then [] else Rounds(used, k - 1) + Round(used, LOAD_AMOUNT * (k - 1))
  }

  /** While three unused addresses are not in hand another page is on its way. */
  lemma {:induction false} RoundsWait(used: Usage, k: nat)
    requires forall j: nat :: j <= k ==> Unused(used, LOAD_AMOUNT * j) < STOP_AMOUNT
    ensures Waiting(Run(Initial(0), Rounds(used, k)), LOAD_AMOUNT * k)
  {
    if k == 0 {
      assert Range(0, 0) == [];
    } else {
      RoundsWait(used, k - 1);
      NextRound(used, k - 1);
    }
  }

  lemma NextRound(used: Usage, k: nat)
    requires Waiting(Run(Initial(0), Rounds(used, k)), LOAD_AMOUNT * k)
    ensures var s := Run(Initial(0), Rounds(used, k + 1)); var n := LOAD_AMOUNT * (k + 1);
      && (Unused(used, n) < STOP_AMOUNT ==> Waiting(s, n))
      && (Unused(used, n) >= STOP_AMOUNT ==>
            !s.continuePaging && !s.loading && s.fetches == [] && s.scans == [] && s.addresses == Range(0, n))
      && s.reports != []
      && s.reports[|s.reports| - 1]
           == Report(Range(0, n), Unused(used, n), LowestUnused(used, n), Unused(used, n) < STOP_AMOUNT)
  {
    hide Run, Round, Unused, LowestUnused, Range, Initial;
    var s := Run(Initial(0), Rounds(used, k));
    RoundRuns(used, LOAD_AMOUNT * k, s);
    RunConcat(Initial(0), Rounds(used, k), Round(used, LOAD_AMOUNT * k));
    assert LOAD_AMOUNT * k + LOAD_AMOUNT == LOAD_AMOUNT * (k + 1);
  }

  /** The first number of whole pages, up to `limit`, that holds three unused addresses. */
  function FirstEnough(used: Usage, limit: nat): (k: nat)
    requires Unused(used, LOAD_AMOUNT * limit) >= STOP_AMOUNT
    ensures 1 <= k <= limit && Unused(used, LOAD_AMOUNT * k) >= STOP_AMOUNT
    ensures forall j: nat :: j < k ==> Unused(used, LOAD_AMOUNT * j) < STOP_AMOUNT
  {
    FirstEnoughUpTo(used, limit, 0)
  }

  function FirstEnoughUpTo(used: Usage, limit: nat, from: nat): (k: nat)
    requires from <= limit && Unused(used, LOAD_AMOUNT * limit) >= STOP_AMOUNT
    requires forall j: nat :: j < from ==> Unused(used, LOAD_AMOUNT * j) < STOP_AMOUNT
    ensures 1 <= k <= limit && Unused(used, LOAD_AMOUNT * k) >= STOP_AMOUNT
    ensures forall j: nat :: j < k ==> Unused(used, LOAD_AMOUNT * j) < STOP_AMOUNT
    decreases limit - from
  {
    if Unused(used, LOAD_AMOUNT * from) >= STOP_AMOUNT then from else FirstEnoughUpTo(used, limit, from + 1)
  }

  /** Paging is over and the last report is about the first `n` addresses, the whole list. */
  ghost predicate Stopped(used: Usage, s: State, n: nat) {
    && !s.continuePaging && !s.loading && s.fetches == [] && s.scans == []
    && s.addresses == Range(0, n)
    && s.reports != [] && var last := s.reports[|s.reports| - 1];
       && last.addresses == s.addresses && !last.paging && last.unused >= STOP_AMOUNT
       && last.receive.Some? && !used(last.receive.value)
       && forall i: nat :: i < last.receive.value ==> used(i)
  }

  lemma StopsAfter(used: Usage, k: nat)
    requires Waiting(Run(Initial(0), Rounds(used, k)), LOAD_AMOUNT * k)
    requires Unused(used, LOAD_AMOUNT * (k + 1)) >= STOP_AMOUNT
    ensures Stopped(used, Run(Initial(0), Rounds(used, k + 1)), LOAD_AMOUNT * (k + 1))
  {
    NextRound(used, k);
    LowestUnusedIsLowest(used, LOAD_AMOUNT * (k + 1));
    hide Run, Rounds, Initial, Waiting, Range, Unused, LowestUnused;
  }

  /**
   When pages arrive and scans run to their end in turn, paging stops by itself with the
   first page that leaves three unused addresses, at most `Pages(bound)` of them, and the
   last report offers the lowest unused address.
   */
  lemma PagingStops(used: Usage, bound: nat) returns (k: nat)
    requires UsedBelow(used, bound)
    ensures k <= Pages(bound)
    ensures forall j: nat :: j < k ==> Waiting(Run(Initial(0), Rounds(used, j)), LOAD_AMOUNT * j)
    ensures Stopped(used, Run(Initial(0), Rounds(used, k)), LOAD_AMOUNT * k)
  {
    EnoughInPages(used, bound);
    k := FirstEnough(used, Pages(bound));
    hide Run, Rounds, Initial, Pages, Unused, LowestUnused, UsedBelow, Waiting, Stopped;
    forall j: nat | j < k
      ensures Waiting(Run(Initial(0), Rounds(used, j)), LOAD_AMOUNT * j)
    {
      RoundsWait(used, j);
    }
    StopsAfter(used, k - 1);
  }

  lemma EnoughInPages(used: Usage, bound: nat)
    requires UsedBelow(used, bound)
    ensures Unused(used, LOAD_AMOUNT * Pages(bound)) >= STOP_AMOUNT
  {
    UnusedAtLeast(used, bound, LOAD_AMOUNT * Pages(bound));
  }

  // ----- two disorderly runs -----

  predicate FirstFive(i: nat) { i < 5 }

  predicate FirstThree(i: nat) { i < 3 }

  /** One round, then the timer starts a second scan of the same addresses before the next page. */
  function TimerFires(used: Usage): seq<Event> {
    Round(used, 0) + [Tick]
  }

  lemma InitialWaits()
    ensures Waiting(Initial(0), 0) && Initial(0).reports == []
  {
    assert Range(0, 0) == [];
  }

  lemma TickStep(s: State)
    requires s.addresses != [] && !s.loading && s.scans == []
    ensures Step(s, Tick) == s.(loading := true, scans := [WaitingMempool])
  {
    assert [] + [WaitingMempool] == [WaitingMempool];
  }

  lemma RoundKeepsWaiting(used: Usage, n: nat, s: State)
    requires Waiting(s, n) && Unused(used, n + LOAD_AMOUNT) < STOP_AMOUNT
    ensures Waiting(Run(s, Round(used, n)), n + LOAD_AMOUNT)
  {
    RoundRuns(used, n, s);
    hide Run, Round, Range, Unused, LowestUnused;
  }

  lemma TimerRuns(used: Usage)
    requires Unused(used, LOAD_AMOUNT) < STOP_AMOUNT
    ensures var s := Run(Initial(0), TimerFires(used));
      && s.addresses == Range(0, 5) && s.startIndex == 5 && s.fetches == [5]
      && s.continuePaging && s.loading && s.scans == [WaitingMempool]
  {
    InitialWaits();
    RoundKeepsWaiting(used, 0, Initial(0));
    hide Round, Initial, Unused, LowestUnused, Run, Step;
    var s := Run(Initial(0), Round(used, 0));
    assert Waiting(s, 5);
    RunConcat(Initial(0), Round(used, 0), [Tick]);
    RunOne(s, Tick);
    assert |s.addresses| == 5;
    TickStep(s);
  }

  lemma FewUsed()
    ensures Unused(FirstFive, 5) == 0 && Unused(FirstThree, 5) == 2
    ensures UsedBelow(FirstThree, 3) && Pages(3) == 2
  {
    assert Unused(FirstFive, 3) == 0;
    assert Unused(FirstThree, 3) == 0;
    assert Unused(FirstThree, 4) == 1;
  }

  /** The timer starts a second scan of the first page, which asks for the second page again. */
  function AskTwice(): seq<Event> {
    TimerFires(FirstFive) + ([MempoolArrives(0)] + Rest(FirstFive, 5))
  }

  lemma AskTwiceRuns()
    ensures var s := Run(Initial(0), AskTwice());
      s.addresses == Range(0, 5) && s.startIndex == 5 && s.fetches == [5, 5] && s.scans == [] && !s.loading
  {
    FewUsed();
    TimerRuns(FirstFive);
    var s := Run(Initial(0), TimerFires(FirstFive));
    FirstLook(FirstFive, s);
    var t := s.(scans := [Looked(FirstFive, 5, 0)]);
    RestRuns(FirstFive, 5, t);
    hide TimerFires, Rest, Initial, Unused, LowestUnused, Run, Step, Looked, Range;
    RunConcat(Initial(0), TimerFires(FirstFive), [MempoolArrives(0)] + Rest(FirstFive, 5));
    RunConcat(s, [MempoolArrives(0)], Rest(FirstFive, 5));
    RunOne(s, MempoolArrives(0));
    assert [5] + [5] == [5, 5];
  }

  /**
   Overlapping requests: every answer is true, yet the second page is listed twice and the
   index moves on to 15, so that addresses 10 to 14 are never asked for.
   */
  lemma OverlapRepeatsAPage()
    ensures var s := Run(Initial(0), AskTwice() + ([AddressesArrive(0)] + [AddressesArrive(0)]));
      && s.addresses == Range(0, 10) + Range(5, 5) && s.startIndex == 15 && s.fetches == []
      && 10 !in s.addresses
  {
    AskTwiceRuns();
    var s := Run(Initial(0), AskTwice());
    RunConcat(Initial(0), AskTwice(), [AddressesArrive(0)] + [AddressesArrive(0)]);
    RunConcat(s, [AddressesArrive(0)], [AddressesArrive(0)]);
    RunOne(s, AddressesArrive(0));
    RunOne(Step(s, AddressesArrive(0)), AddressesArrive(0));
    hide AskTwice, Run, Initial;
    TwoArrivals(s);
  }

  lemma TwoArrivals(s: State)
    requires s.addresses == Range(0, 5) && s.startIndex == 5 && s.fetches == [5, 5] && s.scans == [] && !s.loading
    ensures var t := Step(Step(s, AddressesArrive(0)), AddressesArrive(0));
      && t.addresses == Range(0, 10) + Range(5, 5) && t.startIndex == 15 && t.fetches == []
      && 10 !in t.addresses
  {
    assert Range(0, 5) + Range(5, 5) == Range(0, 10);
    assert Without([5, 5], 0) == [5];
    assert Without([5], 0) == [];
  }

  // ----- a scan that outlives its list -----

  lemma NeverOverlapsConcat(s: State, a: seq<Event>, b: seq<Event>)
    requires NeverOverlaps(s, a) && NeverOverlaps(Run(s, a), b)
    ensures NeverOverlaps(s, a + b)
  {
    hide Run;
    var c := a + b;
    forall k | 0 <= k <= |c|
      ensures |Run(s, c[..k]).fetches| <= 1
    {
      if k <= |a| {
        assert c[..k] == a[..k];
      } else {
        assert c[..k] == a + b[..k - |a|];
        RunConcat(s, a, b[..k - |a|]);
      }
    }
  }

  lemma NeverOverlapsOne(s: State, e: Event)
    requires |s.fetches| <= 1 && |Step(s, e).fetches| <= 1
    ensures NeverOverlaps(s, [e])
  {
    hide Run, Step;
    RunOne(s, e);
    assert [e][..0] == [] && [e][..1] == [e];
    RunNone(s);
  }

  lemma RunNone(s: State)
    ensures Run(s, []) == s
  {
  }

  lemma {:induction false} AnswersNeverOverlap(used: Usage, n: nat, s: State)
    requires |s.fetches| <= 1
    ensures NeverOverlaps(s, Answers(used, n)) && Run(s, Answers(used, n)).fetches == s.fetches
  {
    if n == 0 {
      RunNone(s);
    } else {
      AnswersNeverOverlap(used, n - 1, s);
      var e := InfoArrives(0, used(n - 1));
      var t := Run(s, Answers(used, n - 1));
      assert Step(t, e).fetches == t.fetches;
      hide Step, Run, NeverOverlaps;
      NeverOverlapsOne(t, e);
      NeverOverlapsConcat(s, Answers(used, n - 1), [e]);
      RunConcat(s, Answers(used, n - 1), [e]);
      RunOne(t, e);
    }
  }

  lemma RestNeverOverlaps(used: Usage, n: nat, s: State)
    requires s.scans == [Looked(used, n, 0)] && s.fetches == []
    ensures NeverOverlaps(s, Rest(used, n))
  {
    AnswersNeverOverlap(used, n, s);
    RestRuns(used, n, s);
    hide Step, Run, NeverOverlaps, Answers, Looked, Unused, LowestUnused, Range;
    var t := Run(s, Answers(used, n));
    RunConcat(s, Answers(used, n), [ScanEnds(0)]);
    RunOne(t, ScanEnds(0));
    NeverOverlapsOne(t, ScanEnds(0));
    NeverOverlapsConcat(s, Answers(used, n), [ScanEnds(0)]);
  }

  /** A round asks for one page at most. */
  lemma RoundNeverOverlaps(used: Usage, n: nat, s: State)
    requires Waiting(s, n)
    ensures NeverOverlaps(s, Round(used, n))
  {
    ArrivalStep(s, n);
    var t := Arrived(s, n).(loading := true, scans := [WaitingMempool]);
    assert [] + [WaitingMempool] == [WaitingMempool];
    FirstLook(used, t);
    var u := t.(scans := [Looked(used, n + LOAD_AMOUNT, 0)]);
    RestNeverOverlaps(used, n + LOAD_AMOUNT, u);
    hide Step, Rest, Range, Looked, Run, NeverOverlaps;
    RunOne(s, AddressesArrive(0));
    RunOne(t, MempoolArrives(0));
    NeverOverlapsOne(s, AddressesArrive(0));
    NeverOverlapsOne(t, MempoolArrives(0));
    NeverOverlapsConcat(t, [MempoolArrives(0)], Rest(used, n + LOAD_AMOUNT));
    NeverOverlapsConcat(s, [AddressesArrive(0)], [MempoolArrives(0)] + Rest(used, n + LOAD_AMOUNT));
  }

  /** The second page arrives between the copying of the first and the end of its second scan. */
  function Outlive(used: Usage): seq<Event> {
    TimerFires(used) + ([MempoolArrives(0)] + ([AddressesArrive(0)] + Rest(used, 5)))
  }

  lemma OutliveRuns(used: Usage)
    requires Unused(used, LOAD_AMOUNT) < STOP_AMOUNT
    ensures var s := Run(Initial(0), Outlive(used)); s.startIndex == 10 && s.fetches == [10]
    ensures NeverOverlaps(Initial(0), Outlive(used))
  {
    InitialWaits();
    TimerRuns(used);
    TimerNeverOverlaps(used);
    var s := Run(Initial(0), TimerFires(used));
    FirstLook(used, s);
    var t := s.(scans := [Looked(used, 5, 0)]);
    ArrivalStep(t, 5);
    var u := Arrived(t, 5);
    RestRuns(used, 5, u);
    RestNeverOverlaps(used, 5, u);
    hide TimerFires, Rest, Initial, Unused, LowestUnused, Run, Step, Looked, Range, NeverOverlaps;
    assert [] + [10] == [10];
    RunOne(s, MempoolArrives(0));
    RunOne(t, AddressesArrive(0));
    RunConcat(Initial(0), TimerFires(used), [MempoolArrives(0)] + ([AddressesArrive(0)] + Rest(used, 5)));
    RunConcat(s, [MempoolArrives(0)], [AddressesArrive(0)] + Rest(used, 5));
    RunConcat(t, [AddressesArrive(0)], Rest(used, 5));
    NeverOverlapsOne(s, MempoolArrives(0));
    NeverOverlapsOne(t, AddressesArrive(0));
    NeverOverlapsConcat(t, [AddressesArrive(0)], Rest(used, 5));
    NeverOverlapsConcat(s, [MempoolArrives(0)], [AddressesArrive(0)] + Rest(used, 5));
    NeverOverlapsConcat(Initial(0), TimerFires(used), [MempoolArrives(0)] + ([AddressesArrive(0)] + Rest(used, 5)));
  }

  lemma TimerNeverOverlaps(used: Usage)
    requires Unused(used, LOAD_AMOUNT) < STOP_AMOUNT
    ensures NeverOverlaps(Initial(0), TimerFires(used))
  {
    InitialWaits();
    RoundNeverOverlaps(used, 0, Initial(0));
    RoundRuns(used, 0, Initial(0));
    TimerRuns(used);
    hide Step, Round, Range, Run, NeverOverlaps, Initial, Unused, LowestUnused;
    var s := Run(Initial(0), Round(used, 0));
    RunConcat(Initial(0), Round(used, 0), [Tick]);
    RunOne(s, Tick);
    NeverOverlapsOne(s, Tick);
    NeverOverlapsConcat(Initial(0), Round(used, 0), [Tick]);
  }

  /**
   A scan that outlives its list: requests never overlap and the first two pages hold more
   than three unused addresses, yet a third page is asked for.
   */
  lemma StaleScanAsksOnce()
    ensures UsedBelow(FirstThree, 3) && Pages(3) == 2
    ensures NeverOverlaps(Initial(0), Outlive(FirstThree))
    ensures Run(Initial(0), Outlive(FirstThree)).fetches == [LOAD_AMOUNT * Pages(3)]
  {
    FewUsed();
    OutliveRuns(FirstThree);
    hide Run, Outlive, NeverOverlaps;
  }
}
