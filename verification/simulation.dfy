/**
 * The per-subscriber, per-day loop that fills fake_transactions.
 *
 * Each subscriber draws its start hour once and its home site once; every
 * day then opens at that same hour on the site where the previous day
 * ended (the home site on the first day). A day's rows are appended to the
 * output as soon as the day is walked, so the output is ordered by
 * subscriber, then day, then hour.
 */
module Simulation {
  import opened Common
  import opened NeighbourTable
  import opened HourlyWalk

  /** A row of fake_transactions before the id column is added. The date is
      the position of the day in the simulated period. */
  datatype Txn = Txn(subUid: SubId, celUid: SiteId, transactionDt: nat, transactionHr: nat)

  /** curr_hr: the start hour of subscriber `i`, drawn from range(cap_start_hr). */
  function StartHour(draws: Draws, capStartHr: int, i: nat): (h: nat)
    requires capStartHr > 0
    ensures h < capStartHr
  {
    draws.startHr(i) % capStartHr
  }

  /** The home site of subscriber `i`, drawn from the cell-site column. */
  function HomeSite(sites: seq<SiteId>, draws: Draws, i: nat): (s: SiteId)
    requires |sites| > 0
    ensures s in sites
  {
    sites[draws.homeSite(i) % |sites|]
  }

  /** Every hour of range(cap_start_hr) can be drawn as a start hour. */
  lemma StartHourReaches(draws: Draws, capStartHr: int, i: nat, h: nat)
    requires h < capStartHr && draws.startHr(i) == h
    ensures StartHour(draws, capStartHr, i) == h
  {
    ModBelow(h, capStartHr);
  }

  /** Every entry of the cell-site column can be drawn as the home site. */
  lemma HomeSiteReaches(sites: seq<SiteId>, draws: Draws, i: nat, j: nat)
    requires j < |sites| && draws.homeSite(i) == j
    ensures HomeSite(sites, draws, i) == sites[j]
  {
    ModBelow(j, |sites|);
  }

  /** Where the subscriber stands after the given days: the last site of the
      last day, or the home site before the first day. */
  function LastLoc(home: SiteId, days: seq<seq<Visit>>): SiteId {
    if days == [] || days[|days| - 1] == [] then home
    else days[|days| - 1][|days[|days| - 1]| - 1].loc
  }

  /** The walk of one date: from the date's position and the site the day
      opens on, the day's visits or the error raised. */
  type DayWalk = (nat, SiteId) -> Result<seq<Visit>>

  /** The day walk of subscriber `sub`, whose days all open at `startHr`. */
  function Walk(matrix: seq<Edge>, draws: Draws, sub: nat, startHr: nat): DayWalk {
    (day: nat, loc: SiteId) => Day(matrix, draws, sub, day, startHr, loc)
  }

  /** The first n days of one subscriber: each date is walked from the site
      where the previous date ended, and the first error ends the dates. */
  function DaysUpTo(walk: DayWalk, home: SiteId, n: nat): (r: Result<seq<seq<Visit>>>)
    ensures r.Ok? ==> |r.value| == n
  {
    if n == 0 then Ok([])
    else
      match DaysUpTo(walk, home, n - 1)
      case Err(e) => Err(e)
      case Ok(days) =>
        match walk(n - 1, LastLoc(home, days))
        case Err(e) => Err(e)
        case Ok(vs) => Ok(days + [vs])
  }

  /** The rows of one subscriber-day. */
  function DayRows(subUid: SubId, dt: nat, vs: seq<Visit>): (rows: seq<Txn>)
    ensures |rows| == |vs|
    ensures forall i | 0 <= i < |rows| :: rows[i] == Txn(subUid, vs[i].loc, dt, vs[i].hr)
  {
    if vs == [] then [] else [Txn(subUid, vs[0].loc, dt, vs[0].hr)] + DayRows(subUid, dt, vs[1..])
  }

  /** The rows of a subscriber's days, day after day. */
  function DaysRows(subUid: SubId, days: seq<seq<Visit>>): seq<Txn> {
    if days == [] then []
    else DaysRows(subUid, days[..|days| - 1]) + DayRows(subUid, |days| - 1, days[|days| - 1])
  }

  /** The rows of subscriber `i`, whose id is `subUid`, or the error its
      draws raise. */
  function SubscriberRows(subUid: SubId, sites: seq<SiteId>, matrix: seq<Edge>,
                          capStartHr: int, numDays: nat, draws: Draws, i: nat): Result<seq<Txn>>
  {
    if capStartHr <= 0 then Err(EmptyStartHourRange)
    else if |sites| == 0 then Err(NoCellsites)
    else
      match DaysUpTo(Walk(matrix, draws, i, StartHour(draws, capStartHr, i)), HomeSite(sites, draws, i), numDays)
      case Err(e) => Err(e)
      case Ok(days) => Ok(DaysRows(subUid, days))
  }

  /** The rows of the first m subscribers, or the first error raised. */
  function RunUpTo(subs: seq<SubId>, sites: seq<SiteId>, matrix: seq<Edge>,
                   capStartHr: int, numDays: nat, draws: Draws, m: nat): Result<seq<Txn>>
    requires m <= |subs|
  {
    if m == 0 then Ok([])
    else
      match RunUpTo(subs, sites, matrix, capStartHr, numDays, draws, m - 1)
      case Err(e) => Err(e)
      case Ok(rows) =>
        match SubscriberRows(subs[m - 1], sites, matrix, capStartHr, numDays, draws, m - 1)
        case Err(e) => Err(e)
        case Ok(more) => Ok(rows + more)
  }

  /** The whole simulation. */
  function Run(subs: seq<SubId>, sites: seq<SiteId>, matrix: seq<Edge>,
               capStartHr: int, numDays: nat, draws: Draws): Result<seq<Txn>> {
    RunUpTo(subs, sites, matrix, capStartHr, numDays, draws, |subs|)
  }

  // ---------------------------------------------------------------------
  // The loops
  // ---------------------------------------------------------------------

  /** The subscriber loop: the rows of each subscriber are appended in
      turn, and the first error ends the run. */
  method Simulate(subs: seq<SubId>, sites: seq<SiteId>, matrix: seq<Edge>,
                  capStartHr: int, numDays: nat, draws: Draws) returns (res: Result<seq<Txn>>)
    ensures res == Run(subs, sites, matrix, capStartHr, numDays, draws)
  {
    var fakeTransactions: seq<Txn> := [];
    for idx := 0 to |subs|
      invariant RunUpTo(subs, sites, matrix, capStartHr, numDays, draws, idx) == Ok(fakeTransactions)
    {
      var walked := NextSubscriber(subs, sites, matrix, capStartHr, numDays, draws, idx, fakeTransactions);
      if walked.Err? {
        return walked;
      }
      fakeTransactions := walked.value;
    }
    res := Ok(fakeTransactions);
  }

  /** One pass of the subscriber loop: the rows of subscriber `idx` are
      appended to the rows so far, or its error ends the whole run. */
  method NextSubscriber(subs: seq<SubId>, sites: seq<SiteId>, matrix: seq<Edge>, capStartHr: int,
                        numDays: nat, draws: Draws, idx: nat, fakeTransactions: seq<Txn>)
    returns (res: Result<seq<Txn>>)
    requires idx < |subs|
    requires RunUpTo(subs, sites, matrix, capStartHr, numDays, draws, idx) == Ok(fakeTransactions)
    ensures res == RunUpTo(subs, sites, matrix, capStartHr, numDays, draws, idx + 1)
    ensures res.Err? ==> res == Run(subs, sites, matrix, capStartHr, numDays, draws)
  {
    RunStep(subs, sites, matrix, capStartHr, numDays, draws, idx, fakeTransactions);
    res := WalkSubscriber(sites, matrix, capStartHr, numDays, draws, idx, subs[idx], fakeTransactions);
    if res.Err? {
      RunErrorSticks(subs, sites, matrix, capStartHr, numDays, draws, idx + 1, |subs|);
    }
  }

  /** Subscriber `idx`, whose id is `currSub`, draws a start hour and a home
      site, then its days are walked and their rows appended to
      `fakeTransactions`. */
  method WalkSubscriber(sites: seq<SiteId>, matrix: seq<Edge>, capStartHr: int, numDays: nat,
                        draws: Draws, idx: nat, currSub: SubId, fakeTransactions: seq<Txn>)
    returns (res: Result<seq<Txn>>)
    ensures SubscriberRows(currSub, sites, matrix, capStartHr, numDays, draws, idx).Err? ==>
              res == Err(SubscriberRows(currSub, sites, matrix, capStartHr, numDays, draws, idx).error)
    ensures SubscriberRows(currSub, sites, matrix, capStartHr, numDays, draws, idx).Ok? ==>
              res == Ok(fakeTransactions + SubscriberRows(currSub, sites, matrix, capStartHr, numDays, draws, idx).value)
  {
    if capStartHr <= 0 {
      return Err(EmptyStartHourRange);
    }
    var currHr: nat := draws.startHr(idx) % capStartHr;
    if |sites| == 0 {
      return Err(NoCellsites);
    }
    var currLoc := sites[draws.homeSite(idx) % |sites|];
    assert currHr == StartHour(draws, capStartHr, idx) && currLoc == HomeSite(sites, draws, idx);
    res := WalkDays(matrix, draws, idx, currSub, currHr, currLoc, numDays, fakeTransactions);
  }

  /** The date loop of one subscriber: each day opens on the current site,
      which carries over from the end of the previous day, and the day's rows
      are appended to `fakeTransactions`. */
  method WalkDays(matrix: seq<Edge>, draws: Draws, idx: nat, currSub: SubId, currHr: nat, home: SiteId,
                  numDays: nat, fakeTransactions: seq<Txn>) returns (res: Result<seq<Txn>>)
    ensures DaysUpTo(Walk(matrix, draws, idx, currHr), home, numDays).Err? ==>
              res == Err(DaysUpTo(Walk(matrix, draws, idx, currHr), home, numDays).error)
    ensures DaysUpTo(Walk(matrix, draws, idx, currHr), home, numDays).Ok? ==>
              res == Ok(fakeTransactions + DaysRows(currSub, DaysUpTo(Walk(matrix, draws, idx, currHr), home, numDays).value))
  {
    ghost var walk := Walk(matrix, draws, idx, currHr);
    var currLoc := home;
    var acc := fakeTransactions;
    ghost var days: seq<seq<Visit>> := [];
    for dt := 0 to numDays
      invariant DaysUpTo(walk, home, dt) == Ok(days)
      invariant currLoc == LastLoc(home, days)
      invariant acc == fakeTransactions + DaysRows(currSub, days)
    {
      var date := WalkDate(matrix, draws, idx, currSub, dt, currHr, currLoc, acc);
      if date.Err? {
        res := Err(date.error);
        assert walk(dt, currLoc) == Day(matrix, draws, idx, dt, currHr, currLoc);
        DaysFailAt(walk, home, dt, days, numDays);
        return;
      }
      ghost var vs := Day(matrix, draws, idx, dt, currHr, currLoc).value;
      assert walk(dt, currLoc) == Ok(vs);
      NextDay(walk, currSub, home, dt, days, vs, fakeTransactions);
      acc, currLoc := date.value.0, date.value.1;
      days := days + [vs];
    }
    res := Ok(acc);
  }

  /** One pass of the date loop: the day is walked from `currLoc`, its
      `hrs` and `locs` become rows appended to `fakeTransactions`, and the
      subscriber stays on the day's last site. */
  method WalkDate(matrix: seq<Edge>, draws: Draws, idx: nat, currSub: SubId, dt: nat, currHr: nat,
                  currLoc: SiteId, fakeTransactions: seq<Txn>) returns (res: Result<(seq<Txn>, SiteId)>)
    ensures Day(matrix, draws, idx, dt, currHr, currLoc).Err? ==>
              res == Err(Day(matrix, draws, idx, dt, currHr, currLoc).error)
    ensures Day(matrix, draws, idx, dt, currHr, currLoc).Ok? ==>
              var vs := Day(matrix, draws, idx, dt, currHr, currLoc).value;
              res == Ok((fakeTransactions + DayRows(currSub, dt, vs), vs[|vs| - 1].loc))
  {
    var day := WalkDay(matrix, draws, idx, dt, currHr, currLoc);
    if day.Err? {
      return Err(day.error);
    }
    var hrs, locs := day.value.0, day.value.1;
    var vs := Zip(hrs, locs);
    res := Ok((fakeTransactions + DayRows(currSub, dt, vs), locs[|locs| - 1]));
  }

  /** A day that fails ends the subscriber's dates with its error. */
  lemma DaysFailAt(walk: DayWalk, home: SiteId, n: nat, days: seq<seq<Visit>>, n': nat)
    requires n < n' && DaysUpTo(walk, home, n) == Ok(days)
    requires walk(n, LastLoc(home, days)).Err?
    ensures DaysUpTo(walk, home, n') == Err(walk(n, LastLoc(home, days)).error)
  {
    DaysStep(walk, home, n, days);
    DaysErrorSticks(walk, home, n + 1, n');
  }

  /** A day that succeeds is appended to the days, its rows to the output,
      and the subscriber stands on its last site. */
  lemma NextDay(walk: DayWalk, subUid: SubId, home: SiteId, n: nat, days: seq<seq<Visit>>,
                vs: seq<Visit>, prefix: seq<Txn>)
    requires DaysUpTo(walk, home, n) == Ok(days)
    requires walk(n, LastLoc(home, days)) == Ok(vs) && vs != []
    ensures DaysUpTo(walk, home, n + 1) == Ok(days + [vs])
    ensures LastLoc(home, days + [vs]) == vs[|vs| - 1].loc
    ensures prefix + DaysRows(subUid, days) + DayRows(subUid, n, vs) == prefix + DaysRows(subUid, days + [vs])
  {
    DaysStep(walk, home, n, days);
    AppendDay(subUid, home, days, vs);
    ConcatAssoc(prefix, DaysRows(subUid, days), DayRows(subUid, n, vs));
  }

  /** Appending a day appends its rows and moves the subscriber to the
      day's last site. */
  lemma AppendDay(subUid: SubId, home: SiteId, days: seq<seq<Visit>>, vs: seq<Visit>)
    requires vs != []
    ensures DaysRows(subUid, days + [vs]) == DaysRows(subUid, days) + DayRows(subUid, |days|, vs)
    ensures LastLoc(home, days + [vs]) == vs[|vs| - 1].loc
  {
    assert (days + [vs])[..|days|] == days;
  }

  lemma ConcatAssoc(a: seq<Txn>, b: seq<Txn>, c: seq<Txn>)
    ensures (a + b) + c == a + (b + c)
  {
  }

  /** One more subscriber: its rows are appended, or its error ends the run. */
  lemma RunStep(subs: seq<SubId>, sites: seq<SiteId>, matrix: seq<Edge>,
                capStartHr: int, numDays: nat, draws: Draws, m: nat, rows: seq<Txn>)
    requires m < |subs| && RunUpTo(subs, sites, matrix, capStartHr, numDays, draws, m) == Ok(rows)
    ensures RunUpTo(subs, sites, matrix, capStartHr, numDays, draws, m + 1)
            == match SubscriberRows(subs[m], sites, matrix, capStartHr, numDays, draws, m)
               case Err(e) => Err(e)
               case Ok(more) => Ok(rows + more)
  {
  }

  /** One more day: it opens where the previous days ended. */
  lemma DaysStep(walk: DayWalk, home: SiteId, n: nat, days: seq<seq<Visit>>)
    requires DaysUpTo(walk, home, n) == Ok(days)
    ensures DaysUpTo(walk, home, n + 1)
            == match walk(n, LastLoc(home, days))
               case Err(e) => Err(e)
               case Ok(vs) => Ok(days + [vs])
  {
  }

  lemma {:induction false} DaysErrorSticks(walk: DayWalk, home: SiteId, n: nat, n': nat)
    requires n <= n' && DaysUpTo(walk, home, n).Err?
    ensures DaysUpTo(walk, home, n') == DaysUpTo(walk, home, n)
    decreases n' - n
  {
    if n < n' {
      DaysErrorSticks(walk, home, n, n' - 1);
    }
  }

  lemma {:induction false} RunErrorSticks(subs: seq<SubId>, sites: seq<SiteId>, matrix: seq<Edge>,
                                          capStartHr: int, numDays: nat, draws: Draws, m: nat, m': nat)
    requires m <= m' <= |subs|
    requires RunUpTo(subs, sites, matrix, capStartHr, numDays, draws, m).Err?
    ensures RunUpTo(subs, sites, matrix, capStartHr, numDays, draws, m')
            == RunUpTo(subs, sites, matrix, capStartHr, numDays, draws, m)
    decreases m' - m
  {
    if m < m' {
      RunErrorStep(subs, sites, matrix, capStartHr, numDays, draws, m);
      RunErrorSticks(subs, sites, matrix, capStartHr, numDays, draws, m + 1, m');
    }
  }

  lemma RunErrorStep(subs: seq<SubId>, sites: seq<SiteId>, matrix: seq<Edge>,
                     capStartHr: int, numDays: nat, draws: Draws, k: nat)
    requires k < |subs|
    requires RunUpTo(subs, sites, matrix, capStartHr, numDays, draws, k).Err?
    ensures RunUpTo(subs, sites, matrix, capStartHr, numDays, draws, k + 1)
            == RunUpTo(subs, sites, matrix, capStartHr, numDays, draws, k)
  {
  }

  // ---------------------------------------------------------------------
  // State carried across days
  // ---------------------------------------------------------------------

  /** The day added after `days`: the day walked from where `days` end. */
  lemma DaysNext(walk: DayWalk, home: SiteId, n: nat, days: seq<seq<Visit>>) returns (vs: seq<Visit>)
    requires DaysUpTo(walk, home, n) == Ok(days)
    requires DaysUpTo(walk, home, n + 1).Ok?
    ensures walk(n, LastLoc(home, days)) == Ok(vs)
    ensures DaysUpTo(walk, home, n + 1) == Ok(days + [vs])
  {
    DaysStep(walk, home, n, days);
    vs := walk(n, LastLoc(home, days)).value;
  }

  /** The first m days are the days walked when only m dates are simulated. */
  lemma {:induction false} DaysPrefix(walk: DayWalk, home: SiteId, n: nat, m: nat)
    requires m <= n && DaysUpTo(walk, home, n).Ok?
    ensures DaysUpTo(walk, home, m).Ok?
    ensures DaysUpTo(walk, home, m).value == DaysUpTo(walk, home, n).value[..m]
  {
    if m < n {
      var prev := DaysUpTo(walk, home, n - 1).value;
      var vs := DaysNext(walk, home, n - 1, prev);
      DaysPrefix(walk, home, n - 1, m);
      assert (prev + [vs])[..m] == prev[..m];
    }
  }

  /** Day d is the day walked on date d from where the first d days end. */
  lemma DaysAt(walk: DayWalk, home: SiteId, n: nat, d: nat)
    requires d < n && DaysUpTo(walk, home, n).Ok?
    ensures DaysUpTo(walk, home, d).Ok?
    ensures walk(d, LastLoc(home, DaysUpTo(walk, home, d).value)) == Ok(DaysUpTo(walk, home, n).value[d])
  {
    DaysPrefix(walk, home, n, d + 1);
    DaysPrefix(walk, home, d + 1, d);
    var prev := DaysUpTo(walk, home, d).value;
    var vs := DaysNext(walk, home, d, prev);
    assert (prev + [vs])[d] == vs;
  }

  /** Every day opens at `startHr`; the first day opens on `home` and every
      later day on the site where the previous day ended. */
  ghost predicate Chained(startHr: nat, home: SiteId, days: seq<seq<Visit>>) {
    && (forall d | 0 <= d < |days| :: days[d] != [] && days[d][0].hr == startHr)
    && (|days| > 0 ==> days[0][0].loc == home)
    && (forall d, e | 0 <= d < e < |days| && e == d + 1 :: days[e][0].loc == days[d][|days[d]| - 1].loc)
  }

  lemma ChainedSnoc(startHr: nat, home: SiteId, days: seq<seq<Visit>>, vs: seq<Visit>)
    requires Chained(startHr, home, days)
    requires vs != [] && vs[0] == Visit(startHr, LastLoc(home, days))
    ensures Chained(startHr, home, days + [vs])
  {
    var days': seq<seq<Visit>> := days + [vs];
    forall d | 0 <= d < |days'| ensures days'[d] != [] && days'[d][0].hr == startHr {
      if d < |days| {
        assert days'[d] == days[d];
      }
    }
    forall d, e | 0 <= d < e < |days'| && e == d + 1 ensures days'[e][0].loc == days'[d][|days'[d]| - 1].loc {
      if e < |days| {
        assert days'[e] == days[e] && days'[d] == days[d];
      } else {
        assert days'[d] == days[|days| - 1] && days'[e] == vs;
      }
    }
  }

  /** Every day a walk returns opens at `startHr` on the site it was given. */
  ghost predicate OpensAt(walk: DayWalk, startHr: nat) {
    forall day, loc | walk(day, loc).Ok? :: walk(day, loc).value != [] && walk(day, loc).value[0] == Visit(startHr, loc)
  }

  lemma {:induction false} ChainedDays(walk: DayWalk, startHr: nat, home: SiteId, n: nat)
    requires OpensAt(walk, startHr) && DaysUpTo(walk, home, n).Ok?
    ensures Chained(startHr, home, DaysUpTo(walk, home, n).value)
  {
    if n > 0 {
      ChainedDays(walk, startHr, home, n - 1);
      var prev := DaysUpTo(walk, home, n - 1).value;
      var vs := DaysNext(walk, home, n - 1, prev);
      ChainedSnoc(startHr, home, prev, vs);
    }
  }

  /** Every day of a subscriber opens at the one start hour drawn for the
      subscriber; the first day opens on the home site and every later day
      on the site where the previous day ended. */
  lemma DaysChain(matrix: seq<Edge>, draws: Draws, sub: nat, startHr: nat, home: SiteId, n: nat)
    requires DaysUpTo(Walk(matrix, draws, sub, startHr), home, n).Ok?
    ensures Chained(startHr, home, DaysUpTo(Walk(matrix, draws, sub, startHr), home, n).value)
  {
    var walk := Walk(matrix, draws, sub, startHr);
    forall day, loc | walk(day, loc).Ok?
      ensures walk(day, loc).value != [] && walk(day, loc).value[0] == Visit(startHr, loc)
    {
      assert walk(day, loc) == Day(matrix, draws, sub, day, startHr, loc);
    }
    ChainedDays(walk, startHr, home, n);
  }

  /** Every day of a subscriber has strictly increasing hours and moves only
      along retained pairs; when the start hour is below 24, a day has at
      most 24 - start hour records, all at hours up to 23. */
  lemma DaysShape(matrix: seq<Edge>, draws: Draws, sub: nat, startHr: nat, home: SiteId, n: nat)
    requires DaysUpTo(Walk(matrix, draws, sub, startHr), home, n).Ok?
    ensures forall d | 0 <= d < n ::
              WellFormedDay(matrix, startHr, DaysUpTo(Walk(matrix, draws, sub, startHr), home, n).value[d])
  {
    var walk := Walk(matrix, draws, sub, startHr);
    forall d | 0 <= d < n
      ensures WellFormedDay(matrix, startHr, DaysUpTo(walk, home, n).value[d])
    {
      DaysAt(walk, home, n, d);
      var loc := LastLoc(home, DaysUpTo(walk, home, d).value);
      assert walk(d, loc) == Day(matrix, draws, sub, d, startHr, loc);
      DayWellFormed(matrix, draws, sub, d, startHr, loc);
    }
  }

  // ---------------------------------------------------------------------
  // Output order
  // ---------------------------------------------------------------------

  /** Position of `s` in `subs` (|subs| when absent). */
  function IndexOf(subs: seq<SubId>, s: SubId): (i: nat)
    ensures i <= |subs|
    ensures i < |subs| ==> subs[i] == s
    ensures forall j | 0 <= j < i :: subs[j] != s
  {
    if subs == [] then 0
    else if subs[0] == s then 0
    else 1 + IndexOf(subs[1..], s)
  }

  /** Row `a` comes before row `b` in subscriber-major, then date, then hour
      order. */
  predicate Before(subs: seq<SubId>, a: Txn, b: Txn) {
    || IndexOf(subs, a.subUid) < IndexOf(subs, b.subUid)
    || (&& a.subUid == b.subUid
        && (a.transactionDt < b.transactionDt
            || (a.transactionDt == b.transactionDt && a.transactionHr < b.transactionHr)))
  }

  predicate Ordered(subs: seq<SubId>, rows: seq<Txn>) {
    forall i, j | 0 <= i < j < |rows| :: Before(subs, rows[i], rows[j])
  }

  /** Two ordered runs of rows, every row of the first before every row of
      the second, make an ordered run. */
  lemma OrderedAppend(subs: seq<SubId>, a: seq<Txn>, b: seq<Txn>)
    requires Ordered(subs, a) && Ordered(subs, b)
    requires forall x, y | x in a && y in b :: Before(subs, x, y)
    ensures Ordered(subs, a + b)
  {
    var rows := a + b;
    forall i, j | 0 <= i < j < |rows| ensures Before(subs, rows[i], rows[j]) {
      if j < |a| {
        assert rows[i] == a[i] && rows[j] == a[j];
      } else if i < |a| {
        assert rows[i] == a[i] && a[i] in a;
        assert rows[j] == b[j - |a|] && b[j - |a|] in b;
      } else {
        assert rows[i] == b[i - |a|] && rows[j] == b[j - |a|];
      }
    }
  }

  /** The rows of a subscriber's days belong to that subscriber, lie within
      the days walked, and run by date then by hour. */
  lemma {:induction false} DaysRowsOrdered(subs: seq<SubId>, subUid: SubId, days: seq<seq<Visit>>)
    requires forall d | 0 <= d < |days| :: StrictlyAscending(days[d])
    ensures var rows := DaysRows(subUid, days);
            && (forall r | r in rows :: r.subUid == subUid && r.transactionDt < |days|)
            && Ordered(subs, rows)
  {
    if days != [] {
      var n := |days| - 1;
      DaysRowsOrdered(subs, subUid, days[..n]);
      var a, b := DaysRows(subUid, days[..n]), DayRows(subUid, n, days[n]);
      assert forall r | r in b :: r.subUid == subUid && r.transactionDt == n;
      assert Ordered(subs, b) by {
        forall i, j | 0 <= i < j < |b| ensures Before(subs, b[i], b[j]) { }
      }
      OrderedAppend(subs, a, b);
    }
  }

  /** The output of the first m subscribers is ordered by subscriber, then
      date, then hour, and holds only those subscribers' rows. */
  lemma {:induction false} RunOrdered(subs: seq<SubId>, sites: seq<SiteId>, matrix: seq<Edge>,
                                      capStartHr: int, numDays: nat, draws: Draws, m: nat)
    requires Distinct(subs) && m <= |subs|
    requires RunUpTo(subs, sites, matrix, capStartHr, numDays, draws, m).Ok?
    ensures var rows := RunUpTo(subs, sites, matrix, capStartHr, numDays, draws, m).value;
            && (forall r | r in rows :: IndexOf(subs, r.subUid) < m)
            && Ordered(subs, rows)
  {
    if m > 0 {
      RunOrdered(subs, sites, matrix, capStartHr, numDays, draws, m - 1);
      var a := RunUpTo(subs, sites, matrix, capStartHr, numDays, draws, m - 1).value;
      var i0 := m - 1;
      var h0 := StartHour(draws, capStartHr, i0);
      var home := HomeSite(sites, draws, i0);
      DaysShape(matrix, draws, i0, h0, home, numDays);
      var days := DaysUpTo(Walk(matrix, draws, i0, h0), home, numDays).value;
      DaysRowsOrdered(subs, subs[i0], days);
      var b := DaysRows(subs[i0], days);
      assert IndexOf(subs, subs[i0]) == i0;
      assert a + b == RunUpTo(subs, sites, matrix, capStartHr, numDays, draws, m).value;
      OrderedAppend(subs, a, b);
    }
  }

  // ---------------------------------------------------------------------
  // No failure on a well-formed configuration
  // ---------------------------------------------------------------------

  /** Days walked from inside `sites`, where every walk from a site of
      `sites` succeeds and stays inside `sites`, never fail and end inside
      `sites`. */
  lemma {:induction false} StayIn(walk: DayWalk, home: SiteId, n: nat, sites: seq<SiteId>)
    requires home in sites
    requires forall day, loc | loc in sites :: walk(day, loc).Ok?
    requires forall day, loc, v | loc in sites && walk(day, loc).Ok? && v in walk(day, loc).value :: v.loc in sites
    ensures DaysUpTo(walk, home, n).Ok?
    ensures LastLoc(home, DaysUpTo(walk, home, n).value) in sites
  {
    if n > 0 {
      StayIn(walk, home, n - 1, sites);
      var days := DaysUpTo(walk, home, n - 1).value;
      var vs := DaysNext(walk, home, n - 1, days);
      if vs != [] {
        assert vs[|vs| - 1] in vs;
      }
      assert (days + [vs])[|days|] == vs;
    }
  }

  /** A subscriber's days never fail when every site keeps a destination
      among the sites, and every day opens on a cell site. */
  lemma DaysStayIn(matrix: seq<Edge>, draws: Draws, sub: nat, startHr: nat, home: SiteId,
                   n: nat, sites: seq<SiteId>)
    requires home in sites
    requires forall s | s in sites :: |Destinations(matrix, s)| > 0
    requires forall s, d | s in sites && d in Destinations(matrix, s) :: d in sites
    ensures DaysUpTo(Walk(matrix, draws, sub, startHr), home, n).Ok?
    ensures LastLoc(home, DaysUpTo(Walk(matrix, draws, sub, startHr), home, n).value) in sites
  {
    var walk := Walk(matrix, draws, sub, startHr);
    forall day, loc | loc in sites
      ensures walk(day, loc).Ok? && forall v | v in walk(day, loc).value :: v.loc in sites
    {
      DayUpToStaysIn(matrix, draws, sub, day, startHr, loc, DayEnd(startHr), sites);
      assert walk(day, loc) == Day(matrix, draws, sub, day, startHr, loc);
    }
    StayIn(walk, home, n, sites);
  }

  /** With distinct cell sites, at least two of them, k >= 1 and a positive
      cap on the start hour, the simulation over the retained table never
      raises. */
  lemma RunSucceeds(subs: seq<SubId>, sites: seq<SiteId>, dist: (SiteId, SiteId) -> real, k: int,
                    capStartHr: int, numDays: nat, draws: Draws, m: nat)
    requires Distinct(sites) && |sites| >= 2 && k >= 1 && capStartHr >= 1 && m <= |subs|
    ensures RunUpTo(subs, sites, Matrix(sites, dist, k), capStartHr, numDays, draws, m).Ok?
  {
    var matrix := Matrix(sites, dist, k);
    forall s | s in sites ensures |Destinations(matrix, s)| > 0 {
      NeighbourCount(sites, dist, k, s);
    }
    forall s, d | s in sites && d in Destinations(matrix, s) ensures d in sites {
      DestinationsAreOtherSites(sites, dist, k, s, d);
    }
    RunSucceedsFrom(subs, sites, matrix, capStartHr, numDays, draws, m);
  }

  lemma {:induction false} RunSucceedsFrom(subs: seq<SubId>, sites: seq<SiteId>, matrix: seq<Edge>,
                                           capStartHr: int, numDays: nat, draws: Draws, m: nat)
    requires |sites| > 0 && capStartHr >= 1 && m <= |subs|
    requires forall s | s in sites :: |Destinations(matrix, s)| > 0
    requires forall s, d | s in sites && d in Destinations(matrix, s) :: d in sites
    ensures RunUpTo(subs, sites, matrix, capStartHr, numDays, draws, m).Ok?
  {
    if m > 0 {
      RunSucceedsFrom(subs, sites, matrix, capStartHr, numDays, draws, m - 1);
      DaysStayIn(matrix, draws, m - 1, StartHour(draws, capStartHr, m - 1),
                 HomeSite(sites, draws, m - 1), numDays, sites);
    }
  }

  // ---------------------------------------------------------------------
  // When rows are produced
  // ---------------------------------------------------------------------

  /** Without dates, a run that succeeds produces no row. */
  lemma {:induction false} RunWithoutDays(subs: seq<SubId>, sites: seq<SiteId>, matrix: seq<Edge>,
                                          capStartHr: int, draws: Draws, m: nat)
    requires m <= |subs| && RunUpTo(subs, sites, matrix, capStartHr, 0, draws, m).Ok?
    ensures RunUpTo(subs, sites, matrix, capStartHr, 0, draws, m).value == []
  {
    if m > 0 {
      RunWithoutDays(subs, sites, matrix, capStartHr, draws, m - 1);
    }
  }

  /** With at least one subscriber and one date, a run that succeeds
      produces at least one row: every day records its opening visit. */
  lemma RunProducesRows(subs: seq<SubId>, sites: seq<SiteId>, matrix: seq<Edge>,
                        capStartHr: int, numDays: nat, draws: Draws, m: nat)
    requires 1 <= m <= |subs| && numDays >= 1
    requires RunUpTo(subs, sites, matrix, capStartHr, numDays, draws, m).Ok?
    ensures |RunUpTo(subs, sites, matrix, capStartHr, numDays, draws, m).value| >= 1
  {
    var i := m - 1;
    var prev := RunUpTo(subs, sites, matrix, capStartHr, numDays, draws, i).value;
    var h0 := StartHour(draws, capStartHr, i);
    var home := HomeSite(sites, draws, i);
    DaysChain(matrix, draws, i, h0, home, numDays);
    var days := DaysUpTo(Walk(matrix, draws, i, h0), home, numDays).value;
    var n := |days| - 1;
    assert days[n] != [];
    assert |DaysRows(subs[i], days)| >= |DayRows(subs[i], n, days[n])|;
    assert RunUpTo(subs, sites, matrix, capStartHr, numDays, draws, m).value == prev + DaysRows(subs[i], days);
  }

  // ---------------------------------------------------------------------
  // The days of one subscriber on the retained table
  // ---------------------------------------------------------------------

  /** On the retained table of distinct sites, consecutive sites of a day
      differ: a hop never stays on its site. */
  lemma ConsecutiveSitesDiffer(sites: seq<SiteId>, dist: (SiteId, SiteId) -> real, k: int, vs: seq<Visit>)
    requires Distinct(sites) && HopsRetained(Matrix(sites, dist, k), vs)
    ensures forall i, j | 0 <= i < j < |vs| && j == i + 1 :: vs[j].loc != vs[i].loc
  {
    forall i, j | 0 <= i < j < |vs| && j == i + 1 ensures vs[j].loc != vs[i].loc {
      DestinationsMembership(Matrix(sites, dist, k), vs[i].loc, vs[j].loc);
      DestinationsAreOtherSites(sites, dist, k, vs[i].loc, vs[j].loc);
    }
  }

  /** Every day of subscriber m opens at the subscriber's one start hour,
      which lies in [0, cap_start_hr); its hours strictly increase and stay
      at most 23, so it has at most 24 - start hour records; every step
      follows a retained pair and moves to another site. */
  lemma SubscriberDaysShape(sites: seq<SiteId>, dist: (SiteId, SiteId) -> real, k: int,
                            capStartHr: int, numDays: nat, draws: Draws, m: nat)
    requires Distinct(sites) && |sites| > 0 && 0 < capStartHr <= HrsInADay
    requires DaysUpTo(Walk(Matrix(sites, dist, k), draws, m, StartHour(draws, capStartHr, m)),
                      HomeSite(sites, draws, m), numDays).Ok?
    ensures var h0 := StartHour(draws, capStartHr, m);
            var days: seq<seq<Visit>> := DaysUpTo(Walk(Matrix(sites, dist, k), draws, m, h0), HomeSite(sites, draws, m), numDays).value;
            && h0 < capStartHr
            && (forall d | 0 <= d < numDays ::
                  && days[d] != [] && days[d][0].hr == h0
                  && |days[d]| <= HrsInADay - h0
                  && StrictlyAscending(days[d])
                  && (forall i | 0 <= i < |days[d]| :: days[d][i].hr <= 23)
                  && HopsRetained(Matrix(sites, dist, k), days[d])
                  && (forall i, j | 0 <= i < j < |days[d]| && j == i + 1 :: days[d][j].loc != days[d][i].loc))
  {
    var matrix := Matrix(sites, dist, k);
    var h0 := StartHour(draws, capStartHr, m);
    var home := HomeSite(sites, draws, m);
    DaysChain(matrix, draws, m, h0, home, numDays);
    DaysShape(matrix, draws, m, h0, home, numDays);
    var days: seq<seq<Visit>> := DaysUpTo(Walk(matrix, draws, m, h0), home, numDays).value;
    forall d | 0 <= d < numDays
      ensures forall i, j | 0 <= i < j < |days[d]| && j == i + 1 :: days[d][j].loc != days[d][i].loc
    {
      ConsecutiveSitesDiffer(sites, dist, k, days[d]);
    }
  }
}
