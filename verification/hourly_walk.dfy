/**
 * One subscriber-day of the walk: the day opens with a record at the
 * current hour and site; for each later hour up to 23 a "move" draw is
 * made, and on a move the next site is picked uniformly among the retained
 * destinations of the current site and recorded with that hour.
 *
 * Randomness is an oracle: every draw is a function of where it is made
 * (subscriber position, day position, hour). A draw that picks from a list
 * is any natural number, reduced modulo the length of the list.
 */
module HourlyWalk {
  import opened Common
  import opened NeighbourTable

  /** HRS_IN_A_DAY: the hour loop stops before this hour. */
  const HrsInADay: nat := 24

  /** The random draws of a run. */
  datatype Draws = Draws(
    /** subscriber position -> draw from range(cap_start_hr) */
    startHr: nat -> nat,
    /** subscriber position -> draw from the cell-site column */
    homeSite: nat -> nat,
    /** (subscriber, day, hour) -> the with_transaction coin */
    withTransaction: (nat, nat, nat) -> bool,
    /** (subscriber, day, hour) -> draw among the current site's destinations */
    nextSite: (nat, nat, nat) -> nat)

  /** One entry of the paired `hrs` / `locs` lists. */
  datatype Visit = Visit(hr: nat, loc: SiteId)

  /** The site the walk moves to from `loc` when hour `hr` draws a move. */
  function Hop(matrix: seq<Edge>, draws: Draws, sub: nat, day: nat, hr: nat, loc: SiteId): (r: Result<SiteId>)
    ensures r.Ok? <==> |Destinations(matrix, loc)| > 0
    ensures r.Ok? ==> r.value in Destinations(matrix, loc)
    ensures r.Err? ==> r.error == NoNeighbours(loc)
  {
    var dests := Destinations(matrix, loc);
    if |dests| == 0 then Err(NoNeighbours(loc))
    else Ok(dests[draws.nextSite(sub, day, hr) % |dests|])
  }

  /** Every retained destination can be drawn: the draw i lands on the i-th
      destination of the current site. */
  lemma HopReaches(matrix: seq<Edge>, draws: Draws, sub: nat, day: nat, hr: nat, loc: SiteId, i: nat)
    requires i < |Destinations(matrix, loc)| && draws.nextSite(sub, day, hr) == i
    ensures Hop(matrix, draws, sub, day, hr, loc) == Ok(Destinations(matrix, loc)[i])
  {
    ModBelow(i, |Destinations(matrix, loc)|);
  }

  /** A draw below the length of a list picks the element at that index. */
  lemma ModBelow(i: nat, n: nat)
    requires i < n
    ensures i % n == i
  {
    assert i == 0 * n + i;
  }

  /** The visits of one day at the hours below `h`: the opening visit at
      `startHr`, then one visit per hour that drew a move. */
  function DayUpTo(matrix: seq<Edge>, draws: Draws, sub: nat, day: nat,
                   startHr: nat, startLoc: SiteId, h: nat): (r: Result<seq<Visit>>)
    requires startHr < h
    ensures r.Ok? ==> r.value != [] && r.value[0] == Visit(startHr, startLoc)
    decreases h - startHr
  {
    if h == startHr + 1 then Ok([Visit(startHr, startLoc)])
    else
      match DayUpTo(matrix, draws, sub, day, startHr, startLoc, h - 1)
      case Err(e) => Err(e)
      case Ok(vs) =>
        if !draws.withTransaction(sub, day, h - 1) then Ok(vs)
        else
          match Hop(matrix, draws, sub, day, h - 1, vs[|vs| - 1].loc)
          case Err(e) => Err(e)
          case Ok(next) => Ok(vs + [Visit(h - 1, next)])
  }

  /** The hour right after the last hour the day's loop considers. */
  function DayEnd(startHr: nat): (h: nat)
    ensures startHr < h
    ensures startHr < HrsInADay ==> h == HrsInADay
  {
    if startHr < HrsInADay then HrsInADay else startHr + 1
  }

  /** The whole day that opens at `startHr` on `startLoc`. */
  function Day(matrix: seq<Edge>, draws: Draws, sub: nat, day: nat, startHr: nat, startLoc: SiteId): Result<seq<Visit>> {
    DayUpTo(matrix, draws, sub, day, startHr, startLoc, DayEnd(startHr))
  }

  /** The `hrs` and `locs` lists read side by side. */
  function Zip(hrs: seq<nat>, locs: seq<SiteId>): (vs: seq<Visit>)
    requires |hrs| == |locs|
    ensures |vs| == |hrs|
    ensures forall i | 0 <= i < |vs| :: vs[i] == Visit(hrs[i], locs[i])
  {
    if hrs == [] then [] else [Visit(hrs[0], locs[0])] + Zip(hrs[1..], locs[1..])
  }

  /** Hours strictly increase along the day, so no hour is recorded twice. */
  predicate StrictlyAscending(vs: seq<Visit>) {
    forall i, j | 0 <= i < j < |vs| :: vs[i].hr < vs[j].hr
  }

  /** Every step of the day follows a retained pair of the table. */
  ghost predicate HopsRetained(matrix: seq<Edge>, vs: seq<Visit>) {
    forall i, j | 0 <= i < j < |vs| && j == i + 1 :: Retained(matrix, vs[i].loc, vs[j].loc)
  }

  /** The hour loop of one subscriber-day: `hrs` and `locs` start with the
      current hour and site and grow by one entry per move. */
  method WalkDay(matrix: seq<Edge>, draws: Draws, sub: nat, day: nat, currHr: nat, startLoc: SiteId)
    returns (res: Result<(seq<nat>, seq<SiteId>)>)
    ensures res.Ok? <==> Day(matrix, draws, sub, day, currHr, startLoc).Ok?
    ensures res.Err? ==> res.error == Day(matrix, draws, sub, day, currHr, startLoc).error
    ensures res.Ok? ==> && |res.value.0| == |res.value.1|
                        && Zip(res.value.0, res.value.1) == Day(matrix, draws, sub, day, currHr, startLoc).value
  {
    var currLoc := startLoc;
    var hrs: seq<nat> := [currHr];
    var locs := [currLoc];
    assert Zip(hrs, locs) == [Visit(currHr, startLoc)];
    var hr := currHr + 1;
    while hr < HrsInADay
      invariant currHr < hr <= DayEnd(currHr)
      invariant |hrs| == |locs| > 0 && currLoc == locs[|locs| - 1]
      invariant DayUpTo(matrix, draws, sub, day, currHr, startLoc, hr) == Ok(Zip(hrs, locs))
    {
      var walked := WalkHour(matrix, draws, sub, day, currHr, startLoc, hr, currLoc, hrs, locs);
      if walked.Err? {
        return Err(walked.error);
      }
      hrs, locs := walked.value.0, walked.value.1;
      currLoc := locs[|locs| - 1];
      hr := hr + 1;
    }
    res := Ok((hrs, locs));
  }

  /** One pass of the hour loop at hour `hr`, standing at `currLoc`: the
      move coin is drawn, and on a move the next site is drawn and appended
      with the hour. A move from a site without destinations fails the day. */
  method WalkHour(matrix: seq<Edge>, draws: Draws, sub: nat, day: nat, currHr: nat, startLoc: SiteId,
                  hr: nat, currLoc: SiteId, hrs: seq<nat>, locs: seq<SiteId>)
    returns (res: Result<(seq<nat>, seq<SiteId>)>)
    requires currHr < hr < DayEnd(currHr)
    requires |hrs| == |locs| > 0 && currLoc == locs[|locs| - 1]
    requires DayUpTo(matrix, draws, sub, day, currHr, startLoc, hr) == Ok(Zip(hrs, locs))
    ensures res.Ok? <==> DayUpTo(matrix, draws, sub, day, currHr, startLoc, hr + 1).Ok?
    ensures res.Err? ==> Day(matrix, draws, sub, day, currHr, startLoc) == Err(res.error)
    ensures res.Ok? ==> && |res.value.0| == |res.value.1| > 0
                        && DayUpTo(matrix, draws, sub, day, currHr, startLoc, hr + 1) == Ok(Zip(res.value.0, res.value.1))
  {
    var withTransaction := draws.withTransaction(sub, day, hr);
    if !withTransaction {
      HourStays(matrix, draws, sub, day, currHr, startLoc, hr, Zip(hrs, locs));
      return Ok((hrs, locs));
    }
    var next := Hop(matrix, draws, sub, day, hr, currLoc);
    if next.Err? {
      DayFailsAt(matrix, draws, sub, day, currHr, startLoc, hr, hrs, locs);
      return Err(next.error);
    }
    HourMoves(matrix, draws, sub, day, currHr, startLoc, hr, hrs, locs);
    res := Ok((hrs + [hr], locs + [next.value]));
  }

  /** An hour without a move adds nothing to the day. */
  lemma HourStays(matrix: seq<Edge>, draws: Draws, sub: nat, day: nat,
                  startHr: nat, startLoc: SiteId, h: nat, vs: seq<Visit>)
    requires startHr < h && DayUpTo(matrix, draws, sub, day, startHr, startLoc, h) == Ok(vs)
    requires !draws.withTransaction(sub, day, h)
    ensures DayUpTo(matrix, draws, sub, day, startHr, startLoc, h + 1) == Ok(vs)
  {
  }

  /** An hour with a move that finds a destination records the hour and the
      destination. */
  lemma HourMoves(matrix: seq<Edge>, draws: Draws, sub: nat, day: nat,
                  startHr: nat, startLoc: SiteId, h: nat, hrs: seq<nat>, locs: seq<SiteId>)
    requires startHr < h && |hrs| == |locs| > 0
    requires DayUpTo(matrix, draws, sub, day, startHr, startLoc, h) == Ok(Zip(hrs, locs))
    requires draws.withTransaction(sub, day, h)
    requires Hop(matrix, draws, sub, day, h, locs[|locs| - 1]).Ok?
    ensures DayUpTo(matrix, draws, sub, day, startHr, startLoc, h + 1)
            == Ok(Zip(hrs + [h], locs + [Hop(matrix, draws, sub, day, h, locs[|locs| - 1]).value]))
  {
    var vs := Zip(hrs, locs);
    assert vs[|vs| - 1].loc == locs[|locs| - 1];
    ZipSnoc(hrs, locs, h, Hop(matrix, draws, sub, day, h, locs[|locs| - 1]).value);
  }

  /** One more hour of a day, from the visits so far. */
  lemma DayUpToNext(matrix: seq<Edge>, draws: Draws, sub: nat, day: nat,
                    startHr: nat, startLoc: SiteId, h: nat, vs: seq<Visit>)
    requires startHr < h && DayUpTo(matrix, draws, sub, day, startHr, startLoc, h) == Ok(vs)
    ensures DayUpTo(matrix, draws, sub, day, startHr, startLoc, h + 1)
            == if !draws.withTransaction(sub, day, h) then Ok(vs)
               else match Hop(matrix, draws, sub, day, h, vs[|vs| - 1].loc)
                    case Err(e) => Err(e)
                    case Ok(next) => Ok(vs + [Visit(h, next)])
  {
  }

  /** A move that finds no destination ends the whole day with that error. */
  lemma DayFailsAt(matrix: seq<Edge>, draws: Draws, sub: nat, day: nat,
                   startHr: nat, startLoc: SiteId, h: nat, hrs: seq<nat>, locs: seq<SiteId>)
    requires startHr < h < DayEnd(startHr) && |hrs| == |locs| > 0
    requires DayUpTo(matrix, draws, sub, day, startHr, startLoc, h) == Ok(Zip(hrs, locs))
    requires draws.withTransaction(sub, day, h)
    requires Hop(matrix, draws, sub, day, h, locs[|locs| - 1]).Err?
    ensures Day(matrix, draws, sub, day, startHr, startLoc) == Err(Hop(matrix, draws, sub, day, h, locs[|locs| - 1]).error)
  {
    var vs := Zip(hrs, locs);
    assert vs[|vs| - 1].loc == locs[|locs| - 1];
    DayUpToNext(matrix, draws, sub, day, startHr, startLoc, h, vs);
    DayUpToErrorSticks(matrix, draws, sub, day, startHr, startLoc, h + 1, DayEnd(startHr));
  }

  lemma ZipSnoc(hrs: seq<nat>, locs: seq<SiteId>, hr: nat, loc: SiteId)
    requires |hrs| == |locs|
    ensures Zip(hrs + [hr], locs + [loc]) == Zip(hrs, locs) + [Visit(hr, loc)]
  {
    var l, r := Zip(hrs + [hr], locs + [loc]), Zip(hrs, locs) + [Visit(hr, loc)];
    assert |l| == |r|;
    forall i | 0 <= i < |l| ensures l[i] == r[i] {
      if i < |hrs| {
        assert (hrs + [hr])[i] == hrs[i] && (locs + [loc])[i] == locs[i];
      }
    }
  }

  /** Once a day has failed, the rest of it fails with the same error. */
  lemma {:induction false} DayUpToErrorSticks(matrix: seq<Edge>, draws: Draws, sub: nat, day: nat,
                                              startHr: nat, startLoc: SiteId, h: nat, h': nat)
    requires startHr < h <= h'
    requires DayUpTo(matrix, draws, sub, day, startHr, startLoc, h).Err?
    ensures DayUpTo(matrix, draws, sub, day, startHr, startLoc, h')
            == DayUpTo(matrix, draws, sub, day, startHr, startLoc, h)
    decreases h' - h
  {
    if h < h' {
      DayUpToErrorSticks(matrix, draws, sub, day, startHr, startLoc, h, h' - 1);
    }
  }

  /** The shape of a day's visits: it opens at the start hour and site; later
      hours lie strictly between the start hour and `h`, strictly increase,
      are exactly the hours that drew a move, and each step follows a
      retained pair. */
  lemma DayUpToShape(matrix: seq<Edge>, draws: Draws, sub: nat, day: nat,
                     startHr: nat, startLoc: SiteId, h: nat)
    requires startHr < h
    requires DayUpTo(matrix, draws, sub, day, startHr, startLoc, h).Ok?
    ensures var vs := DayUpTo(matrix, draws, sub, day, startHr, startLoc, h).value;
            && |vs| <= h - startHr
            && (forall i | 0 < i < |vs| :: startHr < vs[i].hr < h)
            && StrictlyAscending(vs)
            && HopsRetained(matrix, vs)
            && (forall t | startHr < t < h ::
                  draws.withTransaction(sub, day, t) <==> Recorded(vs, t))
  {
    DayUpToHours(matrix, draws, sub, day, startHr, startLoc, h);
    DayUpToMoves(matrix, draws, sub, day, startHr, startLoc, h);
  }

  /** The hours and steps of a day: bounded, increasing, along retained pairs. */
  lemma DayUpToHours(matrix: seq<Edge>, draws: Draws, sub: nat, day: nat,
                     startHr: nat, startLoc: SiteId, h: nat)
    requires startHr < h
    requires DayUpTo(matrix, draws, sub, day, startHr, startLoc, h).Ok?
    ensures var vs := DayUpTo(matrix, draws, sub, day, startHr, startLoc, h).value;
            && |vs| <= h - startHr
            && (forall i | 0 < i < |vs| :: startHr < vs[i].hr < h)
            && StrictlyAscending(vs)
            && HopsRetained(matrix, vs)
  {
    DayUpToRange(matrix, draws, sub, day, startHr, startLoc, h);
    DayUpToAscending(matrix, draws, sub, day, startHr, startLoc, h);
    DayUpToHops(matrix, draws, sub, day, startHr, startLoc, h);
  }

  /** A day below hour h has at most h - startHr visits, the later ones at
      hours strictly between startHr and h. */
  lemma {:induction false} DayUpToRange(matrix: seq<Edge>, draws: Draws, sub: nat, day: nat,
                                        startHr: nat, startLoc: SiteId, h: nat)
    requires startHr < h
    requires DayUpTo(matrix, draws, sub, day, startHr, startLoc, h).Ok?
    ensures var vs := DayUpTo(matrix, draws, sub, day, startHr, startLoc, h).value;
            && |vs| <= h - startHr
            && (forall i | 0 < i < |vs| :: startHr < vs[i].hr < h)
    decreases h - startHr
  {
    if h > startHr + 1 {
      DayUpToRange(matrix, draws, sub, day, startHr, startLoc, h - 1);
      DayUpToStep(matrix, draws, sub, day, startHr, startLoc, h);
      var vs := DayUpTo(matrix, draws, sub, day, startHr, startLoc, h).value;
      var prev := DayUpTo(matrix, draws, sub, day, startHr, startLoc, h - 1).value;
      forall i | 0 < i < |vs| ensures startHr < vs[i].hr < h {
        if i < |prev| {
          assert vs[i] == prev[i];
        }
      }
    }
  }

  /** The hours of a day strictly increase. */
  lemma {:induction false} DayUpToAscending(matrix: seq<Edge>, draws: Draws, sub: nat, day: nat,
                                            startHr: nat, startLoc: SiteId, h: nat)
    requires startHr < h
    requires DayUpTo(matrix, draws, sub, day, startHr, startLoc, h).Ok?
    ensures StrictlyAscending(DayUpTo(matrix, draws, sub, day, startHr, startLoc, h).value)
    decreases h - startHr
  {
    if h > startHr + 1 {
      DayUpToAscending(matrix, draws, sub, day, startHr, startLoc, h - 1);
      DayUpToRange(matrix, draws, sub, day, startHr, startLoc, h - 1);
      DayUpToStep(matrix, draws, sub, day, startHr, startLoc, h);
      var vs := DayUpTo(matrix, draws, sub, day, startHr, startLoc, h).value;
      var prev := DayUpTo(matrix, draws, sub, day, startHr, startLoc, h - 1).value;
      forall i, j | 0 <= i < j < |vs| ensures vs[i].hr < vs[j].hr {
        assert vs[i] == prev[i];
        if j < |prev| {
          assert vs[j] == prev[j];
        }
      }
    }
  }

  /** Every step of a day follows a retained pair. */
  lemma {:induction false} DayUpToHops(matrix: seq<Edge>, draws: Draws, sub: nat, day: nat,
                                       startHr: nat, startLoc: SiteId, h: nat)
    requires startHr < h
    requires DayUpTo(matrix, draws, sub, day, startHr, startLoc, h).Ok?
    ensures HopsRetained(matrix, DayUpTo(matrix, draws, sub, day, startHr, startLoc, h).value)
    decreases h - startHr
  {
    if h > startHr + 1 {
      DayUpToHops(matrix, draws, sub, day, startHr, startLoc, h - 1);
      DayUpToStep(matrix, draws, sub, day, startHr, startLoc, h);
      var vs := DayUpTo(matrix, draws, sub, day, startHr, startLoc, h).value;
      var prev := DayUpTo(matrix, draws, sub, day, startHr, startLoc, h - 1).value;
      forall i, j | 0 <= i < j < |vs| && j == i + 1 ensures Retained(matrix, vs[i].loc, vs[j].loc) {
        assert vs[i] == prev[i];
        if j < |prev| {
          assert vs[j] == prev[j];
        }
      }
    }
  }

  /** The last hour of a day: on a move it adds one visit along a retained
      pair, otherwise the visits stay as they were. */
  lemma DayUpToStep(matrix: seq<Edge>, draws: Draws, sub: nat, day: nat,
                    startHr: nat, startLoc: SiteId, h: nat)
    requires startHr + 1 < h
    requires DayUpTo(matrix, draws, sub, day, startHr, startLoc, h).Ok?
    ensures DayUpTo(matrix, draws, sub, day, startHr, startLoc, h - 1).Ok?
    ensures var vs := DayUpTo(matrix, draws, sub, day, startHr, startLoc, h).value;
            var prev := DayUpTo(matrix, draws, sub, day, startHr, startLoc, h - 1).value;
            if draws.withTransaction(sub, day, h - 1) then
              && |vs| == |prev| + 1 && vs[..|prev|] == prev && vs[|prev|].hr == h - 1
              && Retained(matrix, prev[|prev| - 1].loc, vs[|prev|].loc)
            else vs == prev
  {
    var g := h - 1;
    assert DayUpTo(matrix, draws, sub, day, startHr, startLoc, g).Ok?;
    var prev := DayUpTo(matrix, draws, sub, day, startHr, startLoc, g).value;
    if draws.withTransaction(sub, day, g) {
      DayUpToStepMove(matrix, draws, sub, day, startHr, startLoc, g, prev);
    } else {
      HourStays(matrix, draws, sub, day, startHr, startLoc, g, prev);
    }
  }

  /** An hour that draws a move and succeeds adds one visit along a
      retained pair. */
  lemma DayUpToStepMove(matrix: seq<Edge>, draws: Draws, sub: nat, day: nat,
                        startHr: nat, startLoc: SiteId, h: nat, prev: seq<Visit>)
    requires startHr < h && DayUpTo(matrix, draws, sub, day, startHr, startLoc, h) == Ok(prev)
    requires draws.withTransaction(sub, day, h)
    requires DayUpTo(matrix, draws, sub, day, startHr, startLoc, h + 1).Ok?
    ensures var vs := DayUpTo(matrix, draws, sub, day, startHr, startLoc, h + 1).value;
            && |vs| == |prev| + 1 && vs[..|prev|] == prev && vs[|prev|].hr == h
            && Retained(matrix, prev[|prev| - 1].loc, vs[|prev|].loc)
  {
    DayUpToNext(matrix, draws, sub, day, startHr, startLoc, h, prev);
    var next := Hop(matrix, draws, sub, day, h, prev[|prev| - 1].loc);
    assert next.Ok?;
    SnocParts(prev, Visit(h, next.value));
    DestinationsMembership(matrix, prev[|prev| - 1].loc, next.value);
  }

  lemma SnocParts(vs: seq<Visit>, v: Visit)
    ensures |vs + [v]| == |vs| + 1 && (vs + [v])[..|vs|] == vs && (vs + [v])[|vs|] == v
  {
    assert (vs + [v])[..|vs|] == vs;
  }


  /** An hour after the start is recorded exactly when it drew a move. */
  lemma DayUpToMoves(matrix: seq<Edge>, draws: Draws, sub: nat, day: nat,
                     startHr: nat, startLoc: SiteId, h: nat)
    requires startHr < h
    requires DayUpTo(matrix, draws, sub, day, startHr, startLoc, h).Ok?
    ensures var vs := DayUpTo(matrix, draws, sub, day, startHr, startLoc, h).value;
            forall t | startHr < t < h ::
              draws.withTransaction(sub, day, t) <==> Recorded(vs, t)
  {
    forall t | startHr < t < h {
      DayUpToMove(matrix, draws, sub, day, startHr, startLoc, h, t);
    }
  }

  /** Hour t is recorded exactly when it drew a move. */
  lemma {:induction false} DayUpToMove(matrix: seq<Edge>, draws: Draws, sub: nat, day: nat,
                                       startHr: nat, startLoc: SiteId, h: nat, t: nat)
    requires startHr < t < h
    requires DayUpTo(matrix, draws, sub, day, startHr, startLoc, h).Ok?
    ensures draws.withTransaction(sub, day, t)
            <==> Recorded(DayUpTo(matrix, draws, sub, day, startHr, startLoc, h).value, t)
    decreases h - startHr
  {
    var vs := DayUpTo(matrix, draws, sub, day, startHr, startLoc, h).value;
    var prev := DayUpTo(matrix, draws, sub, day, startHr, startLoc, h - 1).value;
    DayUpToStep(matrix, draws, sub, day, startHr, startLoc, h);
    if t < h - 1 {
      DayUpToMove(matrix, draws, sub, day, startHr, startLoc, h - 1, t);
    } else {
      DayUpToRange(matrix, draws, sub, day, startHr, startLoc, h - 1);
      NotRecordedAbove(prev, t);
    }
    RecordedStep(prev, vs, t, draws.withTransaction(sub, day, h - 1), h - 1);
  }

  /** One hour's step adds hour g to the record exactly when it moved. */
  lemma RecordedStep(prev: seq<Visit>, vs: seq<Visit>, t: nat, moved: bool, g: nat)
    requires moved ==> prev != [] && |vs| == |prev| + 1 && vs[..|prev|] == prev && vs[|prev|].hr == g
    requires !moved ==> vs == prev
    ensures Recorded(vs, t) <==> Recorded(prev, t) || (moved && t == g)
  {
    if moved {
      assert vs == prev + [vs[|prev|]];
      RecordedSnoc(prev, vs[|prev|], t);
    }
  }

  /** Hour t is recorded after the opening visit. */
  ghost predicate Recorded(vs: seq<Visit>, t: nat) {
    exists i :: 0 < i < |vs| && vs[i].hr == t
  }

  lemma RecordedSnoc(vs: seq<Visit>, v: Visit, t: nat)
    requires vs != []
    ensures Recorded(vs + [v], t) <==> Recorded(vs, t) || v.hr == t
  {
    var ws := vs + [v];
    if Recorded(ws, t) && v.hr != t {
      var i :| 0 < i < |ws| && ws[i].hr == t;
      assert i < |vs| && vs[i] == ws[i];
    }
    if Recorded(vs, t) {
      var i :| 0 < i < |vs| && vs[i].hr == t;
      assert ws[i] == vs[i];
    }
    if v.hr == t {
      assert ws[|vs|] == v;
    }
  }

  lemma NotRecordedAbove(vs: seq<Visit>, t: nat)
    requires forall i | 0 < i < |vs| :: vs[i].hr < t
    ensures !Recorded(vs, t)
  {
  }

  /** A day fails only on a move from a site that keeps no destination. */
  lemma {:induction false} DayUpToFailure(matrix: seq<Edge>, draws: Draws, sub: nat, day: nat,
                                          startHr: nat, startLoc: SiteId, h: nat)
    requires startHr < h
    requires DayUpTo(matrix, draws, sub, day, startHr, startLoc, h).Err?
    ensures DayUpTo(matrix, draws, sub, day, startHr, startLoc, h).error.NoNeighbours?
    ensures |Destinations(matrix, DayUpTo(matrix, draws, sub, day, startHr, startLoc, h).error.site)| == 0
    decreases h - startHr
  {
    if DayUpTo(matrix, draws, sub, day, startHr, startLoc, h - 1).Err? {
      DayUpToFailure(matrix, draws, sub, day, startHr, startLoc, h - 1);
    }
  }

  /** A day that opens inside a set of sites closed under hops, each of which
      keeps a destination, never fails and never leaves that set. */
  lemma {:induction false} DayUpToStaysIn(matrix: seq<Edge>, draws: Draws, sub: nat, day: nat,
                                          startHr: nat, startLoc: SiteId, h: nat, sites: seq<SiteId>)
    requires startHr < h && startLoc in sites
    requires forall s | s in sites :: |Destinations(matrix, s)| > 0
    requires forall s, d | s in sites && d in Destinations(matrix, s) :: d in sites
    ensures DayUpTo(matrix, draws, sub, day, startHr, startLoc, h).Ok?
    ensures forall v | v in DayUpTo(matrix, draws, sub, day, startHr, startLoc, h).value :: v.loc in sites
    decreases h - startHr
  {
    if h > startHr + 1 {
      DayUpToStaysIn(matrix, draws, sub, day, startHr, startLoc, h - 1, sites);
      var prev := DayUpTo(matrix, draws, sub, day, startHr, startLoc, h - 1).value;
      assert prev[|prev| - 1] in prev;
    }
  }

  /** A whole day, started before hour 24: hours are strictly increasing and
      lie in [startHr, 23], so there are at most 24 - startHr records. */
  lemma DayShape(matrix: seq<Edge>, draws: Draws, sub: nat, day: nat, startHr: nat, startLoc: SiteId)
    requires startHr < HrsInADay
    requires Day(matrix, draws, sub, day, startHr, startLoc).Ok?
    ensures var vs := Day(matrix, draws, sub, day, startHr, startLoc).value;
            && vs[0] == Visit(startHr, startLoc)
            && |vs| <= HrsInADay - startHr
            && (forall v | v in vs :: startHr <= v.hr <= 23)
            && StrictlyAscending(vs)
            && HopsRetained(matrix, vs)
            && (forall t | startHr < t < HrsInADay ::
                  draws.withTransaction(sub, day, t) <==> Recorded(vs, t))
  {
    DayUpToShape(matrix, draws, sub, day, startHr, startLoc, HrsInADay);
    var vs := Day(matrix, draws, sub, day, startHr, startLoc).value;
    forall v | v in vs ensures startHr <= v.hr <= 23 {
      var i :| 0 <= i < |vs| && vs[i] == v;
    }
  }

  /** What every whole day satisfies: strictly increasing hours, steps along
      retained pairs and, when it starts before hour 24, at most
      24 - startHr visits, all before hour 24. */
  ghost predicate WellFormedDay(matrix: seq<Edge>, startHr: nat, vs: seq<Visit>) {
    && StrictlyAscending(vs)
    && HopsRetained(matrix, vs)
    && (startHr < HrsInADay ==>
          && |vs| <= HrsInADay - startHr
          && forall i | 0 <= i < |vs| :: vs[i].hr < HrsInADay)
  }

  lemma DayWellFormed(matrix: seq<Edge>, draws: Draws, sub: nat, day: nat, startHr: nat, startLoc: SiteId)
    requires Day(matrix, draws, sub, day, startHr, startLoc).Ok?
    ensures WellFormedDay(matrix, startHr, Day(matrix, draws, sub, day, startHr, startLoc).value)
  {
    DayUpToHours(matrix, draws, sub, day, startHr, startLoc, DayEnd(startHr));
  }
}
