# Fake telco transactions: the neighbour table, the hourly walk and the ids

This project models the core of `scripts/make_fake_transactions.py`, the
script that synthesises a table of subscriber sightings at cell sites. The
script's `main` does three things, and the model has one module for each:

- **The neighbour table** (`NeighbourTable`, `neighbour_table.dfy`).
  - Every ordered pair of distinct cell sites is listed, in the order of
    `permutations(sites, 2)`. The merges that follow may reorder the rows;
    that order is not modelled (see "## Left out").
  - Each pair gets a distance.
  - Each pair is ranked with pandas' `"min"` rank among the pairs leaving the
    same origin.
  - Only the pairs whose rank is at most `k_nearest_neighbor` are kept.
- **The walk** (`HourlyWalk`, `hourly_walk.dfy` for one subscriber-day;
  `Simulation`, `simulation.dfy` for the subscriber and date loops).
  - Each subscriber draws a start hour from `range(cap_start_hr)` and a home
    site from the cell-site column, once each.
  - Every date opens with a record at that hour, on the site where the
    previous date ended. On the first date that is the home site.
  - Every later hour up to 23 draws a "move" coin. On a move the next site is
    picked uniformly among the kept destinations of the current site, and it
    is recorded with that hour.
  - Rows are appended subscriber by subscriber, date by date.
- **The ids** (`TxnIds`, `txn_ids.dfy`). Each row gets
  `glo-txn-` + `str(i+1).zfill(5)`, and the columns are put in file order.

`FakeTransactions` (`fake_transactions.dfy`) puts the three together.
`Common` (`common.dfy`) holds the shared types and the errors.

The loops of the script are Dafny methods, each with its body as a method
of its own:

- `HourlyWalk.WalkDay` is the hour loop, and `HourlyWalk.WalkHour` one hour.
- `Simulation.WalkDays` is the date loop, and `Simulation.WalkDate` one date.
- `Simulation.Simulate` is the subscriber loop, `Simulation.NextSubscriber`
  one pass of it, and `Simulation.WalkSubscriber` one subscriber.
- `FakeTransactions.MakeFakeTransactions` is the script body.

Each loop is proved equal to a recursive specification function (`Day`,
`DaysUpTo` and `Run`), and each loop body to one step of that function. The
lemmas state their properties in terms of those functions. `DaysUpTo` takes
the walk of one date as a function value (`Simulation.Walk` builds it from
the draws), so the lemmas about the date loop hold for any day walk.

Modelling choices:

- **Randomness.** Every random draw is an oracle: a value of the `Draws`
  record, selected by where the draw is made.
  - Start hour and home site are selected by subscriber position.
  - The move coin and the next-site choice are selected by subscriber, date
    and hour.
  - A draw that picks from a list is any natural number, reduced modulo the
    length of the list. The draw i picks the i-th element, so every element
    can be drawn (`HopReaches`, `StartHourReaches`, `HomeSiteReaches`).
  - The lemmas hold for all draws, so they hold whatever the seed.
- **Distance.** The distance between two sites is a parameter
  `dist: (SiteId, SiteId) -> real`. Only its values and their order matter
  to the table.
- **Dates.** A date is represented by its position in the simulated period
  (0 for the start date).
- **Errors.** The script raises in four places, and each becomes an `Err`
  of `Common.Error`:
  - `random.sample(range(cap_start_hr), 1)` with `cap_start_hr <= 0`;
  - sampling a home site from an empty cell-site column;
  - sampling the next site at a site that kept no destination;
  - selecting the output columns (line 151) when no row was walked. The
    table created at line 73 then has no columns but `txn_uid`, so the
    selection fails. This happens with no subscribers. In the model it also happens with
    zero dates, which the script never walks (see "## Left out").

The model follows the code:

- The start hour is drawn once per subscriber (line 102, outside the date
  loop), not afresh for every date.
- The next site is drawn uniformly among the kept destinations (lines
  128–130). It is not weighted by a softmax over scaled distances.
- The code validates neither `cap_start_hr` nor `k_nearest_neighbor`. With
  two sites or more, the walk fails only when a draw actually hits an empty
  choice, and the model fails exactly there. With `cap_start_hr > 24` the
  first hour of a day can be 24 or more, and such a day holds just that one
  record (`DayEnd`).
- With fewer than two sites the pair table is empty. The model goes on with
  an empty table (see "## Left out").

## Model

| member | source | states |
|---|---|---|
| NeighbourTable.PermutationsExactlyOnce | scripts/make_fake_transactions.py:43-44 | over distinct sites, the pair (a, b) occurs in the table exactly once when a and b are different sites, and otherwise not at all |
| NeighbourTable.PermutationsLength | scripts/make_fake_transactions.py:43 | the pair table of n sites has n·(n−1) rows |
| NeighbourTable.RankOrder | scripts/make_fake_transactions.py:54 | within one origin, ranks are at least 1, and one pair ranks below another exactly when it is strictly nearer; equal ranks exactly when the distances are equal |
| NeighbourTable.RankIsCompetition | scripts/make_fake_transactions.py:53-54 | the "min" rank of the pair (o, x) is 1 + the number of other sites strictly nearer to o than x is; every origin has n−1 pairs |
| NeighbourTable.MatrixMembership | scripts/make_fake_transactions.py:53-56 | a row is kept exactly when it is a pair of distinct sites, carries its distance and its "min" rank, and that rank is at most k |
| NeighbourTable.TiesKept | scripts/make_fake_transactions.py:54-56 | if a destination of o is kept, every destination of o at least as near is kept too, so ties at the cut are never split |
| NeighbourTable.DestinationsAreOtherSites | scripts/make_fake_transactions.py:129-130 | every hop candidate of an origin is a cell site other than the origin |
| NeighbourTable.NeighbourCount | scripts/make_fake_transactions.py:54-56 | every site keeps at least min(k, n−1) destinations, so at least one when k ≥ 1 and there are two sites or more |
| HourlyWalk.Hop | scripts/make_fake_transactions.py:129-130 | a hop succeeds exactly when the current site keeps a destination and lands on one of them; otherwise it fails with NoNeighbours at that site |
| HourlyWalk.HopReaches | scripts/make_fake_transactions.py:129-130 | every kept destination of the current site can be drawn: the draw i lands on the i-th one |
| HourlyWalk.DayUpTo | scripts/make_fake_transactions.py:114-131 | a day that succeeds starts with the visit at the start hour and start site |
| HourlyWalk.WalkDay | scripts/make_fake_transactions.py:114-131 | the hour loop succeeds exactly when the day specification does, fails with the same error, and its hrs/locs lists pair up into the specified visits |
| HourlyWalk.WalkHour | scripts/make_fake_transactions.py:121-131 | one pass of the hour loop: it fails exactly when the day fails at this hour. Without a move the visits so far are the visits up to the next hour; on a move the hour and the drawn destination are appended; a move at a site that keeps no destination makes the whole day fail with that error |
| HourlyWalk.DayFailsAt | scripts/make_fake_transactions.py:123-130 | once a move is drawn at a site that keeps no destination, the whole day fails with NoNeighbours at that site, whatever the later hours draw |
| HourlyWalk.DayUpToShape | scripts/make_fake_transactions.py:119-131 | a day's visits are strictly ascending in hour and every step follows a kept pair; an hour after the start is recorded exactly when its coin drew a move |
| HourlyWalk.DayUpToFailure | scripts/make_fake_transactions.py:129-130 | a day fails only with NoNeighbours, at a site that keeps no destination |
| HourlyWalk.DayUpToStaysIn | scripts/make_fake_transactions.py:129-131 | from a site of a set closed under hops, where every site keeps a destination, the day succeeds and never leaves the set |
| HourlyWalk.DayShape | scripts/make_fake_transactions.py:114-131 | a day starting before 24 opens with (start hour, start site), has at most 24 − start records, hours in [start, 23], strictly ascending, each step along a kept pair, one record per move drawn |
| HourlyWalk.DayWellFormed | scripts/make_fake_transactions.py:114-131 | every whole day, whatever its start hour, has strictly ascending hours and steps along kept pairs; started before 24 it has at most 24 − start records, all before hour 24 |
| Simulation.StartHour | scripts/make_fake_transactions.py:102 | the start hour lies in [0, cap_start_hr) |
| Simulation.StartHourReaches | scripts/make_fake_transactions.py:102 | every hour of range(cap_start_hr) can be drawn as the start hour |
| Simulation.HomeSite | scripts/make_fake_transactions.py:107 | the home site is one of the cell sites |
| Simulation.HomeSiteReaches | scripts/make_fake_transactions.py:107 | every entry of the cell-site column can be drawn as the home site |
| Simulation.DaysUpTo | scripts/make_fake_transactions.py:109-131 | a subscriber whose dates succeed has one day of visits per date |
| Simulation.DayRows | scripts/make_fake_transactions.py:133-145 | a day gives one row per visit, with the subscriber, the visit's site, the date and the visit's hour |
| Simulation.WalkDays | scripts/make_fake_transactions.py:109-147 | the date loop appends exactly the rows of the specified days to what was already collected, or returns the error the specification raises |
| Simulation.WalkDate | scripts/make_fake_transactions.py:109-147 | one pass of the date loop: a failing day returns its error; otherwise the day's rows are appended and the subscriber stands on the day's last site |
| Simulation.Simulate | scripts/make_fake_transactions.py:89-147 | the subscriber loop returns exactly the specified run: all rows, or the first error raised |
| Simulation.NextSubscriber | scripts/make_fake_transactions.py:89-147 | one pass of the subscriber loop: the result is the run up to and including the next subscriber, so it fails exactly when that subscriber fails. Its rows are appended to the run so far, and an error it raises is the error of the whole run |
| Simulation.WalkSubscriber | scripts/make_fake_transactions.py:92-147 | one subscriber: an empty start-hour range or an empty cell-site column raises, otherwise its days' rows are appended or the first failing day's error is returned |
| Simulation.DaysChain | scripts/make_fake_transactions.py:107-119 | every date opens at the subscriber's one start hour; the first date opens on the home site, and each later date on the site where the previous one ended |
| Simulation.DaysAt | scripts/make_fake_transactions.py:107-119 | the day on date d is the day walked on date d from the site where the first d days ended |
| Simulation.DaysShape | scripts/make_fake_transactions.py:109-131 | every date of a subscriber is a well-formed day: ascending hours, kept hops, and at most 24 − start records before hour 24 when it starts before 24 |
| Simulation.DaysRowsOrdered | scripts/make_fake_transactions.py:109-147 | a subscriber's rows carry its id and a date of the period, and run by date then by hour |
| Simulation.RunOrdered | scripts/make_fake_transactions.py:89-147 | with distinct subscribers the output is ordered by subscriber, then date, then hour, and holds only the subscribers walked |
| Simulation.DaysStayIn | scripts/make_fake_transactions.py:109-131 | when every site keeps a destination among the sites, a subscriber's dates never fail and end on a cell site |
| Simulation.RunSucceeds | scripts/make_fake_transactions.py:43-147 | with distinct sites, at least two of them, k ≥ 1 and cap_start_hr ≥ 1, the walk over the kept table never raises |
| Simulation.RunWithoutDays | scripts/make_fake_transactions.py:89-147 | with no dates, a run that succeeds appends no row |
| Simulation.RunProducesRows | scripts/make_fake_transactions.py:89-147 | with at least one subscriber and one date, a run that succeeds appends at least one row, since every day records its opening visit |
| Simulation.ConsecutiveSitesDiffer | scripts/make_fake_transactions.py:129-131 | over distinct sites, consecutive records of a day are at different sites |
| Simulation.SubscriberDaysShape | scripts/make_fake_transactions.py:102-131 | for cap_start_hr ≤ 24, every date of a subscriber opens at its start hour below the cap, has at most 24 − start records, hours ≤ 23 strictly ascending, kept hops and no stay-in-place step |
| TxnIds.DecimalValue | scripts/make_fake_transactions.py:150 | str(n) reads back as n |
| TxnIds.DecimalCanonical | scripts/make_fake_transactions.py:150 | str(n) starts with '0' exactly when n is 0 |
| TxnIds.ZFill | scripts/make_fake_transactions.py:150 | zfill leaves a string of at least the width as it is and pads a shorter one to exactly the width |
| TxnIds.ZFillValue | scripts/make_fake_transactions.py:150 | zero-filling str(n) keeps it a string of digits denoting n |
| TxnIds.TxnUidRoundTrip | scripts/make_fake_transactions.py:150 | an id starts with "glo-txn-", has at least five digits after it, and those digits denote the 1-based row number |
| TxnIds.TxnUidInjective | scripts/make_fake_transactions.py:150 | different rows get different ids |
| TxnIds.DecimalLength | scripts/make_fake_transactions.py:150 | a number below 10^k has at most k digits |
| TxnIds.TxnUidLength | scripts/make_fake_transactions.py:150 | up to row 99999 every id has exactly 13 characters |
| TxnIds.ValueOrderIsLexOrder | scripts/make_fake_transactions.py:150 | for digit strings of the same length, a smaller number gives a smaller string |
| TxnIds.LexLessAsym | scripts/make_fake_transactions.py:150 | string order is strict: two strings never precede each other |
| TxnIds.LexOrderIsValueOrder | scripts/make_fake_transactions.py:150 | for digit strings of the same length, a smaller string denotes a smaller number; with `ValueOrderIsLexOrder`, numeric order is string order |
| TxnIds.TxnUidOrder | scripts/make_fake_transactions.py:150 | up to row 99999, an earlier row's id sorts before a later row's id as a string |
| TxnIds.IdsDistinct | scripts/make_fake_transactions.py:150-151 | the ids of the output are pairwise distinct, and each reads back as its row's 1-based position |
| FakeTransactions.MakeFakeTransactions | scripts/make_fake_transactions.py:43-151 | the script body returns the numbered rows of the run, or its error; with no row walked it fails at the column selection; it succeeds on distinct sites (two or more), k ≥ 1, cap_start_hr ≥ 1, at least one subscriber and at least one date, and never succeeds without a subscriber or a date; its ids are distinct; with distinct subscribers its rows are ordered by subscriber, date and hour |

## Left out

- Reading the subscribers and cell sites, writing the CSV, and the Hydra configuration are input and output. The model takes their contents as parameters and returns the rows.
- The row shuffle of the subscribers (line 37) is randomness applied to an input. The model takes the subscribers in the order the loop sees them.
- `calc_haversine_distance` and the WKT coordinates are replaced by the parameter `dist`. Floating-point error and NaN distances are not modelled, and distances are exact reals.
- Fewer than two cell sites: the pair table of line 43 is empty. What `matrix.apply` at line 53 does on an empty frame depends on pandas and on `calc_haversine_distance`, which is not part of this model. The model goes on with an empty table. It then raises `NoCellsites` for zero sites. For one site it raises `NoNeighbours` at the first move drawn.
- The pandas merges of lines 45–50 are not modelled. With distinct `cel_uid` values they attach coordinates and keep one row per pair. Row order after the merges is not modelled: the model keeps the order of `permutations`. The second merge joins on `site2` with `sort=False`, and depending on the pandas version it may group the rows by `site2`. That order only relabels which draw of `nextSite` picks which destination, so no lemma depends on it. With duplicate `cel_uid` values they would multiply rows. The lemmas about the table assume distinct sites.
- The stay probability and its truncated normal draw (lines 75–87, 96, 121) are not modelled. Only the outcome of each move coin is modelled, as the oracle `withTransaction`. The model says nothing about how often a move happens.
- The pendulum date period (lines 69–71, 109, 111) is left out.
  - The model takes the number of dates walked.
  - The model identifies a date by its position in the period.
  - Date parsing and `str(dt)` formatting are not modelled.
  - When `num_days < 1`, the end date of line 70 falls before the start date. The period then runs backwards and still holds at least two dates. The script therefore never walks zero dates, and the model's run over zero dates has no counterpart in it. The model takes the number of dates walked, so a reversed period counts as its number of dates, walked in the model's forward order.
- `str(i+1).zfill(5)` is modelled for non-negative numbers only. The sign handling of `zfill` never applies here.
- Only the output columns and their order are modelled as a record (line 151). Pandas dtypes and the index are not.
- The other scripts, `make_fake_cellsites.py`, `make_fake_subs.py` and `make_fake_subscribers.py`, and the `sds4gdsp` package (loader, plotter, processor) are not part of this model.
- HourlyWalk.DayShape and Simulation.SubscriberDaysShape: the bound "hours ≤ 23" is stated only for a start hour below 24 (a cap of at most 24). For a larger cap, the code records an hour of 24 or more, and `DayEnd` models that.
