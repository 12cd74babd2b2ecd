/**
 * The whole generator: build the retained neighbour table, walk every
 * subscriber over it, then number the rows.
 */
module FakeTransactions {
  import opened Common
  import opened NeighbourTable
  import opened HourlyWalk
  import opened Simulation
  import opened TxnIds

  /** The rows written to the transactions file, or the error that stops the
      run before anything is written. */
  function Output(subs: seq<SubId>, sites: seq<SiteId>, dist: (SiteId, SiteId) -> real, k: int,
                  capStartHr: int, numDays: nat, draws: Draws): Result<seq<Record>> {
    match Run(subs, sites, Matrix(sites, dist, k), capStartHr, numDays, draws)
    case Err(e) => Err(e)
    case Ok(rows) => if rows == [] then Err(NoTransactions) else Ok(AssignIds(rows))
  }

  /** Record `a` comes before record `b` by subscriber, then date, then hour. */
  predicate RecordBefore(subs: seq<SubId>, a: Record, b: Record) {
    Before(subs, Txn(a.subUid, a.celUid, a.transactionDt, a.transactionHr),
                 Txn(b.subUid, b.celUid, b.transactionDt, b.transactionHr))
  }

  /** The generator end to end. It succeeds on distinct cell sites, at least
      two of them, k >= 1, a positive cap on the start hour, at least one
      subscriber and at least one date; it never succeeds without a
      subscriber or a date; its ids are pairwise distinct; and with distinct
      subscribers its rows are ordered by subscriber, then date, then hour. */
  method MakeFakeTransactions(subs: seq<SubId>, sites: seq<SiteId>, dist: (SiteId, SiteId) -> real, k: int,
                              capStartHr: int, numDays: nat, draws: Draws) returns (res: Result<seq<Record>>)
    ensures res == Output(subs, sites, dist, k, capStartHr, numDays, draws)
    ensures Distinct(sites) && |sites| >= 2 && k >= 1 && capStartHr >= 1 && |subs| >= 1 && numDays >= 1 ==> res.Ok?
    ensures res.Ok? ==> |subs| >= 1 && numDays >= 1 && |res.value| >= 1
    ensures res.Ok? ==> forall i, j | 0 <= i < j < |res.value| :: res.value[i].txnUid != res.value[j].txnUid
    ensures res.Ok? && Distinct(subs) ==>
              forall i, j | 0 <= i < j < |res.value| :: RecordBefore(subs, res.value[i], res.value[j])
  {
    var matrix := Matrix(sites, dist, k);
    var fakeTransactions := Simulate(subs, sites, matrix, capStartHr, numDays, draws);
    if fakeTransactions.Err? {
      res := Err(fakeTransactions.error);
      if Distinct(sites) && |sites| >= 2 && k >= 1 && capStartHr >= 1 {
        RunSucceeds(subs, sites, dist, k, capStartHr, numDays, draws, |subs|);
      }
      return;
    }
    var rows := fakeTransactions.value;
    if numDays == 0 {
      RunWithoutDays(subs, sites, matrix, capStartHr, draws, |subs|);
    }
    if |subs| >= 1 && numDays >= 1 {
      RunProducesRows(subs, sites, matrix, capStartHr, numDays, draws, |subs|);
    }
    if |rows| == 0 {
      return Err(NoTransactions);
    }
    res := Ok(AssignIds(rows));
    IdsDistinct(rows);
    if Distinct(subs) {
      RunOrdered(subs, sites, matrix, capStartHr, numDays, draws, |subs|);
      forall i, j | 0 <= i < j < |res.value| ensures RecordBefore(subs, res.value[i], res.value[j]) {
        assert Before(subs, rows[i], rows[j]);
      }
    }
  }
}
