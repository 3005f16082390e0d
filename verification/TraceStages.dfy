/** What the three scans compute, as functions of the rows in file order. Each stage takes
    the pools it starts from, so that a stage over a file can be split at any row. */
module TraceStages {
  import opened Basics
  import opened TraceRows
  import opened TraceMatching

  /** The cross-chunk state: cancellation keys (frozen after scan 1), reversal counts left,
      sell counts left. */
  datatype Pools = Pools(cancelled: set<CancelKey>, reversals: multiset<TradeKey>, sells: multiset<TradeKey>)

  function CancelledKeys(rows: seq<Row>): set<CancelKey> {
    set r | r in rows && Cancels(r) :: CancelledKey(r)
  }

  function ReversedKeys(rows: seq<Row>): multiset<TradeKey> {
    if |rows| == 0 then multiset{}
    else
      var r := rows[|rows| - 1];
      ReversedKeys(rows[..|rows| - 1]) + (if Reverses(r) then multiset{ReversedKey(r)} else multiset{})
  }

  function ReversalPool(c: Config, p: Profile, rows: seq<Row>): multiset<TradeKey> {
    if p.netReversals && c.hasPriorDateColumn then ReversedKeys(rows) else multiset{}
  }

  function Unmatched(rows: seq<Row>, pool: multiset<TradeKey>, eligible: Row -> bool): seq<Row> {
    Select(rows, Take(rows, pool, eligible).mask, false)
  }

  // --- the stages ---------------------------------------------------------------------------

  function Uncancelled(p: Profile, k: Pools, rows: seq<Row>): seq<Row> {
    Filter(Filter(rows, Keep1aMask(p)), NotCancelledMask(k.cancelled))
  }

  function OnTime(c: Config, p: Profile, k: Pools, rows: seq<Row>): seq<Row> {
    Filter(Uncancelled(p, k, rows), AsofMask(c, p))
  }

  function Issued(c: Config, p: Profile, k: Pools, rows: seq<Row>): seq<Row> {
    var s := OnTime(c, p, k, rows);
    if p.applyWhenIssued then Filter(s, WhenIssuedMask()) else s
  }

  /** Rows left after the reversal net-out: what scan 2 counts its sells in, and what scan 3
      dedups. */
  function Netted(c: Config, p: Profile, k: Pools, rows: seq<Row>): seq<Row> {
    Unmatched(Issued(c, p, k, rows), k.reversals, FiniteMask())
  }

  function Deduped(c: Config, p: Profile, k: Pools, rows: seq<Row>): seq<Row> {
    Unmatched(Netted(c, p, k, rows), k.sells, BuyMask())
  }

  function Screened(c: Config, p: Profile, k: Pools, rows: seq<Row>): seq<Row> {
    var s := Deduped(c, p, k, rows);
    if p.screen.Some? then Filter(s, p.screen.value) else s
  }

  function Dated(c: Config, p: Profile, k: Pools, rows: seq<Row>): seq<Row> {
    Filter(Screened(c, p, k, rows), DatedMask(c))
  }

  /** The surviving rows without a CUSIP. */
  function Blank(c: Config, p: Profile, k: Pools, rows: seq<Row>): seq<Row> {
    Filter(Dated(c, p, k, rows), c.blankCusip)
  }

  function Development(c: Config, p: Profile, k: Pools, rows: seq<Row>): seq<Row> {
    Filter(Dated(c, p, k, rows), DevMask(c))
  }

  function Holdout(c: Config, p: Profile, k: Pools, rows: seq<Row>): seq<Row> {
    Filter(Dated(c, p, k, rows), HoldoutMask(c))
  }

  /** The pools once `rows` have gone through. */
  function After(c: Config, p: Profile, k: Pools, rows: seq<Row>): Pools {
    Pools(k.cancelled,
          Take(Issued(c, p, k, rows), k.reversals, FiniteMask()).pool,
          Take(Netted(c, p, k, rows), k.sells, BuyMask()).pool)
  }

  /** The pools a file gives rise to: scan 1, then scan 2 over the rows scan 1's keys leave. */
  function PoolsBeforeSells(c: Config, p: Profile, rows: seq<Row>): Pools {
    Pools(CancelledKeys(rows), ReversalPool(c, p, rows), multiset{})
  }

  function FilePools(c: Config, p: Profile, rows: seq<Row>): Pools {
    var k := PoolsBeforeSells(c, p, rows);
    if p.dedup then k.(sells := Bag(Netted(c, p, k, rows), SellMask())) else k
  }

  // --- the counters -------------------------------------------------------------------------

  datatype Counts = Counts(
    rawTotal: nat, afterTrcSt: nat, droppedCancelled: nat, afterAsof: nat, afterWhenIssued: nat,
    droppedReversal: nat, droppedDuplicate: nat, afterDedup: nat, droppedScreens: nat,
    droppedInvalidDate: nat, cusipBlank: nat, cusipPopulated: nat, development: nat, holdout: nat)

  const NO_COUNTS := Counts(0, 0, 0, 0, 0, 0, 0, 0, 0, 0, 0, 0, 0, 0)

  /** The counters as the loop leaves them, from the lengths of the stages. */
  function CountsFrom(raw: nat, kept1a: nat, uncancelled: nat, onTime: nat, issued: nat, netted: nat,
                      deduped: nat, screened: nat, dated: nat, blank: nat, development: nat, holdout: nat): Counts
    requires blank <= dated <= screened <= deduped <= netted <= issued && uncancelled <= kept1a
  {
    Counts(raw, uncancelled, kept1a - uncancelled, onTime, issued, issued - netted, netted - deduped, deduped,
           deduped - screened, screened - dated, blank, dated - blank, development, holdout)
  }

  function CountsOf(c: Config, p: Profile, k: Pools, rows: seq<Row>): Counts {
    CountsFrom(|rows|, |Filter(rows, Keep1aMask(p))|, |Uncancelled(p, k, rows)|, |OnTime(c, p, k, rows)|,
               |Issued(c, p, k, rows)|, |Netted(c, p, k, rows)|, |Deduped(c, p, k, rows)|,
               |Screened(c, p, k, rows)|, |Dated(c, p, k, rows)|, |Blank(c, p, k, rows)|,
               |Development(c, p, k, rows)|, |Holdout(c, p, k, rows)|)
  }

  /** Closing figures derived from the counters. */
  datatype Report = Report(finalTotal: int, droppedTrcSt: int, droppedAsof: int, droppedWhenIssued: int)

  function ReportOf(n: Counts): Report {
    Report(n.development + n.holdout, n.rawTotal - n.afterTrcSt - n.droppedCancelled,
           n.afterTrcSt - n.afterAsof, n.afterAsof - n.afterWhenIssued)
  }

  function AddCounts(a: Counts, b: Counts): Counts {
    Counts(a.rawTotal + b.rawTotal, a.afterTrcSt + b.afterTrcSt, a.droppedCancelled + b.droppedCancelled,
           a.afterAsof + b.afterAsof, a.afterWhenIssued + b.afterWhenIssued,
           a.droppedReversal + b.droppedReversal, a.droppedDuplicate + b.droppedDuplicate,
           a.afterDedup + b.afterDedup, a.droppedScreens + b.droppedScreens,
           a.droppedInvalidDate + b.droppedInvalidDate,
           a.cusipBlank + b.cusipBlank, a.cusipPopulated + b.cusipPopulated,
           a.development + b.development, a.holdout + b.holdout)
  }

  // --- splitting a file at any row ----------------------------------------------------------

  lemma UnmatchedConcat(a: seq<Row>, b: seq<Row>, pool: multiset<TradeKey>, eligible: Row -> bool)
    ensures Unmatched(a + b, pool, eligible)
         == Unmatched(a, pool, eligible) + Unmatched(b, Take(a, pool, eligible).pool, eligible)
    ensures Take(a + b, pool, eligible).pool == Take(b, Take(a, pool, eligible).pool, eligible).pool
  {
    var ta := Take(a, pool, eligible);
    TakeConcat(a, b, pool, eligible);
    SelectConcat(a, b, ta.mask, Take(b, ta.pool, eligible).mask, false);
  }

  lemma FiltersConcat(c: Config, p: Profile, k: Pools, a: seq<Row>, b: seq<Row>)
    ensures Filter(a + b, Keep1aMask(p)) == Filter(a, Keep1aMask(p)) + Filter(b, Keep1aMask(p))
    ensures Uncancelled(p, k, a + b) == Uncancelled(p, k, a) + Uncancelled(p, k, b)
    ensures OnTime(c, p, k, a + b) == OnTime(c, p, k, a) + OnTime(c, p, k, b)
    ensures Issued(c, p, k, a + b) == Issued(c, p, k, a) + Issued(c, p, k, b)
  {
    FilterConcat(a, b, Keep1aMask(p));
    FilterConcat(Filter(a, Keep1aMask(p)), Filter(b, Keep1aMask(p)), NotCancelledMask(k.cancelled));
    FilterConcat(Uncancelled(p, k, a), Uncancelled(p, k, b), AsofMask(c, p));
    FilterConcat(OnTime(c, p, k, a), OnTime(c, p, k, b), WhenIssuedMask());
  }

  /** The net-out of a file is the net-out of its first part, then of the rest with the
      counts that are left. */
  lemma NettedConcat(c: Config, p: Profile, k: Pools, a: seq<Row>, b: seq<Row>)
    ensures Netted(c, p, k, a + b) == Netted(c, p, k, a) + Netted(c, p, After(c, p, k, a), b)
    ensures After(c, p, k, a + b).reversals == After(c, p, After(c, p, k, a), b).reversals
  {
    FiltersConcat(c, p, k, a, b);
    var m := After(c, p, k, a);
    assert Issued(c, p, m, b) == Issued(c, p, k, b);
    UnmatchedConcat(Issued(c, p, k, a), Issued(c, p, k, b), k.reversals, FiniteMask());
  }

  lemma DedupedConcat(c: Config, p: Profile, k: Pools, a: seq<Row>, b: seq<Row>)
    ensures Deduped(c, p, k, a + b) == Deduped(c, p, k, a) + Deduped(c, p, After(c, p, k, a), b)
    ensures After(c, p, k, a + b) == After(c, p, After(c, p, k, a), b)
  {
    NettedConcat(c, p, k, a, b);
    var m := After(c, p, k, a);
    UnmatchedConcat(Netted(c, p, k, a), Netted(c, p, m, b), k.sells, BuyMask());
  }

  /** Scan 3 over a file is scan 3 over its first part, then over the rest with the pools
      the first part leaves. */
  lemma StagesConcat(c: Config, p: Profile, k: Pools, a: seq<Row>, b: seq<Row>)
    ensures var m := After(c, p, k, a);
      && After(c, p, k, a + b) == After(c, p, m, b)
      && Dated(c, p, k, a + b) == Dated(c, p, k, a) + Dated(c, p, m, b)
      && Development(c, p, k, a + b) == Development(c, p, k, a) + Development(c, p, m, b)
      && Holdout(c, p, k, a + b) == Holdout(c, p, k, a) + Holdout(c, p, m, b)
      && Screened(c, p, k, a + b) == Screened(c, p, k, a) + Screened(c, p, m, b)
  {
    var m := After(c, p, k, a);
    DedupedConcat(c, p, k, a, b);
    if p.screen.Some? {
      FilterConcat(Deduped(c, p, k, a), Deduped(c, p, m, b), p.screen.value);
    }
    FilterConcat(Screened(c, p, k, a), Screened(c, p, m, b), DatedMask(c));
    FilterConcat(Dated(c, p, k, a), Dated(c, p, m, b), DevMask(c));
    FilterConcat(Dated(c, p, k, a), Dated(c, p, m, b), HoldoutMask(c));
  }

  lemma LengthsConcat(c: Config, p: Profile, k: Pools, m: Pools, a: seq<Row>, b: seq<Row>)
    requires m == After(c, p, k, a)
    ensures |Filter(a + b, Keep1aMask(p))| == |Filter(a, Keep1aMask(p))| + |Filter(b, Keep1aMask(p))|
    ensures |Uncancelled(p, k, a + b)| == |Uncancelled(p, k, a)| + |Uncancelled(p, m, b)|
    ensures |OnTime(c, p, k, a + b)| == |OnTime(c, p, k, a)| + |OnTime(c, p, m, b)|
    ensures |Issued(c, p, k, a + b)| == |Issued(c, p, k, a)| + |Issued(c, p, m, b)|
  {
    FiltersConcat(c, p, k, a, b);
    FiltersIgnorePools(c, p, k, m, b);
  }

  lemma LateLengthsConcat(c: Config, p: Profile, k: Pools, m: Pools, a: seq<Row>, b: seq<Row>)
    requires m == After(c, p, k, a)
    ensures |Netted(c, p, k, a + b)| == |Netted(c, p, k, a)| + |Netted(c, p, m, b)|
    ensures |Deduped(c, p, k, a + b)| == |Deduped(c, p, k, a)| + |Deduped(c, p, m, b)|
    ensures |Screened(c, p, k, a + b)| == |Screened(c, p, k, a)| + |Screened(c, p, m, b)|
    ensures |Dated(c, p, k, a + b)| == |Dated(c, p, k, a)| + |Dated(c, p, m, b)|
    ensures |Blank(c, p, k, a + b)| == |Blank(c, p, k, a)| + |Blank(c, p, m, b)|
    ensures |Development(c, p, k, a + b)| == |Development(c, p, k, a)| + |Development(c, p, m, b)|
    ensures |Holdout(c, p, k, a + b)| == |Holdout(c, p, k, a)| + |Holdout(c, p, m, b)|
  {
    NettedConcat(c, p, k, a, b);
    DedupedConcat(c, p, k, a, b);
    StagesConcat(c, p, k, a, b);
    FilterConcat(Dated(c, p, k, a), Dated(c, p, m, b), c.blankCusip);
  }

  /** The counters add up over the parts of a split file. */
  lemma CountsConcat(c: Config, p: Profile, k: Pools, m: Pools, a: seq<Row>, b: seq<Row>)
    requires m == After(c, p, k, a)
    ensures CountsOf(c, p, k, a + b) == AddCounts(CountsOf(c, p, k, a), CountsOf(c, p, m, b))
  {
    hide Filter, Select, Take;
    LengthsConcat(c, p, k, m, a, b);
    LateLengthsConcat(c, p, k, m, a, b);
  }

  lemma FiltersIgnorePools(c: Config, p: Profile, k: Pools, m: Pools, rows: seq<Row>)
    requires m.cancelled == k.cancelled
    ensures Uncancelled(p, m, rows) == Uncancelled(p, k, rows)
    ensures OnTime(c, p, m, rows) == OnTime(c, p, k, rows)
    ensures Issued(c, p, m, rows) == Issued(c, p, k, rows)
  {
  }
}
