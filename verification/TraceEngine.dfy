/** The three-scan cleaning engine: loops over chunks that consume shared counters in place. */
module TraceEngine {
  import opened Basics
  import opened TraceRows
  import opened TraceMatching
  import opened TraceStages
  import Fates = TraceFates

  /** A Counter over trade keys; callees consume it in place. */
  class Counter {
    var counts: multiset<TradeKey>

    constructor (init: multiset<TradeKey>)
      ensures counts == init
    {
      counts := init;
    }

    method Increment(k: TradeKey)
      modifies this
      ensures counts == old(counts) + multiset{k}
    {
      counts := counts + multiset{k};
    }

    /** `if counter.get(k, 0) > 0: counter[k] -= 1` */
    method Consume(k: TradeKey) returns (taken: bool)
      modifies this
      ensures taken <==> k in old(counts)
      ensures counts == if taken then old(counts) - multiset{k} else old(counts)
    {
      taken := k in counts;
      if taken {
        counts := counts - multiset{k};
      }
    }
  }

  lemma {:induction false} EmptyPoolMatchesNothing(rows: seq<Row>, eligible: Row -> bool)
    ensures Take(rows, multiset{}, eligible).pool == multiset{}
    ensures Unmatched(rows, multiset{}, eligible) == rows
  {
    if |rows| > 0 {
      var n := |rows| - 1;
      EmptyPoolMatchesNothing(rows[..n], eligible);
      var t0, t := Take(rows[..n], multiset{}, eligible), Take(rows, multiset{}, eligible);
      assert t == TakeOne(t0, rows[n], eligible) && t.mask[..n] == t0.mask;
      assert rows == rows[..n] + [rows[n]];
    }
  }

  lemma NothingToMatch(eligible: Row -> bool)
    ensures forall pool :: Unmatched([], pool, eligible) == [] && Take([], pool, eligible).pool == pool
  {
  }

  /** Drops the rows that `pool` matches by value among the eligible ones, consuming the pool
      in file order. The net-out and the dedup both run this loop on their own counter. */
  method DropMatched(chunk: seq<Row>, pool: Counter, eligible: Row -> bool) returns (kept: seq<Row>, dropped: nat)
    modifies pool
    ensures kept == Unmatched(chunk, old(pool.counts), eligible)
    ensures pool.counts == Take(chunk, old(pool.counts), eligible).pool
    ensures dropped == |chunk| - |kept|
  {
    var drop: seq<bool> := [];
    for i := 0 to |chunk|
      invariant Matched(drop, pool.counts) == Take(chunk[..i], old(pool.counts), eligible)
    {
      var taken := false;
      if eligible(chunk[i]) {
        taken := pool.Consume(Key(chunk[i]));
      }
      drop := drop + [taken];
      assert chunk[..i + 1][..i] == chunk[..i];
    }
    assert chunk[..|chunk|] == chunk;
    kept := Select(chunk, drop, false);
    dropped := |chunk| - |kept|;
  }

  method ApplyReversalNetout(chunk: seq<Row>, rev: Counter) returns (kept: seq<Row>, dropped: nat)
    modifies rev
    ensures kept == Unmatched(chunk, old(rev.counts), FiniteMask())
    ensures rev.counts == Take(chunk, old(rev.counts), FiniteMask()).pool
    ensures dropped == |chunk| - |kept|
  {
    if rev.counts == multiset{} || |chunk| == 0 {
      EmptyPoolMatchesNothing(chunk, FiniteMask());
      return chunk, 0;
    }
    kept, dropped := DropMatched(chunk, rev, FiniteMask());
  }

  lemma CancelledKeysSnoc(rows: seq<Row>, r: Row)
    ensures CancelledKeys(rows + [r]) == CancelledKeys(rows) + (if Cancels(r) then {CancelledKey(r)} else {})
  {
    assert forall x :: x in rows + [r] <==> x in rows || x == r;
  }

  lemma ReversedKeysSnoc(rows: seq<Row>, r: Row)
    ensures ReversedKeys(rows + [r])
         == ReversedKeys(rows) + (if Reverses(r) then multiset{ReversedKey(r)} else multiset{})
  {
    assert (rows + [r])[..|rows|] == rows;
  }

  lemma ReversedKeysLast(rows: seq<Row>)
    requires |rows| > 0
    ensures var n := |rows| - 1;
      ReversedKeys(rows) == ReversedKeys(rows[..n])
        + (if Reverses(rows[n]) then multiset{ReversedKey(rows[n])} else multiset{})
  {
  }

  lemma BagSnoc(rows: seq<Row>, r: Row, eligible: Row -> bool)
    ensures Bag(rows + [r], eligible) == Bag(rows, eligible) + (if eligible(r) then multiset{Key(r)} else multiset{})
  {
    assert (rows + [r])[..|rows|] == rows;
  }

  lemma CancelledKeysConcat(a: seq<Row>, b: seq<Row>)
    ensures CancelledKeys(a + b) == CancelledKeys(a) + CancelledKeys(b)
  {
    assert forall x :: x in a + b <==> x in a || x in b;
  }

  lemma {:induction false} ReversedKeysConcat(a: seq<Row>, b: seq<Row>)
    ensures ReversedKeys(a + b) == ReversedKeys(a) + ReversedKeys(b)
    decreases |b|
  {
    if |b| == 0 {
      assert a + b == a;
    } else {
      var n := |b| - 1;
      ReversedKeysConcat(a, b[..n]);
      ConcatUnsnoc(a, b);
      ReversedKeysLast(a + b);
      ReversedKeysLast(b);
      hide ReversedKeys, Reverses, ReversedKey;
    }
  }

  method AddCancelledKeys(chunk: seq<Row>, before: set<CancelKey>) returns (cancelled: set<CancelKey>)
    ensures cancelled == before + CancelledKeys(chunk)
  {
    cancelled := before;
    for j := 0 to |chunk|
      invariant cancelled == before + CancelledKeys(chunk[..j])
    {
      assert chunk[..j + 1] == chunk[..j] + [chunk[j]];
      CancelledKeysSnoc(chunk[..j], chunk[j]);
      hide CancelledKeys;
      if Cancels(chunk[j]) {
        cancelled := cancelled + {CancelledKey(chunk[j])};
      }
    }
    assert chunk[..|chunk|] == chunk;
  }

  method CountReversedKeys(chunk: seq<Row>, pool: Counter)
    modifies pool
    ensures pool.counts == old(pool.counts) + ReversedKeys(chunk)
  {
    hide ReversedKeys;
    NoReversedKeys();
    for j := 0 to |chunk|
      invariant pool.counts == old(pool.counts) + ReversedKeys(chunk[..j])
    {
      assert chunk[..j + 1] == chunk[..j] + [chunk[j]];
      ReversedKeysSnoc(chunk[..j], chunk[j]);
      if Reverses(chunk[j]) {
        pool.Increment(ReversedKey(chunk[j]));
      }
    }
    assert chunk[..|chunk|] == chunk;
  }

  lemma NoReversedKeys()
    ensures ReversedKeys([]) == multiset{}
  {
  }

  /** Scan 1: cancellation keys and the reversal pool of the whole file. */
  method CollectKeys(c: Config, p: Profile, chunks: seq<seq<Row>>)
    returns (cancelled: set<CancelKey>, reversals: multiset<TradeKey>)
    ensures cancelled == CancelledKeys(Flatten(chunks))
    ensures reversals == ReversalPool(c, p, Flatten(chunks))
  {
    hide ReversedKeys;
    NoReversedKeys();
    cancelled := {};
    var pool := new Counter(multiset{});
    for i := 0 to |chunks|
      invariant fresh(pool)
      invariant cancelled == CancelledKeys(Flatten(chunks[..i]))
      invariant pool.counts == ReversalPool(c, p, Flatten(chunks[..i]))
    {
      FlattenStep(chunks, i);
      CancelledKeysConcat(Flatten(chunks[..i]), chunks[i]);
      ReversedKeysConcat(Flatten(chunks[..i]), chunks[i]);
      hide CancelledKeys;
      cancelled := AddCancelledKeys(chunks[i], cancelled);
      if p.netReversals && c.hasPriorDateColumn {
        CountReversedKeys(chunks[i], pool);
      }
    }
    assert chunks[..|chunks|] == chunks;
    reversals := pool.counts;
  }

  /** One chunk of scan 2, up to the net-out: scan 2's own copy of the filters, consuming
      scan 2's own copy of the reversal pool. */
  method SurvivorsOfChunk(c: Config, p: Profile, cancelled: set<CancelKey>, rows: seq<Row>, rev: Counter)
    returns (chunk: seq<Row>)
    requires !p.netReversals ==> rev.counts == multiset{}
    modifies rev
    ensures var k := Pools(cancelled, old(rev.counts), multiset{});
      chunk == Netted(c, p, k, rows) && rev.counts == After(c, p, k, rows).reversals
    ensures !p.netReversals ==> rev.counts == multiset{}
  {
    ghost var k := Pools(cancelled, rev.counts, multiset{});
    chunk := Filter(rows, Keep1aMask(p));
    if |chunk| == 0 { return; }
    if cancelled != {} {
      chunk := Filter(chunk, NotCancelledMask(cancelled));
      if |chunk| == 0 { return; }
    } else {
      NothingCancelled(chunk);
    }
    chunk := Filter(chunk, AsofMask(c, p));
    if |chunk| == 0 { return; }
    if p.applyWhenIssued {
      chunk := Filter(chunk, WhenIssuedMask());
      if |chunk| == 0 { return; }
    }
    assert chunk == Issued(c, p, k, rows);
    if p.netReversals {
      var n;
      chunk, n := ApplyReversalNetout(chunk, rev);
    } else {
      EmptyPoolMatchesNothing(chunk, FiniteMask());
    }
  }

  lemma NoBag()
    ensures Bag([], SellMask()) == multiset{}
  {
  }

  method CountSells(chunk: seq<Row>, sells: Counter)
    modifies sells
    ensures sells.counts == old(sells.counts) + Bag(chunk, SellMask())
  {
    hide Bag;
    NoBag();
    for j := 0 to |chunk|
      invariant sells.counts == old(sells.counts) + Bag(chunk[..j], SellMask())
    {
      assert chunk[..j + 1] == chunk[..j] + [chunk[j]];
      BagSnoc(chunk[..j], chunk[j], SellMask());
      if IsFiniteSell(chunk[j]) {
        sells.Increment(Key(chunk[j]));
      }
    }
    assert chunk[..|chunk|] == chunk;
  }

  /** Scan 2: the sell pool of the whole file, counted chunk by chunk. */
  method CollectSells(c: Config, p: Profile, chunks: seq<seq<Row>>,
                      cancelled: set<CancelKey>, reversals: multiset<TradeKey>)
    returns (sells: multiset<TradeKey>)
    requires !p.netReversals ==> reversals == multiset{}
    ensures sells == Bag(Netted(c, p, Pools(cancelled, reversals, multiset{}), Flatten(chunks)), SellMask())
  {
    hide Filter, Select, Take;
    ghost var k := Pools(cancelled, reversals, multiset{});
    NothingScanned(c, p, k);
    var rev := new Counter(reversals);
    var pool := new Counter(multiset{});
    for i := 0 to |chunks|
      invariant fresh(rev) && fresh(pool) && rev != pool
      invariant pool.counts == Bag(Netted(c, p, k, Flatten(chunks[..i])), SellMask())
      invariant rev.counts == After(c, p, k, Flatten(chunks[..i])).reversals
      invariant !p.netReversals ==> rev.counts == multiset{}
    {
      ghost var seen := Flatten(chunks[..i]);
      var chunk := SurvivorsOfChunk(c, p, cancelled, chunks[i], rev);
      CountSells(chunk, pool);
      FlattenStep(chunks, i);
      SellsDoNotMatter(c, p, After(c, p, k, seen), chunks[i]);
      NettedConcat(c, p, k, seen, chunks[i]);
      BagConcat(Netted(c, p, k, seen), chunk, SellMask());
    }
    assert chunks[..|chunks|] == chunks;
    sells := pool.counts;
  }

  lemma NothingScanned(c: Config, p: Profile, k: Pools)
    ensures Netted(c, p, k, []) == [] && Dated(c, p, k, []) == []
    ensures Development(c, p, k, []) == [] && Holdout(c, p, k, []) == []
    ensures After(c, p, k, []) == k
    ensures CountsOf(c, p, k, []) == NO_COUNTS
  {
  }

  lemma SellsDoNotMatter(c: Config, p: Profile, k: Pools, rows: seq<Row>)
    ensures var k0 := k.(sells := multiset{});
      Netted(c, p, k, rows) == Netted(c, p, k0, rows)
      && After(c, p, k, rows).reversals == After(c, p, k0, rows).reversals
  {
    hide Filter, Select, Take;
  }

  lemma NothingFiltered(mask: Row -> bool)
    ensures Filter([], mask) == []
  {
  }

  lemma KeptByNoKeys(r: Row)
    ensures NotCancelledMask({})(r)
  {
  }

  lemma {:induction false} NothingCancelled(rows: seq<Row>)
    ensures Filter(rows, NotCancelledMask({})) == rows
  {
    hide *;
    if |rows| > 0 {
      var n := |rows| - 1;
      NothingCancelled(rows[..n]);
      KeptByNoKeys(rows[n]);
      FilterSnoc(rows[..n], rows[n], NotCancelledMask({}));
      assert rows == rows[..n] + [rows[n]];
    } else {
      NothingFiltered(NotCancelledMask({}));
    }
  }

  // --- scan 3 ---------------------------------------------------------------------------------

  /** Filters 1a to 3 of scan 3, with their counters. */
  method FilterChunk(c: Config, p: Profile, k: Pools, rows: seq<Row>, counts: Counts)
    returns (chunk: seq<Row>, after: Counts)
    ensures chunk == Issued(c, p, k, rows)
    ensures after == counts.(
      rawTotal := counts.rawTotal + |rows|,
      afterTrcSt := counts.afterTrcSt + |Uncancelled(p, k, rows)|,
      droppedCancelled := counts.droppedCancelled + |Filter(rows, Keep1aMask(p))| - |Uncancelled(p, k, rows)|,
      afterAsof := counts.afterAsof + |OnTime(c, p, k, rows)|,
      afterWhenIssued := counts.afterWhenIssued + |chunk|)
  {
    NothingFiltered(AsofMask(c, p));
    NothingFiltered(WhenIssuedMask());
    hide Filter;
    after := counts.(rawTotal := counts.rawTotal + |rows|);
    chunk := Filter(rows, Keep1aMask(p));
    if k.cancelled != {} && |chunk| != 0 {
      var before := |chunk|;
      chunk := Filter(chunk, NotCancelledMask(k.cancelled));
      after := after.(droppedCancelled := after.droppedCancelled + before - |chunk|);
    } else {
      NothingCancelled(chunk);
    }
    after := after.(afterTrcSt := after.afterTrcSt + |chunk|);
    if |chunk| == 0 { return; }
    chunk := Filter(chunk, AsofMask(c, p));
    after := after.(afterAsof := after.afterAsof + |chunk|);
    if |chunk| == 0 { return; }
    if p.applyWhenIssued {
      chunk := Filter(chunk, WhenIssuedMask());
    }
    after := after.(afterWhenIssued := after.afterWhenIssued + |chunk|);
  }

  /** The net-out and the dedup of scan 3, each on its own counter. */
  method MatchChunk(c: Config, p: Profile, ghost k: Pools, ghost rows: seq<Row>, issued: seq<Row>,
                    rev: Counter, sells: Counter, counts: Counts)
    returns (chunk: seq<Row>, after: Counts)
    requires rev != sells
    requires rev.counts == k.reversals && sells.counts == k.sells
    requires issued == Issued(c, p, k, rows)
    requires !p.netReversals ==> rev.counts == multiset{}
    modifies rev, sells
    ensures chunk == Deduped(c, p, k, rows)
    ensures rev.counts == After(c, p, k, rows).reversals && sells.counts == After(c, p, k, rows).sells
    ensures !p.netReversals ==> rev.counts == multiset{}
    ensures after == counts.(
      droppedReversal := counts.droppedReversal + |issued| - |Netted(c, p, k, rows)|,
      droppedDuplicate := counts.droppedDuplicate + |Netted(c, p, k, rows)| - |chunk|,
      afterDedup := counts.afterDedup + |chunk|)
  {
    hide Filter, Select, Take;
    after := counts;
    chunk := issued;
    NothingToMatch(BuyMask());
    if p.netReversals {
      var n;
      chunk, n := ApplyReversalNetout(chunk, rev);
      after := after.(droppedReversal := after.droppedReversal + n);
      if |chunk| == 0 { return; }
    } else {
      EmptyPoolMatchesNothing(issued, FiniteMask());
    }
    assert chunk == Netted(c, p, k, rows);
    if sells.counts != multiset{} {
      var n;
      chunk, n := DropMatched(chunk, sells, BuyMask());
      after := after.(droppedDuplicate := after.droppedDuplicate + n);
    } else {
      EmptyPoolMatchesNothing(chunk, BuyMask());
    }
    after := after.(afterDedup := after.afterDedup + |chunk|);
  }

  /** The profile screens and the date parse of scan 3. */
  method ScreenChunk(c: Config, p: Profile, ghost k: Pools, ghost rows: seq<Row>, deduped: seq<Row>, counts: Counts)
    returns (chunk: seq<Row>, after: Counts)
    requires deduped == Deduped(c, p, k, rows)
    ensures chunk == Dated(c, p, k, rows)
    ensures after == counts.(
      droppedScreens := counts.droppedScreens + |deduped| - |Screened(c, p, k, rows)|,
      droppedInvalidDate := counts.droppedInvalidDate + |Screened(c, p, k, rows)| - |chunk|)
  {
    hide Select, Take;
    after := counts;
    chunk := deduped;
    if |chunk| == 0 { return; }
    if p.screen.Some? {
      var before := |chunk|;
      chunk := Filter(chunk, p.screen.value);
      after := after.(droppedScreens := after.droppedScreens + before - |chunk|);
      if |chunk| == 0 { return; }
    }
    var before := |chunk|;
    chunk := Filter(chunk, DatedMask(c));
    after := after.(droppedInvalidDate := after.droppedInvalidDate + before - |chunk|);
  }

  datatype Outcome =
    | Finished(dev: seq<Row>, hold: seq<Row>, counts: Counts, report: Report)
    | BeyondHoldoutEnd(dev: seq<Row>, hold: seq<Row>)   // what had been written when the run stopped
    | RowCountMismatch(dev: seq<Row>, hold: seq<Row>)   // written, but the closing comparison fails

  /** The row count of the file at an output path; None where there is none. */
  type OnDisk = Option<nat>

  /** A writer truncates the file when it is opened, and it is opened with the first rows. */
  function WriteRows(writer: OnDisk, chunk: seq<Row>): OnDisk {
    if |chunk| == 0 then writer
    else Some((if writer.Some? then writer.value else 0) + |chunk|)
  }

  /** A side without rows leaves a file of an earlier run where it is. */
  predicate Stale(onDisk: OnDisk, rows: seq<Row>) { |rows| == 0 && onDisk.Some? && onDisk.value > 0 }

  function WriterAfter(rows: seq<Row>): OnDisk { if |rows| == 0 then None else Some(|rows|) }

  lemma WriterGrows(rows: seq<Row>, chunk: seq<Row>)
    ensures WriteRows(WriterAfter(rows), chunk) == WriterAfter(rows + chunk)
  {
  }

  ghost predicate AnyBeyond(c: Config, rows: seq<Row>) { exists r :: r in rows && BeyondMask(c)(r) }

  /** One chunk of scan 3: all filters, then the dev/holdout split unless a row is dated
      beyond the window. */
  method ScanChunk(c: Config, p: Profile, cancelled: set<CancelKey>, rows: seq<Row>,
                   rev: Counter, sells: Counter, counts: Counts)
    returns (beyond: bool, dev: seq<Row>, hold: seq<Row>, after: Counts)
    requires rev != sells
    requires !p.netReversals ==> rev.counts == multiset{}
    modifies rev, sells
    ensures !p.netReversals ==> rev.counts == multiset{}
    ensures var k := Pools(cancelled, old(rev.counts), old(sells.counts));
      && Pools(cancelled, rev.counts, sells.counts) == After(c, p, k, rows)
      && (beyond <==> AnyBeyond(c, Dated(c, p, k, rows)))
      && (!beyond ==> dev == Development(c, p, k, rows) && hold == Holdout(c, p, k, rows)
                      && after == AddCounts(counts, CountsOf(c, p, k, rows)))
  {
    hide Filter, Select, Take;
    var k := Pools(cancelled, rev.counts, sells.counts);
    var chunk;
    chunk, after := FilterChunk(c, p, k, rows, counts);
    chunk, after := MatchChunk(c, p, k, rows, chunk, rev, sells, after);
    chunk, after := ScreenChunk(c, p, k, rows, chunk, after);
    var blank := |Filter(chunk, c.blankCusip)|;
    after := after.(cusipBlank := after.cusipBlank + blank,
                    cusipPopulated := after.cusipPopulated + |chunk| - blank);
    BeyondFound(c, chunk);
    beyond := |Filter(chunk, BeyondMask(c))| > 0;
    dev, hold := [], [];
    if !beyond {
      dev, hold := Filter(chunk, DevMask(c)), Filter(chunk, HoldoutMask(c));
      after := after.(development := after.development + |dev|, holdout := after.holdout + |hold|);
    }
  }

  /** The outcome in terms of the records' own columns: which side, if any, each is written to,
      and what every counter counts. */
  ghost predicate ByFate(c: Config, p: Profile, file: seq<Row>, out: Outcome) {
    match out
    case BeyondHoldoutEnd(_, _) => Fates.SomeBeyondWindow(c, p, file)
    case RowCountMismatch(dev, hold) => !Fates.SomeBeyondWindow(c, p, file) && Fates.SidesWritten(c, p, file, dev, hold)
    case Finished(dev, hold, counts, report) =>
      && !Fates.SomeBeyondWindow(c, p, file)
      && Fates.SidesWritten(c, p, file, dev, hold) && Fates.FatesCounted(c, p, file, counts, report)
  }

  /** The whole engine. Whatever the chunking, a finished run writes exactly the whole-file
      stages and their counters; a run stops early iff a surviving row is dated beyond the
      holdout window, and then it has written prefixes of the same sequences. A complete run
      fails its closing row-count comparison iff a side without rows finds a non-empty file of
      an earlier run at its path. */
  method RunPandas(c: Config, p: Profile, chunks: seq<seq<Row>>, devOnDisk: OnDisk, holdOnDisk: OnDisk)
    returns (out: Outcome)
    ensures var file := Flatten(chunks);
      var k := FilePools(c, p, file);
      if AnyBeyond(c, Dated(c, p, k, file)) then
        && out.BeyondHoldoutEnd?
        && out.dev <= Development(c, p, k, file) && out.hold <= Holdout(c, p, k, file)
      else if Stale(devOnDisk, Development(c, p, k, file)) || Stale(holdOnDisk, Holdout(c, p, k, file)) then
        out == RowCountMismatch(Development(c, p, k, file), Holdout(c, p, k, file))
      else
        && out.Finished?
        && out.dev == Development(c, p, k, file) && out.hold == Holdout(c, p, k, file)
        && out.counts == CountsOf(c, p, k, file)
        && out.report == ReportOf(out.counts)
    ensures ByFate(c, p, Flatten(chunks), out)
  {
    hide Filter, Select, Take, Bag, CountsOf;
    var cancelled, reversals := CollectKeys(c, p, chunks);
    var pool := multiset{};
    if p.dedup {
      pool := CollectSells(c, p, chunks, cancelled, reversals);
    }
    ghost var k := Pools(cancelled, reversals, pool);
    ghost var file := Flatten(chunks);
    assert k == FilePools(c, p, file);
    NothingScanned(c, p, k);
    var rev := new Counter(reversals);
    var sells := new Counter(pool);
    var counts := NO_COUNTS;
    var dev: seq<Row>, hold: seq<Row> := [], [];
    var devWriter: OnDisk, holdWriter: OnDisk := None, None;
    for i := 0 to |chunks|
      invariant fresh(rev) && fresh(sells) && rev != sells
      invariant !p.netReversals ==> rev.counts == multiset{}
      invariant devWriter == WriterAfter(dev) && holdWriter == WriterAfter(hold)
      invariant Pools(cancelled, rev.counts, sells.counts) == After(c, p, k, Flatten(chunks[..i]))
      invariant dev == Development(c, p, k, Flatten(chunks[..i])) && hold == Holdout(c, p, k, Flatten(chunks[..i]))
      invariant counts == CountsOf(c, p, k, Flatten(chunks[..i]))
      invariant !AnyBeyond(c, Dated(c, p, k, Flatten(chunks[..i])))
    {
      ghost var m := Pools(cancelled, rev.counts, sells.counts);
      var beyond, devChunk, holdChunk, next := ScanChunk(c, p, cancelled, chunks[i], rev, sells, counts);
      if beyond {
        StopsEarly(c, p, k, m, chunks, i);
        Fates.BeyondMeaning(c, p, file);
        return BeyondHoldoutEnd(dev, hold);
      }
      ScanStep(c, p, k, m, chunks, i);
      WriterGrows(dev, devChunk);
      WriterGrows(hold, holdChunk);
      dev, hold, counts := dev + devChunk, hold + holdChunk, next;
      devWriter, holdWriter := WriteRows(devWriter, devChunk), WriteRows(holdWriter, holdChunk);
    }
    assert chunks[..|chunks|] == chunks;
    CountsOfOutputs(c, p, k, file);
    Fates.BeyondMeaning(c, p, file);
    hide *;
    Fates.OutputsByFate(c, p, file);
    Fates.CountersByFate(c, p, file);
    out := CloseRun(dev, hold, counts, devWriter, holdWriter, devOnDisk, holdOnDisk);
  }

  /** The closing comparison of the files at the output paths with the counters. */
  method CloseRun(dev: seq<Row>, hold: seq<Row>, counts: Counts,
                  devWriter: OnDisk, holdWriter: OnDisk, devOnDisk: OnDisk, holdOnDisk: OnDisk)
    returns (out: Outcome)
    requires devWriter == WriterAfter(dev) && holdWriter == WriterAfter(hold)
    requires counts.development == |dev| && counts.holdout == |hold|
    ensures out == if Stale(devOnDisk, dev) || Stale(holdOnDisk, hold) then RowCountMismatch(dev, hold)
                   else Finished(dev, hold, counts, ReportOf(counts))
  {
    var devFile := if devWriter.Some? then devWriter else devOnDisk;
    var holdFile := if holdWriter.Some? then holdWriter else holdOnDisk;
    if devFile.Some? && devFile.value != counts.development { return RowCountMismatch(dev, hold); }
    if holdFile.Some? && holdFile.value != counts.holdout { return RowCountMismatch(dev, hold); }
    out := Finished(dev, hold, counts, ReportOf(counts));
  }

  lemma CountsOfOutputs(c: Config, p: Profile, k: Pools, rows: seq<Row>)
    ensures var n := CountsOf(c, p, k, rows);
      n.development == |Development(c, p, k, rows)| && n.holdout == |Holdout(c, p, k, rows)|
  {
    hide Filter, Select, Take;
  }

  lemma ScanStep(c: Config, p: Profile, k: Pools, m: Pools, chunks: seq<seq<Row>>, i: nat)
    requires i < |chunks| && m == After(c, p, k, Flatten(chunks[..i]))
    ensures var seen, next := Flatten(chunks[..i]), Flatten(chunks[..i + 1]);
      && After(c, p, k, next) == After(c, p, m, chunks[i])
      && Dated(c, p, k, next) == Dated(c, p, k, seen) + Dated(c, p, m, chunks[i])
      && Development(c, p, k, next) == Development(c, p, k, seen) + Development(c, p, m, chunks[i])
      && Holdout(c, p, k, next) == Holdout(c, p, k, seen) + Holdout(c, p, m, chunks[i])
      && CountsOf(c, p, k, next) == AddCounts(CountsOf(c, p, k, seen), CountsOf(c, p, m, chunks[i]))
  {
    hide Filter, Select, Take, CountsOf;
    FlattenStep(chunks, i);
    StagesConcat(c, p, k, Flatten(chunks[..i]), chunks[i]);
    CountsConcat(c, p, k, m, Flatten(chunks[..i]), chunks[i]);
  }

  lemma BeyondFound(c: Config, rows: seq<Row>)
    ensures |Filter(rows, BeyondMask(c))| > 0 <==> AnyBeyond(c, rows)
  {
    var found := Filter(rows, BeyondMask(c));
    if |found| > 0 {
      FilterMember(rows, BeyondMask(c), found[0]);
    }
    if AnyBeyond(c, rows) {
      var r :| r in rows && BeyondMask(c)(r);
      FilterMember(rows, BeyondMask(c), r);
    }
  }

  lemma RestOfFile(chunks: seq<seq<Row>>, i: nat) returns (rest: seq<Row>)
    requires i < |chunks|
    ensures Flatten(chunks) == Flatten(chunks[..i]) + (chunks[i] + rest)
  {
    FlattenPrefix(chunks, i);
    rest := Flatten(chunks)[|Flatten(chunks[..i]) + chunks[i]|..];
  }

  /** A beyond-window row in chunk i is one in the file, and what precedes it is a prefix. */
  lemma StopsEarly(c: Config, p: Profile, k: Pools, m: Pools, chunks: seq<seq<Row>>, i: nat)
    requires i < |chunks| && m == After(c, p, k, Flatten(chunks[..i]))
    requires AnyBeyond(c, Dated(c, p, m, chunks[i]))
    ensures AnyBeyond(c, Dated(c, p, k, Flatten(chunks)))
    ensures Development(c, p, k, Flatten(chunks[..i])) <= Development(c, p, k, Flatten(chunks))
    ensures Holdout(c, p, k, Flatten(chunks[..i])) <= Holdout(c, p, k, Flatten(chunks))
  {
    hide Filter, Select, Take;
    var seen := Flatten(chunks[..i]);
    var rest := RestOfFile(chunks, i);
    StagesConcat(c, p, k, seen, chunks[i] + rest);
    StagesConcat(c, p, m, chunks[i], rest);
    var r :| r in Dated(c, p, m, chunks[i]) && BeyondMask(c)(r);
    assert r in Dated(c, p, k, Flatten(chunks));
  }
}
