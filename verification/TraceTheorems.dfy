/** What the cleaning engine guarantees about any file: exact matching, the two passes in
    lockstep, the ledger, and independence of the chunking. */
module TraceTheorems {
  import opened Basics
  import opened TraceRows
  import opened TraceMatching
  import opened TraceStages
  import opened TraceEngine

  // --- cancellation -------------------------------------------------------------------------

  /** A record survives filters 1a and 1b iff its status is kept and no record anywhere in the
      file, before or after it, cancels it. */
  lemma CancellationExact(c: Config, p: Profile, rows: seq<Row>, r: Row)
    ensures r in Uncancelled(p, FilePools(c, p, rows), rows)
       <==> r in rows && Keep1a(p, r) && !exists q :: q in rows && Cancels(q) && CancelledKey(q) == OwnKey(r)
  {
    var k := FilePools(c, p, rows);
    FilterMember(rows, Keep1aMask(p), r);
    FilterMember(Filter(rows, Keep1aMask(p)), NotCancelledMask(k.cancelled), r);
  }

  // --- lockstep -----------------------------------------------------------------------------

  /** The pool scan 2 counted holds, per key, exactly the finite sells scan 3 will see. */
  lemma SellPoolIsWhatScan3Sees(c: Config, p: Profile, rows: seq<Row>, key: TradeKey)
    requires p.dedup
    ensures var k := FilePools(c, p, rows);
      k.sells[key] == CountKey(Netted(c, p, k, rows), SellMask(), key)
  {
    hide Filter, Select, Take;
    var k, k0 := FilePools(c, p, rows), PoolsBeforeSells(c, p, rows);
    SellsDoNotMatter(c, p, k, rows);
    SellsDoNotMatter(c, p, k0, rows);
    BagCounts(Netted(c, p, k0, rows), SellMask(), key);
  }

  function CountReversals(rows: seq<Row>, key: TradeKey): nat {
    if |rows| == 0 then 0
    else
      var r := rows[|rows| - 1];
      CountReversals(rows[..|rows| - 1], key) + (if Reverses(r) && ReversedKey(r) == key then 1 else 0)
  }

  lemma {:induction false} ReversedKeysCount(rows: seq<Row>, key: TradeKey)
    ensures ReversedKeys(rows)[key] == CountReversals(rows, key)
  {
    if |rows| > 0 {
      ReversedKeysCount(rows[..|rows| - 1], key);
    }
  }

  /** The net-out, in both passes: a row that passed filters 1 to 3 is dropped iff it is finite
      and fewer such rows of its key precede it than the file holds reversals of that key. */
  lemma NetoutExact(c: Config, p: Profile, rows: seq<Row>, i: nat)
    requires p.netReversals && c.hasPriorDateColumn
    requires i < |Issued(c, p, FilePools(c, p, rows), rows)|
    ensures var k := FilePools(c, p, rows);
      var s := Issued(c, p, k, rows);
      && (Take(s, k.reversals, FiniteMask()).mask[i]
          <==> IsFinite(s[i]) && CountKey(s[..i], FiniteMask(), Key(s[i])) < CountReversals(rows, Key(s[i])))
  {
    hide Filter, Select, Take;
    var k := FilePools(c, p, rows);
    var s := Issued(c, p, k, rows);
    TakenIffEarly(s, k.reversals, FiniteMask(), i);
    ReversedKeysCount(rows, Key(s[i]));
  }

  /** Per key, the net-out removes min(finite survivors, reversals) rows. */
  lemma NetoutPerKey(c: Config, p: Profile, rows: seq<Row>, key: TradeKey)
    requires p.netReversals && c.hasPriorDateColumn
    ensures var k := FilePools(c, p, rows);
      CountKey(Netted(c, p, k, rows), FiniteMask(), key)
        == Monus(CountKey(Issued(c, p, k, rows), FiniteMask(), key), CountReversals(rows, key))
  {
    hide Filter, Select, Take;
    var k := FilePools(c, p, rows);
    MatchedPerKey(Issued(c, p, k, rows), k.reversals, FiniteMask(), key);
    ReversedKeysCount(rows, key);
  }

  // --- dedup --------------------------------------------------------------------------------

  predicate FiniteKey(key: TradeKey) { key.price.Finite? && key.vol.Finite? }

  /** The dedup drops a row iff it is a buy and fewer buys of its key precede it than the
      whole file has finite sells of that key: the first min(buys, sells) buys. */
  lemma DedupExact(c: Config, p: Profile, rows: seq<Row>, i: nat)
    requires p.dedup && i < |Netted(c, p, FilePools(c, p, rows), rows)|
    ensures var k := FilePools(c, p, rows);
      var s := Netted(c, p, k, rows);
      && (Take(s, k.sells, BuyMask()).mask[i]
          <==> IsBuy(s[i]) && CountKey(s[..i], BuyMask(), Key(s[i])) < CountKey(s, SellMask(), Key(s[i])))
  {
    hide Filter, Select, Take;
    var k := FilePools(c, p, rows);
    var s := Netted(c, p, k, rows);
    TakenIffEarly(s, k.sells, BuyMask(), i);
    SellPoolIsWhatScan3Sees(c, p, rows, Key(s[i]));
  }

  lemma {:induction false} NoFiniteRowsOfKey(rows: seq<Row>, key: TradeKey)
    requires !FiniteKey(key)
    ensures CountKey(rows, SellMask(), key) == 0
  {
    if |rows| > 0 {
      NoFiniteRowsOfKey(rows[..|rows| - 1], key);
    }
  }

  /** Every finite sell survives the dedup, max(buys, finite sells) trades of each key survive,
      and a key with a non-finite price or volume loses nothing. */
  lemma DedupPerKey(c: Config, p: Profile, rows: seq<Row>, key: TradeKey)
    requires p.dedup
    ensures var k := FilePools(c, p, rows);
      var before, after := Netted(c, p, k, rows), Deduped(c, p, k, rows);
      && CountKey(after, SellMask(), key) == CountKey(before, SellMask(), key)
      && CountKey(after, BuyMask(), key) + CountKey(after, SellMask(), key)
           == Max(CountKey(before, BuyMask(), key), CountKey(before, SellMask(), key))
      && (!FiniteKey(key) ==> CountKey(after, BuyMask(), key) == CountKey(before, BuyMask(), key))
  {
    hide Filter, Select, Take;
    var k := FilePools(c, p, rows);
    var before := Netted(c, p, k, rows);
    MatchedPerKey(before, k.sells, BuyMask(), key);
    OnlyEligibleTaken(before, k.sells, BuyMask(), SellMask(), key);
    SellPoolIsWhatScan3Sees(c, p, rows, key);
    if !FiniteKey(key) {
      NoFiniteRowsOfKey(before, key);
    }
  }

  lemma {:induction false} MatchedRowsEligible(rows: seq<Row>, pool: multiset<TradeKey>, eligible: Row -> bool, r: Row)
    requires r in Select(rows, Take(rows, pool, eligible).mask, true)
    ensures eligible(r)
  {
    var n := |rows| - 1;
    var t0, t := Take(rows[..n], pool, eligible), Take(rows, pool, eligible);
    assert t.mask[..n] == t0.mask;
    if r in Select(rows[..n], t0.mask, true) {
      MatchedRowsEligible(rows[..n], pool, eligible, r);
    }
  }

  /** The dedup removes buys only: no sell and no record of any other side. */
  lemma DedupDropsBuysOnly(c: Config, p: Profile, rows: seq<Row>, r: Row)
    requires var k := FilePools(c, p, rows);
      var s := Netted(c, p, k, rows);
      r in Select(s, Take(s, k.sells, BuyMask()).mask, true)
    ensures IsBuy(r)
  {
    hide Filter, Select, Take;
    var k := FilePools(c, p, rows);
    MatchedRowsEligible(Netted(c, p, k, rows), k.sells, BuyMask(), r);
  }

  // --- the ledger ---------------------------------------------------------------------------

  lemma {:induction false} YearsSplit(c: Config, rows: seq<Row>)
    requires forall r :: r in rows ==> Year(c, r).Some?
    ensures |Filter(rows, DevMask(c))| + |Filter(rows, HoldoutMask(c))| == |rows|
  {
    if |rows| > 0 {
      assert rows[|rows| - 1] in rows;
      YearsSplit(c, rows[..|rows| - 1]);
    }
  }

  /** Every raw record is accounted for once: in one drop counter, or in one output. */
  lemma LedgerBalances(c: Config, p: Profile, k: Pools, rows: seq<Row>)
    ensures var n := CountsOf(c, p, k, rows);
      var rep := ReportOf(n);
      && rep.droppedTrcSt >= 0 && rep.droppedAsof >= 0 && rep.droppedWhenIssued >= 0
      && n.rawTotal == rep.droppedTrcSt + n.droppedCancelled + rep.droppedAsof + rep.droppedWhenIssued
           + n.droppedReversal + n.droppedDuplicate + n.droppedScreens + n.droppedInvalidDate
           + n.development + n.holdout
      && n.cusipBlank + n.cusipPopulated == n.development + n.holdout
  {
    hide Filter, Select, Take;
    var screened := Screened(c, p, k, rows);
    forall r | r in Dated(c, p, k, rows) ensures Year(c, r).Some? {
      FilterMember(screened, DatedMask(c), r);
    }
    YearsSplit(c, Dated(c, p, k, rows));
  }

  // --- chunking -----------------------------------------------------------------------------

  datatype ScanState = ScanState(pools: Pools, dev: seq<Row>, hold: seq<Row>, counts: Counts)

  /** Scan 3 as it runs: each chunk with the pools the chunks before it left. */
  function ScanChunks(c: Config, p: Profile, k: Pools, chunks: seq<seq<Row>>): ScanState {
    if |chunks| == 0 then ScanState(k, [], [], NO_COUNTS)
    else
      var s := ScanChunks(c, p, k, chunks[..|chunks| - 1]);
      var chunk := chunks[|chunks| - 1];
      ScanState(After(c, p, s.pools, chunk),
                s.dev + Development(c, p, s.pools, chunk), s.hold + Holdout(c, p, s.pools, chunk),
                AddCounts(s.counts, CountsOf(c, p, s.pools, chunk)))
  }

  lemma {:induction false} ChunkedIsWhole(c: Config, p: Profile, k: Pools, chunks: seq<seq<Row>>)
    ensures var file := Flatten(chunks);
      ScanChunks(c, p, k, chunks)
        == ScanState(After(c, p, k, file), Development(c, p, k, file), Holdout(c, p, k, file), CountsOf(c, p, k, file))
  {
    hide Filter, Select, Take, CountsOf;
    if |chunks| == 0 {
      NothingScanned(c, p, k);
    } else {
      var n := |chunks| - 1;
      ChunkedIsWhole(c, p, k, chunks[..n]);
      ScanStep(c, p, k, After(c, p, k, Flatten(chunks[..n])), chunks, n);
      assert chunks[..n + 1] == chunks;
    }
  }

  /** Two chunkings of one file leave the same outputs, counters and pools. */
  lemma ChunkInvariance(c: Config, p: Profile, k: Pools, a: seq<seq<Row>>, b: seq<seq<Row>>)
    requires Flatten(a) == Flatten(b)
    ensures ScanChunks(c, p, k, a) == ScanChunks(c, p, k, b)
  {
    hide Filter, Select, Take, CountsOf;
    ChunkedIsWhole(c, p, k, a);
    ChunkedIsWhole(c, p, k, b);
  }
}
