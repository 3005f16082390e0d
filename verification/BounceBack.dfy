/** The per-bond bounce-back filter: a bounded deque of non-repeating prices, a median
    anchor, a par snap with a cooldown, and a bounded lookahead. */
module BounceBack {
  import opened Basics
  import opened Ordering

  datatype Params = Params(
    thresholdAbs: real, lookahead: int, window: nat,
    backToAnchorTol: real, candidateSlackAbs: real, parCooldown: int,
    parOn: bool, parLevel: real, parBand: real, parMinRun: int)
  {
    function RecoveryTol(): real { backToAnchorTol + candidateSlackAbs }
    function Reach(): nat { if lookahead > 0 then lookahead else 0 }
  }

  /** `list[-m:]` for any integer m. */
  function TailSlice(s: seq<real>, m: int): seq<real>
    requires m <= |s|
  {
    if m > 0 then s[|s| - m..] else if -m <= |s| then s[-m..] else []
  }

  predicate NearParRun(P: Params, anchors: seq<real>) {
    |anchors| >= P.parMinRun && forall x :: x in TailSlice(anchors, P.parMinRun) ==> Abs(x - P.parLevel) <= P.parBand
  }

  // --- the specification: a filter whose anchor is a function of the kept prices -------------

  /** `s` with adjacent repeats collapsed. */
  function Collapse(s: seq<real>): seq<real> {
    if |s| == 0 then []
    else
      var t := Collapse(s[..|s| - 1]);
      if |t| > 0 && t[|t| - 1] == s[|s| - 1] then t else t + [s[|s| - 1]]
  }

  function LastN(s: seq<real>, n: nat): seq<real> {
    if |s| <= n then s else s[|s| - n..]
  }

  function Anchors(P: Params, kept: seq<real>): seq<real> { LastN(Collapse(kept), P.window) }

  /** The trades the recovery test may look at after trade i. */
  function Ahead(P: Params, prices: seq<real>, i: nat): seq<real>
    requires i < |prices|
  {
    prices[i + 1..if i + 1 + P.Reach() < |prices| then i + 1 + P.Reach() else |prices|]
  }

  datatype Verdict = Keep | Drop(atPar: bool)

  predicate Recovers(P: Params, ahead: seq<real>, m: real) {
    exists j :: 0 <= j < |ahead| && Abs(ahead[j] - m) <= P.RecoveryTol()
  }

  function Judge(P: Params, anchors: seq<real>, cooldown: int, p: real, ahead: seq<real>): Verdict {
    if cooldown > 0 || |anchors| < 2 then Keep
    else
      var m := Median(anchors);
      var par := P.parOn && NearParRun(P, anchors);
      if Abs(p - (if par then P.parLevel else m)) <= P.thresholdAbs then Keep
      else if Recovers(P, ahead, m) then Drop(par)
      else Keep
  }

  datatype State = State(keep: seq<bool>, cooldown: int)

  /** The decisions on the first i trades, and the cooldown they leave. */
  function Run(P: Params, prices: seq<real>, i: nat): (s: State)
    requires i <= |prices|
    ensures |s.keep| == i
  {
    if i == 0 then State([], 0)
    else
      var s := Run(P, prices, i - 1);
      var v := VerdictAt(P, prices, i - 1, s);
      State(s.keep + [v.Keep?],
            if s.cooldown > 0 then s.cooldown - 1
            else if v == Drop(true) then P.parCooldown else s.cooldown)
  }

  function VerdictAt(P: Params, prices: seq<real>, i: nat, s: State): Verdict
    requires i < |prices| && |s.keep| == i
  {
    Judge(P, Anchors(P, Select(prices[..i], s.keep, true)), s.cooldown, prices[i], Ahead(P, prices, i))
  }

  function KeepMask(P: Params, prices: seq<real>): (mask: seq<bool>)
    ensures |mask| == |prices|
  {
    Run(P, prices, |prices|).keep
  }

  function Count(mask: seq<bool>, want: bool): nat {
    if |mask| == 0 then 0
    else Count(mask[..|mask| - 1], want) + (if mask[|mask| - 1] == want then 1 else 0)
  }

  // --- the loop -----------------------------------------------------------------------------

  /** `deque(maxlen=...)`, changed in place by its callees. */
  class Trailing {
    var items: seq<real>
    const maxlen: nat

    constructor (maxlen: nat)
      ensures items == [] && this.maxlen == maxlen
    {
      this.maxlen := maxlen;
      items := [];
    }

    method Append(p: real)
      modifies this
      ensures items == LastN(old(items) + [p], maxlen)
      requires |items| <= maxlen
    {
      items := items + [p];
      if |items| > maxlen {
        items := items[1..];
      }
    }
  }

  method PushUnique(dq: Trailing, p: real, ghost kept: seq<real>)
    requires dq.items == LastN(Collapse(kept), dq.maxlen)
    modifies dq
    ensures dq.items == LastN(Collapse(kept + [p]), dq.maxlen)
  {
    PushKeepsWindow(kept, p, dq.maxlen);
    if |dq.items| == 0 || dq.items[|dq.items| - 1] != p {
      dq.Append(p);
    }
  }

  /** Ring-buffer refinement, one push: appending a price unless it repeats the newest entry
      keeps the deque equal to the last `n` of the collapsed history. */
  lemma PushKeepsWindow(kept: seq<real>, p: real, n: nat)
    ensures var w := LastN(Collapse(kept), n);
      LastN(Collapse(kept + [p]), n) == if |w| == 0 || w[|w| - 1] != p then LastN(w + [p], n) else w
  {
    hide Collapse, LastN;
    var c := Collapse(kept);
    CollapseSnoc(kept, p);
    LastNSnoc(c, p, n);
    LastNEnd(c, n);
    LastNEnd([p], n);
    assert [] + [p] == [p];
  }

  lemma CollapseSnoc(kept: seq<real>, p: real)
    ensures var c := Collapse(kept);
      Collapse(kept + [p]) == if |c| > 0 && c[|c| - 1] == p then c else c + [p]
  {
    assert (kept + [p])[..|kept|] == kept;
  }

  lemma LastNSnoc(c: seq<real>, p: real, n: nat)
    ensures LastN(c + [p], n) == LastN(LastN(c, n) + [p], n)
  {
  }

  lemma LastNEnd(c: seq<real>, n: nat)
    ensures var w := LastN(c, n);
      (n == 0 ==> w == []) && (n > 0 && |c| > 0 ==> |w| > 0 && w[|w| - 1] == c[|c| - 1]) && (|c| == 0 ==> w == [])
  {
  }

  /** The loop over one bond's prices: it decides exactly as the specification does. */
  method ApplyBounceBackLoop(P: Params, prices: seq<real>) returns (keep: array<bool>, nDropped: nat)
    ensures keep[..] == KeepMask(P, prices)
    ensures nDropped == Count(KeepMask(P, prices), false)
  {
    hide Run, Select, Collapse, LastN, Sort, Median, Count, NearParRun, Recovers;
    var n := |prices|;
    RunStart(P, prices);
    keep := new bool[n](_ => true);
    var trailing := new Trailing(P.window);
    var cooldown := 0;
    nDropped := 0;
    for i := 0 to n
      invariant fresh(keep) && fresh(trailing) && keep.Length == n && trailing.maxlen == P.window
      invariant keep[..i] == Run(P, prices, i).keep && cooldown == Run(P, prices, i).cooldown
      invariant forall j :: i <= j < n ==> keep[j]
      invariant trailing.items == Anchors(P, Select(prices[..i], Run(P, prices, i).keep, true))
      invariant nDropped == Count(Run(P, prices, i).keep, false)
    {
      var p := prices[i];
      ghost var s := Run(P, prices, i);
      ghost var kept := Select(prices[..i], s.keep, true);
      RunSnoc(P, prices, i);
      if cooldown > 0 {
        PushUnique(trailing, p, kept);
        cooldown := cooldown - 1;
      } else if |trailing.items| < 2 {
        PushUnique(trailing, p, kept);
      } else {
        var medianAnchor := Median(trailing.items);
        var parSnap := P.parOn && NearParRun(P, trailing.items);
        var flagAnchor := if parSnap then P.parLevel else medianAnchor;
        if Abs(p - flagAnchor) <= P.thresholdAbs {
          PushUnique(trailing, p, kept);
        } else {
          var hi := if i + 1 + P.Reach() < n then i + 1 + P.Reach() else n;
          var recovered := exists j :: i + 1 <= j < hi && Abs(prices[j] - medianAnchor) <= P.RecoveryTol();
          RecoveryRange(P, prices, i, medianAnchor);
          if recovered {
            keep[i] := false;
            nDropped := nDropped + 1;
            if parSnap {
              cooldown := P.parCooldown;
            }
          } else {
            PushUnique(trailing, p, kept);
          }
        }
      }
      assert keep[..i + 1] == keep[..i] + [keep[i]];
    }
    assert keep[..n] == keep[..];
  }

  lemma RecoveryRange(P: Params, prices: seq<real>, i: nat, m: real)
    requires i < |prices|
    ensures Recovers(P, Ahead(P, prices, i), m)
       <==> (exists j :: i + 1 <= j < i + 1 + |Ahead(P, prices, i)| && Abs(prices[j] - m) <= P.RecoveryTol())
  {
    var a := Ahead(P, prices, i);
    if Recovers(P, a, m) {
      var j :| 0 <= j < |a| && Abs(a[j] - m) <= P.RecoveryTol();
      assert Abs(prices[i + 1 + j] - m) <= P.RecoveryTol();
    }
    if exists j :: i + 1 <= j < i + 1 + |a| && Abs(prices[j] - m) <= P.RecoveryTol() {
      var j :| i + 1 <= j < i + 1 + |a| && Abs(prices[j] - m) <= P.RecoveryTol();
      assert a[j - i - 1] == prices[j];
    }
  }

  lemma RunStart(P: Params, prices: seq<real>)
    ensures Run(P, prices, 0) == State([], 0) && Count([], false) == 0
    ensures Anchors(P, Select(prices[..0], [], true)) == []
  {
  }

  /** One more trade: a kept trade extends the history, a dropped one leaves it. */
  lemma RunSnoc(P: Params, prices: seq<real>, i: nat)
    requires i < |prices|
    ensures var s, t := Run(P, prices, i), Run(P, prices, i + 1);
      var v := VerdictAt(P, prices, i, s);
      && t.keep == s.keep + [v.Keep?]
      && t.cooldown == (if s.cooldown > 0 then s.cooldown - 1 else if v == Drop(true) then P.parCooldown else s.cooldown)
      && Select(prices[..i + 1], t.keep, true)
           == (if v.Keep? then Select(prices[..i], s.keep, true) + [prices[i]] else Select(prices[..i], s.keep, true))
      && Count(t.keep, false) == Count(s.keep, false) + (if v.Keep? then 0 else 1)
  {
    var s, t := Run(P, prices, i), Run(P, prices, i + 1);
    assert prices[..i + 1][..i] == prices[..i];
    assert t.keep[..i] == s.keep;
  }
}
