/** TRACE records, cleaning profiles and the row predicates of the cleaning engine. */
module TraceRows {
  import opened Basics

  /** A CSV float. The engine does no arithmetic on prices or volumes: it asks whether
      they are finite and it keys on their printed form. */
  datatype Float = Finite(repr: string) | NonFinite(repr: string)

  datatype Row = Row(
    trcSt: Option<string>, msgSeq: Option<string>, origMsgSeq: Option<string>,
    bond: Option<string>, execDate: Option<string>, priorDate: Option<string>,
    price: Float, vol: Float,
    asof: Option<string>, whenIssued: Option<string>, side: Option<string>,
    otherColumns: seq<Option<string>>)

  datatype CorrectionMode = DeleteBoth | KeepReplacementPre2012

  datatype Profile = Profile(
    correction: CorrectionMode, retainAsof: bool, retainAsofDx: bool,
    netReversals: bool, applyWhenIssued: bool, dedup: bool,
    screen: Option<Row -> bool>)

  /** `parseYear` stands for the row's date parse: None where the date does not parse.
      `blankCusip` says that the row's CUSIP cell is missing or blank. */
  datatype Config = Config(
    asofKeep: string, holdoutYear: int, holdoutEndYear: int,
    hasPriorDateColumn: bool, parseYear: Option<string> -> Option<int>, blankCusip: Row -> bool)

  /** The composite hashes, taken as injective: the tuples that are hashed. */
  datatype CancelKey = CancelKey(bond: string, date: string, msgSeq: string)
  datatype TradeKey = TradeKey(bond: string, date: string, price: Float, vol: Float)

  const REGIME_SPLIT_ISO := "2012-02-06"

  /** `astype(str)`: a missing cell prints as "nan". */
  function AsStr(cell: Option<string>): string {
    if cell.None? then "nan" else cell.value
  }

  /** Lexicographic order of strings. */
  predicate StrLess(a: string, b: string) {
    if |b| == 0 then false
    else if |a| == 0 then true
    else a[0] < b[0] || (a[0] == b[0] && StrLess(a[1..], b[1..]))
  }

  predicate IsFinite(r: Row) { r.price.Finite? && r.vol.Finite? }

  function Key(r: Row): TradeKey { TradeKey(AsStr(r.bond), AsStr(r.execDate), r.price, r.vol) }

  // --- records that feed the cross-chunk state -------------------------------------------

  /** A record that cancels an earlier one: any status but T, with a usable original number. */
  predicate Cancels(r: Row) {
    r.trcSt != Some("T") && r.origMsgSeq.Some? && r.origMsgSeq.value != ""
  }

  function CancelledKey(r: Row): CancelKey {
    CancelKey(AsStr(r.bond), AsStr(r.execDate), AsStr(r.origMsgSeq))
  }

  function OwnKey(r: Row): CancelKey { CancelKey(AsStr(r.bond), AsStr(r.execDate), AsStr(r.msgSeq)) }

  /** An as-of reversal that can be matched by value. */
  predicate Reverses(r: Row) {
    r.asof == Some("R") && r.priorDate.Some? && r.priorDate.value != "" && IsFinite(r)
  }

  function ReversedKey(r: Row): TradeKey {
    TradeKey(AsStr(r.bond), AsStr(r.priorDate), r.price, r.vol)
  }

  // --- row filters ------------------------------------------------------------------------

  predicate Keep1a(p: Profile, r: Row) {
    r.trcSt == Some("T") ||
    (p.correction.KeepReplacementPre2012? && r.trcSt == Some("C") && StrLess(AsStr(r.execDate), REGIME_SPLIT_ISO))
  }

  predicate KeepAsof(c: Config, p: Profile, r: Row) {
    || r.asof.None? || r.asof == Some(c.asofKeep)
    || (p.retainAsof && r.asof == Some("A"))
    || (p.retainAsofDx && (r.asof == Some("D") || r.asof == Some("X")))
  }

  predicate IsBuy(r: Row) { r.side == Some("B") }
  predicate IsFiniteSell(r: Row) { r.side == Some("S") && IsFinite(r) }

  function Year(c: Config, r: Row): Option<int> { c.parseYear(r.execDate) }

  // The same filters as selection masks.
  function Keep1aMask(p: Profile): Row -> bool { (r: Row) => Keep1a(p, r) }
  function NotCancelledMask(cancelled: set<CancelKey>): Row -> bool { (r: Row) => OwnKey(r) !in cancelled }
  function AsofMask(c: Config, p: Profile): Row -> bool { (r: Row) => KeepAsof(c, p, r) }
  function WhenIssuedMask(): Row -> bool { (r: Row) => r.whenIssued != Some("Y") }
  function FiniteMask(): Row -> bool { (r: Row) => IsFinite(r) }
  function BuyMask(): Row -> bool { (r: Row) => IsBuy(r) }
  function SellMask(): Row -> bool { (r: Row) => IsFiniteSell(r) }
  function DatedMask(c: Config): Row -> bool { (r: Row) => Year(c, r).Some? }
  function BeyondMask(c: Config): Row -> bool { (r: Row) => Year(c, r).Some? && Year(c, r).value > c.holdoutEndYear }
  function DevMask(c: Config): Row -> bool { (r: Row) => Year(c, r).Some? && Year(c, r).value < c.holdoutYear }
  function HoldoutMask(c: Config): Row -> bool { (r: Row) => Year(c, r).Some? && Year(c, r).value >= c.holdoutYear }
}
