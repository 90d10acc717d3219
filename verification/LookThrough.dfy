/**
 One-level look-through of holdings into per-currency accumulators.

 The reference meaning of the accumulators is a sum over the holdings, one currency and one
 instrument or company at a time. The class updates the accumulators one holding at a time.
 */
module LookThrough {

  datatype Option<+T> = None | Some(value: T)

  /** Only a listed equity names its company. `Opaque` stands for every type without an admitted look-through. */
  datatype Instrument =
    | ListedEquity(id: string, companyId: string)
    | EquityEtf(id: string)
    | Opaque(id: string)

  datatype Constituent = Constituent(companyId: string, weight: real)

  datatype EtfSnapshot = EtfSnapshot(constituents: seq<Constituent>, unresolvedWeight: real,
                                     unresolvedReason: Option<string>)

  /** A position at its current value, or the supplied hypothetical amount. */
  datatype Holding = Holding(instrument: Instrument, currency: string, amount: real)

  function WeightSum(constituents: seq<Constituent>): real
  {
    if constituents == [] then 0.0
    else WeightSum(constituents[..|constituents| - 1]) + constituents[|constituents| - 1].weight
  }

  predicate ValidSnapshot(s: EtfSnapshot)
  {
    && s.constituents != []
    && (forall i, j :: 0 <= i < j < |s.constituents| ==> s.constituents[i].companyId != s.constituents[j].companyId)
    && (forall k :: k in s.constituents ==> 0.0 < k.weight <= 1.0)
    && 0.0 <= s.unresolvedWeight <= 1.0
    && WeightSum(s.constituents) + s.unresolvedWeight == 1.0
    && (s.unresolvedReason.Some? <==> s.unresolvedWeight > 0.0)
  }

  /** Every held equity ETF has a valid snapshot and no amount is negative. */
  ghost predicate Covered(hs: seq<Holding>, snapshots: map<string, EtfSnapshot>)
  {
    && (forall h :: h in hs ==> h.amount >= 0.0)
    && (forall h :: h in hs && h.instrument.EquityEtf? ==>
          h.instrument.id in snapshots && ValidSnapshot(snapshots[h.instrument.id]))
  }

  /** Multiplication, named so that a proof can hide it from the solver. */
  function Portion(amount: real, weight: real): real
  {
    amount * weight
  }

  lemma PortionOfSum(amount: real, w: real, u: real)
    ensures Portion(amount, w + u) == Portion(amount, w) + Portion(amount, u)
    ensures Portion(amount, 0.0) == 0.0 && Portion(amount, 1.0) == amount
  {
  }

  lemma PortionNonNegative(amount: real, w: real)
    requires amount >= 0.0 && w >= 0.0
    ensures Portion(amount, w) >= 0.0
    ensures Portion(amount, w) > 0.0 <==> amount > 0.0 && w > 0.0
  {
  }

  // ---------------------------------------------------------------- reference meaning

  ghost function InstrumentIds(hs: seq<Holding>, currency: string): set<string>
  {
    set h | h in hs && h.currency == currency :: h.instrument.id
  }

  ghost function InstrumentValue(hs: seq<Holding>, currency: string, id: string): real
  {
    if hs == [] then 0.0
    else
      var h := hs[|hs| - 1];
      InstrumentValue(hs[..|hs| - 1], currency, id)
        + if h.currency == currency && h.instrument.id == id then h.amount else 0.0
  }

  datatype CompanyAccumulator = CompanyAccumulator(direct: real, indirect: real, directIds: set<string>,
                                                   indirectIds: set<string>)
  {
    function Sum(): real { direct + indirect }
  }

  const EMPTY_COMPANY := CompanyAccumulator(0.0, 0.0, {}, {})

  /** What the listed constituents pass on to one company. */
  ghost function Passed(amount: real, constituents: seq<Constituent>, companyId: string): real
  {
    if constituents == [] then 0.0
    else
      var k := constituents[|constituents| - 1];
      Passed(amount, constituents[..|constituents| - 1], companyId)
        + if k.companyId == companyId then Portion(amount, k.weight) else 0.0
  }

  ghost function Members(constituents: seq<Constituent>): set<string>
  {
    set k | k in constituents :: k.companyId
  }

  ghost function Touched(h: Holding, snapshots: map<string, EtfSnapshot>): set<string>
    requires h.instrument.EquityEtf? ==> h.instrument.id in snapshots
  {
    match h.instrument
    case ListedEquity(_, companyId) => {companyId}
    case EquityEtf(id) => Members(snapshots[id].constituents)
    case Opaque(_) => {}
  }

  ghost function CompanyIds(hs: seq<Holding>, snapshots: map<string, EtfSnapshot>, currency: string): set<string>
    requires Covered(hs, snapshots)
  {
    set h, companyId | h in hs && h.currency == currency && companyId in Touched(h, snapshots) :: companyId
  }

  /** One holding's effect on one company. */
  ghost function Contribution(acc: CompanyAccumulator, h: Holding, snapshots: map<string, EtfSnapshot>,
                              companyId: string): CompanyAccumulator
    requires h.instrument.EquityEtf? ==> h.instrument.id in snapshots
  {
    if companyId !in Touched(h, snapshots) then acc
    else if h.instrument.ListedEquity? then
      acc.(direct := acc.direct + h.amount, directIds := acc.directIds + {h.instrument.id})
    else
      acc.(indirect := acc.indirect + Passed(h.amount, snapshots[h.instrument.id].constituents, companyId),
           indirectIds := acc.indirectIds + {h.instrument.id})
  }

  ghost function CompanyOf(hs: seq<Holding>, snapshots: map<string, EtfSnapshot>, currency: string,
                           companyId: string): CompanyAccumulator
    requires Covered(hs, snapshots)
  {
    if hs == [] then EMPTY_COMPANY
    else
      var h := hs[|hs| - 1];
      var acc := CompanyOf(hs[..|hs| - 1], snapshots, currency, companyId);
      if h.currency == currency then Contribution(acc, h, snapshots, companyId) else acc
  }

  /** What one holding leaves without a company. */
  ghost function UnresolvedPart(h: Holding, snapshots: map<string, EtfSnapshot>): real
    requires h.instrument.EquityEtf? ==> h.instrument.id in snapshots
  {
    match h.instrument
    case ListedEquity(_, _) => 0.0
    case EquityEtf(id) => Portion(h.amount, snapshots[id].unresolvedWeight)
    case Opaque(_) => h.amount
  }

  ghost function Unresolved(hs: seq<Holding>, snapshots: map<string, EtfSnapshot>, currency: string): real
    requires Covered(hs, snapshots)
  {
    if hs == [] then 0.0
    else
      var h := hs[|hs| - 1];
      Unresolved(hs[..|hs| - 1], snapshots, currency)
        + if h.currency == currency then UnresolvedPart(h, snapshots) else 0.0
  }

  const NO_LOOK_THROUGH := ": no admitted one-level company look-through"

  function ResidualReason(id: string, snapshot: EtfSnapshot): string
  {
    id + ": " + if snapshot.unresolvedReason.Some? then snapshot.unresolvedReason.value else "None"
  }

  /** An ETF explains a positive residual; an opaque instrument always explains itself, even at value zero. */
  ghost function Reason(h: Holding, snapshots: map<string, EtfSnapshot>): set<string>
    requires h.instrument.EquityEtf? ==> h.instrument.id in snapshots
  {
    match h.instrument
    case ListedEquity(_, _) => {}
    case EquityEtf(id) => if UnresolvedPart(h, snapshots) > 0.0 then {ResidualReason(id, snapshots[id])} else {}
    case Opaque(id) => {id + NO_LOOK_THROUGH}
  }

  ghost function Reasons(hs: seq<Holding>, snapshots: map<string, EtfSnapshot>, currency: string): set<string>
    requires Covered(hs, snapshots)
  {
    set h, r | h in hs && h.currency == currency && r in Reason(h, snapshots) :: r
  }
}
