/**
 The exposure builder from its validated records to its two views: the input must fit the portfolio state
 exactly, and then only a price of zero can stop the build.
 */
module ExposureState {
  import opened Sums
  import opened LookThrough
  import opened ExposureTables
  import opened Categories
  import opened ExposureBook
  import opened ExposureEngine
  import opened BookInvariants
  import opened HoldingLaws
  import opened CategoryLaws
  import opened Temporal

  datatype Listed = Listed(instrument: Instrument, currency: string)

  /** The parts of the portfolio state the builder reads; each position is given with its instrument. */
  datatype StateView = StateView(
    boundary: Boundary, positions: seq<Holding>, instruments: map<string, Listed>, eligibleEtfs: set<string>)

  datatype Proposal = Proposal(instrumentId: string, currency: string, amount: real)

  /** One label as a profile registers it: what kind of tag, which tag, which text. */
  datatype Label = Label(kind: string, id: string, text: string)

  datatype ExposureInput = ExposureInput(
    boundary: Boundary, hypothetical: Option<Proposal>, snapshots: map<string, EtfSnapshot>,
    profiles: map<string, Profile>, labels: seq<Label>, topCount: nat)

  datatype Views = Views(before: map<string, CurrencyBook>, after: Option<map<string, CurrencyBook>>)

  datatype StateError =
    | BoundaryDiffers | MissingSnapshot | UnknownInstrument | NotInvestable | ForeignCurrency
    | SnapshotsDoNotCover | ProfilesDoNotCover | ConflictingLabels
    | EngineFailed(error: ExposureError)

  datatype StateResult = Built(views: Views) | Failed(error: StateError)

  // ---------------------------------------------------------------- what must be supplied

  function HeldEtfs(hs: seq<Holding>): set<string>
  {
    set h | h in hs && h.instrument.EquityEtf? :: h.instrument.id
  }

  function DirectCompanies(hs: seq<Holding>): set<string>
  {
    set h | h in hs && h.instrument.ListedEquity? :: h.instrument.companyId
  }

  function ListedConstituents(snapshots: map<string, EtfSnapshot>): set<string>
  {
    set id, k | id in snapshots && k in snapshots[id].constituents :: k.companyId
  }

  /** Only listed equities and eligible equity ETFs may receive new capital. */
  predicate Investable(i: Instrument, eligibleEtfs: set<string>)
  {
    i.ListedEquity? || (i.EquityEtf? && i.id in eligibleEtfs)
  }

  predicate ProposalAdmitted(p: Option<Proposal>, s: StateView)
  {
    p.Some? ==>
      && p.value.instrumentId in s.instruments
      && Investable(s.instruments[p.value.instrumentId].instrument, s.eligibleEtfs)
      && p.value.currency == s.instruments[p.value.instrumentId].currency
  }

  /** A proposal is refused for an unknown, opaque or ineligible instrument, or a currency that is not its own. */
  lemma ProposalRefusedIff(p: Proposal, s: StateView)
    ensures !ProposalAdmitted(Some(p), s) <==>
      || p.instrumentId !in s.instruments
      || s.instruments[p.instrumentId].instrument.Opaque?
      || (s.instruments[p.instrumentId].instrument.EquityEtf?
          && s.instruments[p.instrumentId].instrument.id !in s.eligibleEtfs)
      || s.instruments[p.instrumentId].currency != p.currency
    ensures ProposalAdmitted(None, s)
  {
  }

  /** The hypothetical amount as one more holding of a known instrument. */
  function HypotheticalOf(p: Option<Proposal>, s: StateView): Option<Holding>
  {
    if p.None? || p.value.instrumentId !in s.instruments then None
    else Some(Holding(s.instruments[p.value.instrumentId].instrument, p.value.currency, p.value.amount))
  }

  function AnalysedIn(s: StateView, i: ExposureInput): seq<Holding>
  {
    Analysed(s.positions, HypotheticalOf(i.hypothetical, s))
  }

  /** What is analysed: the positions, and the proposed amount as a holding of the instrument it names. */
  lemma AnalysedIs(s: StateView, i: ExposureInput)
    requires ProposalAdmitted(i.hypothetical, s)
    ensures i.hypothetical.None? ==> AnalysedIn(s, i) == s.positions
    ensures i.hypothetical.Some? ==>
      var h := i.hypothetical.value;
      AnalysedIn(s, i) == s.positions + [Holding(s.instruments[h.instrumentId].instrument, h.currency, h.amount)]
  {
  }

  /** What must be supplied: snapshots for the analysed funds, profiles for their companies and the equities'. */
  lemma RequiredAre(hs: seq<Holding>, snapshots: map<string, EtfSnapshot>, id: string)
    ensures id in HeldEtfs(hs) <==> exists h :: h in hs && h.instrument == EquityEtf(id)
    ensures id in DirectCompanies(hs) <==>
      exists h :: h in hs && h.instrument.ListedEquity? && h.instrument.companyId == id
    ensures id in ListedConstituents(snapshots) <==>
      exists etf, k :: etf in snapshots && k in snapshots[etf].constituents && k.companyId == id
  {
  }

  predicate LabelsAgree(labels: seq<Label>)
  {
    forall a, b :: a in labels && b in labels && a.kind == b.kind && a.id == b.id ==> a.text == b.text
  }

  /** What the models of the records themselves guarantee. */
  ghost predicate WellFormed(s: StateView, i: ExposureInput)
  {
    && (forall h :: h in s.positions ==> h.amount >= 0.0)
    && (i.hypothetical.Some? ==> i.hypothetical.value.amount > 0.0)
    && (forall id :: id in i.snapshots ==> ValidSnapshot(i.snapshots[id]))
    && (forall id :: id in i.profiles ==> ValidProfile(i.profiles[id]))
  }

  /**
   Snapshots for exactly the analysed equity ETFs, profiles for exactly the companies they and the
   equities resolve to.
   */
  ghost predicate ExactlyCovered(hs: seq<Holding>, snapshots: map<string, EtfSnapshot>, profiles: map<string, Profile>)
  {
    && snapshots.Keys == HeldEtfs(hs)
    && profiles.Keys == DirectCompanies(hs) + ListedConstituents(snapshots)
  }

  ghost predicate InputsFit(s: StateView, i: ExposureInput)
  {
    && s.boundary == i.boundary
    && ProposalAdmitted(i.hypothetical, s)
    && ExactlyCovered(AnalysedIn(s, i), i.snapshots, i.profiles)
    && LabelsAgree(i.labels)
  }

  /** `_collect_required_inputs` over every analysed instrument. */
  method CollectRequired(hs: seq<Holding>, snapshots: map<string, EtfSnapshot>)
    returns (ok: bool, etfs: set<string>, companies: set<string>)
    ensures ok <==> HeldEtfs(hs) <= snapshots.Keys
    ensures ok ==> etfs == HeldEtfs(hs) && companies == DirectCompanies(hs)
  {
    etfs, companies := {}, {};
    for n := 0 to |hs|
      invariant etfs == HeldEtfs(hs[..n]) && companies == DirectCompanies(hs[..n])
      invariant etfs <= snapshots.Keys
    {
      var h := hs[n];
      assert hs[..n + 1] == hs[..n] + [h];
      match h.instrument
      case ListedEquity(_, companyId) =>
        companies := companies + {companyId};
      case EquityEtf(id) =>
        etfs := etfs + {id};
        if id !in snapshots {
          assert id in HeldEtfs(hs);
          return false, etfs, companies;
        }
      case Opaque(_) =>
    }
    assert hs[..|hs|] == hs;
    ok := true;
  }

  /** `_validate_classification_labels`: the first text registered for a tag must be the only one. */
  method CheckLabels(labels: seq<Label>) returns (ok: bool)
    ensures ok <==> LabelsAgree(labels)
  {
    var texts: map<(string, string), string> := map[];
    for n := 0 to |labels|
      invariant forall a :: a in labels[..n] ==> (a.kind, a.id) in texts && texts[(a.kind, a.id)] == a.text
      invariant forall k :: k in texts ==> Label(k.0, k.1, texts[k]) in labels[..n]
    {
      var a := labels[n];
      assert labels[..n + 1] == labels[..n] + [a];
      if (a.kind, a.id) in texts && texts[(a.kind, a.id)] != a.text {
        assert a in labels && Label(a.kind, a.id, texts[(a.kind, a.id)]) in labels;
        return false;
      }
      texts := texts[(a.kind, a.id) := a.text];
    }
    assert labels[..|labels|] == labels;
    ok := true;
  }

  ghost function ProposalError(p: Proposal, s: StateView): StateError
  {
    if p.instrumentId !in s.instruments then UnknownInstrument
    else if !Investable(s.instruments[p.instrumentId].instrument, s.eligibleEtfs) then NotInvestable
    else ForeignCurrency
  }

  /** The first check that fails. */
  ghost function InputError(s: StateView, i: ExposureInput): StateError
  {
    if s.boundary != i.boundary then BoundaryDiffers
    else if !(HeldEtfs(s.positions) <= i.snapshots.Keys) then MissingSnapshot
    else if !ProposalAdmitted(i.hypothetical, s) then ProposalError(i.hypothetical.value, s)
    else
      var hs := AnalysedIn(s, i);
      if !(HeldEtfs(hs) <= i.snapshots.Keys) then MissingSnapshot
      else if HeldEtfs(hs) != i.snapshots.Keys then SnapshotsDoNotCover
      else if i.profiles.Keys != DirectCompanies(hs) + ListedConstituents(i.snapshots) then ProfilesDoNotCover
      else ConflictingLabels
  }

  method CheckProposal(p: Option<Proposal>, s: StateView) returns (error: Option<StateError>)
    ensures error.None? <==> ProposalAdmitted(p, s)
    ensures error.Some? ==> p.Some? && error.value == ProposalError(p.value, s)
  {
    if p.None? {
      return None;
    }
    if p.value.instrumentId !in s.instruments {
      return Some(UnknownInstrument);
    }
    if !Investable(s.instruments[p.value.instrumentId].instrument, s.eligibleEtfs) {
      return Some(NotInvestable);
    }
    if p.value.currency != s.instruments[p.value.instrumentId].currency {
      return Some(ForeignCurrency);
    }
    return None;
  }

  /** What is required is required by the positions or by the hypothetical amount. */
  lemma PositionsAreAnalysed(s: StateView, i: ExposureInput)
    ensures var hypothetical := HypotheticalOf(i.hypothetical, s);
      var more := if hypothetical.Some? then [hypothetical.value] else [];
      && AnalysedIn(s, i) == s.positions + more
      && HeldEtfs(AnalysedIn(s, i)) == HeldEtfs(s.positions) + HeldEtfs(more)
      && DirectCompanies(AnalysedIn(s, i)) == DirectCompanies(s.positions) + DirectCompanies(more)
  {
    var hypothetical := HypotheticalOf(i.hypothetical, s);
    var more := if hypothetical.Some? then [hypothetical.value] else [];
    assert AnalysedIn(s, i) == s.positions + more;
    assert forall h :: h in s.positions + more <==> h in s.positions || h in more;
  }

  method ValidateInputs(s: StateView, i: ExposureInput) returns (error: Option<StateError>)
    ensures error.None? <==> InputsFit(s, i)
    ensures error.Some? ==> error.value == InputError(s, i)
  {
    if s.boundary != i.boundary {
      return Some(BoundaryDiffers);
    }
    var held, etfs, companies := CollectRequired(s.positions, i.snapshots);
    PositionsAreAnalysed(s, i);
    if !held {
      return Some(MissingSnapshot);
    }
    error := CheckProposal(i.hypothetical, s);
    if error.Some? {
      return error;
    }
    var hypothetical := HypotheticalOf(i.hypothetical, s);
    var more := if hypothetical.Some? then [hypothetical.value] else [];
    var ok, moreEtfs, moreCompanies := CollectRequired(more, i.snapshots);
    if !ok {
      return Some(MissingSnapshot);
    }
    etfs, companies := etfs + moreEtfs, companies + moreCompanies;
    if i.snapshots.Keys != etfs {
      return Some(SnapshotsDoNotCover);
    }
    if i.profiles.Keys != companies + ListedConstituents(i.snapshots) {
      return Some(ProfilesDoNotCover);
    }
    var agree := CheckLabels(i.labels);
    if !agree {
      return Some(ConflictingLabels);
    }
    return None;
  }

  /** Exact coverage is all the engine asks for, for the positions alone as well as with the hypothetical amount. */
  lemma CoverageSuffices(positions: seq<Holding>, more: seq<Holding>, snapshots: map<string, EtfSnapshot>,
                         profiles: map<string, Profile>)
    requires forall h :: h in positions ==> h.amount >= 0.0
    requires forall id :: id in snapshots ==> ValidSnapshot(snapshots[id])
    requires forall id :: id in profiles ==> ValidProfile(profiles[id])
    requires ExactlyCovered(positions + more, snapshots, profiles)
    ensures Covered(positions, snapshots) && Profiled(positions, snapshots, profiles)
  {
    hide ValidSnapshot;
    hide ValidProfile;
    hide ListedConstituents;
    var hs := positions + more;
    assert forall h :: h in positions ==> h in hs;
    forall h | h in positions && h.instrument.EquityEtf?
      ensures h.instrument.id in snapshots
    {
      assert h.instrument.id in HeldEtfs(hs);
    }
    forall c, id | id in CompanyIds(positions, snapshots, c)
      ensures id in profiles
    {
      var h :| h in positions && h.currency == c && id in Touched(h, snapshots);
      TouchedIsRequired(h, hs, snapshots, id);
    }
  }

  lemma TouchedIsRequired(h: Holding, hs: seq<Holding>, snapshots: map<string, EtfSnapshot>, id: string)
    requires h in hs && (h.instrument.EquityEtf? ==> h.instrument.id in snapshots) && id in Touched(h, snapshots)
    ensures id in DirectCompanies(hs) + ListedConstituents(snapshots)
  {
    match h.instrument
    case ListedEquity(_, companyId) =>
      assert companyId in DirectCompanies(hs);
    case EquityEtf(etf) =>
      var k :| k in snapshots[etf].constituents && k.companyId == id;
      assert id in ListedConstituents(snapshots);
    case Opaque(_) =>
  }

  // ---------------------------------------------------------------- the two views

  /** Every currency of a view can be built. */
  ghost predicate AllBuildable(hs: seq<Holding>, snapshots: map<string, EtfSnapshot>)
    requires Covered(hs, snapshots)
  {
    forall c :: c in Currencies(hs) ==> Buildable(TablesOf(hs, snapshots, c))
  }

  /** The current view of the positions, and the hypothetical view exactly when an amount is proposed. */
  ghost predicate AreViews(v: Views, s: StateView, i: ExposureInput)
    requires Covered(s.positions, i.snapshots) && Covered(AnalysedIn(s, i), i.snapshots)
  {
    && IsSnapshotOf(v.before, s.positions, i.snapshots, i.profiles, i.topCount)
    && (v.after.Some? <==> i.hypothetical.Some?)
    && (v.after.Some? ==> IsSnapshotOf(v.after.value, AnalysedIn(s, i), i.snapshots, i.profiles, i.topCount))
  }

  lemma CoveredViews(s: StateView, i: ExposureInput)
    requires WellFormed(s, i) && InputsFit(s, i)
    ensures Covered(s.positions, i.snapshots) && Profiled(s.positions, i.snapshots, i.profiles)
    ensures Covered(AnalysedIn(s, i), i.snapshots) && Profiled(AnalysedIn(s, i), i.snapshots, i.profiles)
    ensures HypotheticalOf(i.hypothetical, s).Some? <==> i.hypothetical.Some?
  {
    hide ExactlyCovered;
    hide LabelsAgree;
    hide Covered;
    hide Profiled;
    var hypothetical := HypotheticalOf(i.hypothetical, s);
    var more := if hypothetical.Some? then [hypothetical.value] else [];
    assert AnalysedIn(s, i) == s.positions + more && AnalysedIn(s, i) == AnalysedIn(s, i) + [];
    CoverageSuffices(s.positions, more, i.snapshots, i.profiles);
    CoverageSuffices(AnalysedIn(s, i), [], i.snapshots, i.profiles);
  }

  /** The build succeeds exactly when the input fits the state and every currency of the current view is buildable. */
  method Execute(s: StateView, i: ExposureInput) returns (r: StateResult)
    requires WellFormed(s, i)
    ensures InputsFit(s, i) ==> Covered(s.positions, i.snapshots) && Covered(AnalysedIn(s, i), i.snapshots)
    ensures r.Built? <==> InputsFit(s, i) && AllBuildable(s.positions, i.snapshots)
    ensures r.Failed? && !InputsFit(s, i) ==> r.error == InputError(s, i)
    ensures r.Failed? && InputsFit(s, i) ==>
      r.error.EngineFailed? && SomeBookFails(r.error.error, s.positions, i.snapshots)
    ensures r.Built? ==> AreViews(r.views, s, i)
  {
    var error := ValidateInputs(s, i);
    if error.Some? {
      return Failed(error.value);
    }
    CoveredViews(s, i);
    if AllBuildable(s.positions, i.snapshots) {
      AdmittedHypotheticalBuilds(s, i);
    }
    r := BuildViews(s, i);
  }

  method BuildViews(s: StateView, i: ExposureInput) returns (r: StateResult)
    requires Covered(s.positions, i.snapshots) && Profiled(s.positions, i.snapshots, i.profiles)
    requires Covered(AnalysedIn(s, i), i.snapshots) && Profiled(AnalysedIn(s, i), i.snapshots, i.profiles)
    requires HypotheticalOf(i.hypothetical, s).Some? <==> i.hypothetical.Some?
    ensures r.Built? <==> AllBuildable(s.positions, i.snapshots) && AllBuildable(AnalysedIn(s, i), i.snapshots)
    ensures r.Failed? ==> r.error.EngineFailed?
    ensures r.Failed? && !AllBuildable(s.positions, i.snapshots) ==>
      SomeBookFails(r.error.error, s.positions, i.snapshots)
    ensures r.Built? ==> AreViews(r.views, s, i)
  {
    hide Covered;
    hide Profiled;
    hide IsSnapshotOf;
    hide Buildable;
    hide HypotheticalOf;
    var before := BuildSnapshot(s.positions, None, i.snapshots, i.profiles, i.topCount);
    if before.Err? {
      return Failed(EngineFailed(before.error));
    }
    if i.hypothetical.None? {
      return Built(Views(before.value, None));
    }
    var after := BuildSnapshot(s.positions, HypotheticalOf(i.hypothetical, s), i.snapshots, i.profiles, i.topCount);
    if after.Err? {
      return Failed(EngineFailed(after.error));
    }
    r := Built(Views(before.value, Some(after.value)));
  }

  // ---------------------------------------------------------------- laws of the views

  /**
   An admitted hypothetical never breaks a build: it has value, and it is never an instrument
   without look-through.
   */
  lemma AdmittedHypotheticalBuilds(s: StateView, i: ExposureInput)
    requires WellFormed(s, i) && InputsFit(s, i)
    requires Covered(s.positions, i.snapshots) && Covered(AnalysedIn(s, i), i.snapshots)
    requires AllBuildable(s.positions, i.snapshots)
    ensures AllBuildable(AnalysedIn(s, i), i.snapshots)
  {
    hide ExactlyCovered;
    hide LabelsAgree;
    hide Covered;
    hide Buildable;
    hide TablesOf;
    if i.hypothetical.Some? {
      var h := HypotheticalOf(i.hypothetical, s).value;
      forall c | c in Currencies(AnalysedIn(s, i))
        ensures Buildable(TablesOf(AnalysedIn(s, i), i.snapshots, c))
      {
        OneMoreBuilds(s.positions, h, i.snapshots, c);
      }
    }
  }

  lemma OneMoreBuilds(positions: seq<Holding>, h: Holding, snapshots: map<string, EtfSnapshot>, currency: string)
    requires Covered(positions, snapshots) && Covered(positions + [h], snapshots)
    requires h.amount > 0.0 && !h.instrument.Opaque? && currency in Currencies(positions + [h])
    requires currency in Currencies(positions) ==> Buildable(TablesOf(positions, snapshots, currency))
    ensures Buildable(TablesOf(positions + [h], snapshots, currency))
  {
    var all := positions + [h];
    HypotheticalDelta(positions, h, snapshots, currency);
    TablesNonNegative(positions, snapshots, currency);
    if h.currency == currency {
      PartExplains(h, snapshots);
      if currency !in Currencies(positions) {
        AbsentCurrency(positions, snapshots, currency);
      }
      var before, after := TablesOf(positions, snapshots, currency), TablesOf(all, snapshots, currency);
      assert after.unresolved == before.unresolved + UnresolvedPart(h, snapshots);
      assert after.reasons == before.reasons + Reason(h, snapshots);
      TotalNonNegative(before.instruments);
    } else {
      assert currency in Currencies(positions);
    }
  }

  /** Anything but an opaque instrument gives a reason exactly for a positive residual. */
  lemma PartExplains(h: Holding, snapshots: map<string, EtfSnapshot>)
    requires h.instrument.EquityEtf? ==> h.instrument.id in snapshots && ValidSnapshot(snapshots[h.instrument.id])
    requires h.amount >= 0.0 && !h.instrument.Opaque?
    ensures UnresolvedPart(h, snapshots) >= 0.0
    ensures Reason(h, snapshots) != {} ==> UnresolvedPart(h, snapshots) > 0.0
  {
    if h.instrument.EquityEtf? {
      PortionNonNegative(h.amount, snapshots[h.instrument.id].unresolvedWeight);
    }
  }

  /** Every book of both views passes the book validator, with the currency's held value as its gross. */
  lemma ViewsAreAccepted(v: Views, s: StateView, i: ExposureInput, currency: string)
    requires WellFormed(s, i) && InputsFit(s, i)
    requires Covered(s.positions, i.snapshots) && Covered(AnalysedIn(s, i), i.snapshots)
    requires AreViews(v, s, i) && AllBuildable(s.positions, i.snapshots)
    ensures currency in v.before ==>
      Accepted(v.before[currency]) && v.before[currency].gross == PositionValue(s.positions, currency)
    ensures v.after.Some? && currency in v.after.value ==>
      Accepted(v.after.value[currency]) && v.after.value[currency].gross == PositionValue(AnalysedIn(s, i), currency)
  {
    hide WellFormed;
    hide InputsFit;
    hide Covered;
    hide Buildable;
    hide IsBookOf;
    hide Accepted;
    hide TablesOf;
    hide AnalysedIn;
    AdmittedHypotheticalBuilds(s, i);
    if currency in v.before {
      BuiltBooksAreAccepted(s.positions, i.snapshots, i.profiles, currency, v.before[currency], i.topCount);
    }
    if v.after.Some? && currency in v.after.value {
      BuiltBooksAreAccepted(AnalysedIn(s, i), i.snapshots, i.profiles, currency, v.after.value[currency], i.topCount);
    }
  }

  /** A book all of whose rows are the ones its holdings and profiles call for. */
  ghost predicate IsExact(b: CurrencyBook, hs: seq<Holding>, snapshots: map<string, EtfSnapshot>,
                          profiles: map<string, Profile>, currency: string, count: nat)
  {
    && RowsMatch(b, hs, snapshots, profiles, currency) && ViewsMatch(b, profiles)
    && TopMatches(b, count) && BoundsMatch(b)
  }

  /** Every row of both views, read off the positions and the positions with the hypothetical amount. */
  lemma EveryRowIsExact(v: Views, s: StateView, i: ExposureInput, currency: string)
    requires Covered(s.positions, i.snapshots) && Covered(AnalysedIn(s, i), i.snapshots)
    requires AreViews(v, s, i)
    ensures currency in v.before ==>
      IsExact(v.before[currency], s.positions, i.snapshots, i.profiles, currency, i.topCount)
    ensures v.after.Some? && currency in v.after.value ==>
      IsExact(v.after.value[currency], AnalysedIn(s, i), i.snapshots, i.profiles, currency, i.topCount)
  {
    hide Covered;
    hide IsBookOf;
    hide TablesOf;
    hide AnalysedIn;
    hide IsExact;
    if currency in v.before {
      BookIsExact(v.before[currency], s.positions, i.snapshots, i.profiles, currency, i.topCount);
    }
    if v.after.Some? && currency in v.after.value {
      BookIsExact(v.after.value[currency], AnalysedIn(s, i), i.snapshots, i.profiles, currency, i.topCount);
    }
  }

  lemma BookIsExact(b: CurrencyBook, hs: seq<Holding>, snapshots: map<string, EtfSnapshot>,
                    profiles: map<string, Profile>, currency: string, count: nat)
    requires Covered(hs, snapshots) && IsBookOf(b, currency, TablesOf(hs, snapshots, currency), profiles, count)
    ensures IsExact(b, hs, snapshots, profiles, currency, count)
  {
    hide Covered;
    hide IsBookOf;
    hide TablesOf;
    hide RowsMatch;
    hide ViewsMatch;
    hide TopMatches;
    hide BoundsMatch;
    RowsAreExact(b, hs, snapshots, profiles, currency, count);
    ViewsAreExact(b, hs, snapshots, profiles, currency, count);
    TopIsExact(b, currency, TablesOf(hs, snapshots, currency), profiles, count);
    BoundsAreExact(b, currency, TablesOf(hs, snapshots, currency), profiles, count);
  }
}
