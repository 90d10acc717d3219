/** The exposure builder's input: lists of items that themselves hold unordered lists. */
module ExposureReplay {
  import opened LookThrough
  import opened Sequences
  import opened Sorting
  import opened Canonical
  import StateReplay

  datatype EvidenceItem = EvidenceItem(id: string, missingFields: seq<string>, conflicts: seq<string>, content: string)

  datatype Claim = Claim(id: string, evidenceIds: seq<string>, content: string)

  /** Constituents by company; `content` of each is its weight and label. */
  datatype Snapshot = Snapshot(etfId: string, constituents: seq<StateReplay.Item>, content: string)

  datatype Tag = Tag(content: string, claimIds: seq<string>)

  datatype Driver = Driver(id: string, claimIds: seq<string>, content: string)

  datatype Profile = Profile(
    companyId: string, sector: Option<Tag>, geography: Option<Tag>, drivers: seq<Driver>,
    missingDimensions: seq<string>, content: string)

  /** `rest` stands for boundary, method version, top-company count and hypothetical position. */
  datatype Input = Input(
    evidence: seq<EvidenceItem>, claims: seq<Claim>, snapshots: seq<Snapshot>, profiles: seq<Profile>,
    missing: seq<string>, conflicts: seq<string>, assumptions: seq<string>, rest: string)

  function InOrder(s: seq<string>): seq<string>
  {
    StateReplay.InOrder(s)
  }

  // ---------------------------------------------------------------- items

  function EvidenceId(): EvidenceItem -> string { (e: EvidenceItem) => e.id }

  function CanonEvidence(): EvidenceItem -> EvidenceItem
  {
    (e: EvidenceItem) => e.(missingFields := InOrder(e.missingFields), conflicts := InOrder(e.conflicts))
  }

  function ClaimId(): Claim -> string { (c: Claim) => c.id }

  function CanonClaim(): Claim -> Claim
  {
    (c: Claim) => c.(evidenceIds := InOrder(c.evidenceIds))
  }

  function EtfId(): Snapshot -> string { (s: Snapshot) => s.etfId }

  function CanonSnapshot(): Snapshot -> Snapshot
  {
    (s: Snapshot) => s.(constituents := StateReplay.ById(s.constituents))
  }

  function DriverId(): Driver -> string { (d: Driver) => d.id }

  function CanonDriver(): Driver -> Driver
  {
    (d: Driver) => d.(claimIds := InOrder(d.claimIds))
  }

  function CanonTag(t: Option<Tag>): Option<Tag>
  {
    if t.None? then None else Some(t.value.(claimIds := InOrder(t.value.claimIds)))
  }

  function CompanyId(): Profile -> string { (p: Profile) => p.companyId }

  function CanonProfile(): Profile -> Profile
  {
    (p: Profile) => p.(
      sector := CanonTag(p.sector), geography := CanonTag(p.geography),
      drivers := CanonList(p.drivers, CanonDriver(), By(DriverId())),
      missingDimensions := InOrder(p.missingDimensions))
  }

  function CanonicalInput(i: Input): Input
  {
    Input(
      CanonList(i.evidence, CanonEvidence(), By(EvidenceId())),
      CanonList(i.claims, CanonClaim(), By(ClaimId())),
      CanonList(i.snapshots, CanonSnapshot(), By(EtfId())),
      CanonList(i.profiles, CanonProfile(), By(CompanyId())),
      InOrder(i.missing), InOrder(i.conflicts), InOrder(i.assumptions), i.rest)
  }

  // ---------------------------------------------------------------- validity

  predicate ValidSnapshot(s: Snapshot)
  {
    StateReplay.ValidItems(s.constituents)
  }

  predicate ValidProfile(p: Profile)
  {
    IdsDistinct(p.drivers, DriverId())
  }

  /** The duplicate checks of the exposure input. */
  predicate ValidInput(i: Input)
  {
    && IdsDistinct(i.evidence, EvidenceId()) && IdsDistinct(i.claims, ClaimId())
    && IdsDistinct(i.snapshots, EtfId()) && IdsDistinct(i.profiles, CompanyId())
    && (forall s :: s in i.snapshots ==> ValidSnapshot(s))
    && (forall p :: p in i.profiles ==> ValidProfile(p))
  }

  lemma EvidenceStable(s: seq<EvidenceItem>)
    ensures Stable(s, CanonEvidence(), EvidenceId())
  {
    forall e | e in s
      ensures CanonEvidence()(CanonEvidence()(e)) == CanonEvidence()(e)
    {
      StateReplay.StringsCanonical(e.missingFields, e.missingFields);
      StateReplay.StringsCanonical(e.conflicts, e.conflicts);
    }
  }

  lemma ClaimsStable(s: seq<Claim>)
    ensures Stable(s, CanonClaim(), ClaimId())
  {
    forall c | c in s
      ensures CanonClaim()(CanonClaim()(c)) == CanonClaim()(c)
    {
      StateReplay.StringsCanonical(c.evidenceIds, c.evidenceIds);
    }
  }

  lemma DriversStable(s: seq<Driver>)
    ensures Stable(s, CanonDriver(), DriverId())
  {
    forall d | d in s
      ensures CanonDriver()(CanonDriver()(d)) == CanonDriver()(d)
    {
      StateReplay.StringsCanonical(d.claimIds, d.claimIds);
    }
  }

  lemma SnapshotFixed(s: Snapshot)
    requires ValidSnapshot(s)
    ensures CanonSnapshot()(CanonSnapshot()(s)) == CanonSnapshot()(s) && ValidSnapshot(CanonSnapshot()(s))
  {
    hide StateReplay.ById;
    hide StateReplay.ValidItems;
    StateReplay.ItemsCanonical(s.constituents, s.constituents);
  }

  lemma TagFixed(t: Option<Tag>)
    ensures CanonTag(CanonTag(t)) == CanonTag(t)
  {
    if t.Some? {
      StateReplay.StringsCanonical(t.value.claimIds, t.value.claimIds);
    }
  }

  lemma ProfileFixed(p: Profile)
    requires ValidProfile(p)
    ensures CanonProfile()(CanonProfile()(p)) == CanonProfile()(p) && ValidProfile(CanonProfile()(p))
  {
    hide CanonList;
    hide IdsDistinct;
    hide CanonTag;
    hide StateReplay.InOrder;
    TagFixed(p.sector);
    TagFixed(p.geography);
    DriversStable(p.drivers);
    ListIdempotent(p.drivers, CanonDriver(), DriverId());
    StateReplay.StringsCanonical(p.missingDimensions, p.missingDimensions);
  }

  // ---------------------------------------------------------------- the whole input

  /** The same input: unordered lists in any order, at every depth. */
  ghost predicate SameInput(a: Input, b: Input)
  {
    && Rearranged(a.evidence, b.evidence, CanonEvidence()) && Rearranged(a.claims, b.claims, CanonClaim())
    && Rearranged(a.snapshots, b.snapshots, CanonSnapshot()) && Rearranged(a.profiles, b.profiles, CanonProfile())
    && multiset(a.missing) == multiset(b.missing) && multiset(a.conflicts) == multiset(b.conflicts)
    && multiset(a.assumptions) == multiset(b.assumptions) && a.rest == b.rest
  }

  lemma SnapshotsCanonical(s: seq<Snapshot>)
    requires IdsDistinct(s, EtfId()) && forall x :: x in s ==> ValidSnapshot(x)
    ensures var r := CanonList(s, CanonSnapshot(), By(EtfId()));
      && CanonList(r, CanonSnapshot(), By(EtfId())) == r && IdsDistinct(r, EtfId())
      && (forall x :: x in r ==> ValidSnapshot(x))
    ensures Stable(s, CanonSnapshot(), EtfId())
  {
    hide IdsDistinct;
    hide ValidSnapshot;
    hide Gather;
    hide SortBy;
    forall x | x in s
      ensures CanonSnapshot()(CanonSnapshot()(x)) == CanonSnapshot()(x) && ValidSnapshot(CanonSnapshot()(x))
    {
      SnapshotFixed(x);
    }
    ListIdempotent(s, CanonSnapshot(), EtfId());
    var g := Each(s, CanonSnapshot());
    SortKeeps(g, By(EtfId()));
    SameItems(g, SortBy(g, By(EtfId())));
    forall y | y in g
      ensures ValidSnapshot(y)
    {
      InEach(s, CanonSnapshot(), y);
    }
  }

  lemma ProfilesCanonical(s: seq<Profile>)
    requires IdsDistinct(s, CompanyId()) && forall x :: x in s ==> ValidProfile(x)
    ensures var r := CanonList(s, CanonProfile(), By(CompanyId()));
      && CanonList(r, CanonProfile(), By(CompanyId())) == r && IdsDistinct(r, CompanyId())
      && (forall x :: x in r ==> ValidProfile(x))
    ensures Stable(s, CanonProfile(), CompanyId())
  {
    hide IdsDistinct;
    hide ValidProfile;
    hide Gather;
    hide SortBy;
    forall x | x in s
      ensures CanonProfile()(CanonProfile()(x)) == CanonProfile()(x) && ValidProfile(CanonProfile()(x))
    {
      ProfileFixed(x);
    }
    ListIdempotent(s, CanonProfile(), CompanyId());
    var g := Each(s, CanonProfile());
    SortKeeps(g, By(CompanyId()));
    SameItems(g, SortBy(g, By(CompanyId())));
    forall y | y in g
      ensures ValidProfile(y)
    {
      InEach(s, CanonProfile(), y);
    }
  }

  lemma InputIdempotent(a: Input)
    requires ValidInput(a)
    ensures CanonicalInput(CanonicalInput(a)) == CanonicalInput(a) && ValidInput(CanonicalInput(a))
  {
    hide CanonList;
    hide IdsDistinct;
    hide ValidSnapshot;
    hide ValidProfile;
    hide StateReplay.InOrder;
    EvidenceStable(a.evidence);
    ListIdempotent(a.evidence, CanonEvidence(), EvidenceId());
    ClaimsStable(a.claims);
    ListIdempotent(a.claims, CanonClaim(), ClaimId());
    SnapshotsCanonical(a.snapshots);
    ProfilesCanonical(a.profiles);
    StateReplay.StringsCanonical(a.missing, a.missing);
    StateReplay.StringsCanonical(a.conflicts, a.conflicts);
    StateReplay.StringsCanonical(a.assumptions, a.assumptions);
  }

  lemma InputUnordered(a: Input, b: Input)
    requires ValidInput(a)
    ensures CanonicalInput(a) == CanonicalInput(b) <==> SameInput(a, b)
  {
    hide CanonList;
    hide IdsDistinct;
    hide ValidSnapshot;
    hide ValidProfile;
    hide Rearranged;
    hide StateReplay.InOrder;
    EvidenceStable(a.evidence);
    SameListIff(a.evidence, b.evidence, CanonEvidence(), EvidenceId());
    ClaimsStable(a.claims);
    SameListIff(a.claims, b.claims, CanonClaim(), ClaimId());
    SnapshotsCanonical(a.snapshots);
    SameListIff(a.snapshots, b.snapshots, CanonSnapshot(), EtfId());
    ProfilesCanonical(a.profiles);
    SameListIff(a.profiles, b.profiles, CanonProfile(), CompanyId());
    StateReplay.StringsCanonical(a.missing, b.missing);
    StateReplay.StringsCanonical(a.conflicts, b.conflicts);
    StateReplay.StringsCanonical(a.assumptions, b.assumptions);
  }

  /** What makes two items the same inside: exactly their unordered lists up to order. */
  lemma SameClaimIff(x: Claim, y: Claim)
    ensures CanonClaim()(x) == CanonClaim()(y) <==>
      x == y.(evidenceIds := x.evidenceIds) && multiset(x.evidenceIds) == multiset(y.evidenceIds)
  {
    StateReplay.StringsCanonical(x.evidenceIds, y.evidenceIds);
  }

  lemma SameSnapshotIff(x: Snapshot, y: Snapshot)
    requires ValidSnapshot(x)
    ensures CanonSnapshot()(x) == CanonSnapshot()(y) <==>
      x == y.(constituents := x.constituents) && multiset(x.constituents) == multiset(y.constituents)
  {
    hide StateReplay.ById;
    StateReplay.ItemsCanonical(x.constituents, y.constituents);
  }

  lemma SameEvidenceIff(x: EvidenceItem, y: EvidenceItem)
    ensures CanonEvidence()(x) == CanonEvidence()(y) <==>
      && x == y.(missingFields := x.missingFields, conflicts := x.conflicts)
      && multiset(x.missingFields) == multiset(y.missingFields) && multiset(x.conflicts) == multiset(y.conflicts)
  {
    StateReplay.StringsCanonical(x.missingFields, y.missingFields);
    StateReplay.StringsCanonical(x.conflicts, y.conflicts);
    hide StateReplay.InOrder;
  }

  ghost predicate SameTag(x: Option<Tag>, y: Option<Tag>)
  {
    (x.None? && y.None?) || (x.Some? && y.Some? && x.value.content == y.value.content &&
      multiset(x.value.claimIds) == multiset(y.value.claimIds))
  }

  lemma SameTagIff(x: Option<Tag>, y: Option<Tag>)
    ensures CanonTag(x) == CanonTag(y) <==> SameTag(x, y)
  {
    if x.Some? && y.Some? {
      StateReplay.StringsCanonical(x.value.claimIds, y.value.claimIds);
    }
  }

  lemma SameProfileIff(x: Profile, y: Profile)
    requires ValidProfile(x)
    ensures CanonProfile()(x) == CanonProfile()(y) <==>
      && x.companyId == y.companyId && x.content == y.content
      && SameTag(x.sector, y.sector) && SameTag(x.geography, y.geography)
      && Rearranged(x.drivers, y.drivers, CanonDriver())
      && multiset(x.missingDimensions) == multiset(y.missingDimensions)
  {
    hide CanonTag;
    hide SameTag;
    hide CanonList;
    hide Rearranged;
    hide IdsDistinct;
    hide StateReplay.InOrder;
    SameTagIff(x.sector, y.sector);
    SameTagIff(x.geography, y.geography);
    DriversStable(x.drivers);
    SameListIff(x.drivers, y.drivers, CanonDriver(), DriverId());
    StateReplay.StringsCanonical(x.missingDimensions, y.missingDimensions);
  }

  /** How the exposure state is derived from a canonical input; None is any error of the engine. */
  function ExposureBuilder<S>(derive: Input -> Option<S>, fingerprint: Input -> string,
                              exposureId: string -> string): Builder<Input, S>
  {
    Builder((i: Input) => CanonicalInput(i), derive, fingerprint, exposureId)
  }

  /**
   Whatever the engine derives and however it is hashed: rearranging the input at any depth leaves the exposure
   unchanged, and `verify` returns on exactly the exposures that some input executes to.
   */
  lemma Replay<S>(derive: Input -> Option<S>, fingerprint: Input -> string, exposureId: string -> string, a: Input,
                  b: Input, r: Record<Input, S>)
    requires ValidInput(a)
    ensures var builder := ExposureBuilder(derive, fingerprint, exposureId);
      && (SameInput(a, b) ==> Execute(builder, a) == Execute(builder, b))
      && (Execute(builder, a).Some? && Execute(builder, a) == Execute(builder, b) ==> SameInput(a, b))
      && (ValidInput(r.input) && Verify(builder, r) <==> exists i :: ValidInput(i) && Execute(builder, i) == Some(r))
  {
    hide CanonicalInput;
    hide ValidInput;
    hide SameInput;
    var builder := ExposureBuilder(derive, fingerprint, exposureId);
    InputUnordered(a, b);
    var valid := (i: Input) => ValidInput(i);
    forall i | valid(i)
      ensures valid(builder.canonical(i)) && builder.canonical(builder.canonical(i)) == builder.canonical(i)
    {
      InputIdempotent(i);
    }
    VerifyAcceptsExactlyBuilt(builder, valid, r);
    assert forall i :: valid(i) == ValidInput(i);
  }
}
