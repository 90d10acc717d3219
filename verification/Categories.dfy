/**
 Sector, geography and driver views of one currency: company totals grouped by tag, with an
 explicit bucket for what is unknown. Sector and geography give every company exactly one tag and
 are additive; drivers may overlap and are not.
 */
module Categories {
  import opened Sums
  import opened LookThrough

  const SECTOR_UNKNOWN := "sector:unknown"
  const GEOGRAPHY_UNKNOWN := "geography:unknown"
  const DRIVER_UNKNOWN := "driver:unknown"

  datatype Profile = Profile(sectorId: Option<string>, countryCode: Option<string>, driverIds: seq<string>)

  const ALL_MISSING := Profile(None, None, [])

  predicate ValidProfile(p: Profile)
  {
    && p.sectorId != Some(SECTOR_UNKNOWN)
    && DRIVER_UNKNOWN !in p.driverIds
    && (forall i, j :: 0 <= i < j < |p.driverIds| ==> p.driverIds[i] != p.driverIds[j])
  }

  function Lower(code: string): string
  {
    seq(|code|, i requires 0 <= i < |code| => if 'A' <= code[i] <= 'Z' then (code[i] as int + 32) as char else code[i])
  }

  function SectorTag(p: Profile): string
  {
    if p.sectorId.Some? then p.sectorId.value else SECTOR_UNKNOWN
  }

  function GeographyTag(p: Profile): string
  {
    if p.countryCode.Some? then "geography:" + Lower(p.countryCode.value) else GEOGRAPHY_UNKNOWN
  }

  function DriverTags(p: Profile): set<string>
  {
    if p.driverIds == [] then {DRIVER_UNKNOWN} else set d | d in p.driverIds
  }

  datatype Dimension = Sector | Geography

  function Tag(d: Dimension, p: Profile): string
  {
    match d
    case Sector => SectorTag(p)
    case Geography => GeographyTag(p)
  }

  function UnknownTag(d: Dimension): string
  {
    match d
    case Sector => SECTOR_UNKNOWN
    case Geography => GEOGRAPHY_UNKNOWN
  }

  // ---------------------------------------------------------------- reference meaning

  type Tags = map<string, set<string>>

  ghost function SingleTags(d: Dimension, profiles: map<string, Profile>): Tags
  {
    map id | id in profiles :: {Tag(d, profiles[id])}
  }

  ghost function OverlappingTags(profiles: map<string, Profile>): Tags
  {
    map id | id in profiles :: DriverTags(profiles[id])
  }

  ghost function TagMembers(totals: map<string, real>, tags: Tags, t: string): set<string>
  {
    set id | id in totals && id in tags && t in tags[id]
  }

  ghost function Tagged(totals: map<string, real>, tags: Tags, t: string): map<string, real>
  {
    map id | id in TagMembers(totals, tags, t) :: totals[id]
  }

  ghost function TagIds(totals: map<string, real>, tags: Tags): set<string>
  {
    set id, t | id in totals && id in tags && t in tags[id] :: t
  }

  /** Each tag carries the whole total of every company that has it. */
  ghost function Tally(totals: map<string, real>, tags: Tags): map<string, real>
  {
    map t | t in TagIds(totals, tags) :: Total(Tagged(totals, tags, t))
  }

  /** The unresolved rest joins the unknown bucket, and only when it is positive. */
  ghost function WithUnknown(tally: map<string, real>, unknown: string, unresolved: real): map<string, real>
  {
    if unresolved > 0.0 then Bump(tally, unknown, unresolved) else tally
  }

  // ---------------------------------------------------------------- one company more

  lemma TallyAt(totals: map<string, real>, tags: Tags, t: string)
    ensures Get(Tally(totals, tags), t) == Total(Tagged(totals, tags, t))
  {
    if t !in TagIds(totals, tags) {
      assert Tagged(totals, tags, t) == map[];
    }
  }

  lemma TagIdsBump(totals: map<string, real>, tags: Tags, id: string, amount: real)
    requires id in tags
    ensures TagIds(Bump(totals, id, amount), tags) == TagIds(totals, tags) + tags[id]
  {
    var after := Bump(totals, id, amount);
    assert after.Keys == totals.Keys + {id};
    forall t | t in tags[id]
      ensures t in TagIds(after, tags)
    {
      assert id in after;
    }
    forall t | t in TagIds(totals, tags)
      ensures t in TagIds(after, tags)
    {
      var j :| j in totals && j in tags && t in tags[j];
      assert j in after;
    }
  }

  lemma TaggedBump(totals: map<string, real>, tags: Tags, id: string, amount: real, t: string)
    requires id in tags
    ensures Tagged(Bump(totals, id, amount), tags, t)
         == if t in tags[id] then Bump(Tagged(totals, tags, t), id, amount) else Tagged(totals, tags, t)
  {
    var after := Bump(totals, id, amount);
    var left := Tagged(after, tags, t);
    var right := if t in tags[id] then Bump(Tagged(totals, tags, t), id, amount) else Tagged(totals, tags, t);
    assert left.Keys == right.Keys;
  }

  /** Adding an amount to one company adds it to exactly that company's tags. */
  lemma TallyBump(totals: map<string, real>, tags: Tags, id: string, amount: real, t: string)
    requires id in tags
    ensures Get(Tally(Bump(totals, id, amount), tags), t)
         == Get(Tally(totals, tags), t) + if t in tags[id] then amount else 0.0
  {
    TallyAt(totals, tags, t);
    TallyAt(Bump(totals, id, amount), tags, t);
    TaggedBump(totals, tags, id, amount, t);
    hide Tally;
    hide Tagged;
    TotalBump(Tagged(totals, tags, t), id, amount);
  }

  /** With one tag per company, tagging conserves value. */
  lemma {:induction false} TallyTotal(totals: map<string, real>, tags: Tags, tag: map<string, string>)
    requires totals.Keys <= tags.Keys && totals.Keys <= tag.Keys
    requires forall id :: id in totals ==> tags[id] == {tag[id]}
    ensures Total(Tally(totals, tags)) == Total(totals)
    decreases |totals|
  {
    if totals == map[] {
      assert Tally(totals, tags) == map[];
    } else {
      var id :| id in totals;
      var rest := totals - {id};
      assert rest.Keys == totals.Keys - {id};
      assert totals == Bump(rest, id, totals[id]);
      TallyTotal(rest, tags, tag);
      TallyBumpSingle(rest, tags, id, totals[id], tag[id]);
      TotalBump(Tally(rest, tags), tag[id], totals[id]);
      TotalBump(rest, id, totals[id]);
    }
  }

  lemma TallyBumpSingle(totals: map<string, real>, tags: Tags, id: string, amount: real, tag: string)
    requires id in tags && tags[id] == {tag}
    ensures Tally(Bump(totals, id, amount), tags) == Bump(Tally(totals, tags), tag, amount)
  {
    var left, right := Tally(Bump(totals, id, amount), tags), Bump(Tally(totals, tags), tag, amount);
    TagIdsBump(totals, tags, id, amount);
    forall t | t in left
      ensures left[t] == right[t]
    {
      TallyBump(totals, tags, id, amount, t);
    }
  }

  lemma CategoryTotal(d: Dimension, totals: map<string, real>, profiles: map<string, Profile>, unresolved: real)
    requires totals.Keys <= profiles.Keys && unresolved >= 0.0
    ensures Total(WithUnknown(Tally(totals, SingleTags(d, profiles)), UnknownTag(d), unresolved))
      == Total(totals) + unresolved
  {
    var tag := map id | id in profiles :: Tag(d, profiles[id]);
    TallyTotal(totals, SingleTags(d, profiles), tag);
    TotalBump(Tally(totals, SingleTags(d, profiles)), UnknownTag(d), unresolved);
  }

  lemma {:induction false} TallyNonNegative(totals: map<string, real>, tags: Tags)
    requires NonNegative(totals)
    ensures NonNegative(Tally(totals, tags))
    ensures forall t :: t in Tally(totals, tags) ==> Tally(totals, tags)[t] <= Total(totals)
  {
    forall t | t in TagIds(totals, tags)
      ensures 0.0 <= Total(Tagged(totals, tags, t)) <= Total(totals)
    {
      TotalNonNegative(Tagged(totals, tags, t));
      PartOfTotal(Tagged(totals, tags, t), totals);
    }
  }

  lemma {:induction false} PartOfTotal(part: map<string, real>, whole: map<string, real>)
    requires NonNegative(whole)
    requires part.Keys <= whole.Keys && forall id :: id in part ==> part[id] == whole[id]
    ensures Total(part) <= Total(whole)
    decreases |part|
  {
    if part == map[] {
      TotalNonNegative(whole);
    } else {
      var id :| id in part;
      TotalRemove(part, id);
      TotalRemove(whole, id);
      assert (part - {id}).Keys == part.Keys - {id};
      assert (whole - {id}).Keys == whole.Keys - {id};
      PartOfTotal(part - {id}, whole - {id});
    }
  }
}
