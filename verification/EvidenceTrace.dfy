/**
 The dossier view's evidence trace: from an item through the facts it rests on, which may refer to each
 other in cycles, to their claims and the evidence of those claims.
 */
module EvidenceTrace {
  import opened LookThrough
  import opened Sequences

  datatype Fact = Fact(id: string, claimIds: seq<string>, inputIds: seq<string>)

  datatype Claim = Claim(id: string, evidenceIds: seq<string>)

  datatype Evidence = Evidence(id: string)

  datatype Dossier = Dossier(claims: seq<Claim>, evidence: seq<Evidence>, financialFacts: seq<Fact>,
                             derivedFacts: seq<Fact>)

  datatype Item = Item(claimIds: seq<string>, assumptionClaimIds: seq<string>,
                       inputFactIds: seq<string>, supportingFactIds: seq<string>, factIds: seq<string>)

  datatype Trace = Trace(claims: seq<Claim>, evidence: seq<Evidence>)

  function Facts(d: Dossier): seq<Fact>
  {
    d.financialFacts + d.derivedFacts
  }

  function Seeds(item: Item): seq<string>
  {
    item.inputFactIds + item.supportingFactIds + item.factIds
  }

  function OwnClaims(item: Item): set<string>
  {
    set c | c in item.claimIds + item.assumptionClaimIds
  }

  /** The first fact with the id: a later one with the same id is never consulted. */
  function Find(facts: seq<Fact>, id: string): (r: Option<Fact>)
    ensures r.None? ==> forall f :: f in facts ==> f.id != id
    ensures r.Some? ==> exists k ::
      0 <= k < |facts| && facts[k] == r.value && facts[k].id == id && forall j :: 0 <= j < k ==> facts[j].id != id
  {
    if facts == [] then None
    else if facts[0].id == id then Some(facts[0])
    else
      var r := Find(facts[1..], id);
      assert r.Some? ==> forall k :: 0 <= k < |facts[1..]| ==> facts[1..][k] == facts[k + 1];
      r
  }

  // ---------------------------------------------------------------- reachability

  predicate Feeds(facts: seq<Fact>, from: string, to: string)
  {
    Find(facts, from).Some? && to in Find(facts, from).value.inputIds
  }

  ghost predicate IsPath(facts: seq<Fact>, seeds: seq<string>, path: seq<string>)
  {
    && path != [] && path[0] in seeds
    && (forall k :: 0 <= k < |path| - 1 ==> Feeds(facts, path[k], path[k + 1]))
  }

  ghost predicate Reaches(facts: seq<Fact>, seeds: seq<string>, id: string)
  {
    exists path :: IsPath(facts, seeds, path) && path[|path| - 1] == id
  }

  lemma SeedIsReached(facts: seq<Fact>, seeds: seq<string>, id: string)
    requires id in seeds
    ensures Reaches(facts, seeds, id)
  {
    assert IsPath(facts, seeds, [id]);
  }

  lemma InputIsReached(facts: seq<Fact>, seeds: seq<string>, from: string, to: string)
    requires Reaches(facts, seeds, from) && Feeds(facts, from, to)
    ensures Reaches(facts, seeds, to)
  {
    var path :| IsPath(facts, seeds, path) && path[|path| - 1] == from;
    assert IsPath(facts, seeds, path + [to]);
  }

  /** A set that holds the seeds and is closed under inputs holds everything reachable. */
  lemma {:induction false} ClosedHoldsPath(facts: seq<Fact>, seeds: seq<string>, closed: set<string>, path: seq<string>)
    requires forall id :: id in seeds ==> id in closed
    requires forall a, b :: a in closed && Feeds(facts, a, b) ==> b in closed
    requires IsPath(facts, seeds, path)
    ensures path[|path| - 1] in closed
    decreases |path|
  {
    if |path| > 1 {
      var n := |path| - 1;
      ClosedHoldsPath(facts, seeds, closed, path[..n]);
      assert Feeds(facts, path[n - 1], path[n]);
    }
  }

  /** A claim belongs to the trace when the item cites it or some reachable fact does. */
  ghost predicate Traced(d: Dossier, item: Item, claimId: string)
  {
    || claimId in OwnClaims(item)
    || exists f :: Reaches(Facts(d), Seeds(item), f) && Cites(Facts(d), f, claimId)
  }

  predicate Cites(facts: seq<Fact>, factId: string, claimId: string)
  {
    Find(facts, factId).Some? && claimId in Find(facts, factId).value.claimIds
  }

  ghost function TracedClaim(d: Dossier, item: Item): Claim -> bool
  {
    (c: Claim) => Traced(d, item, c.id)
  }

  function EvidenceOf(claims: seq<Claim>): Evidence -> bool
  {
    (e: Evidence) => exists c :: c in claims && e.id in c.evidenceIds
  }

  // ---------------------------------------------------------------- the worklist

  /** Everything the loop can ever push: the seeds and every input of every fact. */
  ghost function Universe(facts: seq<Fact>, seeds: seq<string>): set<string>
  {
    (set id | id in seeds) + (set f, id | f in facts && id in f.inputIds :: id)
  }

  ghost predicate Open(facts: seq<Fact>, seeds: seq<string>, pending: seq<string>, visited: set<string>)
  {
    && (forall id :: id in pending || id in visited ==> Reaches(facts, seeds, id) && id in Universe(facts, seeds))
    && (forall id :: id in seeds ==> id in pending || id in visited)
    && (forall a, b :: a in visited && Feeds(facts, a, b) ==> b in pending || b in visited)
  }

  lemma OpenInitially(facts: seq<Fact>, seeds: seq<string>)
    ensures Open(facts, seeds, seeds, {})
  {
    forall id | id in seeds
      ensures Reaches(facts, seeds, id)
    {
      SeedIsReached(facts, seeds, id);
    }
  }

  lemma DropVisited(facts: seq<Fact>, seeds: seq<string>, pending: seq<string>, next: string, visited: set<string>)
    requires Open(facts, seeds, pending + [next], visited) && next in visited
    ensures Open(facts, seeds, pending, visited)
  {
    hide Reaches;
    hide Feeds;
    hide Universe;
    assert forall id :: id in pending ==> id in pending + [next];
  }

  lemma Visit(facts: seq<Fact>, seeds: seq<string>, pending: seq<string>, next: string, visited: set<string>)
    requires Open(facts, seeds, pending + [next], visited)
    ensures next in Universe(facts, seeds)
    ensures var inputs := if Find(facts, next).Some? then Find(facts, next).value.inputIds else [];
      Open(facts, seeds, pending + inputs, visited + {next})
  {
    hide Reaches;
    hide Find;
    var inputs := if Find(facts, next).Some? then Find(facts, next).value.inputIds else [];
    assert next in pending + [next];
    assert forall id :: id in pending ==> id in pending + [next];
    forall id | id in inputs
      ensures Reaches(facts, seeds, id) && id in Universe(facts, seeds)
    {
      assert Feeds(facts, next, id);
      InputIsReached(facts, seeds, next, id);
    }
  }

  lemma DoneIsReachable(facts: seq<Fact>, seeds: seq<string>, visited: set<string>)
    requires Open(facts, seeds, [], visited)
    ensures forall id :: id in visited <==> Reaches(facts, seeds, id)
  {
    hide Feeds;
    hide Universe;
    forall id | Reaches(facts, seeds, id)
      ensures id in visited
    {
      var path :| IsPath(facts, seeds, path) && path[|path| - 1] == id;
      ClosedHoldsPath(facts, seeds, visited, path);
    }
  }

  /**
   Terminates on every fact graph, cycles included, and collects exactly the claims of the item and
   of the facts it reaches.
   */
  method CollectClaims(facts: seq<Fact>, seeds: seq<string>, own: set<string>) returns (claimIds: set<string>)
    ensures forall c :: c in claimIds <==> c in own || exists f :: Reaches(facts, seeds, f) && Cites(facts, f, c)
  {
    hide Open;
    hide Reaches;
    hide Find;
    claimIds := own;
    var pending := seeds;
    var visited: set<string> := {};
    OpenInitially(facts, seeds);
    while pending != []
      invariant Open(facts, seeds, pending, visited)
      invariant visited <= Universe(facts, seeds)
      invariant forall c :: c in claimIds <==> c in own || exists f :: f in visited && Cites(facts, f, c)
      decreases Universe(facts, seeds) - visited, |pending|
    {
      var next := pending[|pending| - 1];
      ghost var rest := pending[..|pending| - 1];
      assert pending == rest + [next];
      pending := pending[..|pending| - 1];
      if next in visited {
        DropVisited(facts, seeds, pending, next, visited);
        continue;
      }
      Visit(facts, seeds, pending, next, visited);
      visited := visited + {next};
      var fact := Find(facts, next);
      if fact.None? {
        assert pending + [] == pending;
        continue;
      }
      claimIds := claimIds + (set c | c in fact.value.claimIds);
      pending := pending + fact.value.inputIds;
    }
    DoneIsReachable(facts, seeds, visited);
  }

  /** Without an item the whole dossier is shown. */
  method EvidenceFor(d: Dossier, item: Option<Item>) returns (t: Trace)
    ensures item.None? ==> t == Trace(d.claims, d.evidence)
    ensures item.Some? ==> t.claims == Keep(d.claims, TracedClaim(d, item.value))
    ensures item.Some? ==> t.evidence == Keep(d.evidence, EvidenceOf(t.claims))
  {
    if item.None? {
      return Trace(d.claims, d.evidence);
    }
    hide Reaches;
    hide Cites;
    hide Keep;
    var claimIds := CollectClaims(Facts(d), Seeds(item.value), OwnClaims(item.value));
    var claims := Keep(d.claims, (c: Claim) => c.id in claimIds);
    KeepAgree(d.claims, (c: Claim) => c.id in claimIds, TracedClaim(d, item.value));
    var evidenceIds := set c, e | c in claims && e in c.evidenceIds :: e;
    var evidence := Keep(d.evidence, (e: Evidence) => e.id in evidenceIds);
    KeepAgree(d.evidence, (e: Evidence) => e.id in evidenceIds, EvidenceOf(claims));
    t := Trace(claims, evidence);
  }
}
