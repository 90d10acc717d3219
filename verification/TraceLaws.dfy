/** What the trace shows, as chains of facts: no search, list concatenation or worklist is needed to read it. */
module TraceLaws {
  import opened LookThrough
  import opened Sequences
  import opened EvidenceTrace

  /** The fact an id names: the first financial fact with it, and only failing that the first derived one. */
  ghost predicate Names(d: Dossier, f: Fact)
  {
    || IsFirstOf(d.financialFacts, f)
    || (IsFirstOf(d.derivedFacts, f) && forall g :: g in d.financialFacts ==> g.id != f.id)
  }

  ghost predicate IsFirstOf(facts: seq<Fact>, f: Fact)
  {
    exists k :: 0 <= k < |facts| && facts[k] == f && forall j :: 0 <= j < k ==> facts[j].id != f.id
  }

  /** The facts an item starts from. */
  ghost predicate Starts(item: Item, id: string)
  {
    id in item.inputFactIds || id in item.supportingFactIds || id in item.factIds
  }

  /** A chain of facts, each an input of the one before, from a fact the item starts from. */
  ghost predicate IsChain(d: Dossier, item: Item, chain: seq<Fact>)
  {
    && chain != [] && Starts(item, chain[0].id)
    && (forall k :: 0 <= k < |chain| ==> Names(d, chain[k]))
    && (forall k :: 0 <= k < |chain| - 1 ==> chain[k + 1].id in chain[k].inputIds)
  }

  /** A claim is traced when the item makes it itself or some chain ends at a fact that rests on it. */
  ghost predicate IsTraced(d: Dossier, item: Item, claimId: string)
  {
    || claimId in item.claimIds || claimId in item.assumptionClaimIds
    || exists chain: seq<Fact> :: IsChain(d, item, chain) && claimId in chain[|chain| - 1].claimIds
  }

  lemma FirstIs(facts: seq<Fact>, f: Fact)
    ensures IsFirstOf(facts, f) <==> Find(facts, f.id) == Some(f)
  {
    var r := Find(facts, f.id);
    if IsFirstOf(facts, f) {
      var k :| 0 <= k < |facts| && facts[k] == f && forall j :: 0 <= j < k ==> facts[j].id != f.id;
      assert facts[k] in facts;
    }
    hide Find;
  }

  lemma NamedIs(d: Dossier, f: Fact)
    ensures Names(d, f) <==> Find(Facts(d), f.id) == Some(f)
  {
    FirstIs(d.financialFacts, f);
    FirstIs(d.derivedFacts, f);
    FindInBoth(d.financialFacts, d.derivedFacts, f.id);
    hide IsFirstOf;
    hide Find;
    if Find(d.financialFacts, f.id).None? {
      assert forall g :: g in d.financialFacts ==> g.id != f.id;
    }
  }

  lemma {:induction false} FindInBoth(a: seq<Fact>, b: seq<Fact>, id: string)
    ensures Find(a + b, id) == if Find(a, id).Some? then Find(a, id) else Find(b, id)
  {
    if a == [] {
      assert a + b == b;
    } else {
      assert (a + b)[1..] == a[1..] + b;
      FindInBoth(a[1..], b, id);
    }
  }

  lemma FoundIsItself(facts: seq<Fact>, id: string)
    requires Find(facts, id).Some?
    ensures Find(facts, id).value.id == id
  {
  }

  /** The facts of a path of ids that ends at a fact. */
  lemma PathIsChain(d: Dossier, item: Item, path: seq<string>) returns (chain: seq<Fact>)
    requires IsPath(Facts(d), Seeds(item), path) && Find(Facts(d), path[|path| - 1]).Some?
    ensures IsChain(d, item, chain) && Find(Facts(d), path[|path| - 1]) == Some(chain[|chain| - 1])
  {
    hide Names;
    hide Find;
    var facts := Facts(d);
    forall k | 0 <= k < |path|
      ensures Find(facts, path[k]).Some?
    {
      assert k < |path| - 1 ==> Feeds(facts, path[k], path[k + 1]);
    }
    chain := seq(|path|, k requires 0 <= k < |path| => Find(facts, path[k]).value);
    forall k | 0 <= k < |path|
      ensures chain[k].id == path[k] && Names(d, chain[k])
    {
      FoundIsItself(facts, path[k]);
      NamedIs(d, chain[k]);
    }
    forall k | 0 <= k < |chain| - 1
      ensures chain[k + 1].id in chain[k].inputIds
    {
      assert Feeds(facts, path[k], path[k + 1]);
    }
  }

  lemma ChainIsPath(d: Dossier, item: Item, chain: seq<Fact>)
    requires IsChain(d, item, chain)
    ensures Reaches(Facts(d), Seeds(item), chain[|chain| - 1].id)
    ensures Find(Facts(d), chain[|chain| - 1].id) == Some(chain[|chain| - 1])
  {
    hide Names;
    hide Find;
    var facts := Facts(d);
    var path := seq(|chain|, k requires 0 <= k < |chain| => chain[k].id);
    forall k | 0 <= k < |chain|
      ensures Find(facts, chain[k].id) == Some(chain[k])
    {
      NamedIs(d, chain[k]);
    }
    forall k | 0 <= k < |path| - 1
      ensures Feeds(facts, path[k], path[k + 1])
    {
    }
    assert IsPath(facts, Seeds(item), path);
  }

  lemma TracedIff(d: Dossier, item: Item, claimId: string)
    ensures Traced(d, item, claimId) <==> IsTraced(d, item, claimId)
  {
    hide Find;
    hide Names;
    if id :| Reaches(Facts(d), Seeds(item), id) && Cites(Facts(d), id, claimId) {
      var path :| IsPath(Facts(d), Seeds(item), path) && path[|path| - 1] == id;
      var chain := PathIsChain(d, item, path);
      assert IsChain(d, item, chain) && claimId in chain[|chain| - 1].claimIds;
    }
    hide Facts;
    hide Seeds;
    hide Reaches;
    if chain: seq<Fact> :| IsChain(d, item, chain) && claimId in chain[|chain| - 1].claimIds {
      ChainIsPath(d, item, chain);
      assert Cites(Facts(d), chain[|chain| - 1].id, claimId);
    }
  }

  /** Exactly the traced claims are shown, and exactly the evidence that one of them names. */
  lemma ShownIff(d: Dossier, item: Item, t: Trace, c: Claim, e: Evidence)
    requires t.claims == Keep(d.claims, TracedClaim(d, item)) && t.evidence == Keep(d.evidence, EvidenceOf(t.claims))
    ensures c in t.claims <==> c in d.claims && IsTraced(d, item, c.id)
    ensures e in t.evidence <==> e in d.evidence && exists q :: q in t.claims && e.id in q.evidenceIds
  {
    TracedIff(d, item, c.id);
    KeepIsFilter(d.claims, TracedClaim(d, item));
    KeepIsFilter(d.evidence, EvidenceOf(t.claims));
    hide Traced;
    hide IsTraced;
    hide Keep;
  }
}
