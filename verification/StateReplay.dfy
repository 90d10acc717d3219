/** The portfolio state builder: sorting the semantically unordered parts of a draft before addressing it. */
module StateReplay {
  import opened LookThrough
  import opened Sorting
  import opened Canonical

  /** A record, account, instrument, price, position or cash balance: its own id, and everything else. */
  datatype Item = Item(id: string, content: string)

  /** `rest` stands for the boundary, the portfolio's identity and the remaining eligibility policy. */
  datatype Draft = Draft(
    records: seq<Item>, accounts: seq<Item>, instruments: seq<Item>, prices: seq<Item>, positions: seq<Item>,
    cash: seq<Item>,
    eligibleEtfs: seq<string>, missing: seq<string>, conflicts: seq<string>, assumptions: seq<string>, rest: string)

  function ItemId(): Item -> string
  {
    (i: Item) => i.id
  }

  function Unchanged(): Item -> Item
  {
    (i: Item) => i
  }

  function ById(s: seq<Item>): seq<Item>
  {
    CanonList(s, Unchanged(), By(ItemId()))
  }

  function InOrder(s: seq<string>): seq<string>
  {
    SortBy(s, StringLeq)
  }

  function CanonicalDraft(d: Draft): Draft
  {
    Draft(ById(d.records), ById(d.accounts), ById(d.instruments), ById(d.prices), ById(d.positions), ById(d.cash),
          InOrder(d.eligibleEtfs), InOrder(d.missing), InOrder(d.conflicts), InOrder(d.assumptions), d.rest)
  }

  predicate ValidItems(s: seq<Item>)
  {
    IdsDistinct(s, ItemId())
  }

  /** The duplicate checks of the draft. */
  predicate ValidDraft(d: Draft)
  {
    && ValidItems(d.records) && ValidItems(d.accounts) && ValidItems(d.instruments)
    && ValidItems(d.prices) && ValidItems(d.positions) && ValidItems(d.cash)
  }

  /** The same draft, its unordered parts listed in any order. */
  ghost predicate SameDraft(a: Draft, b: Draft)
  {
    && multiset(a.records) == multiset(b.records) && multiset(a.accounts) == multiset(b.accounts)
    && multiset(a.instruments) == multiset(b.instruments) && multiset(a.prices) == multiset(b.prices)
    && multiset(a.positions) == multiset(b.positions) && multiset(a.cash) == multiset(b.cash)
    && multiset(a.eligibleEtfs) == multiset(b.eligibleEtfs) && multiset(a.missing) == multiset(b.missing)
    && multiset(a.conflicts) == multiset(b.conflicts) && multiset(a.assumptions) == multiset(b.assumptions)
    && a.rest == b.rest
  }

  lemma ItemsCanonical(a: seq<Item>, b: seq<Item>)
    requires ValidItems(a)
    ensures ById(ById(a)) == ById(a) && ValidItems(ById(a))
    ensures ById(a) == ById(b) <==> multiset(a) == multiset(b)
  {
    hide IdsDistinct;
    hide CanonList;
    ListIdempotent(a, Unchanged(), ItemId());
    ListForgetsOrder(a, b, Unchanged(), ItemId());
    EachFixed(a, Unchanged());
    EachFixed(b, Unchanged());
  }

  lemma StringsCanonical(a: seq<string>, b: seq<string>)
    ensures InOrder(InOrder(a)) == InOrder(a)
    ensures InOrder(a) == InOrder(b) <==> multiset(a) == multiset(b)
  {
    StringsSortCanonically(a, b);
  }

  /** Canonicalisation is idempotent, and equal exactly on drafts with the same content. */
  lemma DraftCanonical(a: Draft, b: Draft)
    requires ValidDraft(a)
    ensures CanonicalDraft(CanonicalDraft(a)) == CanonicalDraft(a) && ValidDraft(CanonicalDraft(a))
    ensures CanonicalDraft(a) == CanonicalDraft(b) <==> SameDraft(a, b)
  {
    hide ValidItems;
    hide ById;
    hide InOrder;
    ItemsCanonical(a.records, b.records);
    ItemsCanonical(a.accounts, b.accounts);
    ItemsCanonical(a.instruments, b.instruments);
    ItemsCanonical(a.prices, b.prices);
    ItemsCanonical(a.positions, b.positions);
    ItemsCanonical(a.cash, b.cash);
    StringsCanonical(a.eligibleEtfs, b.eligibleEtfs);
    StringsCanonical(a.missing, b.missing);
    StringsCanonical(a.conflicts, b.conflicts);
    StringsCanonical(a.assumptions, b.assumptions);
  }

  /** The decision record of a state is a second id derived from the fingerprint. */
  function StateBuilder(fingerprint: Draft -> string, stateId: string -> string,
                        recordId: string -> string): Builder<Draft, string>
  {
    Builder((d: Draft) => CanonicalDraft(d), (d: Draft) => Some(recordId(fingerprint(d))), fingerprint, stateId)
  }

  /**
   For every hash and id generator: the state depends on the draft's content only, and `verify` returns on
   exactly the states that some draft executes to.
   */
  lemma Replay(fingerprint: Draft -> string, stateId: string -> string, recordId: string -> string, a: Draft, b: Draft,
               r: Record<Draft, string>)
    requires ValidDraft(a)
    ensures var builder := StateBuilder(fingerprint, stateId, recordId);
      && (Execute(builder, a) == Execute(builder, b) <==> SameDraft(a, b))
      && (ValidDraft(r.input) && Verify(builder, r) <==> exists d :: ValidDraft(d) && Execute(builder, d) == Some(r))
  {
    hide CanonicalDraft;
    hide ValidDraft;
    hide SameDraft;
    var builder := StateBuilder(fingerprint, stateId, recordId);
    DraftCanonical(a, b);
    SameRecordIff(builder, a, b);
    var valid := (d: Draft) => ValidDraft(d);
    forall d | valid(d)
      ensures valid(builder.canonical(d)) && builder.canonical(builder.canonical(d)) == builder.canonical(d)
    {
      DraftCanonical(d, d);
    }
    VerifyAcceptsExactlyBuilt(builder, valid, r);
    assert forall d :: valid(d) == ValidDraft(d);
  }
}
