/**
 The append-only product store: one table with two unique keys, written through content-addressed
 envelopes and read back through their verification.
 */
module ProductStore {
  import opened LookThrough
  import opened Sequences
  import opened Sorting

  const ENVELOPE_VERSION := "product-record-envelope-v1"

  datatype PayloadKey = PayloadKey(kind: string, schema: string, digest: string)

  datatype Envelope = Envelope(version: string, id: string, payload: PayloadKey, storedAt: int, json: string)

  datatype Reason = UnsupportedVersion | IdentityConflict | HashCollision | ForeignIdentity

  datatype Outcome =
    | Inserted(envelope: Envelope)
    | AlreadyPresent(envelope: Envelope)
    | Rejected(reason: Reason)

  // ---------------------------------------------------------------- the table, as a value

  ghost predicate ValidRows(rows: seq<Envelope>)
  {
    && (forall i, j :: 0 <= i < j < |rows| ==> rows[i].id != rows[j].id)
    && (forall i, j :: 0 <= i < j < |rows| ==> rows[i].payload != rows[j].payload)
    && (forall r :: r in rows ==> r.version == ENVELOPE_VERSION)
  }

  /** Equal up to the storage time. */
  predicate SameContent(a: Envelope, b: Envelope)
  {
    a == b.(storedAt := a.storedAt)
  }

  ghost predicate HasId(rows: seq<Envelope>, id: string)
  {
    exists r :: r in rows && r.id == id
  }

  ghost predicate HasPayload(rows: seq<Envelope>, payload: PayloadKey)
  {
    exists r :: r in rows && r.payload == payload
  }

  /** What an append answers, in terms of the rows stored so far. */
  ghost predicate Answers(o: Outcome, rows: seq<Envelope>, e: Envelope)
  {
    if e.version != ENVELOPE_VERSION then o == Rejected(UnsupportedVersion)
    else if HasId(rows, e.id) then
      exists r ::
        r in rows && r.id == e.id && o == (if SameContent(r, e) then AlreadyPresent(r) else Rejected(IdentityConflict))
    else if HasPayload(rows, e.payload) then
      exists r ::
        r in rows && r.payload == e.payload &&
        o == Rejected(if r.json != e.json then HashCollision else ForeignIdentity)
    else o == Inserted(e)
  }

  ghost predicate Writes(before: seq<Envelope>, after: seq<Envelope>, e: Envelope, o: Outcome)
  {
    Answers(o, before, e) && after == (if o.Inserted? then before + [e] else before)
  }

  /**
   What decides on an id that is stored already: it is present if and only if kind, schema, digest and text are
   the stored ones.
   */
  lemma RepeatIsPresentIff(o: Outcome, rows: seq<Envelope>, r: Envelope, e: Envelope)
    requires ValidRows(rows) && r in rows && r.id == e.id && e.version == ENVELOPE_VERSION && Answers(o, rows, e)
    ensures o == AlreadyPresent(r) <==>
      && r.payload.kind == e.payload.kind && r.payload.schema == e.payload.schema
      && r.payload.digest == e.payload.digest && r.json == e.json
    ensures o == AlreadyPresent(r) || o == Rejected(IdentityConflict)
  {
    forall q | q in rows && q.id == e.id
      ensures q == r
    {
      OneRowPerKey(rows, q, r);
    }
    assert HasId(rows, e.id);
    assert r.version == ENVELOPE_VERSION;
    hide ValidRows;
  }

  lemma OneRowPerKey(rows: seq<Envelope>, a: Envelope, b: Envelope)
    requires ValidRows(rows) && a in rows && b in rows && (a.id == b.id || a.payload == b.payload)
    ensures a == b
  {
    var i :| 0 <= i < |rows| && rows[i] == a;
    var j :| 0 <= j < |rows| && rows[j] == b;
  }

  /** Both keys together determine the answer. */
  lemma AnswerIsUnique(o: Outcome, p: Outcome, rows: seq<Envelope>, e: Envelope)
    requires ValidRows(rows) && Answers(o, rows, e) && Answers(p, rows, e)
    ensures o == p
  {
    forall a, b | a in rows && b in rows && (a.id == b.id || a.payload == b.payload)
      ensures a == b
    {
      OneRowPerKey(rows, a, b);
    }
    hide ValidRows;
  }

  lemma WriteKeepsRows(before: seq<Envelope>, after: seq<Envelope>, e: Envelope, o: Outcome)
    requires ValidRows(before) && Writes(before, after, e, o)
    ensures ValidRows(after) && before <= after
    ensures o.Rejected? ==> after == before
  {
    if o.Inserted? {
      assert forall r :: r in before ==> r.id != e.id && r.payload != e.payload;
    }
  }

  // ---------------------------------------------------------------- the store

  class Store {
    var rows: seq<Envelope>

    ghost predicate Valid()
      reads this
    {
      ValidRows(rows)
    }

    constructor ()
      ensures Valid() && rows == []
    {
      rows := [];
    }

    /** One immutable envelope by its id; None stands for KeyError. */
    method Get(id: string) returns (e: Option<Envelope>)
      requires Valid()
      ensures e.None? <==> !HasId(rows, id)
      ensures e.Some? ==> e.value in rows && e.value.id == id
    {
      for n := 0 to |rows|
        invariant forall r :: r in rows[..n] ==> r.id != id
      {
        if rows[n].id == id {
          return Some(rows[n]);
        }
      }
      return None;
    }

    method FindPayload(payload: PayloadKey) returns (e: Option<Envelope>)
      requires Valid()
      ensures e.None? <==> !HasPayload(rows, payload)
      ensures e.Some? ==> e.value in rows && e.value.payload == payload
    {
      for n := 0 to |rows|
        invariant forall r :: r in rows[..n] ==> r.payload != payload
      {
        if rows[n].payload == payload {
          return Some(rows[n]);
        }
      }
      return None;
    }

    /** The duplicate-payload branch never finds the same id: that row would have answered the first lookup. */
    method Append(e: Envelope) returns (o: Outcome)
      requires Valid()
      modifies `rows
      ensures Writes(old(rows), rows, e, o)
      ensures Valid() && old(rows) <= rows
    {
      hide ValidRows;
      if e.version != ENVELOPE_VERSION {
        return Rejected(UnsupportedVersion);
      }
      var existing := Get(e.id);
      if existing.Some? {
        if !SameContent(existing.value, e) {
          return Rejected(IdentityConflict);
        }
        return AlreadyPresent(existing.value);
      }
      var duplicate := FindPayload(e.payload);
      if duplicate.Some? {
        if duplicate.value.json != e.json {
          return Rejected(HashCollision);
        }
        assert duplicate.value.id != e.id;
        return Rejected(ForeignIdentity);
      }
      WriteKeepsRows(rows, rows + [e], e, Inserted(e));
      rows := rows + [e];
      return Inserted(e);
    }

    /** One kind, in order of first storage. */
    method ListByKind(kind: string) returns (r: seq<Envelope>)
      requires Valid()
      ensures r == ByKind(rows, kind) && Ordered(r, StorageOrder())
      ensures forall e :: e in r <==> e in rows && e.payload.kind == kind
    {
      r := SortBy(Keep(rows, OfKind(kind)), StorageOrder());
      assert r == ByKind(rows, kind);
      hide ByKind;
      forall e
        ensures e in ByKind(rows, kind) <==> e in rows && e.payload.kind == kind
        ensures Ordered(ByKind(rows, kind), StorageOrder())
      {
        ByKindIsExact(rows, kind, e);
      }
    }
  }

  function OfKind(kind: string): Envelope -> bool
  {
    (e: Envelope) => e.payload.kind == kind
  }

  function StorageOrder(): (Envelope, Envelope) -> bool
  {
    Then(ByInt((e: Envelope) => e.storedAt), By((e: Envelope) => e.id))
  }

  function ByKind(rows: seq<Envelope>, kind: string): seq<Envelope>
  {
    SortBy(Keep(rows, OfKind(kind)), StorageOrder())
  }

  // ---------------------------------------------------------------- content addressing

  /**
   How records become text and back. Canonical JSON, hashing and id generation are arbitrary functions;
   `kindOf` is None for a type that is not admitted, `parse` is None when the text does not validate.
   */
  datatype Codec<!R> = Codec(
    kindOf: R -> Option<string>,
    schemaOf: string -> string,
    canonicalJson: R -> string,
    parse: (string, string) -> Option<R>,
    digest: string -> string,
    newId: PayloadKey -> string)

  function PayloadOf<R>(codec: Codec<R>, kind: string, json: string): PayloadKey
  {
    PayloadKey(kind, codec.schemaOf(kind), codec.digest(json))
  }

  /** The envelope `StoreProductRecord` builds. */
  function EnvelopeOf<R>(codec: Codec<R>, record: R, kind: string, now: int): Envelope
  {
    var json := codec.canonicalJson(record);
    var payload := PayloadOf(codec, kind, json);
    Envelope(ENVELOPE_VERSION, codec.newId(payload), payload, now, json)
  }

  /** An envelope's fields: the record's own text, addressed by kind, schema and digest, stamped by the clock. */
  lemma EnvelopeIs<R>(codec: Codec<R>, record: R, kind: string, now: int)
    ensures var e := EnvelopeOf(codec, record, kind, now);
      && e.version == "product-record-envelope-v1" && e.storedAt == now && e.json == codec.canonicalJson(record)
      && e.payload.kind == kind && e.payload.schema == codec.schemaOf(kind)
      && e.payload.digest == codec.digest(e.json) && e.id == codec.newId(e.payload)
  {
  }

  /** None is the error for a type that is not admitted. */
  method StoreRecord<R>(store: Store, codec: Codec<R>, record: R, now: int) returns (o: Option<Outcome>)
    requires store.Valid()
    modifies store`rows
    ensures Stores(old(store.rows), store.rows, codec, record, now, o)
    ensures store.Valid() && old(store.rows) <= store.rows
  {
    hide ValidRows;
    hide Writes;
    var kind := codec.kindOf(record);
    if kind.None? {
      return None;
    }
    var answer := store.Append(EnvelopeOf(codec, record, kind.value, now));
    o := Some(answer);
  }

  ghost predicate Stores<R>(before: seq<Envelope>, after: seq<Envelope>, codec: Codec<R>, record: R, now: int,
                            o: Option<Outcome>)
  {
    if codec.kindOf(record).None? then
      o.None? && after == before
    else
      o.Some? && Writes(before, after, EnvelopeOf(codec, record, codec.kindOf(record).value, now), o.value)
  }

  // ---------------------------------------------------------------- runs

  ghost predicate Step<R(!new)>(before: seq<Envelope>, after: seq<Envelope>, codec: Codec<R>)
  {
    exists record, now, o :: Stores(before, after, codec, record, now, o)
  }

  /** Any number of stores of any records at any clock values. */
  ghost predicate Run<R(!new)>(tables: seq<seq<Envelope>>, codec: Codec<R>)
  {
    tables != [] && forall i :: 0 <= i < |tables| - 1 ==> Step(tables[i], tables[i + 1], codec)
  }

  /** Every row carries the digest of its own text, the schema of its kind and the id of its payload key. */
  ghost predicate ContentAddressed<R>(rows: seq<Envelope>, codec: Codec<R>)
  {
    forall r :: r in rows ==> r.payload == PayloadOf(codec, r.payload.kind, r.json) && r.id == codec.newId(r.payload)
  }

  lemma StoreKeepsRows<R>(before: seq<Envelope>, after: seq<Envelope>, codec: Codec<R>, record: R, now: int,
                          o: Option<Outcome>)
    requires ValidRows(before) && Stores(before, after, codec, record, now, o)
    ensures ValidRows(after) && before <= after
    ensures ContentAddressed(before, codec) ==> ContentAddressed(after, codec)
  {
    hide ValidRows;
    if o.Some? {
      WriteKeepsRows(before, after, EnvelopeOf(codec, record, codec.kindOf(record).value, now), o.value);
    }
  }

  lemma StepKeepsRows<R(!new)>(before: seq<Envelope>, after: seq<Envelope>, codec: Codec<R>)
    requires ValidRows(before) && Step(before, after, codec)
    ensures ValidRows(after) && before <= after
    ensures ContentAddressed(before, codec) ==> ContentAddressed(after, codec)
  {
    hide ValidRows;
    hide Stores;
    hide ContentAddressed;
    var record, now, o :| Stores(before, after, codec, record, now, o);
    StoreKeepsRows(before, after, codec, record, now, o);
  }

  /** Over every run both keys stay unique, every row stays as first stored, and every row stays content-addressed. */
  lemma {:induction false} RunKeepsRows<R(!new)>(tables: seq<seq<Envelope>>, codec: Codec<R>)
    requires Run(tables, codec) && ValidRows(tables[0])
    ensures ValidRows(tables[|tables| - 1]) && tables[0] <= tables[|tables| - 1]
    ensures ContentAddressed(tables[0], codec) ==> ContentAddressed(tables[|tables| - 1], codec)
    decreases |tables|
  {
    hide ValidRows;
    hide Step;
    hide ContentAddressed;
    if |tables| > 1 {
      var n := |tables| - 1;
      assert Step(tables[n - 1], tables[n], codec);
      RunKeepsRows(tables[..n], codec);
      StepKeepsRows(tables[n - 1], tables[n], codec);
    }
  }

  /**
   When every write goes through content addressing, the duplicate-payload branch is never taken: no
   injectivity is assumed, since equal payload keys get equal ids.
   */
  lemma DuplicatePayloadIsUnreachable<R(!new)>(tables: seq<seq<Envelope>>, codec: Codec<R>, record: R, now: int,
                                        after: seq<Envelope>, o: Option<Outcome>)
    requires Run(tables, codec) && tables[0] == []
    requires Stores(tables[|tables| - 1], after, codec, record, now, o) && o.Some?
    ensures o.value.Rejected? ==> o.value.reason == IdentityConflict
  {
    hide Step;
    var last := tables[|tables| - 1];
    RunKeepsRows(tables, codec);
    hide Run;
    hide ValidRows;
    var e := EnvelopeOf(codec, record, codec.kindOf(record).value, now);
    if HasPayload(last, e.payload) {
      assert HasId(last, e.id);
    }
  }

  /** With an injective digest and injective ids, storing an admitted record never fails. */
  lemma StoreSucceeds<R(!new)>(tables: seq<seq<Envelope>>, codec: Codec<R>, record: R, now: int,
                               after: seq<Envelope>, o: Option<Outcome>)
    requires Run(tables, codec) && tables[0] == []
    requires forall a, b :: codec.digest(a) == codec.digest(b) ==> a == b
    requires forall a, b :: codec.newId(a) == codec.newId(b) ==> a == b
    requires Stores(tables[|tables| - 1], after, codec, record, now, o) && o.Some?
    ensures !o.value.Rejected?
  {
    hide Step;
    var last := tables[|tables| - 1];
    var e := EnvelopeOf(codec, record, codec.kindOf(record).value, now);
    RunKeepsRows(tables, codec);
    DuplicatePayloadIsUnreachable(tables, codec, record, now, after, o);
    forall r | r in last && r.id == e.id
      ensures SameContent(r, e)
    {
      assert r.payload == e.payload && codec.digest(r.json) == codec.digest(e.json);
    }
    hide Run;
    hide ValidRows;
  }

  /** After any run, storing a record again answers with the envelope and the timestamp of its first storage. */
  lemma RetryReturnsFirst<R(!new)>(tables: seq<seq<Envelope>>, codec: Codec<R>, record: R, kind: string, first: int,
                                   now: int, after: seq<Envelope>, o: Option<Outcome>)
    requires Run(tables, codec) && ValidRows(tables[0])
    requires codec.kindOf(record) == Some(kind) && EnvelopeOf(codec, record, kind, first) in tables[0]
    requires Stores(tables[|tables| - 1], after, codec, record, now, o)
    ensures o == Some(AlreadyPresent(EnvelopeOf(codec, record, kind, first))) && after == tables[|tables| - 1]
  {
    hide Step;
    var last := tables[|tables| - 1];
    var stored := EnvelopeOf(codec, record, kind, first);
    RunKeepsRows(tables, codec);
    assert stored in last;
    forall r | r in last && r.id == stored.id
      ensures r == stored
    {
      OneRowPerKey(last, r, stored);
    }
    hide Run;
    hide ValidRows;
  }

  // ---------------------------------------------------------------- loading

  datatype LoadError =
    | MissingRecord | WrongKind | SchemaNeedsMigration | DigestMismatch | IdMismatch | NoLongerValidates | NotCanonical

  datatype Loaded<R> = Loaded(envelope: Envelope, record: R) | LoadFailed(error: LoadError)

  /** `verify_product_record_envelope`, check by check. */
  function Verify<R>(codec: Codec<R>, e: Envelope): Loaded<R>
  {
    if e.payload.schema != codec.schemaOf(e.payload.kind) then LoadFailed(SchemaNeedsMigration)
    else if codec.digest(e.json) != e.payload.digest then LoadFailed(DigestMismatch)
    else if codec.newId(e.payload) != e.id then LoadFailed(IdMismatch)
    else
      var record := codec.parse(e.payload.kind, e.json);
      if record.None? then LoadFailed(NoLongerValidates)
      else if codec.canonicalJson(record.value) != e.json then LoadFailed(NotCanonical)
      else Loaded(e, record.value)
  }

  /** Parsing inverts canonical JSON on admitted records and yields records of the kind asked for. */
  ghost predicate Lawful<R(!new)>(codec: Codec<R>)
  {
    && (forall r :: codec.kindOf(r).Some? ==> codec.parse(codec.kindOf(r).value, codec.canonicalJson(r)) == Some(r))
    && (forall k, j :: codec.parse(k, j).Some? ==> codec.kindOf(codec.parse(k, j).value) == Some(k))
  }

  /** Verification accepts exactly the envelopes that storing some admitted record would build. */
  lemma VerifyAcceptsExactlyStored<R(!new)>(codec: Codec<R>, e: Envelope)
    requires Lawful(codec) && e.version == ENVELOPE_VERSION
    ensures Verify(codec, e).Loaded? <==>
      exists r :: codec.kindOf(r) == Some(e.payload.kind) && e == EnvelopeOf(codec, r, e.payload.kind, e.storedAt)
    ensures forall r ::
      codec.kindOf(r) == Some(e.payload.kind) && e == EnvelopeOf(codec, r, e.payload.kind, e.storedAt) ==>
        Verify(codec, e) == Loaded(e, r)
  {
    if Verify(codec, e).Loaded? {
      var r := codec.parse(e.payload.kind, e.json).value;
      assert codec.kindOf(r) == Some(e.payload.kind) && e == EnvelopeOf(codec, r, e.payload.kind, e.storedAt);
    }
  }

  /** One field of a stored envelope changed: each change is found, and reported as what it is. */
  lemma TamperingIsFound<R(!new)>(codec: Codec<R>, r: R, kind: string, at: int, other: string, later: int)
    requires Lawful(codec) && codec.kindOf(r) == Some(kind)
    ensures var e := EnvelopeOf(codec, r, kind, at);
      && Verify(codec, e.(storedAt := later)) == Loaded(e.(storedAt := later), r)
      && (other != e.id ==> Verify(codec, e.(id := other)) == LoadFailed(IdMismatch))
      && (other != e.payload.schema ==>
            Verify(codec, e.(payload := e.payload.(schema := other))) == LoadFailed(SchemaNeedsMigration))
      && (other != e.payload.digest ==>
            Verify(codec, e.(payload := e.payload.(digest := other))) == LoadFailed(DigestMismatch))
      && (codec.digest(other) != e.payload.digest ==> Verify(codec, e.(json := other)) == LoadFailed(DigestMismatch))
  {
  }

  /** A text that matches its own addresses is still refused when it does not parse or is not the canonical form. */
  lemma ForeignTextIsFound<R(!new)>(codec: Codec<R>, kind: string, json: string, at: int)
    ensures var payload := PayloadOf(codec, kind, json);
      var e := Envelope(ENVELOPE_VERSION, codec.newId(payload), payload, at, json);
      && (codec.parse(kind, json).None? <==> Verify(codec, e) == LoadFailed(NoLongerValidates))
      && (codec.parse(kind, json).Some? && codec.canonicalJson(codec.parse(kind, json).value) != json <==>
            Verify(codec, e) == LoadFailed(NotCanonical))
  {
  }

  method LoadRecord<R>(store: Store, codec: Codec<R>, id: string, expectedKind: Option<string>) returns (r: Loaded<R>)
    requires store.Valid()
    ensures Loads(store.rows, codec, id, expectedKind, r)
  {
    hide ValidRows;
    var e := store.Get(id);
    if e.None? {
      return LoadFailed(MissingRecord);
    }
    if expectedKind.Some? && e.value.payload.kind != expectedKind.value {
      return LoadFailed(WrongKind);
    }
    r := Verify(codec, e.value);
  }

  ghost predicate Loads<R>(rows: seq<Envelope>, codec: Codec<R>, id: string, expectedKind: Option<string>, r: Loaded<R>)
  {
    if !HasId(rows, id) then
      r == LoadFailed(MissingRecord)
    else
      exists e :: e in rows && e.id == id
        && r == (if expectedKind.Some? && e.payload.kind != expectedKind.value then LoadFailed(WrongKind)
              else Verify(codec, e))
  }

  /** Store, run anything, load: the same record comes back, in the envelope first stored. */
  lemma StoreThenLoad<R(!new)>(tables: seq<seq<Envelope>>, codec: Codec<R>, record: R, kind: string, first: int,
                               loaded: Loaded<R>)
    requires Lawful(codec) && Run(tables, codec) && ValidRows(tables[0])
    requires codec.kindOf(record) == Some(kind) && EnvelopeOf(codec, record, kind, first) in tables[0]
    requires Loads(tables[|tables| - 1], codec, EnvelopeOf(codec, record, kind, first).id, Some(kind), loaded)
    ensures loaded == Loaded(EnvelopeOf(codec, record, kind, first), record)
  {
    hide Step;
    hide Verify;
    var last := tables[|tables| - 1];
    var stored := EnvelopeOf(codec, record, kind, first);
    RunKeepsRows(tables, codec);
    VerifyAcceptsExactlyStored(codec, stored);
    assert stored in last;
    forall r | r in last && r.id == stored.id
      ensures r == stored
    {
      OneRowPerKey(last, r, stored);
    }
    hide Run;
    hide ValidRows;
    hide Lawful;
  }

  // ---------------------------------------------------------------- listing

  lemma StorageOrderIsTotal()
    ensures TotalPreorder(StorageOrder())
  {
    hide TotalPreorder;
    hide By;
    hide ByInt;
    hide Then;
    ByIsOrder((e: Envelope) => e.id);
    ByIntIsOrder((e: Envelope) => e.storedAt);
    ThenIsOrder(ByInt((e: Envelope) => e.storedAt), By((e: Envelope) => e.id));
  }

  lemma StorageOrderIs(a: Envelope, b: Envelope)
    ensures StorageOrder()(a, b) <==>
      a.storedAt < b.storedAt || (a.storedAt == b.storedAt && TextAtMost(a.id, b.id))
  {
    StringLeqIs(a.id, b.id);
    hide StringLeq;
    hide TextAtMost;
  }

  lemma RowsAreDistinct(rows: seq<Envelope>)
    requires ValidRows(rows)
    ensures KeysDistinct(rows, StorageOrder())
  {
    forall i, j | 0 <= i < j < |rows|
      ensures !(StorageOrder()(rows[i], rows[j]) && StorageOrder()(rows[j], rows[i]))
    {
      ByTie((e: Envelope) => e.id, rows[i], rows[j]);
    }
  }

  /** The list of a kind holds exactly its stored envelopes, by storage time and then id. */
  lemma ByKindIsExact(rows: seq<Envelope>, kind: string, e: Envelope)
    ensures e in ByKind(rows, kind) <==> e in rows && e.payload.kind == kind
    ensures multiset(ByKind(rows, kind)) == multiset(Keep(rows, OfKind(kind)))
    ensures Ordered(ByKind(rows, kind), StorageOrder())
    ensures var l := ByKind(rows, kind);
      forall i, j :: 0 <= i < j < |l| ==>
        l[i].storedAt < l[j].storedAt || (l[i].storedAt == l[j].storedAt && TextAtMost(l[i].id, l[j].id))
  {
    hide TotalPreorder;
    hide StorageOrder;
    hide TextAtMost;
    forall a, b: Envelope | StorageOrder()(a, b)
      ensures a.storedAt < b.storedAt || (a.storedAt == b.storedAt && TextAtMost(a.id, b.id))
    {
      StorageOrderIs(a, b);
    }
    StorageOrderIsTotal();
    var found := Keep(rows, OfKind(kind));
    KeepIsFilter(rows, OfKind(kind));
    SortOrdered(found, StorageOrder());
    SortKeeps(found, StorageOrder());
    SameItems(found, ByKind(rows, kind));
  }

  /** While the clock moves forward, a new record only ever appears at the end of its kind's list. */
  lemma ListGrowsAtEnd(rows: seq<Envelope>, e: Envelope, kind: string)
    requires ValidRows(rows) && ValidRows(rows + [e])
    requires forall r :: r in rows ==> r.storedAt < e.storedAt
    ensures ByKind(rows + [e], kind) == ByKind(rows, kind) + (if e.payload.kind == kind then [e] else [])
  {
    hide ValidRows;
    hide TotalPreorder;
    StorageOrderIsTotal();
    RowsAreDistinct(rows + [e]);
    KeepAppend(rows, [e], OfKind(kind));
    KeepDistinct(rows + [e], OfKind(kind), StorageOrder());
    KeepIsFilter(rows, OfKind(kind));
    assert Keep([e], OfKind(kind)) == if e.payload.kind == kind then [e] else [] by {
      assert [e][1..] == [];
    }
    if e.payload.kind == kind {
      forall r | r in Keep(rows, OfKind(kind))
        ensures StorageOrder()(r, e)
      {
      }
      hide StorageOrder;
      SortAppend(Keep(rows, OfKind(kind)), e, StorageOrder());
    } else {
      assert Keep(rows + [e], OfKind(kind)) == Keep(rows, OfKind(kind));
    }
  }
}
