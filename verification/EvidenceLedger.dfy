/**
 The append-only evidence ledger, ingestion through a clock, and point-in-time listings.

 A hash maps content to a name and an identifier generator maps a source key to a document id. Both are
 arbitrary functions here; nothing below assumes that either is injective unless it says so.
 */
module EvidenceLedger {
  import opened LookThrough
  import opened Sequences
  import opened Sorting
  import opened Text

  type Bytes = seq<bv8>

  datatype Basis = ProviderAsserted | ObservedAtIngestion

  datatype SourceKey = SourceKey(provider: string, recordId: string, version: string)

  /** `metadata` stands for title, locator, source type, effective time and media type. */
  datatype Document = Document(
    id: string, key: SourceKey, subject: string, metadata: string, basis: Basis,
    availableAt: int, recordedAt: int, hash: string, size: nat)

  datatype Row = Row(document: Document, content: Bytes)

  datatype Draft = Draft(key: SourceKey, subject: string, metadata: string, basis: Basis, availableAt: Option<int>,
                         content: Bytes)

  datatype Outcome =
    | Inserted(document: Document)
    | AlreadyPresent(document: Document)
    | Rejected(reason: Reason)

  datatype Reason =
    | BlankReference | SizeMismatch | HashMismatch | VersionConflict | IdentityCollision | RecordedBeforeAvailable

  /** Every field but the ingestion time. */
  predicate SameSignature(a: Document, b: Document)
  {
    a == b.(recordedAt := a.recordedAt)
  }

  predicate ValidDocument(d: Document)
  {
    d.availableAt <= d.recordedAt && d.size >= 1
  }

  predicate ValidDraft(d: Draft)
  {
    d.content != [] && (d.basis == ProviderAsserted <==> d.availableAt.Some?)
  }

  // ---------------------------------------------------------------- the table, as a value

  /** Both keys of the table are unique, and every row passed the checks of `append`. */
  ghost predicate ValidRows(rows: seq<Row>, hash: Bytes -> string)
  {
    && (forall i, j :: 0 <= i < j < |rows| ==> rows[i].document.key != rows[j].document.key)
    && (forall i, j :: 0 <= i < j < |rows| ==> rows[i].document.id != rows[j].document.id)
    && (forall r :: r in rows ==>
          ValidDocument(r.document) && r.document.size == |r.content| && r.document.hash == hash(r.content))
  }

  ghost predicate HasKey(rows: seq<Row>, key: SourceKey)
  {
    exists r :: r in rows && r.document.key == key
  }

  /** What an append answers, in terms of the rows stored so far. */
  ghost predicate Answers(o: Outcome, rows: seq<Row>, hash: Bytes -> string, d: Document, content: Bytes)
  {
    if |content| != d.size then o == Rejected(SizeMismatch)
    else if hash(content) != d.hash then o == Rejected(HashMismatch)
    else if HasKey(rows, d.key) then
      exists r :: r in rows && r.document.key == d.key
        && o == (if SameSignature(r.document, d) && r.content == content then AlreadyPresent(r.document)
              else Rejected(VersionConflict))
    else if exists r :: r in rows && r.document.id == d.id then o == Rejected(IdentityCollision)
    else o == Inserted(d)
  }

  /** One write: the only change any outcome makes is one more row at the end. */
  ghost predicate Writes(before: seq<Row>, after: seq<Row>, hash: Bytes -> string, d: Document, content: Bytes,
                         o: Outcome)
  {
    Answers(o, before, hash, d, content) && after == (if o.Inserted? then before + [Row(d, content)] else before)
  }

  /**
   What decides on a version that is stored already: it is present if and only if every field but the ingestion
   time, and every byte, is the stored one.
   */
  lemma RepeatIsPresentIff(o: Outcome, rows: seq<Row>, hash: Bytes -> string, r: Row, d: Document, content: Bytes)
    requires ValidRows(rows, hash) && r in rows && r.document.key == d.key
    requires Answers(o, rows, hash, d, content) && |content| == d.size && hash(content) == d.hash
    ensures o == AlreadyPresent(r.document) <==>
      && r.document.id == d.id && r.document.subject == d.subject && r.document.metadata == d.metadata
      && r.document.basis == d.basis && r.document.availableAt == d.availableAt && r.content == content
    ensures o == AlreadyPresent(r.document) || o == Rejected(VersionConflict)
  {
    forall q | q in rows && q.document.key == d.key
      ensures q == r
    {
      OneRowPerKey(rows, hash, q, r);
    }
    assert HasKey(rows, d.key);
    assert r.document.size == |r.content| && r.document.hash == hash(r.content);
    hide ValidRows;
  }

  lemma OneRowPerKey(rows: seq<Row>, hash: Bytes -> string, a: Row, b: Row)
    requires ValidRows(rows, hash) && a in rows && b in rows && a.document.key == b.document.key
    ensures a == b
  {
    var i :| 0 <= i < |rows| && rows[i] == a;
    var j :| 0 <= j < |rows| && rows[j] == b;
  }

  /** The answer is determined by the table: the two keys leave no choice. */
  lemma AnswerIsUnique(o: Outcome, p: Outcome, rows: seq<Row>, hash: Bytes -> string, d: Document, content: Bytes)
    requires ValidRows(rows, hash) && Answers(o, rows, hash, d, content) && Answers(p, rows, hash, d, content)
    ensures o == p
  {
    forall a, b | a in rows && b in rows && a.document.key == d.key && b.document.key == d.key
      ensures a == b
    {
      OneRowPerKey(rows, hash, a, b);
    }
    hide ValidRows;
  }

  /** Every write keeps both keys unique and every stored row. */
  lemma WriteKeepsRows(before: seq<Row>, after: seq<Row>, hash: Bytes -> string, d: Document, content: Bytes,
                       o: Outcome)
    requires ValidRows(before, hash) && ValidDocument(d) && Writes(before, after, hash, d, content, o)
    ensures ValidRows(after, hash) && before <= after
    ensures o.Rejected? ==> after == before
  {
    if o.Inserted? {
      assert forall r :: r in before ==> r.document.key != d.key && r.document.id != d.id;
    }
  }

  // ---------------------------------------------------------------- the ledger

  class Ledger {
    const hash: Bytes -> string
    var rows: seq<Row>

    ghost predicate Valid()
      reads this
    {
      ValidRows(rows, hash)
    }

    constructor (hash: Bytes -> string)
      ensures Valid() && rows == [] && this.hash == hash
    {
      this.hash := hash;
      rows := [];
    }

    method Find(key: SourceKey) returns (row: Option<Row>)
      requires Valid()
      ensures row.None? <==> !HasKey(rows, key)
      ensures row.Some? ==> row.value in rows && row.value.document.key == key
    {
      for n := 0 to |rows|
        invariant forall r :: r in rows[..n] ==> r.document.key != key
      {
        if rows[n].document.key == key {
          return Some(rows[n]);
        }
      }
      return None;
    }

    method Append(d: Document, content: Bytes) returns (o: Outcome)
      requires Valid() && ValidDocument(d)
      modifies `rows
      ensures Writes(old(rows), rows, hash, d, content, o)
      ensures Valid() && old(rows) <= rows
    {
      hide ValidRows;
      if |content| != d.size {
        return Rejected(SizeMismatch);
      }
      if hash(content) != d.hash {
        return Rejected(HashMismatch);
      }
      var existing := Find(d.key);
      if existing.Some? {
        if !SameSignature(existing.value.document, d) || existing.value.content != content {
          return Rejected(VersionConflict);
        }
        return AlreadyPresent(existing.value.document);
      }
      if exists r :: r in rows && r.document.id == d.id {
        return Rejected(IdentityCollision);
      }
      WriteKeepsRows(rows, rows + [Row(d, content)], hash, d, content, Inserted(d));
      rows := rows + [Row(d, content)];
      return Inserted(d);
    }

    /** Metadata and bytes of one document; None stands for KeyError. */
    method Get(id: string) returns (row: Option<Row>)
      requires Valid()
      ensures row.Some? ==> row.value in rows && row.value.document.id == id
      ensures row.Some? ==> hash(row.value.content) == row.value.document.hash
      ensures row.None? ==> forall r :: r in rows ==> r.document.id != id
    {
      for n := 0 to |rows|
        invariant forall r :: r in rows[..n] ==> r.document.id != id
      {
        if rows[n].document.id == id {
          return Some(rows[n]);
        }
      }
      return None;
    }

    /** Fetch time is over; fingerprint, timestamp and append the draft. */
    method Ingest(draft: Draft, now: int, newId: SourceKey -> string) returns (o: Outcome)
      requires Valid() && ValidDraft(draft)
      modifies `rows
      ensures Ingests(old(rows), rows, hash, newId, draft, now, o)
      ensures Valid() && old(rows) <= rows
    {
      hide ValidRows;
      hide Writes;
      var availableAt := if draft.basis == ObservedAtIngestion then now else draft.availableAt.value;
      if now < availableAt {
        return Rejected(RecordedBeforeAvailable);
      }
      var d := Document(newId(draft.key), draft.key, draft.subject, draft.metadata, draft.basis,
                        availableAt, now, hash(draft.content), |draft.content|);
      o := Append(d, draft.content);
    }

    /** Ingest what the provider returns for a trimmed reference; `fetch` is the provider. */
    method IngestReference(reference: string, fetch: string -> Draft, now: int, newId: SourceKey -> string)
      returns (o: Outcome)
      requires Valid() && (Strip(reference) != "" ==> ValidDraft(fetch(Strip(reference))))
      modifies `rows
      ensures Strip(reference) == "" ==> o == Rejected(BlankReference) && rows == old(rows)
      ensures Strip(reference) != "" ==> Ingests(old(rows), rows, hash, newId, fetch(Strip(reference)), now, o)
      ensures Valid() && old(rows) <= rows
    {
      hide ValidRows;
      hide Ingests;
      if Strip(reference) == "" {
        return Rejected(BlankReference);
      }
      o := Ingest(fetch(Strip(reference)), now, newId);
    }

    /** Every stored version for a subject, in the order of the database index. */
    method ListBySubject(subject: string) returns (r: seq<Document>)
      requires Valid()
      ensures r == BySubject(rows, subject)
    {
      hide ValidRows;
      hide Keep;
      r := [];
      KeepNothing(About(subject));
      for n := 0 to |rows|
        invariant r == Keep(Documents(rows[..n]), About(subject))
      {
        KeepNext(rows, n, About(subject));
        if About(subject)(rows[n].document) {
          r := r + [rows[n].document];
        }
      }
      assert rows[..|rows|] == rows;
      r := SortBy(r, DocumentOrder());
    }
  }

  // ---------------------------------------------------------------- listings

  function Documents(rows: seq<Row>): seq<Document>
  {
    seq(|rows|, i requires 0 <= i < |rows| => rows[i].document)
  }

  function About(subject: string): Document -> bool
  {
    (d: Document) => d.subject == subject
  }

  /** Availability, then ingestion time, then the provider's key. */
  function DocumentOrder(): (Document, Document) -> bool
  {
    Then(ByInt((d: Document) => d.availableAt),
    Then(ByInt((d: Document) => d.recordedAt),
    Then(By((d: Document) => d.key.provider),
    Then(By((d: Document) => d.key.recordId),
         By((d: Document) => d.key.version)))))
  }

  function BySubject(rows: seq<Row>, subject: string): seq<Document>
  {
    SortBy(Keep(Documents(rows), About(subject)), DocumentOrder())
  }

  lemma KeepNothing(p: Document -> bool)
    ensures Keep(Documents([]), p) == []
  {
  }

  lemma KeepNext(rows: seq<Row>, n: nat, p: Document -> bool)
    requires n < |rows|
    ensures Keep(Documents(rows[..n + 1]), p)
      == Keep(Documents(rows[..n]), p) + (if p(rows[n].document) then [rows[n].document] else [])
  {
    assert Documents(rows[..n + 1]) == Documents(rows[..n]) + [rows[n].document];
    KeepAppend(Documents(rows[..n]), [rows[n].document], p);
    assert [rows[n].document][1..] == [];
  }

  /** The order of the database index, field by field. */
  ghost predicate ListedBefore(a: Document, b: Document)
  {
    if a.availableAt != b.availableAt then a.availableAt < b.availableAt
    else if a.recordedAt != b.recordedAt then a.recordedAt < b.recordedAt
    else if a.key.provider != b.key.provider then TextAtMost(a.key.provider, b.key.provider)
    else if a.key.recordId != b.key.recordId then TextAtMost(a.key.recordId, b.key.recordId)
    else TextAtMost(a.key.version, b.key.version)
  }

  lemma DocumentOrderIs(a: Document, b: Document)
    ensures DocumentOrder()(a, b) <==> ListedBefore(a, b)
  {
    hide TextAtMost;
    hide StringLeq;
    TextOrder(a.key.provider, b.key.provider);
    TextOrder(a.key.recordId, b.key.recordId);
    TextOrder(a.key.version, b.key.version);
  }

  lemma TextOrder(a: string, b: string)
    ensures StringLeq(a, b) <==> TextAtMost(a, b)
    ensures StringLeq(b, a) <==> TextAtMost(b, a)
    ensures StringLeq(a, a) && (StringLeq(a, b) && StringLeq(b, a) ==> a == b)
  {
    StringLeqIs(a, b);
    StringLeqIs(b, a);
    StringLeqTotal(a, a);
    if StringLeq(a, b) && StringLeq(b, a) {
      StringLeqAntisymmetric(a, b);
    }
  }

  // ---------------------------------------------------------------- ingestion

  /** The document a draft becomes when it is ingested at the given clock value. */
  function DocumentOf(hash: Bytes -> string, newId: SourceKey -> string, draft: Draft, now: int): Document
    requires ValidDraft(draft)
  {
    Document(newId(draft.key), draft.key, draft.subject, draft.metadata, draft.basis,
             AvailableAt(draft, now), now, hash(draft.content), |draft.content|)
  }

  function AvailableAt(draft: Draft, now: int): int
    requires ValidDraft(draft)
  {
    if draft.basis == ObservedAtIngestion then now else draft.availableAt.value
  }

  /** An ingested document's fields: the draft's own, its fingerprint and size, stamped by the clock. */
  lemma DocumentIs(hash: Bytes -> string, newId: SourceKey -> string, draft: Draft, now: int)
    requires ValidDraft(draft)
    ensures var d := DocumentOf(hash, newId, draft, now);
      && d.id == newId(draft.key) && d.key == draft.key && d.subject == draft.subject && d.metadata == draft.metadata
      && d.basis == draft.basis && d.recordedAt == now && d.hash == hash(draft.content) && d.size == |draft.content|
      && (draft.availableAt.None? ==> d.availableAt == now)
      && (draft.availableAt.Some? ==> d.availableAt == draft.availableAt.value)
  {
  }

  ghost predicate Ingests(before: seq<Row>, after: seq<Row>, hash: Bytes -> string, newId: SourceKey -> string,
                          draft: Draft, now: int, o: Outcome)
    requires ValidDraft(draft)
  {
    if now < AvailableAt(draft, now) then
      o == Rejected(RecordedBeforeAvailable) && after == before
    else
      Writes(before, after, hash, DocumentOf(hash, newId, draft, now), draft.content, o)
  }

  /** Some ingestion at a clock value allowed by `when` leads from one table to the next. */
  ghost predicate Step(before: seq<Row>, after: seq<Row>, hash: Bytes -> string, newId: SourceKey -> string,
                       when: int -> bool)
  {
    exists draft, now, o :: ValidDraft(draft) && when(now) && Ingests(before, after, hash, newId, draft, now, o)
  }

  /** A run: any number of ingestions of anything, in any clock order the filter allows. */
  ghost predicate Run(tables: seq<seq<Row>>, hash: Bytes -> string, newId: SourceKey -> string, when: int -> bool)
  {
    && tables != []
    && (forall i :: 0 <= i < |tables| - 1 ==> Step(tables[i], tables[i + 1], hash, newId, when))
  }

  lemma IngestKeepsRows(before: seq<Row>, after: seq<Row>, hash: Bytes -> string, newId: SourceKey -> string,
                        draft: Draft, now: int, o: Outcome)
    requires ValidRows(before, hash) && ValidDraft(draft) && Ingests(before, after, hash, newId, draft, now, o)
    ensures ValidRows(after, hash) && before <= after && (!o.Inserted? ==> after == before)
    ensures o.Inserted? ==> after == before + [Row(DocumentOf(hash, newId, draft, now), draft.content)]
    ensures o.Inserted? ==> !HasKey(before, draft.key) && ValidDocument(DocumentOf(hash, newId, draft, now))
  {
    hide ValidRows;
    if now >= AvailableAt(draft, now) {
      WriteKeepsRows(before, after, hash, DocumentOf(hash, newId, draft, now), draft.content, o);
    }
  }

  /** Over every run both keys stay unique, and no stored row is changed, moved or lost. */
  lemma {:induction false} RunKeepsRows(tables: seq<seq<Row>>, hash: Bytes -> string, newId: SourceKey -> string,
                                        when: int -> bool)
    requires Run(tables, hash, newId, when) && ValidRows(tables[0], hash)
    ensures ValidRows(tables[|tables| - 1], hash) && tables[0] <= tables[|tables| - 1]
    decreases |tables|
  {
    hide Step;
    hide ValidRows;
    if |tables| > 1 {
      var n := |tables| - 1;
      RunPrefix(tables, hash, newId, when);
      RunKeepsRows(tables[..n], hash, newId, when);
      StepKeepsRows(tables[n - 1], tables[n], hash, newId, when);
    }
  }

  lemma StepKeepsRows(before: seq<Row>, after: seq<Row>, hash: Bytes -> string, newId: SourceKey -> string,
                      when: int -> bool)
    requires ValidRows(before, hash) && Step(before, after, hash, newId, when)
    ensures ValidRows(after, hash) && before <= after
  {
    hide ValidRows;
    hide Ingests;
    var draft, now, o :| ValidDraft(draft) && when(now) && Ingests(before, after, hash, newId, draft, now, o);
    IngestKeepsRows(before, after, hash, newId, draft, now, o);
  }

  lemma RunPrefix(tables: seq<seq<Row>>, hash: Bytes -> string, newId: SourceKey -> string, when: int -> bool)
    requires Run(tables, hash, newId, when) && |tables| > 1
    ensures Run(tables[..|tables| - 1], hash, newId, when)
    ensures Step(tables[|tables| - 2], tables[|tables| - 1], hash, newId, when)
  {
    hide Step;
    var n := |tables| - 2;
    assert Step(tables[n], tables[n + 1], hash, newId, when);
  }
}
