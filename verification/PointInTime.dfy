/**
 Questions to the ledger at a past instant. Under live replay the answer at T is fixed once the clock has
 passed T; under historical reconstruction later ingestions may still fill it in.
 */
module PointInTime {
  import opened LookThrough
  import opened Sequences
  import opened Sorting
  import opened Temporal
  import opened Text
  import opened EvidenceLedger

  function Within(boundary: Boundary): Document -> bool
  {
    (d: Document) => d.availableAt <= d.recordedAt && boundary.Includes(d.availableAt, d.recordedAt)
  }

  function Listing(rows: seq<Row>, subject: string, boundary: Boundary): seq<Document>
  {
    SortBy(Keep(BySubject(rows, subject), Within(boundary)), DocumentOrder())
  }

  /** None stands for the error on a subject that is blank once trimmed. */
  method ListAt(ledger: Ledger, subject: string, boundary: Boundary) returns (r: Option<seq<Document>>)
    requires ledger.Valid()
    ensures r.None? <==> Strip(subject) == ""
    ensures r.Some? ==> r.value == Listing(ledger.rows, Strip(subject), boundary)
  {
    var trimmed := Strip(subject);
    if trimmed == "" {
      return None;
    }
    var all := ledger.ListBySubject(trimmed);
    r := Some(SortBy(Keep(all, Within(boundary)), DocumentOrder()));
  }

  // ---------------------------------------------------------------- the listing order

  lemma DocumentOrderIsTotal()
    ensures TotalPreorder(DocumentOrder())
  {
    hide TotalPreorder;
    hide By;
    hide ByInt;
    hide Then;
    var version := By((d: Document) => d.key.version);
    ByIsOrder((d: Document) => d.key.version);
    ByIsOrder((d: Document) => d.key.recordId);
    ByIsOrder((d: Document) => d.key.provider);
    ByIntIsOrder((d: Document) => d.recordedAt);
    ByIntIsOrder((d: Document) => d.availableAt);
    ThenIsOrder(By((d: Document) => d.key.recordId), version);
    var recordId := Then(By((d: Document) => d.key.recordId), version);
    ThenIsOrder(By((d: Document) => d.key.provider), recordId);
    var provider := Then(By((d: Document) => d.key.provider), recordId);
    ThenIsOrder(ByInt((d: Document) => d.recordedAt), provider);
    ThenIsOrder(ByInt((d: Document) => d.availableAt), Then(ByInt((d: Document) => d.recordedAt), provider));
  }

  /** Only versions of the same provider key tie, and a valid table has no two of those. */
  lemma OrderTie(a: Document, b: Document)
    requires DocumentOrder()(a, b) && DocumentOrder()(b, a)
    ensures a.key == b.key
  {
    ByTie((d: Document) => d.key.provider, a, b);
    ByTie((d: Document) => d.key.recordId, a, b);
    ByTie((d: Document) => d.key.version, a, b);
    hide By;
  }

  lemma DocumentsAreDistinct(rows: seq<Row>, hash: Bytes -> string)
    requires ValidRows(rows, hash)
    ensures KeysDistinct(Documents(rows), DocumentOrder())
  {
    forall i, j | 0 <= i < j < |Documents(rows)|
      ensures !(DocumentOrder()(Documents(rows)[i], Documents(rows)[j]) &&
        DocumentOrder()(Documents(rows)[j], Documents(rows)[i]))
    {
      if DocumentOrder()(rows[i].document, rows[j].document) && DocumentOrder()(rows[j].document, rows[i].document) {
        OrderTie(rows[i].document, rows[j].document);
      }
    }
  }

  /** The documents a listing selects, in storage order. */
  function Selected(rows: seq<Row>, subject: string, boundary: Boundary): seq<Document>
  {
    Keep(Keep(Documents(rows), About(subject)), Within(boundary))
  }

  lemma SelectedIsDistinct(rows: seq<Row>, hash: Bytes -> string, subject: string, boundary: Boundary)
    requires ValidRows(rows, hash)
    ensures KeysDistinct(Keep(Documents(rows), About(subject)), DocumentOrder())
    ensures KeysDistinct(Selected(rows, subject, boundary), DocumentOrder())
  {
    hide KeysDistinct;
    hide ValidRows;
    hide DocumentOrder;
    DocumentsAreDistinct(rows, hash);
    KeepDistinct(Documents(rows), About(subject), DocumentOrder());
    KeepDistinct(Keep(Documents(rows), About(subject)), Within(boundary), DocumentOrder());
  }

  lemma ListingSortsSelected(rows: seq<Row>, hash: Bytes -> string, subject: string, boundary: Boundary)
    requires ValidRows(rows, hash)
    ensures Listing(rows, subject, boundary) == SortBy(Selected(rows, subject, boundary), DocumentOrder())
  {
    hide KeysDistinct;
    hide ValidRows;
    hide DocumentOrder;
    hide TotalPreorder;
    hide SortBy;
    DocumentOrderIsTotal();
    SelectedIsDistinct(rows, hash, subject, boundary);
    FilterSorted(Keep(Documents(rows), About(subject)), Within(boundary), DocumentOrder());
    DistinctTiesAreEqual(Selected(rows, subject, boundary), DocumentOrder());
    SortIdempotent(Selected(rows, subject, boundary), DocumentOrder());
  }

  // ---------------------------------------------------------------- laws of listings

  /** A listing holds exactly the stored versions of the subject inside the boundary, in the key order. */
  lemma ListingIsExact(rows: seq<Row>, hash: Bytes -> string, subject: string, boundary: Boundary, d: Document)
    requires ValidRows(rows, hash)
    ensures Ordered(Listing(rows, subject, boundary), DocumentOrder())
    ensures d in Listing(rows, subject, boundary) <==>
      && (exists r :: r in rows && r.document == d) && d.subject == subject && boundary.asOf >= d.availableAt
      && (boundary.mode == LiveSystemReplay ==> boundary.asOf >= d.recordedAt)
  {
    hide DocumentOrder;
    hide Ordered;
    hide SortBy;
    hide TotalPreorder;
    DocumentOrderIsTotal();
    var found := BySubject(rows, subject);
    SortOrdered(Keep(found, Within(boundary)), DocumentOrder());
    SortKeeps(Keep(found, Within(boundary)), DocumentOrder());
    SameItems(Keep(found, Within(boundary)), Listing(rows, subject, boundary));
    KeepIsFilter(found, Within(boundary));
    SortKeeps(Keep(Documents(rows), About(subject)), DocumentOrder());
    SameItems(Keep(Documents(rows), About(subject)), found);
    KeepIsFilter(Documents(rows), About(subject));
    InDocuments(rows, d);
  }

  /** The listing's order on the fields: availability, ingestion time, provider, record and version. */
  lemma ListingIsInOrder(rows: seq<Row>, subject: string, boundary: Boundary)
    ensures var l := Listing(rows, subject, boundary);
      forall i, j :: 0 <= i < j < |l| ==> ListedBefore(l[i], l[j])
  {
    hide DocumentOrder;
    hide ListedBefore;
    hide SortBy;
    hide TotalPreorder;
    DocumentOrderIsTotal();
    SortOrdered(Keep(BySubject(rows, subject), Within(boundary)), DocumentOrder());
    var l := Listing(rows, subject, boundary);
    forall i, j | 0 <= i < j < |l|
      ensures ListedBefore(l[i], l[j])
    {
      DocumentOrderIs(l[i], l[j]);
    }
  }

  /** Without an instant, the ledger lists all and only the versions of the subject, in the same order. */
  lemma SubjectListIsExact(rows: seq<Row>, subject: string, d: Document)
    ensures d in BySubject(rows, subject) <==> (exists r :: r in rows && r.document == d) && d.subject == subject
    ensures var l := BySubject(rows, subject);
      |l| == |Keep(Documents(rows), About(subject))| && forall i, j :: 0 <= i < j < |l| ==> ListedBefore(l[i], l[j])
  {
    hide DocumentOrder;
    hide ListedBefore;
    hide TotalPreorder;
    DocumentOrderIsTotal();
    var found := Keep(Documents(rows), About(subject));
    SortOrdered(found, DocumentOrder());
    SortKeeps(found, DocumentOrder());
    var l := BySubject(rows, subject);
    SameItems(found, l);
    hide SortBy;
    KeepIsFilter(Documents(rows), About(subject));
    InDocuments(rows, d);
    forall i, j | 0 <= i < j < |l|
      ensures ListedBefore(l[i], l[j])
    {
      DocumentOrderIs(l[i], l[j]);
    }
  }

  lemma InDocuments(rows: seq<Row>, d: Document)
    ensures d in Documents(rows) <==> exists r :: r in rows && r.document == d
  {
    if r :| r in rows && r.document == d {
      var i :| 0 <= i < |rows| && rows[i] == r;
      assert Documents(rows)[i] == d;
    }
    if d in Documents(rows) {
      var i :| 0 <= i < |rows| && Documents(rows)[i] == d;
      assert rows[i] in rows;
    }
  }

  /** `wide` admits whatever `narrow` admits. */
  predicate Widens(wide: Boundary, narrow: Boundary)
  {
    narrow.asOf <= wide.asOf && (wide.mode == HistoricalReconstruction || narrow.mode == LiveSystemReplay)
  }

  /**
   A narrower listing is the wider one with the later knowledge struck out, order included. So live replay
   is inside historical reconstruction, and both grow with the instant.
   */
  lemma ListingsNest(rows: seq<Row>, hash: Bytes -> string, subject: string, narrow: Boundary, wide: Boundary)
    requires ValidRows(rows, hash) && Widens(wide, narrow)
    ensures Listing(rows, subject, narrow) == Keep(Listing(rows, subject, wide), Within(narrow))
  {
    hide KeysDistinct;
    hide ValidRows;
    hide DocumentOrder;
    hide TotalPreorder;
    hide Listing;
    DocumentOrderIsTotal();
    ListingSortsSelected(rows, hash, subject, narrow);
    ListingSortsSelected(rows, hash, subject, wide);
    SelectedIsDistinct(rows, hash, subject, wide);
    FilterSorted(Selected(rows, subject, wide), Within(narrow), DocumentOrder());
    KeepNarrow(Keep(Documents(rows), About(subject)), Within(narrow), Within(wide));
  }

  lemma KeepOne(d: Document, p: Document -> bool)
    ensures Keep([d], p) == if p(d) then [d] else []
  {
    assert [d][1..] == [];
  }

  lemma SelectedNext(rows: seq<Row>, r: Row, subject: string, boundary: Boundary)
    requires !(About(subject)(r.document) && Within(boundary)(r.document))
    ensures Selected(rows + [r], subject, boundary) == Selected(rows, subject, boundary)
  {
    hide Keep;
    assert Documents(rows + [r]) == Documents(rows) + [r.document];
    KeepAppend(Documents(rows), [r.document], About(subject));
    KeepOne(r.document, About(subject));
    var found := Keep(Documents(rows), About(subject));
    if About(subject)(r.document) {
      KeepAppend(found, [r.document], Within(boundary));
      KeepOne(r.document, Within(boundary));
      assert Keep(Documents(rows + [r]), About(subject)) == found + [r.document];
    } else {
      assert Keep(Documents(rows + [r]), About(subject)) == found;
    }
  }

  /** One more row leaves a listing alone unless the listing admits its document. */
  lemma RowOutsideIsUnseen(rows: seq<Row>, r: Row, hash: Bytes -> string, subject: string, boundary: Boundary)
    requires ValidRows(rows, hash) && ValidRows(rows + [r], hash)
    requires !(About(subject)(r.document) && Within(boundary)(r.document))
    ensures Listing(rows + [r], subject, boundary) == Listing(rows, subject, boundary)
  {
    hide ValidRows;
    hide DocumentOrder;
    hide Listing;
    hide Selected;
    ListingSortsSelected(rows, hash, subject, boundary);
    ListingSortsSelected(rows + [r], hash, subject, boundary);
    SelectedNext(rows, r, subject, boundary);
  }

  lemma IngestAfterIsUnseen(before: seq<Row>, after: seq<Row>, hash: Bytes -> string, newId: SourceKey -> string,
                            subject: string, instant: int)
    requires ValidRows(before, hash) && Step(before, after, hash, newId, now => now > instant)
    ensures Listing(after, subject, Boundary(instant, LiveSystemReplay))
      == Listing(before, subject, Boundary(instant, LiveSystemReplay))
  {
    hide ValidRows;
    hide Listing;
    hide Ingests;
    var draft, now, o :| ValidDraft(draft) && now > instant && Ingests(before, after, hash, newId, draft, now, o);
    IngestKeepsRows(before, after, hash, newId, draft, now, o);
    if o.Inserted? {
      RowOutsideIsUnseen(before, Row(DocumentOf(hash, newId, draft, now), draft.content), hash, subject,
        Boundary(instant, LiveSystemReplay));
    }
  }

  /**
   No look-ahead: once the clock has passed an instant, no run of ingestions, however long, changes what
   live replay lists at that instant, nor the order it lists it in.
   */
  lemma {:induction false} LiveListingIsFixed(tables: seq<seq<Row>>, hash: Bytes -> string, newId: SourceKey -> string,
                                              subject: string, instant: int)
    requires Run(tables, hash, newId, now => now > instant) && ValidRows(tables[0], hash)
    ensures Listing(tables[|tables| - 1], subject, Boundary(instant, LiveSystemReplay))
         == Listing(tables[0], subject, Boundary(instant, LiveSystemReplay))
    decreases |tables|
  {
    hide ValidRows;
    hide Listing;
    hide Step;
    if |tables| > 1 {
      var n := |tables| - 1;
      RunPrefix(tables, hash, newId, now => now > instant);
      RunKeepsRows(tables[..n], hash, newId, now => now > instant);
      LiveListingIsFixed(tables[..n], hash, newId, subject, instant);
      IngestAfterIsUnseen(tables[n - 1], tables[n], hash, newId, subject, instant);
    }
  }

  /** A row whose provider asserts that it was available by the instant. */
  predicate AvailableBy(d: Document, subject: string, instant: int)
  {
    d.subject == subject && d.basis == ProviderAsserted && d.availableAt <= instant
  }

  /** Rows ingested after the instant: whatever is only observed at ingestion becomes available later than it. */
  ghost predicate ObservedLater(rows: seq<Row>, instant: int)
  {
    forall r :: r in rows && r.document.basis == ObservedAtIngestion ==> r.document.availableAt > instant
  }

  lemma StepAddsLater(before: seq<Row>, after: seq<Row>, hash: Bytes -> string, newId: SourceKey -> string,
                      instant: int)
    requires ValidRows(before, hash) && Step(before, after, hash, newId, now => now > instant)
    ensures before <= after && ObservedLater(after[|before|..], instant)
  {
    hide ValidRows;
    hide Ingests;
    var draft, now, o :| ValidDraft(draft) && now > instant && Ingests(before, after, hash, newId, draft, now, o);
    IngestKeepsRows(before, after, hash, newId, draft, now, o);
  }

  lemma {:induction false} RunAddsLater(tables: seq<seq<Row>>, hash: Bytes -> string, newId: SourceKey -> string,
                                        instant: int)
    requires Run(tables, hash, newId, now => now > instant) && ValidRows(tables[0], hash)
    ensures tables[0] <= tables[|tables| - 1] && ObservedLater(tables[|tables| - 1][|tables[0]|..], instant)
    decreases |tables|
  {
    hide ValidRows;
    hide Step;
    hide ObservedLater;
    if |tables| > 1 {
      var n := |tables| - 1;
      RunPrefix(tables, hash, newId, now => now > instant);
      RunKeepsRows(tables[..n], hash, newId, now => now > instant);
      RunAddsLater(tables[..n], hash, newId, instant);
      StepAddsLater(tables[n - 1], tables[n], hash, newId, instant);
      TailsJoin(tables[0], tables[n - 1], tables[n], instant);
    } else {
      NothingLater(tables[0], instant);
    }
  }

  lemma NothingLater(rows: seq<Row>, instant: int)
    ensures ObservedLater(rows[|rows|..], instant)
  {
  }

  lemma TailsJoin(first: seq<Row>, middle: seq<Row>, last: seq<Row>, instant: int)
    requires first <= middle <= last
    requires ObservedLater(middle[|first|..], instant) && ObservedLater(last[|middle|..], instant)
    ensures ObservedLater(last[|first|..], instant)
  {
    assert last[|first|..] == middle[|first|..] + last[|middle|..];
  }

  lemma PrefixIsValid(rows: seq<Row>, n: nat, hash: Bytes -> string)
    requires ValidRows(rows, hash) && n <= |rows|
    ensures ValidRows(rows[..n], hash)
  {
  }

  /** More rows leave a listing alone as long as it admits none of their documents. */
  lemma {:induction false} RowsOutsideAreUnseen(rows: seq<Row>, n: nat, hash: Bytes -> string, subject: string,
                                                boundary: Boundary)
    requires ValidRows(rows, hash) && n <= |rows|
    requires forall r :: r in rows[n..] ==> !(About(subject)(r.document) && Within(boundary)(r.document))
    ensures Listing(rows, subject, boundary) == Listing(rows[..n], subject, boundary)
    decreases |rows|
  {
    hide ValidRows;
    hide Listing;
    hide About;
    hide Within;
    if n < |rows| {
      var init, last := rows[..|rows| - 1], rows[|rows| - 1];
      assert rows == init + [last] && last in rows[n..];
      assert forall r :: r in init[n..] ==> r in rows[n..];
      PrefixIsValid(rows, |rows| - 1, hash);
      RowsOutsideAreUnseen(init, n, hash, subject, boundary);
      RowOutsideIsUnseen(init, last, hash, subject, boundary);
      assert init[..n] == rows[..n];
    } else {
      assert rows[..n] == rows;
    }
  }

  /** A document of a row added later was listed nowhere before. */
  lemma AddedIsSeen(before: seq<Row>, after: seq<Row>, hash: Bytes -> string, subject: string, instant: int, r: Row)
    requires ValidRows(after, hash) && before <= after && r in after[|before|..]
    requires AvailableBy(r.document, subject, instant)
    ensures var boundary := Boundary(instant, HistoricalReconstruction);
      r.document in Listing(after, subject, boundary) && r.document !in Listing(before, subject, boundary)
  {
    hide Listing;
    hide DocumentOrder;
    var n := |before|;
    assert before == after[..n];
    PrefixIsValid(after, n, hash);
    ListingIsExact(after, hash, subject, Boundary(instant, HistoricalReconstruction), r.document);
    ListingIsExact(before, hash, subject, Boundary(instant, HistoricalReconstruction), r.document);
    var j :| 0 <= j < |after[n..]| && after[n..][j] == r;
    assert after[n + j] == r;
    forall q | q in before
      ensures q.document != r.document
    {
      var i :| 0 <= i < n && before[i] == q;
      assert after[i] == q;
    }
    hide ValidRows;
  }

  /**
   Historical reconstruction is not fixed: after a run of later ingestions the listing at the instant differs
   if and only if some row the run added is, by its provider's assertion, available by then.
   */
  lemma BackfillIff(tables: seq<seq<Row>>, hash: Bytes -> string, newId: SourceKey -> string, subject: string,
                    instant: int)
    requires Run(tables, hash, newId, now => now > instant) && ValidRows(tables[0], hash)
    ensures tables[0] <= tables[|tables| - 1]
    ensures var boundary := Boundary(instant, HistoricalReconstruction);
      Listing(tables[|tables| - 1], subject, boundary) != Listing(tables[0], subject, boundary)
      <==> exists r :: r in tables[|tables| - 1][|tables[0]|..] && AvailableBy(r.document, subject, instant)
  {
    hide ValidRows;
    hide Step;
    hide Listing;
    var before, after := tables[0], tables[|tables| - 1];
    RunKeepsRows(tables, hash, newId, now => now > instant);
    RunAddsLater(tables, hash, newId, instant);
    if r :| r in after[|before|..] && AvailableBy(r.document, subject, instant) {
      AddedIsSeen(before, after, hash, subject, instant, r);
    } else {
      assert after[..|before|] == before;
      RowsOutsideAreUnseen(after, |before|, hash, subject, Boundary(instant, HistoricalReconstruction));
    }
  }

  /** A report its provider says was available at 3. */
  const LATE_REPORT := Draft(SourceKey("provider", "report", "1"), "company", "", ProviderAsserted, Some(3), [1])

  function LateRow(hash: Bytes -> string, newId: SourceKey -> string): Row
  {
    Row(DocumentOf(hash, newId, LATE_REPORT, 9), LATE_REPORT.content)
  }

  lemma LateReportIsIngested(hash: Bytes -> string, newId: SourceKey -> string)
    ensures Step([], [LateRow(hash, newId)], hash, newId, now => now > 5) && ValidRows([], hash)
    ensures AvailableBy(LateRow(hash, newId).document, "company", 5)
  {
    var row := LateRow(hash, newId);
    assert [] + [row] == [row];
    assert Ingests([], [row], hash, newId, LATE_REPORT, 9, Inserted(row.document));
    hide Ingests;
  }

  /** Ingested only at 9, the report joins the historical listing at 5, which was empty before. */
  lemma LateReportIsBackfilled(hash: Bytes -> string, newId: SourceKey -> string) returns (tables: seq<seq<Row>>)
    ensures Run(tables, hash, newId, now => now > 5) && tables[0] == [] && ValidRows(tables[0], hash)
    ensures var boundary := Boundary(5, HistoricalReconstruction);
      Listing(tables[|tables| - 1], "company", boundary) != Listing(tables[0], "company", boundary)
  {
    hide Listing;
    hide Step;
    hide ValidRows;
    hide LateRow;
    hide AvailableBy;
    var row := LateRow(hash, newId);
    tables := [[], [row]];
    LateReportIsIngested(hash, newId);
    BackfillIff(tables, hash, newId, "company", 5);
    assert row in tables[1][|tables[0]|..];
  }

  // ---------------------------------------------------------------- retries

  /** After any run, appending the same version again answers with the first stored document and its first timestamp. */
  lemma RetryReturnsFirst(tables: seq<seq<Row>>, hash: Bytes -> string, newId: SourceKey -> string, when: int -> bool,
                          first: Row, retry: Document, after: seq<Row>, o: Outcome)
    requires Run(tables, hash, newId, when) && ValidRows(tables[0], hash) && first in tables[0]
    requires SameSignature(first.document, retry)
    requires Writes(tables[|tables| - 1], after, hash, retry, first.content, o)
    ensures o == AlreadyPresent(first.document) && after == tables[|tables| - 1]
  {
    hide Step;
    var last := tables[|tables| - 1];
    RunKeepsRows(tables, hash, newId, when);
    assert first in last;
    forall a | a in last && a.document.key == first.document.key
      ensures a == first
    {
      OneRowPerKey(last, hash, a, first);
    }
    assert first.document.size == |first.content| && first.document.hash == hash(first.content);
    hide ValidRows;
  }

  /**
   Ingesting the same draft again is a no-op exactly when the provider asserted its availability or the clock
   has not moved; an observed-at-ingestion source met again later is a version conflict.
   */
  lemma ReingestIff(table: seq<Row>, after: seq<Row>, hash: Bytes -> string, newId: SourceKey -> string, draft: Draft,
                    first: int, now: int, o: Outcome)
    requires ValidRows(table, hash) && ValidDraft(draft) && first <= now
    requires Row(DocumentOf(hash, newId, draft, first), draft.content) in table
    requires Ingests(table, after, hash, newId, draft, now, o)
    ensures after == table
    ensures o == AlreadyPresent(DocumentOf(hash, newId, draft, first)) <==>
      draft.basis == ProviderAsserted || now == first
    ensures o == Rejected(VersionConflict) <==> draft.basis == ObservedAtIngestion && now > first
  {
    var stored := Row(DocumentOf(hash, newId, draft, first), draft.content);
    forall a | a in table && a.document.key == draft.key
      ensures a == stored
    {
      OneRowPerKey(table, hash, a, stored);
    }
    assert ValidDocument(stored.document);
    hide ValidRows;
  }

  /** With injective identifiers an ingestion fails only on its timestamp or on a version conflict. */
  lemma IngestFailsOnlyOn(before: seq<Row>, after: seq<Row>, hash: Bytes -> string, newId: SourceKey -> string,
                          draft: Draft, now: int, o: Outcome)
    requires forall a, b :: newId(a) == newId(b) ==> a == b
    requires forall r :: r in before ==> r.document.id == newId(r.document.key)
    requires ValidDraft(draft) && Ingests(before, after, hash, newId, draft, now, o)
    ensures o.Rejected? ==> o.reason == RecordedBeforeAvailable || o.reason == VersionConflict
    ensures o == Rejected(RecordedBeforeAvailable) <==> draft.basis == ProviderAsserted && now < draft.availableAt.value
    ensures forall r :: r in after ==> r.document.id == newId(r.document.key)
  {
    if exists r :: r in before && r.document.id == newId(draft.key) {
      assert HasKey(before, draft.key);
    }
  }
}
