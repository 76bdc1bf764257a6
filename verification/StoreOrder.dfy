/** The candidate order: `ORDER BY collection, family_id` sorts strictly, and re-sorting is a no-op. */
module StoreOrder {
  import opened Text
  import opened StoreModel
  import opened StoreLog

  ghost predicate StrictlySorted(rows: seq<DocRow>) {
    forall i, j :: 0 <= i < j < |rows| ==> KeyLess(rows[i], rows[j])
  }

  predicate SameFamily(a: DocRow, b: DocRow) {
    a.collection == b.collection && a.family == b.family
  }

  lemma KeyTotal(a: DocRow, b: DocRow)
    ensures KeyLess(a, b) || KeyLess(b, a) || SameFamily(a, b)
    ensures !(KeyLess(a, b) && KeyLess(b, a))
    ensures KeyLess(a, b) ==> !SameFamily(a, b)
  {
    LessTotal(a.collection, b.collection);
    LessTotal(a.family, b.family);
  }

  lemma KeyTransitive(a: DocRow, b: DocRow, c: DocRow)
    requires KeyLess(a, b) && KeyLess(b, c)
    ensures KeyLess(a, c)
  {
    if Less(a.collection, b.collection) && Less(b.collection, c.collection) {
      LessTransitive(a.collection, b.collection, c.collection);
    } else if a.collection == b.collection == c.collection {
      LessTransitive(a.family, b.family, c.family);
    }
  }

  lemma InsertHolds(d: DocRow, sorted: seq<DocRow>, x: DocRow)
    requires x in Insert(d, sorted)
    ensures x == d || x in sorted
  {
    InsertKeepsRows(d, sorted);
    assert x in multiset(Insert(d, sorted));
  }

  lemma {:induction false} InsertSorts(d: DocRow, sorted: seq<DocRow>)
    requires StrictlySorted(sorted)
    requires forall i :: 0 <= i < |sorted| ==> !SameFamily(sorted[i], d)
    ensures StrictlySorted(Insert(d, sorted))
  {
    if sorted != [] {
      KeyTotal(d, sorted[0]);
      if KeyLess(d, sorted[0]) {
        forall j | 1 <= j < |sorted| ensures KeyLess(d, sorted[j]) {
          KeyTransitive(d, sorted[0], sorted[j]);
        }
      } else {
        var rest := Insert(d, sorted[1..]);
        InsertSorts(d, sorted[1..]);
        forall j | 0 <= j < |rest| ensures KeyLess(sorted[0], rest[j]) {
          InsertHolds(d, sorted[1..], rest[j]);
        }
      }
    }
  }

  ghost predicate DistinctFamilies(rows: seq<DocRow>) {
    forall i, j :: 0 <= i < j < |rows| ==> !SameFamily(rows[i], rows[j])
  }

  lemma {:induction false} SortSorts(rows: seq<DocRow>)
    requires DistinctFamilies(rows)
    ensures StrictlySorted(Sort(rows))
  {
    if rows != [] {
      var init, d := rows[..|rows| - 1], rows[|rows| - 1];
      SortSorts(init);
      SortKeepsRows(init);
      forall i | 0 <= i < |Sort(init)| ensures !SameFamily(Sort(init)[i], d) {
        assert Sort(init)[i] in multiset(Sort(init));
      }
      InsertSorts(d, Sort(init));
    }
  }

  lemma {:induction false} InsertLast(d: DocRow, sorted: seq<DocRow>)
    requires forall i :: 0 <= i < |sorted| ==> KeyLess(sorted[i], d)
    ensures Insert(d, sorted) == sorted + [d]
  {
    if sorted != [] {
      KeyTotal(d, sorted[0]);
      InsertLast(d, sorted[1..]);
      assert sorted == [sorted[0]] + sorted[1..];
    }
  }

  /** Rows stored in candidate order are read back in that order. */
  lemma {:induction false} SortOfSorted(rows: seq<DocRow>)
    requires StrictlySorted(rows)
    ensures Sort(rows) == rows
  {
    if rows != [] {
      SortOfSorted(rows[..|rows| - 1]);
      InsertLast(rows[|rows| - 1], rows[..|rows| - 1]);
    }
  }

  ghost predicate OneActive(docs: seq<DocRow>) {
    forall i, j :: 0 <= i < j < |docs| && SameFamily(docs[i], docs[j]) ==> !(docs[i].status.Active? && docs[j].status.Active?)
  }

  lemma {:induction false} SelectedAreDistinct(cfg: Config, docs: seq<DocRow>)
    requires OneActive(docs)
    ensures DistinctFamilies(SelectedRows(cfg, docs))
  {
    if docs != [] {
      var init, d := docs[..|docs| - 1], docs[|docs| - 1];
      SelectedAreDistinct(cfg, init);
      SelectedRowsAreDocs(cfg, init);
      var rows := SelectedRows(cfg, init);
      forall i | 0 <= i < |rows| && Selected(cfg, d) ensures !SameFamily(rows[i], d) {
        assert rows[i] in rows;
        var k :| 0 <= k < |init| && init[k] == rows[i];
        assert docs[k] == rows[i];
      }
    }
  }

  /** With one active version a family, the candidate lists every selected row once, strictly by
      (collection, family). */
  lemma CandidateIsSorted(cfg: Config, docs: seq<DocRow>)
    requires OneActive(docs)
    ensures StrictlySorted(CandidateRows(cfg, docs))
    ensures forall d :: d in CandidateRows(cfg, docs) <==> d in docs && Selected(cfg, d)
  {
    SelectedAreDistinct(cfg, docs);
    SortSorts(SelectedRows(cfg, docs));
    CandidateRowsAreSelected(cfg, docs);
  }
}
