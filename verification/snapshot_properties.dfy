/**
  Properties of the snapshot operations: what each append changes and what it
  leaves alone, how the flattened item list and the per-section counts agree,
  and how the as-written named-section append differs from the intended one.
 */
module SnapshotProperties {
  import opened Snapshots

  // ---------------------------------------------------------------------------
  // Sections

  /** Reference definition of a batch append: one single-item append per item. */
  function AppendEach<S, I>(sec: Section<S, I>, items: seq<I>): Section<S, I>
    decreases |items|
  {
    if |items| == 0 then sec else AppendEach(AppendRow(sec, items[0]), items[1..])
  }

  /** Appending a batch is the same as appending its items one at a time. */
  lemma {:induction false} AppendRowsIsRepeatedAppendRow<S, I>(sec: Section<S, I>, items: seq<I>)
    ensures AppendRows(sec, items) == AppendEach(sec, items)
    decreases |items|
  {
    if |items| > 0 {
      AppendRowsIsRepeatedAppendRow(AppendRow(sec, items[0]), items[1..]);
      assert sec.rows + [items[0]] + items[1..] == sec.rows + items;
    }
  }

  // ---------------------------------------------------------------------------
  // Flattened items and coordinates

  /** The coordinate of the `i`-th flattened item, searching the first `n` sections. */
  function LocateFrom<S, I>(snap: Snapshot<S, I>, i: nat, n: nat): (ip: IndexPath)
    requires n <= NumberOfSections(snap)
    requires i < SumOfSectionCounts(snap, n)
    ensures 0 <= ip.section < n
    ensures 0 <= ip.row < NumberOfItemsInSection(snap, ip.section)
    ensures SumOfSectionCounts(snap, ip.section) + ip.row == i
  {
    if i >= SumOfSectionCounts(snap, n - 1) then
      IndexPath(n - 1, i - SumOfSectionCounts(snap, n - 1))
    else
      LocateFrom(snap, i, n - 1)
  }

  /** Every flattened item is reached by `item(for:)` at some valid
      coordinate: the offset map from coordinates to positions is onto, and
      the item found there is the flattened item. That the coordinate is the
      only one is `CoordinatesAreDistinct`. */
  lemma FlatIndexRoundTrip<S, I>(snap: Snapshot<S, I>, i: nat)
    requires i < NumberOfItems(snap)
    ensures var ip := LocateFrom(snap, i, NumberOfSections(snap));
            && 0 <= ip.section < NumberOfSections(snap)
            && 0 <= ip.row < NumberOfItemsInSection(snap, ip.section)
            && ItemFor(snap, ip) == ItemIdentifiers(snap)[i]
  {
  }

  /** Reference definition of the flattening, front to back: the first
      section's rows, then the flattening of the rest. */
  function ConcatRows<S, I>(layout: seq<Section<S, I>>): seq<I>
  {
    if |layout| == 0 then [] else layout[0].rows + ConcatRows(layout[1..])
  }

  lemma {:induction false} ConcatRowsAppend<S, I>(a: seq<Section<S, I>>, b: seq<Section<S, I>>)
    ensures ConcatRows(a + b) == ConcatRows(a) + ConcatRows(b)
  {
    if |a| > 0 {
      assert (a + b)[1..] == a[1..] + b;
      ConcatRowsAppend(a[1..], b);
      ConcatAssoc(a[0].rows, ConcatRows(a[1..]), ConcatRows(b), ConcatRows(a[1..]) + ConcatRows(b));
    } else {
      assert a + b == b;
    }
  }

  lemma {:induction false} FlattenPrefixIsConcatRows<S, I>(snap: Snapshot<S, I>, n: nat)
    requires n <= |snap.layout|
    ensures FlattenPrefix(snap, n) == ConcatRows(snap.layout[..n])
  {
    if n > 0 {
      FlattenPrefixIsConcatRows(snap, n - 1);
      assert snap.layout[..n] == snap.layout[..n - 1] + [snap.layout[n - 1]];
      ConcatRowsAppend(snap.layout[..n - 1], [snap.layout[n - 1]]);
      assert ConcatRows([snap.layout[n - 1]]) == snap.layout[n - 1].rows + [];
    }
  }

  /** `itemIdentifiers` is the front-to-back concatenation of every section's
      rows, in layout order. */
  lemma ItemIdentifiersIsConcatenation<S, I>(snap: Snapshot<S, I>)
    ensures ItemIdentifiers(snap) == ConcatRows(snap.layout)
  {
    FlattenPrefixIsConcatRows(snap, |snap.layout|);
    assert snap.layout[..|snap.layout|] == snap.layout;
  }

  /** `numberOfItems(inSection: s)` counts exactly the flattened positions that
      belong to section `s`: position `i` is located in section `s` if and only
      if it lies in the block of that many positions after the earlier sections. */
  lemma SectionCountIsBlockOfPositions<S, I>(snap: Snapshot<S, I>, s: nat, i: nat)
    requires s < NumberOfSections(snap)
    requires i < NumberOfItems(snap)
    ensures LocateFrom(snap, i, NumberOfSections(snap)).section == s
            <==> SumOfSectionCounts(snap, s) <= i < SumOfSectionCounts(snap, s) + NumberOfItemsInSection(snap, s)
  {
    var ip := LocateFrom(snap, i, NumberOfSections(snap));
    var base := SumOfSectionCounts(snap, s);
    if base <= i < base + NumberOfItemsInSection(snap, s) && ip.section != s {
      CoordinatesAreDistinct(snap, ip, IndexPath(s, i - base));
    }
  }

  /** Different valid coordinates name different flattened positions. */
  lemma {:induction false} CoordinatesAreDistinct<S, I>(snap: Snapshot<S, I>, a: IndexPath, b: IndexPath)
    requires 0 <= a.section < NumberOfSections(snap)
    requires 0 <= a.row < NumberOfItemsInSection(snap, a.section)
    requires 0 <= b.section < NumberOfSections(snap)
    requires 0 <= b.row < NumberOfItemsInSection(snap, b.section)
    requires a != b
    ensures SumOfSectionCounts(snap, a.section) + a.row != SumOfSectionCounts(snap, b.section) + b.row
  {
    if a.section < b.section {
      SumIsMonotone(snap, a.section + 1, b.section);
    } else if b.section < a.section {
      SumIsMonotone(snap, b.section + 1, a.section);
    }
  }

  lemma {:induction false} SumIsMonotone<S, I>(snap: Snapshot<S, I>, m: nat, n: nat)
    requires m <= n <= NumberOfSections(snap)
    ensures SumOfSectionCounts(snap, m) <= SumOfSectionCounts(snap, n)
  {
    if m < n {
      SumIsMonotone(snap, m, n - 1);
    }
  }

  // ---------------------------------------------------------------------------
  // Appending items to one section

  /** Appending to section `k` leaves the flattening of the sections before it alone. */
  lemma AppendToSectionAtBefore<S, I>(snap: Snapshot<S, I>, k: nat, ids: seq<I>)
    requires k < |snap.layout|
    ensures FlattenPrefix(AppendToSectionAt(snap, k, ids), k + 1) == FlattenPrefix(snap, k + 1) + ids
  {
    var r := AppendToSectionAt(snap, k, ids);
    FlattenPrefixAgree(r, snap, k);
    assert FlattenPrefix(r, k + 1) == FlattenPrefix(r, k) + r.layout[k].rows;
  }

  /** Appending to section `k` splices the new items into the flattened list
      right after the old rows of section `k`. */
  lemma {:induction false} AppendToSectionAtFlatten<S, I>(snap: Snapshot<S, I>, k: nat, ids: seq<I>, n: nat)
    requires k < n <= |snap.layout|
    ensures SumOfSectionCounts(snap, k + 1) <= |FlattenPrefix(snap, n)|
    ensures FlattenPrefix(AppendToSectionAt(snap, k, ids), n)
            == FlattenPrefix(snap, n)[..SumOfSectionCounts(snap, k + 1)]
               + ids
               + FlattenPrefix(snap, n)[SumOfSectionCounts(snap, k + 1)..]
  {
    FlattenPrefixIsPrefix(snap, k + 1, n);
    if n == k + 1 {
      AppendToSectionAtBefore(snap, k, ids);
      SpliceAtEnd(FlattenPrefix(snap, n), ids);
    } else {
      AppendToSectionAtFlatten(snap, k, ids, n - 1);
      SpliceExtends(FlattenPrefix(snap, n - 1), snap.layout[n - 1].rows, ids, SumOfSectionCounts(snap, k + 1));
      assert AppendToSectionAt(snap, k, ids).layout[n - 1] == snap.layout[n - 1];
    }
  }

  /** Splicing `ids` in at the very end is appending them. */
  lemma SpliceAtEnd<T>(f: seq<T>, ids: seq<T>)
    ensures f[..|f|] + ids + f[|f|..] == f + ids
  {
    assert f[..|f|] == f;
    assert f[|f|..] == [];
  }

  /** Splicing `ids` in at `p` commutes with extending the sequence at its end. */
  lemma SpliceExtends<T>(f: seq<T>, rows: seq<T>, ids: seq<T>, p: nat)
    requires p <= |f|
    ensures (f + rows)[..p] + ids + (f + rows)[p..] == f[..p] + ids + f[p..] + rows
  {
    assert (f + rows)[..p] == f[..p];
    assert (f + rows)[p..] == f[p..] + rows;
  }

  /** Appending to section `k` keeps every section identifier. */
  lemma AppendToSectionAtIdentifiers<S, I>(snap: Snapshot<S, I>, k: nat, ids: seq<I>)
    requires k < NumberOfSections(snap)
    ensures SectionIdentifiers(AppendToSectionAt(snap, k, ids)) == SectionIdentifiers(snap)
  {
    var a, b := SectionIdentifiers(AppendToSectionAt(snap, k, ids)), SectionIdentifiers(snap);
    assert forall i :: 0 <= i < |a| ==> a[i] == b[i];
  }

  /** Appending to section `k` adds exactly `ids` to the flattened items,
      right after the old rows of section `k`. */
  lemma AppendToSectionAtItems<S, I>(snap: Snapshot<S, I>, k: nat, ids: seq<I>)
    requires k < NumberOfSections(snap)
    ensures SumOfSectionCounts(snap, k + 1) <= NumberOfItems(snap)
    ensures ItemIdentifiers(AppendToSectionAt(snap, k, ids))
            == ItemIdentifiers(snap)[..SumOfSectionCounts(snap, k + 1)]
               + ids
               + ItemIdentifiers(snap)[SumOfSectionCounts(snap, k + 1)..]
    ensures NumberOfItems(AppendToSectionAt(snap, k, ids)) == NumberOfItems(snap) + |ids|
  {
    AppendToSectionAtFlatten(snap, k, ids, |snap.layout|);
  }

  /** The `j`-th appended item is found by `item(for:)` just after the old rows. */
  lemma AppendToSectionAtVisible<S, I>(snap: Snapshot<S, I>, k: nat, ids: seq<I>, j: nat)
    requires k < NumberOfSections(snap)
    requires j < |ids|
    ensures NumberOfItemsInSection(AppendToSectionAt(snap, k, ids), k) == NumberOfItemsInSection(snap, k) + |ids|
    ensures ItemFor(AppendToSectionAt(snap, k, ids), IndexPath(k, NumberOfItemsInSection(snap, k) + j)) == ids[j]
  {
  }

  /** What appending to section `k` changes: section `k` gains `ids` at its
      end, which become visible through `item(for:)`; every other section,
      every section identifier and every other item stays as it was. */
  lemma AppendToSectionAtEffect<S, I>(snap: Snapshot<S, I>, k: nat, ids: seq<I>)
    requires k < NumberOfSections(snap)
    ensures var r := AppendToSectionAt(snap, k, ids);
            var p := SumOfSectionCounts(snap, k + 1);
            && SectionIdentifiers(r) == SectionIdentifiers(snap)
            && NumberOfItemsInSection(r, k) == NumberOfItemsInSection(snap, k) + |ids|
            && (forall j :: 0 <= j < NumberOfSections(snap) && j != k ==>
                  NumberOfItemsInSection(r, j) == NumberOfItemsInSection(snap, j))
            && NumberOfItems(r) == NumberOfItems(snap) + |ids|
            && p <= NumberOfItems(snap)
            && ItemIdentifiers(r) == ItemIdentifiers(snap)[..p] + ids + ItemIdentifiers(snap)[p..]
            && (forall j :: 0 <= j < |ids| ==>
                  ItemFor(r, IndexPath(k, NumberOfItemsInSection(snap, k) + j)) == ids[j])
  {
    AppendToSectionAtIdentifiers(snap, k, ids);
    AppendToSectionAtItems(snap, k, ids);
    forall j | 0 <= j < |ids|
      ensures ItemFor(AppendToSectionAt(snap, k, ids), IndexPath(k, NumberOfItemsInSection(snap, k) + j)) == ids[j]
    {
      AppendToSectionAtVisible(snap, k, ids, j);
    }
  }

  /** `appendItems` with no section identifier: the first section gains the
      items at its end; nothing else changes. */
  lemma AppendItemsToFirstSection<S, I>(snap: Snapshot<S, I>, ids: seq<I>)
    requires NumberOfSections(snap) > 0
    ensures AppendItems(snap, ids, None).Ok?
    ensures var r := AppendItems(snap, ids, None).value;
            var c := NumberOfItemsInSection(snap, 0);
            && SectionIdentifiers(r) == SectionIdentifiers(snap)
            && r.layout[0].rows == snap.layout[0].rows + ids
            && r.layout[1..] == snap.layout[1..]
            && NumberOfItems(r) == NumberOfItems(snap) + |ids|
            && c <= NumberOfItems(snap)
            && ItemIdentifiers(r) == ItemIdentifiers(snap)[..c] + ids + ItemIdentifiers(snap)[c..]
  {
    AppendToSectionAtEffect(snap, 0, ids);
    var r := AppendItems(snap, ids, None).value;
    assert r.layout[1..] == snap.layout[1..];
  }

  /** `appendItems` to an existing named section, as written: the stored
      layout is returned unchanged, so the items are lost. */
  lemma AppendItemsToNamedSectionIsLost<S, I>(snap: Snapshot<S, I>, ids: seq<I>, sid: S)
    requires sid in SectionIdentifiers(snap)
    ensures AppendItems(snap, ids, Some(sid)) == Ok(snap)
    ensures NumberOfItems(AppendItems(snap, ids, Some(sid)).value) == NumberOfItems(snap)
  {
  }

  /** A concrete instance of the lost append: one section `7`, one item `1`
      appended to it by name, and the snapshot still holds no items, while
      the intended version holds that item at (0, 0). */
  lemma AppendItemsLostExample()
    ensures var snap := AppendSections(Empty<int, int>(), [7]);
            && AppendItems(snap, [1], Some(7)).Ok?
            && NumberOfItems(AppendItems(snap, [1], Some(7)).value) == 0
            && AppendItemsIntended(snap, [1], Some(7)).Ok?
            && NumberOfItems(AppendItemsIntended(snap, [1], Some(7)).value) == 1
  {
    var snap := AppendSections(Empty<int, int>(), [7]);
    assert snap.layout == [Section(7, [])];
    assert SectionIdentifiers(snap) == [7];
    assert AppendItemsIntended(snap, [1], Some(7)) == Ok(AppendToSectionAt(snap, 0, [1]));
    AppendToSectionAtItems(snap, 0, [1]);
  }

  /** `appendItems` to an existing named section, as intended: the first
      section with that identifier keeps its old rows and gains the items at
      its end, they are spliced into `itemIdentifiers` right after that
      section's old rows, and they are visible through
      `numberOfItems(inSection:)` and `item(for:)`. */
  lemma AppendItemsIntendedToNamedSection<S, I>(snap: Snapshot<S, I>, ids: seq<I>, sid: S)
    requires sid in SectionIdentifiers(snap)
    ensures AppendItemsIntended(snap, ids, Some(sid)).Ok?
    ensures var r := AppendItemsIntended(snap, ids, Some(sid)).value;
            var k := FirstSectionIndex(snap, sid).value;
            && r.layout[k].id == sid
            && r.layout[k].rows == snap.layout[k].rows + ids
            && NumberOfItemsInSection(r, k) == NumberOfItemsInSection(snap, k) + |ids|
            && (forall j :: 0 <= j < NumberOfSections(snap) && j != k ==> r.layout[j] == snap.layout[j])
            && NumberOfItems(r) == NumberOfItems(snap) + |ids|
            && SumOfSectionCounts(snap, k + 1) <= NumberOfItems(snap)
            && ItemIdentifiers(r)
               == ItemIdentifiers(snap)[..SumOfSectionCounts(snap, k + 1)]
                  + ids
                  + ItemIdentifiers(snap)[SumOfSectionCounts(snap, k + 1)..]
            && (forall j :: 0 <= j < |ids| ==>
                  ItemFor(r, IndexPath(k, NumberOfItemsInSection(snap, k) + j)) == ids[j])
  {
    var k := FirstSectionIndex(snap, sid).value;
    var r := AppendToSectionAt(snap, k, ids);
    assert AppendItemsIntended(snap, ids, Some(sid)) == Ok(r);
    AppendToSectionAtItems(snap, k, ids);
    assert ItemIdentifiers(r)
           == ItemIdentifiers(snap)[..SumOfSectionCounts(snap, k + 1)]
              + ids
              + ItemIdentifiers(snap)[SumOfSectionCounts(snap, k + 1)..];
    forall j | 0 <= j < |ids|
      ensures ItemFor(r, IndexPath(k, NumberOfItemsInSection(snap, k) + j)) == ids[j]
    {
      AppendToSectionAtVisible(snap, k, ids, j);
    }
  }

  /** The intended version only differs from the written one on the named
      branch: without a section identifier, or naming the first section,
      both append to the first section. */
  lemma AppendItemsIntendedAgreesOnFirstSection<S, I>(snap: Snapshot<S, I>, ids: seq<I>)
    ensures AppendItemsIntended(snap, ids, None) == AppendItems(snap, ids, None)
    ensures NumberOfSections(snap) > 0 ==>
              AppendItemsIntended(snap, ids, Some(snap.layout[0].id)) == AppendItems(snap, ids, None)
  {
  }

  /** Two intended appends to the same section equal one append of both batches. */
  lemma AppendItemsIntendedConcat<S, I>(snap: Snapshot<S, I>, a: seq<I>, b: seq<I>, toSection: Option<S>)
    requires AppendItemsIntended(snap, a, toSection).Ok?
    ensures AppendItemsIntended(AppendItemsIntended(snap, a, toSection).value, b, toSection)
            == AppendItemsIntended(snap, a + b, toSection)
  {
    var s1 := AppendItemsIntended(snap, a, toSection).value;
    assert SectionIdentifiers(s1) == SectionIdentifiers(snap);
    var k := if toSection.None? then 0 else FirstSectionIndex(snap, toSection.value).value;
    if toSection.Some? {
      assert FirstSectionIndex(s1, toSection.value) == Some(k);
    }
    assert s1.layout[k].rows + b == snap.layout[k].rows + (a + b);
    assert AppendToSectionAt(s1, k, b).layout == AppendToSectionAt(snap, k, a + b).layout;
  }

  // ---------------------------------------------------------------------------
  // Appending sections

  /** `appendSections` puts its identifiers, in order, after the existing ones. */
  lemma {:induction false} AppendSectionsIdentifiers<S, I>(snap: Snapshot<S, I>, ids: seq<S>)
    ensures SectionIdentifiers(AppendSections(snap, ids)) == SectionIdentifiers(snap) + ids
  {
    var r := AppendSections(snap, ids);
    var n := |snap.layout|;
    var before, after := SectionIdentifiers(snap) + ids, SectionIdentifiers(r);
    forall i | 0 <= i < |after|
      ensures after[i] == before[i]
    {
      if i < n {
        assert r.layout[i] == r.layout[..n][i];
      } else {
        assert r.layout[n + (i - n)] == Section(ids[i - n], []);
      }
    }
  }

  /** `appendSections` leaves the flattened items, and so their count, alone:
      the sections it adds are empty. */
  lemma {:induction false} AppendSectionsItems<S, I>(snap: Snapshot<S, I>, ids: seq<S>)
    ensures ItemIdentifiers(AppendSections(snap, ids)) == ItemIdentifiers(snap)
    ensures NumberOfItems(AppendSections(snap, ids)) == NumberOfItems(snap)
  {
    var r := AppendSections(snap, ids);
    var n := |snap.layout|;
    assert |r.layout| == n + |ids|;
    forall i | 0 <= i < n
      ensures r.layout[i] == snap.layout[i]
    {
      assert r.layout[i] == r.layout[..n][i];
    }
    forall i | n <= i < n + |ids|
      ensures r.layout[i].rows == []
    {
    }
    FlattenPrefixEmptyTail(snap, r, n, |ids|);
  }

  /** `appendSections` adds its identifiers, in order, after the existing
      section identifiers, each as an empty section; the items are unchanged. */
  lemma {:induction false} AppendSectionsViews<S, I>(snap: Snapshot<S, I>, ids: seq<S>)
    ensures SectionIdentifiers(AppendSections(snap, ids)) == SectionIdentifiers(snap) + ids
    ensures ItemIdentifiers(AppendSections(snap, ids)) == ItemIdentifiers(snap)
    ensures NumberOfItems(AppendSections(snap, ids)) == NumberOfItems(snap)
    ensures var r := AppendSections(snap, ids);
            forall j :: NumberOfSections(snap) <= j < NumberOfSections(r) ==> NumberOfItemsInSection(r, j) == 0
  {
    AppendSectionsIdentifiers(snap, ids);
    AppendSectionsItems(snap, ids);
    var r := AppendSections(snap, ids);
    forall j | NumberOfSections(snap) <= j < NumberOfSections(r)
      ensures NumberOfItemsInSection(r, j) == 0
    {
      assert r.layout[|snap.layout| + (j - |snap.layout|)] == Section(ids[j - |snap.layout|], []);
    }
  }

  /** Appending two batches of sections equals appending their concatenation. */
  lemma {:induction false} AppendSectionsConcat<S, I>(snap: Snapshot<S, I>, a: seq<S>, b: seq<S>)
    ensures AppendSections(AppendSections(snap, a), b) == AppendSections(snap, a + b)
  {
    var na, nb, nab := NewSections<S, I>(a), NewSections<S, I>(b), NewSections<S, I>(a + b);
    NewSectionsConcat<S, I>(a, b);
    ConcatAssoc(snap.layout, na, nb, nab);
  }

  lemma ConcatAssoc<T>(l: seq<T>, x: seq<T>, y: seq<T>, xy: seq<T>)
    requires xy == x + y
    ensures (l + x) + y == l + xy
  {
  }

  lemma {:induction false} NewSectionsConcat<S, I>(a: seq<S>, b: seq<S>)
    ensures NewSections<S, I>(a + b) == NewSections<S, I>(a) + NewSections<S, I>(b)
  {
    if |a| > 0 {
      NewSectionsConcat<S, I>(a[1..], b);
      assert (a + b)[1..] == a[1..] + b;
    } else {
      assert a + b == b;
    }
  }
}
