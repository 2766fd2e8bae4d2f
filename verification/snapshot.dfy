/**
  A model of the diffable data source snapshot: an ordered list of sections,
  each an identifier with an ordered list of item identifiers.

  The snapshot is a Swift value type, so every mutating operation
  is modelled here as a pure function from the old snapshot to the new one.
  The two `fatalError` guards of `appendItems` are modelled as an error result.
 */
module Snapshots {

  datatype Option<T> = None | Some(value: T)

  datatype Result<T, E> = Ok(value: T) | Err(error: E)

  /** The two fatal usage errors `appendItems` can raise. */
  datatype Fatal<S> =
    | NoSections               // "There are no sections in the snapshot"
    | MissingSection(id: S)    // "The snapshot does not contain section ..."

  /** A (section, row) coordinate. Both components are Swift `Int`s, modelled
      here as unbounded integers. */
  datatype IndexPath = IndexPath(section: int, row: int)

  /** One section: its identifier and its rows, in presentation order. */
  datatype Section<S, I> = Section(id: S, rows: seq<I>)

  /** The whole snapshot: the sections in presentation order. */
  datatype Snapshot<S, I> = Snapshot(layout: seq<Section<S, I>>)

  // ---------------------------------------------------------------------------
  // Section

  function NumberOfRows<S, I>(sec: Section<S, I>): nat
  {
    |sec.rows|
  }

  /** The section's subscript: the item at a row index. */
  function RowAt<S, I>(sec: Section<S, I>, index: int): I
    requires 0 <= index < NumberOfRows(sec)
  {
    sec.rows[index]
  }

  /** Appends a single item to a section. */
  function AppendRow<S, I>(sec: Section<S, I>, item: I): Section<S, I>
  {
    sec.(rows := sec.rows + [item])
  }

  /** Appends a batch of items to a section, keeping their order. */
  function AppendRows<S, I>(sec: Section<S, I>, items: seq<I>): Section<S, I>
  {
    sec.(rows := sec.rows + items)
  }

  // ---------------------------------------------------------------------------
  // Derived views

  /** The snapshot a consumer starts from: no sections at all. */
  function Empty<S, I>(): (r: Snapshot<S, I>)
    ensures NumberOfSections(r) == 0
    ensures NumberOfItems(r) == 0
  {
    Snapshot([])
  }

  /** The section identifiers, in layout order. */
  function Ids<S, I>(layout: seq<Section<S, I>>): (r: seq<S>)
    ensures |r| == |layout|
    ensures forall i :: 0 <= i < |layout| ==> r[i] == layout[i].id
  {
    if |layout| == 0 then [] else [layout[0].id] + Ids(layout[1..])
  }

  function SectionIdentifiers<S, I>(snap: Snapshot<S, I>): (r: seq<S>)
    ensures |r| == |snap.layout|
    ensures forall i :: 0 <= i < |r| ==> r[i] == snap.layout[i].id
  {
    Ids(snap.layout)
  }

  function NumberOfSections<S, I>(snap: Snapshot<S, I>): (n: nat)
    ensures n == |snap.layout|
  {
    |SectionIdentifiers(snap)|
  }

  function NumberOfItemsInSection<S, I>(snap: Snapshot<S, I>, section: int): nat
    requires 0 <= section < NumberOfSections(snap)
  {
    NumberOfRows(snap.layout[section])
  }

  /** The number of items in the first `n` sections, counted section by section. */
  function SumOfSectionCounts<S, I>(snap: Snapshot<S, I>, n: nat): nat
    requires n <= NumberOfSections(snap)
  {
    if n == 0 then 0 else SumOfSectionCounts(snap, n - 1) + NumberOfItemsInSection(snap, n - 1)
  }

  /** The rows of the first `n` sections, concatenated in layout order. */
  function FlattenPrefix<S, I>(snap: Snapshot<S, I>, n: nat): (r: seq<I>)
    requires n <= |snap.layout|
    ensures |r| == SumOfSectionCounts(snap, n)
  {
    if n == 0 then [] else FlattenPrefix(snap, n - 1) + snap.layout[n - 1].rows
  }

  /** All item identifiers: every section's rows, concatenated in layout order. */
  function ItemIdentifiers<S, I>(snap: Snapshot<S, I>): seq<I>
  {
    FlattenPrefix(snap, |snap.layout|)
  }

  /** The item count is the sum of the per-section item counts. */
  function NumberOfItems<S, I>(snap: Snapshot<S, I>): (n: nat)
    ensures n == SumOfSectionCounts(snap, NumberOfSections(snap))
  {
    |ItemIdentifiers(snap)|
  }

  /** Flattening fewer sections gives a prefix of flattening more. */
  lemma {:induction false} FlattenPrefixIsPrefix<S, I>(snap: Snapshot<S, I>, m: nat, n: nat)
    requires m <= n <= |snap.layout|
    ensures FlattenPrefix(snap, m) <= FlattenPrefix(snap, n)
  {
    if m < n {
      FlattenPrefixIsPrefix(snap, m, n - 1);
    }
  }

  /** Flattening depends only on the sections flattened. */
  lemma {:induction false} FlattenPrefixAgree<S, I>(s: Snapshot<S, I>, t: Snapshot<S, I>, n: nat)
    requires n <= |s.layout| && n <= |t.layout|
    requires forall i :: 0 <= i < n ==> s.layout[i] == t.layout[i]
    ensures FlattenPrefix(s, n) == FlattenPrefix(t, n)
  {
    if n > 0 {
      FlattenPrefixAgree(s, t, n - 1);
    }
  }

  /** Sections without rows add nothing to the flattening. */
  lemma {:induction false} FlattenPrefixEmptyTail<S, I>(s: Snapshot<S, I>, t: Snapshot<S, I>, n: nat, m: nat)
    requires n <= |s.layout| && n + m <= |t.layout|
    requires forall i :: 0 <= i < n ==> s.layout[i] == t.layout[i]
    requires forall i :: n <= i < n + m ==> t.layout[i].rows == []
    ensures FlattenPrefix(t, n + m) == FlattenPrefix(s, n)
  {
    if m == 0 {
      FlattenPrefixAgree(s, t, n);
    } else {
      FlattenPrefixEmptyTail(s, t, n, m - 1);
      AppendNothing(FlattenPrefix(t, n + m - 1), t.layout[n + m - 1].rows);
    }
  }

  lemma AppendNothing<T>(x: seq<T>, y: seq<T>)
    requires y == []
    ensures x + y == x
  {
  }

  /** Section `s` occupies a contiguous block of the flattened items, starting
      after the items of all the sections before it. */
  lemma SectionBlock<S, I>(snap: Snapshot<S, I>, s: nat)
    requires s < NumberOfSections(snap)
    ensures SumOfSectionCounts(snap, s + 1) <= NumberOfItems(snap)
    ensures ItemIdentifiers(snap)[SumOfSectionCounts(snap, s)..SumOfSectionCounts(snap, s + 1)]
            == snap.layout[s].rows
  {
    FlattenPrefixIsPrefix(snap, s + 1, |snap.layout|);
    var before := FlattenPrefix(snap, s);
    assert FlattenPrefix(snap, s + 1) == before + snap.layout[s].rows;
    assert ItemIdentifiers(snap)[..SumOfSectionCounts(snap, s + 1)] == FlattenPrefix(snap, s + 1);
  }

  // ---------------------------------------------------------------------------
  // Coordinate lookup

  /** `item(for:)`: the item at a (section, row) coordinate. It is the item
      found at the matching offset of the flattened item list. */
  function ItemFor<S, I>(snap: Snapshot<S, I>, ip: IndexPath): (r: I)
    requires 0 <= ip.section < NumberOfSections(snap)
    requires 0 <= ip.row < NumberOfItemsInSection(snap, ip.section)
    ensures SumOfSectionCounts(snap, ip.section) + ip.row < NumberOfItems(snap)
    ensures r == ItemIdentifiers(snap)[SumOfSectionCounts(snap, ip.section) + ip.row]
  {
    SectionBlock(snap, ip.section);
    RowAt(snap.layout[ip.section], ip.row)
  }

  // ---------------------------------------------------------------------------
  // Mutation

  /** The index of the first section, in layout order, whose identifier is
      `sid`; nothing when no section carries it. */
  function FirstSectionIndex<S(==), I>(snap: Snapshot<S, I>, sid: S): (r: Option<nat>)
    ensures r.None? <==> sid !in SectionIdentifiers(snap)
    ensures r.Some? ==> r.value < |snap.layout| && snap.layout[r.value].id == sid
    ensures r.Some? ==> forall j :: 0 <= j < r.value ==> snap.layout[j].id != sid
  {
    FirstFrom(snap.layout, sid, 0)
  }

  function FirstFrom<S(==), I>(layout: seq<Section<S, I>>, sid: S, from: nat): (r: Option<nat>)
    requires from <= |layout|
    ensures r.None? ==> forall j :: from <= j < |layout| ==> layout[j].id != sid
    ensures r.Some? ==> from <= r.value < |layout| && layout[r.value].id == sid
    ensures r.Some? ==> forall j :: from <= j < r.value ==> layout[j].id != sid
    decreases |layout| - from
  {
    if from == |layout| then None
    else if layout[from].id == sid then Some(from)
    else FirstFrom(layout, sid, from + 1)
  }

  /** Replaces section `k` by itself with `ids` appended; the write-back that
      appending to the first section performs. */
  function AppendToSectionAt<S, I>(snap: Snapshot<S, I>, k: nat, ids: seq<I>): (r: Snapshot<S, I>)
    requires k < |snap.layout|
    ensures |r.layout| == |snap.layout|
    ensures r.layout[k].id == snap.layout[k].id
    ensures r.layout[k].rows == snap.layout[k].rows + ids
    ensures forall j :: 0 <= j < |snap.layout| && j != k ==> r.layout[j] == snap.layout[j]
  {
    Snapshot(snap.layout[k := AppendRows(snap.layout[k], ids)])
  }

  /** `appendItems(_:toSection:)` as written. Without a section identifier the
      items go to the first section. With one, the matching section is copied
      into a local, the copy is appended to and then dropped, so the stored
      layout is returned unchanged. */
  function AppendItems<S(==), I>(snap: Snapshot<S, I>, ids: seq<I>, toSection: Option<S>)
    : (r: Result<Snapshot<S, I>, Fatal<S>>)
    ensures r.Err? <==>
              NumberOfSections(snap) == 0
              || (toSection.Some? && toSection.value !in SectionIdentifiers(snap))
    ensures r == Err(NoSections) <==> NumberOfSections(snap) == 0
    ensures r.Ok? ==> NumberOfSections(r.value) == NumberOfSections(snap)
  {
    if NumberOfSections(snap) == 0 then Err(NoSections)
    else match toSection
      case None => Ok(AppendToSectionAt(snap, 0, ids))
      case Some(sectionId) =>
        match FirstSectionIndex(snap, sectionId)
        case None => Err(MissingSection(sectionId))
        case Some(k) =>
          var mutableSection := AppendRows(snap.layout[k], ids);
          Ok(snap)
  }

  /** `appendItems(_:toSection:)` as evidently intended: the named section is
      updated in place, at the first index carrying that identifier. */
  function AppendItemsIntended<S(==), I>(snap: Snapshot<S, I>, ids: seq<I>, toSection: Option<S>)
    : (r: Result<Snapshot<S, I>, Fatal<S>>)
    ensures r.Err? <==>
              NumberOfSections(snap) == 0
              || (toSection.Some? && toSection.value !in SectionIdentifiers(snap))
    ensures r == Err(NoSections) <==> NumberOfSections(snap) == 0
    ensures r.Ok? ==> SectionIdentifiers(r.value) == SectionIdentifiers(snap)
  {
    if NumberOfSections(snap) == 0 then Err(NoSections)
    else match toSection
      case None => Ok(AppendToSectionAt(snap, 0, ids))
      case Some(sectionId) =>
        match FirstSectionIndex(snap, sectionId)
        case None => Err(MissingSection(sectionId))
        case Some(k) => Ok(AppendToSectionAt(snap, k, ids))
  }

  /** The new, empty sections `appendSections` adds, one per identifier. */
  function NewSections<S, I>(ids: seq<S>): (r: seq<Section<S, I>>)
    ensures |r| == |ids|
    ensures forall i {:trigger r[i]} :: 0 <= i < |ids| ==> r[i] == Section(ids[i], [])
  {
    if |ids| == 0 then [] else [Section(ids[0], [])] + NewSections(ids[1..])
  }

  /** `appendSections`: one new empty section per identifier, after the
      existing ones. Duplicated identifiers are accepted. */
  function AppendSections<S, I>(snap: Snapshot<S, I>, ids: seq<S>): (r: Snapshot<S, I>)
    ensures NumberOfSections(r) == NumberOfSections(snap) + |ids|
    ensures r.layout[..|snap.layout|] == snap.layout
    ensures forall j :: |snap.layout| <= j < |r.layout| ==> r.layout[j] == Section(ids[j - |snap.layout|], [])
  {
    Snapshot(snap.layout + NewSections(ids))
  }
}
