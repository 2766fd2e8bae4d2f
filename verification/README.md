# DiffableDataSource snapshot, modelled in Dafny

This project models `DiffableDataSourceSnapshot`, the value type a diffable table data source is built from. A snapshot is an ordered list of sections. Each section is a section identifier with an ordered list of item identifiers (its rows). The snapshot supports:

- append-only building: `appendSections` and `appendItems(_:toSection:)`;
- derived views: `itemIdentifiers`, `sectionIdentifiers`, `numberOfItems`, `numberOfSections`;
- coordinate lookup: `item(for:)` and `numberOfItems(inSection:)`.

Files:

- `snapshot.dfy`, module `Snapshots`: the data model (`Section`, `Snapshot`, `IndexPath`) and every operation, as pure functions. The snapshot is a Swift value type, so each mutating method becomes a function from the old snapshot to the new one.
- `snapshot_properties.dfy`, module `SnapshotProperties`: lemmas relating the operations.
  - Frame properties: what an append changes and what it leaves alone.
  - Count arithmetic: how the flattened item list and the per-section counts agree.
  - The gap between the named-section append as written and as intended.

Modelling choices:

- Section and item identifiers are type parameters. Only the section identifier needs equality, for `first(where:)`.
- The two `fatalError` guards of `appendItems` become an error result: `Err(NoSections)` or `Err(MissingSection(id))`. Its contract states exactly when each error happens.
- In `item(for:)` and `numberOfItems(inSection:)`, an out-of-range subscript traps in Swift. These traps are modelled as `requires`.
- `IndexPath` is a pair of integers.

## Model

| member | source | states |
|---|---|---|
| Snapshots.Empty | Sources/DiffableDataSource/DiffableDataSourceSnapshot.swift:24 | a new snapshot has zero sections and zero items |
| Snapshots.SectionIdentifiers | Sources/DiffableDataSource/DiffableDataSourceSnapshot.swift:33 | one identifier per section; the i-th is the i-th section's id, in layout order |
| Snapshots.NumberOfSections | Sources/DiffableDataSource/DiffableDataSourceSnapshot.swift:35 | the count of section identifiers equals the number of sections in the layout |
| Snapshots.FlattenPrefix | Sources/DiffableDataSource/DiffableDataSourceSnapshot.swift:32 | concatenating the rows of the first n sections yields as many items as those sections' counts add up to |
| Snapshots.NumberOfItems | Sources/DiffableDataSource/DiffableDataSourceSnapshot.swift:34 | the total item count is the sum, over all sections, of numberOfItems(inSection:) |
| Snapshots.SectionBlock | Sources/DiffableDataSource/DiffableDataSourceSnapshot.swift:59-61 | section s's rows are exactly the contiguous block of itemIdentifiers that starts after the items of sections 0..s-1; its length is numberOfItems(inSection: s) |
| Snapshots.ItemFor | Sources/DiffableDataSource/DiffableDataSourceSnapshot.swift:26-28 | needs a section index below numberOfSections and a row below that section's count; returns the itemIdentifiers entry at the section's offset plus the row |
| Snapshots.FirstSectionIndex | Sources/DiffableDataSource/DiffableDataSourceSnapshot.swift:46 | finds nothing exactly when the id is not among sectionIdentifiers; otherwise returns the first index whose section has that id |
| Snapshots.AppendItems | Sources/DiffableDataSource/DiffableDataSourceSnapshot.swift:37-52 | fails with NoSections exactly when there are no sections, and fails otherwise exactly when a named section is missing; on success the section count is unchanged |
| Snapshots.AppendItemsIntended | Sources/DiffableDataSource/DiffableDataSourceSnapshot.swift:46-51 | same failure conditions as appendItems; on success the section identifiers are unchanged |
| Snapshots.AppendSections | Sources/DiffableDataSource/DiffableDataSourceSnapshot.swift:54-57 | numberOfSections grows by the number of ids; the old sections are an unchanged prefix; new section i carries ids[i] and no rows |
| SnapshotProperties.AppendRowsIsRepeatedAppendRow | Sources/DiffableDataSource/DiffableDataSourceSnapshot.swift:15-21 | appending a batch of items to a section equals appending them one at a time, in order |
| SnapshotProperties.ItemIdentifiersIsConcatenation | Sources/DiffableDataSource/DiffableDataSourceSnapshot.swift:32 | itemIdentifiers equals the front-to-back concatenation of every section's rows (the flatMap over the layout), defined independently of the section-count sums |
| SnapshotProperties.SectionCountIsBlockOfPositions | Sources/DiffableDataSource/DiffableDataSourceSnapshot.swift:59-61 | numberOfItems(inSection: s) counts exactly the positions of itemIdentifiers that belong to section s: a position is located in section s if and only if it lies in the block of that many positions after the earlier sections' items |
| SnapshotProperties.FlatIndexRoundTrip | Sources/DiffableDataSource/DiffableDataSourceSnapshot.swift:26-32 | every position of itemIdentifiers is reached by item(for:) at some valid coordinate |
| SnapshotProperties.CoordinatesAreDistinct | Sources/DiffableDataSource/DiffableDataSourceSnapshot.swift:26-32 | two different valid coordinates address different positions of itemIdentifiers |
| SnapshotProperties.AppendToSectionAtEffect | Sources/DiffableDataSource/DiffableDataSourceSnapshot.swift:43 | appending to section k adds the items right after section k's old rows in itemIdentifiers; section k's count grows by their number, and item(for:) finds them there; section ids and all other sections are unchanged |
| SnapshotProperties.AppendItemsToFirstSection | Sources/DiffableDataSource/DiffableDataSourceSnapshot.swift:42-44 | with no section id and at least one section: section 0's rows become old rows ++ ids; the later sections and the section ids are unchanged; numberOfItems grows by the number of ids |
| SnapshotProperties.AppendItemsToNamedSectionIsLost | Sources/DiffableDataSource/DiffableDataSourceSnapshot.swift:46-51 | as written, appending to an existing named section returns the snapshot unchanged |
| SnapshotProperties.AppendItemsLostExample | Sources/DiffableDataSource/DiffableDataSourceSnapshot.swift:50-51 | concrete case: one item appended by name to the only section leaves zero items as written, one as intended |
| SnapshotProperties.AppendItemsIntendedToNamedSection | Sources/DiffableDataSource/DiffableDataSourceSnapshot.swift:46-51 | intended named append: the first section with that id keeps its old rows and gains the items at its end; itemIdentifiers gets them spliced in right after that section's old rows, and numberOfItems grows by their number; they are visible through numberOfItems(inSection:) and item(for:); all other sections are unchanged |
| SnapshotProperties.AppendItemsIntendedAgreesOnFirstSection | Sources/DiffableDataSource/DiffableDataSourceSnapshot.swift:42-51 | the intended version and the written one agree with no section id; naming the first section's id gives the same result as naming none |
| SnapshotProperties.AppendItemsIntendedConcat | Sources/DiffableDataSource/DiffableDataSourceSnapshot.swift:37-52 | two intended appends to the same target equal one append of the concatenated batches |
| SnapshotProperties.AppendSectionsViews | Sources/DiffableDataSource/DiffableDataSourceSnapshot.swift:54-57 | after appendSections, sectionIdentifiers is the old list ++ ids; itemIdentifiers and numberOfItems are unchanged; each new section has zero items |
| SnapshotProperties.AppendSectionsConcat | Sources/DiffableDataSource/DiffableDataSourceSnapshot.swift:54-57 | appending two batches of sections equals appending their concatenation |

## Findings

| source | as written | input that shows it | evidently intended | confidence | as-written member | corrected member |
|---|---|---|---|---|---|---|
| Sources/DiffableDataSource/DiffableDataSourceSnapshot.swift:50-51 | the found section is copied into a local `var`; the items are appended to the copy and the copy is dropped, so the stored layout never changes | a snapshot with one section `7` and no items; `appendItems([1], toSection: 7)` | section `7` ends with row `1`, so `numberOfItems` is 1 | high; not executed | Snapshots.AppendItems (shown by SnapshotProperties.AppendItemsLostExample) | Snapshots.AppendItemsIntended (proved by SnapshotProperties.AppendItemsIntendedToNamedSection) |

## Left out

- The section/item diff and reconciliation engine: the Swift library contains no such code.
- `TableViewDiffableDataSource.swift`. It is a UIKit `NSObject` subclass holding only a cell-provider type alias, with no logic.
- Swift `Int` is 64-bit, but counts and offsets here are unbounded naturals. No snapshot that fits in memory comes near the overflow.
- `fatalError` terminates the process. Here it is an `Err` value, and no snapshot is produced in that case.
- The `#if canImport(UIKit)` gating and `Hashable` conformance are not modelled. Identifiers need only equality.
- Uniqueness of section or item identifiers is not required or checked, because the code never checks it. `appendSections` accepts duplicate ids, and so does the model. With duplicated section ids, the intended named append updates the first matching section, as `first(where:)` does.
- The single-item `Section.append(_:)` is never called by the snapshot. It is modelled as `AppendRow` only to relate it to the batch append.
