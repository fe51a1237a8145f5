# termdash `cell` package — a Dafny model

This project models the rendering primitive of termdash, a terminal dashboard
library. It has three parts:

- **Options and configurators** (`options.dfy`, module `CellOptions`). An
  attribute record holds a foreground colour and a background colour, and
  starts at zero (`ColorDefault`). A configurator is one deferred change to
  such a record. `FgColor(c)` and `BgColor(c)` each set one field. A complete
  record used as a configurator (`AsOption`) overwrites every field.
  `NewOptions` folds the configurators, left to right, over the empty record.
- **Cell** (`cell.dfy`, module `Cells`). A cell is a rune plus the Options
  record it owns. `New(r, opts...)` returns a new `*Cell` whose options are
  `NewOptions(opts...)`. `Apply(opts...)` folds further configurators onto the
  cell's *current* options, in place.
- **Buffer** (`buffer.dfy`, module `Buffers`). A buffer is a column-major grid
  `[][]*Cell`. `NewBuffer(size)` rejects a non-positive width or height with
  `InvalidDimension`. Otherwise it fills the grid with new cells equal to
  `New(0)`. `Size()` reads the dimensions back from the grid's shape.

The model states the behaviour that cell/cell_test.go asserts of the
package's functions; where the tests are silent, it makes no claim.

Modelling choices:

- `Color` is an enumeration of the named colours. Only equality is used.
- A configurator is the datatype `Option`, with variants `SetFg`, `SetBg` and
  `Full`.
- The fold `ApplyAll` is the one definition of "apply configurators in order".
  `NewOptions` folds over the empty record, and `Cell.Apply` is a loop proved
  equal to the fold over the old options.
- `Cell` is a class because the tests mutate a `*Cell` through `Apply`. Its
  Options record is held by value, so two cells never share one.
- `Rune` is a signed 32-bit integer, like Go's `rune`.
- `image.Point` is a pair of unbounded integers.

The general lemmas go beyond the table-driven tests. They state
last-writer-wins per field, full-record reset, composition of folds, and
idempotence of re-applying the same configurators. Each fixed test case
follows from these lemmas or from a member's contract: the TestNewBuffer and
TestBufferSize cases follow from NewBuffer's contract.

`NewBuffer` rejects a zero dimension as well as a negative one
(cell/cell_test.go:192-205): both dimensions must be positive.

## Model

| member | source | states |
|---|---|---|
| `CellOptions.Set` | cell/cell_test.go:35-62 | applying one configurator sets the fields it writes to its values and leaves every other field as it was |
| `CellOptions.FgColor` | cell/cell_test.go:35-42 | the foreground setter changes only the foreground colour, on any record |
| `CellOptions.BgColor` | cell/cell_test.go:43-51 | the background setter changes only the background colour, on any record |
| `CellOptions.AsOption` | cell/cell_test.go:112-127 | a complete Options record used as a configurator turns any record into itself |
| `CellOptions.ApplyAll` | cell/cell_test.go:67 | the definition of applying configurators in order (the fold that NewOptions, New and Apply run, lines 67, 132 and 176-177); its contract says a field no configurator writes keeps the starting record's value, and LastWriterWins, LastWriter, ApplyAllAppend, ApplyAllIdempotent and FullOptionDiscardsEarlier describe the rest |
| `CellOptions.NewOptions` | cell/cell_test.go:30-33 | NewOptions with no configurators is the empty record; any field no configurator writes stays at the zero colour; the lemmas about ApplyAll describe the written fields |
| `CellOptions.NewOptionsSetters` | cell/cell_test.go:34-62 | FgColor alone sets only the foreground, BgColor alone only the background, and the two together set both, for every pair of colours |
| `CellOptions.LastWriterWins` | cell/cell_test.go:52-67 | after folding, a field holds the value written by the last configurator that writes it |
| `CellOptions.LastWriter` | cell/cell_test.go:52-67 | when some configurator writes a field, there is a last one that does |
| `CellOptions.ApplyAllAppend` | cell/cell_test.go:161-171 | folding a then b from o equals folding a + b from o, so merging later configurators is the same as supplying them all at once |
| `CellOptions.ApplyAllIdempotent` | cell/cell_test.go:152-159 | re-applying the same configurators to their own result changes nothing |
| `CellOptions.FullOptionDiscardsEarlier` | cell/cell_test.go:112-127 | generalises the single full-record case: a full record used as a configurator discards everything before it, and the result is that record with the later configurators folded over it |
| `CellOptions.LaterConfiguratorShadows` | cell/cell_test.go:52-62 | generalises the later-writer and full-record cases (lines 52-62, 112-127): a configurator followed directly by one that writes every field it writes has no effect |
| `Cells.Cell.New` | cell/cell_test.go:82-110 | the new cell has rune r and options equal to NewOptions of the configurators |
| `Cells.Cell.Apply` | cell/cell_test.go:174-177 | the rune is unchanged and the new options are the configurators folded over the old options |
| `Cells.NewWithoutConfigurators` | cell/cell_test.go:82-95 | New(r) with no configurators carries the empty Options record, for every rune (New(0) and New('X') included) |
| `Cells.ApplyMergesOntoExisting` | cell/cell_test.go:160-171 | New(r, first) followed by Apply(second) equals New(r, first + second), the cell with rune r and options NewOptions(first + second): earlier fields are kept and the rune is untouched |
| `Cells.ApplyNothingKeepsCell` | cell/cell_test.go:147-151 | Apply with no configurators leaves the cell equal to what New built |
| `Cells.ReapplyKeepsCell` | cell/cell_test.go:152-159 | applying to a cell the configurators it was built with leaves it unchanged |
| `Buffers.Size` | cell/cell_test.go:250-268 | the width is the number of columns; on a rectangular grid every column's height is the reported height; the size is valid exactly when the first column is non-empty |
| `Buffers.NewBuffer` | cell/cell_test.go:185-247 | fails with InvalidDimension exactly when width <= 0 or height <= 0; otherwise returns a rectangular grid whose Size is the requested size, whose cells are all fresh, pairwise distinct and equal to New(0) |

## Left out

- The numeric codes of the colour palette and any colour beyond the eight named ones and the default: only equality of colours takes part in this component.
- Nil configurators: in Go a configurator is an interface value, so a nil `Option`, or a nil `*Options` used as one, can be passed and makes applying it panic; the `Option` datatype has no nil value, so the model does not capture that panic.
- The identity of `*Options` pointers: each cell owns its Options record by value, so changing one cell's options can never be seen through another cell.
- Go's `int` in `image.Point`: dimensions are unbounded integers, since no overflow is involved in creating or measuring a grid.
- The text of the error that `NewBuffer` returns: the tests check only that an error is returned, so the model has a single `InvalidDimension` carrying the rejected size.
- Buffers.Size: requires at least one column, because reading the first column's height has no meaning on an empty grid; every buffer `NewBuffer` returns meets this.
- Reading and writing individual cells of a buffer, and indexing out of range: callers use plain indexing within `Size()`, which is not an operation of this component.
- Rune printability and width, terminal I/O, and any renderer that reads the buffer: none of these appear in this component.
- The structural diffing and test-runner plumbing of the test file: its comparisons are modelled as equality in the contracts.
