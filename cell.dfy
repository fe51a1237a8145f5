/**
 * One addressable position of a text-mode display: a rune and the Options
 * record it owns.  A cell is built once with New and later changed in place
 * with Apply, which merges configurators onto the options it already has.
 */
module Cells {
  import opened CellOptions

  /** A Unicode code point as a signed 32-bit value; zero means "no glyph". */
  newtype Rune = x: int | -0x8000_0000 <= x < 0x8000_0000

  /** What comparing two cells observes: the rune and the options record. */
  datatype CellValue = CellValue(rune: Rune, opts: Options)

  class Cell {
    var rune: Rune
    var opts: Options

    function Value(): CellValue
      reads this
    {
      CellValue(rune, opts)
    }

    /** Builds a cell whose options are the configurators folded over the empty record. */
    constructor New(r: Rune, configs: seq<Option>)
      ensures rune == r
      ensures opts == NewOptions(configs)
    {
      rune := r;
      opts := NewOptions(configs);
    }

    /** Applies the configurators in order onto the cell's current options; the rune is untouched. */
    method Apply(configs: seq<Option>)
      modifies this
      ensures rune == old(rune)
      ensures opts == ApplyAll(old(opts), configs)
    {
      var i := 0;
      while i < |configs|
        invariant 0 <= i <= |configs|
        invariant rune == old(rune)
        invariant opts == ApplyAll(old(opts), configs[..i])
      {
        assert configs[..i + 1][..i] == configs[..i];
        opts := Set(configs[i], opts);
        i := i + 1;
      }
      assert configs[..|configs|] == configs;
    }
  }

  /** A new cell carries empty options, never absent ones, whatever its rune. */
  method NewWithoutConfigurators(r: Rune) returns (got: CellValue)
    ensures got == CellValue(r, EmptyOptions)
  {
    var c := new Cell.New(r, []);
    got := c.Value();
  }

  /** Apply merges onto the existing options: New(r, first) then Apply(second) equals New(r, first + second). */
  method ApplyMergesOntoExisting(r: Rune, first: seq<Option>, second: seq<Option>)
    returns (got: CellValue, want: CellValue)
    ensures got == want
    ensures want == CellValue(r, NewOptions(first + second))
  {
    var c := new Cell.New(r, first);
    c.Apply(second);
    var d := new Cell.New(r, first + second);
    ApplyAllAppend(EmptyOptions, first, second);
    got, want := c.Value(), d.Value();
  }

  /** Apply with no configurators leaves the cell as it was. */
  method ApplyNothingKeepsCell(r: Rune, configs: seq<Option>) returns (before: CellValue, after: CellValue)
    ensures after == before
    ensures before == CellValue(r, NewOptions(configs))
  {
    var c := new Cell.New(r, configs);
    before := c.Value();
    c.Apply([]);
    after := c.Value();
  }

  /** Applying again the configurators a cell was built with changes nothing. */
  method ReapplyKeepsCell(r: Rune, configs: seq<Option>) returns (before: CellValue, after: CellValue)
    ensures after == before
    ensures before == CellValue(r, NewOptions(configs))
  {
    var c := new Cell.New(r, configs);
    before := c.Value();
    c.Apply(configs);
    ApplyAllIdempotent(EmptyOptions, configs);
    after := c.Value();
  }
}
