/**
 * Display attributes of a terminal cell and the configurators that set them.
 *
 * A configurator is one deferred change to an attribute record: it either
 * sets a single field or, when a whole record is passed as a configurator,
 * overwrites every field.  Configurators are applied left to right, so the
 * last one to write a field decides its value.
 */
module CellOptions {

  /** An opaque colour identifier; only equality is used.  ColorDefault is the zero value. */
  datatype Color =
    | ColorDefault
    | ColorBlack
    | ColorRed
    | ColorGreen
    | ColorYellow
    | ColorBlue
    | ColorMagenta
    | ColorCyan
    | ColorWhite

  /** The attributes an Options record holds, so that lemmas can speak of "a field". */
  datatype Field = Fg | Bg

  /** The attribute record of a cell. */
  datatype Options = Options(fgColor: Color, bgColor: Color) {
    function Get(f: Field): Color {
      match f
      case Fg => fgColor
      case Bg => bgColor
    }
  }

  /** The record with every field at its zero value: no attributes requested. */
  const EmptyOptions: Options := Options(ColorDefault, ColorDefault)

  /** A configurator: a single-field setter, or a complete record used as a full overwrite. */
  datatype Option =
    | SetFg(fg: Color)
    | SetBg(bg: Color)
    | Full(all: Options)

  /** Whether applying `opt` assigns field `f`. */
  predicate Writes(opt: Option, f: Field) {
    match opt
    case SetFg(_) => f == Fg
    case SetBg(_) => f == Bg
    case Full(_) => true
  }

  /** The value `opt` assigns to field `f`. */
  function Written(opt: Option, f: Field): Color
    requires Writes(opt, f)
  {
    match opt
    case SetFg(c) => c
    case SetBg(c) => c
    case Full(o) => o.Get(f)
  }

  /** Applies one configurator to a record: the fields it writes take its values, the others keep theirs. */
  function Set(opt: Option, o: Options): (r: Options)
    ensures forall f :: r.Get(f) == if Writes(opt, f) then Written(opt, f) else o.Get(f)
  {
    match opt
    case SetFg(c) => o.(fgColor := c)
    case SetBg(c) => o.(bgColor := c)
    case Full(all) => all
  }

  /** The configurator that sets only the foreground colour. */
  function FgColor(c: Color): (opt: Option)
    ensures forall o :: Set(opt, o) == Options(c, o.bgColor)
  {
    SetFg(c)
  }

  /** The configurator that sets only the background colour. */
  function BgColor(c: Color): (opt: Option)
    ensures forall o :: Set(opt, o) == Options(o.fgColor, c)
  {
    SetBg(c)
  }

  /** A complete record used as a configurator: it replaces whatever it is applied to. */
  function AsOption(all: Options): (opt: Option)
    ensures forall o :: Set(opt, o) == all
  {
    Full(all)
  }

  /** Some configurator of `opts` writes field `f`. */
  predicate AnyWrites(opts: seq<Option>, f: Field) {
    exists k :: 0 <= k < |opts| && Writes(opts[k], f)
  }

  /**
   * Applies the configurators in order, starting from `o` (a left fold).
   * A field that no configurator writes keeps the value it had in `o`.
   */
  function ApplyAll(o: Options, opts: seq<Option>): (r: Options)
    ensures forall f :: !AnyWrites(opts, f) ==> r.Get(f) == o.Get(f)
    decreases |opts|
  {
    if |opts| == 0 then o
    else
      var init := opts[..|opts| - 1];
      assert forall k :: 0 <= k < |init| ==> init[k] == opts[k];
      Set(opts[|opts| - 1], ApplyAll(o, init))
  }

  /**
   * The record the configurators build from the empty record: no configurators
   * give the empty record, and a field nobody writes stays at the zero colour.
   */
  function NewOptions(opts: seq<Option>): (r: Options)
    ensures |opts| == 0 ==> r == EmptyOptions
    ensures forall f :: !AnyWrites(opts, f) ==> r.Get(f) == ColorDefault
  {
    ApplyAll(EmptyOptions, opts)
  }

  /** Applying `a` and then `b` is applying their concatenation. */
  lemma {:induction false} ApplyAllAppend(o: Options, a: seq<Option>, b: seq<Option>)
    ensures ApplyAll(o, a + b) == ApplyAll(ApplyAll(o, a), b)
    decreases |b|
  {
    if |b| == 0 {
      assert a + b == a;
    } else {
      var ab := a + b;
      assert ab[..|ab| - 1] == a + b[..|b| - 1];
      assert ab[|ab| - 1] == b[|b| - 1];
      ApplyAllAppend(o, a, b[..|b| - 1]);
    }
  }

  /** Last writer wins: a field takes the value of the last configurator that writes it. */
  lemma {:induction false} LastWriterWins(o: Options, opts: seq<Option>, f: Field, k: nat)
    requires k < |opts| && Writes(opts[k], f)
    requires forall j :: k < j < |opts| ==> !Writes(opts[j], f)
    ensures ApplyAll(o, opts).Get(f) == Written(opts[k], f)
    decreases |opts|
  {
    if k < |opts| - 1 {
      var init := opts[..|opts| - 1];
      assert init[k] == opts[k];
      forall j | k < j < |init| ensures !Writes(init[j], f) {
        assert init[j] == opts[j];
      }
      LastWriterWins(o, init, f, k);
    }
  }

  /** A field that some configurator writes has a last writer. */
  lemma {:induction false} LastWriter(opts: seq<Option>, f: Field) returns (k: nat)
    requires AnyWrites(opts, f)
    ensures k < |opts| && Writes(opts[k], f)
    ensures forall j :: k < j < |opts| ==> !Writes(opts[j], f)
    decreases |opts|
  {
    if Writes(opts[|opts| - 1], f) {
      k := |opts| - 1;
    } else {
      var init := opts[..|opts| - 1];
      var w :| 0 <= w < |opts| && Writes(opts[w], f);
      assert init[w] == opts[w];
      k := LastWriter(init, f);
      assert forall j :: k < j < |init| ==> init[j] == opts[j];
    }
  }

  /** Two records agreeing on every field are the same record. */
  lemma OptionsExtensional(a: Options, b: Options)
    requires a.Get(Fg) == b.Get(Fg) && a.Get(Bg) == b.Get(Bg)
    ensures a == b
  {
  }

  /** Re-applying the same configurators changes nothing: the fold is idempotent. */
  lemma ApplyAllIdempotent(o: Options, opts: seq<Option>)
    ensures ApplyAll(ApplyAll(o, opts), opts) == ApplyAll(o, opts)
  {
    var once := ApplyAll(o, opts);
    var twice := ApplyAll(once, opts);
    forall f | true ensures twice.Get(f) == once.Get(f) {
      if AnyWrites(opts, f) {
        var k := LastWriter(opts, f);
        LastWriterWins(o, opts, f, k);
        LastWriterWins(once, opts, f, k);
      }
    }
    OptionsExtensional(twice, once);
  }

  /** A complete record used as a configurator discards everything before it and becomes the new baseline. */
  lemma FullOptionDiscardsEarlier(o: Options, before: seq<Option>, all: Options, after: seq<Option>)
    ensures ApplyAll(o, before + [AsOption(all)] + after) == ApplyAll(all, after)
  {
    var upTo := before + [AsOption(all)];
    assert upTo[..|upTo| - 1] == before;
    assert ApplyAll(o, upTo) == all;
    ApplyAllAppend(o, upTo, after);
  }

  /** A configurator is shadowed by a directly following one that writes every field it writes. */
  lemma LaterConfiguratorShadows(o: Options, before: seq<Option>, first: Option, second: Option, after: seq<Option>)
    requires forall f :: Writes(first, f) ==> Writes(second, f)
    ensures ApplyAll(o, before + [first, second] + after) == ApplyAll(o, before + [second] + after)
  {
    var p := ApplyAll(o, before);
    var long := before + [first, second];
    var short := before + [second];
    assert long[..|long| - 1] == before + [first];
    assert (before + [first])[..|before|] == before;
    assert short[..|short| - 1] == before;
    assert ApplyAll(o, long) == Set(second, Set(first, p));
    assert ApplyAll(o, short) == Set(second, p);
    OptionsExtensional(Set(second, Set(first, p)), Set(second, p));
    ApplyAllAppend(o, long, after);
    ApplyAllAppend(o, short, after);
  }

  /** The setters on their own, and together, from the empty record. */
  lemma NewOptionsSetters(fg: Color, bg: Color)
    ensures NewOptions([FgColor(fg)]) == Options(fg, ColorDefault)
    ensures NewOptions([BgColor(bg)]) == Options(ColorDefault, bg)
    ensures NewOptions([FgColor(fg), BgColor(bg)]) == Options(fg, bg)
  {
    var fgOnly, bgOnly := [FgColor(fg)], [BgColor(bg)];
    assert fgOnly[..0] == [] && bgOnly[..0] == [];
    assert ApplyAll(EmptyOptions, fgOnly) == Set(FgColor(fg), ApplyAll(EmptyOptions, []));
    assert ApplyAll(EmptyOptions, bgOnly) == Set(BgColor(bg), ApplyAll(EmptyOptions, []));
    assert [FgColor(fg), BgColor(bg)][..1] == [FgColor(fg)];
  }
}
