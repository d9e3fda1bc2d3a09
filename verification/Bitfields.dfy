/** Bit fields of a 32-bit cell: fetch, signed fetch and store are lenses on the disjoint
    fields of a layout. */
module Bitfields {
  import opened Arithmetic

  /** A cell as its bits, the least significant first. */
  type Bits = b: seq<bool> | |b| == 32 witness seq(32, _ => false)

  function All(): (r: Bits)
    ensures forall k :: 0 <= k < 32 ==> r[k]
  {
    seq(32, _ => true)
  }

  function Not(x: Bits): (r: Bits)
    ensures forall k :: 0 <= k < 32 ==> r[k] == !x[k]
  {
    seq(32, k requires 0 <= k < 32 => !x[k])
  }

  function And(x: Bits, y: Bits): (r: Bits)
    ensures forall k :: 0 <= k < 32 ==> r[k] == (x[k] && y[k])
  {
    seq(32, k requires 0 <= k < 32 => x[k] && y[k])
  }

  function Or(x: Bits, y: Bits): (r: Bits)
    ensures forall k :: 0 <= k < 32 ==> r[k] == (x[k] || y[k])
  {
    seq(32, k requires 0 <= k < 32 => x[k] || y[k])
  }

  function ShiftLeft(x: Bits, n: nat): (r: Bits)
    ensures forall k :: 0 <= k < 32 ==> r[k] == (k >= n && x[k - n])
  {
    seq(32, k requires 0 <= k < 32 => k >= n && x[k - n])
  }

  /** C's right shift of a signed cell copies the sign. */
  function ShiftRight(x: Bits, n: nat): (r: Bits)
    ensures forall k :: 0 <= k < 32 ==> r[k] == if k + n < 32 then x[k + n] else x[31]
  {
    seq(32, k requires 0 <= k < 32 => if k + n < 32 then x[k + n] else x[31])
  }

  function One(): Bits { seq(32, k => k == 0) }

  /** `~(-1 << width)`: ones in the low bits. */
  function Ones(width: nat): Bits { Not(ShiftLeft(All(), width)) }

  /** `f@` */
  function Fetch(y: Bits, pos: nat, width: nat): Bits {
    if width < 32 then And(ShiftRight(y, pos), Ones(width)) else y
  }

  /** `<f@` */
  function FetchSigned(y: Bits, pos: nat, width: nat): Bits
    requires width >= 1
  {
    if width < 32 then
      var v := And(ShiftRight(y, pos), Ones(width));
      if And(ShiftLeft(One(), width - 1), v) != Not(All()) then Or(v, ShiftLeft(All(), width)) else v
    else y
  }

  /** `f!`: `x` into the field of `y`; C has no shift by 32, so the field is narrower. */
  function Store(x: Bits, y: Bits, pos: nat, width: nat): Bits
    requires width < 32
  {
    Or(ShiftLeft(And(x, Ones(width)), pos), And(y, Not(ShiftLeft(Ones(width), pos))))
  }

  // ----- layouts -----

  datatype Field = Field(pos: nat, width: nat)

  /** What a sequence of `bits` declarations lays out from position `p`. */
  function Declare(widths: seq<nat>, p: nat): (fields: seq<Field>)
    ensures |fields| == |widths| && forall k :: 0 <= k < |fields| ==> fields[k].width == widths[k]
    decreases |widths|
  {
    if widths == [] then [] else [Field(p, widths[0])] + Declare(widths[1..], p + widths[0])
  }

  function Total(widths: seq<nat>): nat {
    if widths == [] then 0 else widths[0] + Total(widths[1..])
  }

  lemma {:induction false} FirstField(widths: seq<nat>, p: nat)
    requires widths != []
    ensures Declare(widths, p)[0] == Field(p, widths[0])
    ensures forall j :: 1 <= j < |widths| ==> Declare(widths, p)[j] == Declare(widths[1..], p + widths[0])[j - 1]
    ensures Total(widths) == widths[0] + Total(widths[1..])
  {}

  /** Fields lie between the start and the end of the layout, one after the other. */
  lemma {:induction false} FieldsInOrder(widths: seq<nat>, p: nat, i: nat)
    requires i < |widths|
    ensures var f := Declare(widths, p);
            && f[i].width == widths[i] && p <= f[i].pos && f[i].pos + f[i].width <= p + Total(widths)
            && forall j :: i < j < |widths| ==> f[i].pos + f[i].width <= f[j].pos
    decreases |widths|
  {
    hide Declare, Total;
    FirstField(widths, p);
    var f, rest := Declare(widths, p), Declare(widths[1..], p + widths[0]);
    if i > 0 {
      FieldsInOrder(widths[1..], p + widths[0], i - 1);
    } else {
      forall j | 1 <= j < |widths| ensures p + widths[0] <= f[j].pos {
        FieldsInOrder(widths[1..], p + widths[0], j - 1);
      }
    }
  }

  // ----- lens laws -----

  /** Where the bits of a fetched field come from. */
  lemma {:induction false} FetchedBits(y: Bits, pos: nat, width: nat)
    requires pos + width <= 32
    ensures forall k :: 0 <= k < 32 ==> Fetch(y, pos, width)[k] == (k < width && y[pos + k])
  {}

  /** Where the bits of a cell come from after a store. */
  lemma {:induction false} StoredBits(x: Bits, y: Bits, pos: nat, width: nat)
    requires pos + width <= 32 && width < 32
    ensures forall k :: 0 <= k < 32 ==>
              Store(x, y, pos, width)[k] == if pos <= k < pos + width then x[k - pos] else y[k]
  {}

  /** What is stored is what is fetched, cut to the width; storing what was fetched changes
      nothing; a later store to the field hides an earlier one. */
  lemma {:induction false} LensLaws(x: Bits, z: Bits, y: Bits, pos: nat, width: nat)
    requires pos + width <= 32 && width < 32
    ensures Fetch(Store(x, y, pos, width), pos, width) == And(x, Ones(width))
    ensures Store(Fetch(y, pos, width), y, pos, width) == y
    ensures Store(z, Store(x, y, pos, width), pos, width) == Store(z, y, pos, width)
  {
    StoredBits(x, y, pos, width);
    StoredBits(z, y, pos, width);
    StoredBits(z, Store(x, y, pos, width), pos, width);
    StoredBits(Fetch(y, pos, width), y, pos, width);
    FetchedBits(y, pos, width);
    FetchedBits(Store(x, y, pos, width), pos, width);
    hide Fetch, Store;
  }

  /** Main theorem: in every layout of at most 32 bits, storing to one field does not change
      what is fetched from another. */
  lemma {:induction false} FieldsAreIndependent(widths: seq<nat>, i: nat, j: nat, x: Bits, y: Bits)
    requires Total(widths) <= 32 && i < |widths| && j < |widths| && i != j && widths[i] < 32
    ensures var f := Declare(widths, 0);
            && f[i].pos + f[i].width <= 32
            && Fetch(Store(x, y, f[i].pos, f[i].width), f[j].pos, f[j].width) == Fetch(y, f[j].pos, f[j].width)
  {
    var f := Declare(widths, 0);
    FieldsInOrder(widths, 0, i);
    FieldsInOrder(widths, 0, j);
    var s := Store(x, y, f[i].pos, f[i].width);
    StoredBits(x, y, f[i].pos, f[i].width);
    FetchedBits(s, f[j].pos, f[j].width);
    FetchedBits(y, f[j].pos, f[j].width);
    hide Fetch, Store;
  }

  // ----- numbers -----

  /** The number the `n` low bits stand for. */
  function Value(x: seq<bool>): nat {
    if x == [] then 0 else (if x[0] then 1 else 0) + 2 * Value(x[1..])
  }

  /** A cell read in two's complement. */
  function Signed(x: Bits): int { Value(x[..31]) - (if x[31] then Pow2(31) else 0) }

  lemma {:induction false} ValueFill(x: seq<bool>, w: nat, ones: bool)
    requires w <= |x| && forall k :: w <= k < |x| ==> x[k] == ones
    ensures Value(x) == Value(x[..w]) + (if ones then Pow2(|x|) - Pow2(w) else 0)
    decreases |x|
  {
    if x != [] {
      if w > 0 {
        ValueFill(x[1..], w - 1, ones);
        assert x[..w][1..] == x[1..][..w - 1];
      } else {
        ValueFill(x[1..], 0, ones);
        assert x[..0] == [] && x[1..][..0] == [];
      }
    }
  }

  lemma {:induction false} ValueTop(x: seq<bool>)
    requires x != []
    ensures Value(x) == Value(x[..|x| - 1]) + (if x[|x| - 1] then Pow2(|x| - 1) else 0)
    decreases |x|
  {
    if |x| == 1 {
      assert x[1..] == [] && x[..0] == [];
    } else {
      ValueTop(x[1..]);
      assert x[..|x| - 1][1..] == x[1..][..|x| - 2];
    }
  }

  /** A field of a whole cell is the cell: the shifts are not done, which C leaves undefined. */
  lemma {:induction false} WholeCell(y: Bits)
    ensures Fetch(y, 0, 32) == y && FetchSigned(y, 0, 32) == y
    ensures Signed(y) == if y[31] then Value(y) - Pow2(32) else Value(y)
  {
    ValueTop(y);
    Pow2Cells();
  }

  /** `<f@` is the two's-complement reading of the field's bits. */
  lemma {:induction false} SignedReading(y: Bits, pos: nat, width: nat)
    requires 1 <= width && pos + width <= 32
    ensures var v := Value(y[pos..pos + width]);
            && v < Pow2(width)
            && Signed(FetchSigned(y, pos, width)) == if y[pos + width - 1] then v - Pow2(width) else v
  {
    if width == 32 {
      WholeCell(y);
      assert y[0..32] == y;
      ValueBound(y);
    } else {
      NarrowReading(y, pos, width);
    }
  }

  lemma {:induction false} NarrowReading(y: Bits, pos: nat, width: nat)
    requires 1 <= width < 32 && pos + width <= 32
    ensures var v := Value(y[pos..pos + width]);
            && v < Pow2(width)
            && Signed(FetchSigned(y, pos, width)) == if y[pos + width - 1] then v - Pow2(width) else v
  {
    var s, field, top := FetchSigned(y, pos, width), y[pos..pos + width], y[pos + width - 1];
    SignedBits(y, pos, width);
    hide FetchSigned;
    assert s[..31][..width] == field;
    ValueFill(s[..31], width, top);
    ValueBound(field);
    hide Value, Pow2;
  }

  lemma {:induction false} ValueBound(x: seq<bool>)
    ensures Value(x) < Pow2(|x|)
  {
    if x != [] { ValueBound(x[1..]); }
  }

  lemma {:induction false} SignedBits(y: Bits, pos: nat, width: nat)
    requires 1 <= width < 32 && pos + width <= 32
    ensures forall k :: 0 <= k < 32 ==>
              FetchSigned(y, pos, width)[k] == if k < width then y[pos + k] else y[pos + width - 1]
  {
    var v, bit := And(ShiftRight(y, pos), Ones(width)), ShiftLeft(One(), width - 1);
    assert forall k :: 0 <= k < 32 ==> v[k] == (k < width && y[pos + k]);
    assert forall k :: 0 <= k < 32 ==> bit[k] == (k == width - 1);
    if v[width - 1] { assert And(bit, v)[width - 1]; } else { assert And(bit, v) == Not(All()); }
  }
}
