/** 32-bit cells read without sign, and bitwise operations built from NAND alone. */
module Cells {
  import opened Arithmetic

  const M: int := 0x1_0000_0000
  const TOP: int := 0x8000_0000

  type Cell = x: int | 0 <= x < 0x1_0000_0000

  const TRUE: Cell := 0xFFFF_FFFF
  const FALSE: Cell := 0

  function Flag(b: bool): Cell { if b then TRUE else FALSE }

  /** The operation applied to each of the `k` low bits. */
  function Bitwise(op: (bool, bool) -> bool, a: nat, b: nat, k: nat): (r: nat)
    ensures r < Pow2(k)
  {
    if k == 0 then 0
    else (if op(a % 2 == 1, b % 2 == 1) then 1 else 0) + 2 * Bitwise(op, a / 2, b / 2, k - 1)
  }

  function NandBit(p: bool, q: bool): bool { !(p && q) }
  function AndBit(p: bool, q: bool): bool { p && q }
  function OrBit(p: bool, q: bool): bool { p || q }
  function XorBit(p: bool, q: bool): bool { p != q }
  function NotFirst(p: bool, q: bool): bool { !p }
  function NotSecond(p: bool, q: bool): bool { !q }
  function First(p: bool, q: bool): bool { p }
  function Second(p: bool, q: bool): bool { q }
  function AndNot(p: bool, q: bool): bool { !(p && !q) }
  function NotAnd(p: bool, q: bool): bool { !(!p && q) }

  /** The machine's only logic instruction. */
  function Nand(a: Cell, b: Cell): Cell { Pow2Cells(); Bitwise(NandBit, a, b, 32) }
  function And(a: Cell, b: Cell): Cell { Pow2Cells(); Bitwise(AndBit, a, b, 32) }
  function Or(a: Cell, b: Cell): Cell { Pow2Cells(); Bitwise(OrBit, a, b, 32) }
  function Xor(a: Cell, b: Cell): Cell { Pow2Cells(); Bitwise(XorBit, a, b, 32) }

  function Not(a: Cell): Cell { M - 1 - a }
  function Minus(a: Cell): Cell { (M - a) % M }
  function Plus(a: Cell, b: Cell): Cell { (a + b) % M }
  function Difference(a: Cell, b: Cell): Cell { (a - b) % M }
  function Product(a: Cell, b: Cell): Cell { (a * b) % M }

  /** Two's complement. */
  function Signed(a: Cell): int { if a < TOP then a else a - M }
  predicate Negative(a: Cell) { a >= TOP }

  /** Combining two bitwise results bit by bit is one bitwise operation. */
  lemma {:induction false} Compose(op: (bool, bool) -> bool, f: (bool, bool) -> bool, g: (bool, bool) -> bool,
                                   h: (bool, bool) -> bool, a: nat, b: nat, k: nat)
    requires forall p, q :: h(p, q) == op(f(p, q), g(p, q))
    ensures Bitwise(op, Bitwise(f, a, b, k), Bitwise(g, a, b, k), k) == Bitwise(h, a, b, k)
  {
    if k > 0 { Compose(op, f, g, h, a / 2, b / 2, k - 1); }
  }

  lemma {:induction false} Operands(a: nat, b: nat, k: nat)
    requires a < Pow2(k) && b < Pow2(k)
    ensures Bitwise(First, a, b, k) == a && Bitwise(Second, a, b, k) == b
    ensures Bitwise(NotFirst, a, b, k) == Pow2(k) - 1 - a && Bitwise(NotSecond, a, b, k) == Pow2(k) - 1 - b
    ensures Bitwise(NandBit, a, a, k) == Pow2(k) - 1 - a
  {
    if k > 0 { Operands(a / 2, b / 2, k - 1); }
  }

  /** `NOT`, `AND`, `OR` and `XOR` of the derived words, built from NAND, are exact. */
  lemma {:induction false} NandLogic(x: Cell, y: Cell)
    ensures Nand(x, x) == Not(x)
    ensures Not(Nand(x, y)) == And(x, y)
    ensures Nand(Not(y), Not(x)) == Or(x, y)
    ensures Nand(Nand(y, Not(x)), Nand(x, Not(y))) == Xor(x, y)
  {
    hide Bitwise;
    NotIsNand(x);
    NotIsNand(Nand(x, y));
    Pow2Cells();
    Operands(x, y, 32);
    Compose(NandBit, NandBit, NandBit, AndBit, x, y, 32);
    Compose(NandBit, NotSecond, NotFirst, OrBit, x, y, 32);
    XorIsNand(x, y);
  }

  lemma {:induction false} NotIsNand(x: Cell)
    ensures Nand(x, x) == Not(x)
  {
    Pow2Cells();
    hide Bitwise;
    Operands(x, x, 32);
  }

  lemma {:induction false} XorIsNand(x: Cell, y: Cell)
    ensures Nand(Nand(y, Not(x)), Nand(x, Not(y))) == Xor(x, y)
  {
    Pow2Cells();
    hide Bitwise;
    Operands(x, y, 32);
    Compose(NandBit, Second, NotFirst, NotAnd, x, y, 32);
    Compose(NandBit, First, NotSecond, AndNot, x, y, 32);
    Compose(NandBit, NotAnd, AndNot, XorBit, x, y, 32);
  }

  /** A mask of ones keeps, a mask of zeros clears. */
  lemma {:induction false} MaskOnes(a: nat, k: nat)
    requires a < Pow2(k)
    ensures Bitwise(AndBit, Pow2(k) - 1, a, k) == a
  {
    if k > 0 {
      MaskOnes(a / 2, k - 1);
      assert (Pow2(k) - 1) / 2 == Pow2(k - 1) - 1 && (Pow2(k) - 1) % 2 == 1;
    }
  }

  lemma {:induction false} MaskZeros(a: nat, k: nat)
    requires a < Pow2(k)
    ensures Bitwise(AndBit, 0, a, k) == 0
    ensures Bitwise(OrBit, a, 0, k) == a && Bitwise(OrBit, 0, a, k) == a
  {
    if k > 0 { MaskZeros(a / 2, k - 1); }
  }

  /** Choosing between two cells with a flag and its complement. */
  lemma {:induction false} Select(flag: bool, x: Cell, y: Cell)
    ensures Or(And(Flag(flag), x), And(Not(Flag(flag)), y)) == if flag then x else y
  {
    Pow2Cells();
    MaskOnes(x, 32);
    MaskOnes(y, 32);
    MaskZeros(x, 32);
    MaskZeros(y, 32);
    hide Bitwise;
  }

  lemma {:induction false} OrFlags(p: bool, q: bool)
    ensures Or(Flag(p), Flag(q)) == Flag(p || q)
  {
    Pow2Cells();
    Operands(TRUE, TRUE, 32);
    MaskZeros(TRUE, 32);
    MaskZeros(FALSE, 32);
    OrSame(TRUE, 32);
    hide Bitwise;
  }

  lemma {:induction false} OrSame(a: nat, k: nat)
    requires a < Pow2(k)
    ensures Bitwise(OrBit, a, a, k) == a
  {
    if k > 0 { OrSame(a / 2, k - 1); }
  }

  lemma {:induction false} TopBit(op: (bool, bool) -> bool, a: nat, b: nat, k: nat)
    requires k > 0 && a < Pow2(k) && b < Pow2(k)
    ensures Bitwise(op, a, b, k) >= Pow2(k - 1) <==> op(a >= Pow2(k - 1), b >= Pow2(k - 1))
  {
    if k > 1 { TopBit(op, a / 2, b / 2, k - 1); } else { assert Bitwise(op, a / 2, b / 2, 0) == 0; }
  }

  lemma {:induction false} TopMask(a: nat, k: nat)
    requires k > 0 && a < Pow2(k)
    ensures Bitwise(AndBit, a, Pow2(k - 1), k) == if a >= Pow2(k - 1) then Pow2(k - 1) else 0
  {
    if k > 1 { TopMask(a / 2, k - 1); } else { assert Bitwise(AndBit, a / 2, 0, 0) == 0; }
  }

  lemma {:induction false} XorZero(a: nat, b: nat, k: nat)
    requires a < Pow2(k) && b < Pow2(k)
    ensures Bitwise(XorBit, a, b, k) == 0 <==> a == b
  {
    if k > 0 { XorZero(a / 2, b / 2, k - 1); }
  }

  /** Signs and equality read off the logic words. */
  lemma {:induction false} CellTests(x: Cell, y: Cell)
    ensures And(x, TOP) != 0 <==> Negative(x)
    ensures Negative(Xor(x, y)) <==> Negative(x) != Negative(y)
    ensures Xor(x, y) == 0 <==> x == y
  {
    Pow2Cells();
    TopMask(x, 32);
    TopBit(XorBit, x, y, 32);
    XorZero(x, y, 32);
  }
}
