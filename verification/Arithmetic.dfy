/** Integer arithmetic as C does it on 32-bit cells. */
module Arithmetic {
  function Abs(x: int): nat { if x < 0 then -x else x }

  function Sign(x: int): int { if x < 0 then -1 else if x > 0 then 1 else 0 }

  /** Division truncates toward zero. */
  function Div(a: int, b: int): int
    requires b != 0
  {
    Sign(a) * Sign(b) * (Abs(a) / Abs(b))
  }

  /** The remainder has the sign of the dividend. */
  function Mod(a: int, b: int): int
    requires b != 0
  {
    Sign(a) * (Abs(a) % Abs(b))
  }

  lemma {:induction false} DivMod(a: int, b: int)
    requires b != 0
    ensures a == Div(a, b) * b + Mod(a, b) && Abs(Mod(a, b)) < Abs(b)
  {
    var q, r := Abs(a) / Abs(b), Abs(a) % Abs(b);
    assert Abs(a) == q * Abs(b) + r;
    if a >= 0 && b < 0 { assert (-q) * b == q * (-b); }
    if a < 0 && b > 0 { assert (-q) * b == -(q * b); }
    if a < 0 && b < 0 { assert q * b == -(q * -b); }
  }

  /** Signed 32-bit wrap-around. */
  function Wrap(x: int): int {
    (x + 0x8000_0000) % 0x1_0000_0000 - 0x8000_0000
  }

  function Pow2(k: nat): (p: nat)
    ensures p > 0
  {
    if k == 0 then 1 else 2 * Pow2(k - 1)
  }

  lemma {:induction false} Pow2Cells()
    ensures Pow2(32) == 0x1_0000_0000 && Pow2(31) == 0x8000_0000
  {
    assert Pow2(4) == 16;
    assert Pow2(8) == 256;
    assert Pow2(12) == 4096;
    assert Pow2(16) == 65536;
    assert Pow2(20) == 0x10_0000;
    assert Pow2(24) == 0x100_0000;
    assert Pow2(28) == 0x1000_0000;
    assert Pow2(31) == 0x8000_0000;
  }

  /** A null-terminated string. */
  function CharAt(text: string, p: nat): char { if p < |text| then text[p] else '\0' }
}
