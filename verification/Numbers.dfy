/** Number output in the pad and number recognition, on 32-bit cells. */
module Numbers {
  import opened Arithmetic

  const CELLS: int := 0x1_0000_0000
  const HALF: int := 0x8000_0000
  const PADSIZE: nat := 84

  predicate Int32(n: int) { -HALF <= n < HALF }

  /** A cell without its sign. */
  function Unsigned(n: int): (u: nat)
    ensures u < CELLS
  {
    n % CELLS
  }

  predicate Base(b: int) { 2 <= b <= 36 }

  function DigitChar(d: nat): char
    requires d < 36
  {
    (d + (if d > 9 then 'a' as int - 10 else '0' as int)) as char
  }

  /** The digit a character stands for, by the tests of `convert`. */
  function DigitOf(c: char, b: int): (d: int)
    ensures d == -1 || 0 <= d < b
  {
    if c < '0' || c > 'z' || (c > '9' && c < 'a') then -1
    else
      var d := (if c > '9' then c as int - 'a' as int + ':' as int else c as int) - '0' as int;
      if d < 0 || d >= b then -1 else d
  }

  lemma {:induction false} DigitRoundTrip(d: nat, b: int)
    requires Base(b) && d < b
    ensures DigitOf(DigitChar(d), b) == d && DigitChar(d) != '-' && DigitChar(d) != '\0'
  {
    if d > 9 {
      assert DigitChar(d) as int == d + 87;
    } else {
      assert DigitChar(d) as int == d + 48;
    }
  }

  // ----- specifications -----

  /** `#s`: the digits of an unsigned cell, at least one. */
  function Digits(u: nat, b: int): (s: string)
    requires Base(b)
    ensures s != ""
    decreases u
  {
    Smaller(u, b);
    if u / b == 0 then [DigitChar(u % b)] else Digits(u / b, b) + [DigitChar(u % b)]
  }

  lemma {:induction false} Smaller(u: nat, b: int)
    requires Base(b)
    ensures 0 <= u / b && 0 <= u % b < b && u == u / b * b + u % b && (u > 0 ==> u / b < u)
  {
    if u > 0 && u / b >= u {
      ProductAtLeast(u / b, b);
    }
  }

  lemma {:induction false} ProductAtLeast(q: int, b: int)
    requires q > 0 && b >= 2
    ensures q * b >= 2 * q
  {}

  /** `<# abs(n) #s n sign #>` */
  function Text(n: int, b: int): string
    requires Base(b)
  {
    (if n < 0 then "-" else "") + Digits(Unsigned(Wrap(if n < 0 then -n else n)), b)
  }

  /** The value of a digit string. */
  function Positional(s: string, b: int): int {
    if s == "" then 0 else Positional(s[..|s| - 1], b) * b + DigitOf(s[|s| - 1], b)
  }

  predicate AllDigits(s: string, b: int) { forall i :: 0 <= i < |s| ==> DigitOf(s[i], b) >= 0 }

  /** `convert` from position `p` with the number `n` so far: number and position after. */
  function Convert(s: string, p: nat, n: int, b: int): (int, nat)
    requires p <= |s|
    decreases |s| - p
  {
    if p < |s| && DigitOf(s[p], b) >= 0 then Convert(s, p + 1, Wrap(n * b + DigitOf(s[p], b)), b) else (n, p)
  }

  /** `?number` on a null-terminated string: the number, if all of it is one. */
  function QNumber(s: string, b: int): (int, bool)
  {
    var start := if CharAt(s, 0) == '-' then 1 else 0;
    var r := Convert(s, start, 0, b);
    if CharAt(s, r.1) == '\0' then (if start == 1 then Wrap(-r.0) else r.0, true) else (r.0, false)
  }

  // ----- theorems -----

  /** How many digits stand at the start of a string. */
  function Leading(s: string, b: int): (k: nat)
    ensures k <= |s| && AllDigits(s[..k], b)
    ensures k < |s| ==> DigitOf(s[k], b) < 0
  {
    if s == "" || DigitOf(s[0], b) < 0 then 0
    else
      var k := Leading(s[1..], b);
      assert s[..k + 1] == [s[0]] + s[1..][..k];
      1 + k
  }

  lemma {:induction false} WrapStep(n: int, x: int, b: int, d: int)
    requires n == Wrap(x)
    ensures Wrap(n * b + d) == Wrap(x * b + d)
  {
    var k := (x + HALF) / CELLS;
    assert x == n + k * CELLS;
    assert x * b + d == n * b + d + k * b * CELLS;
    WrapShift(n * b + d, k * b);
  }

  lemma {:induction false} WrapShift(x: int, k: int)
    ensures Wrap(x + k * CELLS) == Wrap(x)
  {
    var q, r := (x + HALF) / CELLS, (x + HALF) % CELLS;
    assert x + k * CELLS + HALF == (q + k) * CELLS + r;
  }

  lemma {:induction false} WrapSmall(x: int)
    requires Int32(x)
    ensures Wrap(x) == x
  {}

  lemma {:induction false} WrapMinus(x: int)
    ensures Wrap(-Wrap(x)) == Wrap(-x)
  {
    WrapStep(Wrap(x), x, -1, 0);
  }

  /** `convert` stops at the first non-digit; the number is the positional value of what it
      passed, in a cell. */
  lemma {:induction false} ConvertIsPositional(s: string, b: int)
    requires Base(b)
    ensures var k := Leading(s, b); Convert(s, 0, 0, b) == (Wrap(Positional(s[..k], b)), k)
  {
    ConvertFrom(s, 0, b);
    WrapSmall(0);
  }

  lemma {:induction false} ConvertFrom(s: string, p: nat, b: int)
    requires Base(b) && p <= Leading(s, b)
    ensures var k := Leading(s, b); Convert(s, p, Wrap(Positional(s[..p], b)), b) == (Wrap(Positional(s[..k], b)), k)
    decreases |s| - p
  {
    var k := Leading(s, b);
    if p < k {
      assert s[..k][p] == s[p];
      WrapStep(Wrap(Positional(s[..p], b)), Positional(s[..p], b), b, DigitOf(s[p], b));
      assert s[..p + 1][..p] == s[..p];
      ConvertFrom(s, p + 1, b);
    }
  }

  lemma {:induction false} DigitsValue(u: nat, b: int)
    requires Base(b)
    ensures var s := Digits(u, b); AllDigits(s, b) && Positional(s, b) == u && '\0' !in s && s[0] != '-'
    decreases u
  {
    Smaller(u, b);
    DigitRoundTrip(u % b, b);
    var c := [DigitChar(u % b)];
    if u / b != 0 {
      DigitsValue(u / b, b);
      var t := Digits(u / b, b);
      assert (t + c)[..|t + c| - 1] == t;
    } else {
      assert c[..0] == "";
      assert Positional(c, b) == Positional("", b) * b + u % b;
    }
  }

  lemma {:induction false} LeadingAll(s: string, b: int)
    requires AllDigits(s, b)
    ensures Leading(s, b) == |s|
  {
    if s != "" { LeadingAll(s[1..], b); }
  }

  /** Converting the digits that follow a sign. */
  lemma {:induction false} ConvertShift(s: string, p: nat, n: int, b: int)
    requires 1 <= p <= |s|
    ensures Convert(s[1..], p - 1, n, b).0 == Convert(s, p, n, b).0
    ensures Convert(s[1..], p - 1, n, b).1 + 1 == Convert(s, p, n, b).1
    decreases |s| - p
  {
    if p < |s| && DigitOf(s[p], b) >= 0 { ConvertShift(s, p + 1, Wrap(n * b + DigitOf(s[p], b)), b); }
  }

  /** Main theorem: what the number words write, `?number` reads back, for every cell value
      and base, the least integer included. */
  lemma {:induction false} RoundTrip(n: int, b: int)
    requires Int32(n) && Base(b)
    ensures QNumber(Text(n, b), b) == (n, true)
  {
    var m := if n < 0 then -n else n;
    AbsCell(m);
    var ds := Digits(m, b);
    DigitsValue(m, b);
    DigitsConvert(ds, m, b);
    if n < 0 {
      assert "-" + ds == ['-'] + ds;
      MinusConvert(ds, m, b);
      WrapMinus(m);
      WrapSmall(n);
    } else {
      assert "" + ds == ds;
      WrapSmall(n);
      hide DigitOf, Positional, Digits;
    }
  }

  lemma {:induction false} AbsCell(m: int)
    requires 0 <= m <= HALF
    ensures Unsigned(Wrap(m)) == m
  {}

  lemma {:induction false} DigitsConvert(ds: string, m: int, b: int)
    requires Base(b) && AllDigits(ds, b) && Positional(ds, b) == m
    ensures Convert(ds, 0, 0, b) == (Wrap(m), |ds|)
  {
    LeadingAll(ds, b);
    ConvertIsPositional(ds, b);
    assert ds[..|ds|] == ds;
  }

  lemma {:induction false} MinusConvert(ds: string, m: int, b: int)
    requires Convert(ds, 0, 0, b) == (Wrap(m), |ds|)
    ensures QNumber(['-'] + ds, b) == (Wrap(-Wrap(m)), true)
  {
    var s := ['-'] + ds;
    assert s[1..] == ds;
    ConvertShift(s, 1, 0, b);
  }

  /** What `?number` accepts: digits only, after at most one minus. No digits at all count as
      zero. */
  lemma {:induction false} QNumberAccepts(s: string, b: int)
    requires Base(b) && '\0' !in s
    ensures var t := if s != "" && s[0] == '-' then s[1..] else s;
            && (QNumber(s, b).1 <==> AllDigits(t, b))
            && (QNumber(s, b).1 ==> QNumber(s, b).0 == Wrap(if |t| < |s| then -Positional(t, b) else Positional(t, b)))
  {
    var t := if s != "" && s[0] == '-' then s[1..] else s;
    ConvertIsPositional(t, b);
    if |t| < |s| { ConvertShift(s, 1, 0, b); }
    var k := Leading(t, b);
    assert t[..|t|] == t;
    if k < |t| { assert t[k] in s; } else { LeadingAll(t, b); }
    if AllDigits(t, b) { LeadingAll(t, b); WrapMinus(Positional(t, b)); }
  }

  lemma {:induction false} DigitsLength(u: nat, b: int, k: nat)
    requires Base(b) && u < Pow2(k)
    ensures |Digits(u, b)| <= if k == 0 then 1 else k
    decreases k
  {
    Smaller(u, b);
    if u / b != 0 {
      if u / b >= Pow2(k - 1) { ProductAtLeast(u / b, b); }
      DigitsLength(u / b, b, k - 1);
    }
  }

  /** The characters by their codes: 0 to 9, then a to z, and the sign in front. */
  lemma {:induction false} TextCodes(n: int, b: int)
    requires Base(b) && Int32(n)
    ensures n < 0 ==> Text(n, b)[0] as int == 45
    ensures forall i :: (if n < 0 then 1 else 0) <= i < |Text(n, b)| ==>
              48 <= Text(n, b)[i] as int <= 57 || 97 <= Text(n, b)[i] as int < 87 + b
    ensures var u := Text(n, b)[|Text(n, b)| - 1] as int;
            (if n < 0 then -n else n) % b == if u <= 57 then u - 48 else u - 87
  {
    var m := if n < 0 then -n else n;
    AbsCell(m);
    DigitsCodes(m, b);
  }

  lemma {:induction false} DigitsCodes(u: nat, b: int)
    requires Base(b)
    ensures var s := Digits(u, b);
            && (forall i :: 0 <= i < |s| ==> 48 <= s[i] as int <= 57 || 97 <= s[i] as int < 87 + b)
            && u % b == if s[|s| - 1] as int <= 57 then s[|s| - 1] as int - 48 else s[|s| - 1] as int - 87
    decreases u
  {
    Smaller(u, b);
    if u / b != 0 { DigitsCodes(u / b, b); }
  }

  /** A number and its sign take at most 33 characters of the pad. */
  lemma {:induction false} TextFits(n: int, b: int)
    requires Base(b)
    ensures |Text(n, b)| <= 33 <= PADSIZE
  {
    Pow2Cells();
    DigitsLength(Unsigned(Wrap(if n < 0 then -n else n)), b, 32);
  }

  /** The digits still to come when `q` is left. */
  function Rest(q: nat, b: int): string
    requires Base(b)
  {
    if q == 0 then "" else Digits(q, b)
  }

  lemma {:induction false} RestStep(q: nat, b: int, done: string)
    requires Base(b)
    ensures Digits(q, b) + done == Rest(q / b, b) + ([DigitChar(q % b)] + done)
    ensures q != 0 ==> Rest(q, b) != ""
  {
    Smaller(q, b);
    assert Digits(q, b) == Rest(q / b, b) + [DigitChar(q % b)];
  }

  // ----- the pad -----

  class Pad {
    const thepad: array<char>
    var hld: int

    constructor ()
      ensures Valid() && Written() == ""
    {
      thepad := new char[PADSIZE];
      hld := PADSIZE;
    }

    ghost predicate Valid()
      reads this
    {
      thepad.Length == PADSIZE && 0 <= hld <= PADSIZE
    }

    /** The characters held so far. */
    ghost function Written(): string
      requires Valid()
      reads this, thepad
    {
      thepad[hld..]
    }

    /** `<#` */
    method LessSharp()
      requires thepad.Length == PADSIZE
      modifies this
      ensures Valid() && Written() == ""
    {
      hld := PADSIZE;
    }

    /** `hold` */
    method Hold(c: char)
      requires Valid() && hld > 0
      modifies this, thepad
      ensures Valid() && hld == old(hld) - 1 && Written() == [c] + old(Written())
    {
      hld := hld - 1;
      thepad[hld] := c;
    }

    /** `#`: the quotient goes back on the stack. */
    method Sharp(u: nat, b: int) returns (q: nat)
      requires Valid() && hld > 0 && Base(b)
      modifies this, thepad
      ensures Valid() && hld == old(hld) - 1
      ensures q == u / b && Written() == [DigitChar(u % b)] + old(Written())
    {
      Smaller(u, b);
      q := u / b;
      Hold(DigitChar(u % b));
    }

    /** `#s` */
    method Sharps(u: nat, b: int)
      requires Valid() && Base(b) && |Digits(u, b)| <= hld
      modifies this, thepad
      ensures Valid() && Written() == Digits(u, b) + old(Written())
    {
      var q: nat := Sharp(u, b);
      ghost var done := [DigitChar(u % b)];
      RestStep(u, b, "");
      assert Digits(u, b) + "" == Digits(u, b) && done + "" == done;
      hide Digits, DigitChar;
      while q != 0
        invariant Valid() && Written() == done + old(Written()) && hld == old(hld) - |done|
        invariant Digits(u, b) == Rest(q, b) + done
        decreases q
      {
        Smaller(q, b);
        RestStep(q, b, done);
        done := [DigitChar(q % b)] + done;
        q := Sharp(q, b);
      }
      assert Rest(0, b) + done == done;
    }

    /** `sign` */
    method Sign(n: int)
      requires Valid() && (n < 0 ==> hld > 0)
      modifies this, thepad
      ensures Valid() && Written() == (if n < 0 then "-" else "") + old(Written())
    {
      if n < 0 { Hold('-'); }
    }

    /** The conversion part of `.r`: no write leaves the pad, and what is written is the text
        of the number. */
    method Format(n: int, b: int)
      requires thepad.Length == PADSIZE && Int32(n) && Base(b)
      modifies this, thepad
      ensures Valid() && Written() == Text(n, b) && hld >= PADSIZE - 33
    {
      TextFits(n, b);
      LessSharp();
      Sharps(Unsigned(Wrap(if n < 0 then -n else n)), b);
      assert Written() == Digits(Unsigned(Wrap(if n < 0 then -n else n)), b);
      Sign(n);
    }

    /** `convert` */
    method DoConvert(s: string, p: nat, n: int, b: int) returns (number: int, at: nat)
      requires p <= |s| && Int32(n) && '\0' !in s
      ensures (number, at) == Convert(s, p, n, b)
    {
      number, at := n, p;
      while true
        invariant p <= at <= |s| && Convert(s, at, number, b) == Convert(s, p, n, b)
        decreases |s| - at
      {
        var c := CharAt(s, at);
        if c < '0' || c > 'z' || (c > '9' && c < 'a') { return; }
        var d := (if c > '9' then c as int - 'a' as int + ':' as int else c as int) - '0' as int;
        if d < 0 || d >= b { return; }
        number := Wrap(number * b + d);
        at := at + 1;
      }
    }

    /** `?number` */
    method DoQNumber(s: string, b: int) returns (number: int, ok: bool)
      requires '\0' !in s
      ensures ok == QNumber(s, b).1 && (ok ==> number == QNumber(s, b).0)
    {
      var minus := CharAt(s, 0) == '-';
      var start := if minus then 1 else 0;
      var at;
      number, at := DoConvert(s, start, 0, b);
      ok := CharAt(s, at) == '\0';
      if ok && minus { number := Wrap(-number); }
    }
  }
}
