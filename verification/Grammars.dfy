/** Tokens, grammars with semantic actions, and their recursive reading as parsing
    expressions. */
module Grammars {
  import opened Arithmetic
  import opened Options

  // ----- the scanner -----

  /** Breaks are decided character by character, and the terminator is one. */
  ghost predicate Breaks(text: string, brk: char -> bool) {
    brk('\0') && forall i :: 0 <= i < |text| ==> text[i] != '\0'
  }

  predicate White(c: char) { c <= ' ' && c != '\0' }

  /** `skip-white-space` */
  function Skip(text: string, p: nat): (q: nat)
    requires p <= |text|
    ensures p <= q <= |text| && !White(CharAt(text, q))
    ensures forall i :: p <= i < q ==> White(text[i])
    decreases |text| - p
  {
    if p < |text| && White(text[p]) then Skip(text, p + 1) else p
  }

  /** The first break at or after `p`. */
  function NextBreak(text: string, brk: char -> bool, p: nat): (q: nat)
    requires p <= |text|
    ensures p <= q <= |text| && forall i :: p <= i < q ==> !brk(text[i])
    ensures q < |text| ==> brk(text[q])
    decreases |text| - p
  {
    if p < |text| && !brk(text[p]) then NextBreak(text, brk, p + 1) else p
  }

  /** Where the token that follows `p` ends: a break character is a token by itself. */
  function TokenEnd(text: string, brk: char -> bool, p: nat): (q: nat)
    requires p <= |text|
    ensures Skip(text, p) <= q <= |text|
  {
    var s := Skip(text, p);
    if s == |text| then s
    else if brk(text[s]) then s + 1
    else NextBreak(text, brk, s + 1)
  }

  function Token(text: string, brk: char -> bool, p: nat): string
    requires p <= |text|
  {
    text[Skip(text, p)..TokenEnd(text, brk, p)]
  }

  /** A token by the codes of its characters: blanks are skipped, a break character stands
      alone, and any other token goes on to the next break. */
  lemma {:induction false} TokenIs(text: string, brk: char -> bool, p: nat)
    requires p <= |text| && Breaks(text, brk)
    ensures var start, end := Skip(text, p), TokenEnd(text, brk, p);
            && (forall i :: p <= i < start ==> 1 <= text[i] as int <= 32)
            && (start < |text| ==> text[start] as int > 32)
            && Token(text, brk, p) == text[start..end]
            && (start == |text| ==> end == start)
            && (start < |text| && brk(text[start]) ==> end == start + 1)
            && (start < |text| && !brk(text[start]) ==>
                  && start < end && (forall i :: start <= i < end ==> !brk(text[i]))
                  && (end < |text| ==> brk(text[end])))
  {}

  /** What `-match` takes for equal: a token that is not empty and begins the name. */
  predicate TokenOf(token: string, name: string) { token != "" && token <= name }

  // ----- grammars -----

  type SymId = nat

  /** `semantic` ends a rule with an action, `no-semantic` without one. */
  datatype Item = Terminal(s: SymId) | NonTerminal(s: SymId) | ZeroOrOne(s: SymId) | ZeroOrMore(s: SymId)
  datatype Rule = Rule(body: seq<Item>, action: Opt<int>)

  /** A primary function moves the scanner and appends cells to the action list whether it
      accepts or rejects. */
  datatype PrimaryResult = PrimaryResult(ok: bool, pos: nat, cells: seq<int>)
  type Primary = (string, nat) -> PrimaryResult

  datatype Symbol = Symbol(name: string, rules: seq<Rule>, primary: Opt<Primary>)

  /** The grammar with the text it is run on. */
  datatype Grammar = Grammar(syms: seq<Symbol>, text: string, brk: char -> bool)

  ghost predicate Known(g: Grammar) {
    && Breaks(g.text, g.brk)
    && (forall s, r :: 0 <= s < |g.syms| && r in g.syms[s].rules ==> ItemsKnown(g, r.body))
    && (forall s, p :: 0 <= s < |g.syms| && g.syms[s].primary.Some? && 0 <= p <= |g.text| ==>
          g.syms[s].primary.val(g.text, p).pos <= |g.text|)
  }

  predicate ItemsKnown(g: Grammar, body: seq<Item>) {
    forall i :: i in body ==> i.s < |g.syms|
  }

  /** A primary function of the symbol that rejects leaves no trace. */
  ghost predicate CleanSymbol(g: Grammar, s: SymId)
    requires s < |g.syms|
  {
    g.syms[s].primary.Some? ==>
      forall p :: 0 <= p <= |g.text| ==>
        var r := g.syms[s].primary.val(g.text, p); !r.ok ==> r.pos == p && r.cells == []
  }

  // ----- the reference: parsing expressions with actions -----

  /** `acts` are the actions of the parsed part only. */
  datatype Peg = Accept(pos: nat, acts: seq<int>) | Reject | Timeout

  function After(acts: seq<int>, r: Peg): Peg {
    if r.Accept? then Accept(r.pos, acts + r.acts) else r
  }

  /** What a rejecting primary function leaves behind. */
  function Left(g: Grammar, s: SymId, p: nat): (r: Peg)
    requires Known(g) && s < |g.syms| && p <= |g.text|
    ensures r.Accept? && r.pos <= |g.text|
  {
    if g.syms[s].primary.None? then Accept(p, [])
    else var r := g.syms[s].primary.val(g.text, p); Accept(r.pos, r.cells)
  }

  function PegPrimary(g: Grammar, s: SymId, p: nat): Peg
    requires s < |g.syms|
  {
    if g.syms[s].primary.None? then Reject
    else
      var r := g.syms[s].primary.val(g.text, p);
      if r.ok then Accept(r.pos, r.cells) else Reject
  }

  /** Ordered choice between the rules of a symbol; `f` bounds the depth of the derivation. */
  function PegSyntax(g: Grammar, f: nat, s: SymId, p: nat): (r: Peg)
    requires Known(g) && s < |g.syms| && p <= |g.text|
    ensures r.Accept? ==> r.pos <= |g.text|
    decreases f, 0, 0
  {
    if f == 0 then Timeout else PegChoice(g, f - 1, g.syms[s].rules, p)
  }

  function PegChoice(g: Grammar, f: nat, rules: seq<Rule>, p: nat): (r: Peg)
    requires Known(g) && p <= |g.text| && forall r :: r in rules ==> ItemsKnown(g, r.body)
    ensures r.Accept? ==> r.pos <= |g.text|
    decreases f, 4, |rules|
  {
    if rules == [] then Reject
    else
      var r := PegRule(g, f, rules[0], p);
      if r.Reject? then PegChoice(g, f, rules[1..], p) else r
  }

  function PegRule(g: Grammar, f: nat, rule: Rule, p: nat): (r: Peg)
    requires Known(g) && p <= |g.text| && ItemsKnown(g, rule.body)
    ensures r.Accept? ==> r.pos <= |g.text|
    decreases f, 3, |rule.body| + 1
  {
    var r := PegBody(g, f, rule.body, p);
    if r.Accept? then Accept(r.pos, r.acts + ActionOf(rule)) else r
  }

  function ActionOf(rule: Rule): seq<int> {
    if rule.action.Some? then [rule.action.val] else []
  }

  function PegBody(g: Grammar, f: nat, body: seq<Item>, p: nat): (r: Peg)
    requires Known(g) && p <= |g.text| && ItemsKnown(g, body)
    ensures r.Accept? ==> r.pos <= |g.text|
    decreases f, 3, |body|
  {
    if body == [] then Accept(p, [])
    else
      var r := PegItem(g, f, body[0], p);
      if r.Accept? then After(r.acts, PegBody(g, f, body[1..], r.pos)) else r
  }

  function PegItem(g: Grammar, f: nat, i: Item, p: nat): (r: Peg)
    requires Known(g) && p <= |g.text| && i.s < |g.syms|
    ensures r.Accept? ==> r.pos <= |g.text|
    decreases f, 2, 1
  {
    match i
    case Terminal(s) =>
      if TokenOf(Token(g.text, g.brk, p), g.syms[s].name) then Accept(TokenEnd(g.text, g.brk, p), []) else Reject
    case NonTerminal(s) => PegSymbol(g, f, s, p)
    case ZeroOrOne(s) => var r := PegSymbol(g, f, s, p); if r.Reject? then Left(g, s, p) else r
    case ZeroOrMore(s) => PegMany(g, f, s, p)
  }

  /** The rules of the symbol, then its primary function. */
  function PegSymbol(g: Grammar, f: nat, s: SymId, p: nat): (r: Peg)
    requires Known(g) && p <= |g.text| && s < |g.syms|
    ensures r.Accept? ==> r.pos <= |g.text|
    decreases f, 1, 0
  {
    var r := PegSyntax(g, f, s, p);
    if r.Reject? then PegPrimary(g, s, p) else r
  }

  /** Ends where the symbol rejects, with what its primary function left there. */
  function PegMany(g: Grammar, f: nat, s: SymId, p: nat): (r: Peg)
    requires Known(g) && p <= |g.text| && s < |g.syms|
    ensures r.Accept? ==> r.pos <= |g.text|
    decreases f, 2, 0
  {
    var r := PegSymbol(g, f, s, p);
    if r.Reject? then Left(g, s, p)
    else if r.Timeout? || f == 0 then Timeout
    else After(r.acts, PegMany(g, f - 1, s, r.pos))
  }

  lemma {:induction false} AfterNothing(r: Peg)
    ensures After([], r) == r
  {
    if r.Accept? { assert [] + r.acts == r.acts; }
  }

  lemma {:induction false} AfterAfter(a: seq<int>, b: seq<int>, r: Peg)
    ensures After(a, After(b, r)) == After(a + b, r)
  {
    if r.Accept? { assert a + (b + r.acts) == a + b + r.acts; }
  }

  /** One more item of a sequence. */
  lemma {:induction false} BodyStep(g: Grammar, f: nat, body: seq<Item>, k: nat, p: nat, done: seq<int>)
    requires Known(g) && p <= |g.text| && ItemsKnown(g, body) && k < |body|
    ensures body[k].s < |g.syms| && ItemsKnown(g, body[k..]) && ItemsKnown(g, body[k + 1..])
    ensures var r := PegItem(g, f, body[k], p);
            After(done, PegBody(g, f, body[k..], p)) ==
            if r.Accept? then After(done + r.acts, PegBody(g, f, body[k + 1..], r.pos)) else r
  {
    assert body[k..][1..] == body[k + 1..] && body[k..][0] == body[k];
    var r := PegItem(g, f, body[k], p);
    if r.Accept? { AfterAfter(done, r.acts, PegBody(g, f, body[k + 1..], r.pos)); }
  }

  /** One more repetition, or the end of them. */
  lemma {:induction false} ManyStep(g: Grammar, f: nat, s: SymId, p: nat, done: seq<int>)
    requires Known(g) && p <= |g.text| && s < |g.syms|
    ensures var r := PegSymbol(g, f, s, p);
            After(done, PegMany(g, f, s, p)) ==
            if r.Reject? then After(done, Left(g, s, p))
            else if r.Timeout? || f == 0 then Timeout
            else After(done + r.acts, PegMany(g, f - 1, s, r.pos))
  {
    var r := PegSymbol(g, f, s, p);
    if r.Accept? && f > 0 { AfterAfter(done, r.acts, PegMany(g, f - 1, s, r.pos)); }
  }

  lemma {:induction false} BodyEnd(g: Grammar, f: nat, body: seq<Item>, p: nat, done: seq<int>)
    requires Known(g) && p <= |g.text| && body == []
    ensures After(done, PegBody(g, f, body, p)) == Accept(p, done)
  {
    assert done + [] == done;
  }

  /** Where a rejecting primary function leaves no trace, optional and repeated items are those
      of parsing expressions: a rejection accepts the empty text. */
  lemma {:induction false} CleanItems(g: Grammar, f: nat, s: SymId, p: nat)
    requires Known(g) && p <= |g.text| && s < |g.syms| && CleanSymbol(g, s)
    ensures var r := PegSymbol(g, f, s, p);
            && PegItem(g, f, ZeroOrOne(s), p) == (if r.Reject? then Accept(p, []) else r)
            && PegItem(g, f, ZeroOrMore(s), p) ==
               if r.Reject? then Accept(p, [])
               else if r.Timeout? || f == 0 then Timeout
               else After(r.acts, PegItem(g, f - 1, ZeroOrMore(s), r.pos))
  {
    if PegSymbol(g, f, s, p).Reject? { assert Left(g, s, p) == Accept(p, []); }
  }

  // ----- more depth never changes an answer -----

  lemma {:induction false} MoreSyntax(g: Grammar, f: nat, h: nat, s: SymId, p: nat)
    requires Known(g) && s < |g.syms| && p <= |g.text| && f <= h && PegSyntax(g, f, s, p) != Timeout
    ensures PegSyntax(g, h, s, p) == PegSyntax(g, f, s, p)
    decreases f, 0, 0
  {
    MoreChoice(g, f - 1, h - 1, g.syms[s].rules, p);
  }

  lemma {:induction false} MoreChoice(g: Grammar, f: nat, h: nat, rules: seq<Rule>, p: nat)
    requires Known(g) && p <= |g.text| && (forall r :: r in rules ==> ItemsKnown(g, r.body))
    requires f <= h && PegChoice(g, f, rules, p) != Timeout
    ensures PegChoice(g, h, rules, p) == PegChoice(g, f, rules, p)
    decreases f, 4, |rules|
  {
    if rules != [] {
      MoreBody(g, f, h, rules[0].body, p);
      if PegRule(g, f, rules[0], p).Reject? { MoreChoice(g, f, h, rules[1..], p); }
    }
  }

  lemma {:induction false} MoreBody(g: Grammar, f: nat, h: nat, body: seq<Item>, p: nat)
    requires Known(g) && p <= |g.text| && ItemsKnown(g, body) && f <= h && PegBody(g, f, body, p) != Timeout
    ensures PegBody(g, h, body, p) == PegBody(g, f, body, p)
    decreases f, 3, |body|
  {
    if body != [] {
      MoreItem(g, f, h, body[0], p);
      var r := PegItem(g, f, body[0], p);
      if r.Accept? { MoreBody(g, f, h, body[1..], r.pos); }
    }
  }

  lemma {:induction false} MoreItem(g: Grammar, f: nat, h: nat, i: Item, p: nat)
    requires Known(g) && p <= |g.text| && i.s < |g.syms| && f <= h && PegItem(g, f, i, p) != Timeout
    ensures PegItem(g, h, i, p) == PegItem(g, f, i, p)
    decreases f, 2, 1
  {
    match i
    case Terminal(s) =>
    case NonTerminal(s) => MoreSymbol(g, f, h, s, p);
    case ZeroOrOne(s) => MoreSymbol(g, f, h, s, p);
    case ZeroOrMore(s) => MoreMany(g, f, h, s, p);
  }

  lemma {:induction false} MoreSymbol(g: Grammar, f: nat, h: nat, s: SymId, p: nat)
    requires Known(g) && s < |g.syms| && p <= |g.text| && f <= h && PegSymbol(g, f, s, p) != Timeout
    ensures PegSymbol(g, h, s, p) == PegSymbol(g, f, s, p)
    decreases f, 1, 0
  {
    MoreSyntax(g, f, h, s, p);
  }

  lemma {:induction false} MoreMany(g: Grammar, f: nat, h: nat, s: SymId, p: nat)
    requires Known(g) && s < |g.syms| && p <= |g.text| && f <= h && PegMany(g, f, s, p) != Timeout
    ensures PegMany(g, h, s, p) == PegMany(g, f, s, p)
    decreases f, 2, 0
  {
    MoreSymbol(g, f, h, s, p);
    var r := PegSymbol(g, f, s, p);
    if r.Accept? { MoreMany(g, f - 1, h - 1, s, r.pos); }
  }

  /** So a symbol has one parse of a text, whatever the depth allowed. */
  lemma {:induction false} OneParse(g: Grammar, f: nat, h: nat, s: SymId, p: nat)
    requires Known(g) && s < |g.syms| && p <= |g.text|
    requires PegSyntax(g, f, s, p) != Timeout && PegSyntax(g, h, s, p) != Timeout
    ensures PegSyntax(g, f, s, p) == PegSyntax(g, h, s, p)
  {
    if f <= h { MoreSyntax(g, f, h, s, p); } else { MoreSyntax(g, h, f, s, p); }
  }
}
