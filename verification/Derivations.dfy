/** Derivation trees of a grammar with actions: why a symbol was accepted, alternative by
    alternative, and in what order the actions come. A text is parsed if and only if there is
    such a tree. */
module Derivations {
  import opened Options
  import opened Grammars

  /** A symbol derived by the first alternative that fits, every one in front of it having
      missed, or by its primary function when all have. `own` is the action of the rule, or
      what the primary function appended. */
  datatype Sym =
    | ByRule(tried: Misses, parts: Parts, own: seq<int>)
    | ByPrimary(tried: Misses, own: seq<int>)

  /** Each alternative tried: the parts it did find, and why the next one is missing. */
  datatype Misses = NoMiss | Misses(first: Miss, rest: Misses)
  datatype Miss = Miss(found: Parts, gone: Gone)
  datatype Gone = NoToken | NoSymbol(tried: Misses)

  datatype Parts = NoParts | Parts(first: Part, rest: Parts)

  /** What one item stands for; `left` is what a rejecting primary function appended. */
  datatype Part =
    | Matched
    | One(t: Sym)
    | Absent(tried: Misses, left: seq<int>)
    | Repeated(times: Syms, tried: Misses, left: seq<int>)
  datatype Syms = NoSyms | Syms(first: Sym, rest: Syms)

  // ----- post-order -----

  function PostOrder(t: Sym): seq<int> {
    match t
    case ByRule(_, parts, own) => PostParts(parts) + own
    case ByPrimary(_, own) => own
  }

  function PostParts(parts: Parts): seq<int> {
    match parts
    case NoParts => []
    case Parts(x, rest) => PostPart(x) + PostParts(rest)
  }

  function PostPart(x: Part): seq<int> {
    match x
    case Matched => []
    case One(t) => PostOrder(t)
    case Absent(_, left) => left
    case Repeated(times, _, left) => PostSyms(times) + left
  }

  function PostSyms(times: Syms): seq<int> {
    match times
    case NoSyms => []
    case Syms(t, rest) => PostOrder(t) + PostSyms(rest)
  }

  function Length(parts: Parts): nat {
    match parts
    case NoParts => 0
    case Parts(_, rest) => 1 + Length(rest)
  }

  function Count(tried: Misses): nat {
    match tried
    case NoMiss => 0
    case Misses(_, rest) => 1 + Count(rest)
  }

  // ----- which trees are derivations, and where they end -----

  /** Where the tree of symbol `s` that starts at `p` ends; `None` if it is not one. */
  function EndOf(g: Grammar, s: SymId, p: nat, t: Sym): (r: Opt<nat>)
    requires Known(g) && s < |g.syms| && p <= |g.text|
    ensures r.Some? ==> r.val <= |g.text|
    decreases t, 0
  {
    var rules := g.syms[s].rules;
    match t
    case ByRule(tried, parts, own) =>
      var n := Count(tried);
      if n < |rules| && AllMiss(g, rules[..n], p, tried)
         && own == (match rules[n].action case Some(x) => [x] case None => [])
      then EndOfParts(g, rules[n].body, p, parts) else None
    case ByPrimary(tried, own) =>
      if !AllMiss(g, rules, p, tried) || g.syms[s].primary.None? then None
      else
        var r := g.syms[s].primary.val(g.text, p);
        if r.ok && own == r.cells then Some(r.pos) else None
  }

  /** None of these alternatives fits at `p`. */
  predicate AllMiss(g: Grammar, rules: seq<Rule>, p: nat, tried: Misses)
    requires Known(g) && p <= |g.text| && forall r :: r in rules ==> ItemsKnown(g, r.body)
    decreases tried, 0
  {
    match tried
    case NoMiss => rules == []
    case Misses(m, rest) => rules != [] && MissesAt(g, rules[0].body, p, m) && AllMiss(g, rules[1..], p, rest)
  }

  /** The items in front are found, and the next one is not there. */
  predicate MissesAt(g: Grammar, body: seq<Item>, p: nat, m: Miss)
    requires Known(g) && p <= |g.text| && ItemsKnown(g, body)
    decreases m, 0
  {
    var n := Length(m.found);
    n < |body| &&
    var q := EndOfParts(g, body[..n], p, m.found);
    q.Some? && IsGone(g, body[n], q.val, m.gone)
  }

  predicate IsGone(g: Grammar, i: Item, p: nat, gone: Gone)
    requires Known(g) && p <= |g.text| && i.s < |g.syms|
    decreases gone, 0
  {
    match gone
    case NoToken => i.Terminal? && !TokenOf(Token(g.text, g.brk, p), g.syms[i.s].name)
    case NoSymbol(tried) => i.NonTerminal? && Fails(g, i.s, p, tried)
  }

  /** No alternative fits and the primary function, if there is one, rejects. */
  predicate Fails(g: Grammar, s: SymId, p: nat, tried: Misses)
    requires Known(g) && s < |g.syms| && p <= |g.text|
    decreases tried, 1
  {
    && AllMiss(g, g.syms[s].rules, p, tried)
    && (g.syms[s].primary.Some? ==> !g.syms[s].primary.val(g.text, p).ok)
  }

  function EndOfParts(g: Grammar, body: seq<Item>, p: nat, parts: Parts): (r: Opt<nat>)
    requires Known(g) && p <= |g.text| && ItemsKnown(g, body)
    ensures r.Some? ==> r.val <= |g.text|
    decreases parts, 0
  {
    match parts
    case NoParts => if body == [] then Some(p) else None
    case Parts(x, rest) =>
      if body == [] then None
      else
        var q := EndOfPart(g, body[0], p, x);
        if q.None? then None else EndOfParts(g, body[1..], q.val, rest)
  }

  function EndOfPart(g: Grammar, i: Item, p: nat, x: Part): (r: Opt<nat>)
    requires Known(g) && p <= |g.text| && i.s < |g.syms|
    ensures r.Some? ==> r.val <= |g.text|
    decreases x, 0
  {
    match x
    case Matched =>
      if i.Terminal? && TokenOf(Token(g.text, g.brk, p), g.syms[i.s].name) then Some(TokenEnd(g.text, g.brk, p))
      else None
    case One(t) => if i.NonTerminal? || i.ZeroOrOne? then EndOf(g, i.s, p, t) else None
    case Absent(tried, left) => if i.ZeroOrOne? then EndOfLeft(g, i.s, p, tried, left) else None
    case Repeated(times, tried, left) =>
      var q := EndOfSyms(g, i.s, p, times);
      if i.ZeroOrMore? && q.Some? then EndOfLeft(g, i.s, q.val, tried, left) else None
  }

  /** The symbol is not there; the text goes on where its rejecting primary function stopped. */
  function EndOfLeft(g: Grammar, s: SymId, p: nat, tried: Misses, left: seq<int>): (r: Opt<nat>)
    requires Known(g) && s < |g.syms| && p <= |g.text|
    ensures r.Some? ==> r.val <= |g.text|
    decreases tried, 2
  {
    if !Fails(g, s, p, tried) then None
    else
      match g.syms[s].primary
      case None => if left == [] then Some(p) else None
      case Some(primary) => var r := primary(g.text, p); if left == r.cells then Some(r.pos) else None
  }

  function EndOfSyms(g: Grammar, s: SymId, p: nat, times: Syms): (r: Opt<nat>)
    requires Known(g) && p <= |g.text| && s < |g.syms|
    ensures r.Some? ==> r.val <= |g.text|
    decreases times, 0
  {
    match times
    case NoSyms => Some(p)
    case Syms(t, rest) =>
      var q := EndOf(g, s, p, t);
      if q.None? then None else EndOfSyms(g, s, q.val, rest)
  }

  // ----- every parse has a tree -----

  lemma {:induction false} SyntaxHasTree(g: Grammar, f: nat, s: SymId, p: nat) returns (t: Sym, tried: Misses)
    requires Known(g) && s < |g.syms| && p <= |g.text| && PegSyntax(g, f, s, p) != Timeout
    ensures var r := PegSyntax(g, f, s, p);
            if r.Accept? then t.ByRule? && EndOf(g, s, p, t) == Some(r.pos) && PostOrder(t) == r.acts
            else AllMiss(g, g.syms[s].rules, p, tried)
    decreases f, 0, 0
  {
    var parts: Parts;
    tried, parts := ChoiceHasTree(g, f - 1, g.syms[s].rules, p);
    var n := Count(tried);
    t := ByRule(tried, parts, if n < |g.syms[s].rules| then ActionOf(g.syms[s].rules[n]) else []);
  }

  lemma {:induction false} ChoiceHasTree(g: Grammar, f: nat, rules: seq<Rule>, p: nat)
    returns (tried: Misses, parts: Parts)
    requires Known(g) && p <= |g.text| && (forall r :: r in rules ==> ItemsKnown(g, r.body))
    requires PegChoice(g, f, rules, p) != Timeout
    ensures var r, n := PegChoice(g, f, rules, p), Count(tried);
            if r.Accept? then
              n < |rules| && AllMiss(g, rules[..n], p, tried) && EndOfParts(g, rules[n].body, p, parts) == Some(r.pos)
              && PostParts(parts) + ActionOf(rules[n]) == r.acts
            else AllMiss(g, rules, p, tried)
    decreases f, 4, |rules|
  {
    tried, parts := NoMiss, NoParts;
    if rules != [] {
      var gone: Gone;
      parts, gone := BodyHasTree(g, f, rules[0].body, p);
      if PegRule(g, f, rules[0], p).Reject? {
        var rest, parts' := ChoiceHasTree(g, f, rules[1..], p);
        tried, parts := Misses(Miss(parts, gone), rest), parts';
        var n := Count(rest);
        if n < |rules[1..]| { assert rules[..n + 1][1..] == rules[1..][..n]; }
      }
    }
  }

  lemma {:induction false} BodyHasTree(g: Grammar, f: nat, body: seq<Item>, p: nat) returns (parts: Parts, gone: Gone)
    requires Known(g) && p <= |g.text| && ItemsKnown(g, body) && PegBody(g, f, body, p) != Timeout
    ensures var r := PegBody(g, f, body, p);
            if r.Accept? then EndOfParts(g, body, p, parts) == Some(r.pos) && PostParts(parts) == r.acts
            else MissesAt(g, body, p, Miss(parts, gone))
    decreases f, 3, |body|
  {
    parts, gone := NoParts, NoToken;
    if body != [] {
      var r := PegItem(g, f, body[0], p);
      var x, gone1 := ItemHasTree(g, f, body[0], p);
      if r.Accept? {
        var rest, gone2 := BodyHasTree(g, f, body[1..], r.pos);
        parts, gone := Parts(x, rest), gone2;
        var n := Length(rest);
        if n < |body[1..]| { assert body[..n + 1][1..] == body[1..][..n]; }
      } else {
        gone := gone1;
        assert body[..0] == [];
      }
    }
  }

  lemma {:induction false} ItemHasTree(g: Grammar, f: nat, i: Item, p: nat) returns (x: Part, gone: Gone)
    requires Known(g) && p <= |g.text| && i.s < |g.syms| && PegItem(g, f, i, p) != Timeout
    ensures var r := PegItem(g, f, i, p);
            if r.Accept? then EndOfPart(g, i, p, x) == Some(r.pos) && PostPart(x) == r.acts
            else IsGone(g, i, p, gone)
    decreases f, 2, 1
  {
    x, gone := Matched, NoToken;
    match i
    case Terminal(s) =>
    case NonTerminal(s) =>
      var t, tried := SymbolHasTree(g, f, s, p);
      x, gone := One(t), NoSymbol(tried);
    case ZeroOrOne(s) =>
      var t, tried := SymbolHasTree(g, f, s, p);
      x := if PegSymbol(g, f, s, p).Reject? then Absent(tried, Left(g, s, p).acts) else One(t);
    case ZeroOrMore(s) =>
      var times, tried, q, left := ManyHasTree(g, f, s, p);
      x := Repeated(times, tried, left);
  }

  lemma {:induction false} SymbolHasTree(g: Grammar, f: nat, s: SymId, p: nat) returns (t: Sym, tried: Misses)
    requires Known(g) && s < |g.syms| && p <= |g.text| && PegSymbol(g, f, s, p) != Timeout
    ensures var r := PegSymbol(g, f, s, p);
            if r.Accept? then EndOf(g, s, p, t) == Some(r.pos) && PostOrder(t) == r.acts
            else Fails(g, s, p, tried)
    decreases f, 1, 0
  {
    t, tried := SyntaxHasTree(g, f, s, p);
    if PegSyntax(g, f, s, p).Reject? && g.syms[s].primary.Some? {
      t := ByPrimary(tried, g.syms[s].primary.val(g.text, p).cells);
    }
  }

  lemma {:induction false} ManyHasTree(g: Grammar, f: nat, s: SymId, p: nat)
    returns (times: Syms, tried: Misses, q: nat, left: seq<int>)
    requires Known(g) && s < |g.syms| && p <= |g.text| && PegMany(g, f, s, p) != Timeout
    ensures var r := PegMany(g, f, s, p);
            && r.Accept? && EndOfSyms(g, s, p, times) == Some(q) && EndOfLeft(g, s, q, tried, left) == Some(r.pos)
            && PostSyms(times) + left == r.acts
    decreases f, 2, 0
  {
    var r := PegSymbol(g, f, s, p);
    var t, tried1 := SymbolHasTree(g, f, s, p);
    times, tried, q, left := NoSyms, tried1, p, Left(g, s, p).acts;
    if r.Accept? {
      var rest;
      rest, tried, q, left := ManyHasTree(g, f - 1, s, r.pos);
      times := Syms(t, rest);
      assert r.acts + (PostSyms(rest) + left) == (r.acts + PostSyms(rest)) + left;
    } else {
      assert [] + left == left;
    }
  }

  // ----- every tree is a parse -----

  function Most(a: nat, b: nat): nat { if a < b then b else a }

  lemma {:induction false} TreeParses(g: Grammar, s: SymId, p: nat, t: Sym) returns (f: nat)
    requires Known(g) && s < |g.syms| && p <= |g.text| && EndOf(g, s, p, t).Some?
    ensures PegSymbol(g, f, s, p) == Accept(EndOf(g, s, p, t).val, PostOrder(t))
    ensures t.ByRule? ==> PegSyntax(g, f, s, p) == Accept(EndOf(g, s, p, t).val, PostOrder(t))
    decreases t, 0
  {
    var rules := g.syms[s].rules;
    match t
    case ByRule(tried, parts, own) =>
      var n := Count(tried);
      var f1 := MissesParse(g, rules[..n], p, tried);
      var f2 := PartsParse(g, rules[n].body, p, parts);
      f := Most(f1, f2) + 1;
      MoreChoice(g, f1, f - 1, rules[..n], p);
      MoreBody(g, f2, f - 1, rules[n].body, p);
      PastMisses(g, f - 1, rules, n, p);
      assert rules[n..][0] == rules[n];
    case ByPrimary(tried, own) =>
      var f1 := MissesParse(g, rules, p, tried);
      f := f1 + 1;
  }

  lemma {:induction false} PastMisses(g: Grammar, f: nat, rules: seq<Rule>, n: nat, p: nat)
    requires Known(g) && p <= |g.text| && (forall r :: r in rules ==> ItemsKnown(g, r.body)) && n <= |rules|
    requires PegChoice(g, f, rules[..n], p) == Reject
    ensures PegChoice(g, f, rules, p) == PegChoice(g, f, rules[n..], p)
    decreases n
  {
    if n == 0 {
      assert rules[0..] == rules;
    } else {
      assert rules[..n][0] == rules[0];
      assert rules[..n][1..] == rules[1..][..n - 1];
      PastMisses(g, f, rules[1..], n - 1, p);
      assert rules[1..][n - 1..] == rules[n..];
    }
  }

  lemma {:induction false} MissesParse(g: Grammar, rules: seq<Rule>, p: nat, tried: Misses) returns (f: nat)
    requires Known(g) && p <= |g.text| && (forall r :: r in rules ==> ItemsKnown(g, r.body))
    requires AllMiss(g, rules, p, tried)
    ensures PegChoice(g, f, rules, p) == Reject
    decreases tried, 0
  {
    f := 0;
    if tried.Misses? {
      var f1 := MissParses(g, rules[0].body, p, tried.first);
      var f2 := MissesParse(g, rules[1..], p, tried.rest);
      f := Most(f1, f2);
      MoreBody(g, f1, f, rules[0].body, p);
      MoreChoice(g, f2, f, rules[1..], p);
    }
  }

  lemma {:induction false} MissParses(g: Grammar, body: seq<Item>, p: nat, m: Miss) returns (f: nat)
    requires Known(g) && p <= |g.text| && ItemsKnown(g, body) && MissesAt(g, body, p, m)
    ensures PegBody(g, f, body, p) == Reject
    decreases m, 0
  {
    var n := Length(m.found);
    var q := EndOfParts(g, body[..n], p, m.found).val;
    var f1 := PartsParse(g, body[..n], p, m.found);
    var f2 := GoneParses(g, body[n], q, m.gone);
    f := Most(f1, f2);
    MoreBody(g, f1, f, body[..n], p);
    MoreItem(g, f2, f, body[n], q);
    StopsAt(g, f, body, n, p);
  }

  lemma {:induction false} StopsAt(g: Grammar, f: nat, body: seq<Item>, n: nat, p: nat)
    requires Known(g) && p <= |g.text| && ItemsKnown(g, body) && n < |body|
    requires var r := PegBody(g, f, body[..n], p); r.Accept? && PegItem(g, f, body[n], r.pos) == Reject
    ensures PegBody(g, f, body, p) == Reject
    decreases n
  {
    if n > 0 {
      assert body[..n][0] == body[0] && body[..n][1..] == body[1..][..n - 1];
      StopsAt(g, f, body[1..], n - 1, PegItem(g, f, body[0], p).pos);
    }
  }

  lemma {:induction false} GoneParses(g: Grammar, i: Item, p: nat, gone: Gone) returns (f: nat)
    requires Known(g) && p <= |g.text| && i.s < |g.syms| && IsGone(g, i, p, gone)
    ensures PegItem(g, f, i, p) == Reject
    decreases gone, 0
  {
    f := 0;
    if gone.NoSymbol? { f := FailParses(g, i.s, p, gone.tried); }
  }

  lemma {:induction false} FailParses(g: Grammar, s: SymId, p: nat, tried: Misses) returns (f: nat)
    requires Known(g) && s < |g.syms| && p <= |g.text| && Fails(g, s, p, tried)
    ensures PegSymbol(g, f, s, p) == Reject
    decreases tried, 1
  {
    var f1 := MissesParse(g, g.syms[s].rules, p, tried);
    f := f1 + 1;
  }

  lemma {:induction false} PartsParse(g: Grammar, body: seq<Item>, p: nat, parts: Parts) returns (f: nat)
    requires Known(g) && p <= |g.text| && ItemsKnown(g, body) && EndOfParts(g, body, p, parts).Some?
    ensures PegBody(g, f, body, p) == Accept(EndOfParts(g, body, p, parts).val, PostParts(parts))
    decreases parts, 0
  {
    f := 0;
    if parts.Parts? {
      var q := EndOfPart(g, body[0], p, parts.first).val;
      var f1 := PartParses(g, body[0], p, parts.first);
      var f2 := PartsParse(g, body[1..], q, parts.rest);
      f := Most(f1, f2);
      MoreItem(g, f1, f, body[0], p);
      MoreBody(g, f2, f, body[1..], q);
    }
  }

  lemma {:induction false} PartParses(g: Grammar, i: Item, p: nat, x: Part) returns (f: nat)
    requires Known(g) && p <= |g.text| && i.s < |g.syms| && EndOfPart(g, i, p, x).Some?
    ensures PegItem(g, f, i, p) == Accept(EndOfPart(g, i, p, x).val, PostPart(x))
    decreases x, 0
  {
    match x
    case Matched => f := 0;
    case One(t) => f := TreeParses(g, i.s, p, t);
    case Absent(tried, left) => f := FailParses(g, i.s, p, tried);
    case Repeated(times, tried, left) =>
      var q := EndOfSyms(g, i.s, p, times).val;
      var f1 := FailParses(g, i.s, q, tried);
      f := ManyParse(g, i.s, p, times, f1);
  }

  lemma {:induction false} ManyParse(g: Grammar, s: SymId, p: nat, times: Syms, h: nat) returns (f: nat)
    requires Known(g) && p <= |g.text| && s < |g.syms| && EndOfSyms(g, s, p, times).Some?
    requires PegMany(g, h, s, EndOfSyms(g, s, p, times).val).Accept?
    ensures PegMany(g, f, s, p) == After(PostSyms(times), PegMany(g, h, s, EndOfSyms(g, s, p, times).val))
    decreases times, 0
  {
    match times
    case NoSyms =>
      f := h;
      AfterNothing(PegMany(g, h, s, p));
    case Syms(t, rest) =>
      var q := EndOf(g, s, p, t).val;
      var f1 := TreeParses(g, s, p, t);
      var f2 := ManyParse(g, s, q, rest, h);
      f := Most(f1, f2 + 1);
      MoreSymbol(g, f1, f, s, p);
      MoreMany(g, f2, f - 1, s, q);
      AfterAfter(PostOrder(t), PostSyms(rest), PegMany(g, h, s, EndOfSyms(g, s, q, rest).val));
  }

  // ----- the law -----

  /** The text from `p` to `q` is parsed with those actions if and only if a derivation tree
      from `p` ends at `q` and has them in post-order. */
  lemma {:induction false} ParsedIffDerived(g: Grammar, s: SymId, p: nat, q: nat, acts: seq<int>)
    requires Known(g) && s < |g.syms| && p <= |g.text|
    ensures (exists f: nat :: PegSyntax(g, f, s, p) == Accept(q, acts))
       <==> (exists t: Sym :: t.ByRule? && EndOf(g, s, p, t) == Some(q) && PostOrder(t) == acts)
  {
    if f: nat :| PegSyntax(g, f, s, p) == Accept(q, acts) {
      var t, tried := SyntaxHasTree(g, f, s, p);
    }
    if t: Sym :| t.ByRule? && EndOf(g, s, p, t) == Some(q) && PostOrder(t) == acts {
      var f := TreeParses(g, s, p, t);
    }
  }

  /** And it is rejected if and only if every alternative misses. */
  lemma {:induction false} RejectedIffMissed(g: Grammar, s: SymId, p: nat)
    requires Known(g) && s < |g.syms| && p <= |g.text|
    ensures (exists f: nat :: PegSyntax(g, f, s, p) == Reject)
       <==> (exists tried: Misses :: AllMiss(g, g.syms[s].rules, p, tried))
  {
    if f: nat :| PegSyntax(g, f, s, p) == Reject {
      var t, tried := SyntaxHasTree(g, f, s, p);
      assert AllMiss(g, g.syms[s].rules, p, tried);
    }
    if tried: Misses :| AllMiss(g, g.syms[s].rules, p, tried) {
      var f := MissesParse(g, g.syms[s].rules, p, tried);
      assert PegSyntax(g, f + 1, s, p) == Reject;
    }
  }

  /** A symbol has one reading: all its trees from a place end alike with the same actions,
      and where there is one not every alternative misses. */
  lemma {:induction false} OneReading(g: Grammar, s: SymId, p: nat, t: Sym, u: Sym, tried: Misses)
    requires Known(g) && s < |g.syms| && p <= |g.text|
    requires t.ByRule? && EndOf(g, s, p, t).Some?
    ensures u.ByRule? && EndOf(g, s, p, u).Some? ==>
            EndOf(g, s, p, u) == EndOf(g, s, p, t) && PostOrder(u) == PostOrder(t)
    ensures !AllMiss(g, g.syms[s].rules, p, tried)
  {
    var f := TreeParses(g, s, p, t);
    if u.ByRule? && EndOf(g, s, p, u).Some? {
      var h := TreeParses(g, s, p, u);
      OneParse(g, f, h, s, p);
    }
    if AllMiss(g, g.syms[s].rules, p, tried) {
      var h := MissesParse(g, g.syms[s].rules, p, tried);
      assert PegSyntax(g, h + 1, s, p) == Reject;
      OneParse(g, f, h + 1, s, p);
    }
  }

  /** Rule `a := b` with an action, rule `b :=` nothing with another: the parts come first. */
  lemma {:induction false} PartsFirst(g: Grammar, outer: int, inner: int)
    requires Known(g) && |g.syms| == 2
    requires g.syms[0].rules == [Rule([NonTerminal(1)], Some(outer))] && g.syms[1].rules == [Rule([], Some(inner))]
    ensures PegSyntax(g, 2, 0, 0) == Accept(0, [inner, outer])
  {
    var b := Rule([], Some(inner));
    assert PegBody(g, 0, [], 0) == Accept(0, []);
    assert PegRule(g, 0, b, 0) == Accept(0, [] + [inner]);
    assert PegChoice(g, 0, [b], 0) == PegRule(g, 0, b, 0);
    assert [] + [inner] == [inner];
    assert PegSymbol(g, 1, 1, 0) == Accept(0, [inner]);
    assert [NonTerminal(1)][1..] == [];
    assert PegBody(g, 1, [], 0) == Accept(0, []);
    assert PegBody(g, 1, [NonTerminal(1)], 0) == Accept(0, [inner] + []);
    assert [inner] + [] == [inner];
    assert [inner] + [outer] == [inner, outer];
  }
}
