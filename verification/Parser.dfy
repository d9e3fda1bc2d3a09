/** The backtracking parser virtual machine against a recursive parsing expression grammar
    with semantic actions. */
module Parser {
  import opened Arithmetic
  import opened Options
  import opened Grammars
  import D = Derivations

  /** A call is accepted or rejected, unless the depth bound or the action list ran out. */
  datatype Verdict = Accepted | Rejected | Deep | Full

  class ParserVM {
    const g: Grammar
    var toBuffer: nat                  // the position in the text
    const semantics: array<int>
    var toSemantics: nat               // the cells used so far

    constructor (g: Grammar, size: nat)
      requires Known(g)
      ensures Valid() && this.g == g && Actions() == [] && toBuffer == 0 && semantics.Length == size
    {
      this.g := g;
      semantics := new int[size];
      toBuffer, toSemantics := 0, 0;
    }

    ghost predicate Valid()
      reads this, semantics
    {
      Known(g) && toBuffer <= |g.text| && toSemantics <= semantics.Length
    }

    /** The action list built so far. */
    ghost function Actions(): seq<int>
      requires Valid()
      reads this, semantics
    {
      semantics[..toSemantics]
    }

    /** Started from `(p, acts)`: acceptance adds the actions of the parse, and a
        rejection has put everything back. */
    ghost predicate Parsed(v: Verdict, r: Peg, p: nat, acts: seq<int>)
      reads this, semantics
    {
      && Valid()
      && (v == Accepted ==> r.Accept? && toBuffer == r.pos && Actions() == acts + r.acts)
      && (v == Rejected ==> r == Reject && toBuffer == p && Actions() == acts)
      && (v == Deep ==> r == Timeout)
    }

    /** The same, but a rejection may have moved on and left actions behind. */
    ghost predicate Attempted(v: Verdict, r: Peg, acts: seq<int>)
      reads this, semantics
    {
      && Valid()
      && (v == Accepted ==> r.Accept? && toBuffer == r.pos && Actions() == acts + r.acts)
      && (v == Rejected ==> r == Reject && acts <= Actions())
      && (v == Deep ==> r == Timeout)
    }

    /** The machine is where the accepted part `r` ends, started with `acts`. */
    ghost predicate At(r: Peg, acts: seq<int>)
      reads this, semantics
    {
      Valid() && r.Accept? && toBuffer == r.pos && Actions() == acts + r.acts
    }

    /** `scan`: the token after the skipped white space; the scanner moves past it. */
    method Scan() returns (token: string)
      requires Valid()
      modifies this`toBuffer
      ensures Valid() && token == Token(g.text, g.brk, old(toBuffer)) &&
              toBuffer == TokenEnd(g.text, g.brk, old(toBuffer))
      ensures var text, start := g.text, Skip(g.text, old(toBuffer));
              && (forall i :: old(toBuffer) <= i < start ==> 1 <= text[i] as int <= 32)
              && (start < |text| ==> text[start] as int > 32)
              && token == text[start..toBuffer]
              && (start == |text| ==> toBuffer == start)
              && (start < |text| && g.brk(text[start]) ==> toBuffer == start + 1)
              && (start < |text| && !g.brk(text[start]) ==>
                    && start < toBuffer && (forall i :: start <= i < toBuffer ==> !g.brk(text[i]))
                    && (toBuffer < |text| ==> g.brk(text[toBuffer])))
    {
      var p: nat := toBuffer;
      while White(CharAt(g.text, p))
        invariant toBuffer <= p <= |g.text| && Skip(g.text, p) == Skip(g.text, toBuffer)
        decreases |g.text| - p
      {
        p := p + 1;
      }
      var start := p;
      if g.brk(CharAt(g.text, p)) {
        if CharAt(g.text, p) != '\0' { p := p + 1; }
      } else {
        p := p + 1;
        while !g.brk(CharAt(g.text, p))
          invariant start < p <= |g.text| && NextBreak(g.text, g.brk, p) == NextBreak(g.text, g.brk, start + 1)
          decreases |g.text| - p
        {
          p := p + 1;
        }
      }
      token := g.text[start..p];
      toBuffer := p;
      TokenIs(g.text, g.brk, old(toBuffer));
    }

    /** `-match`: false when the first `|token|` characters of the name agree and there is at
        least one. */
    method NotMatch(name: string, token: string) returns (differ: bool)
      requires forall i :: 0 <= i < |token| ==> token[i] != '\0'
      ensures differ == !TokenOf(token, name)
      ensures differ <==> !(0 < |token| <= |name| && forall i :: 0 <= i < |token| ==> name[i] == token[i])
    {
      if token != "" {
        var i := 0;
        while CharAt(name, i) == token[i]
          invariant 0 <= i < |token| && i <= |name| && token[..i] == name[..i]
          decreases |token| - i
        {
          i := i + 1;
          if i == |token| { return false; }
        }
      }
      differ := true;
    }

    /** `semantic,` */
    method Append(x: int) returns (ok: bool)
      requires Valid()
      modifies this`toSemantics, semantics
      ensures Valid() && (ok ==> Actions() == old(Actions()) + [x]) && (!ok ==> Actions() == old(Actions()))
    {
      ok := toSemantics < semantics.Length;
      if ok {
        semantics[toSemantics] := x;
        toSemantics := toSemantics + 1;
      }
    }

    /** `+primary @`: run the primary function, if there is one. */
    method DoPrimary(s: SymId) returns (v: Verdict)
      requires Valid() && s < |g.syms|
      modifies this`toBuffer, this`toSemantics, semantics
      ensures Attempted(v, PegPrimary(g, s, old(toBuffer)), old(Actions())) && v != Deep
      ensures v == Rejected ==> At(Left(g, s, old(toBuffer)), old(Actions()))
    {
      if g.syms[s].primary.None? { return Rejected; }
      var r := g.syms[s].primary.val(g.text, toBuffer);
      var k := 0;
      ghost var acts := Actions();
      while k < |r.cells|
        invariant Valid() && 0 <= k <= |r.cells| && Actions() == acts + r.cells[..k]
      {
        var ok := Append(r.cells[k]);
        if !ok { return Full; }
        k := k + 1;
      }
      toBuffer := r.pos;
      v := if r.ok then Accepted else Rejected;
    }

    /** `syntax`: try the rules in order; `seize` saves the position and the end of the action
        list, `backtrack` puts them back. A rejected call changes neither. */
    method DoSyntax(s: SymId, f: nat) returns (v: Verdict)
      requires Valid() && s < |g.syms|
      modifies this`toBuffer, this`toSemantics, semantics
      ensures Parsed(v, PegSyntax(g, f, s, old(toBuffer)), old(toBuffer), old(Actions()))
      decreases f, 0, 0
    {
      if f == 0 { return Deep; }
      var rules := g.syms[s].rules;
      var k := 0;
      while k < |rules|
        invariant 0 <= k <= |rules| && Valid() && toBuffer == old(toBuffer) && Actions() == old(Actions())
        invariant PegChoice(g, f - 1, rules, toBuffer) == PegChoice(g, f - 1, rules[k..], toBuffer)
      {
        var x, y := toBuffer, toSemantics;
        assert rules[k] in g.syms[s].rules && rules[k..][1..] == rules[k + 1..];
        v := DoRule(rules[k], f - 1);
        if v != Rejected { return; }
        toBuffer, toSemantics := x, y;
        k := k + 1;
      }
      v := Rejected;
    }

    /** The compiled code of a rule: each item may drop the return address and reject; at the
        end `semantic` or `no-semantic` accepts. */
    method DoRule(rule: Rule, f: nat) returns (v: Verdict)
      requires Valid() && ItemsKnown(g, rule.body)
      modifies this`toBuffer, this`toSemantics, semantics
      ensures Attempted(v, PegRule(g, f, rule, old(toBuffer)), old(Actions()))
      decreases f, 4, 0
    {
      v := DoBody(rule.body, f);
      if v == Accepted && rule.action.Some? {
        var ok := Append(rule.action.val);
        if !ok { v := Full; }
      }
    }

    method DoBody(body: seq<Item>, f: nat) returns (v: Verdict)
      requires Valid() && ItemsKnown(g, body)
      modifies this`toBuffer, this`toSemantics, semantics
      ensures Attempted(v, PegBody(g, f, body, old(toBuffer)), old(Actions()))
      decreases f, 3, 1
    {
      hide Known, ItemsKnown, PegBody, PegItem, After;
      var k := 0;
      ghost var done: seq<int> := [];
      AfterNothing(PegBody(g, f, body, toBuffer));
      assert body[0..] == body;
      while k < |body|
        invariant 0 <= k <= |body| && ItemsKnown(g, body[k..]) && Valid() && Actions() == old(Actions()) + done
        invariant PegBody(g, f, body, old(toBuffer)) == After(done, PegBody(g, f, body[k..], toBuffer))
      {
        BodyStep(g, f, body, k, toBuffer, done);
        ghost var r := PegItem(g, f, body[k], toBuffer);
        v := DoItem(body[k], f);
        if v != Accepted { return; }
        assert old(Actions()) + done + r.acts == old(Actions()) + (done + r.acts);
        done := done + r.acts;
        k := k + 1;
      }
      BodyEnd(g, f, body[k..], toBuffer, done);
      v := Accepted;
    }

    /** One virtual machine instruction. */
    method DoItem(i: Item, f: nat) returns (v: Verdict)
      requires Valid() && i.s < |g.syms|
      modifies this`toBuffer, this`toSemantics, semantics
      ensures Attempted(v, PegItem(g, f, i, old(toBuffer)), old(Actions()))
      decreases f, 3, 0
    {
      match i
      case Terminal(s) => v := DoTerminal(s);
      case NonTerminal(s) => v := DoSymbol(s, f);
      case ZeroOrOne(s) => v := DoZeroOrOne(s, f);
      case ZeroOrMore(s) => v := DoZeroOrMore(s, f);
    }

    /** `terminal` */
    method DoTerminal(s: SymId) returns (v: Verdict)
      requires Valid() && s < |g.syms|
      modifies this`toBuffer
      ensures Attempted(v, PegItem(g, 0, Terminal(s), old(toBuffer)), old(Actions())) &&
              (v == Accepted || v == Rejected)
    {
      var token := Scan();
      var differ := NotMatch(g.syms[s].name, token);
      v := if differ then Rejected else Accepted;
    }

    /** `dup syntax if drop true else primary then`, shared by the instructions that call a
        symbol; a rejection leaves what the primary function left. */
    method DoSymbol(s: SymId, f: nat) returns (v: Verdict)
      requires Valid() && s < |g.syms|
      modifies this`toBuffer, this`toSemantics, semantics
      ensures Attempted(v, PegSymbol(g, f, s, old(toBuffer)), old(Actions()))
      ensures v == Rejected ==> At(Left(g, s, old(toBuffer)), old(Actions()))
      decreases f, 1, 0
    {
      v := DoSyntax(s, f);
      if v == Rejected { v := DoPrimary(s); }
    }

    /** `zero-or-one`: goes on from what the primary function left when it rejects. */
    method DoZeroOrOne(s: SymId, f: nat) returns (v: Verdict)
      requires Valid() && s < |g.syms|
      modifies this`toBuffer, this`toSemantics, semantics
      ensures Attempted(v, PegItem(g, f, ZeroOrOne(s), old(toBuffer)), old(Actions())) && v != Rejected
      decreases f, 2, 0
    {
      v := DoSymbol(s, f);
      if v == Rejected { v := Accepted; }
    }

    /** `zero-or-more`: ends the same way. */
    method DoZeroOrMore(s: SymId, f: nat) returns (v: Verdict)
      requires Valid() && s < |g.syms|
      modifies this`toBuffer, this`toSemantics, semantics
      ensures Attempted(v, PegItem(g, f, ZeroOrMore(s), old(toBuffer)), old(Actions())) && v != Rejected
      decreases f, 2, 0
    {
      var h := f;
      ghost var done: seq<int> := [];
      AfterNothing(PegMany(g, f, s, toBuffer));
      assert PegItem(g, f, ZeroOrMore(s), toBuffer) == PegMany(g, f, s, toBuffer);
      hide Known, PegMany, PegSymbol, PegItem;
      ghost var acts := Actions();
      while true
        invariant 0 <= h <= f && Valid() && Actions() == acts + done
        invariant PegMany(g, f, s, old(toBuffer)) == After(done, PegMany(g, h, s, toBuffer))
        decreases h
      {
        ghost var l, r := Left(g, s, toBuffer), PegSymbol(g, h, s, toBuffer);
        ManyStep(g, h, s, toBuffer, done);
        v := DoSymbol(s, h);
        if v == Rejected {
          assert acts + done + l.acts == acts + (done + l.acts);
          return Accepted;
        }
        if v != Accepted { return; }
        if h == 0 { return Deep; }
        assert acts + done + r.acts == acts + (done + r.acts);
        done := done + r.acts;
        h := h - 1;
      }
    }

    /** `parse`: from the start of the buffer and an empty action list; an accepted parse ends
        the list with `exit`, so that it can be called. */
    method Parse(s: SymId, f: nat, exit: int) returns (v: Verdict)
      requires Valid() && s < |g.syms|
      modifies this`toBuffer, this`toSemantics, semantics
      ensures Valid()
      ensures var r := PegSyntax(g, f, s, 0);
              && (v == Accepted ==> r.Accept? && toBuffer == r.pos && Actions() == r.acts + [exit])
              && (v == Rejected ==> r == Reject && Actions() == [])
              && (v == Deep ==> r == Timeout)
      ensures v == Accepted ==> exists t: D.Sym ::
                t.ByRule? && D.EndOf(g, s, 0, t) == Some(toBuffer) && Actions() == D.PostOrder(t) + [exit]
      ensures v == Rejected ==> exists tried: D.Misses :: D.AllMiss(g, g.syms[s].rules, 0, tried)
    {
      toBuffer, toSemantics := 0, 0;
      v := DoSyntax(s, f);
      if v == Accepted || v == Rejected { ghost var t, tried := D.SyntaxHasTree(g, f, s, 0); }
      if v == Accepted {
        var ok := Append(exit);
        if !ok { v := Full; }
      }
    }
  }
}
