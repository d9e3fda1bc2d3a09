/** The source language of a colon definition: the words the outer interpreter meets one
    at a time, and the well-nested statements those words are meant to spell. */
module ControlSyntax {

  /** One source word, as met while compiling. `WPlain` is any word whose run-time effect
      is confined to the parameter stack. */
  datatype Word =
    | WPlain(id: nat) | WLit(n: int) | WCall(d: nat) | WMacro(d: nat)
    | WRecurse | WTailRecurse | WExit | WI | WJ | WLeave
    | WIf | WElse | WThen
    | WBegin | WUntil | WWhile | WRepeat | WAgain
    | WCase | WOf | WEndof | WEndcase
    | WDo | WQDo | WLoop | WPlusLoop

  /** A well-nested piece of source. `Case` holds its arms in order; the last element of
      the chain is the default part in front of `endcase`. */
  datatype Stmt =
    | Skip
    | Seq(first: Stmt, second: Stmt)
    | Atom(w: Word)
    | If(thn: Stmt)
    | IfElse(thn: Stmt, els: Stmt)
    | Again(body: Stmt)
    | Until(body: Stmt)
    | While(cond: Stmt, body: Stmt)
    | Case(arms: Arms)
    | Do(query: bool, body: Stmt, plus: bool)

  datatype Arms =
    | Default(dflt: Stmt)
    | Arm(pre: Stmt, arm: Stmt, rest: Arms)

  /** Words that open, continue or close no structure. */
  predicate IsAtom(w: Word) {
    w.WPlain? || w.WLit? || w.WCall? || w.WMacro? || w.WRecurse? || w.WTailRecurse? ||
    w.WExit? || w.WI? || w.WJ? || w.WLeave?
  }

  /** Every `Atom` of the statement holds an atomic word. */
  predicate Proper(c: Stmt) {
    match c
    case Skip => true
    case Seq(a, b) => Proper(a) && Proper(b)
    case Atom(w) => IsAtom(w)
    case If(t) => Proper(t)
    case IfElse(t, e) => Proper(t) && Proper(e)
    case Again(b) => Proper(b)
    case Until(b) => Proper(b)
    case While(t, b) => Proper(t) && Proper(b)
    case Case(arms) => ProperArms(arms)
    case Do(_, b, _) => Proper(b)
  }

  predicate ProperArms(arms: Arms) {
    match arms
    case Default(d) => Proper(d)
    case Arm(p, b, rest) => Proper(p) && Proper(b) && ProperArms(rest)
  }

  /** The word sequence a programmer types for a statement. */
  function Flatten(c: Stmt): seq<Word> {
    match c
    case Skip => []
    case Seq(a, b) => Flatten(a) + Flatten(b)
    case Atom(w) => [w]
    case If(t) => [WIf] + Flatten(t) + [WThen]
    case IfElse(t, e) => [WIf] + Flatten(t) + [WElse] + Flatten(e) + [WThen]
    case Again(b) => [WBegin] + Flatten(b) + [WAgain]
    case Until(b) => [WBegin] + Flatten(b) + [WUntil]
    case While(t, b) => [WBegin] + Flatten(t) + [WWhile] + Flatten(b) + [WRepeat]
    case Case(arms) => [WCase] + FlattenArms(arms)
    case Do(q, b, p) =>
      [if q then WQDo else WDo] + Flatten(b) + [if p then WPlusLoop else WLoop]
  }

  function FlattenArms(arms: Arms): seq<Word> {
    match arms
    case Default(d) => Flatten(d) + [WEndcase]
    case Arm(p, b, rest) => Flatten(p) + [WOf] + Flatten(b) + [WEndof] + FlattenArms(rest)
  }

  /** A word sequence is well nested when some proper statement flattens to it. */
  ghost predicate WellNested(ws: seq<Word>) {
    exists c: Stmt :: Proper(c) && Flatten(c) == ws
  }
}
