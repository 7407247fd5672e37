/**
 The conditional compiler of drivers/mdrive/microcode/compile/parse.py: the
 flat machine over #if, #elseif, #else, #endif and #define, and the meaning
 of nested conditionals it should have.
 */
module Preparser {
  import opened Wrappers

  /** What a Python expression evaluates to: an integer (booleans are integers), or anything else, told
      apart by how it is written. */
  datatype Value = Number(n: int) | Thing(written: string, truthy: bool) {
    predicate Truthy() {
      if Number? then n != 0 else truthy
    }
  }

  const NONE := Thing("None", false)
  const FALSE := Number(0)
  const TRUE := Number(1)

  function Not(v: Value): Value {
    if v.Truthy() then FALSE else TRUE
  }

  type Env = map<string, Value>

  // Evaluation of an expression; None when it raises.
  type Evaluator = (string, Env) -> Option<Value>

  datatype Fault =
    | ElseIfWithoutIf | ElseWithoutIf | UnmatchedEndIf | OpenEnded
    | Unsupported
    | EvaluationRaised
    | NotOrable             // `or`-ing the skip stack met something that is not an integer

  datatype Token =
    | Statement(text: string)
    | If(cond: string)
    | ElseIf(cond: string)
    | Else
    | EndIf
    | Define(name: string, value: Option<string>)
    | Other(name: string)

  datatype State = State(depth: int, skip: seq<Value>, matched: seq<Value>, environ: Env, tree: seq<string>) {
    predicate Valid() {
      depth >= 0 && |skip| == |matched| == depth + 1 && skip[0] == FALSE
    }
  }

  predicate Poisoned(skip: seq<Value>) {
    exists i :: 0 <= i < |skip| && skip[i].Thing?
  }

  predicate Skipped(skip: seq<Value>) {
    exists i :: 0 <= i < |skip| && skip[i].Truthy()
  }

  /** The `skipping` property: the bitwise or of the skip stack is non-zero; None on a TypeError. */
  function Skipping(skip: seq<Value>): Option<bool> {
    if Poisoned(skip) then None else Some(Skipped(skip))
  }

  function Bind(ev: Evaluator, environ: Env, name: string, value: Option<string>): Result<Env, Fault> {
    match value
    case None => Success(environ[name := NONE])
    case Some(text) =>
      match ev(text, environ)
      case None => Failure(EvaluationRaised)
      case Some(v) => Success(environ[name := v])
  }

  /** One node of the syntax tree, as the machine treats it. */
  function Visit(ev: Evaluator, st: State, token: Token): (r: Result<State, Fault>)
    requires st.Valid()
    ensures r.Success? ==> r.value.Valid()
  {
    match token
    case Statement(text) =>
      (match Skipping(st.skip)
       case None => Failure(NotOrable)
       case Some(skipping) => Success(if skipping then st else st.(tree := st.tree + [text])))
    case Define(name, value) =>
      (match Skipping(st.skip)
       case None => Failure(NotOrable)
       case Some(skipping) =>
         if skipping then Success(st)
         else
           match Bind(ev, st.environ, name, value)
           case Failure(f) => Failure(f)
           case Success(environ) => Success(st.(environ := environ)))
    case If(cond) =>
      var v := match ev(cond, st.environ) case None => FALSE case Some(v) => v;
      Success(st.(depth := st.depth + 1, matched := st.matched + [v], skip := st.skip + [Not(v)]))
    case ElseIf(cond) =>
      if st.depth == 0 then Failure(ElseIfWithoutIf)
      else if !st.matched[st.depth].Truthy() then
        match ev(cond, st.environ)
        case None => Failure(EvaluationRaised)
        case Some(v) => Success(st.(matched := st.matched[st.depth := v], skip := st.skip[st.depth := Not(v)]))
      else Success(st.(skip := st.skip[st.depth := TRUE]))
    case Else =>
      if st.depth == 0 then Failure(ElseWithoutIf)
      else Success(st.(skip := st.skip[st.depth := st.matched[st.depth]]))
    case EndIf =>
      if st.depth == 0 then Failure(UnmatchedEndIf)
      else Success(st.(depth := st.depth - 1, skip := st.skip[..st.depth], matched := st.matched[..st.depth]))
    case Other(_) => Failure(Unsupported)
  }

  function VisitAll(ev: Evaluator, st: State, tokens: seq<Token>): (r: Result<State, Fault>)
    requires st.Valid()
    ensures r.Success? ==> r.value.Valid()
    decreases |tokens|
  {
    if tokens == [] then Success(st)
    else
      match Visit(ev, st, tokens[0])
      case Failure(f) => Failure(f)
      case Success(st') => VisitAll(ev, st', tokens[1..])
  }

  function Start(environ: Env): State {
    State(0, [FALSE], [FALSE], environ, [])
  }

  // ---------- The class ----------

  class Machine {
    const evaluate: Evaluator
    var depth: int
    var skip: seq<Value>
    var matched: seq<Value>
    var environ: Env
    var tree: seq<string>

    ghost function View(): State
      reads this
    {
      State(depth, skip, matched, environ, tree)
    }

    constructor (evaluate: Evaluator, environ: Env)
      ensures View() == Start(environ) && this.evaluate == evaluate
    {
      this.evaluate := evaluate;
      depth, skip, matched, tree := 0, [FALSE], [FALSE], [];
      this.environ := environ;
    }

    /** visit and the pragma handlers. */
    method VisitNode(token: Token) returns (fault: Option<Fault>)
      requires View().Valid()
      modifies this
      ensures match Visit(evaluate, old(View()), token)
              case Failure(f) => fault == Some(f)
              case Success(st) => fault == None && View() == st && st.Valid()
    {
      fault := None;
      match token
      case Statement(text) =>
        match Skipping(skip) {
          case None => return Some(NotOrable);
          case Some(skipping) =>
            if !skipping {
              tree := tree + [text];
            }
        }
      case If(cond) =>
        match evaluate(cond, environ) {
          case None => matched := matched + [FALSE];
          case Some(v) => matched := matched + [v];
        }
        skip := skip + [Not(matched[|matched| - 1])];
        depth := depth + 1;
      case ElseIf(cond) =>
        if depth == 0 {
          return Some(ElseIfWithoutIf);
        } else if !matched[depth].Truthy() {
          match evaluate(cond, environ) {
            case None => return Some(EvaluationRaised);
            case Some(v) =>
              matched := matched[depth := v];
              skip := skip[depth := Not(matched[depth])];
          }
        } else {
          skip := skip[depth := TRUE];
        }
      case Else =>
        if depth == 0 {
          return Some(ElseWithoutIf);
        }
        skip := skip[depth := matched[depth]];
      case EndIf =>
        if depth == 0 {
          return Some(UnmatchedEndIf);
        }
        skip := skip[..|skip| - 1];
        matched := matched[..|matched| - 1];
        depth := depth - 1;
      case Define(name, value) =>
        match Skipping(skip) {
          case None => return Some(NotOrable);
          case Some(skipping) =>
            if !skipping {
              match Bind(evaluate, environ, name, value) {
                case Failure(f) => return Some(f);
                case Success(bound) => environ := bound;
              }
            }
        }
      case Other(_) =>
        return Some(Unsupported);
    }

    /** parse: the tree, or the first fault; an #if left open is one. */
    method Parse(tokens: seq<Token>) returns (result: Result<seq<string>, Fault>)
      requires View().Valid() && tree == []
      modifies this
      ensures match VisitAll(evaluate, old(View()), tokens)
              case Failure(f) => result == Failure(f)
              case Success(st) =>
                View() == st && result == if st.depth > 0 then Failure(OpenEnded) else Success(st.tree)
    {
      for i := 0 to |tokens|
        invariant View().Valid()
        invariant VisitAll(evaluate, View(), tokens[i..]) == VisitAll(evaluate, old(View()), tokens)
      {
        assert tokens[i..][0] == tokens[i] && tokens[i..][1..] == tokens[i + 1..];
        var fault := VisitNode(tokens[i]);
        if fault.Some? {
          return Failure(fault.value);
        }
      }
      if depth > 0 {
        return Failure(OpenEnded);
      }
      return Success(tree);
    }
  }
}
