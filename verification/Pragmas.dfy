/**
 Which streams of nodes the preprocessor of drivers/mdrive/microcode/compile/parse.py
 accepts, nested or not, and how the value of a condition decides.
 */
module Pragmas {
  import opened Wrappers
  import opened Preparser

  /** The evaluator never raises, and gives integers only. */
  ghost predicate Total(ev: Evaluator) {
    forall text, env :: ev(text, env).Some? && ev(text, env).value.Number?
  }

  /** The first pragma that stands where it must not: without an #if that is open, or of no known kind. */
  function Misplaced(tokens: seq<Token>, depth: nat): Option<Fault> {
    if tokens == [] then None
    else
      match tokens[0]
      case Statement(_) => Misplaced(tokens[1..], depth)
      case Define(_, _) => Misplaced(tokens[1..], depth)
      case If(_) => Misplaced(tokens[1..], depth + 1)
      case ElseIf(_) => if depth == 0 then Some(ElseIfWithoutIf) else Misplaced(tokens[1..], depth)
      case Else => if depth == 0 then Some(ElseWithoutIf) else Misplaced(tokens[1..], depth)
      case EndIf => if depth == 0 then Some(UnmatchedEndIf) else Misplaced(tokens[1..], depth - 1)
      case Other(_) => Some(Unsupported)
  }

  function Count(tokens: seq<Token>, p: Token -> bool): nat {
    if tokens == [] then 0 else (if p(tokens[0]) then 1 else 0) + Count(tokens[1..], p)
  }

  ghost predicate Integers(st: State) {
    && (forall i :: 0 <= i < |st.skip| ==> st.skip[i].Number?)
    && (forall i :: 0 <= i < |st.matched| ==> st.matched[i].Number?)
  }

  lemma VisitBalanced(ev: Evaluator, st: State, token: Token)
    requires Total(ev) && st.Valid() && Integers(st)
    ensures
      var r := Visit(ev, st, token);
      match token
      case Statement(_) => r.Success? && r.value.depth == st.depth
      case Define(_, _) => r.Success? && r.value.depth == st.depth
      case If(_) => r.Success? && r.value.depth == st.depth + 1
      case ElseIf(_) => if st.depth == 0 then r == Failure(ElseIfWithoutIf) else r.Success? && r.value.depth == st.depth
      case Else => if st.depth == 0 then r == Failure(ElseWithoutIf) else r.Success? && r.value.depth == st.depth
      case EndIf => if st.depth == 0 then r == Failure(UnmatchedEndIf) else r.Success? && r.value.depth == st.depth - 1
      case Other(_) => r == Failure(Unsupported)
    ensures Visit(ev, st, token).Success? ==> Integers(Visit(ev, st, token).value)
  {
  }

  /** With conditions and definitions that evaluate to integers, a stream is processed without a fault if and
      only if no pragma is misplaced; otherwise the fault is that of the first. And the depth is then the
      number of #ifs less that of #endifs. */
  lemma {:induction false} AcceptedIffPlaced(ev: Evaluator, st: State, tokens: seq<Token>)
    requires Total(ev) && st.Valid() && Integers(st)
    ensures
      var r := VisitAll(ev, st, tokens);
      && (Misplaced(tokens, st.depth).Some? <==> r.Failure?)
      && (r.Failure? ==> r == Failure(Misplaced(tokens, st.depth).value))
      && (r.Success? ==>
            r.value.depth + Count(tokens, (t: Token) => t.EndIf?) == st.depth + Count(tokens, (t: Token) => t.If?))
    decreases |tokens|
  {
    if tokens != [] {
      VisitBalanced(ev, st, tokens[0]);
      hide Visit, Total;
      var r := Visit(ev, st, tokens[0]);
      if r.Success? {
        AcceptedIffPlaced(ev, r.value, tokens[1..]);
      }
    }
  }

  /** What a condition counts for: an integer if it is not zero, anything else as Python takes it, and nothing
      that raises. The line under the #if comes out if it counts, and the one under #else, with an integer
      or a condition that raises, if not. */
  lemma ConditionCounts(ev: Evaluator, env: Env, cond: string, line: string, other: string)
    ensures
      var v := ev(cond, env);
      var counts := if v.None? then false else if v.value.Number? then v.value.n != 0 else v.value.truthy;
      && VisitAll(ev, Start(env), [If(cond), Statement(line), EndIf])
         == Success(Start(env).(tree := if counts then [line] else []))
      && (v.None? || v.value.Number? ==>
            VisitAll(ev, Start(env), [If(cond), Statement(line), Else, Statement(other), EndIf])
            == Success(Start(env).(tree := if counts then [line] else [other])))
  {
    var v := match ev(cond, env) case None => FALSE case Some(v) => v;
    var begun := State(1, [FALSE, Not(v)], [FALSE, v], env, []);
    assert [FALSE] + [v] == [FALSE, v] && [FALSE] + [Not(v)] == [FALSE, Not(v)];
    assert Visit(ev, Start(env), If(cond)) == Success(begun);
    var lined := begun.(tree := if v.Truthy() then [line] else []);
    Lined(ev, begun, line);
    var none: seq<string> := [];
    assert none + [line] == [line] && none + [other] == [other];
    Closed(ev, lined, env);
    Three(ev, Start(env), begun, lined, Start(env).(tree := lined.tree), If(cond), Statement(line), EndIf);
    if ev(cond, env).None? || ev(cond, env).value.Number? {
      var elsed := lined.(skip := [FALSE, v]);
      assert lined.skip[1 := v] == [FALSE, v];
      assert Visit(ev, lined, Else) == Success(elsed);
      Lined(ev, elsed, other);
      var both := elsed.(tree := elsed.tree + if v.Truthy() then [] else [other]);
      assert lined.tree + none == lined.tree;
      Closed(ev, both, env);
      Three(ev, lined, elsed, both, Start(env).(tree := both.tree), Else, Statement(other), EndIf);
      Two(ev, Start(env), begun, lined, If(cond), Statement(line), [Else, Statement(other), EndIf]);
    }
  }

  // A line in an #if.
  lemma Lined(ev: Evaluator, st: State, line: string)
    requires st.Valid() && |st.skip| == 2 && st.skip[1].Number?
    ensures Visit(ev, st, Statement(line)) == Success(if st.skip[1].n == 0 then st.(tree := st.tree + [line]) else st)
  {
  }

  lemma Closed(ev: Evaluator, st: State, env: Env)
    requires st.Valid() && st.depth == 1 && st.environ == env && st.matched[0] == FALSE
    ensures Visit(ev, st, EndIf) == Success(Start(env).(tree := st.tree))
  {
    assert st.skip[..1] == [FALSE] && st.matched[..1] == [FALSE];
  }

  lemma Two(ev: Evaluator, s: State, a: State, b: State, x: Token, y: Token, more: seq<Token>)
    requires s.Valid() && a.Valid() && b.Valid() && Visit(ev, s, x) == Success(a) && Visit(ev, a, y) == Success(b)
    ensures VisitAll(ev, s, [x, y] + more) == VisitAll(ev, b, more)
  {
    hide Visit;
    assert ([x, y] + more)[1..] == [y] + more && ([y] + more)[1..] == more;
  }

  lemma Three(ev: Evaluator, s: State, a: State, b: State, c: State, x: Token, y: Token, z: Token)
    requires s.Valid() && a.Valid() && b.Valid() && c.Valid()
    requires Visit(ev, s, x) == Success(a) && Visit(ev, a, y) == Success(b) && Visit(ev, b, z) == Success(c)
    ensures VisitAll(ev, s, [x, y, z]) == Success(c)
  {
    hide Visit;
    assert [x, y, z] == [x, y] + [z] && [z][1..] == [];
    Two(ev, s, a, b, x, y, [z]);
  }
}
