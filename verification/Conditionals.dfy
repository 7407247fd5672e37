/**
 Conditional compilation preserves meaning: the flat machine of Preparser, run
 on a flattened tree of nested conditionals, computes what the tree means.
 */
module Conditionals {
  import opened Wrappers
  import opened Preparser

  datatype Item =
    | Line(text: string)
    | Let(name: string, value: Option<string>)
    | Cond(first: Branch, others: seq<Branch>, hasElse: bool, otherwise: seq<Item>)

  datatype Branch = Branch(cond: string, body: seq<Item>)

  function Flatten(items: seq<Item>): seq<Token>
    decreases items
  {
    if items == [] then []
    else FlattenItem(items[0]) + Flatten(items[1..])
  }

  function FlattenItem(item: Item): seq<Token>
    decreases item
  {
    match item
    case Line(text) => [Statement(text)]
    case Let(name, value) => [Define(name, value)]
    case Cond(first, others, hasElse, otherwise) =>
      [If(first.cond)] + Flatten(first.body) + FlattenFrom(item, 0)
  }

  // The branches after the first i others, and the end of the conditional.
  function FlattenFrom(item: Item, i: nat): seq<Token>
    requires item.Cond? && i <= |item.others|
    decreases item, |item.others| - i
  {
    if i < |item.others| then
      [ElseIf(item.others[i].cond)] + Flatten(item.others[i].body) + FlattenFrom(item, i + 1)
    else if item.hasElse then [Else] + Flatten(item.otherwise) + [EndIf]
    else [EndIf]
  }

  type Meaning = Result<(Env, seq<string>), Fault>

  function Then(m: Meaning, out: seq<string>): Meaning {
    match m
    case Failure(f) => m
    case Success((env, more)) => Success((env, out + more))
  }

  // ---------- The direct meaning ----------

  // A condition that raises counts as false.
  function Holds(ev: Evaluator, cond: string, env: Env): bool {
    match ev(cond, env) case None => false case Some(v) => v.Truthy()
  }

  function BindOnly(ev: Evaluator, env: Env, name: string, value: Option<string>): Meaning {
    match Bind(ev, env, name, value)
    case Failure(f) => Failure(f)
    case Success(env') => Success((env', []))
  }

  /** What a definition means: a name without a text is bound to Python's None, and one with a text to the
      value of the text; all other names keep theirs. */
  function Defined(ev: Evaluator, env: Env, name: string, value: Option<string>): Meaning {
    if value.None? then Success((env[name := NONE], []))
    else
      var v := ev(value.value, env);
      if v.None? then Failure(EvaluationRaised) else Success((env[name := v.value], []))
  }

  /** Definitions and lines in order; of a conditional, the first branch whose condition holds,
      and nothing of the others. */
  function Direct(ev: Evaluator, items: seq<Item>, env: Env): Meaning
    decreases items
  {
    if items == [] then Success((env, []))
    else
      match DirectItem(ev, items[0], env)
      case Failure(f) => Failure(f)
      case Success((env1, out1)) => Then(Direct(ev, items[1..], env1), out1)
  }

  function DirectItem(ev: Evaluator, item: Item, env: Env): Meaning
    decreases item
  {
    match item
    case Line(text) => Success((env, [text]))
    case Let(name, value) => Defined(ev, env, name, value)
    case Cond(first, others, hasElse, otherwise) =>
      if Holds(ev, first.cond, env) then Direct(ev, first.body, env) else DirectFrom(ev, item, 0, env)
  }

  function DirectFrom(ev: Evaluator, item: Item, i: nat, env: Env): Meaning
    requires item.Cond? && i <= |item.others|
    decreases item, |item.others| - i
  {
    if i < |item.others| then
      if Holds(ev, item.others[i].cond, env) then Direct(ev, item.others[i].body, env)
      else DirectFrom(ev, item, i + 1, env)
    else if item.hasElse then Direct(ev, item.otherwise, env)
    else Success((env, []))
  }

  /** A line or definition in a state that skips nothing: the line is added to the output, the name gets the
      value of its text, or None without one, and nothing else changes; a text that raises is a fault. */
  lemma NothingSkipped(ev: Evaluator, st: State, text: string, name: string, value: Option<string>)
    requires st.Valid() && forall i :: 0 <= i < |st.skip| ==> st.skip[i] == Number(0)
    ensures Visit(ev, st, Statement(text)) == Success(st.(tree := st.tree + [text]))
    ensures
      var r := Visit(ev, st, Define(name, value));
      if value.Some? && ev(value.value, st.environ).None? then r == Failure(EvaluationRaised)
      else
        && r.Success? && r.value == st.(environ := r.value.environ) && name in r.value.environ
        && r.value.environ[name] == (if value.None? then NONE else ev(value.value, st.environ).value)
        && r.value.environ.Keys == st.environ.Keys + {name}
        && forall other <- st.environ :: other != name ==> r.value.environ[other] == st.environ[other]
  {
  }

  // ---------- The meaning with the machine's own faults ----------

  // What surrounds an item: is it under a skipped branch, and does the skip stack
  // hold something that cannot be `or`-ed?
  datatype Context = Context(skipped: bool, poisoned: bool)

  function ContextOf(skip: seq<Value>): Context {
    Context(Skipped(skip), Poisoned(skip))
  }

  function Under(c: Context, skip: Value): Context {
    Context(c.skipped || skip.Truthy(), c.poisoned || skip.Thing?)
  }

  function FirstValue(ev: Evaluator, cond: string, env: Env): Value {
    match ev(cond, env) case None => FALSE case Some(v) => v
  }

  /** Like Direct, but every nested conditional is walked through, evaluating the conditions the
      machine evaluates, so that its faults show. */
  function Walk(ev: Evaluator, items: seq<Item>, env: Env, c: Context): Meaning
    decreases items
  {
    if items == [] then Success((env, []))
    else
      match WalkItem(ev, items[0], env, c)
      case Failure(f) => Failure(f)
      case Success((env1, out1)) => Then(Walk(ev, items[1..], env1, c), out1)
  }

  function WalkItem(ev: Evaluator, item: Item, env: Env, c: Context): Meaning
    decreases item, 0
  {
    match item
    case Line(text) =>
      if c.poisoned then Failure(NotOrable) else Success((env, if c.skipped then [] else [text]))
    case Let(name, value) =>
      if c.poisoned then Failure(NotOrable)
      else if c.skipped then Success((env, []))
      else BindOnly(ev, env, name, value)
    case Cond(first, others, hasElse, otherwise) =>
      var v := FirstValue(ev, first.cond, env);
      match Walk(ev, first.body, env, Under(c, Not(v)))
      case Failure(f) => Failure(f)
      case Success((env1, out1)) =>
        (match WalkFrom(ev, item, 0, env1, v, c)
         case Failure(f) => Failure(f)
         case Success((env2, out2)) => Success((env2, out1 + out2)))
  }

  /** The branches from number i of the others on; `matched` is the last condition's value. */
  function WalkFrom(ev: Evaluator, item: Item, i: nat, env: Env, matched: Value, c: Context): Meaning
    requires item.Cond? && i <= |item.others|
    decreases item, 0, |item.others| - i, 1
  {
    if i < |item.others| then
      if matched.Truthy() then WalkBranch(ev, item, i, env, matched, TRUE, c)
      else
        match ev(item.others[i].cond, env)
        case None => Failure(EvaluationRaised)
        case Some(v) => WalkBranch(ev, item, i, env, v, Not(v), c)
    else if item.hasElse then Walk(ev, item.otherwise, env, Under(c, matched))
    else Success((env, []))
  }

  // The body of branch i, its condition dealt with, and what follows it.
  function WalkBranch(ev: Evaluator, item: Item, i: nat, env: Env, matched: Value, skip: Value, c: Context): Meaning
    requires item.Cond? && i < |item.others|
    decreases item, 0, |item.others| - i, 0
  {
    match Walk(ev, item.others[i].body, env, Under(c, skip))
    case Failure(f) => Failure(f)
    case Success((env1, out1)) => Then(WalkFrom(ev, item, i + 1, env1, matched, c), out1)
  }

  // ---------- The flat machine computes Walk ----------

  function Follow(ev: Evaluator, r: Result<State, Fault>, rest: seq<Token>): Result<State, Fault>
    requires r.Success? ==> r.value.Valid()
  {
    match r
    case Failure(f) => Failure(f)
    case Success(st) => VisitAll(ev, st, rest)
  }

  // The machine's run over `rest` once the items before it meant m.
  function Continue(ev: Evaluator, st: State, m: Meaning, rest: seq<Token>): Result<State, Fault>
    requires st.Valid()
  {
    match m
    case Failure(f) => Failure(f)
    case Success((env, out)) => VisitAll(ev, st.(environ := env, tree := st.tree + out), rest)
  }

  // One level below st: a conditional in progress.
  function Inside(st: State, matched: Value, skip: Value): (inner: State)
    requires st.Valid()
    ensures inner.Valid()
  {
    State(st.depth + 1, st.skip + [skip], st.matched + [matched], st.environ, st.tree)
  }

  lemma OneMore(ev: Evaluator, st: State, token: Token, rest: seq<Token>)
    requires st.Valid()
    ensures VisitAll(ev, st, [token] + rest) == Follow(ev, Visit(ev, st, token), rest)
  {
    assert ([token] + rest)[1..] == rest;
  }

  lemma ContextUnder(skip: seq<Value>, v: Value)
    ensures ContextOf(skip + [v]) == Under(ContextOf(skip), v)
  {
    var longer := skip + [v];
    assert longer[|skip|] == v;
    assert forall i :: 0 <= i < |skip| ==> longer[i] == skip[i];
  }

  lemma ContinueThen(ev: Evaluator, st: State, m: Meaning, env: Env, out: seq<string>, rest: seq<Token>)
    requires st.Valid()
    ensures Continue(ev, st.(environ := env, tree := st.tree + out), m, rest) == Continue(ev, st, Then(m, out), rest)
  {
    if m.Success? {
      assert st.tree + out + m.value.1 == st.tree + (out + m.value.1);
    }
  }

  /** The machine on a flattened tree, in any state and whatever follows: exactly the walk. */
  lemma {:induction false} FlatIsWalk(ev: Evaluator, items: seq<Item>, st: State, rest: seq<Token>)
    requires st.Valid()
    ensures VisitAll(ev, st, Flatten(items) + rest) ==
            Continue(ev, st, Walk(ev, items, st.environ, ContextOf(st.skip)), rest)
    decreases items
  {
    hide Visit;
    var c := ContextOf(st.skip);
    if items == [] {
      assert Flatten(items) + rest == rest;
      assert st.tree + [] == st.tree;
    } else {
      var tail := Flatten(items[1..]) + rest;
      assert Flatten(items) + rest == FlattenItem(items[0]) + tail;
      ItemIsWalk(ev, items[0], st, tail);
      var m := WalkItem(ev, items[0], st.environ, c);
      if m.Success? {
        var (env1, out1) := m.value;
        FlatIsWalk(ev, items[1..], st.(environ := env1, tree := st.tree + out1), rest);
        ContinueThen(ev, st, Walk(ev, items[1..], env1, c), env1, out1, rest);
      }
    }
  }

  lemma {:induction false} ItemIsWalk(ev: Evaluator, item: Item, st: State, rest: seq<Token>)
    requires st.Valid()
    ensures VisitAll(ev, st, FlattenItem(item) + rest) ==
            Continue(ev, st, WalkItem(ev, item, st.environ, ContextOf(st.skip)), rest)
    decreases item, 0
  {
    hide Visit;
    var c := ContextOf(st.skip);
    if item.Cond? {
      var v := FirstValue(ev, item.first.cond, st.environ);
      var tail := FlattenFrom(item, 0) + rest;
      assert FlattenItem(item) + rest == [If(item.first.cond)] + (Flatten(item.first.body) + tail);
      OneMore(ev, st, If(item.first.cond), Flatten(item.first.body) + tail);
      VisitIf(ev, st, item.first.cond);
      ContextUnder(st.skip, Not(v));
      FlatIsWalk(ev, item.first.body, Inside(st, v, Not(v)), tail);
      var m := Walk(ev, item.first.body, st.environ, Under(c, Not(v)));
      if m.Success? {
        var (env1, out1) := m.value;
        FromIsWalk(ev, item, 0, st.(environ := env1, tree := st.tree + out1), v, Not(v), rest);
        ContinueThen(ev, st, WalkFrom(ev, item, 0, env1, v, c), env1, out1, rest);
      }
    } else {
      LeafIsWalk(ev, item, st, rest);
    }
  }

  lemma VisitIf(ev: Evaluator, st: State, cond: string)
    requires st.Valid()
    ensures var v := FirstValue(ev, cond, st.environ);
            Visit(ev, st, If(cond)) == Success(Inside(st, v, Not(v)))
  {
  }

  // The state after what an item meant.
  function Advanced(st: State, m: Meaning): (r: Result<State, Fault>)
    requires st.Valid()
    ensures r.Success? ==> r.value.Valid()
  {
    match m
    case Failure(f) => Failure(f)
    case Success((env, out)) => Success(st.(environ := env, tree := st.tree + out))
  }

  lemma VisitLeaf(ev: Evaluator, item: Item, st: State)
    requires st.Valid() && !item.Cond?
    ensures Visit(ev, st, FlattenItem(item)[0]) == Advanced(st, WalkItem(ev, item, st.environ, ContextOf(st.skip)))
  {
    assert st.tree + [] == st.tree;
    hide Poisoned, Skipped;
  }

  lemma LeafIsWalk(ev: Evaluator, item: Item, st: State, rest: seq<Token>)
    requires st.Valid() && !item.Cond?
    ensures VisitAll(ev, st, FlattenItem(item) + rest) ==
            Continue(ev, st, WalkItem(ev, item, st.environ, ContextOf(st.skip)), rest)
  {
    assert FlattenItem(item) == [FlattenItem(item)[0]];
    VisitLeaf(ev, item, st);
    hide Visit, WalkItem, ContextOf, FlattenItem;
    OneMore(ev, st, FlattenItem(item)[0], rest);
  }

  // The machine one level down, at branch i of the others.
  lemma {:induction false} FromIsWalk(ev: Evaluator, item: Item, i: nat, st: State, matched: Value, skip: Value, rest: seq<Token>)
    requires st.Valid() && item.Cond? && i <= |item.others|
    ensures VisitAll(ev, Inside(st, matched, skip), FlattenFrom(item, i) + rest) ==
            Continue(ev, st, WalkFrom(ev, item, i, st.environ, matched, ContextOf(st.skip)), rest)
    decreases item, 0, |item.others| - i, 1
  {
    var c, inner := ContextOf(st.skip), Inside(st, matched, skip);
    if i < |item.others| {
      var b := item.others[i];
      var tail := FlattenFrom(item, i + 1) + rest;
      assert FlattenFrom(item, i) + rest == [ElseIf(b.cond)] + (Flatten(b.body) + tail);
      OneMore(ev, inner, ElseIf(b.cond), Flatten(b.body) + tail);
      if matched.Truthy() {
        assert inner.skip[inner.depth := TRUE] == st.skip + [TRUE];
        BranchIsWalk(ev, item, i, st, matched, TRUE, rest);
      } else {
        match ev(b.cond, st.environ) {
          case None =>
          case Some(v) =>
            assert inner.skip[inner.depth := Not(v)] == st.skip + [Not(v)];
            assert inner.matched[inner.depth := v] == st.matched + [v];
            BranchIsWalk(ev, item, i, st, v, Not(v), rest);
        }
      }
    } else if item.hasElse {
      ElseIsWalk(ev, item, st, matched, skip, rest);
    } else {
      assert st.tree + [] == st.tree;
      EndIsPop(ev, st, matched, skip, rest);
    }
  }

  lemma {:induction false} BranchIsWalk(ev: Evaluator, item: Item, i: nat, st: State, matched: Value, skip: Value, rest: seq<Token>)
    requires st.Valid() && item.Cond? && i < |item.others|
    ensures VisitAll(ev, Inside(st, matched, skip), Flatten(item.others[i].body) + (FlattenFrom(item, i + 1) + rest)) ==
            Continue(ev, st, WalkBranch(ev, item, i, st.environ, matched, skip, ContextOf(st.skip)), rest)
    decreases item, 0, |item.others| - i, 0
  {
    hide Visit;
    var c := ContextOf(st.skip);
    ContextUnder(st.skip, skip);
    FlatIsWalk(ev, item.others[i].body, Inside(st, matched, skip), FlattenFrom(item, i + 1) + rest);
    var m := Walk(ev, item.others[i].body, st.environ, Under(c, skip));
    if m.Success? {
      var (env1, out1) := m.value;
      FromIsWalk(ev, item, i + 1, st.(environ := env1, tree := st.tree + out1), matched, skip, rest);
      ContinueThen(ev, st, WalkFrom(ev, item, i + 1, env1, matched, c), env1, out1, rest);
    }
  }

  lemma {:induction false} ElseIsWalk(ev: Evaluator, item: Item, st: State, matched: Value, skip: Value, rest: seq<Token>)
    requires st.Valid() && item.Cond? && item.hasElse
    ensures VisitAll(ev, Inside(st, matched, skip), [Else] + Flatten(item.otherwise) + [EndIf] + rest) ==
            Continue(ev, st, Walk(ev, item.otherwise, st.environ, Under(ContextOf(st.skip), matched)), rest)
    decreases item, 0, 0, 0
  {
    var c, inner := ContextOf(st.skip), Inside(st, matched, skip);
    var tail := [EndIf] + rest;
    assert [Else] + Flatten(item.otherwise) + [EndIf] + rest == [Else] + (Flatten(item.otherwise) + tail);
    OneMore(ev, inner, Else, Flatten(item.otherwise) + tail);
    assert inner.skip[inner.depth := matched] == st.skip + [matched];
    ContextUnder(st.skip, matched);
    FlatIsWalk(ev, item.otherwise, Inside(st, matched, matched), tail);
    var m := Walk(ev, item.otherwise, st.environ, Under(c, matched));
    if m.Success? {
      var (env1, out1) := m.value;
      EndIsPop(ev, st.(environ := env1, tree := st.tree + out1), matched, matched, rest);
    }
  }

  lemma EndIsPop(ev: Evaluator, st: State, matched: Value, skip: Value, rest: seq<Token>)
    requires st.Valid()
    ensures VisitAll(ev, Inside(st, matched, skip), [EndIf] + rest) == VisitAll(ev, st, rest)
  {
    var inner := Inside(st, matched, skip);
    OneMore(ev, inner, EndIf, rest);
    assert inner.skip[..inner.depth] == st.skip && inner.matched[..inner.depth] == st.matched;
  }

  // ---------- Walk against the direct meaning ----------

  const NOTHING: seq<string> := []

  /** Under a skipped branch nothing is emitted and nothing is defined. */
  lemma {:induction false} SkippedIsSilent(ev: Evaluator, items: seq<Item>, env: Env, c: Context)
    requires c.skipped
    ensures Walk(ev, items, env, c).Success? ==> Walk(ev, items, env, c).value == (env, [])
    decreases items
  {
    if items != [] {
      assert NOTHING + NOTHING == NOTHING;
      SkippedItemIsSilent(ev, items[0], env, c);
      SkippedIsSilent(ev, items[1..], env, c);
    }
  }

  lemma {:induction false} SkippedItemIsSilent(ev: Evaluator, item: Item, env: Env, c: Context)
    requires c.skipped
    ensures WalkItem(ev, item, env, c).Success? ==> WalkItem(ev, item, env, c).value == (env, [])
    decreases item, 0
  {
    if item.Cond? {
      var v := FirstValue(ev, item.first.cond, env);
      assert NOTHING + NOTHING == NOTHING;
      SkippedIsSilent(ev, item.first.body, env, Under(c, Not(v)));
      SilentFrom(ev, item, 0, env, v, c);
    }
  }

  // Nothing comes of the later branches when the whole is skipped or a branch was taken.
  lemma {:induction false} SilentFrom(ev: Evaluator, item: Item, i: nat, env: Env, matched: Value, c: Context)
    requires (c.skipped || matched.Truthy()) && item.Cond? && i <= |item.others|
    ensures var m := WalkFrom(ev, item, i, env, matched, c); m.Success? ==> m.value == (env, [])
    decreases item, 0, |item.others| - i
  {
    if i < |item.others| {
      assert NOTHING + NOTHING == NOTHING;
      var b := item.others[i];
      if matched.Truthy() {
        SkippedIsSilent(ev, b.body, env, Under(c, TRUE));
        SilentFrom(ev, item, i + 1, env, matched, c);
      } else if ev(b.cond, env).Some? {
        var v := ev(b.cond, env).value;
        SkippedIsSilent(ev, b.body, env, Under(c, Not(v)));
        SilentFrom(ev, item, i + 1, env, v, c);
      }
    } else if item.hasElse {
      SkippedIsSilent(ev, item.otherwise, env, Under(c, matched));
    }
  }

  /** Whenever the walk does not fault, it is the direct meaning. */
  lemma {:induction false} WalkIsDirect(ev: Evaluator, items: seq<Item>, env: Env, c: Context)
    requires !c.skipped && Walk(ev, items, env, c).Success?
    ensures Walk(ev, items, env, c) == Direct(ev, items, env)
    decreases items
  {
    if items != [] {
      WalkItemIsDirect(ev, items[0], env, c);
      WalkIsDirect(ev, items[1..], WalkItem(ev, items[0], env, c).value.0, c);
    }
  }

  lemma {:induction false} WalkItemIsDirect(ev: Evaluator, item: Item, env: Env, c: Context)
    requires !c.skipped && WalkItem(ev, item, env, c).Success?
    ensures WalkItem(ev, item, env, c) == DirectItem(ev, item, env)
    decreases item, 0
  {
    if item.Cond? {
      var v := FirstValue(ev, item.first.cond, env);
      if v.Truthy() {
        WalkIsDirect(ev, item.first.body, env, Under(c, Not(v)));
        var (env1, out1) := Walk(ev, item.first.body, env, Under(c, Not(v))).value;
        SilentFrom(ev, item, 0, env1, v, c);
        assert out1 + [] == out1;
      } else {
        SkippedIsSilent(ev, item.first.body, env, Under(c, Not(v)));
        FromIsDirect(ev, item, 0, env, v, c);
        var (env2, out2) := WalkFrom(ev, item, 0, env, v, c).value;
        assert [] + out2 == out2;
      }
    }
  }

  lemma {:induction false} FromIsDirect(ev: Evaluator, item: Item, i: nat, env: Env, matched: Value, c: Context)
    requires !c.skipped && !matched.Truthy() && item.Cond? && i <= |item.others|
    requires WalkFrom(ev, item, i, env, matched, c).Success?
    ensures WalkFrom(ev, item, i, env, matched, c) == DirectFrom(ev, item, i, env)
    decreases item, 0, |item.others| - i
  {
    if i < |item.others| {
      var b, v := item.others[i], ev(item.others[i].cond, env).value;
      var m := Walk(ev, b.body, env, Under(c, Not(v)));
      if v.Truthy() {
        WalkIsDirect(ev, b.body, env, Under(c, Not(v)));
        SilentFrom(ev, item, i + 1, m.value.0, v, c);
        assert m.value.1 + [] == m.value.1;
      } else {
        SkippedIsSilent(ev, b.body, env, Under(c, Not(v)));
        FromIsDirect(ev, item, i + 1, env, v, c);
        var (env2, out2) := WalkFrom(ev, item, i + 1, env, v, c).value;
        assert [] + out2 == out2;
      }
    } else if item.hasElse {
      WalkIsDirect(ev, item.otherwise, env, Under(c, matched));
    }
  }

  /** The main result. Run on the flattening of any tree, the machine either faults, exactly when
      the walk does, or stops with no open #if, its stacks as they began, and precisely the lines
      and the environment of the direct meaning. */
  lemma FlatMachineIsDirect(ev: Evaluator, items: seq<Item>, env: Env)
    ensures var run := VisitAll(ev, Start(env), Flatten(items));
            var walk := Walk(ev, items, env, Context(false, false));
            && (run.Failure? <==> walk.Failure?)
            && (run.Failure? ==> run.error == walk.error)
            && (run.Success? ==>
                  && Direct(ev, items, env) == Success((run.value.environ, run.value.tree))
                  && run.value == State(0, [FALSE], [FALSE], run.value.environ, run.value.tree))
  {
    var st := Start(env);
    assert ContextOf(st.skip) == Context(false, false);
    FlatIsWalk(ev, items, st, []);
    assert Flatten(items) + [] == Flatten(items);
    var walk := Walk(ev, items, env, Context(false, false));
    if walk.Success? {
      WalkIsDirect(ev, items, env, Context(false, false));
      assert st.tree + walk.value.1 == walk.value.1;
    }
  }

  // ---------- Exactly when it succeeds ----------

  /** What can go wrong on the way through a tree. */
  datatype Event =
    | Tests(cond: string, env: Env)                           // an #elseif whose condition is evaluated
    | Defines(name: string, value: Option<string>, env: Env)  // a definition that is not skipped
    | Governs(matched: Value)     // the last condition's value, over a line or definition under #else

  predicate Fine(ev: Evaluator, e: Event) {
    match e
    case Tests(cond, env) => ev(cond, env).Some?
    case Defines(name, value, env) => value.None? || ev(value.value, env).Some?
    case Governs(matched) => matched.Number?
  }

  predicate AllFine(ev: Evaluator, events: seq<Event>) {
    forall i :: 0 <= i < |events| ==> Fine(ev, events[i])
  }

  // A line or a definition, at any depth.
  predicate HasLeaf(items: seq<Item>)
    decreases items
  {
    items != [] && (HasLeafItem(items[0]) || HasLeaf(items[1..]))
  }

  predicate HasLeafItem(item: Item)
    decreases item, 0
  {
    item.Cond? ==> HasLeaf(item.first.body) || HasLeafFrom(item, 0)
  }

  predicate HasLeafFrom(item: Item, i: nat)
    requires item.Cond? && i <= |item.others|
    decreases item, 0, |item.others| - i
  {
    if i < |item.others| then HasLeaf(item.others[i].body) || HasLeafFrom(item, i + 1)
    else item.hasElse && HasLeaf(item.otherwise)
  }

  type Reached = (seq<Event>, Env)

  function And(before: seq<Event>, r: Reached): Reached {
    (before + r.0, r.1)
  }

  /** The events of a tree in order, each with the environment of that moment, under a skipped branch or
      not: skipped conditionals are walked through too, but their definitions are not made. */
  function Reach(ev: Evaluator, items: seq<Item>, env: Env, skipped: bool): Reached
    decreases items
  {
    if items == [] then ([], env)
    else
      var (events, env1) := ReachItem(ev, items[0], env, skipped);
      And(events, Reach(ev, items[1..], env1, skipped))
  }

  function ReachItem(ev: Evaluator, item: Item, env: Env, skipped: bool): Reached
    decreases item, 0
  {
    match item
    case Line(_) => ([], env)
    case Let(name, value) =>
      if skipped then ([], env)
      else ([Defines(name, value, env)],
            match Defined(ev, env, name, value) case Success((bound, _)) => bound case Failure(_) => env)
    case Cond(first, _, _, _) =>
      var v := FirstValue(ev, first.cond, env);
      var (events, env1) := Reach(ev, first.body, env, skipped || !v.Truthy());
      And(events, ReachFrom(ev, item, 0, env1, v, skipped))
  }

  function ReachFrom(ev: Evaluator, item: Item, i: nat, env: Env, matched: Value, skipped: bool): Reached
    requires item.Cond? && i <= |item.others|
    decreases item, 0, |item.others| - i
  {
    if i < |item.others| then
      var b := item.others[i];
      var v := if matched.Truthy() then matched else FirstValue(ev, b.cond, env);
      var test := if matched.Truthy() then [] else [Tests(b.cond, env)];
      var (events, env1) := Reach(ev, b.body, env, skipped || matched.Truthy() || !v.Truthy());
      And(test + events, ReachFrom(ev, item, i + 1, env1, v, skipped))
    else if item.hasElse then
      And(if HasLeaf(item.otherwise) then [Governs(matched)] else [],
          Reach(ev, item.otherwise, env, skipped || matched.Truthy()))
    else ([], env)
  }

  lemma FineParts(ev: Evaluator, a: seq<Event>, b: seq<Event>)
    ensures AllFine(ev, a + b) <==> AllFine(ev, a) && AllFine(ev, b)
  {
    assert forall i :: 0 <= i < |a| ==> a[i] == (a + b)[i];
    assert forall i :: 0 <= i < |b| ==> b[i] == (a + b)[|a| + i];
  }

  lemma FineOne(ev: Evaluator, e: Event)
    ensures AllFine(ev, [e]) <==> Fine(ev, e)
  {
    assert [e][0] == e;
  }

  // A walk succeeds, with the environment reached, if and only if its events are fine and nothing that
  // cannot be or-ed lies over a line or definition.
  predicate Agrees(ev: Evaluator, m: Meaning, r: Reached, blocked: bool) {
    && (m.Success? <==> AllFine(ev, r.0) && !blocked)
    && (m.Success? ==> m.value.0 == r.1)
  }

  lemma {:induction false} WalkAgrees(ev: Evaluator, items: seq<Item>, env: Env, c: Context)
    ensures Agrees(ev, Walk(ev, items, env, c), Reach(ev, items, env, c.skipped), c.poisoned && HasLeaf(items))
    decreases items
  {
    hide Fine;
    if items != [] {
      var (events, env1) := ReachItem(ev, items[0], env, c.skipped);
      WalkItemAgrees(ev, items[0], env, c);
      WalkAgrees(ev, items[1..], env1, c);
      FineParts(ev, events, Reach(ev, items[1..], env1, c.skipped).0);
    }
  }

  lemma {:induction false} WalkItemAgrees(ev: Evaluator, item: Item, env: Env, c: Context)
    ensures
      Agrees(ev, WalkItem(ev, item, env, c), ReachItem(ev, item, env, c.skipped), c.poisoned && HasLeafItem(item))
    decreases item, 0
  {
    match item
    case Line(_) =>
    case Let(name, value) =>
      FineOne(ev, Defines(name, value, env));
    case Cond(first, _, _, _) =>
      hide Fine, AllFine;
      var v := FirstValue(ev, first.cond, env);
      var (events, env1) := Reach(ev, first.body, env, c.skipped || !v.Truthy());
      WalkAgrees(ev, first.body, env, Under(c, Not(v)));
      FromAgrees(ev, item, 0, env1, v, c);
      FineParts(ev, events, ReachFrom(ev, item, 0, env1, v, c.skipped).0);
  }

  lemma {:induction false} FromAgrees(ev: Evaluator, item: Item, i: nat, env: Env, matched: Value, c: Context)
    requires item.Cond? && i <= |item.others|
    ensures Agrees(ev, WalkFrom(ev, item, i, env, matched, c), ReachFrom(ev, item, i, env, matched, c.skipped),
                   c.poisoned && HasLeafFrom(item, i))
    decreases item, 0, |item.others| - i
  {
    if i < |item.others| {
      BranchAgrees(ev, item, i, env, matched, c);
    } else if item.hasElse {
      FineOne(ev, Governs(matched));
      var governs := if HasLeaf(item.otherwise) then [Governs(matched)] else [];
      WalkAgrees(ev, item.otherwise, env, Under(c, matched));
      FineParts(ev, governs, Reach(ev, item.otherwise, env, c.skipped || matched.Truthy()).0);
    }
  }

  lemma {:induction false} BranchAgrees(ev: Evaluator, item: Item, i: nat, env: Env, matched: Value, c: Context)
    requires item.Cond? && i < |item.others|
    ensures Agrees(ev, WalkFrom(ev, item, i, env, matched, c), ReachFrom(ev, item, i, env, matched, c.skipped),
                   c.poisoned && HasLeafFrom(item, i))
    decreases item, 0, |item.others| - i, 0
  {
    var b := item.others[i];
    var v := if matched.Truthy() then matched else FirstValue(ev, b.cond, env);
    var skip := if matched.Truthy() then TRUE else Not(v);
    var test := if matched.Truthy() then [] else [Tests(b.cond, env)];
    FineOne(ev, Tests(b.cond, env));
    assert AllFine(ev, test) <==> matched.Truthy() || ev(b.cond, env).Some?;
    hide Fine, AllFine;
    var skipped := c.skipped || matched.Truthy() || !v.Truthy();
    assert Under(c, skip) == Context(skipped, c.poisoned);
    var (events, env1) := Reach(ev, b.body, env, skipped);
    WalkAgrees(ev, b.body, env, Under(c, skip));
    if matched.Truthy() || ev(b.cond, env).Some? {
      assert WalkFrom(ev, item, i, env, matched, c) == WalkBranch(ev, item, i, env, v, skip, c);
    }
    FromAgrees(ev, item, i + 1, env1, v, c);
    FineParts(ev, test, events);
    FineParts(ev, test + events, ReachFrom(ev, item, i + 1, env1, v, c.skipped).0);
  }

  /** Conditional compilation, for every tree and evaluator: the machine succeeds if and only if no
      #elseif that is evaluated raises, no definition that is made raises, and no value that is not an
      integer decides an #else over a line or definition. It then gives the lines and the environment of
      the direct meaning. An #if may raise: it counts as false. */
  lemma ConditionalCompilation(ev: Evaluator, items: seq<Item>, env: Env)
    ensures var run := VisitAll(ev, Start(env), Flatten(items));
            && (run.Success? <==> AllFine(ev, Reach(ev, items, env, false).0))
            && (run.Success? ==> Direct(ev, items, env) == Success((run.value.environ, run.value.tree)))
  {
    WalkAgrees(ev, items, env, Context(false, false));
    FlatMachineIsDirect(ev, items, env);
  }

  /** A raising #elseif is a fault where its direct meaning is false. */
  lemma ElseIfThatRaises(ev: Evaluator, env: Env, cond: string, raising: string)
    requires !Holds(ev, cond, env) && ev(raising, env) == None
    ensures var items := [Cond(Branch(cond, []), [Branch(raising, [])], false, [])];
            && VisitAll(ev, Start(env), Flatten(items)).Failure?
            && Direct(ev, items, env) == Success((env, []))
  {
    var item := Cond(Branch(cond, []), [Branch(raising, [])], false, []);
    var v := FirstValue(ev, cond, env);
    assert [item][1..] == [];
    ConditionalCompilation(ev, [item], env);
    assert Reach(ev, [], env, true) == ([], env);
    assert ReachFrom(ev, item, 0, env, v, false).0[0] == Tests(raising, env);
    assert !Fine(ev, Tests(raising, env));
    assert ReachItem(ev, item, env, false).0[0] == Tests(raising, env);
    assert Reach(ev, [item], env, false).0[0] == Tests(raising, env);
    assert DirectFrom(ev, item, 1, env) == Success((env, []));
    assert DirectFrom(ev, item, 0, env) == Success((env, []));
    assert NOTHING + NOTHING == NOTHING;
    assert DirectItem(ev, item, env) == Success((env, []));
  }

  /** It does not when a condition is some other value: a name defined without a value, tested by
      an #if, makes the first line under #else a fault, though its direct meaning is that line. */
  lemma ElseOfUnvaluedName(ev: Evaluator, env: Env, name: string, line: string)
    requires forall env' :: name in env' ==> ev(name, env') == Some(env'[name])
    ensures var items := [Let(name, None), Cond(Branch(name, []), [], true, [Line(line)])];
            && VisitAll(ev, Start(env), Flatten(items)) == Failure(NotOrable)
            && Direct(ev, items, env) == Success((env[name := NONE], [line]))
  {
    var cond := Cond(Branch(name, []), [], true, [Line(line)]);
    var items, c, env' := [Let(name, None), cond], Context(false, false), env[name := NONE];
    assert items[1..] == [cond] && items[1..][1..] == [];
    assert Walk(ev, [Line(line)], env', Under(c, NONE)) == Failure(NotOrable);
    assert WalkFrom(ev, cond, 0, env', NONE, c) == Failure(NotOrable);
    assert WalkItem(ev, cond, env', c) == Failure(NotOrable);
    assert Walk(ev, [cond], env', c) == Failure(NotOrable);
    assert Walk(ev, items, env, c) == Failure(NotOrable);
    FlatMachineIsDirect(ev, items, env);
    assert [Line(line)][1..] == [] && [line] + NOTHING == [line] && NOTHING + [line] == [line];
    assert Direct(ev, [Line(line)], env') == Success((env', [line]));
    assert DirectItem(ev, cond, env') == Success((env', [line]));
    assert Direct(ev, [cond], env') == Success((env', [line]));
  }
}
