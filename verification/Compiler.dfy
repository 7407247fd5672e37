/**
 The microcode compiler of drivers/mdrive/microcode/compile/compiler.py: a stack of
 output frames and a table of names, both changed by every visitor. Reference counts,
 warnings, line numbers and configuration variables are not part of the model.
 */
module Compiling {
  import opened Wrappers
  import opened Grammar
  import opened Microcode

  // ---------- Names ----------

  datatype Kind = Unknown | AsLabel | AsVariable

  datatype Entry = Entry(kind: Kind, defined: bool)

  type Names = map<string, Entry>

  datatype Fault =
    | UsedAsVariable      // a label used as a variable
    | UsedAsLabel         // a variable used as a label
    | ReadOnly
    | InternalCommand
    | Redefined
    | InternalLabel
    | Undeclared          // the KeyError of a lookup

  // Visiting a name makes sure that the table has it.
  function Seen(names: Names, id: string): Names {
    if id in names then names else names[id := Entry(Unknown, false)]
  }

  function FoundVar(names: Names, id: string): Result<Names, Fault> {
    if id !in names then Failure(Undeclared)
    else if names[id].kind.AsLabel? then Failure(UsedAsVariable)
    else Success(names[id := Entry(AsVariable, names[id].defined)])
  }

  function FoundLabel(names: Names, id: string, force: bool): Result<Names, Fault> {
    if id !in names then Failure(Undeclared)
    else if names[id].kind.AsVariable? && !force then Failure(UsedAsLabel)
    else Success(names[id := Entry(AsLabel, names[id].defined)])
  }

  // A lookup whose errors are swallowed.
  function Tried(names: Names, found: Result<Names, Fault>): Names {
    match found
    case Success(more) => more
    case Failure(_) => names
  }

  function AtomNames(names: Names, a: Atom): Names {
    match a
    case Number(_) => names
    case Quoted(_) => names
    case Name(id) => Seen(names, id)
  }

  // The first text in an expression's frame is looked up as a variable.
  function FirstText(e: Expr): string {
    if e.unary != "" then e.unary else AtomText(e.atom)
  }

  function ExprNames(names: Names, e: Expr): Names
    decreases e
  {
    var seen := AtomNames(names, e.atom);
    var all := if e.Op? then ExprNames(seen, e.operand) else seen;
    Tried(all, FoundVar(all, FirstText(e)))
  }

  function OptionNames(names: Names, e: Option<Expr>): Names {
    if e.Some? then ExprNames(names, e.value) else names
  }

  function AllNames(names: Names, es: seq<Expr>): Names
    decreases |es|
  {
    if es == [] then names else AllNames(ExprNames(names, es[0]), es[1..])
  }

  function Texts(es: seq<Expr>): seq<string> {
    if es == [] then [] else [Emit(es[0])] + Texts(es[1..])
  }

  // The arguments that are names become labels, whatever they were.
  function ForcedLabels(names: Names, items: seq<string>): Names
    decreases |items|
  {
    if items == [] then names
    else ForcedLabels(Tried(names, FoundLabel(names, items[0], true)), items[1..])
  }

  // ---------- Statements ----------

  /** The words the compiler must know: what is internal, read-only, assignable, and takes labels. */
  datatype Words = Words(internal: set<string>, readOnly: set<string>, assignable: set<string>, labelArgs: set<string>)

  const GRAMMAR_WORDS := Words(INTERNAL, READ_ONLY, ASSIGNABLE, LABEL_ARGS)

  datatype Symbols = Symbols(names: Names, current: Option<string>)

  function LabelSymbols(w: Words, sy: Symbols, id: string): Result<Symbols, Fault> {
    match FoundLabel(Seen(sy.names, id), id, false)
    case Failure(f) => Failure(f)
    case Success(names) =>
      if names[id].defined then Failure(Redefined)
      else if id in w.internal then Failure(InternalLabel)
      else Success(Symbols(names[id := Entry(AsLabel, true)], Some(id)))
  }

  function AssignSymbols(w: Words, sy: Symbols, target: string, values: seq<Expr>): Result<Symbols, Fault> {
    var seen := AllNames(Seen(sy.names, target), values);
    var names := if target in w.labelArgs then ForcedLabels(seen, Texts(values)) else seen;
    match FoundVar(names, target)
    case Failure(f) => Failure(f)
    case Success(found) =>
      if target in w.readOnly then Failure(ReadOnly)
      else if target in w.internal && target !in w.assignable then Failure(InternalCommand)
      else Success(sy.(names := found))
  }

  /** What compiling a statement does to the table and the current label, or the error it raises. */
  function StatementSymbols(w: Words, sy: Symbols, s: Statement): Result<Symbols, Fault> {
    match s
    case Jumping(_, place, arg) =>
      (match FoundLabel(OptionNames(Seen(sy.names, place), arg), place, false)
       case Failure(f) => Failure(f)
       case Success(names) => Success(sy.(names := names)))
    case Return =>
      (match sy.current
       case None => Failure(Undeclared)
       case Some(id) =>
         match FoundLabel(sy.names, id, false)
         case Failure(f) => Failure(f)
         case Success(names) => Success(sy.(names := names)))
    case Label(id) => LabelSymbols(w, sy, id)
    case Declare(id, value) =>
      (match FoundVar(OptionNames(Seen(sy.names, id), value), id)
       case Failure(f) => Failure(f)
       case Success(names) => Success(sy.(names := names[id := Entry(AsVariable, true)])))
    case Assign(target, first, others) => AssignSymbols(w, sy, target, [first] + others)
    case Command(_) => Success(sy)
  }

  function ProgramSymbols(w: Words, sy: Symbols, program: seq<Statement>): Result<Symbols, Fault>
    decreases |program|
  {
    if program == [] then Success(sy)
    else
      match StatementSymbols(w, sy, program[0])
      case Failure(f) => Failure(f)
      case Success(next) => ProgramSymbols(w, next, program[1..])
  }

  const NOTHING: Symbols := Symbols(map[], None)

  function Lines(program: seq<Statement>): seq<string> {
    if program == [] then [] else [EmitStatement(program[0])] + Lines(program[1..])
  }

  // ---------- The compiler ----------

  function Join(separator: string, parts: seq<string>): string {
    if parts == [] then ""
    else if |parts| == 1 then parts[0]
    else parts[0] + separator + Join(separator, parts[1..])
  }

  // The output stack after a PUSH.
  function Pushed(stack: seq<seq<string>>, text: string): seq<seq<string>>
    requires stack != []
  {
    stack[..|stack| - 1] + [stack[|stack| - 1] + [text]]
  }

  class Compiler {
    const words: Words
    var stack: seq<seq<string>>
    var depth: nat
    var names: Names
    var current: Option<string>

    ghost predicate Valid()
      reads this
    {
      |stack| == depth + 1
    }

    ghost function State(): Symbols
      reads this
    {
      Symbols(names, current)
    }

    constructor (words: Words)
      ensures Valid() && stack == [[]] && State() == NOTHING && this.words == words
    {
      this.words := words;
      stack, depth := [[]], 0;
      names, current := map[], None;
    }

    method Push(text: string)
      requires Valid()
      modifies this`stack
      ensures Valid() && stack == Pushed(old(stack), text)
    {
      stack := stack[|stack| - 1 := stack[|stack| - 1] + [text]];
    }

    method PushBlock()
      requires Valid()
      modifies this`stack, this`depth
      ensures Valid() && stack == old(stack) + [[]]
    {
      stack := stack + [[]];
      depth := depth + 1;
    }

    method PopBlock() returns (frame: seq<string>)
      requires Valid() && |stack| > 1
      modifies this`stack, this`depth
      ensures Valid() && old(stack) == stack + [frame]
    {
      depth := depth - 1;
      frame := stack[|stack| - 1];
      stack := stack[..|stack| - 1];
    }

    method FindVar(id: string) returns (fault: Option<Fault>)
      modifies this`names
      ensures fault == match FoundVar(old(names), id) case Success(_) => None case Failure(f) => Some(f)
      ensures names == Tried(old(names), FoundVar(old(names), id))
    {
      if id !in names {
        return Some(Undeclared);
      }
      match names[id].kind
      case Unknown => names := names[id := Entry(AsVariable, names[id].defined)]; return None;
      case AsLabel => return Some(UsedAsVariable);
      case AsVariable => return None;
    }

    method FindLabel(id: string, force: bool) returns (fault: Option<Fault>)
      modifies this`names
      ensures fault == match FoundLabel(old(names), id, force) case Success(_) => None case Failure(f) => Some(f)
      ensures names == Tried(old(names), FoundLabel(old(names), id, force))
    {
      if id !in names {
        return Some(Undeclared);
      }
      if names[id].kind.Unknown? || force {
        names := names[id := Entry(AsLabel, names[id].defined)];
      } else if !names[id].kind.AsLabel? {
        return Some(UsedAsLabel);
      }
      return None;
    }

    method VisitName(id: string)
      requires Valid()
      modifies this`names, this`stack
      ensures Valid() && names == Seen(old(names), id) && stack == Pushed(old(stack), id)
    {
      if id !in names {
        names := names[id := Entry(Unknown, false)];
      }
      Push(id);
    }

    method VisitAtom(a: Atom)
      requires Valid()
      modifies this`names, this`stack
      ensures Valid() && names == AtomNames(old(names), a) && stack == Pushed(old(stack), AtomText(a))
    {
      match a
      case Number(digits) => Push(digits);
      case Quoted(text) => Push(text);
      case Name(id) => VisitName(id);
    }

    // The expression's text goes on the caller's frame.
    method VisitExpression(e: Expr)
      requires Valid()
      modifies this`names, this`stack, this`depth
      ensures Valid() && names == ExprNames(old(names), e) && stack == Pushed(old(stack), Emit(e))
      decreases e
    {
      hide Emit, Join, AtomText, AtomNames;
      ghost var was := stack;
      PushBlock();
      if e.unary != "" {
        Push(e.unary);
        PushedOnTop(was, [], e.unary);
        assert [] + [e.unary] == [e.unary];
      }
      ghost var before := UnaryFrame(e.unary);
      assert stack == was + [before];
      VisitAtom(e.atom);
      PushedOnTop(was, before, AtomText(e.atom));
      if e.Op? {
        Push(e.op);
        PushedOnTop(was, before + [AtomText(e.atom)], e.op);
        assert stack == was + [before + [AtomText(e.atom)] + [e.op]];
        VisitExpression(e.operand);
        PushedOnTop(was, before + [AtomText(e.atom)] + [e.op], Emit(e.operand));
      }
      assert stack == was + [Frame(e)];
      var frame := PopBlock();
      assert stack == was && frame == Frame(e) by {
        LastFrame(stack, frame, was, Frame(e));
      }
      FrameText(e);
      var _ := FindVar(frame[0]);
      Push(Join(" ", frame));
    }

    method VisitOption(e: Option<Expr>)
      requires Valid()
      modifies this`names, this`stack, this`depth
      ensures Valid() && names == OptionNames(old(names), e)
      ensures stack == if e.Some? then Pushed(old(stack), Emit(e.value)) else old(stack)
    {
      if e.Some? {
        VisitExpression(e.value);
      }
    }

    // The texts of the values go on the caller's frame, one by one.
    method VisitAll(es: seq<Expr>)
      requires Valid() && |stack| > 1
      modifies this`names, this`stack, this`depth
      ensures Valid() && names == AllNames(old(names), es)
      ensures stack == old(stack)[..|old(stack)| - 1] + [old(stack)[|old(stack)| - 1] + Texts(es)]
    {
      hide Emit, ExprNames;
      assert Texts(es[..0]) == [];
      hide Texts;
      var i := 0;
      ghost var base, frame := stack[..|stack| - 1], stack[|stack| - 1];
      assert es[0..] == es && frame + [] == frame;
      while i < |es|
        invariant 0 <= i <= |es| && Valid()
        invariant AllNames(names, es[i..]) == AllNames(old(names), es)
        invariant stack == base + [frame + Texts(es[..i])]
      {
        assert es[i..][1..] == es[i + 1..] && es[..i + 1] == es[..i] + [es[i]];
        VisitExpression(es[i]);
        PushedOnTop(base, frame + Texts(es[..i]), Emit(es[i]));
        TextsMore(es[..i], es[i]);
        assert frame + Texts(es[..i]) + [Emit(es[i])] == frame + Texts(es[..i + 1]);
        i := i + 1;
      }
      assert es[..i] == es;
    }

    // A block of its own for a name and an optional expression.
    method VisitBlock(id: string, e: Option<Expr>) returns (b: seq<string>)
      requires Valid()
      modifies this`names, this`stack, this`depth
      ensures Valid() && stack == old(stack) && names == OptionNames(Seen(old(names), id), e)
      ensures b == [id] + if e.Some? then [Emit(e.value)] else []
    {
      hide Emit, ExprNames;
      ghost var was := stack;
      PushBlock();
      VisitName(id);
      PushedOnTop(was, [], id);
      assert [] + [id] == [id] && stack == was + [[id]];
      VisitOption(e);
      if e.Some? {
        PushedOnTop(was, [id], Emit(e.value));
      }
      ghost var frame := [id] + if e.Some? then [Emit(e.value)] else [];
      assert e.None? ==> frame == [id];
      assert stack == was + [frame];
      b := PopBlock();
      LastFrame(stack, b, was, frame);
    }

    // A block of its own for the target and the values of an assignment.
    method VisitItems(target: string, values: seq<Expr>) returns (items: seq<string>)
      requires Valid()
      modifies this`names, this`stack, this`depth
      ensures Valid() && stack == old(stack) && names == AllNames(Seen(old(names), target), values)
      ensures items == [target] + Texts(values)
    {
      hide Emit, ExprNames, Texts;
      ghost var was := stack;
      PushBlock();
      VisitName(target);
      PushedOnTop(was, [], target);
      assert [] + [target] == [target] && stack == was + [[target]];
      VisitAll(values);
      assert stack == was + [[target] + Texts(values)];
      items := PopBlock();
      LastFrame(stack, items, was, [target] + Texts(values));
    }

    method VisitJump(s: Statement) returns (fault: Option<Fault>)
      requires Valid() && s.Jumping?
      modifies this
      ensures Outcome(StatementSymbols(words, old(State()), s), fault, State())
      ensures fault.None? ==> Valid() && stack == Pushed(old(stack), EmitStatement(s))
    {
      hide Emit, EmitStatement, ExprNames, AssignSymbols, LabelSymbols;
      var b := VisitBlock(s.place, s.arg);
      fault := FindLabel(s.place, false);
      if fault.Some? {
        return;
      }
      var text := (if s.kind.Calling? then "CL " else "BR ") + b[0];
      if |b| > 1 {
        text := text + ", " + b[1];
      }
      JumpText(s, text);
      Push(text);
    }

    method VisitReturn() returns (fault: Option<Fault>)
      requires Valid()
      modifies this
      ensures Outcome(StatementSymbols(words, old(State()), Return), fault, State())
      ensures fault.None? ==> Valid() && stack == Pushed(old(stack), EmitStatement(Return))
    {
      if current.None? {
        return Some(Undeclared);
      }
      fault := FindLabel(current.value, false);
      if fault.None? {
        Push("RT");
      }
    }

    method VisitLabel(id: string) returns (fault: Option<Fault>)
      requires Valid()
      modifies this
      ensures Outcome(StatementSymbols(words, old(State()), Statement.Label(id)), fault, State())
      ensures fault.None? ==> Valid() && stack == Pushed(old(stack), EmitStatement(Statement.Label(id)))
    {
      if id !in names {
        names := names[id := Entry(Unknown, false)];
      }
      fault := FindLabel(id, false);
      if fault.Some? {
        return;
      }
      current := Some(id);
      if names[id].defined {
        return Some(Redefined);
      } else if id in words.internal {
        return Some(InternalLabel);
      }
      names := names[id := Entry(AsLabel, true)];
      Push("LB " + id);
    }

    method VisitDeclaration(s: Statement) returns (fault: Option<Fault>)
      requires Valid() && s.Declare?
      modifies this
      ensures Outcome(StatementSymbols(words, old(State()), s), fault, State())
      ensures fault.None? ==> Valid() && stack == Pushed(old(stack), EmitStatement(s))
    {
      hide Emit, EmitStatement, ExprNames, AssignSymbols, LabelSymbols;
      var b := VisitBlock(s.id, s.value);
      fault := FindVar(b[0]);
      if fault.Some? {
        return;
      }
      names := names[b[0] := Entry(AsVariable, true)];
      var text := "VA " + b[0];
      if |b| == 2 {
        text := text + " = " + b[1];
      }
      DeclareText(s, text);
      Push(text);
    }

    // Items that name something become labels.
    method ForceLabels(items: seq<string>)
      modifies this`names
      ensures names == ForcedLabels(old(names), items)
    {
      var i := 0;
      assert items[0..] == items;
      while i < |items|
        invariant 0 <= i <= |items|
        invariant ForcedLabels(names, items[i..]) == ForcedLabels(old(names), items)
      {
        assert items[i..][1..] == items[i + 1..];
        var _ := FindLabel(items[i], true);
        i := i + 1;
      }
    }

    method VisitAssignment(s: Statement) returns (fault: Option<Fault>)
      requires Valid() && s.Assign?
      modifies this
      ensures Outcome(StatementSymbols(words, old(State()), s), fault, State())
      ensures fault.None? ==> Valid() && stack == Pushed(old(stack), EmitStatement(s))
    {
      hide Equals, Join, EmitStatement, Texts, AllNames;
      var items := VisitItems(s.target, [s.first] + s.others);
      var target := items[0];
      items := items[1..];
      if target in words.labelArgs {
        ForceLabels(items);
      }
      fault := FindVar(target);
      if fault.Some? {
        return;
      }
      if target in words.readOnly {
        return Some(ReadOnly);
      } else if target in words.internal && target !in words.assignable {
        return Some(InternalCommand);
      }
      AssignText(s);
      Push(target + " " + Equals(target) + Join(", ", items));
    }

    method VisitKind(s: Statement) returns (fault: Option<Fault>)
      requires Valid()
      modifies this
      ensures Outcome(StatementSymbols(words, old(State()), s), fault, State())
      ensures fault.None? ==> Valid() && stack == Pushed(old(stack), EmitStatement(s))
    {
      match s
      case Jumping(_, _, _) => fault := VisitJump(s);
      case Return => fault := VisitReturn();
      case Label(id) => fault := VisitLabel(id);
      case Declare(_, _) => fault := VisitDeclaration(s);
      case Assign(_, _, _) => fault := VisitAssignment(s);
      case Command(word) => Push(word); fault := None;
    }

    method VisitStatement(s: Statement) returns (fault: Option<Fault>)
      requires Valid()
      modifies this
      ensures Outcome(StatementSymbols(words, old(State()), s), fault, State())
      ensures fault.None? ==> Valid() && stack == Pushed(old(stack), EmitStatement(s))
    {
      ghost var was := stack;
      PushBlock();
      fault := VisitKind(s);
      if fault.None? {
        PushedOnTop(was, [], EmitStatement(s));
        assert [] + [EmitStatement(s)] == [EmitStatement(s)];
        var frame := PopBlock();
        LastFrame(stack, frame, was, [EmitStatement(s)]);
        JoinOne(EmitStatement(s));
        Push(Join(" ", frame));
      }
    }

    /** Compiling a program: its lines in order, one for each statement, or the first error. The check
        for an open block at the end never fails. */
    method Compile(program: seq<Statement>) returns (lines: seq<string>, fault: Option<Fault>)
      requires Valid() && stack == [[]]
      modifies this
      ensures Outcome(ProgramSymbols(words, old(State()), program), fault, State())
      ensures fault.None? ==> Valid() && lines == Lines(program)
    {
      var i := 0;
      lines := [];
      assert program[0..] == program;
      while i < |program|
        invariant 0 <= i <= |program| && Valid() && stack == [Lines(program[..i])]
        invariant ProgramSymbols(words, State(), program[i..]) == ProgramSymbols(words, old(State()), program)
      {
        assert program[i..][1..] == program[i + 1..] && program[..i + 1] == program[..i] + [program[i]];
        fault := VisitStatement(program[i]);
        if fault.Some? {
          return;
        }
        LinesMore(program[..i], program[i]);
        i := i + 1;
      }
      assert program[..i] == program && depth == 0;
      lines, fault := stack[0], None;
    }
  }

  // The error that was expected, or the expected table.
  predicate Outcome(expected: Result<Symbols, Fault>, fault: Option<Fault>, now: Symbols) {
    match expected
    case Success(next) => fault.None? && now == next
    case Failure(f) => fault == Some(f)
  }

  lemma {:induction false} TextsMore(es: seq<Expr>, e: Expr)
    ensures Texts(es + [e]) == Texts(es) + [Emit(e)]
  {
    if es == [] {
      assert es + [e] == [e];
    } else {
      assert (es + [e])[1..] == es[1..] + [e];
      TextsMore(es[1..], e);
    }
  }

  lemma {:induction false} LinesMore(program: seq<Statement>, s: Statement)
    ensures Lines(program + [s]) == Lines(program) + [EmitStatement(s)]
  {
    if program == [] {
      assert program + [s] == [s];
    } else {
      assert (program + [s])[1..] == program[1..] + [s];
      LinesMore(program[1..], s);
    }
  }

  lemma JumpText(s: Statement, text: string)
    requires s.Jumping?
    requires text == (if s.kind.Calling? then "CL " else "BR ") + s.place + EmitOption(", ", s.arg)
    ensures text == EmitStatement(s)
  {
  }

  lemma DeclareText(s: Statement, text: string)
    requires s.Declare? && text == "VA " + s.id + EmitOption(" = ", s.value)
    ensures text == EmitStatement(s)
  {
  }

  // Joining with commas puts one before every value but the first.
  lemma {:induction false} JoinedValues(first: Expr, others: seq<Expr>)
    ensures Join(", ", Texts([first] + others)) == Emit(first) + EmitOthers(others)
    decreases others
  {
    hide Emit;
    assert ([first] + others)[1..] == others;
    if others != [] {
      assert [others[0]] + others[1..] == others;
      JoinedValues(others[0], others[1..]);
      JoinComma(Emit(first), Emit(others[0]), EmitOthers(others[1..]));
    }
  }

  lemma JoinComma(a: string, b: string, c: string)
    ensures a + ", " + (b + c) == a + (", " + b + c)
  {
  }

  lemma AssignText(s: Statement)
    requires s.Assign?
    ensures s.target + " " + Equals(s.target) + Join(", ", Texts([s.first] + s.others)) == EmitStatement(s)
  {
    hide Join, Emit, EmitOthers;
    JoinedValues(s.first, s.others);
    assert s.target + " " + Equals(s.target) + (Emit(s.first) + EmitOthers(s.others))
        == s.target + " " + Equals(s.target) + Emit(s.first) + EmitOthers(s.others);
  }

  lemma PushedOnTop(stack: seq<seq<string>>, frame: seq<string>, text: string)
    ensures Pushed(stack + [frame], text) == stack + [frame + [text]]
  {
  }

  lemma LastFrame(s: seq<seq<string>>, f: seq<string>, t: seq<seq<string>>, g: seq<string>)
    requires s + [f] == t + [g]
    ensures s == t && f == g
  {
    assert (s + [f])[|s|] == f && (t + [g])[|t|] == g;
    assert s == (s + [f])[..|s|] && t == (t + [g])[..|t|];
  }

  function UnaryFrame(unary: string): seq<string> {
    if unary != "" then [unary] else []
  }

  // The frame of an expression when it has been visited.
  function Frame(e: Expr): seq<string> {
    var start := UnaryFrame(e.unary) + [AtomText(e.atom)];
    if e.Op? then start + [e.op] + [Emit(e.operand)] else start
  }

  lemma JoinMore(first: string, more: seq<string>)
    requires more != []
    ensures Join(" ", [first] + more) == first + " " + Join(" ", more)
  {
    assert ([first] + more)[1..] == more;
  }

  // What follows the unary operator, as a frame.
  function MainFrame(e: Expr): seq<string> {
    if e.Op? then [AtomText(e.atom), e.op, Emit(e.operand)] else [AtomText(e.atom)]
  }

  lemma MainText(e: Expr)
    ensures UnaryText(e.unary) + Join(" ", MainFrame(e)) == Emit(e)
  {
    hide Join, AtomText;
    var atom := AtomText(e.atom);
    JoinOne(atom);
    if e.Op? {
      var operand := Emit(e.operand);
      JoinOne(operand);
      JoinMore(e.op, [operand]);
      JoinMore(atom, [e.op, operand]);
      assert [e.op, operand] == [e.op] + [operand] && MainFrame(e) == [atom] + [e.op, operand];
      Regroup(UnaryText(e.unary), atom, e.op, operand);
    }
  }

  lemma Regroup(a: string, b: string, c: string, d: string)
    ensures a + (b + " " + (c + " " + d)) == a + b + (" " + c + " " + d)
  {
  }

  lemma JoinOne(text: string)
    ensures Join(" ", [text]) == text
  {
  }

  lemma FrameText(e: Expr)
    ensures Join(" ", Frame(e)) == Emit(e) && Frame(e)[0] == FirstText(e)
  {
    hide Join, AtomText, Emit;
    MainText(e);
    var main := MainFrame(e);
    assert Frame(e) == UnaryFrame(e.unary) + main;
    if e.unary != "" {
      JoinMore(e.unary, main);
    } else {
      assert Frame(e) == main && UnaryText("") + Join(" ", main) == Join(" ", main);
    }
  }
}
