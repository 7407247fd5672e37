/** What a program must be for the compiler to accept it, and what becomes of its output. */
module CompiledPrograms {
  import opened Wrappers
  import opened Peg
  import opened Grammar
  import opened Reader
  import opened StatementReader
  import opened Microcode
  import opened PrintParse
  import opened ProgramRoundTrip
  import opened ParseResults
  import opened Compiling

  predicate Accepted(w: Words, program: seq<Statement>) {
    ProgramSymbols(w, NOTHING, program).Success?
  }

  /** The error that a label statement raises, exactly: a variable is no label, whatever else; a second definition
      comes before an internal name; and otherwise the label is defined and current, and no other name changes. */
  lemma LabelRefusedAs(w: Words, sy: Symbols, id: string)
    ensures
      var r, variable := StatementSymbols(w, sy, Label(id)), id in sy.names && sy.names[id].kind.AsVariable?;
      var again := id in sy.names && sy.names[id].defined;
      && (r == Failure(UsedAsLabel) <==> variable)
      && (r == Failure(Redefined) <==> !variable && again)
      && (r == Failure(InternalLabel) <==> !variable && !again && id in w.internal)
      && (r.Success? <==> !variable && !again && id !in w.internal)
      && (r.Success? ==>
            && r.value.current == Some(id) && r.value.names.Keys == sy.names.Keys + {id}
            && r.value.names[id] == Entry(AsLabel, true)
            && forall other <- sy.names :: other != id ==> r.value.names[other] == sy.names[other])
  {
  }

  // ---------- The table of names only gains knowledge ----------

  /** A name stays in the table, a label stays a label, a variable becomes nothing but a label, and
      what is defined stays defined. */
  predicate Grows(before: Names, after: Names) {
    forall id <- before ::
      && id in after
      && (before[id].kind.AsLabel? ==> after[id].kind.AsLabel?)
      && (before[id].kind.AsVariable? ==> !after[id].kind.Unknown?)
      && (before[id].defined ==> after[id].defined)
  }

  lemma VarGrows(names: Names, id: string)
    ensures Grows(names, Tried(names, FoundVar(names, id)))
  {
  }

  lemma LabelGrows(names: Names, id: string, force: bool)
    ensures Grows(names, Tried(names, FoundLabel(names, id, force)))
  {
  }

  lemma {:induction false} ExprGrows(names: Names, e: Expr)
    ensures Grows(names, ExprNames(names, e))
    decreases e
  {
    var seen := AtomNames(names, e.atom);
    var all := if e.Op? then ExprNames(seen, e.operand) else seen;
    if e.Op? {
      ExprGrows(seen, e.operand);
    }
    VarGrows(all, FirstText(e));
  }

  lemma {:induction false} AllGrow(names: Names, es: seq<Expr>)
    ensures Grows(names, AllNames(names, es))
    decreases |es|
  {
    if es != [] {
      ExprGrows(names, es[0]);
      AllGrow(ExprNames(names, es[0]), es[1..]);
    }
  }

  lemma {:induction false} ForcedGrow(names: Names, items: seq<string>)
    ensures Grows(names, ForcedLabels(names, items))
    decreases |items|
  {
    if items != [] {
      LabelGrows(names, items[0], true);
      ForcedGrow(Tried(names, FoundLabel(names, items[0], true)), items[1..]);
    }
  }

  lemma StatementGrows(w: Words, sy: Symbols, s: Statement)
    requires StatementSymbols(w, sy, s).Success?
    ensures Grows(sy.names, StatementSymbols(w, sy, s).value.names)
  {
    hide ExprNames, AllNames, ForcedLabels, Texts, FoundVar, FoundLabel;
    match s
    case Jumping(_, place, arg) =>
      if arg.Some? {
        ExprGrows(Seen(sy.names, place), arg.value);
      }
      LabelGrows(OptionNames(Seen(sy.names, place), arg), place, false);
    case Return => LabelGrows(sy.names, sy.current.value, false);
    case Label(id) =>
      LabelGrows(Seen(sy.names, id), id, false);
      LabelDefines(w, sy, id);
    case Declare(id, value) =>
      if value.Some? {
        ExprGrows(Seen(sy.names, id), value.value);
      }
      VarGrows(OptionNames(Seen(sy.names, id), value), id);
      DeclareDefines(w, sy, s);
    case Assign(target, first, others) =>
      AllGrow(Seen(sy.names, target), [first] + others);
      var seen := AllNames(Seen(sy.names, target), [first] + others);
      ForcedGrow(seen, Texts([first] + others));
      VarGrows(if target in w.labelArgs then ForcedLabels(seen, Texts([first] + others)) else seen, target);
    case Command(_) =>
  }

  // A label that is accepted is new, is not internal, and is defined from here on.
  lemma LabelDefines(w: Words, sy: Symbols, id: string)
    requires LabelSymbols(w, sy, id).Success?
    ensures id in sy.names ==> !sy.names[id].defined && !sy.names[id].kind.AsVariable?
    ensures id !in w.internal && LabelSymbols(w, sy, id).value.current == Some(id)
    ensures
      var names := LabelSymbols(w, sy, id).value.names;
      id in names && names[id] == Entry(AsLabel, true) &&
      forall other <- sy.names :: other != id ==> other in names && names[other] == sy.names[other]
  {
  }

  // A declared name was not a label, and is defined from here on.
  lemma DeclareDefines(w: Words, sy: Symbols, s: Statement)
    requires s.Declare? && StatementSymbols(w, sy, s).Success?
    ensures s.id in sy.names ==> !sy.names[s.id].kind.AsLabel?
    ensures
      var all := OptionNames(Seen(sy.names, s.id), s.value);
      var names := StatementSymbols(w, sy, s).value.names;
      s.id in all && !all[s.id].kind.AsLabel? && names == all[s.id := Entry(AsVariable, true)]
  {
    hide AssignSymbols, LabelSymbols, ExprNames;
    if s.value.Some? {
      ExprGrows(Seen(sy.names, s.id), s.value.value);
    }
  }

  // ---------- Runs over a program ----------

  lemma {:induction false} Split(w: Words, sy: Symbols, p: seq<Statement>, q: seq<Statement>)
    requires ProgramSymbols(w, sy, p + q).Success?
    ensures ProgramSymbols(w, sy, p).Success?
    ensures ProgramSymbols(w, sy, p + q) == ProgramSymbols(w, ProgramSymbols(w, sy, p).value, q)
    decreases |p|
  {
    hide StatementSymbols;
    if p == [] {
      assert p + q == q;
    } else {
      assert (p + q)[1..] == p[1..] + q;
      Split(w, StatementSymbols(w, sy, p[0]).value, p[1..], q);
    }
  }

  // The table before statement i.
  function Before(w: Words, program: seq<Statement>, i: nat): (sy: Symbols)
    requires Accepted(w, program) && i <= |program|
  {
    PrefixAccepted(w, program, i);
    ProgramSymbols(w, NOTHING, program[..i]).value
  }

  lemma PrefixAccepted(w: Words, program: seq<Statement>, i: nat)
    requires Accepted(w, program) && i <= |program|
    ensures ProgramSymbols(w, NOTHING, program[..i]).Success?
  {
    hide StatementSymbols;
    assert program == program[..i] + program[i..];
    Split(w, NOTHING, program[..i], program[i..]);
  }

  lemma NextStep(w: Words, program: seq<Statement>, i: nat)
    requires Accepted(w, program) && i < |program|
    ensures StatementSymbols(w, Before(w, program, i), program[i]) == Success(Before(w, program, i + 1))
  {
    hide StatementSymbols, ProgramSymbols;
    PrefixAccepted(w, program, i + 1);
    assert program[..i + 1] == program[..i] + [program[i]];
    Split(w, NOTHING, program[..i], [program[i]]);
    OneStatement(w, Before(w, program, i), program[i]);
  }

  lemma OneStatement(w: Words, sy: Symbols, s: Statement)
    requires ProgramSymbols(w, sy, [s]).Success?
    ensures StatementSymbols(w, sy, s) == ProgramSymbols(w, sy, [s])
  {
    hide StatementSymbols;
    assert [s][1..] == [];
    assert StatementSymbols(w, sy, s).Success?;
    assert ProgramSymbols(w, StatementSymbols(w, sy, s).value, []) == StatementSymbols(w, sy, s);
  }

  lemma {:induction false} RunGrows(w: Words, program: seq<Statement>, i: nat, j: nat)
    requires Accepted(w, program) && i <= j <= |program|
    ensures Grows(Before(w, program, i).names, Before(w, program, j).names)
    ensures Before(w, program, i).current.Some? ==> Before(w, program, j).current.Some?
    decreases j - i
  {
    hide StatementSymbols, Before;
    if i < j {
      RunGrows(w, program, i, j - 1);
      NextStep(w, program, j - 1);
      StatementGrows(w, Before(w, program, j - 1), program[j - 1]);
      CurrentStays(w, Before(w, program, j - 1), program[j - 1]);
    }
  }

  lemma CurrentStays(w: Words, sy: Symbols, s: Statement)
    requires StatementSymbols(w, sy, s).Success?
    ensures
      var next := StatementSymbols(w, sy, s).value;
      if s.Label? then next.current == Some(s.id) else next.current == sy.current
  {
    hide FoundVar, FoundLabel, ExprNames, AllNames, ForcedLabels;
    if s.Label? {
      LabelDefines(w, sy, s.id);
    }
  }

  // Around an accepted declaration: not a label before, a defined variable after.
  lemma Declared(w: Words, program: seq<Statement>, i: nat)
    requires Accepted(w, program) && i < |program| && program[i].Declare?
    ensures
      var id := program[i].id;
      var before, after := Before(w, program, i).names, Before(w, program, i + 1).names;
      (id in before ==> !before[id].kind.AsLabel?) && id in after && after[id] == Entry(AsVariable, true)
  {
    hide Before, StatementSymbols;
    NextStep(w, program, i);
    DeclareDefines(w, Before(w, program, i), program[i]);
  }

  // Around an accepted label: not defined before, a defined label after.
  lemma Labelled(w: Words, program: seq<Statement>, i: nat)
    requires Accepted(w, program) && i < |program| && program[i].Label?
    ensures program[i].id !in w.internal
    ensures
      var id := program[i].id;
      var before, after := Before(w, program, i).names, Before(w, program, i + 1).names;
      && (id in before ==> !before[id].defined && !before[id].kind.AsVariable?)
      && id in after && after[id] == Entry(AsLabel, true)
  {
    hide Before, AssignSymbols, LabelSymbols;
    NextStep(w, program, i);
    LabelDefines(w, Before(w, program, i), program[i].id);
  }

  /** In an accepted program no label is defined twice, and no label has the name of an internal
      variable or command. */
  lemma LabelsAreDistinct(w: Words, program: seq<Statement>, i: nat, j: nat)
    requires Accepted(w, program) && i < j < |program| && program[i].Label? && program[j].Label?
    ensures program[i].id != program[j].id && program[i].id !in w.internal
  {
    hide Before, StatementSymbols;
    Labelled(w, program, i);
    Labelled(w, program, j);
    RunGrows(w, program, i + 1, j);
  }

  /** No name is both a declared variable and a label, in either order. */
  lemma {:induction false} NoVariableIsALabel(w: Words, program: seq<Statement>, i: nat, j: nat)
    requires Accepted(w, program) && i < |program| && j < |program| && program[i].Declare? && program[j].Label?
    ensures program[i].id != program[j].id
  {
    hide Before, StatementSymbols, Accepted;
    Declared(w, program, i);
    Labelled(w, program, j);
    if i < j {
      RunGrows(w, program, i + 1, j);
    } else {
      assert j < i;
      RunGrows(w, program, j + 1, i);
    }
  }

  lemma NothingBefore(w: Words, program: seq<Statement>)
    requires Accepted(w, program)
    ensures Before(w, program, 0) == NOTHING
  {
    hide StatementSymbols;
    assert program[..0] == [];
  }

  /** A program is accepted only if each return comes after some label. */
  lemma {:induction false} ReturnsFollowLabels(w: Words, program: seq<Statement>, j: nat)
    requires Accepted(w, program) && j <= |program| && Before(w, program, j).current.Some?
    ensures exists i :: 0 <= i < j && program[i].Label?
  {
    hide Before, StatementSymbols;
    NothingBefore(w, program);
    if j > 0 {
      NextStep(w, program, j - 1);
      CurrentStays(w, Before(w, program, j - 1), program[j - 1]);
      if !program[j - 1].Label? {
        ReturnsFollowLabels(w, program, j - 1);
      }
    }
  }

  lemma ReturnHasLabel(w: Words, program: seq<Statement>, j: nat)
    requires Accepted(w, program) && j < |program| && program[j] == Return
    ensures exists i :: 0 <= i < j && program[i].Label?
  {
    NextStep(w, program, j);
    ReturnsFollowLabels(w, program, j);
  }

  /** Nothing read-only, and no command that takes no arguments, is assigned to. */
  lemma AssignedIsAssignable(w: Words, program: seq<Statement>, i: nat)
    requires Accepted(w, program) && i < |program| && program[i].Assign?
    ensures program[i].target !in w.readOnly
    ensures program[i].target in w.internal ==> program[i].target in w.assignable
  {
    hide Before, StatementSymbols;
    NextStep(w, program, i);
    AssignAccepted(w, Before(w, program, i), program[i]);
  }

  lemma AssignAccepted(w: Words, sy: Symbols, s: Statement)
    requires s.Assign? && StatementSymbols(w, sy, s).Success?
    ensures s.target !in w.readOnly && (s.target in w.internal ==> s.target in w.assignable)
  {
    hide FoundVar, ForcedLabels, AllNames;
  }

  lemma RTIsBare()
    ensures "RT" in BARE
  {
  }

  lemma RTIsNoCommand()
    ensures "RT" !in COMMANDS
  {
  }

  lemma RTIsNotInFirstHalf()
    ensures "RT" !in READ_WRITE_A_D && "RT" !in READ_WRITE_E_M
  {
  }

  lemma RTIsNotInSecondHalf()
    ensures "RT" !in READ_WRITE_N_R && "RT" !in READ_WRITE_S_V
  {
  }

  lemma RTIsNotWritable()
    ensures "RT" !in READ_WRITE
  {
    hide READ_WRITE_A_D, READ_WRITE_E_M, READ_WRITE_N_R, READ_WRITE_S_V;
    RTIsNotInFirstHalf();
    RTIsNotInSecondHalf();
  }

  /** RT, a command without arguments, is not assignable. */
  lemma BareIsInternal()
    ensures "RT" in GRAMMAR_WORDS.internal && "RT" !in GRAMMAR_WORDS.assignable
  {
    hide BARE, READ_ONLY, READ_WRITE, COMMANDS;
    RTIsBare();
    RTIsNoCommand();
    RTIsNotWritable();
  }

  // ---------- A declared variable as the target of a jump ----------

  /** The statement hands the name to a command that takes labels. */
  predicate Forces(w: Words, s: Statement, id: string) {
    s.Assign? && s.target in w.labelArgs && id in Texts([s.first] + s.others)
  }

  predicate VariableIn(names: Names, id: string) {
    id in names && names[id].kind.AsVariable?
  }

  lemma {:induction false} ExprKeepsVariable(names: Names, e: Expr, id: string)
    requires VariableIn(names, id)
    ensures VariableIn(ExprNames(names, e), id)
    decreases e
  {
    var seen := AtomNames(names, e.atom);
    if e.Op? {
      ExprKeepsVariable(seen, e.operand, id);
    }
  }

  lemma {:induction false} AllKeepVariable(names: Names, es: seq<Expr>, id: string)
    requires VariableIn(names, id)
    ensures VariableIn(AllNames(names, es), id)
    decreases |es|
  {
    if es != [] {
      ExprKeepsVariable(names, es[0], id);
      AllKeepVariable(ExprNames(names, es[0]), es[1..], id);
    }
  }

  lemma {:induction false} ForcedKeepsVariable(names: Names, items: seq<string>, id: string)
    requires VariableIn(names, id) && id !in items
    ensures VariableIn(ForcedLabels(names, items), id)
    decreases |items|
  {
    if items != [] {
      ForcedKeepsVariable(Tried(names, FoundLabel(names, items[0], true)), items[1..], id);
    }
  }

  lemma StatementKeepsVariable(w: Words, sy: Symbols, s: Statement, id: string)
    requires VariableIn(sy.names, id) && StatementSymbols(w, sy, s).Success? && !Forces(w, s, id)
    ensures VariableIn(StatementSymbols(w, sy, s).value.names, id)
    ensures s.Jumping? ==> s.place != id
  {
    hide ExprNames, AllNames, ForcedLabels, Texts;
    match s
    case Jumping(_, place, arg) =>
      if arg.Some? {
        ExprKeepsVariable(Seen(sy.names, place), arg.value, id);
      }
    case Return =>
    case Label(_) =>
    case Declare(x, value) =>
      if value.Some? {
        ExprKeepsVariable(Seen(sy.names, x), value.value, id);
      }
    case Assign(target, first, others) =>
      AllKeepVariable(Seen(sy.names, target), [first] + others, id);
      if target in w.labelArgs {
        ForcedKeepsVariable(AllNames(Seen(sy.names, target), [first] + others), Texts([first] + others), id);
      }
    case Command(_) =>
  }

  lemma {:induction false} VariableStays(w: Words, program: seq<Statement>, i: nat, j: nat, id: string)
    requires Accepted(w, program) && i <= j <= |program| && VariableIn(Before(w, program, i).names, id)
    requires forall k :: i <= k < j ==> !Forces(w, program[k], id)
    ensures VariableIn(Before(w, program, j).names, id)
    decreases j - i
  {
    hide StatementSymbols, Before, Forces, VariableIn;
    if i < j {
      VariableStays(w, program, i, j - 1, id);
      NextStep(w, program, j - 1);
      StatementKeepsVariable(w, Before(w, program, j - 1), program[j - 1], id);
    }
  }

  /** A program that jumps to a variable it declares is accepted only when, in between, the variable
      was handed to a command that takes labels, which silently turns it into a label. */
  lemma {:induction false} CalledVariableWasForced(w: Words, program: seq<Statement>, i: nat, j: nat)
    requires Accepted(w, program) && i < |program| && j < |program|
    requires program[i].Declare? && program[j].Jumping? && program[i].id == program[j].place
    ensures i < j && exists k :: i < k < j && Forces(w, program[k], program[i].id)
  {
    hide StatementSymbols, Before, Forces;
    var id := program[i].id;
    Declared(w, program, i);
    NextStep(w, program, j);
    JumpMakesLabel(w, Before(w, program, j), program[j]);
    if j < i {
      RunGrows(w, program, j + 1, i);
    } else if forall k :: i < k < j ==> !Forces(w, program[k], id) {
      VariableStays(w, program, i + 1, j, id);
      JumpForcesNothing(w, program[j], id);
      StatementKeepsVariable(w, Before(w, program, j), program[j], id);
    }
  }

  lemma JumpForcesNothing(w: Words, s: Statement, id: string)
    requires s.Jumping?
    ensures !Forces(w, s, id)
  {
  }

  lemma JumpMakesLabel(w: Words, sy: Symbols, s: Statement)
    requires s.Jumping? && StatementSymbols(w, sy, s).Success?
    ensures
      var names := StatementSymbols(w, sy, s).value.names;
      s.place in names && names[s.place].kind.AsLabel?
  {
    hide ExprNames, READ_ONLY, INTERNAL, ASSIGNABLE, LABEL_ARGS, AssignSymbols, LabelSymbols;
  }

  /** It does happen, with every such command and every name but the command's own: a variable is
      declared, handed to the command, and called, and the compiler accepts it. */
  lemma VariableCanBeCalled(w: Words, x: string, command: string)
    requires command in w.labelArgs && command in w.assignable && command !in w.readOnly
    ensures
      Accepted(w, [Declare(x, None), Assign(command, Last("", Name(x)), []), Jumping(Calling, x, None)])
      <==> command != x
  {
    var declare, hand, call := Declare(x, None), Assign(command, Last("", Name(x)), []), Jumping(Calling, x, None);
    var one := Symbols(map[x := Entry(AsVariable, true)], None);
    Noted(x);
    assert StatementSymbols(w, NOTHING, declare) == Success(one);
    assert [call][1..] == [] && [hand, call][1..] == [call] && [declare, hand, call][1..] == [hand, call];
    if command == x {
      OwnHandedOver(w, one, x);
      hide StatementSymbols;
      assert ProgramSymbols(w, one, [hand, call]) == Failure(UsedAsVariable);
    } else {
      var two := Symbols(map[x := Entry(AsLabel, true), command := Entry(AsVariable, false)], None);
      HandedOver(w, one, two, x, command);
      assert two.names[x := Entry(AsLabel, true)] == two.names;
      assert StatementSymbols(w, two, call) == Success(two);
      hide StatementSymbols;
      assert ProgramSymbols(w, two, [call]) == Success(two);
      assert ProgramSymbols(w, one, [hand, call]) == Success(two);
    }
  }

  lemma OwnHandedOver(w: Words, one: Symbols, x: string)
    requires x in w.labelArgs && one == Symbols(map[x := Entry(AsVariable, true)], None)
    ensures StatementSymbols(w, one, Assign(x, Last("", Name(x)), [])) == Failure(UsedAsVariable)
  {
    var e := Last("", Name(x));
    assert [e] + [] == [e] && [e][1..] == [];
    assert ExprNames(one.names, e) == one.names[x := Entry(AsVariable, true)] == one.names;
    assert AllNames(Seen(one.names, x), [e]) == one.names;
    assert Emit(e) == x;
    assert Texts([e]) == [x] && [x][1..] == [];
    assert ForcedLabels(one.names, [x]) == one.names[x := Entry(AsLabel, true)];
  }

  lemma Noted(x: string)
    ensures
      var noted: Names := map[x := Entry(Unknown, false)];
      Seen(map[], x) == noted && FoundVar(noted, x) == Success(map[x := Entry(AsVariable, false)])
      && map[x := Entry(AsVariable, false)][x := Entry(AsVariable, true)] == map[x := Entry(AsVariable, true)]
  {
    var none: Names := map[];
    var noted: Names := map[x := Entry(Unknown, false)];
    assert none[x := Entry(Unknown, false)] == noted;
    assert noted[x := Entry(AsVariable, false)] == map[x := Entry(AsVariable, false)];
  }

  lemma HandedOver(w: Words, one: Symbols, two: Symbols, x: string, command: string)
    requires command in w.labelArgs && command in w.assignable && command !in w.readOnly && command != x
    requires one == Symbols(map[x := Entry(AsVariable, true)], None)
    requires two == Symbols(map[x := Entry(AsLabel, true), command := Entry(AsVariable, false)], None)
    ensures StatementSymbols(w, one, Assign(command, Last("", Name(x)), [])) == Success(two)
  {
    var e := Last("", Name(x));
    assert [e] + [] == [e] && [e][1..] == [];
    var seen := one.names[command := Entry(Unknown, false)];
    assert seen[x := Entry(AsVariable, true)] == seen;
    assert ExprNames(seen, e) == seen;
    assert AllNames(Seen(one.names, command), [e]) == seen;
    assert Emit(e) == x;
    assert Texts([e]) == [x] && [x][1..] == [];
    var forced := seen[x := Entry(AsLabel, true)];
    assert forced[command := Entry(AsVariable, false)] == two.names;
    assert ForcedLabels(seen, [x]) == forced;
    assert FoundVar(forced, command) == Success(two.names);
  }

  // ---------- The output, compiled again ----------

  /** A statement that the grammar read and the compiler, with the grammar's own words, accepts reads back
      from its emitted text as the same tree, unless CL or BR is assigned an expression that starts with a
      name. */
  lemma EmittedStatementReadsBack(text: string, sy: Symbols, rest: string) returns (s: Statement)
    requires Fixed(text) && Read(RStatement, text).Some?
    ensures Leaves(KindAt(text), s)
    ensures StatementSymbols(GRAMMAR_WORDS, sy, s).Success? ==>
              (Read(RStatement, EmitStatement(s) + "\n" + rest) == Some(([StatementNode(s)], rest))
               <==> !(s.Assign? && s.target in {"CL", "BR"} && StartsWithName(s.first)))
  {
    hide Read, KindAt, Stable, LexicalStatement, EmitStatement, StatementSymbols, StatementNode, Fixed,
         GRAMMAR_WORDS;
    s := StatementParsed(text);
    StatementRoundTripIff(s, rest);
    BareIsInternal();
    if StatementSymbols(GRAMMAR_WORDS, sy, s).Success? && s.Assign? {
      AssignAccepted(GRAMMAR_WORDS, sy, s);
    }
    if Misread(s) {
      MisreadIsUnstable(s);
    }
  }

  lemma MisreadIsUnstable(s: Statement)
    requires Misread(s)
    ensures !Stable(s)
  {
  }

  /** The lines of the compiled program, in its own order, read back to the last character to the trees they
      were written from, if and only if the program is stable. */
  lemma OutputReadsBackIffStable(program: seq<Statement>)
    requires LexicalProgram(program) && program != []
    ensures Line(LANGUAGE, Listing(program)) == Some((ProgramNodes(program), "")) <==> StableProgram(program)
    ensures Listing(program) == Written(Lines(program))
  {
    ProgramRoundTripIff(program);
    ListingIsLines(program);
  }

  // The lines as they are written to the output file.
  function Written(lines: seq<string>): string {
    if lines == [] then "" else lines[0] + "\n" + Written(lines[1..])
  }

  lemma {:induction false} ListingIsLines(program: seq<Statement>)
    ensures Listing(program) == Written(Lines(program))
  {
    hide EmitStatement;
    if program != [] {
      assert Lines(program)[1..] == Lines(program[1..]);
      ListingIsLines(program[1..]);
    }
  }
}
