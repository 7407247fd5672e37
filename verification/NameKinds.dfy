/**
 The compiler's table of names, one name at a time: whether a statement is accepted
 depends, for each name, only on what the statements before did to that name.
 */
module NameKinds {
  import opened Wrappers
  import opened Grammar
  import opened Microcode
  import opened ProgramRoundTrip
  import opened Compiling
  import opened CompiledPrograms

  const FRESH := Entry(Unknown, false)

  // What the table says about a name; a name that is not there is like one only seen.
  function EntryOf(names: Names, id: string): Entry {
    if id in names then names[id] else FRESH
  }

  // ---------- What a statement does to a name ----------

  /** The name alone is the first text of the expression, or of an operand. */
  predicate Leads(e: Expr, id: string)
    decreases e
  {
    (e.unary == "" && e.atom == Name(id)) || (e.Op? && Leads(e.operand, id))
  }

  function Values(s: Statement): seq<Expr> {
    match s
    case Jumping(_, _, arg) => if arg.Some? then [arg.value] else []
    case Declare(_, value) => if value.Some? then [value.value] else []
    case Assign(_, first, others) => [first] + others
    case _ => []
  }

  predicate LeadsAny(es: seq<Expr>, id: string) {
    exists i :: 0 <= i < |es| && Leads(es[i], id)
  }

  /** The statement uses the name as a label. */
  predicate UsesLabel(s: Statement, id: string) {
    (s.Jumping? && s.place == id) || (s.Label? && s.id == id)
  }

  /** The statement declares or assigns the name. */
  predicate Sets(s: Statement, id: string) {
    (s.Declare? && s.id == id) || (s.Assign? && s.target == id)
  }

  function Touched(m: Entry): Entry {
    if m.kind.Unknown? then m.(kind := AsVariable) else m
  }

  // The entry after the statement's values, and after labels were forced.
  function Valued(w: Words, s: Statement, id: string, m: Entry): Entry {
    var touched := if LeadsAny(Values(s), id) then Touched(m) else m;
    if Forces(w, s, id) then touched.(kind := AsLabel) else touched
  }

  /** The entry after the statement, or None if the statement cannot use the name so. */
  function Next(w: Words, s: Statement, id: string, m: Entry): Option<Entry> {
    var n := Valued(w, s, id, m);
    if UsesLabel(s, id) then
      if n.kind.AsVariable? || (s.Label? && n.defined) then None
      else Some(Entry(AsLabel, n.defined || s.Label?))
    else if Sets(s, id) then
      if n.kind.AsLabel? then None else Some(Entry(AsVariable, n.defined || s.Declare?))
    else Some(n)
  }

  function Run(w: Words, program: seq<Statement>, id: string, m: Entry): Option<Entry>
    decreases |program|
  {
    if program == [] then Some(m)
    else
      var n := Next(w, program[0], id, m);
      if n.None? then None else Run(w, program[1..], id, n.value)
  }

  // ---------- What does not depend on the table ----------

  predicate Allowed(w: Words, s: Statement, inLabel: bool) {
    && (s.Return? ==> inLabel)
    && (s.Label? ==> s.id !in w.internal)
    && (s.Assign? ==> s.target !in w.readOnly && (s.target in w.internal ==> s.target in w.assignable))
  }

  predicate AllAllowed(w: Words, program: seq<Statement>, inLabel: bool)
    decreases |program|
  {
    program == []
    || (Allowed(w, program[0], inLabel) && AllAllowed(w, program[1..], inLabel || program[0].Label?))
  }

  // ---------- Expressions and forced labels ----------

  lemma FirstIsName(e: Expr, id: string)
    requires Lexical(e) && IsName(id)
    ensures FirstText(e) == id <==> e.unary == "" && e.atom == Name(id)
  {
    AtomIsName(e.atom, id);
    UnaryIsNoName(e.unary, id);
    hide Lexical, LexicalAtom, IsName, AtomText, UNARIES;
  }

  lemma UnaryIsNoName(unary: string, id: string)
    requires (unary == "" || unary in UNARIES) && IsName(id)
    ensures unary != id
  {
    assert unary in UNARIES ==> unary == "!" || unary == "-";
  }

  lemma AtomIsName(a: Atom, id: string)
    requires LexicalAtom(a) && IsName(id)
    ensures AtomText(a) == id <==> a == Name(id)
  {
  }

  lemma {:induction false} ExprEntry(names: Names, e: Expr, id: string)
    requires Lexical(e) && IsName(id)
    ensures EntryOf(ExprNames(names, e), id) == if Leads(e, id) then Touched(EntryOf(names, id)) else EntryOf(names, id)
    decreases e
  {
    var seen := AtomNames(names, e.atom);
    assert EntryOf(seen, id) == EntryOf(names, id);
    if e.Op? {
      ExprEntry(seen, e.operand, id);
      ExprGrows(seen, e.operand);
    }
    FirstIsName(e, id);
    hide FirstText, Lexical, IsName;
  }

  lemma {:induction false} AllEntry(names: Names, es: seq<Expr>, id: string)
    requires (forall i :: 0 <= i < |es| ==> Lexical(es[i])) && IsName(id)
    ensures EntryOf(AllNames(names, es), id)
         == if LeadsAny(es, id) then Touched(EntryOf(names, id)) else EntryOf(names, id)
    decreases |es|
  {
    hide Lexical, IsName, Leads, ExprNames;
    if es != [] {
      ExprEntry(names, es[0], id);
      AllEntry(ExprNames(names, es[0]), es[1..], id);
      assert LeadsAny(es, id) <==> Leads(es[0], id) || LeadsAny(es[1..], id) by {
        assert forall i :: 0 <= i < |es[1..]| ==> es[1..][i] == es[i + 1];
        assert forall i :: 0 < i < |es| ==> es[i] == es[1..][i - 1];
      }
    }
  }

  lemma BlankWritten(e: Expr)
    requires e.unary != "" || e.Op?
    ensures ' ' in Emit(e)
  {
    var head := UnaryText(e.unary) + AtomText(e.atom);
    if e.unary != "" {
      assert Emit(e)[|e.unary|] == ' ';
    } else {
      assert Emit(e)[|head|] == ' ';
    }
  }

  lemma NameHasNoBlank(id: string)
    requires IsName(id)
    ensures ' ' !in id
  {
  }

  // A value written as a name is that name, so that the table has it.
  lemma TextIsName(e: Expr, id: string)
    requires Lexical(e) && IsName(id) && Emit(e) == id
    ensures e == Last("", Name(id))
  {
    NameHasNoBlank(id);
    if e.unary == "" && e.Last? {
      assert Emit(e) == AtomText(e.atom);
      AtomIsName(e.atom, id);
    } else {
      BlankWritten(e);
    }
  }

  lemma {:induction false} TextsAreSeen(names: Names, es: seq<Expr>, id: string)
    requires (forall i :: 0 <= i < |es| ==> Lexical(es[i])) && IsName(id) && id in Texts(es)
    ensures id in AllNames(names, es)
    decreases |es|
  {
    hide Lexical, IsName, Emit;
    if Emit(es[0]) == id {
      TextIsName(es[0], id);
      AllGrow(ExprNames(names, es[0]), es[1..]);
    } else {
      TextsAreSeen(ExprNames(names, es[0]), es[1..], id);
    }
  }

  lemma {:induction false} ForcedEntry(names: Names, items: seq<string>, id: string)
    requires id in items ==> id in names
    ensures EntryOf(ForcedLabels(names, items), id)
         == if id in items then EntryOf(names, id).(kind := AsLabel) else EntryOf(names, id)
    decreases |items|
  {
    if items != [] {
      var next := Tried(names, FoundLabel(names, items[0], true));
      ForcedEntry(next, items[1..], id);
    }
  }

  // ---------- One statement ----------

  lemma OptionEntry(w: Words, s: Statement, names: Names, x: string, value: Option<Expr>, id: string)
    requires LexicalOption(value) && IsName(id) && !s.Assign? && Values(s) == if value.Some? then [value.value] else []
    ensures EntryOf(OptionNames(Seen(names, x), value), id) == Valued(w, s, id, EntryOf(names, id))
    ensures x in OptionNames(Seen(names, x), value)
  {
    hide Lexical, IsName, Leads, ExprNames, Values;
    assert EntryOf(Seen(names, x), id) == EntryOf(names, id);
    if value.Some? {
      ExprEntry(Seen(names, x), value.value, id);
      ExprGrows(Seen(names, x), value.value);
      assert LeadsAny(Values(s), id) <==> Leads(value.value, id) by {
        assert Values(s)[0] == value.value;
      }
    }
  }

  // The table when the target of an assignment is looked up.
  function Assigned(w: Words, names: Names, s: Statement): Names
    requires s.Assign?
  {
    var seen := AllNames(Seen(names, s.target), Values(s));
    if s.target in w.labelArgs then ForcedLabels(seen, Texts(Values(s))) else seen
  }

  lemma AssignedEntry(w: Words, s: Statement, names: Names, id: string)
    requires LexicalStatement(s) && IsName(id) && s.Assign?
    ensures EntryOf(Assigned(w, names, s), id) == Valued(w, s, id, EntryOf(names, id))
    ensures s.target in Assigned(w, names, s)
  {
    hide Lexical, IsName, AllNames, ForcedLabels, Texts, LeadsAny;
    var seen := AllNames(Seen(names, s.target), Values(s));
    assert EntryOf(Seen(names, s.target), id) == EntryOf(names, id);
    AllEntry(Seen(names, s.target), Values(s), id);
    AllGrow(Seen(names, s.target), Values(s));
    ForcedGrow(seen, Texts(Values(s)));
    if id in Texts(Values(s)) {
      TextsAreSeen(Seen(names, s.target), Values(s), id);
    }
    ForcedEntry(seen, Texts(Values(s)), id);
  }

  ghost predicate CurrentIsLabel(sy: Symbols) {
    sy.current.Some? ==> sy.current.value in sy.names && sy.names[sy.current.value].kind.AsLabel?
  }

  // Which name a statement can be refused for.
  predicate Fits(w: Words, s: Statement, names: Names) {
    match s
    case Jumping(_, place, _) => Next(w, s, place, EntryOf(names, place)).Some?
    case Label(id) => Next(w, s, id, EntryOf(names, id)).Some?
    case Declare(id, _) => Next(w, s, id, EntryOf(names, id)).Some?
    case Assign(target, _, _) => Next(w, s, target, EntryOf(names, target)).Some?
    case _ => true
  }

  /** A statement is accepted exactly when it is allowed and its name fits; every name's entry is then what
      the statement makes of it. */
  ghost predicate ByName(w: Words, sy: Symbols, s: Statement) {
    var r := StatementSymbols(w, sy, s);
    && (r.Success? <==> Allowed(w, s, sy.current.Some?) && Fits(w, s, sy.names))
    && (r.Success? ==>
          && (r.value.current.Some? <==> sy.current.Some? || s.Label?)
          && forall id | IsName(id) :: Next(w, s, id, EntryOf(sy.names, id)) == Some(EntryOf(r.value.names, id)))
  }

  lemma JumpByName(w: Words, sy: Symbols, s: Statement)
    requires LexicalStatement(s) && s.Jumping?
    ensures ByName(w, sy, s)
  {
    hide Lexical, IsName, LeadsAny, Valued;
    var names := OptionNames(Seen(sy.names, s.place), s.arg);
    forall id | IsName(id)
      ensures EntryOf(names, id) == Valued(w, s, id, EntryOf(sy.names, id)) && s.place in names
    {
      OptionEntry(w, s, sy.names, s.place, s.arg, id);
    }
    hide OptionNames;
  }

  lemma LabelByName(w: Words, sy: Symbols, s: Statement)
    requires LexicalStatement(s) && s.Label?
    ensures ByName(w, sy, s)
  {
    hide IsName;
    forall id
      ensures Valued(w, s, id, EntryOf(sy.names, id)) == EntryOf(sy.names, id)
    {
    }
    hide Valued;
  }

  lemma DeclareByName(w: Words, sy: Symbols, s: Statement)
    requires LexicalStatement(s) && s.Declare?
    ensures ByName(w, sy, s)
  {
    hide Lexical, IsName, LeadsAny, Valued;
    var names := OptionNames(Seen(sy.names, s.id), s.value);
    forall id | IsName(id)
      ensures EntryOf(names, id) == Valued(w, s, id, EntryOf(sy.names, id)) && s.id in names
    {
      OptionEntry(w, s, sy.names, s.id, s.value, id);
    }
    hide OptionNames;
  }

  lemma AssignByName(w: Words, sy: Symbols, s: Statement)
    requires LexicalStatement(s) && s.Assign?
    ensures ByName(w, sy, s)
  {
    hide Lexical, IsName, LeadsAny, Valued;
    var names := Assigned(w, sy.names, s);
    forall id | IsName(id)
      ensures EntryOf(names, id) == Valued(w, s, id, EntryOf(sy.names, id)) && s.target in names
    {
      AssignedEntry(w, s, sy.names, id);
    }
    assert AssignSymbols(w, sy, s.target, Values(s)) ==
      match FoundVar(names, s.target)
      case Failure(f) => Failure(f)
      case Success(found) =>
        if s.target in w.readOnly then Failure(ReadOnly)
        else if s.target in w.internal && s.target !in w.assignable then Failure(InternalCommand)
        else Success(sy.(names := found));
    hide Assigned, AssignSymbols;
  }

  lemma StatementByName(w: Words, sy: Symbols, s: Statement)
    requires LexicalStatement(s) && CurrentIsLabel(sy)
    ensures ByName(w, sy, s)
    ensures StatementSymbols(w, sy, s).Success? ==> CurrentIsLabel(StatementSymbols(w, sy, s).value)
  {
    if StatementSymbols(w, sy, s).Success? {
      StatementGrows(w, sy, s);
    }
    match s
    case Jumping(_, _, _) => JumpByName(w, sy, s);
    case Return =>
    case Label(_) => LabelByName(w, sy, s);
    case Declare(_, _) => DeclareByName(w, sy, s);
    case Assign(_, _, _) => AssignByName(w, sy, s);
    case Command(_) =>
  }

  // ---------- Programs ----------

  lemma {:induction false} AcceptedFrom(w: Words, sy: Symbols, program: seq<Statement>)
    requires LexicalProgram(program) && CurrentIsLabel(sy)
    ensures ProgramSymbols(w, sy, program).Success? <==>
              AllAllowed(w, program, sy.current.Some?)
              && forall id | IsName(id) :: Run(w, program, id, EntryOf(sy.names, id)).Some?
    ensures
      var r := ProgramSymbols(w, sy, program);
      r.Success? ==>
        forall id | IsName(id) :: Run(w, program, id, EntryOf(sy.names, id)) == Some(EntryOf(r.value.names, id))
    decreases |program|
  {
    hide IsName, LexicalStatement, CurrentIsLabel, StatementSymbols, Next, Allowed, EntryOf, Fits;
    if program != [] {
      var s := program[0];
      StatementByName(w, sy, s);
      SubjectFits(w, s, sy.names);
      var r := StatementSymbols(w, sy, s);
      if r.Success? {
        assert forall i :: 0 <= i < |program[1..]| ==> program[1..][i] == program[i + 1];
        AcceptedFrom(w, r.value, program[1..]);
      }
    }
  }

  lemma SubjectFits(w: Words, s: Statement, names: Names)
    requires LexicalStatement(s)
    ensures Fits(w, s, names) <==> forall id | IsName(id) :: Next(w, s, id, EntryOf(names, id)).Some?
  {
    hide IsName, Lexical, Valued, EntryOf;
  }

  /** A program is accepted if and only if every statement is allowed and every name, looked at on its own,
      is used consistently. */
  lemma AcceptedByName(w: Words, program: seq<Statement>)
    requires LexicalProgram(program)
    ensures Accepted(w, program) <==>
              AllAllowed(w, program, false) && forall id | IsName(id) :: Run(w, program, id, FRESH).Some?
    ensures Accepted(w, program) ==>
              forall id | IsName(id) ::
                Run(w, program, id, FRESH) == Some(EntryOf(ProgramSymbols(w, NOTHING, program).value.names, id))
  {
    hide IsName, LexicalProgram, Run, AllAllowed;
    assert forall id :: EntryOf(NOTHING.names, id) == FRESH;
    AcceptedFrom(w, NOTHING, program);
  }
}
