/**
 What becomes of a compiled program (drivers/mdrive/microcode/mcodepp.py, compose and
 has_program_entry in compile/parse.py): the lines that start with VA are written first,
 and the others behind them, between PG 100 and PG unless the program enters program
 mode itself.
 */
module Publishing {
  import opened Wrappers
  import opened Peg
  import opened Grammar
  import opened Reader
  import opened Microcode
  import opened PrintParse
  import opened ProgramRoundTrip
  import opened Compiling
  import opened CompiledPrograms
  import opened NameKinds

  // ---------- The order of the lines ----------

  predicate IsDeclaration(line: string) {
    "VA" <= line
  }

  function Selected(lines: seq<string>, declarations: bool): seq<string> {
    if lines == [] then []
    else (if IsDeclaration(lines[0]) == declarations then [lines[0]] else []) + Selected(lines[1..], declarations)
  }

  /** compose: the lines on one side of the test, in their order. */
  method Compose(lines: seq<string>, declarations: bool) returns (where: string)
    ensures where == Written(Selected(lines, declarations))
  {
    hide IsDeclaration;
    where := "";
    assert lines[0..] == lines;
    for i := 0 to |lines|
      invariant where + Written(Selected(lines[i..], declarations)) == Written(Selected(lines, declarations))
    {
      ghost var more := Selected(lines[i + 1..], declarations);
      assert lines[i..][0] == lines[i] && lines[i..][1..] == lines[i + 1..];
      assert ([lines[i]] + more)[1..] == more && [] + more == more;
      if IsDeclaration(lines[i]) == declarations {
        where := where + (lines[i] + "\n");
      }
    }
  }

  /** The line of the statement starts with VA. */
  predicate Moves(s: Statement) {
    s.Declare? || (s.Assign? && s.target == "VA")
  }

  function Composed(program: seq<Statement>, declarations: bool): (p: seq<Statement>)
    ensures forall i :: 0 <= i < |p| ==> p[i] in program && Moves(p[i]) == declarations
  {
    if program == [] then []
    else (if Moves(program[0]) == declarations then [program[0]] else []) + Composed(program[1..], declarations)
  }

  const PG_100 := Assign("PG", Last("", Number("100")), [])
  const PG := Command("PG")

  predicate Enters(program: seq<Statement>) {
    exists i :: 0 <= i < |program| && program[i].Assign? && program[i].target == "PG"
  }

  // The lines that are not moved, in program mode.
  function Entered(program: seq<Statement>): seq<Statement> {
    var rest := Composed(program, false);
    if Enters(program) then rest else [PG_100] + rest + [PG]
  }

  /** The program as it is published. */
  function Published(program: seq<Statement>): seq<Statement> {
    Composed(program, true) + Entered(program)
  }

  // The entry test reads a count that only variables have.
  predicate EntryTestWorks(names: Names) {
    "PG" in names ==> names["PG"].kind.AsVariable?
  }

  /** The text that is published; none if the compiler or the entry test raises an error. */
  function Output(w: Words, program: seq<Statement>): Option<string> {
    match ProgramSymbols(w, NOTHING, program)
    case Failure(_) => None
    case Success(sy) => if EntryTestWorks(sy.names) then Some(Listing(Published(program))) else None
  }

  lemma TwoLetters(line: string)
    ensures IsDeclaration(line) <==> |line| >= 2 && line[0] == 'V' && line[1] == 'A'
  {
    assert |line| >= 2 ==> line[..2] == [line[0], line[1]];
  }

  lemma MovesIff(s: Statement)
    requires LexicalStatement(s)
    ensures IsDeclaration(EmitStatement(s)) <==> Moves(s)
  {
    hide Emit, EmitOthers, EmitOption, Equals, Lexical;
    TwoLetters(EmitStatement(s));
    hide IsDeclaration;
    match s
    case Jumping(kind, _, _) => assert EmitStatement(s)[..2] == Opcode(kind);
    case Return =>
    case Label(_) => assert EmitStatement(s)[0] == 'L';
    case Declare(_, _) => assert EmitStatement(s)[0] == 'V' && EmitStatement(s)[1] == 'A';
    case Assign(target, _, _) =>
      assert EmitStatement(s)[0] == target[0];
      assert EmitStatement(s)[1] == if |target| == 2 then target[1] else ' ';
      assert target == "VA" <==> |target| == 2 && target[0] == 'V' && target[1] == 'A';
    case Command(word) => assert word == "E" || word == "S" || word == "H" || word == "PG" || word == "RT";
  }

  lemma {:induction false} SelectedLines(program: seq<Statement>, declarations: bool)
    requires LexicalProgram(program)
    ensures Selected(Lines(program), declarations) == Lines(Composed(program, declarations))
  {
    hide LexicalStatement, EmitStatement, IsDeclaration, Moves;
    if program != [] {
      var s, more := program[0], Composed(program[1..], declarations);
      MovesIff(s);
      assert forall i :: 0 <= i < |program[1..]| ==> program[1..][i] == program[i + 1];
      SelectedLines(program[1..], declarations);
      assert Lines(program)[0] == EmitStatement(s) && Lines(program)[1..] == Lines(program[1..]);
      assert ([s] + more)[1..] == more && [] + more == more && [] + Lines(more) == Lines(more);
    }
  }

  lemma {:induction false} WrittenAppend(p: seq<Statement>, q: seq<Statement>)
    ensures Written(Lines(p + q)) == Written(Lines(p)) + Written(Lines(q))
  {
    hide EmitStatement;
    if p == [] {
      assert p + q == q;
    } else {
      assert (p + q)[1..] == p[1..] + q;
      WrittenAppend(p[1..], q);
      assert Lines(p)[1..] == Lines(p[1..]) && Lines(p + q)[1..] == Lines(p[1..] + q);
    }
  }

  /** mcodepp: compiling a program and writing it out. */
  method Publish(w: Words, program: seq<Statement>) returns (text: Option<string>)
    requires LexicalProgram(program)
    ensures text == Output(w, program)
  {
    hide LexicalProgram, ProgramSymbols, Selected, Composed;
    var compiler := new Compiler(w);
    var lines, fault := compiler.Compile(program);
    if fault.Some? || ("PG" in compiler.names && !compiler.names["PG"].kind.AsVariable?) {
      return None;
    }
    var declarations := Compose(lines, true);
    var rest := Compose(lines, false);
    SelectedLines(program, true);
    SelectedLines(program, false);
    var enters := exists s <- program :: s.Assign? && s.target == "PG";
    if !enters {
      rest := "PG 100\n" + rest + "PG\n";
    }
    text := Some(declarations + rest);
    PublishedText(program);
  }

  lemma PublishedText(program: seq<Statement>)
    ensures Listing(Published(program)) == Written(Lines(Composed(program, true))) +
              var rest := Written(Lines(Composed(program, false)));
              if Enters(program) then rest else "PG 100\n" + rest + "PG\n"
  {
    hide Composed, Enters, COMMANDS, EmitStatement, Emit;
    ListingIsLines(Published(program));
    WrittenAppend(Composed(program, true), Entered(program));
    if !Enters(program) {
      var rest := Composed(program, false);
      WrittenAppend([PG_100], rest);
      WrittenAppend([PG_100] + rest, [PG]);
      OneLine(PG_100);
      OneLine(PG);
      EntryLines();
    }
  }

  lemma OneLine(s: Statement)
    ensures Written(Lines([s])) == EmitStatement(s) + "\n"
  {
    hide EmitStatement;
    assert [s][1..] == [];
    assert Lines([s])[1..] == [];
  }

  lemma EntryLines()
    ensures EmitStatement(PG_100) == "PG 100" && EmitStatement(PG) == "PG"
  {
    assert "PG" in COMMANDS;
  }

  lemma {:induction false} LinesLost(program: seq<Statement>)
    ensures |Written(Lines(Composed(program, false)))| <= |Written(Lines(program))|
    ensures |Written(Lines(Composed(program, false)))| == |Written(Lines(program))| <==> forall s <- program :: !Moves(s)
  {
    hide EmitStatement, Moves;
    if program != [] {
      var s, more := program[0], Composed(program[1..], false);
      LinesLost(program[1..]);
      assert Lines(program)[1..] == Lines(program[1..]);
      assert forall t :: t in program <==> t == s || t in program[1..];
      if !Moves(s) {
        assert ([s] + more)[1..] == more;
        assert Lines([s] + more)[1..] == Lines(more);
      } else {
        assert [] + more == more;
      }
    }
  }

  /** A file made with one call of compose, as make.py does, holds the whole program if and only if the
      program has no line that moves. */
  lemma MadeFileIsWholeIff(program: seq<Statement>)
    requires LexicalProgram(program)
    ensures Written(Selected(Lines(program), false)) == Listing(program) <==> forall s <- program :: !Moves(s)
  {
    SelectedLines(program, false);
    ListingIsLines(program);
    LinesLost(program);
    hide Moves;
    if forall s <- program :: !Moves(s) {
      assert forall i :: 0 <= i < |program| ==> !Moves(program[i]);
      ComposedSame(program, false);
    }
  }

  // ---------- Reading the output ----------

  lemma {:induction false} ComposedParts(program: seq<Statement>)
    ensures forall s <- program :: s in Composed(program, Moves(s))
    ensures LexicalProgram(program) ==> forall d: bool :: LexicalProgram(Composed(program, d))
    ensures StableProgram(program) <==> StableProgram(Composed(program, true)) && StableProgram(Composed(program, false))
  {
    hide Moves, LexicalStatement, Stable;
    forall s | s in program
      ensures s in Composed(program, Moves(s))
    {
      IsComposed(program, s);
    }
    Everywhere(program);
    Everywhere(Composed(program, true));
    Everywhere(Composed(program, false));
    hide StableProgram, LexicalProgram;
    assert forall d: bool :: forall s <- Composed(program, d) :: s in program;
  }

  lemma Everywhere(program: seq<Statement>)
    ensures LexicalProgram(program) <==> forall s <- program :: LexicalStatement(s)
    ensures StableProgram(program) <==> forall s <- program :: Stable(s)
  {
    hide LexicalStatement, Stable;
  }

  lemma {:induction false} IsComposed(program: seq<Statement>, s: Statement)
    requires s in program
    ensures s in Composed(program, Moves(s))
  {
    hide Moves;
    if s != program[0] {
      IsComposed(program[1..], s);
    }
  }

  lemma EntryIsStable()
    ensures LexicalStatement(PG_100) && LexicalStatement(PG) && Stable(PG_100) && Stable(PG)
  {
    assert "PG" in BARE;
  }

  lemma PublishedParts(program: seq<Statement>)
    requires LexicalProgram(program)
    ensures LexicalProgram(Published(program)) && Published(program) != []
    ensures StableProgram(Published(program)) <==> StableProgram(program)
  {
    hide Moves, LexicalStatement, Stable, PG_100, PG, Composed;
    ComposedParts(program);
    EntryIsStable();
    var d, o, e := Composed(program, true), Composed(program, false), Entered(program);
    assert Enters(program) ==> program != [] && d + o != [] by {
      if Enters(program) {
        var i :| 0 <= i < |program| && program[i].Assign? && program[i].target == "PG";
        assert program[i] in Composed(program, Moves(program[i]));
      }
    }
    assert StableProgram(e) <==> StableProgram(o) && LexicalProgram(e) by {
      if !Enters(program) {
        Joined([PG_100], o);
        Joined([PG_100] + o, [PG]);
      }
    }
    Joined(d, e);
  }

  lemma Joined(p: seq<Statement>, q: seq<Statement>)
    ensures LexicalProgram(p + q) <==> LexicalProgram(p) && LexicalProgram(q)
    ensures StableProgram(p + q) <==> StableProgram(p) && StableProgram(q)
  {
    hide LexicalStatement, Stable;
    assert forall i :: 0 <= i < |p| ==> (p + q)[i] == p[i];
    assert forall i :: 0 <= i < |q| ==> (p + q)[|p| + i] == q[i];
  }

  /** What is published reads back, to the last character, to the trees of the published program, if and
      only if the program is stable. */
  lemma PublishedReadsBackIff(program: seq<Statement>)
    requires LexicalProgram(program)
    ensures Line(LANGUAGE, Listing(Published(program))) == Some((ProgramNodes(Published(program)), ""))
       <==> StableProgram(program)
  {
    hide *;
    PublishedParts(program);
    ProgramRoundTripIff(Published(program));
  }

  // ---------- Publishing again ----------

  lemma {:induction false} ComposedAppend(p: seq<Statement>, q: seq<Statement>, d: bool)
    ensures Composed(p + q, d) == Composed(p, d) + Composed(q, d)
  {
    hide Moves;
    if p == [] {
      assert p + q == q;
    } else {
      assert (p + q)[1..] == p[1..] + q;
      ComposedAppend(p[1..], q, d);
    }
  }

  lemma {:induction false} ComposedSame(p: seq<Statement>, d: bool)
    requires forall i :: 0 <= i < |p| ==> Moves(p[i]) == d
    ensures Composed(p, d) == p && Composed(p, !d) == []
  {
    hide Moves;
    if p != [] {
      assert forall i :: 0 <= i < |p[1..]| ==> p[1..][i] == p[i + 1];
      ComposedSame(p[1..], d);
    }
  }

  /** Publishing a published program changes nothing: the lines that move are in front, and the program
      enters program mode. */
  lemma PublishedIsFixed(program: seq<Statement>)
    ensures Published(Published(program)) == Published(program) && Enters(Published(program))
  {
    hide Moves, Composed;
    var d, e := Composed(program, true), Entered(program);
    EntryStays();
    EntersIsKept(program);
    ComposedSame(d, true);
    ComposedSame(e, false);
    ComposedAppend(d, e, true);
    ComposedAppend(d, e, false);
    assert d + [] == d && [] + e == e;
  }

  lemma EntryStays()
    ensures !Moves(PG_100) && !Moves(PG)
  {
  }

  lemma EntersIsKept(program: seq<Statement>)
    ensures Enters(Published(program))
  {
    var d, e := Composed(program, true), Entered(program);
    if Enters(program) {
      var i :| 0 <= i < |program| && program[i].Assign? && program[i].target == "PG";
      IsComposed(program, program[i]);
      assert !Moves(program[i]);
      var k :| 0 <= k < |e| && e[k] == program[i];
      assert (d + e)[|d| + k] == program[i];
    } else {
      assert (d + e)[|d|] == PG_100;
    }
  }
}
