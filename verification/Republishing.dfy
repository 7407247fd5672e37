/**
 The output of a program, read back, compiled and published once more: what it reads
 back as, when that is accepted, and when the text comes out the same.
 */
module Republishing {
  import opened Wrappers
  import opened Peg
  import opened Grammar
  import opened Reader
  import opened Microcode
  import opened PrintParse
  import opened ProgramRoundTrip
  import opened ParseResults
  import opened Compiling
  import opened CompiledPrograms
  import opened NameKinds
  import opened Publishing

  // ---------- When a name cannot be used as it is read ----------

  /** The statement uses the name as a variable: it sets it, or a value starts with it. */
  predicate Varies(s: Statement, id: string) {
    Sets(s, id) || LeadsAny(Values(s), id)
  }

  /** Statement j is the first to use the name as a label, and no command made it one before. */
  predicate FirstLabel(w: Words, program: seq<Statement>, id: string, j: nat) {
    && j < |program| && UsesLabel(program[j], id)
    && forall k :: 0 <= k < j ==> !Forces(w, program[k], id) && !UsesLabel(program[k], id)
  }

  /** A name that is used as a label clashes with a line that uses it as a variable, if that line moves to the
      front, does not come later, or sets the name. */
  ghost predicate Clashes(w: Words, program: seq<Statement>, id: string) {
    exists j, i :: FirstLabel(w, program, id, j) && 0 <= i < |program| && Varies(program[i], id)
                   && (Moves(program[i]) || i <= j || Sets(program[i], id))
  }

  // The same, for a name that is a variable to start with, or is not.
  ghost predicate ClashesFrom(w: Words, program: seq<Statement>, id: string, variable: bool) {
    exists j :: FirstLabel(w, program, id, j) && (variable || VariesAround(program, id, j))
  }

  predicate VariesAround(program: seq<Statement>, id: string, j: nat) {
    exists i :: 0 <= i < |program| && Varies(program[i], id) && (i <= j || Sets(program[i], id))
  }

  predicate SetsAny(program: seq<Statement>, id: string) {
    exists i :: 0 <= i < |program| && Sets(program[i], id)
  }

  predicate MovesName(program: seq<Statement>, id: string) {
    exists i :: 0 <= i < |program| && Moves(program[i]) && Varies(program[i], id)
  }

  predicate Declares(program: seq<Statement>, id: string) {
    exists i :: 0 <= i < |program| && program[i].Declare? && program[i].id == id
  }

  predicate IsLabel(s: Statement, id: string) {
    s.Label? && s.id == id
  }

  predicate HasLabel(program: seq<Statement>, id: string) {
    exists i :: 0 <= i < |program| && IsLabel(program[i], id)
  }

  lemma FirstOrLater(program: seq<Statement>, id: string)
    requires program != []
    ensures MovesName(program, id) <==> (Moves(program[0]) && Varies(program[0], id)) || MovesName(program[1..], id)
    ensures Declares(program, id) <==> (program[0].Declare? && program[0].id == id) || Declares(program[1..], id)
    ensures SetsAny(program, id) <==> Sets(program[0], id) || SetsAny(program[1..], id)
    ensures HasLabel(program, id) <==> IsLabel(program[0], id) || HasLabel(program[1..], id)
  {
    hide Moves, Varies, Sets, IsLabel;
    var more := program[1..];
    assert forall i :: 0 <= i < |more| ==> more[i] == program[i + 1];
    assert forall i :: 0 < i < |program| ==> program[i] == more[i - 1];
  }

  lemma LaterLabel(w: Words, program: seq<Statement>, id: string, j: nat)
    requires program != [] && j + 1 < |program| && !UsesLabel(program[0], id) && !Forces(w, program[0], id)
    ensures FirstLabel(w, program, id, j + 1) <==> FirstLabel(w, program[1..], id, j)
    ensures VariesAround(program, id, j + 1) <==> Varies(program[0], id) || VariesAround(program[1..], id, j)
  {
    hide UsesLabel, Forces, Varies, Sets;
    var more := program[1..];
    assert forall i :: 0 <= i < |more| ==> more[i] == program[i + 1];
    assert forall i :: 0 < i < |program| ==> program[i] == more[i - 1];
    if FirstLabel(w, more, id, j) {
      assert forall k :: 0 < k < j + 1 ==> program[k] == more[k - 1];
    }
    if VariesAround(more, id, j) {
      var i :| 0 <= i < |more| && Varies(more[i], id) && (i <= j || Sets(more[i], id));
      assert Varies(program[i + 1], id);
    }
  }

  lemma ClashesFirst(w: Words, program: seq<Statement>, id: string, variable: bool)
    requires program != []
    ensures Forces(w, program[0], id) ==> !ClashesFrom(w, program, id, variable)
    ensures UsesLabel(program[0], id) ==>
              (ClashesFrom(w, program, id, variable)
               <==> variable || Varies(program[0], id) || SetsAny(program[1..], id))
  {
    var s := program[0];
    assert Forces(w, s, id) ==> !UsesLabel(s, id);
    assert UsesLabel(s, id) ==> !Sets(s, id);
    hide Varies, Forces, UsesLabel, Sets;
    if UsesLabel(s, id) {
      assert FirstLabel(w, program, id, 0);
      assert forall j :: FirstLabel(w, program, id, j) ==> j == 0;
      FirstOrLater(program, id);
      hide SetsAny;
      assert VariesAround(program, id, 0) <==> Varies(s, id) || SetsAny(program[1..], id) by {
        SetsVary(program, id);
      }
    }
  }

  lemma SetsVary(program: seq<Statement>, id: string)
    requires program != []
    ensures VariesAround(program, id, 0) <==> Varies(program[0], id) || SetsAny(program[1..], id)
  {
    hide LeadsAny, Sets;
    var more := program[1..];
    assert forall i :: 0 <= i < |more| ==> more[i] == program[i + 1];
    assert forall i :: 0 < i < |program| ==> program[i] == more[i - 1];
  }

  lemma ClashesLater(w: Words, program: seq<Statement>, id: string, variable: bool)
    requires program != [] && !UsesLabel(program[0], id) && !Forces(w, program[0], id)
    ensures ClashesFrom(w, program, id, variable)
       <==> ClashesFrom(w, program[1..], id, variable || Varies(program[0], id))
  {
    hide Varies, Forces, UsesLabel, VariesAround, FirstLabel;
    NotFirst(w, program, id);
    forall j: nat | j + 1 < |program|
      ensures FirstLabel(w, program, id, j + 1) <==> FirstLabel(w, program[1..], id, j)
      ensures VariesAround(program, id, j + 1) <==> Varies(program[0], id) || VariesAround(program[1..], id, j)
    {
      LaterLabel(w, program, id, j);
    }
    forall j: nat
      ensures FirstLabel(w, program, id, j) ==> j < |program|
      ensures FirstLabel(w, program[1..], id, j) ==> j + 1 < |program|
    {
      FirstIsInside(w, program, id, j);
      FirstIsInside(w, program[1..], id, j);
    }
    if ClashesFrom(w, program, id, variable) {
      var j: nat :| FirstLabel(w, program, id, j) && (variable || VariesAround(program, id, j));
      assert j != 0;
      assert FirstLabel(w, program[1..], id, j - 1);
    }
  }

  lemma NotFirst(w: Words, program: seq<Statement>, id: string)
    ensures FirstLabel(w, program, id, 0) ==> program != [] && UsesLabel(program[0], id)
  {
  }

  lemma FirstIsInside(w: Words, program: seq<Statement>, id: string, j: nat)
    ensures FirstLabel(w, program, id, j) ==> j < |program|
  {
  }

  // ---------- What an accepted program keeps to ----------

  /** No name is set from the line on that makes it a label, and a label that is defined is defined once. */
  ghost predicate Steady(w: Words, program: seq<Statement>, id: string) {
    && (forall k, j :: 0 <= k <= j < |program| && Forces(w, program[k], id) ==> !Sets(program[j], id))
    && (forall i, j :: 0 <= i < |program| && 0 <= j < |program| && i != j && IsLabel(program[j], id) ==>
          !Defines(program[i], id))
  }

  predicate Defines(s: Statement, id: string) {
    IsLabel(s, id) || (s.Declare? && s.id == id)
  }

  lemma SteadyParts(w: Words, program: seq<Statement>, id: string)
    requires program != []
    ensures
      var s, more := program[0], program[1..];
      Steady(w, program, id) <==>
        && (Forces(w, s, id) ==> !Sets(s, id) && !SetsAny(more, id))
        && (Defines(s, id) ==> !HasLabel(more, id))
        && (IsLabel(s, id) ==> !Declares(more, id))
        && Steady(w, more, id)
  {
    hide Forces, Sets;
    var more := program[1..];
    assert forall i :: 0 <= i < |more| ==> more[i] == program[i + 1];
    assert forall i :: 0 < i < |program| ==> program[i] == more[i - 1];
  }

  lemma {:induction false} RunIsSteady(w: Words, program: seq<Statement>, id: string, m: Entry)
    requires Run(w, program, id, m).Some?
    ensures Steady(w, program, id)
    ensures m.kind.AsLabel? ==> !SetsAny(program, id)
    ensures m.defined ==> !HasLabel(program, id)
    decreases |program|
  {
    if program != [] {
      var s, more := program[0], program[1..];
      FirstOrLater(program, id);
      SteadyParts(w, program, id);
      RunIsSteady(w, more, id, Next(w, s, id, m).value);
      DeclaresSets(more, id);
      hide Steady, SetsAny, HasLabel, Declares, LeadsAny, Forces;
    }
  }

  lemma DeclaresSets(program: seq<Statement>, id: string)
    ensures Declares(program, id) ==> SetsAny(program, id)
  {
  }

  // ---------- The reordered run ----------

  // Words for which the lines that are moved, added or misread are plain.
  predicate PlainWords(w: Words) {
    && "VA" !in w.labelArgs && "PG" !in w.labelArgs && "CL" !in w.labelArgs && "BR" !in w.labelArgs
    && "PG" !in w.readOnly && ("PG" in w.internal ==> "PG" in w.assignable)
  }

  // The lines that are moved, run first.
  lemma {:induction false} MovedRun(w: Words, program: seq<Statement>, id: string, m: Entry)
    requires !m.kind.AsLabel? && PlainWords(w)
    ensures
      var r := Run(w, Composed(program, true), id, m);
      && r.Some? && !r.value.kind.AsLabel?
      && (r.value.kind.AsVariable? <==> m.kind.AsVariable? || MovesName(program, id))
      && (r.value.defined <==> m.defined || Declares(program, id))
    decreases |program|
  {
    if program != [] {
      FirstOrLater(program, id);
      hide MovesName, Declares, SetsAny, HasLabel, LeadsAny;
      var s, more := program[0], Composed(program[1..], true);
      if Moves(s) {
        assert ([s] + more)[1..] == more && !Forces(w, s, id) && !UsesLabel(s, id);
        MovedRun(w, program[1..], id, Next(w, s, id, m).value);
      } else {
        assert [] + more == more;
        MovedRun(w, program[1..], id, m);
      }
    }
  }

  predicate SetsAfter(program: seq<Statement>, id: string) {
    exists i :: 0 <= i < |program| && !Moves(program[i]) && Sets(program[i], id)
  }

  lemma SetsAfterParts(program: seq<Statement>, id: string)
    requires program != []
    ensures SetsAfter(program, id) <==> (!Moves(program[0]) && Sets(program[0], id)) || SetsAfter(program[1..], id)
  {
    hide Moves, Sets;
    var more := program[1..];
    assert forall i :: 0 <= i < |more| ==> more[i] == program[i + 1];
    assert forall i :: 0 < i < |program| ==> program[i] == more[i - 1];
  }

  // A name that is a label by now is refused only where it is set.
  lemma {:induction false} LabelRun(w: Words, program: seq<Statement>, id: string, n: Entry)
    requires n.kind.AsLabel? && Steady(w, program, id) && (n.defined ==> !HasLabel(program, id))
    ensures Run(w, Composed(program, false), id, n).Some? <==> !SetsAfter(program, id)
    decreases |program|
  {
    if program != [] {
      var s, later := program[0], program[1..];
      var more := Composed(later, false);
      FirstOrLater(program, id);
      SteadyParts(w, program, id);
      SetsAfterParts(program, id);
      hide Steady, SetsAfter, HasLabel, SetsAny, Declares, MovesName, LeadsAny, Forces;
      if Moves(s) {
        assert [] + more == more;
        LabelRun(w, later, id, n);
      } else {
        assert ([s] + more)[1..] == more;
        var a := Next(w, s, id, n);
        if a.Some? {
          LabelRun(w, later, id, a.value);
        }
      }
    }
  }

  /** The lines that stay, run after those that move: the name is refused if and only if it clashes. */
  lemma {:induction false} RestRun(w: Words, program: seq<Statement>, id: string, n: Entry)
    requires !n.kind.AsLabel? && Steady(w, program, id) && (n.defined ==> !HasLabel(program, id))
    requires PlainWords(w) && (MovesName(program, id) ==> n.kind.AsVariable?)
    ensures Run(w, Composed(program, false), id, n).Some? <==> !ClashesFrom(w, program, id, n.kind.AsVariable?)
    decreases |program|
  {
    if program == [] {
      NothingClashes(w, id, n.kind.AsVariable?);
    } else {
      var s, later, v := program[0], program[1..], n.kind.AsVariable?;
      var more := Composed(later, false);
      FirstOrLater(program, id);
      SteadyParts(w, program, id);
      ClashesFirst(w, program, id, v);
      MovedLineIsPlain(w, s, id);
      hide Steady, HasLabel, SetsAny, Declares, MovesName, ClashesFrom, Forces, LeadsAny, PlainWords;
      if Moves(s) {
        assert [] + more == more;
        ClashesLater(w, program, id, v);
        RestRun(w, later, id, n);
      } else {
        assert ([s] + more)[1..] == more;
        var a := Next(w, s, id, n);
        if Forces(w, s, id) || UsesLabel(s, id) {
          SetsKept(later, id);
          hide SetsAfter;
          if a.Some? {
            LabelRun(w, later, id, a.value);
          }
        } else {
          ClashesLater(w, program, id, v);
          RestRun(w, later, id, a.value);
        }
      }
    }
  }

  lemma NothingClashes(w: Words, id: string, variable: bool)
    ensures !ClashesFrom(w, [], id, variable)
  {
  }

  lemma MovedLineIsPlain(w: Words, s: Statement, id: string)
    requires PlainWords(w)
    ensures Moves(s) ==> !Forces(w, s, id) && !UsesLabel(s, id)
    ensures Forces(w, s, id) ==> !UsesLabel(s, id)
  {
  }

  lemma SetsKept(program: seq<Statement>, id: string)
    ensures SetsAfter(program, id) ==> SetsAny(program, id)
    ensures SetsAny(program, id) ==> SetsAfter(program, id) || MovesName(program, id)
  {
    hide Moves, LeadsAny;
  }

  // ---------- The program in program mode ----------

  /** The program between the lines that enter and leave program mode, if they are added. */
  function Framed(program: seq<Statement>): seq<Statement> {
    if Enters(program) then program else [PG_100] + program + [PG]
  }

  lemma PublishedIsComposed(program: seq<Statement>)
    ensures Published(program) == Composed(Framed(program), true) + Composed(Framed(program), false)
  {
    hide Composed, Moves, PG_100, PG;
    if !Enters(program) {
      FramedComposed(program, true);
      FramedComposed(program, false);
      hide Enters;
      EntryComposed();
      assert [] + Composed(program, true) + [] == Composed(program, true);
    }
  }

  lemma FramedComposed(program: seq<Statement>, d: bool)
    ensures Composed([PG_100] + program + [PG], d) == Composed([PG_100], d) + Composed(program, d) + Composed([PG], d)
  {
    ComposedAppend([PG_100] + program, [PG], d);
    ComposedAppend([PG_100], program, d);
    hide Composed, PG_100, PG;
  }

  lemma EntryComposed()
    ensures Composed([PG_100], true) == [] && Composed([PG_100], false) == [PG_100]
    ensures Composed([PG], true) == [] && Composed([PG], false) == [PG]
  {
    EntryStays();
    ComposedSame([PG_100], false);
    ComposedSame([PG], false);
    hide Composed, Moves, PG_100, PG;
  }

  lemma FramedIsSteady(w: Words, program: seq<Statement>, id: string)
    requires PlainWords(w) && Steady(w, program, id)
    ensures Steady(w, Framed(program), id)
  {
    var t := Framed(program);
    if !Enters(program) {
      forall k | 0 <= k < |t|
        ensures if k == 0 then t[k] == PG_100 else if k == |t| - 1 then t[k] == PG else t[k] == program[k - 1]
      {
      }
      EntryIsPlain(w, id);
      hide Forces, Sets, PG_100, PG, PlainWords, IsLabel, Defines, Enters;
    }
  }

  lemma EntryIsPlain(w: Words, id: string)
    requires PlainWords(w)
    ensures !Forces(w, PG_100, id) && !Forces(w, PG, id) && !Sets(PG, id)
    ensures !Defines(PG_100, id) && !Defines(PG, id) && !IsLabel(PG_100, id) && !IsLabel(PG, id)
  {
  }

  lemma RunAppend(w: Words, p: seq<Statement>, q: seq<Statement>, id: string, m: Entry)
    ensures Run(w, p + q, id, m) == var r := Run(w, p, id, m); if r.None? then None else Run(w, q, id, r.value)
    decreases |p|
  {
    hide Next;
    if p == [] {
      assert p + q == q;
    } else {
      assert (p + q)[1..] == p[1..] + q;
      var n := Next(w, p[0], id, m);
      if n.Some? {
        RunAppend(w, p[1..], q, id, n.value);
      }
    }
  }

  /** One name, in a published program: it is refused if and only if it clashes. */
  lemma PublishedName(w: Words, program: seq<Statement>, id: string)
    requires PlainWords(w) && Steady(w, program, id)
    ensures Run(w, Published(program), id, FRESH).Some? <==> !Clashes(w, Framed(program), id)
  {
    hide Published, Framed, Steady, PlainWords, Run, Composed, Clashes;
    var t := Framed(program);
    PublishedIsComposed(program);
    FramedIsSteady(w, program, id);
    MovedRun(w, t, id, FRESH);
    RunAppend(w, Composed(t, true), Composed(t, false), id, FRESH);
    DeclaredIsNoLabel(w, t, id);
    RestRun(w, t, id, Run(w, Composed(t, true), id, FRESH).value);
    ClashesAll(w, t, id);
  }

  lemma DeclaredIsNoLabel(w: Words, program: seq<Statement>, id: string)
    requires Steady(w, program, id)
    ensures Declares(program, id) ==> !HasLabel(program, id)
  {
    hide Forces;
    if Declares(program, id) {
      var i :| 0 <= i < |program| && program[i].Declare? && program[i].id == id;
      assert Defines(program[i], id);
    }
  }

  lemma ClashesAll(w: Words, program: seq<Statement>, id: string)
    ensures Clashes(w, program, id) <==> ClashesFrom(w, program, id, MovesName(program, id))
  {
    hide Varies, Moves, Sets, FirstLabel;
    if ClashesFrom(w, program, id, MovesName(program, id)) {
      var j: nat :| FirstLabel(w, program, id, j) && (MovesName(program, id) || VariesAround(program, id, j));
      if MovesName(program, id) {
        var i :| 0 <= i < |program| && Moves(program[i]) && Varies(program[i], id);
      } else {
        var i :| 0 <= i < |program| && Varies(program[i], id) && (i <= j || Sets(program[i], id));
      }
    }
    if Clashes(w, program, id) {
      var j, i :| FirstLabel(w, program, id, j) && 0 <= i < |program| && Varies(program[i], id)
                  && (Moves(program[i]) || i <= j || Sets(program[i], id));
      assert MovesName(program, id) || VariesAround(program, id, j);
    }
  }

  // ---------- Statements as they are read back ----------

  lemma {:induction false} NormalizeLeads(e: Expr, id: string)
    ensures Leads(Normalize(e), id) <==> Leads(e, id)
    decreases e
  {
    if e.Op? {
      NormalizeLeads(e.operand, id);
    }
  }

  lemma {:induction false} InTexts(es: seq<Expr>, text: string)
    ensures text in Texts(es) <==> exists i :: 0 <= i < |es| && Emit(es[i]) == text
  {
    hide Emit;
    if es != [] {
      InTexts(es[1..], text);
      assert forall i :: 0 <= i < |es[1..]| ==> es[1..][i] == es[i + 1];
      assert forall i :: 0 < i < |es| ==> es[i] == es[1..][i - 1];
    }
  }

  lemma NameIsKept(e: Expr, id: string)
    requires Lexical(e) && IsName(id)
    ensures Emit(Normalize(e)) == id <==> Emit(e) == id
  {
    NormalizeFixesNormal(e);
    if Emit(Normalize(e)) == id {
      TextIsName(Normalize(e), id);
      assert e == Last("", Name(id));
    }
    if Emit(e) == id {
      TextIsName(e, id);
    }
  }

  lemma NamesAreKept(es: seq<Expr>, id: string)
    requires (forall i :: 0 <= i < |es| ==> Lexical(es[i])) && IsName(id)
    ensures id in Texts(NormalizeAll(es)) <==> id in Texts(es)
  {
    hide Lexical, IsName, Emit, Normalize, Texts, NormalizeAll;
    InTexts(es, id);
    InTexts(NormalizeAll(es), id);
    forall i | 0 <= i < |es|
      ensures Emit(NormalizeAll(es)[i]) == id <==> Emit(es[i]) == id
    {
      NameIsKept(es[i], id);
    }
  }

  /** What reading a statement back leaves as it was. */
  lemma ReadStatement(w: Words, s: Statement, id: string)
    requires PlainWords(w) && LexicalStatement(s) && IsName(id) && Reread(s).Some?
    ensures
      var t := Reread(s).value;
      && (Forces(w, t, id) <==> Forces(w, s, id)) && (Sets(t, id) ==> Sets(s, id))
      && (IsLabel(t, id) <==> IsLabel(s, id)) && (Defines(t, id) <==> Defines(s, id))
  {
    hide Lexical, IsName, Emit, Normalize, Texts;
    if s.Assign? && Reread(s).value.Assign? {
      var es := [s.first] + s.others;
      NamesAreKept(es, id);
      assert NormalizeAll(es) == [Normalize(s.first)] + NormalizeAll(s.others);
    }
  }

  lemma ReadIsSteady(w: Words, program: seq<Statement>, id: string)
    requires PlainWords(w) && LexicalProgram(program) && IsName(id) && RereadAll(program).Some?
    requires Steady(w, program, id)
    ensures Steady(w, RereadAll(program).value, id)
  {
    var r := RereadAll(program).value;
    forall i | 0 <= i < |program|
      ensures Forces(w, r[i], id) <==> Forces(w, program[i], id)
      ensures Sets(r[i], id) ==> Sets(program[i], id)
      ensures IsLabel(r[i], id) <==> IsLabel(program[i], id)
      ensures Defines(r[i], id) <==> Defines(program[i], id)
    {
      assert LexicalStatement(program[i]);
      ReadStatement(w, program[i], id);
    }
    hide Forces, Sets, IsLabel, Defines, RereadAll, LexicalStatement, PlainWords, IsName;
  }

  // ---------- What is allowed ----------

  lemma {:induction false} ComposedAllowed(w: Words, program: seq<Statement>, inLabel: bool)
    requires forall s <- program :: Allowed(w, s, true)
    ensures AllAllowed(w, Composed(program, true), inLabel)
    ensures AllAllowed(w, Composed(program, false), inLabel) <==> AllAllowed(w, program, inLabel)
    decreases |program|
  {
    if program != [] {
      var s, later := program[0], program[1..];
      MovedIsAllowed(w, s, inLabel);
      hide Moves, Allowed;
      var moved, more := Composed(later, true), Composed(later, false);
      assert ([s] + moved)[1..] == moved && ([s] + more)[1..] == more && [] + moved == moved && [] + more == more;
      ComposedAllowed(w, later, inLabel);
      if !Moves(s) {
        ComposedAllowed(w, later, inLabel || s.Label?);
      }
    }
  }

  lemma MovedIsAllowed(w: Words, s: Statement, inLabel: bool)
    requires Allowed(w, s, true)
    ensures Moves(s) ==> !s.Label? && Allowed(w, s, inLabel)
  {
  }

  predicate HoldsLabel(program: seq<Statement>) {
    exists i :: 0 <= i < |program| && program[i].Label?
  }

  lemma {:induction false} AllowedAppend(w: Words, p: seq<Statement>, q: seq<Statement>, inLabel: bool)
    ensures AllAllowed(w, p + q, inLabel) <==> AllAllowed(w, p, inLabel) && AllAllowed(w, q, inLabel || HoldsLabel(p))
    decreases |p|
  {
    hide Allowed;
    if p == [] {
      assert p + q == q;
    } else {
      assert (p + q)[1..] == p[1..] + q;
      AllowedAppend(w, p[1..], q, inLabel || p[0].Label?);
      assert forall i :: 0 <= i < |p[1..]| ==> p[1..][i] == p[i + 1];
      assert forall i :: 0 < i < |p| ==> p[i] == p[1..][i - 1];
    }
  }

  lemma PublishedIsAllowedIff(w: Words, program: seq<Statement>)
    requires PlainWords(w) && forall s <- program :: Allowed(w, s, true)
    ensures AllAllowed(w, Published(program), false) <==> AllAllowed(w, program, false)
  {
    hide Composed, Enters, Moves, Allowed, AllAllowed;
    EntryIsAllowed(w);
    var t := Framed(program);
    PublishedIsComposed(program);
    assert forall s <- t :: s in program || s == PG_100 || s == PG;
    hide PG_100, PG, PlainWords;
    ComposedAllowed(w, t, false);
    AllowedAppend(w, Composed(t, true), Composed(t, false), false);
    assert !HoldsLabel(Composed(t, true)) by {
      MovedIsNoLabel();
    }
    if !Enters(program) {
      AllowedAppend(w, [PG_100] + program, [PG], false);
      AllowedAppend(w, [PG_100], program, false);
    }
  }

  lemma MovedIsNoLabel()
    ensures forall s: Statement :: Moves(s) ==> !s.Label?
  {
  }

  lemma EntryIsAllowed(w: Words)
    requires PlainWords(w)
    ensures Allowed(w, PG_100, true) && Allowed(w, PG, true) && !HoldsLabel([PG_100])
    ensures forall b: bool :: AllAllowed(w, [PG_100], b) && AllAllowed(w, [PG], b)
  {
    assert [PG_100][1..] == [] && [PG][1..] == [];
  }

  /** A bare RT is read back as a return: it needs a label before it. */
  predicate ReturnsInLabel(program: seq<Statement>) {
    forall i :: 0 <= i < |program| && program[i] == Command("RT") ==> exists j :: 0 <= j < i && program[j].Label?
  }

  lemma ReturnsFirst(program: seq<Statement>)
    requires program != [] && !program[0].Label?
    ensures ReturnsInLabel(program) <==> program[0] != Command("RT") && ReturnsInLabel(program[1..])
  {
    var more := program[1..];
    assert forall i :: 0 <= i < |more| ==> more[i] == program[i + 1];
    if ReturnsInLabel(program) {
      forall i | 0 <= i < |more| && more[i] == Command("RT")
        ensures exists j :: 0 <= j < i && more[j].Label?
      {
        var j :| 0 <= j < i + 1 && program[j].Label?;
        assert more[j - 1].Label?;
      }
    }
    if program[0] != Command("RT") && ReturnsInLabel(more) {
      forall i | 0 <= i < |program| && program[i] == Command("RT")
        ensures exists j :: 0 <= j < i && program[j].Label?
      {
        assert more[i - 1] == Command("RT");
        var j :| 0 <= j < i - 1 && more[j].Label?;
        assert program[j + 1].Label?;
      }
    }
  }

  lemma ReadAllowed(w: Words, s: Statement, inLabel: bool)
    requires Reread(s).Some? && Allowed(w, s, inLabel)
    ensures Allowed(w, Reread(s).value, inLabel) <==> inLabel || s != Command("RT")
    ensures Reread(s).value.Label? <==> s.Label?
  {
  }

  lemma {:induction false} ReadIsAllowedIff(w: Words, program: seq<Statement>, inLabel: bool)
    requires RereadAll(program).Some? && AllAllowed(w, program, inLabel)
    ensures AllAllowed(w, RereadAll(program).value, inLabel) <==> inLabel || ReturnsInLabel(program)
    decreases |program|
  {
    hide Allowed, Reread, ReturnsInLabel;
    if program == [] {
      assert ReturnsInLabel([]) by { NoReturns(); }
    } else {
      var s, more, r := program[0], program[1..], RereadAll(program).value;
      assert RereadAll(more).Some? && r[1..] == RereadAll(more).value;
      ReadAllowed(w, s, inLabel);
      ReadIsAllowedIff(w, more, inLabel || s.Label?);
      if s.Label? {
        LabelFirst(program);
      } else {
        ReturnsFirst(program);
      }
    }
  }

  lemma NoReturns()
    ensures ReturnsInLabel([])
  {
  }

  lemma LabelFirst(program: seq<Statement>)
    requires program != [] && program[0].Label?
    ensures ReturnsInLabel(program)
  {
  }

  // ---------- What a published program reads back as ----------

  lemma RereadAppend(p: seq<Statement>, q: seq<Statement>)
    requires RereadAll(p).Some? && RereadAll(q).Some?
    ensures RereadAll(p + q) == Some(RereadAll(p).value + RereadAll(q).value)
  {
    hide Reread, RereadAll;
    forall i | 0 <= i < |p + q|
      ensures Reread((p + q)[i]) == Some((RereadAll(p).value + RereadAll(q).value)[i])
    {
      assert (p + q)[i] == if i < |p| then p[i] else q[i - |p|];
    }
    assert RereadAll(p + q).Some?;
    assert RereadAll(p + q).value == RereadAll(p).value + RereadAll(q).value;
  }

  lemma ReadMoves(s: Statement)
    requires Reread(s).Some?
    ensures Moves(Reread(s).value) <==> Moves(s)
    ensures var t := Reread(s).value; t.Assign? && t.target == "PG" <==> s.Assign? && s.target == "PG"
  {
  }

  lemma {:induction false} RereadComposed(program: seq<Statement>, d: bool)
    requires RereadAll(program).Some?
    ensures RereadAll(Composed(program, d)) == Some(Composed(RereadAll(program).value, d))
  {
    hide Moves, Reread;
    if program != [] {
      var s, more, r := program[0], program[1..], RereadAll(program).value;
      assert r[1..] == RereadAll(more).value;
      ReadMoves(s);
      RereadComposed(more, d);
      var rest, back := Composed(more, d), Composed(r[1..], d);
      assert ([s] + rest)[1..] == rest && [] + rest == rest && [] + back == back;
    }
  }

  lemma ReadEnters(program: seq<Statement>)
    requires RereadAll(program).Some?
    ensures Enters(RereadAll(program).value) <==> Enters(program)
  {
    hide Reread, RereadAll;
    var r := RereadAll(program).value;
    forall i | 0 <= i < |program|
      ensures r[i].Assign? && r[i].target == "PG" <==> program[i].Assign? && program[i].target == "PG"
    {
      ReadMoves(program[i]);
    }
  }

  lemma EntryIsReread()
    ensures RereadAll([PG_100]) == Some([PG_100]) && RereadAll([PG]) == Some([PG])
  {
    EntryIsStable();
    RereadAllIsIdentityIff([PG_100]);
    RereadAllIsIdentityIff([PG]);
  }

  /** Reading back and publishing go together. */
  lemma RereadPublished(program: seq<Statement>)
    ensures
      RereadAll(Published(program))
      == if RereadAll(program).Some? then Some(Published(RereadAll(program).value)) else None
  {
    hide Reread, Composed, Moves, RereadAll, Enters, PG_100, PG;
    if RereadAll(program).Some? {
      var rest := Composed(program, false);
      RereadComposed(program, true);
      RereadComposed(program, false);
      ReadEnters(program);
      EntryIsReread();
      RereadAppend([PG_100], rest);
      RereadAppend([PG_100] + rest, [PG]);
      RereadAppend(Composed(program, true), Entered(program));
    } else {
      var i :| 0 <= i < |program| && Reread(program[i]).None?;
      IsPublished(program, program[i]);
    }
  }

  lemma IsPublished(program: seq<Statement>, s: Statement)
    requires s in program
    ensures s in Published(program)
  {
    IsComposed(program, s);
    hide Composed, Moves, Enters;
  }

  // ---------- The entry test, once more ----------

  lemma LabelStays(w: Words, program: seq<Statement>, id: string, m: Entry)
    requires m.kind.AsLabel? && Run(w, program, id, m).Some?
    ensures Run(w, program, id, m).value.kind.AsLabel? && !SetsAny(program, id)
    decreases |program|
  {
    if program != [] {
      FirstOrLater(program, id);
      hide SetsAny, LeadsAny, Forces;
      LabelStays(w, program[1..], id, Next(w, program[0], id, m).value);
    }
  }

  // A name that ends up as no label was forced nowhere.
  lemma {:induction false} NeverForced(w: Words, program: seq<Statement>, id: string, m: Entry)
    requires Run(w, program, id, m).Some? && !Run(w, program, id, m).value.kind.AsLabel?
    ensures forall s <- program :: !Forces(w, s, id)
    decreases |program|
  {
    if program != [] {
      var s, n := program[0], Next(w, program[0], id, m).value;
      hide LeadsAny, Forces;
      if n.kind.AsLabel? {
        LabelStays(w, program[1..], id, n);
      } else {
        NeverForced(w, program[1..], id, n);
        assert forall t <- program :: t == s || t in program[1..];
      }
    }
  }

  // A name that is set and forced nowhere ends up as a variable.
  lemma {:induction false} VariableRun(w: Words, program: seq<Statement>, id: string, m: Entry)
    requires Run(w, program, id, m).Some? && forall s <- program :: !Forces(w, s, id)
    requires m.kind.AsVariable? || SetsAny(program, id)
    ensures Run(w, program, id, m).value.kind.AsVariable?
    decreases |program|
  {
    if program != [] {
      var n := Next(w, program[0], id, m).value;
      FirstOrLater(program, id);
      hide SetsAny, LeadsAny, Forces;
      if n.kind.AsLabel? {
        LabelStays(w, program[1..], id, n);
      }
      VariableRun(w, program[1..], id, n);
    }
  }

  lemma EntryTestWorksIff(w: Words, program: seq<Statement>)
    requires LexicalProgram(program) && Accepted(w, program)
    ensures
      var names := ProgramSymbols(w, NOTHING, program).value.names;
      var r := Run(w, program, "PG", FRESH);
      && r.Some?
      && (EntryTestWorks(names) ==> !r.value.kind.AsLabel?)
      && (r.value.kind.AsVariable? ==> EntryTestWorks(names))
  {
    hide LexicalProgram, Run, ProgramSymbols;
    AcceptedByName(w, program);
    assert IsName("PG");
  }

  // ---------- The text ----------

  predicate NormalValues(s: Statement) {
    forall i :: 0 <= i < |Values(s)| ==> Normal(Values(s)[i])
  }

  /** No number with a minus sign of its own stands without a unary operator. */
  predicate NormalProgram(program: seq<Statement>) {
    forall i :: 0 <= i < |program| ==> NormalValues(program[i])
  }

  lemma {:induction false} NormalizeGrows(e: Expr)
    ensures |Emit(Normalize(e))| >= |Emit(e)|
    ensures |Emit(Normalize(e))| == |Emit(e)| <==> Normal(e)
    decreases e
  {
    if e.Op? {
      NormalizeGrows(e.operand);
    }
  }

  lemma {:induction false} OthersGrow(es: seq<Expr>)
    ensures |EmitOthers(NormalizeAll(es))| >= |EmitOthers(es)|
    ensures |EmitOthers(NormalizeAll(es))| == |EmitOthers(es)| <==> forall i :: 0 <= i < |es| ==> Normal(es[i])
  {
    hide Emit, Normalize, Normal;
    if es != [] {
      NormalizeGrows(es[0]);
      OthersGrow(es[1..]);
      assert NormalizeAll(es)[1..] == NormalizeAll(es[1..]);
      assert forall i :: 0 <= i < |es[1..]| ==> es[1..][i] == es[i + 1];
      assert forall i :: 0 < i < |es| ==> es[i] == es[1..][i - 1];
    }
  }

  lemma OptionGrows(before: string, e: Option<Expr>)
    ensures |EmitOption(before, NormalizeOption(e))| >= |EmitOption(before, e)|
    ensures |EmitOption(before, NormalizeOption(e))| == |EmitOption(before, e)| <==> e.Some? ==> Normal(e.value)
  {
    hide Emit, Normalize, Normal;
    if e.Some? {
      NormalizeGrows(e.value);
    }
  }

  // The line that a misread assignment is written as.
  lemma MisreadLine(s: Statement)
    requires Misread(s) && Reread(s).Some?
    ensures |EmitStatement(Reread(s).value)| >= |EmitStatement(s)|
    ensures |EmitStatement(Reread(s).value)| == |EmitStatement(s)| <==> NormalValues(s)
  {
    var id := s.first.atom.id;
    assert "CL" in COMMANDS && "BR" in COMMANDS;
    assert Emit(s.first) == id && Normal(s.first);
    hide Normalize, COMMANDS;
    if s.others == [] {
      assert Values(s) == [s.first];
    } else {
      var e := s.others[0];
      NormalizeGrows(e);
      assert s.others[1..] == [] && EmitOthers(s.others) == ", " + Emit(e) + "";
      assert Values(s)[1] == e;
      hide Emit, Normal;
    }
  }

  /** A line that is read back is no shorter when it is written again, and as long only if it is normal. */
  lemma LineGrows(s: Statement)
    requires Reread(s).Some?
    ensures |EmitStatement(Reread(s).value)| >= |EmitStatement(s)|
    ensures |EmitStatement(Reread(s).value)| == |EmitStatement(s)| <==> NormalValues(s)
  {
    hide Emit, Normalize, Normal, COMMANDS, EmitOption, NormalizeOption;
    match s
    case Jumping(_, _, arg) =>
      OptionGrows(", ", arg);
      NormalOption(s, arg);
    case Return =>
    case Label(_) =>
    case Declare(_, value) =>
      OptionGrows(" = ", value);
      NormalOption(s, value);
    case Command(_) =>
    case Assign(_, _, _) =>
      if Misread(s) {
        MisreadLine(s);
      } else {
        AssignGrows(s);
      }
  }

  lemma NormalOption(s: Statement, value: Option<Expr>)
    requires Values(s) == if value.Some? then [value.value] else []
    ensures NormalValues(s) <==> value.Some? ==> Normal(value.value)
  {
    hide Normal, Values;
    assert value.Some? ==> Values(s)[0] == value.value;
  }

  lemma AssignGrows(s: Statement)
    requires s.Assign? && Reread(s).Some? && !Misread(s)
    ensures |EmitStatement(Reread(s).value)| >= |EmitStatement(s)|
    ensures |EmitStatement(Reread(s).value)| == |EmitStatement(s)| <==> NormalValues(s)
  {
    NormalizeGrows(s.first);
    OthersGrow(s.others);
    NormalAssigned(s);
    hide Emit, Normalize, Normal, COMMANDS, NormalValues, EmitOthers, NormalizeAll, Equals;
  }

  lemma NormalAssigned(s: Statement)
    requires s.Assign?
    ensures NormalValues(s) <==> Normal(s.first) && forall i :: 0 <= i < |s.others| ==> Normal(s.others[i])
  {
    hide Normal;
    assert Values(s)[0] == s.first;
    assert forall i :: 0 <= i < |s.others| ==> Values(s)[i + 1] == s.others[i];
    assert forall i :: 0 < i < |Values(s)| ==> Values(s)[i] == s.others[i - 1];
  }

  // A line that is normal is written again as it was.
  lemma SameLine(s: Statement)
    requires Reread(s).Some? && NormalValues(s)
    ensures EmitStatement(Reread(s).value) == EmitStatement(s)
  {
    if Misread(s) {
      SameMisreadLine(s);
    } else if s != Command("RT") {
      NormalIsReread(s);
      RereadIsIdentityIffStable(s);
    }
  }

  lemma SameMisreadLine(s: Statement)
    requires Misread(s) && Reread(s).Some? && NormalValues(s)
    ensures EmitStatement(Reread(s).value) == EmitStatement(s)
  {
    var id := s.first.atom.id;
    SameOthers(s);
    assert Emit(s.first) == id;
    assert "CL" in COMMANDS && "BR" in COMMANDS;
    hide COMMANDS, Emit, EmitOthers, EmitOption;
  }

  lemma SameOthers(s: Statement)
    requires s.Assign? && |s.others| <= 1 && NormalValues(s)
    ensures EmitOthers(s.others) == EmitOption(", ", if s.others == [] then None else Some(Normalize(s.others[0])))
  {
    if s.others != [] {
      assert s.others[1..] == [] && Values(s)[1] == s.others[0];
      NormalizeFixesNormal(s.others[0]);
      hide Emit, Normal, Normalize;
      assert EmitOthers(s.others) == ", " + Emit(s.others[0]) + "";
    }
  }

  lemma NormalIsReread(s: Statement)
    requires NormalValues(s) && !Misread(s) && s != Command("RT")
    ensures Stable(s)
  {
    hide Normal;
    match s
    case Jumping(_, _, arg) => NormalOption(s, arg);
    case Return =>
    case Label(_) =>
    case Declare(_, value) => NormalOption(s, value);
    case Assign(_, _, _) => NormalAssigned(s);
    case Command(_) =>
  }

  lemma {:induction false} ListingGrows(program: seq<Statement>)
    requires RereadAll(program).Some?
    ensures |Listing(RereadAll(program).value)| >= |Listing(program)|
    ensures Listing(RereadAll(program).value) == Listing(program) <==> NormalProgram(program)
    ensures |Listing(RereadAll(program).value)| == |Listing(program)| <==> NormalProgram(program)
  {
    hide Reread, EmitStatement, NormalValues;
    if program != [] {
      var s, more, r := program[0], program[1..], RereadAll(program).value;
      assert r[1..] == RereadAll(more).value;
      LineGrows(s);
      if NormalValues(s) {
        SameLine(s);
      }
      ListingGrows(more);
      assert forall i :: 0 <= i < |more| ==> more[i] == program[i + 1];
      assert forall i :: 0 < i < |program| ==> program[i] == more[i - 1];
    }
  }

  lemma NormalPublished(program: seq<Statement>)
    ensures NormalProgram(Published(program)) <==> NormalProgram(program)
  {
    hide NormalValues, Moves, Composed, Enters, PG_100, PG;
    EntryIsNormal();
    forall s
      ensures s in program ==> s in Published(program)
      ensures s in Published(program) ==> s in program || s == PG_100 || s == PG
    {
      if s in program {
        IsPublished(program, s);
      }
    }
    hide Published;
    assert NormalProgram(program) <==> forall s <- program :: NormalValues(s);
    assert NormalProgram(Published(program)) <==> forall s <- Published(program) :: NormalValues(s);
  }

  lemma EntryIsNormal()
    ensures NormalValues(PG_100) && NormalValues(PG)
  {
    assert Values(PG_100) == [Last("", Number("100"))];
  }

  // ---------- The main results ----------

  /** The text parses, to its last character, as this program. */
  ghost predicate ReadsAs(text: string, program: seq<Statement>) {
    LexicalProgram(program) && Line(LANGUAGE, text) == Some((ProgramNodes(program), ""))
  }

  /** The text of a published program parses as the program of what each of its statements reads back as,
      published; if a statement reads back as nothing, the text does not parse. */
  lemma OutputReadsAs(program: seq<Statement>, q: seq<Statement>)
    requires LexicalProgram(program)
    ensures ReadsAs(Listing(Published(program)), q)
       <==> RereadAll(program).Some? && q == Published(RereadAll(program).value)
  {
    hide LexicalProgram, Line, LANGUAGE, Listing, Published, ProgramNodes, RereadAll;
    var p := Published(program);
    PublishedParts(program);
    ProgramReread(p);
    RereadPublished(program);
    if RereadAll(program).Some? {
      RereadAllLexical(p);
      if ReadsAs(Listing(p), q) {
        ProgramNodesInjective(q, RereadAll(p).value);
      }
    }
  }

  /** No name clashes, as the program is read back, and every bare RT stands behind a label. */
  ghost predicate Consistent(w: Words, program: seq<Statement>) {
    && RereadAll(program).Some? && ReturnsInLabel(program)
    && forall id | IsName(id) :: !Clashes(w, Framed(RereadAll(program).value), id)
  }

  lemma AllowedAtAll(w: Words, program: seq<Statement>, inLabel: bool)
    requires AllAllowed(w, program, inLabel)
    ensures forall s <- program :: Allowed(w, s, true)
    decreases |program|
  {
    if program != [] {
      AllowedAtAll(w, program[1..], inLabel || program[0].Label?);
      assert forall s <- program :: s == program[0] || s in program[1..];
    }
  }

  lemma RereadIsAllowed(w: Words, program: seq<Statement>)
    requires RereadAll(program).Some? && AllAllowed(w, program, false)
    ensures forall s <- RereadAll(program).value :: Allowed(w, s, true)
  {
    hide Reread, Allowed, AllAllowed, RereadAll;
    AllowedAtAll(w, program, false);
    var r := RereadAll(program).value;
    forall i | 0 <= i < |r|
      ensures Allowed(w, r[i], true)
    {
      ReadAllowed(w, program[i], true);
    }
  }

  /** What the output of a program reads back as is accepted if and only if the program is consistent, and
      the entry test then works. */
  lemma RereadIsAcceptedIff(w: Words, program: seq<Statement>)
    requires LexicalProgram(program) && PlainWords(w) && Output(w, program).Some? && RereadAll(program).Some?
    ensures
      var q := Published(RereadAll(program).value);
      && (Accepted(w, q) <==> Consistent(w, program))
      && (Accepted(w, q) ==> Output(w, q) == Some(Listing(q)))
  {
    var r := RereadAll(program).value;
    var q := Published(r);
    hide ProgramSymbols, Published, Run, LexicalProgram, AllAllowed, RereadAll, Clashes, Framed, IsName, EntryTestWorks,
         Allowed, ReturnsInLabel;
    RereadAllLexical(program);
    PublishedParts(r);
    AcceptedByName(w, program);
    AcceptedByName(w, q);
    RereadIsAllowed(w, program);
    PublishedIsAllowedIff(w, r);
    ReadIsAllowedIff(w, program, false);
    forall id | IsName(id)
      ensures Run(w, q, id, FRESH).Some? <==> !Clashes(w, Framed(r), id)
    {
      RunIsSteady(w, program, id, FRESH);
      ReadIsSteady(w, program, id);
      PublishedName(w, r, id);
    }
    PublishedIsFixed(r);
    if Accepted(w, q) {
      RereadEntryTest(w, program);
    }
  }

  lemma RereadEntryTest(w: Words, program: seq<Statement>)
    requires LexicalProgram(program) && PlainWords(w) && Output(w, program).Some? && RereadAll(program).Some?
    requires Accepted(w, Published(RereadAll(program).value))
    ensures EntryTestWorks(ProgramSymbols(w, NOTHING, Published(RereadAll(program).value)).value.names)
  {
    var r := RereadAll(program).value;
    var q := Published(r);
    RereadAllLexical(program);
    PublishedParts(r);
    EntryTestWorksIff(w, program);
    EntryTestWorksIff(w, q);
    PublishedSetsPG(r);
    hide Published, Run, LexicalProgram, RereadAll, EntryTestWorks, Forces, PlainWords, Enters, SetsAny, IsName;
    NeverForced(w, program, "PG", FRESH);
    assert IsName("PG") by { PGIsName(); }
    PublishedForcesNothing(w, program, "PG");
    hide ProgramSymbols;
    VariableRun(w, q, "PG", FRESH);
  }

  lemma PGIsName()
    ensures IsName("PG")
  {
  }

  lemma PublishedSetsPG(program: seq<Statement>)
    ensures SetsAny(Published(program), "PG")
  {
    PublishedIsFixed(program);
    hide Published;
  }

  lemma PublishedForcesNothing(w: Words, program: seq<Statement>, id: string)
    requires LexicalProgram(program) && PlainWords(w) && IsName(id) && RereadAll(program).Some?
    requires forall s <- program :: !Forces(w, s, id)
    ensures forall s <- Published(RereadAll(program).value) :: !Forces(w, s, id)
  {
    var r := RereadAll(program).value;
    EntryIsPlain(w, id);
    hide Forces, RereadAll, IsName, Composed, PlainWords, Moves, Enters, PG_100, PG, LexicalStatement;
    forall s | s in r
      ensures !Forces(w, s, id)
    {
      var i :| 0 <= i < |r| && r[i] == s;
      assert LexicalStatement(program[i]);
      ReadStatement(w, program[i], id);
    }
  }

  lemma WordsArePlain()
    ensures PlainWords(GRAMMAR_WORDS)
  {
    assert "PG" in COMMANDS;
    hide READ_WRITE;
  }

  /** The text of a published program, parsed, compiled and published once more, comes out the same if and
      only if the program is consistent and has no bare negative number. What it parses as is refused if and
      only if the program is not consistent. */
  lemma PublishingIsFinalIff(program: seq<Statement>)
    requires LexicalProgram(program) && Output(GRAMMAR_WORDS, program).Some?
    ensures
      var text := Output(GRAMMAR_WORDS, program).value;
      (exists q :: ReadsAs(text, q) && Output(GRAMMAR_WORDS, q) == Some(text))
      <==> Consistent(GRAMMAR_WORDS, program) && NormalProgram(program)
    ensures
      var text := Output(GRAMMAR_WORDS, program).value;
      forall q | ReadsAs(text, q) :: Accepted(GRAMMAR_WORDS, q) <==> Consistent(GRAMMAR_WORDS, program)
  {
    var p, back := Published(program), RereadAll(program);
    assert Output(GRAMMAR_WORDS, program).value == Listing(p);
    WordsArePlain();
    hide Published, LexicalProgram, ReadsAs, Listing, PlainWords, GRAMMAR_WORDS, RereadAll, NormalProgram, ProgramSymbols;
    forall q
      ensures ReadsAs(Listing(p), q) <==> back.Some? && q == Published(back.value)
    {
      OutputReadsAs(program, q);
    }
    if back.Some? {
      RereadIsAcceptedIff(GRAMMAR_WORDS, program);
      RereadPublished(program);
      ListingGrows(p);
      NormalPublished(program);
    }
  }

  // ---------- Programs whose output is refused, or is not ----------

  function Use(x: string): Expr {
    Last("", Name(x))
  }

  lemma NoEntryWord(x: string)
    requires IsName(x) && x !in INTERNAL
    ensures x != "PG" && x != "CL"
  {
    assert "PG" in COMMANDS && "CL" in COMMANDS;
  }

  /** A variable that starts with the value of a label: the output is refused. */
  lemma OutputCanBeRefused(x: string, y: string)
    requires IsName(x) && IsName(y) && x != y && x !in INTERNAL
    ensures
      var program := [Label(x), Declare(y, Some(Use(x)))];
      Output(GRAMMAR_WORDS, program).Some? && StableProgram(program) && !Consistent(GRAMMAR_WORDS, program)
  {
    var program := [Statement.Label(x), Declare(y, Some(Use(x)))];
    NoEntryWord(x);
    LabelAccepted(x);
    StartedWithLabel(x, y);
    hide GRAMMAR_WORDS, COMMANDS, BARE, StatementSymbols, IsName, Output;
    TwoAccepted(program, Symbols(map[x := Entry(AsLabel, true)], Some(x)));
    assert Normal(Use(x));
    assert StableProgram(program);
    RereadAllIsIdentityIff(program);
    WordsArePlain();
    LabelClashes(GRAMMAR_WORDS, x, y);
    hide *;
  }

  lemma StartedWithLabel(x: string, y: string)
    requires x != y
    ensures
      var one := Symbols(map[x := Entry(AsLabel, true)], Some(x));
      StatementSymbols(GRAMMAR_WORDS, one, Declare(y, Some(Use(x))))
      == Success(one.(names := one.names[y := Entry(AsVariable, true)]))
  {
    hide INTERNAL, READ_ONLY, ASSIGNABLE, LABEL_ARGS;
    var one := Symbols(map[x := Entry(AsLabel, true)], Some(x));
    var names := one.names[y := FRESH];
    assert ExprNames(names, Use(x)) == names;
    assert names[y := Entry(AsVariable, false)][y := Entry(AsVariable, true)] == one.names[y := Entry(AsVariable, true)];
  }

  lemma LabelClashes(w: Words, x: string, y: string)
    requires PlainWords(w) && x != "PG"
    ensures Clashes(w, Framed([Label(x), Declare(y, Some(Use(x)))]), x)
  {
    var program := [Statement.Label(x), Declare(y, Some(Use(x)))];
    assert Values(program[1])[0] == Use(x) && Leads(Use(x), x);
    assert Moves(program[1]) && Varies(program[1], x);
    assert FirstLabel(w, program, x, 0) && !Enters(program);
    hide PlainWords, Clashes, Framed, FirstLabel, Varies, Enters, Moves;
    ClashInFrame(w, program, x, 0, 1);
  }

  lemma LabelAccepted(x: string)
    requires x !in INTERNAL
    ensures StatementSymbols(GRAMMAR_WORDS, NOTHING, Statement.Label(x))
         == Success(Symbols(map[x := Entry(AsLabel, true)], Some(x)))
  {
    hide INTERNAL;
    assert Seen(NOTHING.names, x) == map[x := FRESH];
    assert (map[x := FRESH])[x := Entry(AsLabel, false)][x := Entry(AsLabel, true)] == map[x := Entry(AsLabel, true)];
  }

  // Statement j labels the name, statement i moves or comes before it, and nothing forces the name.
  lemma ClashInFrame(w: Words, program: seq<Statement>, id: string, j: nat, i: nat)
    requires PlainWords(w) && id != "PG" && j < |program| && i < |program| && !Enters(program)
    requires FirstLabel(w, program, id, j) && Varies(program[i], id) && (Moves(program[i]) || i <= j)
    ensures Clashes(w, Framed(program), id)
  {
    FrameLabel(w, program, id, j);
    hide FirstLabel, Varies, Moves, Enters, PG_100, PG;
    var t := Framed(program);
    assert t[i + 1] == program[i];
  }

  lemma FrameLabel(w: Words, program: seq<Statement>, id: string, j: nat)
    requires PlainWords(w) && !Enters(program) && FirstLabel(w, program, id, j)
    ensures FirstLabel(w, Framed(program), id, j + 1)
  {
    EntryIsPlain(w, id);
    assert !UsesLabel(PG_100, id);
    hide Forces, UsesLabel, PG_100, PG, Enters, PlainWords;
    var t := Framed(program);
    assert t[j + 1] == program[j] && t[0] == PG_100;
    assert forall k :: 0 < k < j + 1 ==> t[k] == program[k - 1];
  }

  /** An assignment to CL with an equals sign is written, and read back, as a call. With a declared variable,
      it is refused then; with a label the text stays the same, although it is not what was compiled. */
  lemma CallsAsRead(x: string)
    requires IsName(x) && x !in INTERNAL
    ensures
      var program := [Declare(x, None), Assign("CL", Use(x), [])];
      Output(GRAMMAR_WORDS, program).Some? && RereadAll(program).Some? && !Consistent(GRAMMAR_WORDS, program)
    ensures
      var program := [Statement.Label(x), Assign("CL", Use(x), [])];
      Output(GRAMMAR_WORDS, program).Some? && Consistent(GRAMMAR_WORDS, program) && NormalProgram(program)
      && !StableProgram(program)
  {
    NoEntryWord(x);
    VariableAsRead(x);
    LabelAsRead(x);
  }

  // CL, given a name that the table has, leaves it as it was.
  lemma GivenToCL(sy: Symbols, x: string)
    requires x in sy.names && !sy.names[x].kind.Unknown? && x != "CL" && "CL" !in sy.names
    ensures StatementSymbols(GRAMMAR_WORDS, sy, Assign("CL", Use(x), []))
         == Success(sy.(names := sy.names["CL" := Entry(AsVariable, false)]))
  {
    var e := Use(x);
    var seen := sy.names["CL" := FRESH];
    ForCL();
    hide READ_ONLY, INTERNAL, ASSIGNABLE, LABEL_ARGS;
    assert [e] + [] == [e] && [e][1..] == [];
    assert ExprNames(seen, e) == seen by {
      if sy.names[x].kind.AsVariable? {
        assert seen[x := Entry(AsVariable, seen[x].defined)] == seen;
      }
    }
    assert AllNames(Seen(sy.names, "CL"), [e]) == seen;
    assert seen["CL" := Entry(AsVariable, false)] == sy.names["CL" := Entry(AsVariable, false)];
  }

  lemma ForCL()
    ensures "CL" !in LABEL_ARGS && "CL" !in READ_ONLY && "CL" in ASSIGNABLE
  {
    assert "CL" in COMMANDS;
    hide READ_WRITE, COMMANDS;
  }

  lemma VariableAsRead(x: string)
    requires IsName(x) && x != "PG" && x != "CL"
    ensures
      var program := [Declare(x, None), Assign("CL", Use(x), [])];
      Output(GRAMMAR_WORDS, program).Some? && RereadAll(program).Some? && !Consistent(GRAMMAR_WORDS, program)
  {
    VariableAccepted(x);
    VariableReread(x);
    WordsArePlain();
    CallClashes(GRAMMAR_WORDS, x);
    hide Output, RereadAll, Clashes, Framed, IsName, GRAMMAR_WORDS, PlainWords, ReturnsInLabel;
  }

  lemma VariableAccepted(x: string)
    requires x != "PG" && x != "CL"
    ensures Output(GRAMMAR_WORDS, [Declare(x, None), Assign("CL", Use(x), [])]).Some?
  {
    var program := [Declare(x, None), Assign("CL", Use(x), [])];
    var one := Symbols(map[x := Entry(AsVariable, true)], None);
    GivenToCL(one, x);
    CLIsNotPG();
    DeclareAccepted(GRAMMAR_WORDS, x);
    hide GRAMMAR_WORDS, StatementSymbols, Output;
    TwoAccepted(program, one);
  }

  lemma DeclareAccepted(w: Words, x: string)
    ensures StatementSymbols(w, NOTHING, Declare(x, None)) == Success(Symbols(map[x := Entry(AsVariable, true)], None))
  {
    Noted(x);
  }

  lemma CLIsNotPG()
    ensures "CL" != "PG"
  {
    assert "CL"[0] != "PG"[0];
  }

  lemma VariableReread(x: string)
    ensures
      RereadAll([Declare(x, None), Assign("CL", Use(x), [])]) == Some([Declare(x, None), Jumping(Calling, x, None)])
  {
    var program := [Declare(x, None), Assign("CL", Use(x), [])];
    assert Reread(program[0]) == Some(program[0]) && Reread(program[1]) == Some(Jumping(Calling, x, None));
    hide Reread, RereadAll;
    assert RereadAll(program).Some?;
    assert RereadAll(program).value == [Declare(x, None), Jumping(Calling, x, None)];
  }

  lemma CallClashes(w: Words, x: string)
    requires PlainWords(w) && x != "PG"
    ensures Clashes(w, Framed([Declare(x, None), Jumping(Calling, x, None)]), x)
  {
    var r := [Declare(x, None), Jumping(Calling, x, None)];
    assert !Forces(w, r[0], x) && UsesLabel(r[1], x) && !Enters(r);
    assert FirstLabel(w, r, x, 1) && Varies(r[0], x);
    hide PlainWords, Clashes, Framed, FirstLabel, Varies, Enters;
    ClashInFrame(w, r, x, 1, 0);
  }

  lemma TwoAccepted(program: seq<Statement>, one: Symbols)
    requires |program| == 2 && StatementSymbols(GRAMMAR_WORDS, NOTHING, program[0]) == Success(one)
    requires StatementSymbols(GRAMMAR_WORDS, one, program[1]).Success?
    requires EntryTestWorks(StatementSymbols(GRAMMAR_WORDS, one, program[1]).value.names)
    ensures Output(GRAMMAR_WORDS, program).Some?
  {
    hide StatementSymbols;
    var two := StatementSymbols(GRAMMAR_WORDS, one, program[1]).value;
    assert program[1..][0] == program[1] && program[1..][1..] == [];
    assert ProgramSymbols(GRAMMAR_WORDS, one, program[1..]) == Success(two);
  }

  lemma LabelAsRead(x: string)
    requires IsName(x) && x !in INTERNAL && x != "PG" && x != "CL"
    ensures
      var program := [Statement.Label(x), Assign("CL", Use(x), [])];
      Output(GRAMMAR_WORDS, program).Some? && Consistent(GRAMMAR_WORDS, program) && NormalProgram(program)
      && !StableProgram(program)
  {
    LabelGivenToCL(x);
    LabelReread(x);
    LabelledIsConsistent(GRAMMAR_WORDS, [Statement.Label(x), Jumping(Calling, x, None)], x);
    hide GRAMMAR_WORDS, Output, RereadAll, StableProgram, NormalProgram, ReturnsInLabel, IsName, Clashes, Framed;
  }

  lemma LabelReread(x: string)
    ensures
      var program := [Statement.Label(x), Assign("CL", Use(x), [])];
      && RereadAll(program) == Some([Statement.Label(x), Jumping(Calling, x, None)])
      && NormalProgram(program) && !StableProgram(program) && ReturnsInLabel(program)
  {
    var program := [Statement.Label(x), Assign("CL", Use(x), [])];
    var r := [Statement.Label(x), Jumping(Calling, x, None)];
    assert Values(program[1]) == [Use(x)] && Values(program[0]) == [];
    assert !Stable(program[1]);
    assert Reread(program[0]) == Some(r[0]) && Reread(program[1]) == Some(r[1]);
    hide Reread, RereadAll, Stable;
    assert RereadAll(program).Some?;
    assert RereadAll(program).value == r;
  }

  lemma LabelGivenToCL(x: string)
    requires IsName(x) && x !in INTERNAL && x != "PG" && x != "CL"
    ensures Output(GRAMMAR_WORDS, [Statement.Label(x), Assign("CL", Use(x), [])]).Some?
  {
    hide INTERNAL;
    var program := [Statement.Label(x), Assign("CL", Use(x), [])];
    LabelAccepted(x);
    var one := Symbols(map[x := Entry(AsLabel, true)], Some(x));
    GivenToCL(one, x);
    CLIsNotPG();
    hide GRAMMAR_WORDS, StatementSymbols, Output;
    TwoAccepted(program, one);
  }

  lemma LabelledIsConsistent(w: Words, r: seq<Statement>, x: string)
    requires r == [Statement.Label(x), Jumping(Calling, x, None)] && x != "PG"
    ensures forall id :: !Clashes(w, Framed(r), id)
  {
    var t := Framed(r);
    assert t == [PG_100, r[0], r[1], PG];
    forall id
      ensures !Clashes(w, t, id)
    {
      assert Values(PG_100) == [Last("", Number("100"))] && Values(PG) == [] && Values(r[0]) == [] && Values(r[1]) == [];
      assert forall i :: 0 <= i < |t| ==> (Varies(t[i], id) ==> id == "PG") && (UsesLabel(t[i], id) ==> id == x);
    }
  }
}
