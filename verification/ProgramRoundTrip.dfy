/** The text the compiler writes for a whole program, read back by the language rule. */
module ProgramRoundTrip {
  import opened Wrappers
  import opened Regexes
  import opened Peg
  import opened Grammar
  import opened Reader
  import opened Descent
  import opened StatementReader
  import opened Microcode
  import opened Reprint
  import opened PrintParse

  predicate LexicalProgram(program: seq<Statement>) {
    forall i :: 0 <= i < |program| ==> LexicalStatement(program[i])
  }

  predicate StableProgram(program: seq<Statement>) {
    forall i :: 0 <= i < |program| ==> Stable(program[i])
  }

  lemma StatementNodeInjective(s: Statement, t: Statement)
    requires LexicalStatement(s) && LexicalStatement(t) && StatementNode(s) == StatementNode(t)
    ensures s == t
  {
    hide ExprNode, Lexical, ExprNodes, BARE, IsName;
    assert KindNode(s) == KindNode(t) by {
      assert StatementNode(s).what[0] == KindNode(s);
    }
    match s
    case Jumping(_, place, arg) =>
      assert KindNode(s).what[0] == Leaf("name", place) && KindNode(t).what[0] == Leaf("name", t.place);
      OptionNodesInjective(arg, t.arg, Leaf("name", place));
    case Return =>
    case Label(id) => assert KindNode(s).what[0] == Leaf("name", id);
    case Declare(id, value) =>
      assert KindNode(s).what[0] == Leaf("name", id) && KindNode(t).what[0] == Leaf("name", t.id);
      OptionNodesInjective(value, t.value, Leaf("name", id));
    case Assign(target, first, others) =>
      var nodes, also := KindNode(s).what, KindNode(t).what;
      assert nodes[0] == Leaf("name", target) && also[0] == Leaf("name", t.target);
      assert nodes[1] == ExprNode(first) && also[1] == ExprNode(t.first);
      assert nodes[2..] == ExprNodes(others) && also[2..] == ExprNodes(t.others);
      ExprNodeInjective(first, t.first);
      ExprNodesInjective(others, t.others);
    case Command(_) =>
  }

  /** The text of a statement reads back to the statement's own tree, and nothing else is consumed,
      if and only if the statement is stable. */
  lemma StatementRoundTripIff(s: Statement, rest: string)
    requires LexicalStatement(s)
    ensures Read(RStatement, EmitStatement(s) + "\n" + rest) == Some(([StatementNode(s)], rest)) <==> Stable(s)
  {
    hide Read, EmitStatement, LexicalStatement, Reread, Stable, StatementNode;
    StatementReprint(s, rest);
    RereadIsIdentityIffStable(s);
    if Reread(s).Some? {
      RereadLexical(s);
      var t := Reread(s).value;
      if StatementNode(t) == StatementNode(s) {
        StatementNodeInjective(s, t);
      }
    }
  }

  // ---------- Lines of a program ----------

  lemma NotACommentOrPragma(text: string)
    requires text != "" && IsAlpha(text[0])
    ensures Read(RComment, text) == None && Read(RPragma, text) == None && Read(RNewline, text) == None
  {
    CommentRead(text);
    NewlineRead(text);
    assert text[0..] == text;
    NotAPragma(text);
    hide Read;
  }

  lemma NotAPragma(text: string)
    requires !Starts(text, "#")
    ensures Read(RPragma, text) == None
  {
    var more := R(RWs, Part(1, Match(LINE), R(RNewline, End)));
    ReadTuple(RPragma, Part(1, Ignore(HASH), more), text);
    TuplePart(Ignore(HASH), more, text);
    LineTerminal(Ignore(HASH), text);
    PlainMatch(One('#'), text);
    OneMatch('#', text);
    hide Tuple, Line, MatchLength;
  }

  // A line that starts with a letter is a statement or it is refused.
  lemma ProgramLineRead(text: string)
    requires text != "" && IsAlpha(text[0])
    ensures Line(LANGUAGE_LINE, text) == Read(RStatement, text)
  {
    LanguageIsGood();
    LineKinds();
    var options := LINE_KINDS.options;
    assert ItemsProgress(GRAMMAR, R(RWs, Part(1, LINE_KINDS, End))) && OptionsProgress(GRAMMAR, options);
    hide Line, Tuple, Chosen, ItemsProgress, OptionsProgress, Good, Fine;
    LineTuple(R(RWs, Part(1, LINE_KINDS, End)), text);
    BlanksPart(Part(1, LINE_KINDS, End), text);
    NoBlanks(text);
    TuplePart(LINE_KINDS, End, text);
    LineKindsRead(text);
    if Line(LINE_KINDS, text).Some? {
      var (nodes, rest) := Line(LINE_KINDS, text).value;
      TupleEnd(rest);
      assert nodes + [] == nodes;
    }
  }

  lemma LineKindsRead(text: string)
    requires text != "" && IsAlpha(text[0])
    ensures Line(LINE_KINDS, text) == Read(RStatement, text)
  {
    LineKinds();
    var end := Or(Rule(RStatement), Or(Rule(RNewline), NoOption));
    var options := Or(Rule(RComment), Or(Rule(RPragma), end));
    assert OptionsProgress(GRAMMAR, options);
    hide Line, Chosen, OptionsProgress, Good, Able;
    LineChoice(options, text);
    ChosenOr(Rule(RComment), Or(Rule(RPragma), end), text);
    ChosenOr(Rule(RPragma), end, text);
    ChosenOr(Rule(RStatement), Or(Rule(RNewline), NoOption), text);
    ChosenOr(Rule(RNewline), NoOption, text);
    ChosenNone(text);
    NotACommentOrPragma(text);
  }

  lemma StatementStarts(s: Statement, rest: string)
    requires LexicalStatement(s)
    ensures var text := EmitStatement(s) + "\n" + rest; text != "" && IsAlpha(text[0])
  {
    hide COMMANDS, Emit, EmitOthers, EmitOption;
  }

  // ---------- What a program reads back as ----------

  /** The program read back from the text of a program, if all of its lines are statements. */
  function RereadAll(program: seq<Statement>): (r: Option<seq<Statement>>)
    ensures r.Some? ==>
              |r.value| == |program| && forall i :: 0 <= i < |program| ==> Reread(program[i]) == Some(r.value[i])
    ensures r.None? ==> exists i :: 0 <= i < |program| && Reread(program[i]).None?
  {
    if program == [] then Some([])
    else
      var first, more := Reread(program[0]), RereadAll(program[1..]);
      if first.Some? && more.Some? then
        var r := [first.value] + more.value;
        assert forall i :: 0 < i < |program| ==> program[i] == program[1..][i - 1] && r[i] == more.value[i - 1];
        Some(r)
      else
        assert forall i :: 0 <= i < |program[1..]| ==> program[1..][i] == program[i + 1];
        None
  }

  lemma RereadAllLexical(program: seq<Statement>)
    requires LexicalProgram(program) && RereadAll(program).Some?
    ensures LexicalProgram(RereadAll(program).value)
  {
    hide LexicalStatement, Reread, RereadAll;
    forall i | 0 <= i < |program|
      ensures LexicalStatement(RereadAll(program).value[i])
    {
      RereadLexical(program[i]);
    }
  }

  lemma RereadAllIsIdentityIff(program: seq<Statement>)
    ensures RereadAll(program) == Some(program) <==> StableProgram(program)
  {
    hide Reread, Stable, RereadAll;
    forall i | 0 <= i < |program|
      ensures Reread(program[i]) == Some(program[i]) <==> Stable(program[i])
    {
      RereadIsIdentityIffStable(program[i]);
    }
    if StableProgram(program) {
      assert RereadAll(program).value == program;
    }
  }

  lemma {:induction false} ProgramNodesInjective(p: seq<Statement>, q: seq<Statement>)
    requires LexicalProgram(p) && LexicalProgram(q) && ProgramNodes(p) == ProgramNodes(q)
    ensures p == q
    decreases |p|
  {
    hide StatementNode, LexicalStatement;
    if p == [] || q == [] {
      assert |ProgramNodes(p)| == |ProgramNodes(q)|;
    } else {
      assert ProgramNodes(p)[0] == StatementNode(p[0]) && ProgramNodes(q)[0] == StatementNode(q[0]);
      assert ProgramNodes(p)[1..] == ProgramNodes(p[1..]) && ProgramNodes(q)[1..] == ProgramNodes(q[1..]);
      StatementNodeInjective(p[0], q[0]);
      ProgramNodesInjective(p[1..], q[1..]);
      assert p == [p[0]] + p[1..] && q == [q[0]] + q[1..];
    }
  }

  lemma {:induction false} LinesReread(program: seq<Statement>)
    requires LexicalProgram(program)
    ensures
      var r, read := RereadAll(program), Many(LANGUAGE_LINE, Listing(program));
      && (r.Some? ==> read == (ProgramNodes(r.value), "")) && (r.None? ==> read.1 != "")
    ensures program != [] && RereadAll(program).Some? ==> Line(LANGUAGE_LINE, Listing(program)).Some?
  {
    hide Line, Many, EmitStatement, LexicalStatement, StatementNode, LANGUAGE_LINE, Reread;
    LanguageIsGood();
    ManyStep(LANGUAGE_LINE, Listing(program));
    if program == [] {
      assert Line(LANGUAGE_LINE, "").None?;
    } else {
      var s, more := program[0], program[1..];
      var rest := Listing(more);
      StatementStarts(s, rest);
      ProgramLineRead(Listing(program));
      StatementReprint(s, rest);
      LinesReread(more);
      if RereadAll(program).Some? {
        var r := RereadAll(program).value;
        assert r[1..] == RereadAll(more).value;
      }
    }
  }

  /** The text of any program parses, to its last character, to the trees of what its statements read back
      as; or, if one of them reads back as nothing, it is not parsed to its end. */
  lemma ProgramReread(program: seq<Statement>)
    requires LexicalProgram(program) && program != []
    ensures
      var r, read := RereadAll(program), Line(LANGUAGE, Listing(program));
      && (r.Some? ==> read == Some((ProgramNodes(r.value), ""))) && (r.None? ==> read.None? || read.value.1 != "")
  {
    hide Line, Tuple, Many, LexicalStatement, ItemsProgress, LANGUAGE_LINE, Listing, ProgramNodes, RereadAll;
    LanguageIsGood();
    var text := Listing(program);
    LanguageFine();
    LineTuple(Part(-2, LANGUAGE_LINE, End), text);
    TupleManyOnce(LANGUAGE_LINE, End, text);
    LinesReread(program);
    var (nodes, rest) := Many(LANGUAGE_LINE, text);
    TupleEnd(rest);
    assert nodes + [] == nodes;
  }

  /** The text of a program reads back, to the last character, to the program's own trees if and
      only if every statement is stable. */
  lemma ProgramRoundTripIff(program: seq<Statement>)
    requires LexicalProgram(program) && program != []
    ensures Line(LANGUAGE, Listing(program)) == Some((ProgramNodes(program), "")) <==> StableProgram(program)
  {
    hide Line, LexicalProgram, StableProgram, Listing, ProgramNodes, RereadAll, LANGUAGE;
    ProgramReread(program);
    RereadAllIsIdentityIff(program);
    if RereadAll(program).Some? {
      var r := RereadAll(program).value;
      RereadAllLexical(program);
      if ProgramNodes(r) == ProgramNodes(program) {
        ProgramNodesInjective(r, program);
      }
    }
  }

  lemma LanguageFine()
    ensures ItemsProgress(GRAMMAR, Part(-2, LANGUAGE_LINE, End))
  {
    LanguageIsGood();
  }
}
