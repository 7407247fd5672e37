/**
 Reading back the text the compiler writes for a statement and for a program: exactly
 which statement comes back, and exactly when it is the one that was written.
 */
module PrintParse {
  import opened Wrappers
  import opened Regexes
  import opened Peg
  import opened Grammar
  import opened Reader
  import opened Descent
  import opened StatementReader
  import opened Microcode
  import opened Reprint

  // ---------- What comes back ----------

  function NormalizeAll(es: seq<Expr>): (r: seq<Expr>)
    ensures |r| == |es| && forall i :: 0 <= i < |es| ==> r[i] == Normalize(es[i])
  {
    if es == [] then [] else [Normalize(es[0])] + NormalizeAll(es[1..])
  }

  function NormalizeOption(e: Option<Expr>): Option<Expr> {
    if e.Some? then Some(Normalize(e.value)) else None
  }

  // The text of the expression starts with a name, so CL or BR before it takes it for a label.
  predicate StartsWithName(e: Expr) {
    e.unary == "" && e.atom.Name?
  }

  function JumpOf(target: string): Jump {
    if target == "CL" then Calling else Branching
  }

  /** The statement read back from the text of a statement, if that text is a statement at all. */
  function Reread(s: Statement): Option<Statement> {
    match s
    case Jumping(kind, place, arg) => Some(Jumping(kind, place, NormalizeOption(arg)))
    case Return => Some(Return)
    case Label(id) => Some(Label(id))
    case Declare(id, value) => Some(Declare(id, NormalizeOption(value)))
    case Command(word) => Some(if word == "RT" then Return else Command(word))
    case Assign(target, first, others) =>
      if target == "RT" then None
      else if target in {"CL", "BR"} && StartsWithName(first) then
        if first.Op? || |others| > 1 then None
        else Some(Jumping(JumpOf(target), first.atom.id,
                          if others == [] then None else Some(Normalize(others[0]))))
      else Some(Assign(target, Normalize(first), NormalizeAll(others)))
  }

  /** The text of the statement reads back as the statement. */
  predicate Stable(s: Statement) {
    match s
    case Jumping(_, _, arg) => arg.Some? ==> Normal(arg.value)
    case Return => true
    case Label(_) => true
    case Declare(_, value) => value.Some? ==> Normal(value.value)
    case Command(word) => word != "RT"
    case Assign(target, first, others) =>
      && target != "RT" && !(target in {"CL", "BR"} && StartsWithName(first))
      && Normal(first) && forall i :: 0 <= i < |others| ==> Normal(others[i])
  }

  lemma RereadIsIdentityIffStable(s: Statement)
    ensures Reread(s) == Some(s) <==> Stable(s)
  {
    match s
    case Jumping(_, _, arg) =>
      if arg.Some? {
        NormalizeFixesNormal(arg.value);
      }
    case Return =>
    case Label(_) =>
    case Declare(_, value) =>
      if value.Some? {
        NormalizeFixesNormal(value.value);
      }
    case Command(_) =>
    case Assign(_, first, others) =>
      NormalizeFixesNormal(first);
      forall i | 0 <= i < |others|
        ensures Normalize(others[i]) == others[i] <==> Normal(others[i])
      {
        NormalizeFixesNormal(others[i]);
      }
      if forall i :: 0 <= i < |others| ==> Normal(others[i]) {
        assert NormalizeAll(others) == others;
      }
  }

  // ---------- Words ----------

  lemma WordRun(word: string, tail: string)
    requires word != "" && (forall i :: 0 <= i < |word| ==> IsWord(word[i])) && (tail == "" || !IsWord(tail[0]))
    ensures forall w :: AfterWord(w, word + tail) == if w == word then Some(tail) else None
  {
    RunOfPrefix(Word, word, tail);
  }

  lemma BlankThen(text: string)
    requires text == "" || !IsBlank(text[0])
    ensures AfterBlanks1(" " + text) == Some(text)
  {
    OneBlank(text);
  }

  // ---------- Parts of statements ----------

  lemma OperandAfterBlank(e: Expr, rest: string)
    requires Lexical(e) && Ended(rest)
    ensures ExpressionAfterBlanks(" " + (Emit(e) + rest)) == Some(([ExprNode(Normalize(e))], rest))
    ensures ExpressionAfterBlanks(Emit(e) + rest) == Some(([ExprNode(Normalize(e))], rest))
  {
    hide Read, SkipBlanks, Normalize, Emit, Lexical;
    EmitStarts(e, rest);
    OneBlank(Emit(e) + rest);
    NoBlanks(Emit(e) + rest);
    ExpressionReprint(e, rest);
  }

  lemma ArgumentReprint(arg: Option<Expr>, rest: string)
    requires LexicalOption(arg) && Starts(rest, "\n")
    ensures
      var text := EmitOption(", ", arg) + rest;
      SkipBlanks(text) == text && CommaAt(text) == (OptionNodes(NormalizeOption(arg)), rest)
  {
    hide SkipBlanks, Emit, Normalize, ExpressionAfterBlanks;
    var text := EmitOption(", ", arg) + rest;
    if arg.Some? {
      OperandAfterBlank(arg.value, rest);
      assert text[1..] == " " + (Emit(arg.value) + rest);
    } else {
      assert text == rest;
    }
    NoBlanks(text);
  }

  lemma EqualsText(value: string, rest: string)
    ensures
      var t := "= " + value + rest;
      " = " + value + rest == " " + t && Starts(t, "=") && !IsBlank(t[0]) && t[1..] == " " + (value + rest)
  {
  }

  lemma InitialReprint(value: Option<Expr>, rest: string)
    requires LexicalOption(value) && Starts(rest, "\n")
    ensures InitialAt(EmitOption(" = ", value) + rest) == (OptionNodes(NormalizeOption(value)), rest)
  {
    hide SkipBlanks, Emit, Normalize, ExpressionAfterBlanks, Lexical;
    var text := EmitOption(" = ", value) + rest;
    if value.Some? {
      EqualsText(Emit(value.value), rest);
      OperandAfterBlank(value.value, rest);
      OneBlank("= " + Emit(value.value) + rest);
    } else {
      assert text == rest;
      NoBlanks(text);
    }
  }

  lemma OthersText(es: seq<Expr>, rest: string)
    requires es != []
    ensures
      var line := EmitOthers(es) + rest;
      Starts(line, ",") && !IsBlank(line[0]) && line[1..] == " " + (Emit(es[0]) + (EmitOthers(es[1..]) + rest))
  {
    hide Emit;
    CommaText(Emit(es[0]), EmitOthers(es[1..]), rest);
  }

  lemma CommaText(first: string, others: string, rest: string)
    ensures
      var line := ", " + first + others + rest;
      Starts(line, ",") && !IsBlank(line[0]) && line[1..] == " " + (first + (others + rest))
  {
  }

  lemma OthersStart(es: seq<Expr>, rest: string)
    ensures
      var line := EmitOthers(es) + ("\n" + rest);
      Ended(line) && line[0] == if es == [] then '\n' else ','
  {
    hide Emit;
  }

  lemma {:induction false} OthersReprint(es: seq<Expr>, rest: string)
    requires (forall i :: 0 <= i < |es| ==> Lexical(es[i])) && Starts(rest, "\n")
    ensures Many(WS_COMMA_EXPRESSION, EmitOthers(es) + rest) == (ExprNodes(NormalizeAll(es)), rest)
  {
    hide SkipBlanks, Emit, Normalize, ExpressionAfterBlanks, Many, Line, Consumes, RepeatsProgress;
    var text := EmitOthers(es) + rest;
    CommaGood();
    ManyStep(WS_COMMA_EXPRESSION, text);
    CommaLine(text);
    if es == [] {
      assert text == rest;
      NoBlanks(rest);
    } else {
      var tail := EmitOthers(es[1..]) + rest;
      OthersText(es, rest);
      NoBlanks(text);
      assert Ended(tail);
      OperandAfterBlank(es[0], tail);
      OthersReprint(es[1..], rest);
    }
  }

  lemma LineEnds(rest: string)
    ensures LineEndAt("\n" + rest) == Some(([], rest))
  {
    var text := "\n" + rest;
    NoBlanks(text);
    assert Run(Blank, text) == 0 && text[0..] == text && text[1..] == rest;
    hide SkipBlanks, Run;
  }

  // ---------- One kind of statement at a time ----------

  // The text starts with a word that none of the keywords is.
  lemma NoKeyword(word: string, tail: string)
    requires word != "" && (forall i :: 0 <= i < |word| ==> IsWord(word[i])) && (tail == "" || !IsWord(tail[0]))
    ensures
      var text := word + tail;
      && (word != "CL" ==> JumpAt("CL", "call", text) == None)
      && (word != "BR" ==> JumpAt("BR", "branch", text) == None)
      && (word != "RT" ==> ReturnAt(text) == None)
      && (word != "LB" ==> LabelAt(text) == None)
      && (word != "VA" ==> DeclarationAt(text) == None)
  {
    hide AfterWord;
    WordRun(word, tail);
    AfterWords(word, tail);
  }

  // The keywords, one by one.
  lemma AfterWords(word: string, tail: string)
    requires forall w :: AfterWord(w, word + tail) == if w == word then Some(tail) else None
    ensures
      var text := word + tail;
      && AfterWord("CL", text) == (if word == "CL" then Some(tail) else None)
      && AfterWord("BR", text) == (if word == "BR" then Some(tail) else None)
      && AfterWord("RT", text) == (if word == "RT" then Some(tail) else None)
      && AfterWord("LB", text) == (if word == "LB" then Some(tail) else None)
      && AfterWord("VA", text) == if word == "VA" then Some(tail) else None
  {
  }

  lemma WordAndNameReprint(word: string, id: string, tail: string)
    requires word in {"CL", "BR", "LB", "VA"} && IsName(id) && Delimited(tail)
    ensures WordAndName(word, word + (" " + (id + tail))) == Some(([Leaf("name", id)], tail))
    ensures AfterWord(word, word + (" " + (id + tail))) == Some(" " + (id + tail))
    ensures SkipBlanks(" " + (id + tail)) == id + tail && NameAt(id + tail) == Some(([Leaf("name", id)], tail))
  {
    hide AfterWord, AfterBlanks1, NameAt, SkipBlanks;
    WordRun(word, " " + (id + tail));
    BlankThen(id + tail);
    OneBlank(id + tail);
    NameReprint(id, tail);
  }

  // CL or BR, a blank and a name are taken for a jump, whatever follows the name.
  lemma JumpTaken(kind: Jump, id: string, after: string)
    requires IsName(id) && Delimited(after)
    ensures
      var (arg, end) := CommaAt(SkipBlanks(after));
      KindAt(Opcode(kind) + (" " + (id + after)))
      == Some(([Symbol(if kind.Calling? then "call" else "branch", [Leaf("name", id)] + arg)], end))
  {
    hide LabelAt, ReturnAt, DeclarationAt, AssignmentAt, CommandAt, WordAndName, SkipBlanks, CommaAt, AfterWord;
    WordAndNameReprint(Opcode(kind), id, after);
    NoKeyword(Opcode(kind), " " + (id + after));
  }

  lemma JumpReprint(kind: Jump, place: string, arg: Option<Expr>, rest: string)
    requires IsName(place) && LexicalOption(arg)
    ensures
      KindAt(Opcode(kind) + (" " + (place + (EmitOption(", ", arg) + ("\n" + rest)))))
      == Some(([KindNode(Jumping(kind, place, NormalizeOption(arg)))], "\n" + rest))
  {
    hide KindAt, SkipBlanks, CommaAt, Opcode;
    var end := EmitOption(", ", arg) + ("\n" + rest);
    assert Delimited(end);
    ArgumentReprint(arg, "\n" + rest);
    JumpTaken(kind, place, end);
  }

  lemma LabelReprint(id: string, rest: string)
    requires IsName(id)
    ensures KindAt("LB" + (" " + (id + ("\n" + rest)))) == Some(([KindNode(Label(id))], "\n" + rest))
  {
    hide JumpAt, ReturnAt, DeclarationAt, AssignmentAt, CommandAt, WordAndName, SkipBlanks, AfterWord;
    WordAndNameReprint("LB", id, "\n" + rest);
    NoKeyword("LB", " " + (id + ("\n" + rest)));
  }

  lemma DeclareReprint(id: string, value: Option<Expr>, rest: string)
    requires IsName(id) && LexicalOption(value)
    ensures
      KindAt("VA" + (" " + (id + (EmitOption(" = ", value) + ("\n" + rest)))))
      == Some(([KindNode(Declare(id, NormalizeOption(value)))], "\n" + rest))
  {
    hide JumpAt, ReturnAt, LabelAt, AssignmentAt, CommandAt, WordAndName, SkipBlanks, AfterWord, InitialAt, NameAt;
    var end := EmitOption(" = ", value) + ("\n" + rest);
    assert Delimited(end);
    InitialReprint(value, "\n" + rest);
    WordAndNameReprint("VA", id, end);
    NoKeyword("VA", " " + (id + end));
  }

  lemma ReturnReprint(rest: string)
    ensures KindAt("RT" + ("\n" + rest)) == Some(([KindNode(Return)], "\n" + rest))
  {
    hide JumpAt, LabelAt, DeclarationAt, AssignmentAt, CommandAt, AfterWord;
    WordRun("RT", "\n" + rest);
    NoKeyword("RT", "\n" + rest);
  }

  lemma CommandReprint(word: string, rest: string)
    requires word in BARE && word != "RT"
    ensures KindAt(word + ("\n" + rest)) == Some(([KindNode(Command(word))], "\n" + rest))
  {
    hide JumpAt, ReturnAt, LabelAt, DeclarationAt, CommandAt, AssignmentAt, BARE;
    BareWord(word, "\n" + rest);
    NoKeyword(word, "\n" + rest);
    NameReprint(word, "\n" + rest);
    NoAssignment(word + ("\n" + rest));
  }

  lemma BareWord(word: string, tail: string)
    requires word in BARE
    ensures IsName(word) && word !in {"CL", "BR", "LB", "VA"}
    ensures CommandAt(word + tail) == Some(([Leaf("command", word)], tail))
  {
    var text := word + tail;
    assert text[..|word|] == word && text[|word|..] == tail;
    assert |text| >= 2 && word in {"E", "S", "H"} ==> text[..2][0] == word[0];
  }

  // A name alone on its line is not an assignment.
  lemma NoAssignment(text: string)
    requires NameAt(text).Some? && Starts(NameAt(text).value.1, "\n")
    ensures AssignmentAt(text) == None
  {
    hide NameAt, SkipBlanks, Read;
    var tail := NameAt(text).value.1;
    NoBlanks(tail);
    NoExpression(tail);
  }

  lemma NoExpression(text: string)
    requires Starts(text, "\n")
    ensures Read(RExpression, text) == None
  {
    ExpressionRead(text);
    NotANumber(text);
    ConfigRead(text);
    hide Read, NumberAt;
  }

  lemma ConfigRead(text: string)
    requires !Starts(text, "$")
    ensures Read(RConfigVar, text) == None
  {
    ReadTuple(RConfigVar, Part(1, Literal("$"), Part(1, Match(DOTTED), End)), text);
    hide Tuple, Line;
    CharPart('$', Part(1, Match(DOTTED), End), text);
  }

  // ---------- Assignments ----------

  // What follows the target, and the statement line after it.
  function AssignTail(target: string, first: Expr, others: seq<Expr>, rest: string): string {
    " " + (Equals(target) + (Emit(first) + (EmitOthers(others) + ("\n" + rest))))
  }

  lemma ValuesReprint(target: string, first: Expr, others: seq<Expr>, rest: string)
    requires LexicalStatement(Assign(target, first, others))
    ensures
      var t := SkipEquals(SkipBlanks(AssignTail(target, first, others, rest)));
      ExpressionAfterBlanks(t) == Some(([ExprNode(Normalize(first))], EmitOthers(others) + ("\n" + rest)))
  {
    hide SkipBlanks, Emit, Normalize, ExpressionAfterBlanks, COMMANDS;
    var tail := EmitOthers(others) + ("\n" + rest);
    assert Ended(tail);
    EmitStarts(first, tail);
    OperandAfterBlank(first, tail);
    var values := Equals(target) + (Emit(first) + tail);
    OneBlank(values);
    if target in COMMANDS {
      assert values == Emit(first) + tail;
    } else {
      assert values[1..] == " " + (Emit(first) + tail);
    }
  }

  lemma AssignmentReprint(target: string, first: Expr, others: seq<Expr>, rest: string)
    requires LexicalStatement(Assign(target, first, others))
    ensures
      AssignmentAt(target + AssignTail(target, first, others, rest))
      == Some(([KindNode(Assign(target, Normalize(first), NormalizeAll(others)))], "\n" + rest))
  {
    hide SkipBlanks, Emit, Normalize, ExpressionAfterBlanks, COMMANDS, NameAt, Many, SkipEquals;
    var tail := AssignTail(target, first, others, rest);
    NameReprint(target, tail);
    ValuesReprint(target, first, others, rest);
    OthersReprint(others, "\n" + rest);
    var values := ExprNodes(NormalizeAll(others));
    assert [Leaf("name", target)] + ([ExprNode(Normalize(first))] + values)
        == [Leaf("name", target), ExprNode(Normalize(first))] + values;
  }

  lemma NotAName(word: string, tail: string)
    requires tail == "" || (!IsBlank(tail[0]) && !IsAlpha(tail[0]))
    requires AfterWord(word, word + (" " + tail)) == Some(" " + tail)
    ensures WordAndName(word, word + (" " + tail)) == None
    ensures NameAt(SkipBlanks(" " + tail)) == None
  {
    hide AfterWord;
    BlankThen(tail);
    OneBlank(tail);
  }

  // The text after the target does not start with a name.
  lemma NotACall(s: Statement, rest: string)
    requires LexicalStatement(s) && s.Assign?
    requires s.target in {"CL", "BR"} ==> !StartsWithName(s.first)
    requires s.target != "RT"
    ensures
      var text := s.target + AssignTail(s.target, s.first, s.others, rest);
      && JumpAt("CL", "call", text) == None && JumpAt("BR", "branch", text) == None
      && ReturnAt(text) == None && LabelAt(text) == None && DeclarationAt(text) == None
  {
    var tail := Equals(s.target) + (Emit(s.first) + (EmitOthers(s.others) + ("\n" + rest)));
    NoKeyword(s.target, " " + tail);
    if s.target in {"CL", "BR", "LB", "VA"} {
      AssignTailStarts(s, rest);
      WordRun(s.target, " " + tail);
      hide AfterWord, NameAt, SkipBlanks;
      NotAName(s.target, tail);
    }
  }

  lemma AssignTailStarts(s: Statement, rest: string)
    requires LexicalStatement(s) && s.Assign?
    requires s.target in {"CL", "BR", "LB", "VA"}
    requires s.target in {"CL", "BR"} ==> !StartsWithName(s.first)
    ensures
      var tail := Equals(s.target) + (Emit(s.first) + (EmitOthers(s.others) + ("\n" + rest)));
      tail != "" && !IsBlank(tail[0]) && !IsAlpha(tail[0])
  {
    JumpCommands(s.target);
    hide COMMANDS;
    if s.target in {"CL", "BR"} {
      NotNamed(s.first);
      hide Emit;
      assert Equals(s.target) + (Emit(s.first) + (EmitOthers(s.others) + ("\n" + rest)))
          == Emit(s.first) + (EmitOthers(s.others) + ("\n" + rest));
    }
  }

  lemma JumpCommands(target: string)
    requires target in {"CL", "BR", "LB", "VA"}
    ensures target in COMMANDS <==> target in {"CL", "BR"}
  {
  }

  lemma NotNamed(e: Expr)
    requires Lexical(e) && !StartsWithName(e)
    ensures Emit(e) != "" && !IsBlank(Emit(e)[0]) && !IsAlpha(Emit(e)[0])
  {
    AtomStarts(e.atom, "");
    EmitStarts(e, "");
  }

  lemma AssignReprint(s: Statement, rest: string)
    requires LexicalStatement(s) && s.Assign?
    requires s.target in {"CL", "BR"} ==> !StartsWithName(s.first)
    requires s.target != "RT"
    ensures
      KindAt(s.target + AssignTail(s.target, s.first, s.others, rest))
      == Some(([KindNode(Reread(s).value)], "\n" + rest))
  {
    hide JumpAt, ReturnAt, LabelAt, DeclarationAt, AssignmentAt, CommandAt, COMMANDS, Lexical, Emit;
    NotACall(s, rest);
    AssignmentReprint(s.target, s.first, s.others, rest);
  }

  // CL or BR followed by a name is such a jump.
  lemma TakenForAJump(s: Statement, rest: string)
    requires LexicalStatement(s) && s.Assign? && s.target in {"CL", "BR"} && StartsWithName(s.first)
    ensures
      var kind := JumpOf(s.target);
      var (arg, end) := CommaAt(SkipBlanks(Tail(s.first, EmitOthers(s.others) + ("\n" + rest))));
      KindAt(s.target + AssignTail(s.target, s.first, s.others, rest))
      == Some(([Symbol(if kind.Calling? then "call" else "branch", [Leaf("name", s.first.atom.id)] + arg)], end))
  {
    var line := EmitOthers(s.others) + ("\n" + rest);
    var id, after := s.first.atom.id, Tail(s.first, line);
    EmitTail(s.first, line);
    assert UnaryText("") + (id + after) == id + after;
    JumpCommands(s.target);
    hide COMMANDS, SkipBlanks, Emit, CommaAt, KindAt, Tail;
    assert "" + (id + after) == id + after;
    assert Delimited(after) by {
      TailDelimited(s, rest);
    }
    JumpTaken(JumpOf(s.target), id, after);
  }

  lemma TailDelimited(s: Statement, rest: string)
    requires s.Assign?
    ensures Delimited(Tail(s.first, EmitOthers(s.others) + ("\n" + rest)))
  {
  }

  // After the name of the jump: one argument and the end of the line, or no statement.
  lemma JumpEnds(s: Statement, rest: string)
    requires LexicalStatement(s) && s.Assign? && s.target in {"CL", "BR"} && StartsWithName(s.first)
    ensures
      var (arg, end) := CommaAt(SkipBlanks(Tail(s.first, EmitOthers(s.others) + ("\n" + rest))));
      match Reread(s)
      case None => LineEndAt(end) == None
      case Some(t) => t.Jumping? && end == "\n" + rest && arg == OptionNodes(t.arg)
  {
    hide Emit, Normalize, Run, CommaAt, SkipBlanks, Lexical;
    if s.first.Op? {
      OperatorFollows(s.first, EmitOthers(s.others) + ("\n" + rest));
    } else if s.others == [] {
      assert EmitOthers([]) == EmitOption(", ", None);
      ArgumentReprint(None, "\n" + rest);
    } else {
      ValueFollows(s.others, rest);
      assert |s.others| == 1 ==> EmitOthers(s.others[1..]) == "";
    }
  }

  lemma OperatorFollows(e: Expr, line: string)
    requires e.Op? && Lexical(e)
    ensures var (arg, end) := CommaAt(SkipBlanks(Tail(e, line))); LineEndAt(end) == None
  {
    hide Emit, Normalize, Run, ExpressionAfterBlanks, SkipBlanks;
    var tail := " " + (Emit(e.operand) + line);
    LexicalOperation(e);
    hide Lexical;
    OperatorStarts(e.op, tail);
    OneBlank(e.op + tail);
    OperatorEnds(e.op, tail);
  }

  lemma CommaTaken(text: string)
    requires Starts(text, ",") && ExpressionAfterBlanks(text[1..]).Some?
    ensures CommaAt(text) == ExpressionAfterBlanks(text[1..]).value
  {
  }

  lemma {:induction false} ValueFollows(others: seq<Expr>, rest: string)
    requires others != [] && forall i :: 0 <= i < |others| ==> Lexical(others[i])
    ensures
      var tail := EmitOthers(others[1..]) + ("\n" + rest);
      CommaAt(SkipBlanks(EmitOthers(others) + ("\n" + rest))) == ([ExprNode(Normalize(others[0]))], tail)
    ensures |others| > 1 ==> LineEndAt(EmitOthers(others[1..]) + ("\n" + rest)) == None
  {
    hide Emit, Normalize, Run, ExpressionAfterBlanks, SkipBlanks, Lexical, LineEndAt, EmitOthers, CommaAt;
    var tail := EmitOthers(others[1..]) + ("\n" + rest);
    OthersText(others, "\n" + rest);
    OthersStart(others[1..], rest);
    var line := EmitOthers(others) + ("\n" + rest);
    NoBlanks(line);
    OperandAfterBlank(others[0], tail);
    CommaTaken(line);
    if |others| > 1 {
      NotTheEnd(tail);
    }
  }

  lemma NotTheEnd(text: string)
    requires text != "" && text[0] !in " \t\r\n'"
    ensures LineEndAt(text) == None
  {
    assert text[0..] == text;
    NoBlanks(text);
    hide SkipBlanks, Run;
  }

  lemma OperatorEnds(op: string, tail: string)
    requires op in COMPARES || op in MATHS
    ensures !Starts(op + tail, ",") && LineEndAt(op + tail) == None
  {
    OperatorChars(op, tail);
    NotTheEnd(op + tail);
  }

  lemma OperatorChars(op: string, tail: string)
    requires op in COMPARES || op in MATHS
    ensures op + tail != "" && (op + tail)[0] !in ", \t\r\n'"
  {
  }

  // ---------- Every statement ----------

  function Lift(s: Option<Statement>, rest: string): Parsed {
    if s.Some? then Some(([StatementNode(s.value)], rest)) else None
  }

  lemma LineReprint(text: string, kind: Node, rest: string)
    requires KindAt(text) == Some(([kind], "\n" + rest))
    ensures Read(RStatement, text) == Some(([Symbol("statement", [kind])], rest))
  {
    hide KindAt, LineEndAt, Read;
    StatementRead(text);
    LineEnds(rest);
    assert [kind] + [] == [kind];
  }

  lemma AssignLine(s: Statement, rest: string)
    requires LexicalStatement(s) && s.Assign?
    ensures Read(RStatement, s.target + AssignTail(s.target, s.first, s.others, rest)) == Lift(Reread(s), rest)
  {
    hide KindAt, LineEndAt, Read, AssignTail, CommaAt, SkipBlanks;
    var text := s.target + AssignTail(s.target, s.first, s.others, rest);
    StatementRead(text);
    if s.target == "RT" {
      NotAReturn(s, rest);
    } else if s.target in {"CL", "BR"} && StartsWithName(s.first) {
      TakenForAJump(s, rest);
      JumpEnds(s, rest);
      if Reread(s).Some? {
        LineReprint(text, KindNode(Reread(s).value), rest);
      }
    } else {
      AssignReprint(s, rest);
      LineReprint(text, KindNode(Reread(s).value), rest);
    }
  }

  lemma NotAReturn(s: Statement, rest: string)
    requires LexicalStatement(s) && s.Assign? && s.target == "RT"
    ensures StatementAt(s.target + AssignTail(s.target, s.first, s.others, rest)) == None
  {
    hide JumpAt, LabelAt, DeclarationAt, AssignmentAt, CommandAt, AfterWord;
    var line := Emit(s.first) + (EmitOthers(s.others) + ("\n" + rest));
    assert AssignTail(s.target, s.first, s.others, rest) == " " + ("= " + line);
    var tail := " " + ("= " + line);
    WordRun("RT", tail);
    NoKeyword("RT", tail);
    BlankNotTheEnd("= " + line);
  }

  lemma BlankNotTheEnd(text: string)
    requires text != "" && text[0] !in " \t\r\n'"
    ensures LineEndAt(" " + text) == None
  {
    OneBlank(text);
    RunOfPrefix(Blank, " ", text);
    hide SkipBlanks, Run;
  }

  // The line of a statement, grouped as it is read.
  function LineOf(s: Statement, rest: string): string {
    match s
    case Jumping(kind, place, arg) => Opcode(kind) + (" " + (place + (EmitOption(", ", arg) + ("\n" + rest))))
    case Return => "RT" + ("\n" + rest)
    case Label(id) => "LB" + (" " + (id + ("\n" + rest)))
    case Declare(id, value) => "VA" + (" " + (id + (EmitOption(" = ", value) + ("\n" + rest))))
    case Assign(target, first, others) => target + AssignTail(target, first, others, rest)
    case Command(word) => word + ("\n" + rest)
  }

  lemma LineIsText(s: Statement, rest: string)
    ensures EmitStatement(s) + "\n" + rest == LineOf(s, rest)
  {
    match s {
      case Jumping(kind, place, arg) => JumpIsText(kind, place, arg, rest);
      case Return =>
      case Label(id) => LabelIsText(id, rest);
      case Declare(id, value) => DeclareIsText(id, value, rest);
      case Assign(target, first, others) => AssignIsText(target, first, others, rest);
      case Command(word) =>
    }
    hide COMMANDS, Emit, EmitOption, EmitOthers, Equals, Opcode;
  }

  lemma JumpIsText(kind: Jump, place: string, arg: Option<Expr>, rest: string)
    ensures EmitStatement(Jumping(kind, place, arg)) + "\n" + rest == LineOf(Jumping(kind, place, arg), rest)
  {
    hide EmitOption, Opcode;
    Grouped(Opcode(kind), " ", place, EmitOption(", ", arg), "", rest);
  }

  lemma LabelIsText(id: string, rest: string)
    ensures EmitStatement(Statement.Label(id)) + "\n" + rest == LineOf(Statement.Label(id), rest)
  {
    Grouped("LB ", id, "", "", "", rest);
  }

  lemma DeclareIsText(id: string, value: Option<Expr>, rest: string)
    ensures EmitStatement(Declare(id, value)) + "\n" + rest == LineOf(Declare(id, value), rest)
  {
    hide EmitOption;
    Grouped("VA ", id, EmitOption(" = ", value), "", "", rest);
  }

  lemma AssignIsText(target: string, first: Expr, others: seq<Expr>, rest: string)
    ensures EmitStatement(Assign(target, first, others)) + "\n" + rest == LineOf(Assign(target, first, others), rest)
  {
    hide COMMANDS, Emit, EmitOthers, Equals;
    Grouped(target, " ", Equals(target), Emit(first), EmitOthers(others), rest);
  }

  lemma Grouped(a: string, b: string, c: string, d: string, e: string, rest: string)
    ensures a + b + c + d + e + "\n" + rest == a + (b + (c + (d + (e + ("\n" + rest)))))
  {
  }

  /** Reading back the text of any statement gives exactly Reread of it. */
  lemma StatementReprint(s: Statement, rest: string)
    requires LexicalStatement(s)
    ensures Read(RStatement, EmitStatement(s) + "\n" + rest) == Lift(Reread(s), rest)
  {
    hide KindAt, Read, EmitStatement, BARE, Emit, EmitOption, EmitOthers, Normalize, AssignTail, Opcode, KindNode;
    var text := LineOf(s, rest);
    LineIsText(s, rest);
    match s
    case Jumping(kind, place, arg) =>
      JumpReprint(kind, place, arg, rest);
      LineReprint(text, KindNode(Jumping(kind, place, NormalizeOption(arg))), rest);
    case Return =>
      ReturnReprint(rest);
      LineReprint(text, KindNode(Return), rest);
    case Label(id) =>
      LabelReprint(id, rest);
      LineReprint(text, KindNode(Label(id)), rest);
    case Declare(id, value) =>
      DeclareReprint(id, value, rest);
      LineReprint(text, KindNode(Declare(id, NormalizeOption(value))), rest);
    case Assign(target, first, others) =>
      AssignLine(s, rest);
    case Command(word) =>
      if word == "RT" {
        ReturnReprint(rest);
        LineReprint(text, KindNode(Return), rest);
      } else {
        CommandReprint(word, rest);
        LineReprint(text, KindNode(Command(word)), rest);
      }
  }

  lemma LexicalParts(e: Expr)
    requires Lexical(e)
    ensures e.Op? ==> Lexical(e.operand)
  {
  }

  // The same nodes come from the same statement.
  lemma {:induction false} ExprNodeInjective(e: Expr, f: Expr)
    requires Lexical(e) && Lexical(f) && ExprNode(e) == ExprNode(f)
    ensures e == f
    decreases e
  {
    hide Lexical;
    LexicalParts(e);
    LexicalParts(f);
    var m, n := UnaryNodes(e.unary), UnaryNodes(f.unary);
    assert ExprNode(e).what[|m|] == AtomNode(e.atom) && ExprNode(f).what[|n|] == AtomNode(f.atom);
    assert ExprNode(e).what[0] == if e.unary == "" then AtomNode(e.atom) else Leaf("unary", e.unary);
    assert ExprNode(f).what[0] == if f.unary == "" then AtomNode(f.atom) else Leaf("unary", f.unary);
    assert e.unary == f.unary;
    assert |ExprNode(e).what| == |m| + if e.Op? then 3 else 1;
    if e.Op? {
      assert ExprNode(e).what[|m| + 1] == OperatorNode(e.op) && ExprNode(f).what[|m| + 1] == OperatorNode(f.op);
      assert ExprNode(e).what[|m| + 2] == ExprNode(e.operand) && ExprNode(f).what[|m| + 2] == ExprNode(f.operand);
      ExprNodeInjective(e.operand, f.operand);
    }
  }

  lemma {:induction false} ExprNodesInjective(es: seq<Expr>, fs: seq<Expr>)
    requires (forall i :: 0 <= i < |es| ==> Lexical(es[i])) && forall i :: 0 <= i < |fs| ==> Lexical(fs[i])
    requires ExprNodes(es) == ExprNodes(fs)
    ensures es == fs
  {
    hide ExprNode, Lexical;
    if es != [] && fs != [] {
      assert ExprNodes(es)[0] == ExprNode(es[0]) && ExprNodes(fs)[0] == ExprNode(fs[0]);
      assert ExprNodes(es)[1..] == ExprNodes(es[1..]) && ExprNodes(fs)[1..] == ExprNodes(fs[1..]);
      ExprNodeInjective(es[0], fs[0]);
      ExprNodesInjective(es[1..], fs[1..]);
    }
  }

  lemma OptionNodesInjective(e: Option<Expr>, f: Option<Expr>, name: Node)
    requires LexicalOption(e) && LexicalOption(f) && [name] + OptionNodes(e) == [name] + OptionNodes(f)
    ensures e == f
  {
    hide ExprNode, Lexical;
    assert |[name] + OptionNodes(e)| == if e.Some? then 2 else 1;
    if e.Some? {
      assert ([name] + OptionNodes(e))[1] == ExprNode(e.value) && ([name] + OptionNodes(f))[1] == ExprNode(f.value);
      ExprNodeInjective(e.value, f.value);
    }
  }

  lemma RereadLexical(s: Statement)
    requires LexicalStatement(s) && Reread(s).Some?
    ensures LexicalStatement(Reread(s).value)
  {
    hide Lexical, Normalize, IsName;
    match s
    case Jumping(_, _, arg) =>
      if arg.Some? {
        NormalizeFixesNormal(arg.value);
      }
    case Return =>
    case Label(_) =>
    case Declare(_, value) =>
      if value.Some? {
        NormalizeFixesNormal(value.value);
      }
    case Command(_) =>
    case Assign(_, first, others) =>
      NormalizeFixesNormal(first);
      forall i | 0 <= i < |others|
        ensures Lexical(Normalize(others[i]))
      {
        NormalizeFixesNormal(others[i]);
      }
      if others != [] {
        assert Lexical(Normalize(others[0]));
      }
      if first.atom.Name? {
        NameAtoms(first);
      }
  }

  lemma NameAtoms(e: Expr)
    requires Lexical(e) && e.atom.Name?
    ensures IsName(e.atom.id)
  {
  }
}
