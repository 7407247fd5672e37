/** Statements and programs: what the engine reads for these rules, written out. */
module StatementReader {
  import opened Wrappers
  import opened Regexes
  import opened Peg
  import opened Grammar
  import opened Reader
  import opened Descent

  // Prepends a name node.
  function Named(title: string, name: seq<Node>, more: (seq<Node>, string)): Parsed {
    Some(([Symbol(title, name + more.0)], more.1))
  }

  // A comma and an expression; if either is missing, nothing is taken.
  function CommaAt(text: string): (seq<Node>, string) {
    if Starts(text, ",") && ExpressionAfterBlanks(text[1..]).Some? then ExpressionAfterBlanks(text[1..]).value
    else ([], text)
  }

  // An equals sign and an expression.
  function InitialAt(text: string): (seq<Node>, string) {
    var t := SkipBlanks(text);
    if Starts(t, "=") && ExpressionAfterBlanks(t[1..]).Some? then ExpressionAfterBlanks(t[1..]).value
    else ([], text)
  }

  // A keyword that stands apart, and a name.
  function WordAndName(word: string, text: string): Parsed {
    match AfterWord(word, text)
    case None => None
    case Some(t) =>
      match AfterBlanks1(t)
      case None => None
      case Some(t') => NameAt(t')
  }

  function JumpAt(word: string, title: string, text: string): Parsed {
    match WordAndName(word, text)
    case None => None
    case Some((name, t)) => Named(title, name, CommaAt(SkipBlanks(t)))
  }

  function LabelAt(text: string): Parsed {
    Titled(Some("label"), WordAndName("LB", text))
  }

  function ReturnAt(text: string): Parsed {
    match AfterWord("RT", text)
    case None => None
    case Some(t) => Some(([Symbol("return_", [])], t))
  }

  function DeclarationAt(text: string): Parsed {
    match AfterWord("VA", text)
    case None => None
    case Some(t) =>
      match NameAt(SkipBlanks(t))
      case None => None
      case Some((name, t')) => Named("declaration", name, InitialAt(t'))
  }

  function SkipEquals(text: string): string {
    if Starts(text, "=") then text[1..] else text
  }

  function AssignmentAt(text: string): Parsed {
    match NameAt(text)
    case None => None
    case Some((name, t)) =>
      match ExpressionAfterBlanks(SkipEquals(SkipBlanks(t)))
      case None => None
      case Some((first, t')) =>
        var (others, rest) := Many(WS_COMMA_EXPRESSION, t');
        Some(([Symbol("assignment", name + (first + others))], rest))
  }

  // The first kind of statement that matches, in the order of the grammar.
  function KindAt(text: string): Parsed {
    Else(JumpAt("CL", "call", text),
         Else(JumpAt("BR", "branch", text),
              Else(ReturnAt(text),
                   Else(LabelAt(text),
                        Else(DeclarationAt(text), Else(AssignmentAt(text), CommandAt(text)))))))
  }

  function LineEndAt(text: string): Parsed {
    Else(CommentAt(text), NewlineAt(text))
  }

  function StatementAt(text: string): Parsed {
    match KindAt(text)
    case None => None
    case Some((kind, t)) => Titled(Some("statement"), After(kind, LineEndAt(t)))
  }

  // ---------- Parts of tuples ----------

  lemma WordPart(word: string, more: Items<RuleName>, text: string)
    requires ItemsProgress(GRAMMAR, Part(1, Keyword(word), more))
    ensures ItemsProgress(GRAMMAR, more)
    ensures
      Tuple(Part(1, Keyword(word), more), text) ==
      match AfterWord(word, text) case None => None case Some(t) => Tuple(more, t)
  {
    hide Tuple, Line, AfterWord;
    TuplePart(Keyword(word), more, text);
    WordLine(word, text);
    if AfterWord(word, text).Some? {
      AfterNothing(Tuple(more, AfterWord(word, text).value));
    }
  }

  lemma Blanks1Part(more: Items<RuleName>, text: string)
    requires ItemsProgress(GRAMMAR, R(RWs1, more))
    ensures ItemsProgress(GRAMMAR, more)
    ensures
      Tuple(R(RWs1, more), text) ==
      match AfterBlanks1(text) case None => None case Some(t) => Tuple(more, t)
  {
    hide Tuple, Line, AfterBlanks1;
    TuplePart(Rule(RWs1), more, text);
    Blanks1Read(text);
    if AfterBlanks1(text).Some? {
      AfterNothing(Tuple(more, AfterBlanks1(text).value));
    }
  }

  lemma NamePart(more: Items<RuleName>, text: string)
    requires ItemsProgress(GRAMMAR, R(RName, more))
    ensures ItemsProgress(GRAMMAR, more)
    ensures Tuple(R(RName, more), text) == Chain(NameAt(text), more)
  {
    hide Tuple, Line, NameAt;
    TuplePart(Rule(RName), more, text);
    NameRead(text);
  }

  lemma CharPart(c: char, more: Items<RuleName>, text: string)
    requires ItemsProgress(GRAMMAR, Part(1, Literal([c]), more))
    ensures ItemsProgress(GRAMMAR, more)
    ensures
      Tuple(Part(1, Literal([c]), more), text) == if Starts(text, [c]) then Tuple(more, text[1..]) else None
  {
    hide Tuple, Line;
    TuplePart(Literal([c]), more, text);
    CharLine(c, text);
    if Starts(text, [c]) {
      AfterNothing(Tuple(more, text[1..]));
    }
  }

  // The last part of a tuple, when it is optional.
  lemma OptionalEnd(p: Pat, text: string)
    requires ItemsProgress(GRAMMAR, Part(0, p, End)) && Consumes(GRAMMAR, p)
    ensures Tuple(Part(0, p, End), text) == Else(Line(p, text), Some(([], text)))
  {
    hide Tuple, Line, Consumes;
    TupleOptional(p, End, text);
    var (nodes, rest) := Else(Line(p, text), Some(([], text))).value;
    TupleEnd(rest);
    assert nodes + [] == nodes;
  }

  lemma CommaLine(text: string)
    ensures Line(COMMA_EXPRESSION, text) == if Starts(text, ",") then ExpressionAfterBlanks(text[1..]) else None
    ensures Line(WS_COMMA_EXPRESSION, text) ==
            var t := SkipBlanks(text);
            if Starts(t, ",") then ExpressionAfterBlanks(t[1..]) else None
  {
    var items := Part(1, Literal(","), R(RWs, R(RExpression, End)));
    assert ItemsProgress(GRAMMAR, R(RWs, items)) && ItemsProgress(GRAMMAR, items) by {
      CommaExpression();
      assert RepeatsProgress(GRAMMAR, COMMA_EXPRESSION) && RepeatsProgress(GRAMMAR, WS_COMMA_EXPRESSION);
    }
    hide Tuple, Line, ItemsProgress, ExpressionAfterBlanks;
    LineTuple(items, text);
    LineTuple(R(RWs, items), text);
    BlanksPart(items, text);
    CommaTuple(text);
    CommaTuple(SkipBlanks(text));
  }

  lemma CommaTuple(text: string)
    ensures Tuple(Part(1, Literal(","), R(RWs, R(RExpression, End))), text)
         == if Starts(text, ",") then ExpressionAfterBlanks(text[1..]) else None
  {
    assert ItemsProgress(GRAMMAR, Part(1, Literal(","), R(RWs, R(RExpression, End)))) by {
      CommaExpression();
      assert RepeatsProgress(GRAMMAR, COMMA_EXPRESSION);
    }
    hide Tuple, ItemsProgress, ExpressionAfterBlanks;
    CharPart(',', R(RWs, R(RExpression, End)), text);
    if Starts(text, ",") {
      BlanksExpressionRead(text[1..]);
    }
  }

  // ---------- Statements are what the engine reads ----------

  lemma JumpRead(n: RuleName, word: string, title: string, text: string)
    requires RuleBody(n) == Sequence(JumpItems(word)) && RuleTitle(n) == Some(title)
    ensures Read(n, text) == JumpAt(word, title, text)
  {
    hide Tuple, Line, RuleBody, RuleTitle, AfterWord, AfterBlanks1, NameAt, SkipBlanks, ItemsProgress, Consumes;
    hide ExpressionAfterBlanks;
    var end := Part(0, COMMA_EXPRESSION, End);
    ReadTuple(n, JumpItems(word), text);
    WordPart(word, R(RWs1, R(RName, R(RWs, end))), text);
    if AfterWord(word, text).Some? {
      var t := AfterWord(word, text).value;
      Blanks1Part(R(RName, R(RWs, end)), t);
      if AfterBlanks1(t).Some? {
        var t1 := AfterBlanks1(t).value;
        NamePart(R(RWs, end), t1);
        if NameAt(t1).Some? {
          var t2 := NameAt(t1).value.1;
          BlanksPart(end, t2);
          CommaExpression();
          OptionalEnd(COMMA_EXPRESSION, SkipBlanks(t2)) by {
            CommaGood();
          }
          CommaLine(SkipBlanks(t2));
        }
      }
    }
  }

  lemma CommaGood()
    ensures Consumes(GRAMMAR, COMMA_EXPRESSION) && Consumes(GRAMMAR, WS_COMMA_EXPRESSION)
    ensures RepeatsProgress(GRAMMAR, COMMA_EXPRESSION) && RepeatsProgress(GRAMMAR, WS_COMMA_EXPRESSION)
  {
    CommaExpression();
  }

  lemma LabelRead(text: string)
    ensures Read(RLabel, text) == LabelAt(text)
  {
    hide Tuple, Line, AfterWord, AfterBlanks1, NameAt, ItemsProgress;
    ReadTuple(RLabel, Part(1, Keyword("LB"), R(RWs1, R(RName, End))), text);
    WordPart("LB", R(RWs1, R(RName, End)), text);
    if AfterWord("LB", text).Some? {
      var t := AfterWord("LB", text).value;
      Blanks1Part(R(RName, End), t);
      if AfterBlanks1(t).Some? {
        LastPart(RName, AfterBlanks1(t).value);
        NameRead(AfterBlanks1(t).value);
      }
    }
  }

  lemma ReturnRead(text: string)
    ensures Read(RReturn, text) == ReturnAt(text)
  {
    ReadTerminal(RReturn, text);
  }

  lemma InitialLine(text: string)
    ensures Line(INITIAL_VALUE, text) ==
            var t := SkipBlanks(text);
            if Starts(t, "=") then ExpressionAfterBlanks(t[1..]) else None
    ensures Consumes(GRAMMAR, INITIAL_VALUE)
  {
    var items := Part(1, Literal("="), R(RWs, R(RExpression, End)));
    assert Consumes(GRAMMAR, INITIAL_VALUE) && ItemsProgress(GRAMMAR, R(RWs, items)) by {
      Value(Literal("="));
    }
    hide Tuple, Line, ItemsProgress, ExpressionAfterBlanks, SkipBlanks, Consumes;
    LineTuple(R(RWs, items), text);
    BlanksPart(items, text);
    var t := SkipBlanks(text);
    CharPart('=', R(RWs, R(RExpression, End)), t);
    if Starts(t, "=") {
      BlanksExpressionRead(t[1..]);
    }
  }

  lemma DeclarationRead(text: string)
    ensures Read(RDeclaration, text) == DeclarationAt(text)
  {
    hide Tuple, Line, AfterWord, NameAt, SkipBlanks, ItemsProgress, Consumes, ExpressionAfterBlanks;
    var end := Part(0, INITIAL_VALUE, End);
    ReadTuple(RDeclaration, Part(1, Keyword("VA"), R(RWs, R(RName, end))), text);
    WordPart("VA", R(RWs, R(RName, end)), text);
    if AfterWord("VA", text).Some? {
      var t := AfterWord("VA", text).value;
      BlanksPart(R(RName, end), t);
      NamePart(end, SkipBlanks(t));
      if NameAt(SkipBlanks(t)).Some? {
        var t' := NameAt(SkipBlanks(t)).value.1;
        InitialLine(t');
        OptionalEnd(INITIAL_VALUE, t');
      }
    }
  }

  lemma EqualsPart(more: Items<RuleName>, text: string)
    requires ItemsProgress(GRAMMAR, Part(0, Literal("="), more))
    ensures ItemsProgress(GRAMMAR, more) && Tuple(Part(0, Literal("="), more), text) == Tuple(more, SkipEquals(text))
  {
    TupleOptional(Literal("="), more, text);
    hide Tuple, Line, ItemsProgress;
    CharLine('=', text);
    AfterNothing(Tuple(more, SkipEquals(text)));
  }

  lemma AssignmentRead(text: string)
    ensures Read(RAssignment, text) == AssignmentAt(text)
  {
    hide Tuple, Line, NameAt, SkipBlanks, ItemsProgress, Consumes, Many, RepeatsProgress;
    var values := Part(-1, WS_COMMA_EXPRESSION, End);
    var first := R(RWs, R(RExpression, values));
    ReadTuple(RAssignment, R(RName, R(RWs, Part(0, Literal("="), first))), text);
    NamePart(R(RWs, Part(0, Literal("="), first)), text);
    if NameAt(text).Some? {
      var t := NameAt(text).value.1;
      BlanksPart(Part(0, Literal("="), first), t);
      EqualsPart(first, SkipBlanks(t));
      var t1 := SkipEquals(SkipBlanks(t));
      BlanksPart(R(RExpression, values), t1);
      TuplePart(Rule(RExpression), values, SkipBlanks(t1));
      if ExpressionAfterBlanks(t1).Some? {
        var t2 := ExpressionAfterBlanks(t1).value.1;
        TupleMany(WS_COMMA_EXPRESSION, End, t2);
        var (others, rest) := Many(WS_COMMA_EXPRESSION, t2);
        TupleEnd(rest);
        assert others + [] == others;
      }
    }
  }

  lemma KindRead(text: string)
    ensures Line(STATEMENTS, text) == KindAt(text)
  {
    hide Line, JumpAt, ReturnAt, LabelAt, DeclarationAt, AssignmentAt, CommandAt;
    hide RuleBody, RuleTitle, OptionsProgress, RepeatsProgress, Chosen;
    var last := Or(Rule(RCommand), NoOption);
    var short := Or(Rule(RLabel), Or(Rule(RDeclaration), Or(Rule(RAssignment), last)));
    var all := Or(Rule(RCall), Or(Rule(RBranch), Or(Rule(RReturn), short)));
    StatementOptions();
    LineChoice(all, text);
    ChosenOr(Rule(RCall), Or(Rule(RBranch), Or(Rule(RReturn), short)), text);
    ChosenOr(Rule(RBranch), Or(Rule(RReturn), short), text);
    ChosenOr(Rule(RReturn), short, text);
    ChosenOr(Rule(RLabel), short.rest, text);
    ChosenOr(Rule(RDeclaration), Or(Rule(RAssignment), last), text);
    ChosenOr(Rule(RAssignment), last, text);
    ChosenOr(Rule(RCommand), NoOption, text);
    ChosenNone(text);
    JumpRules(text);
    ReturnRead(text);
    LabelRead(text);
    DeclarationRead(text);
    AssignmentRead(text);
    CommandRead(text);
  }

  lemma StatementOptions()
    ensures STATEMENTS.Choice? && OptionsProgress(GRAMMAR, STATEMENTS.options)
  {
    Statements();
    hide OptionsProgress;
    assert RepeatsProgress(GRAMMAR, STATEMENTS);
  }

  lemma JumpRules(text: string)
    ensures Read(RCall, text) == JumpAt("CL", "call", text) && Read(RBranch, text) == JumpAt("BR", "branch", text)
  {
    hide Read, JumpAt;
    JumpRead(RCall, "CL", "call", text);
    JumpRead(RBranch, "BR", "branch", text);
  }

  // ---------- Lines ----------

  lemma EolRead(text: string)
    ensures
      Line(Ignore(EOL), text) ==
      if Starts(text, "\n") then Some(([], text[1..]))
      else if Starts(text, "\r") && Starts(text[1..], "\n") then Some(([], text[2..]))
      else None
  {
    LineTerminal(Ignore(EOL), text);
    var return_ := Piece(Only('\r'), Once, Single(Only('\n'), Once));
    AltMatch(One('\n'), Alt(return_, Never), text);
    AltMatch(return_, Never, text);
    OneMatch('\n', text);
    TwoMatch('\r', '\n', text);
    hide MatchPieces, MatchLength;
    assert MatchLength(Never, text) == None by {
      NeverMatch(text);
    }
  }

  lemma NeverMatch(text: string)
    ensures MatchLength(Never, text) == None
  {
  }

  lemma NewlineRead(text: string)
    ensures Read(RNewline, text) == NewlineAt(text)
  {
    hide Tuple, Line, SkipBlanks, ItemsProgress;
    ReadTuple(RNewline, R(RWs, Part(1, Ignore(EOL), End)), text);
    BlanksPart(Part(1, Ignore(EOL), End), text);
    var t := SkipBlanks(text);
    TuplePart(Ignore(EOL), End, t);
    EolRead(t);
    if Line(Ignore(EOL), t).Some? {
      TupleEnd(Line(Ignore(EOL), t).value.1);
    }
  }

  lemma RemarkMatch(text: string)
    ensures
      MatchPieces(Piece(Only('\''), Once, Single(NotNewline, Any)), text) ==
      if Starts(text, "'") then Some(1 + Run(NotNewline, text[1..])) else None
  {
    hide MatchPieces, Single, Run, Taken;
    PiecesMatch(Only('\''), Once, Single(NotNewline, Any), text);
    TakenOnce('\'', text);
    if text != "" {
      SingleMatch(NotNewline, Any, text[1..]);
      TakenAny(NotNewline, text[1..]);
    }
  }

  // Where a comment ends, if the text starts with one.
  function CommentEnd(text: string): (end: Option<nat>)
    ensures end.Some? ==> 0 < end.value <= |text|
  {
    var n := Run(Blank, text);
    if Starts(text[n..], "'") then Some(n + 1 + Run(NotNewline, text[n + 1..])) else None
  }

  lemma CommentMatch(text: string)
    ensures MatchLength(COMMENT, text) == CommentEnd(text)
  {
    var n := Run(Blank, text);
    var quoted := Piece(Only('\''), Once, Single(NotNewline, Any));
    PlainMatch(Piece(Blank, Any, quoted), text);
    PiecesMatch(Blank, Any, quoted, text);
    hide MatchPieces, MatchLength, Run;
    RemarkMatch(text[n..]);
    if text[n..] != "" {
      assert text[n..][1..] == text[n + 1..];
    }
  }

  lemma CommentLine(text: string)
    ensures
      Line(Match(COMMENT), text) ==
      match CommentEnd(text) case None => None case Some(end) => Some(([Text(text[..end])], text[end..]))
  {
    CommentMatch(text);
    LineTerminal(Match(COMMENT), text);
    hide MatchLength, Line, CommentEnd;
  }

  lemma CommentRead(text: string)
    ensures Read(RComment, text) == CommentAt(text)
  {
    hide Tuple, Line, NewlineAt, ItemsProgress, Run;
    ReadTuple(RComment, Part(1, Match(COMMENT), R(RNewline, End)), text);
    TuplePart(Match(COMMENT), R(RNewline, End), text);
    CommentLine(text);
    if CommentEnd(text).Some? {
      var rest := text[CommentEnd(text).value..];
      LastPart(RNewline, rest);
      NewlineRead(rest);
    }
  }

  lemma LineEndRead(text: string)
    ensures Line(LINE_END, text) == LineEndAt(text)
  {
    hide Line, CommentAt, NewlineAt, OptionsProgress, Chosen;
    var ends := Or(Rule(RComment), Or(Rule(RNewline), NoOption));
    assert OptionsProgress(GRAMMAR, ends) by {
      AbleLastRule(RNewline);
      AbleRule(RComment, Or(Rule(RNewline), NoOption), 2);
      assert Able(ends, 2, true);
    }
    LineChoice(ends, text);
    ChosenOr(Rule(RComment), Or(Rule(RNewline), NoOption), text);
    ChosenOr(Rule(RNewline), NoOption, text);
    ChosenNone(text);
    CommentRead(text);
    NewlineRead(text);
  }

  /** The statement rule: one of the seven kinds, the first that matches, and the end of the line. */
  lemma StatementRead(text: string)
    ensures Read(RStatement, text) == StatementAt(text)
  {
    hide Tuple, Line, KindAt, LineEndAt, ItemsProgress;
    ReadTuple(RStatement, Part(1, STATEMENTS, Part(1, LINE_END, End)), text);
    TuplePart(STATEMENTS, Part(1, LINE_END, End), text);
    KindRead(text);
    if KindAt(text).Some? {
      var t := KindAt(text).value.1;
      TuplePart(LINE_END, End, t);
      LineEndRead(t);
      if LineEndAt(t).Some? {
        TupleEnd(LineEndAt(t).value.1);
        assert LineEndAt(t).value.0 + [] == LineEndAt(t).value.0;
      }
    }
  }
}
