/**
 The other direction: every tree the grammar can produce is the tree of a statement, and its
 text reads back to it, unless it assigns to RT, or to CL or BR an expression that starts with
 a name.
 */
module ParseResults {
  import opened Wrappers
  import opened Regexes
  import opened Peg
  import opened Grammar
  import opened Reader
  import opened Descent
  import opened StatementReader
  import opened Microcode
  import opened Reprint
  import opened PrintParse

  // Without `$` there is no configuration variable.
  predicate Fixed(text: string) {
    '$' !in text
  }

  lemma FixedSuffix(text: string, n: nat)
    requires Fixed(text) && n <= |text|
    ensures Fixed(text[n..])
  {
  }

  lemma FixedBlanks(text: string)
    requires Fixed(text)
    ensures Fixed(SkipBlanks(text)) && |SkipBlanks(text)| <= |text|
  {
    FixedSuffix(text, Run(Blank, text));
  }

  // ---------- Tokens ----------

  lemma NameParsed(text: string) returns (id: string)
    requires NameAt(text).Some?
    ensures IsName(id) && |id| <= |text| && NameAt(text) == Some(([Leaf("name", id)], text[|id|..]))
  {
    id := text[..if |text| > 1 && IsWord(text[1]) then 2 else 1];
  }

  lemma NumberParsed(text: string) returns (digits: string)
    requires NumberAt(text).Some?
    ensures IsNumber(digits) && |digits| <= |text|
    ensures NumberAt(text) == Some(([Leaf("number", digits)], text[|digits|..]))
    ensures IsNegative(digits) ==> Starts(text, "-")
  {
    var sign := if Starts(text, "-") then 1 else 0;
    var n := Run(Digit, text[sign..]);
    digits := text[..sign + n];
    assert forall i :: 0 <= i < n ==> digits[sign + i] == text[sign..][i] && IsDigit(text[sign..][i]);
    assert (if IsNegative(digits) then digits[1..] else digits) == digits[sign..];
  }

  lemma StringParsed(text: string) returns (quoted: string)
    requires StringAt(text).Some?
    ensures IsQuoted(quoted) && |quoted| <= |text|
    ensures StringAt(text) == Some(([Leaf("string", quoted)], text[|quoted|..]))
  {
    var n := Run(NotQuote, text[1..]);
    quoted := text[..n + 2];
    assert text[1..][n] == text[n + 1] == '"';
    assert forall i :: 1 <= i < n + 1 ==> quoted[i] == text[1..][i - 1] && InClass(text[1..][i - 1], NotQuote);
  }

  lemma AtomParsed(text: string) returns (a: Atom)
    requires Fixed(text) && AtomAt(text).Some?
    ensures LexicalAtom(a) && |AtomText(a)| <= |text|
    ensures AtomAt(text) == Some(([AtomNode(a)], text[|AtomText(a)|..]))
    ensures a.Number? && IsNegative(a.digits) ==> Starts(text, "-")
  {
    ConfigRead(text) by {
      assert !Starts(text, "$");
    }
    hide NumberAt, StringAt, NameAt, Read, IsName, IsNumber, IsQuoted;
    if NumberAt(text).Some? {
      var digits := NumberParsed(text);
      a := Number(digits);
    } else if StringAt(text).Some? {
      var quoted := StringParsed(text);
      a := Quoted(quoted);
    } else {
      var id := NameParsed(text);
      a := Name(id);
    }
  }

  lemma OperatorParsed(text: string) returns (op: string)
    requires OperatorAt(text).Some?
    ensures (op in COMPARES || op in MATHS) && |op| <= |text|
    ensures OperatorAt(text) == Some(([OperatorNode(op)], text[|op|..]))
  {
    if CompareAt(text).Some? {
      op := text[..if CharTwo(text) then 2 else 1];
      CompareTexts(text);
    } else {
      op := text[..1];
      MathTexts(text);
    }
  }

  predicate CharTwo(text: string) {
    (Starts(text, "<") && Starts(text[1..], ">=")) || (Starts(text, ">") && Starts(text[1..], "="))
  }

  lemma CompareTexts(text: string)
    requires CompareAt(text).Some?
    ensures CharTwo(text) ==> |text| >= 2 && text[..2] in COMPARES
    ensures !CharTwo(text) ==> text != "" && text[..1] in COMPARES
  {
    if CharTwo(text) {
      assert text[..2] == [text[0], text[1]];
    } else {
      assert text[..1] == [text[0]];
    }
  }

  lemma MathTexts(text: string)
    requires CompareAt(text).None? && CharAt("math", "+*/&|^-", text).Some?
    ensures text != "" && text[..1] in MATHS && text[..1] !in COMPARES
  {
    assert text[..1] == [text[0]];
  }

  // ---------- Expressions ----------

  lemma UnaryParsed(text: string) returns (unary: string)
    requires Fixed(text)
    ensures unary == "" || unary in UNARIES
    ensures UnaryAt(text).0 == UnaryNodes(unary) && Fixed(UnaryAt(text).1) && |UnaryAt(text).1| <= |text|
    ensures unary == "" ==> UnaryAt(text).1 == text && !Starts(text, "-")
  {
    if Starts(text, "!-") {
      unary := text[..1];
      assert unary == [text[0]];
      FixedSuffix(text, 1);
      FixedBlanks(text[1..]);
    } else {
      unary := "";
    }
  }

  /** Every expression the grammar reads is the tree of a well-formed expression in which no bare
      number is negative. */
  lemma {:induction false} ExpressionParsed(text: string) returns (e: Expr)
    requires Fixed(text) && Read(RExpression, text).Some?
    ensures Lexical(e) && Normal(e)
    ensures Read(RExpression, text).value.0 == [ExprNode(e)]
    ensures Fixed(Read(RExpression, text).value.1) && |Read(RExpression, text).value.1| <= |text|
    decreases |text|
  {
    hide Read, UnaryAt, AtomAt, OperationAt, Fixed, SkipBlanks, LexicalAtom, UNARIES;
    ExpressionRead(text);
    var unary := UnaryParsed(text);
    var t := UnaryAt(text).1;
    var atom := AtomParsed(t);
    var n := |AtomText(atom)|;
    FixedSuffix(t, n);
    FixedBlanks(t[n..]);
    AtomNotEmpty(atom);
    var found, op, operand := OperationParsed(SkipBlanks(t[n..]), |text|);
    if found {
      e := Op(unary, atom, op, operand);
    } else {
      e := Last(unary, atom);
    }
  }

  lemma AtomNotEmpty(a: Atom)
    requires LexicalAtom(a)
    ensures AtomText(a) != ""
  {
  }

  lemma {:induction false} OperationParsed(text: string, bound: nat) returns (found: bool, op: string, operand: Expr)
    requires Fixed(text) && |text| < bound
    ensures Fixed(OperationAt(text).1) && |OperationAt(text).1| <= |text|
    ensures !found ==> OperationAt(text).0 == []
    ensures found ==>
              && (op in COMPARES || op in MATHS) && Lexical(operand) && Normal(operand)
              && OperationAt(text).0 == [OperatorNode(op), ExprNode(operand)]
    decreases bound, 0
  {
    hide Read, Fixed, SkipBlanks, OperatorAt, COMPARES, MATHS, ExprNode, Lexical, Normal;
    found, op, operand := false, "", Last("", Name("A"));
    if OperatorAt(text).Some? {
      op := OperatorParsed(text);
      var t := text[|op|..];
      FixedSuffix(text, |op|);
      FixedBlanks(t);
      if ExpressionAfterBlanks(t).Some? {
        found := true;
        operand := ExpressionParsed(SkipBlanks(t));
        assert [OperatorNode(op)] + [ExprNode(operand)] == [OperatorNode(op), ExprNode(operand)];
      }
    }
  }

  // ---------- Statements ----------

  // An assignment whose text is not read as an assignment.
  predicate Misread(s: Statement) {
    s.Assign? && (s.target == "RT" || (s.target in {"CL", "BR"} && StartsWithName(s.first)))
  }

  // What a kind of statement leaves for the rest of the line.
  predicate Leaves(parsed: Parsed, s: Statement) {
    parsed.Some? && parsed.value.0 == [KindNode(s)]
  }

  lemma FixedName(text: string) returns (id: string)
    requires Fixed(text) && NameAt(text).Some?
    ensures IsName(id) && NameAt(text).value.0 == [Leaf("name", id)] && Fixed(NameAt(text).value.1)
  {
    id := NameParsed(text);
    FixedSuffix(text, |id|);
  }

  lemma FixedWord(word: string, text: string)
    requires Fixed(text) && AfterWord(word, text).Some?
    ensures Fixed(AfterWord(word, text).value)
  {
    FixedSuffix(text, Run(Word, text));
  }

  lemma FixedExpression(text: string) returns (e: Expr)
    requires Fixed(text) && ExpressionAfterBlanks(text).Some?
    ensures Lexical(e) && Normal(e) && ExpressionAfterBlanks(text).value.0 == [ExprNode(e)]
    ensures Fixed(ExpressionAfterBlanks(text).value.1)
  {
    FixedBlanks(text);
    e := ExpressionParsed(SkipBlanks(text));
  }

  lemma OptionParsed(text: string) returns (comma: Option<Expr>, initial: Option<Expr>)
    requires Fixed(text)
    ensures LexicalOption(comma) && (comma.Some? ==> Normal(comma.value)) && CommaAt(text).0 == OptionNodes(comma)
    ensures LexicalOption(initial) && (initial.Some? ==> Normal(initial.value))
    ensures InitialAt(text).0 == OptionNodes(initial)
  {
    hide ExpressionAfterBlanks, Lexical, Normal, ExprNode, SkipBlanks, Fixed;
    comma, initial := None, None;
    if Starts(text, ",") && ExpressionAfterBlanks(text[1..]).Some? {
      FixedSuffix(text, 1);
      var e := FixedExpression(text[1..]);
      comma := Some(e);
    }
    FixedBlanks(text);
    var t := SkipBlanks(text);
    if Starts(t, "=") && ExpressionAfterBlanks(t[1..]).Some? {
      FixedSuffix(t, 1);
      var e := FixedExpression(t[1..]);
      initial := Some(e);
    }
  }

  lemma WordAndNameParsed(word: string, text: string) returns (id: string)
    requires Fixed(text) && WordAndName(word, text).Some?
    ensures IsName(id) && WordAndName(word, text).value.0 == [Leaf("name", id)]
    ensures Fixed(WordAndName(word, text).value.1)
  {
    hide AfterWord, SkipBlanks, NameAt, Fixed, IsName;
    FixedWord(word, text);
    FixedBlanks(AfterWord(word, text).value);
    id := FixedName(AfterBlanks1(AfterWord(word, text).value).value);
  }

  lemma JumpParsed(kind: Jump, text: string) returns (s: Statement)
    requires Fixed(text) && JumpAt(Opcode(kind), if kind.Calling? then "call" else "branch", text).Some?
    ensures LexicalStatement(s) && Stable(s)
    ensures Leaves(JumpAt(Opcode(kind), if kind.Calling? then "call" else "branch", text), s)
  {
    hide WordAndName, SkipBlanks, CommaAt, Fixed, IsName, Lexical, Normal;
    var place := WordAndNameParsed(Opcode(kind), text);
    var t := WordAndName(Opcode(kind), text).value.1;
    FixedBlanks(t);
    var arg, _ := OptionParsed(SkipBlanks(t));
    s := Jumping(kind, place, arg);
  }

  lemma DeclarationParsed(text: string) returns (s: Statement)
    requires Fixed(text) && DeclarationAt(text).Some?
    ensures LexicalStatement(s) && Stable(s) && Leaves(DeclarationAt(text), s)
  {
    hide AfterWord, SkipBlanks, NameAt, InitialAt, Fixed, IsName, Lexical, Normal;
    FixedWord("VA", text);
    FixedBlanks(AfterWord("VA", text).value);
    var t := SkipBlanks(AfterWord("VA", text).value);
    var id := FixedName(t);
    var _, value := OptionParsed(NameAt(t).value.1);
    s := Declare(id, value);
  }

  lemma {:induction false} ManyParsed(text: string) returns (es: seq<Expr>)
    requires Fixed(text)
    ensures Many(WS_COMMA_EXPRESSION, text).0 == ExprNodes(es)
    ensures forall i :: 0 <= i < |es| ==> Lexical(es[i]) && Normal(es[i])
    decreases |text|
  {
    hide Line, Many, SkipBlanks, Fixed, Lexical, Normal, ExprNode, ExpressionAfterBlanks, Consumes, RepeatsProgress;
    CommaGood();
    ManyStep(WS_COMMA_EXPRESSION, text);
    CommaLine(text);
    es := [];
    var t := SkipBlanks(text);
    if Starts(t, ",") && ExpressionAfterBlanks(t[1..]).Some? {
      FixedBlanks(text);
      FixedSuffix(t, 1);
      var e := FixedExpression(t[1..]);
      var more := ManyParsed(ExpressionAfterBlanks(t[1..]).value.1);
      es := [e] + more;
      assert es[0] == e && es[1..] == more;
    }
  }

  lemma AssignmentParsed(text: string) returns (s: Statement)
    requires Fixed(text) && AssignmentAt(text).Some?
    ensures LexicalStatement(s) && (Stable(s) || Misread(s)) && Leaves(AssignmentAt(text), s)
  {
    hide SkipBlanks, NameAt, Fixed, IsName, Lexical, Normal, Many, ExpressionAfterBlanks, ExprNode, ExprNodes;
    var target := FixedName(text);
    var t := NameAt(text).value.1;
    FixedBlanks(t);
    var t1 := SkipEquals(SkipBlanks(t));
    if Starts(SkipBlanks(t), "=") {
      FixedSuffix(SkipBlanks(t), 1);
    }
    var first := FixedExpression(t1);
    var others := ManyParsed(ExpressionAfterBlanks(t1).value.1);
    s := Assign(target, first, others);
    assert [Leaf("name", target)] + ([ExprNode(first)] + ExprNodes(others))
        == [Leaf("name", target), ExprNode(first)] + ExprNodes(others);
  }

  lemma CommandParsed(text: string) returns (word: string)
    requires CommandAt(text).Some?
    ensures word in BARE && |word| <= |text| && text[..|word|] == word
    ensures CommandAt(text) == Some(([Leaf("command", word)], text[|word|..]))
  {
    if |text| >= 2 && (text[..2] == "PG" || text[..2] == "RT") {
      word := text[..2];
    } else {
      word := text[..1];
      assert word == [text[0]];
    }
  }

  // RT at the end of a line is a return, not a command.
  lemma NotACommand(text: string)
    requires |text| >= 2 && text[..2] == "RT" && LineEndAt(text[2..]).Some?
    ensures ReturnAt(text).Some?
  {
    var tail := text[2..];
    assert text == "RT" + tail;
    if tail == "" || IsWord(tail[0]) {
      LineEndChars(tail);
    }
    WordRun("RT", tail);
    hide AfterWord;
  }

  lemma LineEndChars(text: string)
    requires text == "" || IsWord(text[0])
    ensures LineEndAt(text) == None
  {
    assert text[0..] == text;
    if text != "" {
      NotTheEnd(text);
    }
  }

  /** Every statement the grammar reads has a tree of this model, followed by the comment on its line
      if there is one; its text reads back to it or it is an assignment that is misread. */
  lemma StatementParsed(text: string) returns (s: Statement)
    requires Fixed(text) && Read(RStatement, text).Some?
    ensures LexicalStatement(s) && (Stable(s) || Misread(s))
    ensures
      var kind := KindAt(text);
      Leaves(kind, s) && LineEndAt(kind.value.1).Some? &&
      Read(RStatement, text).value ==
        ([Symbol("statement", [KindNode(s)] + LineEndAt(kind.value.1).value.0)], LineEndAt(kind.value.1).value.1)
  {
    hide JumpAt, LabelAt, ReturnAt, DeclarationAt, AssignmentAt, CommandAt, LineEndAt, Read, Fixed, IsName, BARE;
    StatementRead(text);
    if JumpAt("CL", "call", text).Some? {
      s := JumpParsed(Calling, text);
    } else if JumpAt("BR", "branch", text).Some? {
      s := JumpParsed(Branching, text);
    } else if ReturnAt(text).Some? {
      s := Return;
      ReturnLeaves(text);
    } else if LabelAt(text).Some? {
      s := LabelParsed(text);
    } else if DeclarationAt(text).Some? {
      s := DeclarationParsed(text);
    } else if AssignmentAt(text).Some? {
      s := AssignmentParsed(text);
    } else {
      var word := CommandParsed(text);
      s := Command(word);
      if word == "RT" {
        NotACommand(text);
      }
    }
  }

  lemma ReturnLeaves(text: string)
    requires ReturnAt(text).Some?
    ensures Leaves(ReturnAt(text), Return)
  {
  }

  lemma LabelParsed(text: string) returns (s: Statement)
    requires Fixed(text) && LabelAt(text).Some?
    ensures LexicalStatement(s) && Stable(s) && Leaves(LabelAt(text), s)
  {
    hide WordAndName, Fixed, IsName;
    var id := WordAndNameParsed("LB", text);
    s := Label(id);
  }
}
