/** Reading back the text the compiler writes for an expression. */
module Reprint {
  import opened Wrappers
  import opened Regexes
  import opened Peg
  import opened Grammar
  import opened Reader
  import opened Descent
  import opened Microcode

  // ---------- Tokens ----------

  lemma {:induction false} RunOfPrefix(k: CharClass, a: string, b: string)
    requires forall i :: 0 <= i < |a| ==> InClass(a[i], k)
    requires b == "" || !InClass(b[0], k)
    ensures Run(k, a + b) == |a| && (a + b)[|a|..] == b && (a + b)[..|a|] == a
  {
    if a != "" {
      assert (a + b)[1..] == a[1..] + b;
      RunOfPrefix(k, a[1..], b);
    } else {
      assert a + b == b;
    }
  }

  lemma NoBlanks(text: string)
    requires text == "" || !IsBlank(text[0])
    ensures SkipBlanks(text) == text
  {
  }

  lemma OneBlank(text: string)
    requires text == "" || !IsBlank(text[0])
    ensures SkipBlanks(" " + text) == text && (" " + text)[1..] == text
  {
    RunOfPrefix(Blank, " ", text);
  }

  // The text after a token: a separator, so the token ends where it was written to end.
  predicate Delimited(text: string) {
    Starts(text, " ,\n")
  }

  // The text after an expression.
  predicate Ended(text: string) {
    Starts(text, ",\n")
  }

  lemma NameReprint(id: string, tail: string)
    requires IsName(id) && Delimited(tail)
    ensures NameAt(id + tail) == Some(([Leaf("name", id)], tail))
  {
    assert (id + tail)[..|id|] == id && (id + tail)[|id|..] == tail;
  }

  lemma NumberReprint(digits: string, tail: string)
    requires IsNumber(digits) && Delimited(tail)
    ensures NumberAt(digits + tail) == Some(([Leaf("number", digits)], tail))
  {
    var text := digits + tail;
    if IsNegative(digits) {
      assert text[1..] == digits[1..] + tail;
      RunOfPrefix(Digit, digits[1..], tail);
    } else {
      assert text[0..] == text;
      RunOfPrefix(Digit, digits, tail);
    }
    assert text[..|digits|] == digits && text[|digits|..] == tail;
  }

  lemma StringReprint(quoted: string, tail: string)
    requires IsQuoted(quoted)
    ensures StringAt(quoted + tail) == Some(([Leaf("string", quoted)], tail))
  {
    var n := |quoted| - 2;
    var body, end := quoted[1..n + 1], "\"" + tail;
    assert (quoted + tail)[1..] == body + end;
    RunOfPrefix(NotQuote, body, end);
    assert (quoted + tail)[..n + 2] == quoted && (quoted + tail)[n + 2..] == tail;
  }

  lemma NotANumber(text: string)
    requires text != "" && text[0] != '-' && !IsDigit(text[0])
    ensures NumberAt(text) == None
  {
    assert text[0..] == text;
  }

  // The first character of an atom tells which kind it is.
  lemma AtomStarts(a: Atom, tail: string)
    requires LexicalAtom(a)
    ensures
      var text := AtomText(a) + tail;
      text != "" &&
      match a
      case Number(_) => text[0] == '-' || IsDigit(text[0])
      case Quoted(_) => text[0] == '"'
      case Name(_) => IsAlpha(text[0])
  {
  }

  lemma AtomReprint(a: Atom, tail: string)
    requires LexicalAtom(a) && Delimited(tail)
    ensures AtomAt(AtomText(a) + tail) == Some(([AtomNode(a)], tail))
  {
    hide NumberAt, NameAt, Read, IsNumber, IsQuoted, IsName, Delimited;
    AtomStarts(a, tail);
    match a
    case Number(digits) => NumberReprint(digits, tail);
    case Quoted(text) => NotANumber(text + tail); StringReprint(text, tail); hide StringAt;
    case Name(id) => NotANumber(id + tail); NameReprint(id, tail); 
  }

  lemma OperatorReprint(op: string, tail: string)
    requires (op in COMPARES || op in MATHS) && Starts(tail, " ")
    ensures OperatorAt(op + tail) == Some(([OperatorNode(op)], tail))
  {
    var text := op + tail;
    assert text[..|op|] == op && text[|op|..] == tail;
    if |op| == 1 {
      assert text[1..] == tail;
    }
  }

  // ---------- Expressions ----------

  // What is written after the atom.
  function Tail(e: Expr, rest: string): string {
    if e.Op? then " " + (e.op + (" " + (Emit(e.operand) + rest))) else rest
  }

  lemma EmitTail(e: Expr, rest: string)
    ensures Emit(e) + rest == UnaryText(e.unary) + (AtomText(e.atom) + Tail(e, rest))
  {
  }

  lemma EmitStarts(e: Expr, rest: string)
    requires Lexical(e)
    ensures Emit(e) + rest != "" && !IsBlank((Emit(e) + rest)[0]) && (Emit(e) + rest)[0] !in ",\n=\r'#"
  {
    AtomStarts(e.atom, "");
    EmitFirst(e);
    hide LexicalAtom, Emit, AtomText;
  }

  // The first character written is the unary operator's, or the atom's.
  lemma EmitFirst(e: Expr)
    requires Lexical(e) && AtomText(e.atom) != ""
    ensures Emit(e) != "" && Emit(e)[0] == if e.unary != "" then e.unary[0] else AtomText(e.atom)[0]
  {
    hide AtomText, LexicalAtom;
  }

  lemma UnaryWritten(unary: string, text: string)
    requires unary in UNARIES && text != "" && !IsBlank(text[0])
    ensures UnaryAt(unary + " " + text) == (UnaryNodes(unary), text)
  {
    assert |unary| == 1;
    assert (unary + " " + text)[1..] == " " + text && (unary + " " + text)[..1] == unary;
    OneBlank(text);
  }

  lemma UnaryAbsent(text: string)
    requires !Starts(text, "!-")
    ensures UnaryAt(text) == ([], text)
  {
  }

  lemma StillNumber(digits: string)
    requires AllDigits(digits)
    ensures IsNumber(digits)
  {
  }

  lemma UnaryTaken(digits: string, tail: string)
    requires IsNumber(digits) && IsNegative(digits)
    ensures UnaryAt(digits + tail) == (UnaryNodes("-"), digits[1..] + tail) && IsNumber(digits[1..])
  {
    var text := digits[1..] + tail;
    assert AllDigits(digits[1..]) && text[0] == digits[1] && IsDigit(text[0]);
    assert (digits + tail)[1..] == text && (digits + tail)[..1] == "-";
    NoBlanks(text);
    hide Run, SkipBlanks, IsNumber;
    assert !IsNegative(digits[1..]);
    assert IsNumber(digits[1..]) by {
      StillNumber(digits[1..]);
    }
  }

  // After the optional unary operator, what is left starts with the atom.
  lemma UnaryReprint(e: Expr, tail: string)
    requires Lexical(e)
    ensures
      var n := Normalize(e);
      UnaryAt(UnaryText(e.unary) + (AtomText(e.atom) + tail)) == (UnaryNodes(n.unary), AtomText(n.atom) + tail)
      && LexicalAtom(n.atom)
  {
    var text := AtomText(e.atom) + tail;
    AtomStarts(e.atom, tail);
    hide UnaryAt, LexicalAtom;
    if e.unary != "" {
      UnaryWritten(e.unary, text);
      assert UnaryText(e.unary) + text == e.unary + " " + text;
    } else {
      assert UnaryText(e.unary) + text == text;
      if e.atom.Number? && IsNegative(e.atom.digits) {
        NegativeAtom(e.atom);
        UnaryTaken(e.atom.digits, tail);
      } else {
        assert !Starts(text, "!-");
        UnaryAbsent(text);
      }
    }
  }

  lemma NegativeAtom(a: Atom)
    requires LexicalAtom(a) && a.Number? && IsNegative(a.digits)
    ensures IsNumber(a.digits) && LexicalAtom(Number(a.digits[1..]))
  {
  }

  lemma EndsOperation(rest: string)
    requires Ended(rest)
    ensures OperatorAt(rest) == None
  {
  }

  lemma NothingReprint(rest: string)
    requires Ended(rest)
    ensures OperationAt(SkipBlanks(rest)) == ([], rest)
  {
    NoBlanks(rest);
    EndsOperation(rest);
  }

  /** Reading back the text of an expression gives the expression with every bare negative number
      turned into a minus and a number; nothing of what follows is read. */
  lemma {:induction false} ExpressionReprint(e: Expr, rest: string)
    requires Lexical(e) && Ended(rest)
    ensures Read(RExpression, Emit(e) + rest) == Some(([ExprNode(Normalize(e))], rest))
    decreases e
  {
    hide AtomAt, UnaryAt, OperatorAt, Read, Emit, Lexical, AtomText, SkipBlanks, OperationAt, LexicalAtom, UnaryText;
    var tail := Tail(e, rest);
    EmitTail(e, rest);
    ExpressionRead(Emit(e) + rest);
    UnaryReprint(e, tail);
    AtomReprint(Normalize(e).atom, tail);
    if e.Op? {
      OperandReprint(e, rest);
    } else {
      NothingReprint(rest);
    }
  }

  // An operator, a blank, and the text of its operand.
  lemma {:induction false} OperandReprint(e: Expr, rest: string)
    requires e.Op? && Lexical(e) && Ended(rest)
    ensures
      OperationAt(SkipBlanks(Tail(e, rest))) == ([OperatorNode(e.op), ExprNode(Normalize(e.operand))], rest)
    decreases e, 0
  {
    hide AtomAt, UnaryAt, OperatorAt, Read, Emit, Lexical, SkipBlanks, Normalize;
    var operand := Emit(e.operand) + rest;
    LexicalOperation(e);
    EmitStarts(e.operand, rest);
    OperatorStarts(e.op, " " + operand);
    OneBlank(e.op + (" " + operand));
    OneBlank(operand);
    OperatorReprint(e.op, " " + operand);
    ExpressionReprint(e.operand, rest);
    assert [OperatorNode(e.op)] + [ExprNode(Normalize(e.operand))]
        == [OperatorNode(e.op), ExprNode(Normalize(e.operand))];
  }

  lemma LexicalOperation(e: Expr)
    requires e.Op? && Lexical(e)
    ensures Lexical(e.operand) && (e.op in COMPARES || e.op in MATHS)
  {
  }

  lemma OperatorStarts(op: string, tail: string)
    requires op in COMPARES || op in MATHS
    ensures op + tail != "" && !IsBlank((op + tail)[0])
  {
  }
}
