/**
 Every rule of the microcode grammar as a recursive-descent reader, and the proof that
 the pattern engine computes exactly these readers.
 */
module Descent {
  import opened Wrappers
  import opened Regexes
  import opened Peg
  import opened Grammar
  import opened Reader

  // ---------- Tokens ----------

  predicate Starts(text: string, cs: string) {
    text != "" && text[0] in cs
  }

  function SkipBlanks(text: string): (rest: string)
    ensures rest == "" || !IsBlank(rest[0])
  {
    text[Run(Blank, text)..]
  }

  function NameAt(text: string): Parsed {
    if text != "" && IsAlpha(text[0]) then
      var n := if |text| > 1 && IsWord(text[1]) then 2 else 1;
      Some(([Leaf("name", text[..n])], text[n..]))
    else None
  }

  function NumberAt(text: string): Parsed {
    var sign := if Starts(text, "-") then 1 else 0;
    var n := Run(Digit, text[sign..]);
    if n > 0 then Some(([Leaf("number", text[..sign + n])], text[sign + n..])) else None
  }

  function StringAt(text: string): Parsed {
    if Starts(text, "\"") then
      var n := Run(NotQuote, text[1..]);
      if 1 + n < |text| then Some(([Leaf("string", text[..n + 2])], text[n + 2..])) else None
    else None
  }

  function CharAt(title: string, cs: string, text: string): Parsed {
    if Starts(text, cs) then Some(([Leaf(title, text[..1])], text[1..])) else None
  }

  function CompareAt(text: string): Parsed {
    if (Starts(text, "<") && Starts(text[1..], ">=")) || (Starts(text, ">") && Starts(text[1..], "=")) then
      Some(([Leaf("compare", text[..2])], text[2..]))
    else CharAt("compare", "<>=", text)
  }

  function CommandAt(text: string): Parsed {
    if |text| >= 2 && (text[..2] == "PG" || text[..2] == "RT") then Some(([Leaf("command", text[..2])], text[2..]))
    else CharAt("command", "ESH", text)
  }

  // What follows a keyword.
  function AfterWord(word: string, text: string): Option<string> {
    var n := Run(Word, text);
    if n > 0 && text[..n] == word then Some(text[n..]) else None
  }

  function AfterBlanks1(text: string): Option<string> {
    if text != "" && IsBlank(text[0]) then Some(SkipBlanks(text)) else None
  }

  function NewlineAt(text: string): Parsed {
    var t := SkipBlanks(text);
    if Starts(t, "\n") then Some(([], t[1..]))
    else if Starts(t, "\r") && Starts(t[1..], "\n") then Some(([], t[2..]))
    else None
  }

  function CommentAt(text: string): Parsed {
    var n := Run(Blank, text);
    if Starts(text[n..], "'") then
      var end := n + 1 + Run(NotNewline, text[n + 1..]);
      Titled(Some("comment"), After([Text(text[..end])], NewlineAt(text[end..])))
    else None
  }

  // ---------- Expressions ----------

  function UnaryAt(text: string): (seq<Node>, string) {
    if Starts(text, "!-") then ([Leaf("unary", text[..1])], SkipBlanks(text[1..])) else ([], text)
  }

  function AtomAt(text: string): Parsed {
    Titled(Some("atom"),
           Else(Titled(Some("literal"), Else(NumberAt(text), StringAt(text))),
                Else(NameAt(text), Read(RConfigVar, text))))
  }

  function OperatorAt(text: string): Parsed {
    Else(CompareAt(text), CharAt("math", "+*/&|^-", text))
  }

  function ExpressionAfterBlanks(text: string): Parsed {
    Read(RExpression, SkipBlanks(text))
  }

  // An operator and its operand; nothing when there is no operator or no operand.
  function OperationAt(text: string): (seq<Node>, string) {
    match OperatorAt(text)
    case None => ([], text)
    case Some((op, t)) =>
      match After(op, ExpressionAfterBlanks(t))
      case None => ([], text)
      case Some(done) => done
  }

  function ExpressionAt(text: string): Parsed {
    var (unary, t) := UnaryAt(text);
    match AtomAt(t)
    case None => None
    case Some((atom, t')) =>
      var (operation, rest) := OperationAt(SkipBlanks(t'));
      Some(([Symbol("expression", unary + atom + operation)], rest))
  }

  // ---------- The tokens are what the engine reads ----------

  // What a titled regular expression reads.
  function Token(title: string, re: Regex, text: string): Parsed {
    match MatchLength(re, text)
    case None => None
    case Some(n) => Some(([Leaf(title, text[..n])], text[n..]))
  }

  lemma TokenRead(n: RuleName, re: Regex, title: string, text: string)
    requires RuleBody(n) == Match(re) && RuleTitle(n) == Some(title) && RegexConsumes(re)
    ensures Read(n, text) == Token(title, re, text)
  {
    hide RuleBody, RuleTitle, RegexConsumes, MatchLength;
    ReadTerminal(n, text);
    RegexSound(re, text);
  }

  lemma PlainMatch(ps: Pieces, text: string)
    ensures MatchLength(Plain(ps), text) == MatchPieces(ps, text)
  {
  }

  lemma SingleMatch(k: CharClass, count: Count, text: string)
    ensures MatchPieces(Single(k, count), text) == Taken(k, count, text)
  {
  }

  lemma PiecesMatch(k: CharClass, count: Count, more: Pieces, text: string)
    ensures
      MatchPieces(Piece(k, count, more), text) ==
      (match Taken(k, count, text)
       case None => None
       case Some(n) =>
         match MatchPieces(more, text[n..])
         case None => None
         case Some(m) => Some(n + m))
  {
  }

  lemma BlanksRead(text: string)
    ensures Read(RWs, text) == Some(([], SkipBlanks(text)))
  {
    ReadTerminal(RWs, text);
    PlainMatch(Single(Blank, Any), text);
    SingleMatch(Blank, Any, text);
  }

  lemma Blanks1Read(text: string)
    ensures Read(RWs1, text) == match AfterBlanks1(text) case None => None case Some(t) => Some(([], t))
  {
    ReadTerminal(RWs1, text);
    PlainMatch(Single(Blank, AtLeastOnce), text);
    SingleMatch(Blank, AtLeastOnce, text);
  }

  /** Any spaces and tabs may stand where the grammar allows white space, and at least one where it asks for it. */
  lemma BlanksAreSkipped(blanks: string, text: string)
    requires forall i :: 0 <= i < |blanks| ==> blanks[i] in " \t"
    requires text != "" ==> text[0] !in " \t"
    ensures Read(RWs, blanks + text) == Some(([], text))
    ensures Read(RWs1, blanks + text) == if blanks == "" then None else Some(([], text))
  {
    var all := blanks + text;
    BlanksRead(all);
    Blanks1Read(all);
    var n := Run(Blank, all);
    assert blanks != "" ==> all[0] == blanks[0];
    assert forall i :: 0 <= i < |blanks| ==> all[i] == blanks[i];
    assert text != "" ==> all[|blanks|] == text[0];
    assert n == |blanks|;
    assert all[|blanks|..] == text;
  }

  lemma NameMatch(text: string)
    ensures
      MatchLength(NAME, text) ==
      if text != "" && IsAlpha(text[0]) then Some(if |text| > 1 && IsWord(text[1]) then 2 else 1) else None
  {
    PlainMatch(Piece(Alpha, Once, Single(Word, AtMostOnce)), text);
    PiecesMatch(Alpha, Once, Single(Word, AtMostOnce), text);
    if text != "" {
      SingleMatch(Word, AtMostOnce, text[1..]);
    }
  }

  lemma NameRead(text: string)
    ensures Read(RName, text) == NameAt(text)
  {
    TokenRead(RName, NAME, "name", text);
    NameMatch(text);
    hide MatchLength, RuleBody, RuleTitle, Read;
  }

  lemma NumberRead(text: string)
    ensures Read(RNumber, text) == NumberAt(text)
  {
    TokenRead(RNumber, NUMBER, "number", text);
    PlainMatch(Piece(Only('-'), AtMostOnce, Single(Digit, AtLeastOnce)), text);
    PiecesMatch(Only('-'), AtMostOnce, Single(Digit, AtLeastOnce), text);
    SingleMatch(Digit, AtLeastOnce, text[if Starts(text, "-") then 1 else 0..]);
  }

  // A run is empty exactly when it cannot start.
  lemma RunStarts(k: CharClass, text: string)
    ensures Run(k, text) >= 1 <==> text != "" && InClass(text[0], k)
  {
  }

  lemma TakenOnce(a: char, text: string)
    ensures Taken(Only(a), Once, text) == if text != "" && text[0] == a then Some(1) else None
  {
    RunStarts(Only(a), text);
    hide Run;
  }

  lemma OneMatch(a: char, text: string)
    ensures MatchPieces(One(a), text) == if text != "" && text[0] == a then Some(1) else None
  {
    SingleMatch(Only(a), Once, text);
    TakenOnce(a, text);
    hide MatchPieces, Taken;
  }

  // Everything but quotes ends at a quote, or with the text.
  lemma QuoteEnds(text: string)
    ensures Run(NotQuote, text) < |text| ==> text[Run(NotQuote, text)] == '"'
  {
    hide Run;
  }

  lemma TakenAny(k: CharClass, text: string)
    ensures Taken(k, Any, text) == Some(Run(k, text))
  {
  }

  lemma QuotedTail(text: string)
    ensures
      MatchPieces(Piece(NotQuote, Any, One('"')), text) ==
      if Run(NotQuote, text) < |text| then Some(Run(NotQuote, text) + 1) else None
  {
    hide MatchPieces, One, Taken, Run;
    PiecesMatch(NotQuote, Any, One('"'), text);
    TakenAny(NotQuote, text);
    QuoteEnds(text);
    var tail := text[Run(NotQuote, text)..];
    OneMatch('"', tail);
  }

  lemma StringMatch(text: string)
    ensures
      MatchLength(STRING, text) ==
      if Starts(text, "\"") && 1 + Run(NotQuote, text[1..]) < |text| then Some(Run(NotQuote, text[1..]) + 2) else None
  {
    var body := Piece(NotQuote, Any, One('"'));
    PlainMatch(Piece(Only('"'), Once, body), text);
    PiecesMatch(Only('"'), Once, body, text);
    hide MatchPieces, MatchLength;
    if text != "" {
      QuotedTail(text[1..]);
    }
  }

  lemma StringRead(text: string)
    ensures Read(RString, text) == StringAt(text)
  {
    TokenRead(RString, STRING, "string", text);
    StringMatch(text);
    hide MatchLength, RuleBody, RuleTitle, Read, Run;
  }

  lemma CharRead(n: RuleName, title: string, cs: string, text: string)
    requires RuleBody(n) == Match(Plain(Single(AnyOf(cs), Once))) && RuleTitle(n) == Some(title)
    ensures Read(n, text) == CharAt(title, cs, text)
  {
    hide RuleBody, RuleTitle;
    var ps := Single(AnyOf(cs), Once);
    TokenRead(n, Plain(ps), title, text);
    PlainMatch(ps, text);
    SingleMatch(AnyOf(cs), Once, text);
  }

  lemma AltMatch(ps: Pieces, others: Regex, text: string)
    ensures
      MatchLength(Alt(ps, others), text) ==
      if MatchPieces(ps, text).Some? then MatchPieces(ps, text) else MatchLength(others, text)
  {
  }

  lemma TwoMatch(a: char, b: char, text: string)
    ensures
      MatchPieces(Two(a, b), text) ==
      if |text| >= 2 && text[0] == a && text[1] == b then Some(2) else None
  {
    PiecesMatch(Only(a), Once, One(b), text);
    if text != "" {
      OneMatch(b, text[1..]);
    }
  }

  lemma CompareMatch(text: string)
    ensures
      MatchLength(COMPARE, text) ==
      if (Starts(text, "<") && Starts(text[1..], ">=")) || (Starts(text, ">") && Starts(text[1..], "=")) then Some(2)
      else if Starts(text, "<>=") then Some(1)
      else None
  {
    hide MatchPieces, RegexConsumes;
    OneMatch('<', text);
    OneMatch('>', text);
    OneMatch('=', text);
    TwoMatch('<', '>', text);
    TwoMatch('<', '=', text);
    TwoMatch('>', '=', text);
    hide One, Two;
    var single := Alt(One('<'), Alt(One('>'), Alt(One('='), Never)));
    AltMatch(One('='), Never, text);
    AltMatch(One('>'), Alt(One('='), Never), text);
    AltMatch(One('<'), Alt(One('>'), Alt(One('='), Never)), text);
    AltMatch(Two('>', '='), single, text);
    AltMatch(Two('<', '='), Alt(Two('>', '='), single), text);
    AltMatch(Two('<', '>'), Alt(Two('<', '='), Alt(Two('>', '='), single)), text);
  }

  lemma CompareRead(text: string)
    ensures Read(RCompare, text) == CompareAt(text)
  {
    TokenRead(RCompare, COMPARE, "compare", text);
    CompareMatch(text);
    hide MatchLength, RuleBody, RuleTitle, Read;
  }

  lemma CommandMatch(text: string)
    ensures
      MatchLength(COMMAND, text) ==
      if Starts(text, "ESH") then Some(1)
      else if |text| >= 2 && (text[..2] == "PG" || text[..2] == "RT") then Some(2)
      else None
  {
    hide MatchPieces, RegexConsumes;
    OneMatch('E', text);
    OneMatch('S', text);
    OneMatch('H', text);
    TwoMatch('P', 'G', text);
    TwoMatch('R', 'T', text);
    hide One, Two;
    var double := Alt(Two('P', 'G'), Alt(Two('R', 'T'), Never));
    AltMatch(Two('R', 'T'), Never, text);
    AltMatch(Two('P', 'G'), Alt(Two('R', 'T'), Never), text);
    AltMatch(One('H'), double, text);
    AltMatch(One('S'), Alt(One('H'), double), text);
    AltMatch(One('E'), Alt(One('S'), Alt(One('H'), double)), text);
  }

  lemma CommandRead(text: string)
    ensures Read(RCommand, text) == CommandAt(text)
  {
    TokenRead(RCommand, COMMAND, "command", text);
    CommandMatch(text);
    hide MatchLength, RuleBody, RuleTitle, Read;
  }

  lemma WordLine(word: string, text: string)
    ensures Line(Keyword(word), text) == match AfterWord(word, text) case None => None case Some(t) => Some(([], t))
  {
    LineTerminal(Keyword(word), text);
  }

  lemma CharLine(c: char, text: string)
    ensures Line(Literal([c]), text) == if Starts(text, [c]) then Some(([], text[1..])) else None
  {
    LineTerminal(Literal([c]), text);
  }

  // ---------- Expressions are what the engine reads ----------

  lemma AtomRead(text: string)
    ensures Read(RAtom, text) == AtomAt(text)
  {
    hide Chosen, Line, NumberAt, StringAt, NameAt;
    var literals := Or(Rule(RNumber), Or(Rule(RString), NoOption));
    ReadChoice(RLiteral, literals, text);
    ChosenOr(Rule(RNumber), Or(Rule(RString), NoOption), text);
    ChosenOr(Rule(RString), NoOption, text);
    ChosenNone(text);
    NumberRead(text);
    StringRead(text);
    var names := Or(Rule(RName), Or(Rule(RConfigVar), NoOption));
    ReadChoice(RAtom, Or(Rule(RLiteral), names), text);
    ChosenOr(Rule(RLiteral), names, text);
    ChosenOr(Rule(RName), Or(Rule(RConfigVar), NoOption), text);
    ChosenOr(Rule(RConfigVar), NoOption, text);
    NameRead(text);
  }

  lemma OperatorRead(text: string)
    ensures Line(OPERATOR, text) == OperatorAt(text)
  {
    hide Chosen, Line, CompareAt, CharAt;
    var ops := Or(Rule(RCompare), Or(Rule(RMath), NoOption));
    assert OptionsProgress(GRAMMAR, ops) by {
      AbleLastRule(RMath);
      AbleRule(RCompare, Or(Rule(RMath), NoOption), 1);
    }
    LineChoice(ops, text);
    ChosenOr(Rule(RCompare), Or(Rule(RMath), NoOption), text);
    ChosenOr(Rule(RMath), NoOption, text);
    ChosenNone(text);
    CompareRead(text);
    CharRead(RMath, "math", "+*/&|^-", text);
  }

  // The single-rule tuple of an expression after blanks.
  lemma BlanksExpressionRead(text: string)
    ensures Tuple(R(RWs, R(RExpression, End)), text) == ExpressionAfterBlanks(text)
  {
    hide Tuple, Line;
    BlanksPart(R(RExpression, End), text) by {
      Value(Literal(","));
    }
    LastPart(RExpression, SkipBlanks(text));
  }

  lemma LastPart(n: RuleName, text: string)
    ensures Tuple(R(n, End), text) == Read(n, text)
  {
    assert ItemsProgress(GRAMMAR, R(n, End)) by {
      FineEnd();
      FineRule(n, End, 0, false);
    }
    hide Tuple, Line;
    TuplePart(Rule(n), End, text);
    match Read(n, text)
    case None =>
    case Some((nodes, rest)) =>
      TupleEnd(rest);
      assert nodes + [] == nodes;
  }

  lemma BlanksPart(more: Items<RuleName>, text: string)
    requires ItemsProgress(GRAMMAR, R(RWs, more))
    ensures ItemsProgress(GRAMMAR, more)
    ensures Tuple(R(RWs, more), text) == Tuple(more, SkipBlanks(text))
  {
    hide Tuple, Line;
    TuplePart(Rule(RWs), more, text);
    BlanksRead(text);
    AfterNothing(Tuple(more, SkipBlanks(text)));
  }

  lemma AfterNothing(parsed: Parsed)
    ensures After([], parsed) == parsed
  {
    if parsed.Some? {
      assert [] + parsed.value.0 == parsed.value.0;
    }
  }

  lemma OperationRead(text: string)
    ensures
      Line(OPERATION, text) ==
      match OperatorAt(text) case None => None case Some((op, t)) => After(op, ExpressionAfterBlanks(t))
  {
    hide Tuple, Line, OperatorAt;
    var operand := R(RWs, R(RExpression, End));
    Operations();
    assert ItemsProgress(GRAMMAR, Part(1, OPERATOR, operand)) by {
      assert RepeatsProgress(GRAMMAR, Sequence(Part(1, OPERATOR, operand)));
    }
    LineTuple(Part(1, OPERATOR, operand), text);
    TuplePart(OPERATOR, operand, text);
    OperatorRead(text);
    match OperatorAt(text)
    case None =>
    case Some((op, t)) => BlanksExpressionRead(t);
  }

  lemma UnaryBlanksRead(text: string)
    ensures Else(Line(UNARY_WS, text), Some(([], text))) == Some(UnaryAt(text))
  {
    hide Tuple, Line;
    assert ItemsProgress(GRAMMAR, R(RUnary, R(RWs, End))) by {
      FineEnd();
      FineRule(RWs, End, 0, false);
      FineRule(RUnary, R(RWs, End), 1, false);
    }
    LineTuple(R(RUnary, R(RWs, End)), text);
    TuplePart(Rule(RUnary), R(RWs, End), text);
    CharRead(RUnary, "unary", "!-", text);
    if Starts(text, "!-") {
      LastPart(RWs, text[1..]);
      BlanksRead(text[1..]);
      assert UnaryAt(text).0 + [] == UnaryAt(text).0;
    }
  }

  /** The expression rule: an optional unary operator, an atom, and an optional operation, with the
      rest of the line given to the operand on the right. */
  lemma ExpressionRead(text: string)
    ensures Read(RExpression, text) == ExpressionAt(text)
  {
    hide Tuple, Line, Consumes, RepeatsProgress, OperatorAt, AtomAt, UnaryAt;
    var end := Part(0, OPERATION, End);
    var items := Part(0, UNARY_WS, R(RAtom, R(RWs, end)));
    ReadTuple(RExpression, items, text);
    assert Consumes(GRAMMAR, UNARY_WS) by {
      GoodUnary();
    }
    TupleOptional(UNARY_WS, R(RAtom, R(RWs, end)), text);
    UnaryBlanksRead(text);
    var (unary, t) := UnaryAt(text);
    TuplePart(Rule(RAtom), R(RWs, end), t);
    AtomRead(t);
    match AtomAt(t)
    case None =>
    case Some((atom, t')) =>
      BlanksPart(end, t');
      var t'' := SkipBlanks(t');
      assert Consumes(GRAMMAR, OPERATION) by {
        Operations();
      }
      TupleOptional(OPERATION, End, t'');
      OperationRead(t'');
      var (operation, rest) := OperationAt(t'');
      TupleEnd(rest);
      assert Tuple(end, t'') == Some((operation, rest)) by {
        assert operation + [] == operation;
      }
      assert unary + (atom + operation) == unary + atom + operation;
  }
}
