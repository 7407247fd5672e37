/** The microcode grammar (drivers/mdrive/microcode/compile/grammar.py) as patterns of Peg. */
module Grammar {
  import opened Wrappers
  import opened Regexes
  import opened Peg

  datatype RuleName =
    | RComment | RDeclaration | RName | RAssignment | RLiteral | RNumber | RString | RConfigVar
    | RLabel | RBranch | RCall | RReturn | RCommand | RAtom | RExpression | RCompare | RUnary | RMath
    | RStatement | RWs1 | RWs | RNewline | RPragma

  const BARE: set<string> := {"E", "S", "H", "PG", "RT"}
  const COMMANDS: set<string> :=
    {"CL", "DC", "IC", "H", "HM", "MA", "MR", "OE", "PR", "SL", "TI", "BR", "PG"}
  const READ_ONLY: set<string> :=
    {"BY", "DN", "EF", "I1", "I2", "I3", "I4", "I5", "I6", "IF", "IH", "IL", "IN", "IT", "MV", "PC", "PN",
     "SN", "V", "VC", "VR"}
  const READ_WRITE: set<string> := READ_WRITE_A_D + READ_WRITE_E_M + READ_WRITE_N_R + READ_WRITE_S_V
  const READ_WRITE_A_D: set<string> :=
    {"A", "C1", "C2", "CE", "CK", "CM", "CR", "D", "D1", "D2", "D3", "D4", "D5", "DB", "DE", "DG"}
  const READ_WRITE_E_M: set<string> :=
    {"EE", "EM", "ES", "ER", "FC", "FM", "HC", "HT", "JE", "LK", "LM", "MS", "MT"}
  const READ_WRITE_N_R: set<string> := {"NE", "OT", "OL", "P", "PM", "QD", "R1", "R2", "R3", "R4", "RC"}
  const READ_WRITE_S_V: set<string> :=
    {"S1", "S2", "S3", "S4", "S5", "SF", "SM", "ST", "TE", "TP", "TR", "TT", "VI", "VM"}
  const LABEL_ARGS: set<string> := {"OE", "TI", "TP", "TR", "TT"}
  const INTERNAL: set<string> := COMMANDS + BARE + READ_ONLY + READ_WRITE
  const ASSIGNABLE: set<string> := COMMANDS + READ_WRITE

  // Regular expressions.
  function Single(k: CharClass, count: Count): Pieces {
    Piece(k, count, Done)
  }

  function Plain(ps: Pieces): Regex {
    Alt(ps, Never)
  }

  const BLANKS: Regex := Plain(Single(Blank, Any))
  const BLANKS1: Regex := Plain(Single(Blank, AtLeastOnce))
  const NAME: Regex := Plain(Piece(Alpha, Once, Single(Word, AtMostOnce)))
  const NUMBER: Regex := Plain(Piece(Only('-'), AtMostOnce, Single(Digit, AtLeastOnce)))
  const STRING: Regex := Plain(Piece(Only('"'), Once, Piece(NotQuote, Any, Single(Only('"'), Once))))
  const UNARY: Regex := Plain(Single(AnyOf("!-"), Once))
  const DOTTED: Regex := Plain(Single(WordOrDot, AtLeastOnce))
  const MATH: Regex := Plain(Single(AnyOf("+*/&|^-"), Once))
  const COMMENT: Regex := Plain(Piece(Blank, Any, Piece(Only('\''), Once, Single(NotNewline, Any))))
  const LINE: Regex := Plain(Single(NotNewline, Any))
  const HASH: Regex := Plain(Single(Only('#'), Once))
  const EOL: Regex := Alt(Single(Only('\n'), Once), Alt(Piece(Only('\r'), Once, Single(Only('\n'), Once)), Never))

  function Two(a: char, b: char): Pieces {
    Piece(Only(a), Once, Single(Only(b), Once))
  }

  function One(a: char): Pieces {
    Single(Only(a), Once)
  }

  const COMPARE: Regex :=
    Alt(Two('<', '>'), Alt(Two('<', '='), Alt(Two('>', '='), Alt(One('<'), Alt(One('>'), Alt(One('='), Never))))))

  const COMMAND: Regex :=
    Alt(One('E'), Alt(One('S'), Alt(One('H'), Alt(Two('P', 'G'), Alt(Two('R', 'T'), Never)))))

  type Pat = Pattern<RuleName>

  function R(n: RuleName, rest: Items<RuleName>): Items<RuleName> {
    Part(1, Rule(n), rest)
  }

  const WS_COMMA_EXPRESSION: Pat :=
    Sequence(R(RWs, Part(1, Literal(","), R(RWs, R(RExpression, End)))))

  const COMMA_EXPRESSION: Pat := Sequence(Part(1, Literal(","), R(RWs, R(RExpression, End))))

  const INITIAL_VALUE: Pat := Sequence(R(RWs, Part(1, Literal("="), R(RWs, R(RExpression, End)))))

  const UNARY_WS: Pat := Sequence(R(RUnary, R(RWs, End)))

  const OPERATOR: Pat := Choice(Or(Rule(RCompare), Or(Rule(RMath), NoOption)))

  const OPERATION: Pat := Sequence(Part(1, OPERATOR, R(RWs, R(RExpression, End))))

  const STATEMENTS: Pat :=
    Choice(Or(Rule(RCall), Or(Rule(RBranch), Or(Rule(RReturn), Or(Rule(RLabel), Or(Rule(RDeclaration),
           Or(Rule(RAssignment), Or(Rule(RCommand), NoOption))))))))

  const LINE_END: Pat := Choice(Or(Rule(RComment), Or(Rule(RNewline), NoOption)))

  function JumpItems(word: string): Items<RuleName> {
    Part(1, Keyword(word), R(RWs1, R(RName, R(RWs, Part(0, COMMA_EXPRESSION, End)))))
  }

  function RuleBody(n: RuleName): Pat {
    match n
    case RComment => Sequence(Part(1, Match(COMMENT), R(RNewline, End)))
    case RDeclaration => Sequence(Part(1, Keyword("VA"), R(RWs, R(RName, Part(0, INITIAL_VALUE, End)))))
    case RName => Match(NAME)
    case RAssignment =>
      Sequence(R(RName, R(RWs, Part(0, Literal("="), R(RWs, R(RExpression, Part(-1, WS_COMMA_EXPRESSION, End)))))))
    case RLiteral => Choice(Or(Rule(RNumber), Or(Rule(RString), NoOption)))
    case RNumber => Match(NUMBER)
    case RString => Match(STRING)
    case RConfigVar => Sequence(Part(1, Literal("$"), Part(1, Match(DOTTED), End)))
    case RLabel => Sequence(Part(1, Keyword("LB"), R(RWs1, R(RName, End))))
    case RBranch => Sequence(JumpItems("BR"))
    case RCall => Sequence(JumpItems("CL"))
    case RReturn => Keyword("RT")
    case RCommand => Match(COMMAND)
    case RAtom => Choice(Or(Rule(RLiteral), Or(Rule(RName), Or(Rule(RConfigVar), NoOption))))
    case RExpression =>
      Sequence(Part(0, UNARY_WS, R(RAtom, R(RWs, Part(0, OPERATION, End)))))
    case RCompare => Match(COMPARE)
    case RUnary => Match(UNARY)
    case RMath => Match(MATH)
    case RStatement => Sequence(Part(1, STATEMENTS, Part(1, LINE_END, End)))
    case RWs1 => Ignore(BLANKS1)
    case RWs => Ignore(BLANKS)
    case RNewline => Sequence(R(RWs, Part(1, Ignore(EOL), End)))
    case RPragma => Sequence(Part(1, Ignore(HASH), R(RWs, Part(1, Match(LINE), R(RNewline, End)))))
  }

  /** language: the top of the grammar. */
  const LINE_KINDS: Pat :=
    Choice(Or(Rule(RComment), Or(Rule(RPragma), Or(Rule(RStatement), Or(Rule(RNewline), NoOption)))))

  const LANGUAGE_LINE: Pat := Sequence(R(RWs, Part(1, LINE_KINDS, End)))

  const LANGUAGE: Pat := Sequence(Part(-2, LANGUAGE_LINE, End))

  function RuleTitle(n: RuleName): Option<string> {
    match n
    case RComment => Some("comment")
    case RDeclaration => Some("declaration")
    case RName => Some("name")
    case RAssignment => Some("assignment")
    case RLiteral => Some("literal")
    case RNumber => Some("number")
    case RString => Some("string")
    case RConfigVar => Some("configvar")
    case RLabel => Some("label")
    case RBranch => Some("branch")
    case RCall => Some("call")
    case RReturn => Some("return_")
    case RCommand => Some("command")
    case RAtom => Some("atom")
    case RExpression => Some("expression")
    case RCompare => Some("compare")
    case RUnary => Some("unary")
    case RMath => Some("math")
    case RStatement => Some("statement")
    case RWs1 => None
    case RWs => None
    case RNewline => None
    case RPragma => Some("pragma")
  }

  // How deep the rules entered on the same text can nest.
  function RuleOrder(n: RuleName): nat {
    match n
    case RLiteral => 1
    case RNewline => 1
    case RAssignment => 1
    case RAtom => 2
    case RStatement => 2
    case RExpression => 3
    case _ => 0
  }

  function RuleEats(n: RuleName): bool {
    n != RWs
  }

  const GRAMMAR: Grammar<RuleName> := Grammar(RuleBody, RuleTitle, RuleOrder, RuleEats, false)

  // ---------- Well-formedness, built up pattern by pattern ----------

  // A bound on the rank of a pattern, its repetitions make progress, and it consumes.
  predicate Good(p: Pat, rank: nat, eats: bool) {
    LeftRank(GRAMMAR, p) <= rank && RepeatsProgress(GRAMMAR, p) && (eats ==> Consumes(GRAMMAR, p))
  }

  predicate Fine(items: Items<RuleName>, rank: nat, eats: bool) {
    ItemsRank(GRAMMAR, items) <= rank && ItemsProgress(GRAMMAR, items) && (eats ==> ItemsConsume(GRAMMAR, items))
  }

  predicate Able(options: Options<RuleName>, rank: nat, eats: bool) {
    OptionsRank(GRAMMAR, options) <= rank && OptionsProgress(GRAMMAR, options) && (eats ==> OptionsConsume(GRAMMAR, options))
  }

  lemma GoodRule(n: RuleName)
    ensures Good(Rule(n), RuleOrder(n) + 1, RuleEats(n))
  {
  }

  lemma GoodTerminal(p: Pat)
    requires Terminal(p)
    ensures Good(p, 0, Consumes(GRAMMAR, p))
  {
  }

  lemma GoodTuple(items: Items<RuleName>, rank: nat, eats: bool)
    requires Fine(items, rank, eats)
    ensures Good(Sequence(items), rank, eats)
  {
  }

  lemma GoodChoice(options: Options<RuleName>, rank: nat, eats: bool)
    requires Able(options, rank, eats)
    ensures Good(Choice(options), rank, eats)
  {
  }

  lemma FineEnd()
    ensures Fine(End, 0, false)
  {
  }

  lemma FinePart(count: int, p: Pat, rank: nat, eats: bool, rest: Items<RuleName>, restRank: nat, restEats: bool)
    requires Good(p, rank, eats) && Fine(rest, restRank, restEats) && (count < 0 ==> eats)
    ensures
      var always := eats && (count > 0 || count == -2);
      Fine(Part(count, p, rest), if always then rank else Max(rank, restRank), always || restEats)
  {
  }

  lemma AbleOr(p: Pat, rank: nat, eats: bool, rest: Options<RuleName>, restRank: nat, restEats: bool)
    requires Good(p, rank, eats) && Able(rest, restRank, restEats)
    ensures Able(Or(p, rest), Max(rank, restRank), eats && restEats)
  {
  }

  lemma AbleLast(p: Pat, rank: nat, eats: bool)
    requires Good(p, rank, eats)
    ensures Able(Or(p, NoOption), rank, eats)
  {
  }

  lemma FineRule(n: RuleName, rest: Items<RuleName>, restRank: nat, restEats: bool)
    requires Fine(rest, restRank, restEats)
    ensures
      Fine(R(n, rest), if n != RWs then RuleOrder(n) + 1 else Max(1, restRank), n != RWs || restEats)
  {
    GoodRule(n);
    FinePart(1, Rule(n), RuleOrder(n) + 1, n != RWs, rest, restRank, restEats);
  }

  lemma AbleRule(n: RuleName, rest: Options<RuleName>, restRank: nat)
    requires n != RWs && Able(rest, restRank, true)
    ensures Able(Or(Rule(n), rest), Max(RuleOrder(n) + 1, restRank), true)
  {
    GoodRule(n);
    AbleOr(Rule(n), RuleOrder(n) + 1, true, rest, restRank, true);
  }

  lemma AbleLastRule(n: RuleName)
    requires n != RWs
    ensures Able(Or(Rule(n), NoOption), RuleOrder(n) + 1, true)
  {
    GoodRule(n);
    AbleLast(Rule(n), RuleOrder(n) + 1, true);
  }

  lemma Value(before: Pat)
    requires Good(before, 0, true)
    ensures
      var items := R(RWs, R(RExpression, End));
      Fine(Part(1, before, items), 0, true) && Fine(R(RWs, Part(1, before, items)), 1, true)
  {
    hide Good, Fine;
    var items := R(RWs, R(RExpression, End));
    FineEnd();
    FineRule(RExpression, End, 0, false);
    FineRule(RWs, R(RExpression, End), 4, true);
    FinePart(1, before, 0, true, items, 4, true);
    FineRule(RWs, Part(1, before, items), 0, true);
  }

  lemma CommaExpression()
    ensures Good(COMMA_EXPRESSION, 0, true) && Good(WS_COMMA_EXPRESSION, 1, true)
  {
    hide Good, Fine;
    var items := R(RWs, R(RExpression, End));
    GoodTerminal(Literal(","));
    Value(Literal(","));
    GoodTuple(Part(1, Literal(","), items), 0, true);
    GoodTuple(R(RWs, Part(1, Literal(","), items)), 1, true);
  }

  lemma Jumps(word: string)
    requires word != ""
    ensures Good(Sequence(JumpItems(word)), 0, true)
  {
    hide Good, Fine;
    CommaExpression();
    var end := Part(0, COMMA_EXPRESSION, End);
    FineEnd();
    FinePart(0, COMMA_EXPRESSION, 0, true, End, 0, false);
    FineRule(RWs, end, 0, false);
    FineRule(RName, R(RWs, end), 1, false);
    FineRule(RWs1, R(RName, R(RWs, end)), 1, true);
    GoodTerminal(Keyword(word));
    FinePart(1, Keyword(word), 0, true, R(RWs1, R(RName, R(RWs, end))), 1, true);
    GoodTuple(JumpItems(word), 0, true);
  }

  lemma Assignments()
    ensures Good(RuleBody(RAssignment), 1, true)
  {
    hide Good, Fine;
    CommaExpression();
    FineEnd();
    var values := Part(-1, WS_COMMA_EXPRESSION, End);
    var first := R(RWs, R(RExpression, values));
    FinePart(-1, WS_COMMA_EXPRESSION, 1, true, End, 0, false);
    FineRule(RExpression, values, 1, false);
    FineRule(RWs, R(RExpression, values), 4, true);
    GoodTerminal(Literal("="));
    FinePart(0, Literal("="), 0, true, first, 4, true);
    FineRule(RWs, Part(0, Literal("="), first), 4, true);
    FineRule(RName, R(RWs, Part(0, Literal("="), first)), 4, true);
    GoodTuple(R(RName, R(RWs, Part(0, Literal("="), first))), 1, true);
  }

  lemma Declarations()
    ensures Good(RuleBody(RDeclaration), 0, true)
  {
    hide Good, Fine;
    FineEnd();
    GoodTerminal(Literal("="));
    Value(Literal("="));
    GoodTuple(R(RWs, Part(1, Literal("="), R(RWs, R(RExpression, End)))), 1, true);
    var end := Part(0, INITIAL_VALUE, End);
    FinePart(0, INITIAL_VALUE, 1, true, End, 0, false);
    FineRule(RName, end, 1, false);
    FineRule(RWs, R(RName, end), 1, true);
    GoodTerminal(Keyword("VA"));
    FinePart(1, Keyword("VA"), 0, true, R(RWs, R(RName, end)), 1, true);
    GoodTuple(Part(1, Keyword("VA"), R(RWs, R(RName, end))), 0, true);
  }

  lemma Operations()
    ensures Good(OPERATION, 1, true)
  {
    hide Good, Fine, Able;
    AbleLastRule(RMath);
    AbleRule(RCompare, Or(Rule(RMath), NoOption), 1);
    GoodChoice(Or(Rule(RCompare), Or(Rule(RMath), NoOption)), 1, true);
    var operand := R(RWs, R(RExpression, End));
    FineEnd();
    FineRule(RExpression, End, 0, false);
    FineRule(RWs, R(RExpression, End), 4, true);
    FinePart(1, OPERATOR, 1, true, operand, 4, true);
    GoodTuple(Part(1, OPERATOR, operand), 1, true);
  }

  lemma GoodUnary()
    ensures Good(UNARY_WS, 1, true)
  {
    hide Good, Fine;
    FineEnd();
    FineRule(RWs, End, 0, false);
    FineRule(RUnary, R(RWs, End), 1, false);
    GoodTuple(R(RUnary, R(RWs, End)), 1, true);
  }

  lemma Expressions()
    ensures Good(RuleBody(RExpression), 3, true)
  {
    hide Good, Fine;
    Operations();
    FineEnd();
    var end := Part(0, OPERATION, End);
    FinePart(0, OPERATION, 1, true, End, 0, false);
    FineRule(RWs, end, 1, false);
    FineRule(RAtom, R(RWs, end), 1, false);
    GoodUnary();
    FinePart(0, UNARY_WS, 1, true, R(RAtom, R(RWs, end)), 3, true);
    GoodTuple(Part(0, UNARY_WS, R(RAtom, R(RWs, end))), 3, true);
  }

  lemma Statements()
    ensures Good(STATEMENTS, 2, true)
  {
    hide Good, Able;
    var last := Or(Rule(RCommand), NoOption);
    AbleLastRule(RCommand);
    AbleRule(RAssignment, last, 1);
    AbleRule(RDeclaration, Or(Rule(RAssignment), last), 2);
    var short := Or(Rule(RDeclaration), Or(Rule(RAssignment), last));
    AbleRule(RLabel, short, 2);
    AbleRule(RReturn, Or(Rule(RLabel), short), 2);
    var long := Or(Rule(RReturn), Or(Rule(RLabel), short));
    AbleRule(RBranch, long, 2);
    AbleRule(RCall, Or(Rule(RBranch), long), 2);
    GoodChoice(Or(Rule(RCall), Or(Rule(RBranch), long)), 2, true);
  }

  lemma StatementLines()
    ensures Good(RuleBody(RStatement), 2, true)
  {
    hide Good, Fine, Able;
    Statements();
    AbleLastRule(RNewline);
    AbleRule(RComment, Or(Rule(RNewline), NoOption), 2);
    GoodChoice(Or(Rule(RComment), Or(Rule(RNewline), NoOption)), 2, true);
    FineEnd();
    FinePart(1, LINE_END, 2, true, End, 0, false);
    FinePart(1, STATEMENTS, 2, true, Part(1, LINE_END, End), 2, true);
    GoodTuple(Part(1, STATEMENTS, Part(1, LINE_END, End)), 2, true);
  }

  lemma Pragmas()
    ensures Good(RuleBody(RPragma), 0, true)
  {
    hide Good, Fine;
    FineEnd();
    var end := R(RNewline, End);
    FineRule(RNewline, End, 0, false);
    GoodTerminal(Match(LINE));
    FinePart(1, Match(LINE), 0, Consumes(GRAMMAR, Match(LINE)), end, 2, true);
    FineRule(RWs, Part(1, Match(LINE), end), 2, true);
    GoodTerminal(Ignore(HASH));
    FinePart(1, Ignore(HASH), 0, true, R(RWs, Part(1, Match(LINE), end)), 2, true);
    GoodTuple(Part(1, Ignore(HASH), R(RWs, Part(1, Match(LINE), end))), 0, true);
  }

  lemma Newlines()
    ensures Good(RuleBody(RNewline), 1, true)
  {
    hide Good, Fine;
    FineEnd();
    GoodTerminal(Ignore(EOL));
    FinePart(1, Ignore(EOL), 0, true, End, 0, false);
    FineRule(RWs, Part(1, Ignore(EOL), End), 0, true);
    GoodTuple(R(RWs, Part(1, Ignore(EOL), End)), 1, true);
  }

  lemma Comments()
    ensures Good(RuleBody(RComment), 0, true)
  {
    hide Good, Fine;
    FineEnd();
    GoodTerminal(Match(COMMENT));
    FineRule(RNewline, End, 0, false);
    FinePart(1, Match(COMMENT), 0, true, R(RNewline, End), 2, true);
    GoodTuple(Part(1, Match(COMMENT), R(RNewline, End)), 0, true);
  }

  lemma Labels()
    ensures Good(RuleBody(RLabel), 0, true)
  {
    hide Good, Fine;
    FineEnd();
    FineRule(RName, End, 0, false);
    FineRule(RWs1, R(RName, End), 1, true);
    GoodTerminal(Keyword("LB"));
    FinePart(1, Keyword("LB"), 0, true, R(RWs1, R(RName, End)), 1, true);
    GoodTuple(Part(1, Keyword("LB"), R(RWs1, R(RName, End))), 0, true);
  }

  lemma Atoms()
    ensures Good(RuleBody(RLiteral), 1, true) && Good(RuleBody(RAtom), 2, true)
    ensures Good(RuleBody(RConfigVar), 0, true)
  {
    hide Good, Fine, Able;
    AbleLastRule(RString);
    AbleRule(RNumber, Or(Rule(RString), NoOption), 1);
    GoodChoice(Or(Rule(RNumber), Or(Rule(RString), NoOption)), 1, true);
    AbleLastRule(RConfigVar);
    AbleRule(RName, Or(Rule(RConfigVar), NoOption), 1);
    AbleRule(RLiteral, Or(Rule(RName), Or(Rule(RConfigVar), NoOption)), 1);
    GoodChoice(Or(Rule(RLiteral), Or(Rule(RName), Or(Rule(RConfigVar), NoOption))), 2, true);
    FineEnd();
    GoodTerminal(Match(DOTTED));
    FinePart(1, Match(DOTTED), 0, true, End, 0, false);
    GoodTerminal(Literal("$"));
    FinePart(1, Literal("$"), 0, true, Part(1, Match(DOTTED), End), 0, true);
    GoodTuple(Part(1, Literal("$"), Part(1, Match(DOTTED), End)), 0, true);
  }

  predicate IsToken(n: RuleName) {
    n in {RName, RNumber, RString, RReturn, RCommand, RCompare, RUnary, RMath, RWs1, RWs}
  }

  lemma TokensConsume()
    ensures RegexConsumes(NAME) && RegexConsumes(NUMBER) && RegexConsumes(STRING) && RegexConsumes(UNARY)
    ensures RegexConsumes(MATH) && RegexConsumes(BLANKS1)
  {
  }

  lemma WordsConsume()
    ensures RegexConsumes(COMMAND) && RegexConsumes(COMPARE)
  {
  }

  lemma TokenEats(n: RuleName)
    requires IsToken(n)
    ensures RuleEats(n) ==> Consumes(GRAMMAR, RuleBody(n))
  {
    hide RegexConsumes;
    TokensConsume();
    WordsConsume();
    hide NAME, NUMBER, STRING, UNARY, MATH, BLANKS, BLANKS1, COMMAND, COMPARE;
  }

  predicate Terminal(p: Pat) {
    p.Literal? || p.Keyword? || p.Match? || p.Ignore?
  }

  lemma TokenIsTerminal(n: RuleName)
    requires IsToken(n)
    ensures Terminal(RuleBody(n))
  {
    hide JumpItems, NAME, NUMBER, STRING, UNARY, MATH, BLANKS, BLANKS1, COMMAND, COMPARE;
  }

  lemma TokenIsGood(n: RuleName)
    requires IsToken(n)
    ensures Good(RuleBody(n), 0, RuleEats(n))
  {
    TokenIsTerminal(n);
    TokenEats(n);
    hide RuleBody, RuleEats, Consumes, IsToken;
    GoodTerminal(RuleBody(n));
  }

  lemma BodyIsNoRule(n: RuleName)
    ensures !RuleBody(n).Rule?
  {
    hide JumpItems, COMMAND, COMPARE;
  }

  lemma RuleIsGood(n: RuleName)
    ensures Good(RuleBody(n), RuleOrder(n), RuleEats(n))
  {
    hide RuleBody, Good;
    if IsToken(n) {
      TokenIsGood(n);
      return;
    }
    match n {
      case RComment => Comments();
      case RLabel => Labels();
      case RNewline => Newlines();
      case RConfigVar => Atoms();
      case RLiteral => Atoms();
      case RAtom => Atoms();
      case RPragma => Pragmas();
      case RStatement => StatementLines();
      case RAssignment => Assignments();
      case RDeclaration => Declarations();
      case RExpression => Expressions();
      case RBranch => JumpRules();
      case RCall => JumpRules();
      case _ =>
    }
  }

  lemma JumpRules()
    ensures Good(RuleBody(RBranch), 0, true) && Good(RuleBody(RCall), 0, true)
  {
    Jumps("BR");
    Jumps("CL");
    hide Good, JumpItems;
  }

  /** The grammar has no left recursion and repeats nothing that can be empty, so the engine
      terminates on every input. */
  lemma GrammarIsWellFormed()
    ensures WellFormed(GRAMMAR)
  {
    hide RuleBody, RuleOrder, RuleEats, LeftRank, Consumes, RepeatsProgress;
    forall n: RuleName
      ensures Good(RuleBody(n), RuleOrder(n), RuleEats(n)) && BodyOf(GRAMMAR, n) == RuleBody(n)
    {
      RuleIsGood(n);
      BodyIsNoRule(n);
    }
  }

  lemma LineKinds()
    ensures Good(LINE_KINDS, 3, true) && LINE_KINDS.Choice? && Able(LINE_KINDS.options, 3, true)
  {
    hide Good, Able;
    var end := Or(Rule(RStatement), Or(Rule(RNewline), NoOption));
    AbleLastRule(RNewline);
    AbleRule(RStatement, Or(Rule(RNewline), NoOption), 2);
    AbleRule(RPragma, end, 3);
    AbleRule(RComment, Or(Rule(RPragma), end), 3);
    GoodChoice(Or(Rule(RComment), Or(Rule(RPragma), end)), 3, true);
  }

  lemma LanguageIsGood()
    ensures Good(LANGUAGE_LINE, 3, true) && Good(LANGUAGE, 3, true)
    ensures Fine(R(RWs, Part(1, LINE_KINDS, End)), 3, true) && Fine(Part(-2, LANGUAGE_LINE, End), 3, true)
  {
    hide Good, Fine, LINE_KINDS;
    LineKinds();
    FineEnd();
    FinePart(1, LINE_KINDS, 3, true, End, 0, false);
    FineRule(RWs, Part(1, LINE_KINDS, End), 3, true);
    GoodTuple(R(RWs, Part(1, LINE_KINDS, End)), 3, true);
    FinePart(-2, LANGUAGE_LINE, 3, true, End, 0, false);
    GoodTuple(Part(-2, LANGUAGE_LINE, End), 3, true);
  }

  // ---------- The regular expressions ----------

  ghost predicate AllSeparated(r: Regex) {
    r.Alt? ==> Separated(r.pieces) && AllSeparated(r.others)
  }

  lemma SingleSeparated(k: CharClass, count: Count)
    ensures Separated(Single(k, count))
  {
  }

  /** In none of the grammar's regular expressions does backtracking find more than greedy matching. */
  lemma RegexesAreSeparated()
    ensures AllSeparated(BLANKS) && AllSeparated(BLANKS1) && AllSeparated(NAME) && AllSeparated(NUMBER)
    ensures AllSeparated(STRING) && AllSeparated(UNARY) && AllSeparated(MATH) && AllSeparated(COMMENT)
    ensures AllSeparated(LINE) && AllSeparated(HASH) && AllSeparated(DOTTED)
    ensures AllSeparated(COMPARE) && AllSeparated(COMMAND) && AllSeparated(EOL)
  {
    RunsAreSeparated();
    ChoicesAreSeparated();
  }

  lemma RunsAreSeparated()
    ensures AllSeparated(BLANKS) && AllSeparated(BLANKS1) && AllSeparated(NAME) && AllSeparated(NUMBER)
    ensures AllSeparated(STRING) && AllSeparated(UNARY) && AllSeparated(MATH) && AllSeparated(COMMENT)
    ensures AllSeparated(LINE) && AllSeparated(HASH) && AllSeparated(DOTTED)
  {
    SingleSeparated(Blank, Any);
    SingleSeparated(Blank, AtLeastOnce);
    SingleSeparated(Word, AtMostOnce);
    SingleSeparated(Digit, AtLeastOnce);
    SingleSeparated(Only('"'), Once);
    SingleSeparated(AnyOf("!-"), Once);
    SingleSeparated(AnyOf("+*/&|^-"), Once);
    SingleSeparated(NotNewline, Any);
    SingleSeparated(Only('#'), Once);
    SingleSeparated(WordOrDot, AtLeastOnce);
    assert Disjoint(Only('-'), Digit);
    assert Disjoint(NotQuote, Only('"'));
    assert Disjoint(Blank, Only('\''));
    hide Disjoint;
    assert Separated(Piece(NotQuote, Any, Single(Only('"'), Once)));
    assert Separated(Piece(Only('\''), Once, Single(NotNewline, Any)));
  }

  lemma ChoicesAreSeparated()
    ensures AllSeparated(COMPARE) && AllSeparated(COMMAND) && AllSeparated(EOL)
  {
    forall a: char, b: char
      ensures Separated(Two(a, b)) && Separated(One(a))
    {
      OneAndTwoSeparated(a, b);
    }
    hide Separated;
  }

  lemma OneAndTwoSeparated(a: char, b: char)
    ensures Separated(One(a)) && Separated(Two(a, b))
  {
    SingleSeparated(Only(b), Once);
  }
}
