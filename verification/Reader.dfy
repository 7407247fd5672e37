/**
 The microcode grammar read as a recursive-descent parser: for every rule, what the
 parsing engine does with its pattern, written out.
 */
module Reader {
  import opened Wrappers
  import opened Regexes
  import opened Peg
  import opened Grammar

  // ---------- The engine on the microcode grammar ----------

  function Line(p: Pat, text: string): Parsed {
    GrammarIsWellFormed();
    if RepeatsProgress(GRAMMAR, p) then ParseLine(GRAMMAR, p, text) else None
  }

  function Read(n: RuleName, text: string): Parsed {
    Line(Rule(n), text)
  }

  function Tuple(items: Items<RuleName>, text: string): Parsed {
    GrammarIsWellFormed();
    if ItemsProgress(GRAMMAR, items) then ParseItems(GRAMMAR, items, text) else None
  }

  function Chosen(options: Options<RuleName>, text: string): Parsed {
    GrammarIsWellFormed();
    if OptionsProgress(GRAMMAR, options) then ParseOptions(GRAMMAR, options, text) else None
  }

  function Many(p: Pat, text: string): (seq<Node>, string) {
    GrammarIsWellFormed();
    if RepeatsProgress(GRAMMAR, p) && Consumes(GRAMMAR, p) then ParseMany(GRAMMAR, p, text) else ([], text)
  }

  // The rest of a tuple after its first part.
  function Chain(first: Parsed, more: Items<RuleName>): Parsed {
    match first
    case None => None
    case Some((nodes, rest)) => After(nodes, Tuple(more, rest))
  }

  function Titled(title: Option<string>, parsed: Parsed): Parsed {
    match parsed
    case None => None
    case Some((nodes, rest)) => Some((Report(title, List(nodes)), rest))
  }

  // The first success.
  function Else(parsed: Parsed, other: Parsed): Parsed {
    if parsed.Some? then parsed else other
  }

  // What the engine starts from for a rule.
  lemma RuleOf(n: RuleName)
    ensures WellFormed(GRAMMAR) && BodyOf(GRAMMAR, n) == RuleBody(n) && !RuleBody(n).Rule? && RepeatsProgress(GRAMMAR, RuleBody(n))
    ensures GRAMMAR.title(n) == RuleTitle(n)
  {
    hide RuleBody, RuleTitle, RuleEats, RuleOrder, Consumes;
    GrammarIsWellFormed();
    RuleIsGood(n);
    BodyIsNoRule(n);
  }

  // The engine on a pattern that is no rule.
  function Engine(title: Option<string>, p: Pat, text: string): Parsed
    requires !p.Rule?
  {
    GrammarIsWellFormed();
    if RepeatsProgress(GRAMMAR, p) then ParseAs(GRAMMAR, title, p, text) else None
  }

  lemma ReadIsEngine(n: RuleName, text: string)
    ensures !RuleBody(n).Rule? && Read(n, text) == Engine(RuleTitle(n), RuleBody(n), text)
  {
    RuleOf(n);
    hide RuleBody, RuleTitle, GRAMMAR, WellFormed, Consumes, ParseAs;
  }

  lemma LineIsEngine(p: Pat, text: string)
    requires !p.Rule?
    ensures Line(p, text) == Engine(None, p, text)
  {
    GrammarIsWellFormed();
    hide GRAMMAR, WellFormed, Consumes, ParseAs;
  }

  lemma EngineTuple(title: Option<string>, items: Items<RuleName>, text: string)
    ensures Engine(title, Sequence(items), text) == Titled(title, Tuple(items, text))
  {
    GrammarIsWellFormed();
    hide GRAMMAR, WellFormed, Consumes, ItemsProgress;
    assert RepeatsProgress(GRAMMAR, Sequence(items)) <==> ItemsProgress(GRAMMAR, items);
  }

  lemma EngineChoice(title: Option<string>, options: Options<RuleName>, text: string)
    ensures Engine(title, Choice(options), text) == Titled(title, Chosen(options, text))
  {
    GrammarIsWellFormed();
    hide GRAMMAR, WellFormed, Consumes, OptionsProgress;
    assert RepeatsProgress(GRAMMAR, Choice(options)) <==> OptionsProgress(GRAMMAR, options);
  }

  lemma EngineTerminal(title: Option<string>, p: Pat, text: string)
    requires p.Literal? || p.Keyword? || p.Match? || p.Ignore?
    ensures Engine(title, p, text) == ParseTerminal(GRAMMAR, title, p, text)
  {
    GrammarIsWellFormed();
    hide GRAMMAR, WellFormed, Consumes;
    assert RepeatsProgress(GRAMMAR, p);
  }

  lemma ReadTuple(n: RuleName, items: Items<RuleName>, text: string)
    requires RuleBody(n) == Sequence(items)
    ensures ItemsProgress(GRAMMAR, items) && Read(n, text) == Titled(RuleTitle(n), Tuple(items, text))
  {
    RuleOf(n);
    ReadIsEngine(n, text);
    EngineTuple(RuleTitle(n), items, text);
    hide RuleBody, RuleTitle, GRAMMAR, Read, Engine, Tuple, ItemsProgress, WellFormed;
    assert RepeatsProgress(GRAMMAR, Sequence(items)) <==> ItemsProgress(GRAMMAR, items);
  }

  lemma ReadChoice(n: RuleName, options: Options<RuleName>, text: string)
    requires RuleBody(n) == Choice(options)
    ensures OptionsProgress(GRAMMAR, options) && Read(n, text) == Titled(RuleTitle(n), Chosen(options, text))
  {
    RuleOf(n);
    ReadIsEngine(n, text);
    EngineChoice(RuleTitle(n), options, text);
    hide RuleBody, RuleTitle, GRAMMAR, Read, Engine, Chosen, OptionsProgress, WellFormed;
    assert RepeatsProgress(GRAMMAR, Choice(options)) <==> OptionsProgress(GRAMMAR, options);
  }

  lemma ReadTerminal(n: RuleName, text: string)
    requires var p := RuleBody(n); p.Literal? || p.Keyword? || p.Match? || p.Ignore?
    ensures Read(n, text) == ParseTerminal(GRAMMAR, RuleTitle(n), RuleBody(n), text)
  {
    ReadIsEngine(n, text);
    EngineTerminal(RuleTitle(n), RuleBody(n), text);
    hide RuleBody, RuleTitle, GRAMMAR, Read, Engine, ParseTerminal;
  }

  lemma LineTerminal(p: Pat, text: string)
    requires p.Literal? || p.Keyword? || p.Match? || p.Ignore?
    ensures Line(p, text) == ParseTerminal(GRAMMAR, None, p, text)
  {
    LineIsEngine(p, text);
    EngineTerminal(None, p, text);
    hide GRAMMAR, Line, Engine, ParseTerminal;
  }

  lemma Untitled(parsed: Parsed)
    ensures Titled(None, parsed) == parsed
  {
  }

  lemma LineTuple(items: Items<RuleName>, text: string)
    requires ItemsProgress(GRAMMAR, items)
    ensures Line(Sequence(items), text) == Tuple(items, text)
  {
    LineIsEngine(Sequence(items), text);
    EngineTuple(None, items, text);
    Untitled(Tuple(items, text));
    hide GRAMMAR, Line, Engine, Tuple;
  }

  lemma LineChoice(options: Options<RuleName>, text: string)
    requires OptionsProgress(GRAMMAR, options)
    ensures Line(Choice(options), text) == Chosen(options, text)
  {
    LineIsEngine(Choice(options), text);
    EngineChoice(None, options, text);
    Untitled(Chosen(options, text));
    hide GRAMMAR, Line, Engine, Chosen;
  }

  lemma TupleEnd(text: string)
    ensures Tuple(End, text) == Some(([], text))
  {
    GrammarIsWellFormed();
  }

  lemma TuplePart(p: Pat, more: Items<RuleName>, text: string)
    requires ItemsProgress(GRAMMAR, Part(1, p, more))
    ensures RepeatsProgress(GRAMMAR, p) && ItemsProgress(GRAMMAR, more)
    ensures Tuple(Part(1, p, more), text) == Chain(Line(p, text), more)
  {
    GrammarIsWellFormed();
    hide GRAMMAR;
    assert ParseItem(GRAMMAR, 1, p, text) == Line(p, text) by {
      hide RepeatsProgress, ItemsProgress, WellFormed;
      match ParseLine(GRAMMAR, p, text)
      case None =>
      case Some((nodes, rest)) => assert ParseTimes(GRAMMAR, p, 0, rest) == Some(([], rest)); assert nodes + [] == nodes;
    }
  }

  lemma TupleOptional(p: Pat, more: Items<RuleName>, text: string)
    requires ItemsProgress(GRAMMAR, Part(0, p, more)) && Consumes(GRAMMAR, p)
    ensures RepeatsProgress(GRAMMAR, p) && ItemsProgress(GRAMMAR, more)
    ensures Tuple(Part(0, p, more), text) == Chain(Else(Line(p, text), Some(([], text))), more)
  {
    hide Consumes;
    GrammarIsWellFormed();
    hide GRAMMAR, WellFormed;
    assert ParseItem(GRAMMAR, 0, p, text) == Else(Line(p, text), Some(([], text)));
  }

  lemma TupleMany(p: Pat, more: Items<RuleName>, text: string)
    requires ItemsProgress(GRAMMAR, Part(-1, p, more))
    ensures RepeatsProgress(GRAMMAR, p) && Consumes(GRAMMAR, p) && ItemsProgress(GRAMMAR, more)
    ensures Tuple(Part(-1, p, more), text) == Chain(Some(Many(p, text)), more)
  {
    hide Consumes;
    GrammarIsWellFormed();
    hide GRAMMAR, WellFormed;
    assert ParseItem(GRAMMAR, -1, p, text) == Some(Many(p, text));
  }

  lemma TupleManyOnce(p: Pat, more: Items<RuleName>, text: string)
    requires ItemsProgress(GRAMMAR, Part(-2, p, more))
    ensures RepeatsProgress(GRAMMAR, p) && Consumes(GRAMMAR, p) && ItemsProgress(GRAMMAR, more)
    ensures
      Tuple(Part(-2, p, more), text) == if Line(p, text).None? then None else Chain(Some(Many(p, text)), more)
  {
    hide Consumes;
    GrammarIsWellFormed();
    hide GRAMMAR, WellFormed;
    assert ParseItem(GRAMMAR, -2, p, text) == if Line(p, text).None? then None else Some(Many(p, text));
  }

  lemma ManyStep(p: Pat, text: string)
    requires RepeatsProgress(GRAMMAR, p) && Consumes(GRAMMAR, p)
    ensures Line(p, text).None? ==> Many(p, text) == ([], text)
    ensures Line(p, text).Some? ==>
              var (nodes, rest) := Line(p, text).value;
              |rest| < |text| && Many(p, text) == (nodes + Many(p, rest).0, Many(p, rest).1)
  {
    hide RepeatsProgress, Consumes;
    GrammarIsWellFormed();
    hide GRAMMAR, WellFormed;
  }

  lemma ChosenOr(p: Pat, others: Options<RuleName>, text: string)
    requires OptionsProgress(GRAMMAR, Or(p, others))
    ensures RepeatsProgress(GRAMMAR, p) && OptionsProgress(GRAMMAR, others)
    ensures Chosen(Or(p, others), text) == Else(Line(p, text), Chosen(others, text))
  {
    GrammarIsWellFormed();
    hide GRAMMAR, WellFormed, Consumes;
  }

  lemma ChosenNone(text: string)
    ensures Chosen(NoOption, text) == None
  {
    GrammarIsWellFormed();
  }
}
