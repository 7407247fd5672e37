/**
 The parsing-expression engine of drivers/mdrive/microcode/compile/pyPEG.py:
 what parseLine recognises, for grammars without left recursion and without
 repetition of something that can match nothing.
 */
module Peg {
  import opened Wrappers
  import opened Regexes

  datatype Pattern<N> =
    | Literal(text: string)
    | Keyword(word: string)
    | Match(re: Regex)
    | Ignore(re: Regex)
    | Not(p: Pattern<N>)
    | And(p: Pattern<N>)
    | Sequence(items: Items<N>)
    | Choice(options: Options<N>)
    | Rule(n: N)

  // Part of a tuple: a pattern under a count. Positive: that many times; 0: optional;
  // negative: any number of times, for -2 at least once.
  datatype Items<N> = End | Part(count: int, p: Pattern<N>, rest: Items<N>)

  datatype Options<N> = NoOption | Or(p: Pattern<N>, rest: Options<N>)

  /** Syntax nodes: a named list, a named string, or a bare string. */
  datatype Node =
    | Symbol(name: string, what: seq<Node>)
    | Leaf(name: string, text: string)
    | Text(text: string)

  /** Named patterns. A rule without a title leaves no node; `order` and `eats` certify that
      the grammar is free of left recursion and of empty repetition. */
  datatype Grammar<!N> = Grammar(
    body: N -> Pattern<N>,
    title: N -> Option<string>,
    order: N -> nat,
    eats: N -> bool,
    skipSpace: bool)

  // A rule that stands for another rule is a tuple of it.
  function BodyOf<N>(g: Grammar<N>, n: N): Pattern<N> {
    var p := g.body(n);
    if p.Rule? then Sequence(Part(1, p, End)) else p
  }

  // ---------- Well-formed grammars ----------

  /** Every success of the pattern consumes input. */
  predicate Consumes<N>(g: Grammar<N>, p: Pattern<N>)
    decreases p, 0
  {
    match p
    case Literal(text) => text != ""
    case Keyword(word) => word != ""
    case Match(re) => RegexConsumes(re)
    case Ignore(re) => RegexConsumes(re)
    case Not(_) => false
    case And(_) => false
    case Sequence(items) => ItemsConsume(g, items)
    case Choice(options) => OptionsConsume(g, options)
    case Rule(n) => g.eats(n)
  }

  predicate ItemConsumes<N>(g: Grammar<N>, count: int, p: Pattern<N>)
    decreases p, 1
  {
    (count > 0 || count == -2) && Consumes(g, p)
  }

  predicate ItemsConsume<N>(g: Grammar<N>, items: Items<N>)
    decreases items, 0
  {
    items.Part? && (ItemConsumes(g, items.count, items.p) || ItemsConsume(g, items.rest))
  }

  predicate OptionsConsume<N>(g: Grammar<N>, options: Options<N>)
    decreases options, 0
  {
    options.NoOption? || (Consumes(g, options.p) && OptionsConsume(g, options.rest))
  }

  function Max(a: nat, b: nat): nat {
    if a < b then b else a
  }

  /** A bound on the rules that can be entered before anything is consumed. */
  function LeftRank<N>(g: Grammar<N>, p: Pattern<N>): nat {
    match p
    case Not(q) => LeftRank(g, q)
    case And(q) => LeftRank(g, q)
    case Sequence(items) => ItemsRank(g, items)
    case Choice(options) => OptionsRank(g, options)
    case Rule(n) => g.order(n) + 1
    case _ => 0
  }

  function ItemsRank<N>(g: Grammar<N>, items: Items<N>): nat {
    match items
    case End => 0
    case Part(count, p, rest) =>
      if ItemConsumes(g, count, p) then LeftRank(g, p) else Max(LeftRank(g, p), ItemsRank(g, rest))
  }

  function OptionsRank<N>(g: Grammar<N>, options: Options<N>): nat {
    match options
    case NoOption => 0
    case Or(p, rest) => Max(LeftRank(g, p), OptionsRank(g, rest))
  }

  /** What is repeated without bound consumes. */
  predicate RepeatsProgress<N>(g: Grammar<N>, p: Pattern<N>) {
    match p
    case Not(q) => RepeatsProgress(g, q)
    case And(q) => RepeatsProgress(g, q)
    case Sequence(items) => ItemsProgress(g, items)
    case Choice(options) => OptionsProgress(g, options)
    case _ => true
  }

  predicate ItemsProgress<N>(g: Grammar<N>, items: Items<N>) {
    items.Part? ==>
      && (items.count < 0 ==> Consumes(g, items.p))
      && RepeatsProgress(g, items.p) && ItemsProgress(g, items.rest)
  }

  predicate OptionsProgress<N>(g: Grammar<N>, options: Options<N>) {
    options.Or? ==> RepeatsProgress(g, options.p) && OptionsProgress(g, options.rest)
  }

  ghost predicate WellFormed<N(!new)>(g: Grammar<N>) {
    forall n: N ::
      && LeftRank(g, BodyOf(g, n)) <= g.order(n)
      && (g.eats(n) ==> Consumes(g, BodyOf(g, n)))
      && RepeatsProgress(g, BodyOf(g, n))
  }

  // ---------- Recognition ----------

  datatype Found = Nothing | Str(s: string) | List(nodes: seq<Node>)

  /** What a success adds to the caller's list. */
  function Report(title: Option<string>, found: Found): seq<Node> {
    match title
    case Some(name) =>
      (match found
       case Str(s) => if s != "" then [Leaf(name, s)] else [Symbol(name, [])]
       case List(nodes) => [Symbol(name, nodes)]
       case Nothing => [Symbol(name, [])])
    case None =>
      match found
      case Str(s) => if s != "" then [Text(s)] else []
      case List(nodes) => nodes
      case Nothing => []
  }

  predicate IsSpace(c: char) {
    c == ' ' || '\t' <= c <= '\r'
  }

  function StripLeft(text: string): (rest: string)
    ensures Suffix(rest, text)
  {
    if text != "" && IsSpace(text[0]) then StripLeft(text[1..]) else text
  }

  function Skip<N>(g: Grammar<N>, text: string): (rest: string)
    ensures Suffix(rest, text)
  {
    if g.skipSpace then StripLeft(text) else text
  }

  predicate Suffix(rest: string, text: string) {
    |rest| <= |text| && rest == text[|text| - |rest|..]
  }

  type Parsed = Option<(seq<Node>, string)>

  // A success leaves a suffix; a proper one if the pattern consumes.
  predicate Sound(parsed: Parsed, consumes: bool, text: string) {
    parsed.Some? ==>
      && |parsed.value.1| <= |text| && Suffix(parsed.value.1, text)
      && (consumes ==> |parsed.value.1| < |text|)
  }

  /** parseLine: the nodes a match adds and the rest of the text, or None on a syntax error.
      Termination is part of what is proved here: the text shrinks, or the rules that can still
      be entered on the same text do, or the pattern does. */
  function ParseLine<N(!new)>(g: Grammar<N>, p: Pattern<N>, text: string): (parsed: Parsed)
    requires WellFormed(g) && RepeatsProgress(g, p)
    ensures Sound(parsed, Consumes(g, p), text)
    decreases |text|, LeftRank(g, p), p, 1
  {
    if p.Rule? then ParseAs(g, g.title(p.n), BodyOf(g, p.n), text) else ParseAs(g, None, p, text)
  }

  function ParseAs<N(!new)>(g: Grammar<N>, title: Option<string>, p: Pattern<N>, text: string): (parsed: Parsed)
    requires WellFormed(g) && RepeatsProgress(g, p) && !p.Rule?
    ensures Sound(parsed, Consumes(g, p), text)
    decreases |text|, LeftRank(g, p), p, 0
  {
    match p
    case Not(q) => if ParseLine(g, q, text).None? then Some(([], text)) else None
    case And(q) => if ParseLine(g, q, text).Some? then Some(([], text)) else None
    case Sequence(items) =>
      (match ParseItems(g, items, text)
       case None => None
       case Some((nodes, rest)) => Some((Report(title, List(nodes)), rest)))
    case Choice(options) =>
      (match ParseOptions(g, options, text)
       case None => None
       case Some((nodes, rest)) => Some((Report(title, List(nodes)), rest)))
    case Literal(_) => ParseTerminal(g, title, p, text)
    case Keyword(_) => ParseTerminal(g, title, p, text)
    case Match(_) => ParseTerminal(g, title, p, text)
    case Ignore(_) => ParseTerminal(g, title, p, text)
  }

  // Literal text, a keyword, or a regular expression.
  function ParseTerminal<N>(g: Grammar<N>, title: Option<string>, p: Pattern<N>, text: string): (parsed: Parsed)
    requires p.Literal? || p.Keyword? || p.Match? || p.Ignore?
    ensures Sound(parsed, Consumes(g, p), text)
  {
    match p
    case Literal(lit) =>
      if lit <= text then Some((Report(title, Nothing), Skip(g, text[|lit|..]))) else None
    case Keyword(word) =>
      var n := Run(Word, text);
      if n > 0 && text[..n] == word then Some((Report(title, Nothing), Skip(g, text[n..]))) else None
    case Match(re) =>
      (match ParseRegex(g, re, text)
       case None => None
       case Some((found, rest)) => Some((Report(title, Str(found)), rest)))
    case Ignore(re) =>
      match ParseRegex(g, re, text)
      case None => None
      case Some((_, rest)) => Some((Report(title, Nothing), rest))
  }

  function ParseRegex<N>(g: Grammar<N>, re: Regex, text: string): (matched: Option<(string, string)>)
    ensures matched.Some? ==>
              Suffix(matched.value.1, text) && (RegexConsumes(re) ==> |matched.value.1| < |text|)
  {
    RegexSound(re, text);
    match MatchLength(re, text)
    case None => None
    case Some(n) => Some((text[..n], Skip(g, text[n..])))
  }

  lemma RegexSound(re: Regex, text: string)
    ensures RegexConsumes(re) && MatchLength(re, text).Some? ==> MatchLength(re, text).value >= 1
  {
    if RegexConsumes(re) {
      RegexConsumesSound(re, text);
    }
  }

  // Extends a later parse by the nodes already found.
  function After(nodes: seq<Node>, parsed: Parsed): Parsed {
    match parsed
    case None => None
    case Some((more, rest)) => Some((nodes + more, rest))
  }

  function ParseItems<N(!new)>(g: Grammar<N>, items: Items<N>, text: string): (parsed: Parsed)
    requires WellFormed(g) && ItemsProgress(g, items)
    ensures Sound(parsed, ItemsConsume(g, items), text)
    decreases |text|, ItemsRank(g, items), items, 1
  {
    match items
    case End => Some(([], text))
    case Part(count, p, more) =>
      match ParseItem(g, count, p, text)
      case None => None
      case Some((nodes, rest)) => After(nodes, ParseItems(g, more, rest))
  }

  function ParseItem<N(!new)>(g: Grammar<N>, count: int, p: Pattern<N>, text: string): (parsed: Parsed)
    requires WellFormed(g) && RepeatsProgress(g, p) && (count < 0 ==> Consumes(g, p))
    ensures Sound(parsed, ItemConsumes(g, count, p), text)
    decreases |text|, LeftRank(g, p), p, 4
  {
    if count > 0 then ParseTimes(g, p, count, text)
    else if count == 0 then
      if text == "" then Some(([], text))
      else
        match ParseLine(g, p, text)
        case None => Some(([], text))
        case Some(parsed) => Some(parsed)
    else
      var all := ParseMany(g, p, text);
      if count == -2 && ParseLine(g, p, text).None? then None else Some(all)
  }

  function ParseTimes<N(!new)>(g: Grammar<N>, p: Pattern<N>, count: nat, text: string): (parsed: Parsed)
    requires WellFormed(g) && RepeatsProgress(g, p)
    ensures Sound(parsed, count > 0 && Consumes(g, p), text)
    decreases |text|, LeftRank(g, p), p, 3, count
  {
    if count == 0 then Some(([], text))
    else
      match ParseLine(g, p, text)
      case None => None
      case Some((nodes, rest)) => After(nodes, ParseTimes(g, p, count - 1, rest))
  }

  function ParseMany<N(!new)>(g: Grammar<N>, p: Pattern<N>, text: string): (all: (seq<Node>, string))
    requires WellFormed(g) && RepeatsProgress(g, p) && Consumes(g, p)
    ensures |all.1| <= |text| && Suffix(all.1, text) && (ParseLine(g, p, text).Some? ==> |all.1| < |text|)
    decreases |text|, LeftRank(g, p), p, 2
  {
    match ParseLine(g, p, text)
    case None => ([], text)
    case Some((nodes, rest)) =>
      var (more, end) := ParseMany(g, p, rest);
      (nodes + more, end)
  }

  function ParseOptions<N(!new)>(g: Grammar<N>, options: Options<N>, text: string): (parsed: Parsed)
    requires WellFormed(g) && OptionsProgress(g, options)
    ensures Sound(parsed, OptionsConsume(g, options), text)
    decreases |text|, OptionsRank(g, options), options, 1
  {
    match options
    case NoOption => None
    case Or(p, rest) =>
      match ParseLine(g, p, text)
      case Some(parsed) => Some(parsed)
      case None => ParseOptions(g, rest, text)
  }
}
