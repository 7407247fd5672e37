/**
 What the patterns of the parsing engine (drivers/mdrive/microcode/compile/pyPEG.py) mean,
 in terms of their parts.
 */
module PegLaws {
  import opened Wrappers
  import opened Regexes
  import opened Peg

  /** A look ahead consumes nothing and adds nothing, and holds exactly where its pattern parses, or does not. */
  lemma LookAhead<N(!new)>(g: Grammar<N>, q: Pattern<N>, text: string)
    requires WellFormed(g) && RepeatsProgress(g, q)
    ensures ParseLine(g, And(q), text) == (if ParseLine(g, q, text).Some? then Some(([], text)) else None)
    ensures ParseLine(g, Not(q), text) == (if ParseLine(g, q, text).Some? then None else Some(([], text)))
  {
    assert LeftRank(g, And(q)) >= 0;
  }

  function OptionAt<N>(options: Options<N>, i: nat): Option<Pattern<N>> {
    if options.NoOption? then None else if i == 0 then Some(options.p) else OptionAt(options.rest, i - 1)
  }

  /** A choice is its first option that parses; it fails if and only if all do. */
  lemma {:induction false} FirstThatParses<N(!new)>(g: Grammar<N>, options: Options<N>, text: string)
    returns (i: Option<nat>)
    requires WellFormed(g) && OptionsProgress(g, options)
    ensures forall k: nat :: OptionAt(options, k).Some? ==> RepeatsProgress(g, OptionAt(options, k).value)
    ensures i.None? ==>
              ParseOptions(g, options, text) == None
              && forall k: nat :: OptionAt(options, k).Some? ==> ParseLine(g, OptionAt(options, k).value, text).None?
    ensures i.Some? ==>
              OptionAt(options, i.value).Some?
              && ParseOptions(g, options, text) == ParseLine(g, OptionAt(options, i.value).value, text)
              && ParseOptions(g, options, text).Some?
              && forall k: nat :: k < i.value ==>
                   OptionAt(options, k).Some? && ParseLine(g, OptionAt(options, k).value, text).None?
    decreases options
  {
    if options.NoOption? {
      return None;
    }
    hide ParseLine;
    var rest := FirstThatParses(g, options.rest, text);
    assert forall k: nat :: k > 0 ==> OptionAt(options, k) == OptionAt(options.rest, k - 1);
    assert OptionAt(options, 0) == Some(options.p);
    if ParseLine(g, options.p, text).Some? {
      return Some(0);
    }
    i := if rest.Some? then Some(rest.value + 1) else None;
  }

  /** A repetition is as many of its pattern, one behind the other, as there are: behind the last the pattern
      does not parse. */
  lemma {:induction false} AsManyAsThereAre<N(!new)>(g: Grammar<N>, p: Pattern<N>, text: string) returns (n: nat)
    requires WellFormed(g) && RepeatsProgress(g, p) && Consumes(g, p)
    ensures ParseTimes(g, p, n, text) == Some(ParseMany(g, p, text))
    ensures ParseLine(g, p, ParseMany(g, p, text).1).None?
    ensures n == 0 <==> ParseLine(g, p, text).None?
    decreases |text|
  {
    hide ParseLine, Suffix;
    if ParseLine(g, p, text).None? {
      return 0;
    }
    var rest := ParseLine(g, p, text).value.1;
    var more := AsManyAsThereAre(g, p, rest);
    n := more + 1;
  }

  /** Any number of a pattern and one more: the parts one behind the other. */
  lemma {:induction false} OneMore<N(!new)>(g: Grammar<N>, p: Pattern<N>, n: nat, text: string)
    requires WellFormed(g) && RepeatsProgress(g, p)
    ensures ParseTimes(g, p, n + 1, text)
         == var first := ParseTimes(g, p, n, text);
            if first.None? then None else After(first.value.0, ParseLine(g, p, first.value.1))
    decreases n
  {
    hide ParseLine, Suffix;
    if n > 0 {
      var one := ParseLine(g, p, text);
      if one.Some? {
        var (nodes, rest) := one.value;
        OneMore(g, p, n - 1, rest);
        var first := ParseTimes(g, p, n - 1, rest);
        if first.Some? {
          AfterAfter(nodes, first.value.0, ParseLine(g, p, first.value.1));
        }
      }
    } else {
      var one := ParseLine(g, p, text);
      if one.Some? {
        assert one.value.0 + [] == one.value.0 && [] + one.value.0 == one.value.0;
        assert ParseTimes(g, p, 0, one.value.1) == Some(([], one.value.1));
      }
    }
  }

  lemma AfterAfter(a: seq<Node>, b: seq<Node>, parsed: Parsed)
    ensures After(a, After(b, parsed)) == After(a + b, parsed)
  {
    if parsed.Some? {
      assert a + (b + parsed.value.0) == a + b + parsed.value.0;
    }
  }

  /** What the counts of a part of a tuple stand for: so many; one or none; any number; and at least one. An
      optional part never fails, nor does any number of a pattern. */
  lemma Counted<N(!new)>(g: Grammar<N>, p: Pattern<N>, count: int, text: string)
    requires WellFormed(g) && RepeatsProgress(g, p) && (count < 0 ==> Consumes(g, p))
    ensures count == 1 ==> ParseItem(g, count, p, text) == ParseLine(g, p, text)
    ensures count > 0 ==> ParseItem(g, count, p, text) == ParseTimes(g, p, count, text)
    ensures count == 0 ==>
              ParseItem(g, count, p, text)
              == if text != "" && ParseLine(g, p, text).Some? then ParseLine(g, p, text) else Some(([], text))
    ensures count < 0 && count != -2 ==> ParseItem(g, count, p, text) == Some(ParseMany(g, p, text))
    ensures count == -2 ==>
              ParseItem(g, count, p, text)
              == if ParseLine(g, p, text).Some? then Some(ParseMany(g, p, text)) else None
  {
    hide ParseLine;
    if count == 1 {
      OneMore(g, p, 0, text);
      var one := ParseLine(g, p, text);
      assert ParseTimes(g, p, 0, text) == Some(([], text));
      assert one.Some? ==> [] + one.value.0 == one.value.0;
    }
  }

  /** A literal is the text it stands for, and a keyword the whole word that stands there. */
  lemma Words<N(!new)>(g: Grammar<N>, word: string, text: string)
    requires WellFormed(g) && !g.skipSpace
    ensures ParseLine(g, Literal(word), text) == if word <= text then Some((Report(None, Nothing), text[|word|..])) else None
    ensures
      ParseLine(g, Keyword(word), text).Some? <==>
        && word != "" && word <= text && (forall i :: 0 <= i < |word| ==> IsWord(word[i]))
        && (|word| < |text| ==> !IsWord(text[|word|]))
    ensures ParseLine(g, Keyword(word), text).Some? ==>
              ParseLine(g, Keyword(word), text) == Some((Report(None, Nothing), text[|word|..]))
  {
    var n := Run(Word, text);
    if word <= text && word != "" && (forall i :: 0 <= i < |word| ==> IsWord(word[i]))
       && (|word| < |text| ==> !IsWord(text[|word|])) {
      assert forall i :: 0 <= i < |word| ==> text[i] == word[i];
      assert n == |word|;
    }
  }
}
