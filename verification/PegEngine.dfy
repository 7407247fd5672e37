/**
 parser.parseLine and parser.lineNo as pyPEG.py runs them: lists of nodes are
 heap objects that a success appends to in place, and a syntax error is None.
 */
module PegEngine {
  import opened Wrappers
  import opened Regexes
  import opened Peg

  class NodeList {
    var items: seq<Node>

    constructor ()
      ensures items == []
    {
      items := [];
    }
  }

  /** The shortest rest seen never grows. */
  predicate Lowers(before: Option<nat>, after: Option<nat>) {
    before.Some? ==> after.Some? && after.value <= before.value
  }

  lemma AfterTwice(a: seq<Node>, b: seq<Node>, parsed: Parsed)
    ensures After(a, After(b, parsed)) == After(a + b, parsed) && After([], parsed) == parsed
  {
    if parsed.Some? {
      assert a + (b + parsed.value.0) == a + b + parsed.value.0;
      assert [] + parsed.value.0 == parsed.value.0;
    }
  }

  class Parser<N(!new)> {
    const g: Grammar<N>
    var restlen: Option<nat>

    constructor (g: Grammar<N>)
      ensures this.g == g && restlen == None
    {
      this.g := g;
      restlen := None;
    }

    // The closure R: note the rest, append what was found to the caller's list.
    method Return(title: Option<string>, found: Found, text: string, resultSoFar: NodeList)
      modifies this, resultSoFar
      ensures Lowers(old(restlen), restlen) && restlen.Some? && restlen.value <= |text|
      ensures resultSoFar.items == old(resultSoFar.items) + Report(title, found)
    {
      restlen := if restlen.Some? && restlen.value <= |text| then restlen else Some(|text|);
      resultSoFar.items := resultSoFar.items + Report(title, found);
    }

    /** parseLine. On success exactly the new match is appended; on a syntax error the caller's
        list is as it was, whatever alternatives were tried. */
    method ParseLine(text: string, pattern: Pattern<N>, resultSoFar: NodeList) returns (rest: Option<string>)
      requires WellFormed(g) && RepeatsProgress(g, pattern)
      modifies this, resultSoFar
      ensures match Peg.ParseLine(g, pattern, text)
              case None => rest == None && resultSoFar.items == old(resultSoFar.items)
              case Some((nodes, end)) => rest == Some(end) && resultSoFar.items == old(resultSoFar.items) + nodes
      ensures Lowers(old(restlen), restlen)
      decreases |text|, LeftRank(g, pattern), pattern, 1
    {
      if pattern.Rule? {
        rest := ParseBody(text, BodyOf(g, pattern.n), g.title(pattern.n), resultSoFar);
      } else {
        rest := ParseBody(text, pattern, None, resultSoFar);
      }
    }

    // The part of parseLine below the resolution of a callable.
    method ParseBody(text: string, p: Pattern<N>, title: Option<string>, resultSoFar: NodeList) returns (rest: Option<string>)
      requires WellFormed(g) && RepeatsProgress(g, p) && !p.Rule?
      modifies this, resultSoFar
      ensures match ParseAs(g, title, p, text)
              case None => rest == None && resultSoFar.items == old(resultSoFar.items)
              case Some((nodes, end)) => rest == Some(end) && resultSoFar.items == old(resultSoFar.items) + nodes
      ensures Lowers(old(restlen), restlen)
      decreases |text|, LeftRank(g, p), p, 0
    {
      match p
      case Literal(lit) =>
        if lit <= text {
          rest := Some(Skip(g, text[|lit|..]));
          Return(title, Nothing, rest.value, resultSoFar);
        } else {
          rest := None;
        }
      case Keyword(word) =>
        var n := Run(Word, text);
        if n > 0 && text[..n] == word {
          rest := Some(Skip(g, text[n..]));
          Return(title, Nothing, rest.value, resultSoFar);
        } else {
          rest := None;
        }
      case Match(re) =>
        match ParseRegex(g, re, text) {
          case None => rest := None;
          case Some((found, end)) =>
            rest := Some(end);
            Return(title, Str(found), end, resultSoFar);
        }
      case Ignore(re) =>
        match ParseRegex(g, re, text) {
          case None => rest := None;
          case Some((_, end)) =>
            rest := Some(end);
            Return(title, Nothing, end, resultSoFar);
        }
      case Not(q) =>
        var scratch := new NodeList();
        var r := ParseLine(text, q, scratch);
        rest := if r.None? then Some(text) else None;
      case And(q) =>
        var scratch := new NodeList();
        var r := ParseLine(text, q, scratch);
        rest := if r.Some? then Some(text) else None;
      case Sequence(items) =>
        var result := new NodeList();
        rest := ParseTuple(text, items, result);
        if rest.Some? {
          Return(title, List(result.items), rest.value, resultSoFar);
        }
      case Choice(options) =>
        var result := new NodeList();
        rest := ParseChoice(text, options, result);
        if rest.Some? {
          Return(title, List(result.items), rest.value, resultSoFar);
        }
    }

    // The loop over a tuple.
    method ParseTuple(text: string, items: Items<N>, result: NodeList) returns (rest: Option<string>)
      requires WellFormed(g) && ItemsProgress(g, items) && result.items == []
      modifies this, result
      ensures match ParseItems(g, items, text)
              case None => rest == None
              case Some((nodes, end)) => rest == Some(end) && result.items == nodes
      ensures Lowers(old(restlen), restlen)
      decreases |text|, ItemsRank(g, items), items, 1
    {
      hide Peg.ParseLine, Peg.ParseItem, WellFormed, LeftRank, Consumes, RepeatsProgress;
      var left, t := items, text;
      AfterTwice([], [], ParseItems(g, items, text));
      while left.Part?
        invariant ItemsProgress(g, left) && (left == items || left < items)
        invariant |t| < |text| || (t == text && ItemsRank(g, left) <= ItemsRank(g, items))
        invariant ParseItems(g, items, text) == After(result.items, ParseItems(g, left, t))
        invariant Lowers(old(restlen), restlen)
        decreases left
      {
        ghost var before, later := result.items, ParseItems(g, left, t);
        var r := ParseCounted(t, left.count, left.p, result);
        if r.None? {
          return None;
        }
        AfterTwice(before, ParseItem(g, left.count, left.p, t).value.0, ParseItems(g, left.rest, r.value));
        left, t := left.rest, r.value;
      }
      assert result.items + [] == result.items;
      return Some(t);
    }

    // One part of a tuple, under its count.
    method ParseCounted(text: string, count: int, p: Pattern<N>, result: NodeList) returns (rest: Option<string>)
      requires WellFormed(g) && RepeatsProgress(g, p) && (count < 0 ==> Consumes(g, p))
      modifies this, result
      ensures match ParseItem(g, count, p, text)
              case None => rest == None
              case Some((nodes, end)) => rest == Some(end) && result.items == old(result.items) + nodes
      ensures Lowers(old(restlen), restlen)
      decreases |text|, LeftRank(g, p), p, 4
    {
      if count > 0 {
        rest := ParseRange(text, count, p, result);
      } else if count == 0 {
        if text == "" {
          rest := Some(text);
        } else {
          var r := ParseLine(text, p, result);
          rest := if r.Some? then r else Some(text);
        }
      } else {
        var found, end := ParseRepeated(text, p, result);
        rest := if count == -2 && !found then None else Some(end);
      }
    }

    method ParseRange(text: string, count: nat, p: Pattern<N>, result: NodeList) returns (rest: Option<string>)
      requires WellFormed(g) && RepeatsProgress(g, p)
      modifies this, result
      ensures match ParseTimes(g, p, count, text)
              case None => rest == None
              case Some((nodes, end)) => rest == Some(end) && result.items == old(result.items) + nodes
      ensures Lowers(old(restlen), restlen)
      decreases |text|, LeftRank(g, p), p, 3
    {
      hide Peg.ParseLine, LeftRank, Consumes, RepeatsProgress, WellFormed, Suffix;
      var t := text;
      ghost var nodes: seq<Node> := [];
      AfterTwice([], [], ParseTimes(g, p, count, text));
      for i := 0 to count
        invariant |t| <= |text| && result.items == old(result.items) + nodes
        invariant ParseTimes(g, p, count, text) == After(nodes, ParseTimes(g, p, count - i, t))
        invariant Lowers(old(restlen), restlen)
      {
        var r := ParseLine(t, p, result);
        if r.None? {
          return None;
        }
        ghost var more := Peg.ParseLine(g, p, t).value.0;
        AfterTwice(nodes, more, ParseTimes(g, p, count - i - 1, r.value));
        nodes, t := nodes + more, r.value;
      }
      return Some(t);
    }

    method ParseRepeated(text: string, p: Pattern<N>, result: NodeList) returns (found: bool, end: string)
      requires WellFormed(g) && RepeatsProgress(g, p) && Consumes(g, p)
      modifies this, result
      ensures var all := ParseMany(g, p, text);
              end == all.1 && result.items == old(result.items) + all.0
      ensures found <==> Peg.ParseLine(g, p, text).Some?
      ensures Lowers(old(restlen), restlen)
      decreases |text|, LeftRank(g, p), p, 3
    {
      hide Peg.ParseLine, LeftRank, Consumes, RepeatsProgress, WellFormed, Suffix;
      found, end := false, text;
      ghost var nodes: seq<Node> := [];
      AfterTwice([], [], Some(ParseMany(g, p, text)));
      while true
        invariant |end| <= |text| && result.items == old(result.items) + nodes
        invariant Some(ParseMany(g, p, text)) == After(nodes, Some(ParseMany(g, p, end)))
        invariant if found then Peg.ParseLine(g, p, text).Some? else end == text
        invariant Lowers(old(restlen), restlen)
        decreases |end|
      {
        var r := ParseLine(end, p, result);
        if r.None? {
          break;
        }
        ghost var more := Peg.ParseLine(g, p, end).value.0;
        AfterTwice(nodes, more, Some(ParseMany(g, p, r.value)));
        nodes := nodes + more;
        found, end := true, r.value;
      }
    }

    // The loop over a list of alternatives: the first that matches.
    method ParseChoice(text: string, options: Options<N>, result: NodeList) returns (rest: Option<string>)
      requires WellFormed(g) && OptionsProgress(g, options) && result.items == []
      modifies this, result
      ensures match ParseOptions(g, options, text)
              case None => rest == None
              case Some((nodes, end)) => rest == Some(end) && result.items == nodes
      ensures Lowers(old(restlen), restlen)
      decreases |text|, OptionsRank(g, options), options, 1
    {
      var left := options;
      while left.Or?
        invariant OptionsProgress(g, left) && (left == options || left < options)
        invariant OptionsRank(g, left) <= OptionsRank(g, options) && result.items == []
        invariant ParseOptions(g, options, text) == ParseOptions(g, left, text)
        invariant Lowers(old(restlen), restlen)
        decreases left
      {
        var r := ParseLine(text, left.p, result);
        if r.Some? {
          return r;
        }
        left := left.rest;
      }
      return None;
    }
  }

  // ---------- lineNo ----------

  ghost predicate Ascending(offsets: seq<nat>) {
    forall i, j :: 0 <= i < j < |offsets| ==> offsets[i] < offsets[j]
  }

  // The second of the binary digits is 0.
  predicate SecondDigitIsZero(n: nat) {
    if n < 4 then n == 2 else SecondDigitIsZero(n / 2)
  }

  /** The binary search of lineNo over the offsets at which lines start: the entry at which a one-based
      position ends its line, or None (the empty string) in the last line. The offset of the last line
      itself ends the line before it for some numbers of lines and not for others. */
  method LineNo(offsets: seq<nat>, parsed: nat) returns (entry: Option<nat>)
    requires offsets != [] && offsets[0] == 0 && Ascending(offsets) && parsed > 0
    ensures entry.Some? ==> 0 < entry.value < |offsets| && offsets[entry.value - 1] <= parsed <= offsets[entry.value]
    ensures parsed < offsets[|offsets| - 1] ==> entry.Some?
    ensures parsed > offsets[|offsets| - 1] ==> entry.None?
    ensures parsed == offsets[|offsets| - 1] ==> (entry.Some? <==> SecondDigitIsZero(|offsets| + 1))
  {
    var left, right := 0, |offsets|;
    ghost var last := offsets[|offsets| - 1];
    while true
      invariant 0 <= left < |offsets| && left <= right <= |offsets|
      invariant offsets[left] <= parsed
      invariant right < |offsets| - 1 ==> parsed < offsets[right + 1]
      invariant parsed >= last ==> right == |offsets|
      invariant parsed == last ==> 2 <= right - left
      invariant parsed == last ==> SecondDigitIsZero(right - left + 1) == SecondDigitIsZero(|offsets| + 1)
      decreases right - left
    {
      var mid := (right + left) / 2;
      if offsets[mid] <= parsed {
        if mid + 1 < |offsets| {
          if offsets[mid + 1] >= parsed {
            return Some(mid + 1);
          } else {
            left := mid + 1;
          }
        } else {
          return None;
        }
      } else {
        right := mid - 1;
      }
      if left > right {
        return None;
      }
    }
  }
}
