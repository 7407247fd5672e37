/**
 The regular expressions the microcode grammar uses: alternatives of runs of
 character classes. Each run is taken greedily; where neighbouring classes are
 disjoint that is what a backtracking matcher finds too. Characters are ASCII.
 */
module Regexes {
  import opened Wrappers

  datatype CharClass =
    | Only(c: char)
    | AnyOf(cs: string)
    | Blank               // [ \t]
    | Alpha               // [A-Za-z]
    | Digit               // \d
    | Word                // \w
    | WordOrDot           // [\w_.]
    | NotQuote            // [^"]
    | NotNewline          // .

  predicate IsDigit(c: char) {
    '0' <= c <= '9'
  }

  predicate IsAlpha(c: char) {
    'a' <= c <= 'z' || 'A' <= c <= 'Z'
  }

  predicate IsWord(c: char) {
    IsAlpha(c) || IsDigit(c) || c == '_'
  }

  predicate IsBlank(c: char) {
    c == ' ' || c == '\t'
  }

  predicate InClass(c: char, k: CharClass) {
    match k
    case Only(d) => c == d
    case AnyOf(cs) => c in cs
    case Blank => IsBlank(c)
    case Alpha => IsAlpha(c)
    case Digit => IsDigit(c)
    case Word => IsWord(c)
    case WordOrDot => IsWord(c) || c == '.'
    case NotQuote => c != '"'
    case NotNewline => c != '\n'
  }

  datatype Count = Once | AtMostOnce | Any | AtLeastOnce

  datatype Pieces = Done | Piece(k: CharClass, count: Count, more: Pieces)

  datatype Regex = Never | Alt(pieces: Pieces, others: Regex)

  /** The length of the longest prefix of characters of a class. */
  function Run(k: CharClass, text: string): (n: nat)
    ensures n <= |text|
    ensures forall i :: 0 <= i < n ==> InClass(text[i], k)
    ensures n < |text| ==> !InClass(text[n], k)
  {
    if text != "" && InClass(text[0], k) then 1 + Run(k, text[1..]) else 0
  }

  function Taken(k: CharClass, count: Count, text: string): (n: Option<nat>)
    ensures n.Some? ==> n.value <= |text|
  {
    var n := Run(k, text);
    match count
    case Once => if n >= 1 then Some(1) else None
    case AtMostOnce => Some(if n >= 1 then 1 else 0)
    case Any => Some(n)
    case AtLeastOnce => if n >= 1 then Some(n) else None
  }

  function MatchPieces(ps: Pieces, text: string): (n: Option<nat>)
    ensures n.Some? ==> n.value <= |text|
  {
    match ps
    case Done => Some(0)
    case Piece(k, count, more) =>
      match Taken(k, count, text)
      case None => None
      case Some(n) =>
        match MatchPieces(more, text[n..])
        case None => None
        case Some(m) => Some(n + m)
  }

  /** The length of the match at the start of the text; the first alternative that matches. */
  function MatchLength(r: Regex, text: string): (n: Option<nat>)
    ensures n.Some? ==> n.value <= |text|
  {
    match r
    case Never => None
    case Alt(ps, others) =>
      match MatchPieces(ps, text)
      case Some(n) => Some(n)
      case None => MatchLength(others, text)
  }

  predicate PiecesConsume(ps: Pieces) {
    ps.Piece? && (ps.count.Once? || ps.count.AtLeastOnce? || PiecesConsume(ps.more))
  }

  /** Every match is non-empty. */
  predicate RegexConsumes(r: Regex) {
    r.Never? || (PiecesConsume(r.pieces) && RegexConsumes(r.others))
  }

  lemma {:induction false} PiecesConsumeSound(ps: Pieces, text: string)
    requires PiecesConsume(ps)
    ensures MatchPieces(ps, text).Some? ==> MatchPieces(ps, text).value >= 1
    decreases ps
  {
    if !ps.count.Once? && !ps.count.AtLeastOnce? {
      PiecesConsumeSound(ps.more, text[Taken(ps.k, ps.count, text).value..]);
    }
  }

  lemma {:induction false} RegexConsumesSound(r: Regex, text: string)
    requires RegexConsumes(r)
    ensures MatchLength(r, text).Some? ==> MatchLength(r, text).value >= 1
    decreases r
  {
    if r.Alt? {
      PiecesConsumeSound(r.pieces, text);
      RegexConsumesSound(r.others, text);
    }
  }

  // ---------- Backtracking ----------

  function Least(count: Count): nat {
    if count.Once? || count.AtLeastOnce? then 1 else 0
  }

  function Most(k: CharClass, count: Count, text: string): (n: nat)
    ensures n <= Run(k, text)
  {
    var n := Run(k, text);
    if (count.Once? || count.AtMostOnce?) && n > 1 then 1 else n
  }

  /** A backtracking matcher: it tries a longer run before a shorter one. */
  function Backtrack(ps: Pieces, text: string): (n: Option<nat>)
    decreases ps, |text| + 1
  {
    if ps.Done? then Some(0) else BacktrackFrom(ps, Most(ps.k, ps.count, text), text)
  }

  function BacktrackFrom(ps: Pieces, m: nat, text: string): (n: Option<nat>)
    requires ps.Piece? && m <= |text|
    decreases ps, m
  {
    if m < Least(ps.count) then None
    else
      match Backtrack(ps.more, text[m..])
      case Some(n) => Some(m + n)
      case None => if m == 0 then None else BacktrackFrom(ps, m - 1, text)
  }

  ghost predicate Disjoint(k: CharClass, l: CharClass) {
    forall c: char :: InClass(c, k) ==> !InClass(c, l)
  }

  /** What follows a run of variable length is nothing, or a character the run could not have taken. */
  ghost predicate Separated(ps: Pieces) {
    ps.Piece? ==>
      && Separated(ps.more)
      && (ps.count.Once? || ps.more.Done? || (Least(ps.more.count) == 1 && Disjoint(ps.k, ps.more.k)))
  }

  lemma TakenIsMost(k: CharClass, count: Count, text: string)
    ensures
      var most := Most(k, count, text);
      Taken(k, count, text) == if most >= Least(count) then Some(most) else None
  {
    hide Run;
  }

  lemma NothingTaken(ps: Pieces, text: string)
    requires ps.Piece? && Least(ps.count) == 1 && (text == "" || !InClass(text[0], ps.k))
    ensures Backtrack(ps, text) == None
  {
    assert Run(ps.k, text) == 0;
    hide Run;
  }

  /** With separated pieces, giving characters back never helps: greedy and backtracking agree. */
  lemma {:induction false} GreedyIsBacktracking(ps: Pieces, text: string)
    requires Separated(ps)
    ensures Backtrack(ps, text) == MatchPieces(ps, text)
    decreases ps
  {
    hide Taken, Most, Run, Disjoint;
    if ps.Piece? {
      var most := Most(ps.k, ps.count, text);
      TakenIsMost(ps.k, ps.count, text);
      if most >= Least(ps.count) {
        GreedyIsBacktracking(ps.more, text[most..]);
        if Backtrack(ps.more, text[most..]).None? && most > 0 {
          ShorterFails(ps, most - 1, text);
        }
      }
    }
  }

  lemma {:induction false} ShorterFails(ps: Pieces, m: nat, text: string)
    requires Separated(ps) && ps.Piece? && m < Most(ps.k, ps.count, text)
    requires Backtrack(ps.more, text[Most(ps.k, ps.count, text)..]) == None
    ensures BacktrackFrom(ps, m, text) == None
    decreases m
  {
    hide Run;
    if m >= Least(ps.count) {
      assert InClass(text[m], ps.k) && text[m..][0] == text[m];
      if ps.more.Piece? {
        NothingTaken(ps.more, text[m..]);
      }
      if m > 0 {
        ShorterFails(ps, m - 1, text);
      }
    }
  }
}
