/**
 The test-script interpreter of lib/python/cli/modules/test.py, as far as it moves
 through a script: goto, call, return and the atexit routines. What a statement does
 when it is executed — conditions included — is given by a list of outcomes.
 */
module Script {
  import opened Wrappers

  type Labels = map<string, int>

  /** The outcome of executing one statement. Stop is what succeed, fail and abort give. */
  datatype Outcome = Other | Goto(name: string) | Call(name: string) | Return | Stop

  /** The next statement, absent once a return has taken the None that atexit leaves; and the stack. */
  datatype State = State(next: Option<int>, stack: seq<Option<int>>)

  function Jump(labels: Labels, s: State, name: string): State {
    if name in labels then s.(next := Some(labels[name] - 1)) else s
  }

  // What a statement does to the state; the loop adds one to next afterwards.
  function Executed(labels: Labels, s: State, outcome: Outcome): State {
    match outcome
    case Other => s
    case Goto(name) => Jump(labels, s, name)
    case Call(name) => Jump(labels, s.(stack := s.stack + [s.next]), name)
    case Return => if s.stack == [] then s else State(s.stack[|s.stack| - 1], s.stack[..|s.stack| - 1])
    case Stop => s
  }

  /** Where a run of the script is: at a statement, or ended. */
  datatype Place = At(line: int, stack: seq<Option<int>>) | Ended(stack: seq<Option<int>>)

  function Next(labels: Labels, line: int, stack: seq<Option<int>>, outcome: Outcome): Place {
    var s := Executed(labels, State(Some(line), stack), outcome);
    if outcome.Stop? || s.next.None? then Ended(s.stack) else At(s.next.value + 1, s.stack)
  }

  /** The place after some outcomes; a run past the last statement has ended. */
  function Run(labels: Labels, size: nat, p: Place, outcomes: seq<Outcome>): Place
    decreases |outcomes|
  {
    if p.Ended? then p
    else if p.line >= size then Ended(p.stack)
    else if outcomes == [] then p
    else Run(labels, size, Next(labels, p.line, p.stack, outcomes[0]), outcomes[1..])
  }

  // ---------- The interpreter ----------

  class Context {
    const labels: Labels
    var next: Option<int>
    var stack: seq<Option<int>>

    constructor (labels: Labels)
      ensures this.labels == labels && next == None && stack == []
    {
      this.labels, next, stack := labels, None, [];
    }

    ghost function View(): State
      reads this
    {
      State(next, stack)
    }

    method DoGoto(name: string)
      modifies this`next
      ensures View() == Jump(labels, old(View()), name)
    {
      if name !in labels {
        return;
      }
      next := Some(labels[name] - 1);
    }

    method DoCall(name: string)
      modifies this
      ensures View() == Executed(labels, old(View()), Call(name))
    {
      stack := stack + [next];
      DoGoto(name);
    }

    method DoReturn()
      modifies this
      ensures View() == Executed(labels, old(View()), Return)
    {
      if |stack| == 0 {
        return;
      }
      next := stack[|stack| - 1];
      stack := stack[..|stack| - 1];
    }

    method Execute(outcome: Outcome) returns (stop: bool)
      modifies this
      ensures View() == Executed(labels, old(View()), outcome) && stop == outcome.Stop?
    {
      stop := false;
      match outcome
      case Other =>
      case Goto(name) => DoGoto(name);
      case Call(name) => DoCall(name);
      case Return => DoReturn();
      case Stop => stop := true;
    }

    /** Executes statements until the script ends or the outcomes given are used up. */
    method ExecuteScript(start: int, size: nat, outcomes: seq<Outcome>) returns (place: Place)
      modifies this
      ensures place == Run(labels, size, At(start, old(stack)), outcomes) && place.stack == stack
    {
      next := Some(start);
      var k := 0;
      ghost var whole := Run(labels, size, At(start, stack), outcomes);
      assert outcomes[0..] == outcomes;
      while next.value < size && k < |outcomes|
        invariant next.Some? && 0 <= k <= |outcomes|
        invariant Run(labels, size, At(next.value, stack), outcomes[k..]) == whole
        decreases |outcomes| - k
      {
        assert outcomes[k..][0] == outcomes[k] && outcomes[k..][1..] == outcomes[k + 1..];
        var stop := Execute(outcomes[k]);
        k := k + 1;
        if stop {
          return Ended(stack);
        }
        if next.None? {
          return Ended(stack);
        }
        next := Some(next.value + 1);
      }
      return if next.value >= size then Ended(stack) else At(next.value, stack);
    }
  }

  // ---------- Single statements ----------

  /** Where a run goes from a statement: on to the next; to the label of a goto or call, which notes the place
      to return to, or on if there is no such label; back behind the call on a return, and on if there is none;
      and nowhere on a stop. */
  lemma WhereNext(labels: Labels, size: nat, line: int, stack: seq<Option<int>>, name: string, more: seq<Outcome>)
    requires line < size
    ensures Run(labels, size, At(line, stack), [Other] + more) == Run(labels, size, At(line + 1, stack), more)
    ensures Run(labels, size, At(line, stack), [Stop] + more) == Ended(stack)
    ensures Run(labels, size, At(line, stack), [Goto(name)] + more)
         == Run(labels, size, At(if name in labels then labels[name] else line + 1, stack), more)
    ensures Run(labels, size, At(line, stack), [Call(name)] + more)
         == Run(labels, size, At(if name in labels then labels[name] else line + 1, stack + [Some(line)]), more)
    ensures Run(labels, size, At(line, stack), [Return] + more)
         == if stack == [] then Run(labels, size, At(line + 1, []), more)
            else
              var (entry, rest) := (stack[|stack| - 1], stack[..|stack| - 1]);
              if entry.None? then Ended(rest) else Run(labels, size, At(entry.value + 1, rest), more)
  {
    NextPlace(labels, line, stack, name);
    hide Next;
    FirstOutcome(labels, size, line, stack, Other, more);
    FirstOutcome(labels, size, line, stack, Stop, more);
    FirstOutcome(labels, size, line, stack, Goto(name), more);
    FirstOutcome(labels, size, line, stack, Call(name), more);
    FirstOutcome(labels, size, line, stack, Return, more);
    EndedStays(labels, size, stack, more);
    if stack != [] {
      EndedStays(labels, size, stack[..|stack| - 1], more);
    }
    hide Run;
  }

  lemma NextPlace(labels: Labels, line: int, stack: seq<Option<int>>, name: string)
    ensures Next(labels, line, stack, Other) == At(line + 1, stack) && Next(labels, line, stack, Stop) == Ended(stack)
    ensures Next(labels, line, stack, Goto(name)) == At(if name in labels then labels[name] else line + 1, stack)
    ensures Next(labels, line, stack, Call(name))
         == At(if name in labels then labels[name] else line + 1, stack + [Some(line)])
    ensures Next(labels, line, stack, Return)
         == if stack == [] then At(line + 1, [])
            else
              var (entry, rest) := (stack[|stack| - 1], stack[..|stack| - 1]);
              if entry.None? then Ended(rest) else At(entry.value + 1, rest)
  {
  }

  lemma FirstOutcome(labels: Labels, size: nat, line: int, stack: seq<Option<int>>, o: Outcome, more: seq<Outcome>)
    requires line < size
    ensures Run(labels, size, At(line, stack), [o] + more) == Run(labels, size, Next(labels, line, stack, o), more)
  {
    hide Next;
    assert ([o] + more)[1..] == more;
  }

  lemma EndedStays(labels: Labels, size: nat, stack: seq<Option<int>>, more: seq<Outcome>)
    ensures Run(labels, size, Ended(stack), more) == Ended(stack)
  {
  }

  // ---------- Stack discipline ----------

  /** The stack stays above a base: it starts with the base's entries and has more. */
  predicate Above(stack: seq<Option<int>>, base: seq<Option<int>>, entry: Option<int>) {
    base + [entry] <= stack
  }

  // The run does not come back to the base within these outcomes.
  predicate StaysUp(labels: Labels, size: nat, p: Place, outcomes: seq<Outcome>, height: nat) {
    forall k :: 0 <= k <= |outcomes| ==> |Run(labels, size, p, outcomes[..k]).stack| > height
  }

  lemma StepAbove(
    labels: Labels, line: int, stack: seq<Option<int>>, outcome: Outcome,
    base: seq<Option<int>>, entry: Option<int>)
    requires Above(stack, base, entry)
    ensures
      var p := Next(labels, line, stack, outcome);
      if |p.stack| > |base| then Above(p.stack, base, entry)
      else p.stack == base && (if entry.None? then p == Ended(base) else p == At(entry.value + 1, base))
  {
    if outcome.Return? {
      assert stack[..|base| + 1] == base + [entry];
      if |stack| == |base| + 1 {
        assert stack == base + [entry] && stack[..|stack| - 1] == base;
      }
    }
  }

  lemma {:induction false} RunSplit(labels: Labels, size: nat, p: Place, a: seq<Outcome>, b: seq<Outcome>)
    ensures Run(labels, size, p, a + b) == Run(labels, size, Run(labels, size, p, a), b)
    decreases |a|
  {
    if a == [] {
      assert a + b == b;
    } else if p.At? && p.line < size {
      assert (a + b)[1..] == a[1..] + b;
      RunSplit(labels, size, Next(labels, p.line, p.stack, a[0]), a[1..], b);
    }
  }

  lemma {:induction false} RunAbove(
    labels: Labels, size: nat, p: Place, outcomes: seq<Outcome>, base: seq<Option<int>>, entry: Option<int>)
    requires Above(p.stack, base, entry) && StaysUp(labels, size, p, outcomes, |base|)
    ensures Above(Run(labels, size, p, outcomes).stack, base, entry)
    decreases |outcomes|
  {
    if outcomes != [] {
      var n := |outcomes| - 1;
      var most := outcomes[..n];
      forall k | 0 <= k <= n
        ensures |Run(labels, size, p, most[..k]).stack| > |base|
      {
        assert most[..k] == outcomes[..k];
      }
      RunAbove(labels, size, p, most, base, entry);
      var q := Run(labels, size, p, most);
      assert outcomes == most + [outcomes[n]];
      RunSplit(labels, size, p, most, [outcomes[n]]);
      assert outcomes[..n + 1] == outcomes;
      if q.At? && q.line < size {
        StepAbove(labels, q.line, q.stack, outcomes[n], base, entry);
        OneOutcome(labels, size, q, outcomes[n]);
      }
    }
  }

  lemma OneOutcome(labels: Labels, size: nat, q: Place, outcome: Outcome)
    requires q.At? && q.line < size
    ensures Run(labels, size, q, [outcome]).stack == Next(labels, q.line, q.stack, outcome).stack
    ensures
      var p := Next(labels, q.line, q.stack, outcome);
      Run(labels, size, q, [outcome]) == if p.At? && p.line >= size then Ended(p.stack) else p
  {
    assert [outcome][1..] == [];
  }

  /** The moment the stack is back at its base, it is the base, and the run is where the entry above the
      base says: at the statement after it, or ended if the entry is None. */
  lemma ReturnsToEntry(
    labels: Labels, size: nat, p: Place, outcomes: seq<Outcome>, last: Outcome,
    base: seq<Option<int>>, entry: Option<int>)
    requires Above(p.stack, base, entry) && StaysUp(labels, size, p, outcomes, |base|)
    requires |Run(labels, size, p, outcomes + [last]).stack| <= |base|
    ensures
      var q := Run(labels, size, p, outcomes + [last]);
      q == if entry.Some? && entry.value + 1 < size then At(entry.value + 1, base) else Ended(base)
  {
    RunAbove(labels, size, p, outcomes, base, entry);
    RunSplit(labels, size, p, outcomes, [last]);
    var q := Run(labels, size, p, outcomes);
    if q.At? && q.line < size {
      StepAbove(labels, q.line, q.stack, last, base, entry);
      OneOutcome(labels, size, q, last);
    }
  }

  /** A call of a defined label whose body is balanced resumes at the statement after the call, with the
      stack as it was: whatever calls, jumps and failures the body goes through. */
  lemma CallResumes(
    labels: Labels, size: nat, line: int, stack: seq<Option<int>>, name: string,
    body: seq<Outcome>, last: Outcome)
    requires name in labels && line + 1 < size
    requires StaysUp(labels, size, At(labels[name], stack + [Some(line)]), body, |stack|)
    requires |Run(labels, size, At(labels[name], stack + [Some(line)]), body + [last]).stack| <= |stack|
    ensures Run(labels, size, At(line, stack), [Call(name)] + (body + [last])) == At(line + 1, stack)
  {
    var all := [Call(name)] + (body + [last]);
    assert all[0] == Call(name) && all[1..] == body + [last];
    assert Next(labels, line, stack, Call(name)) == At(labels[name], stack + [Some(line)]);
    ReturnsToEntry(labels, size, At(labels[name], stack + [Some(line)]), body, last, stack, Some(line));
  }

  /** An atexit routine ends at its own return, and leaves what the main script had left on the stack. */
  lemma AtexitEnds(
    labels: Labels, size: nat, name: string, left: seq<Option<int>>, body: seq<Outcome>, last: Outcome)
    requires name in labels
    requires StaysUp(labels, size, At(labels[name], left + [None]), body, |left|)
    requires |Run(labels, size, At(labels[name], left + [None]), body + [last]).stack| <= |left|
    ensures Run(labels, size, At(labels[name], left + [None]), body + [last]) == Ended(left)
  {
    ReturnsToEntry(labels, size, At(labels[name], left + [None]), body, last, left, None);
  }

  /** A call of an undefined label is an error message only: the script goes on at the next statement with
      one entry too many, so that a later return comes back to that same statement. */
  lemma UndefinedCallLeavesEntry(labels: Labels, size: nat, line: int, stack: seq<Option<int>>, name: string)
    requires name !in labels && 0 <= line && line + 1 < size
    ensures Run(labels, size, At(line, stack), [Call(name)]) == At(line + 1, stack + [Some(line)])
    ensures Run(labels, size, At(line, stack), [Call(name), Return]) == At(line + 1, stack)
  {
    assert [Call(name)][1..] == [] && [Call(name), Return][1..] == [Return] && [Return][1..] == [];
    assert (stack + [Some(line)])[..|stack|] == stack;
  }

  // ---------- cmdloop ----------

  /** The main script, then the atexit routines, each above the None that is pushed for it. */
  function AllRoutines(
    labels: Labels, size: nat, names: seq<string>, stack: seq<Option<int>>, bodies: seq<seq<Outcome>>):
      seq<Option<int>>
    requires |names| == |bodies| && forall i :: 0 <= i < |names| ==> names[i] in labels
    decreases |names|
  {
    if names == [] then stack
    else
      var p := Run(labels, size, At(labels[names[0]], stack + [None]), bodies[0]);
      assert forall i :: 0 <= i < |names[1..]| ==> names[1..][i] == names[i + 1];
      AllRoutines(labels, size, names[1..], p.stack, bodies[1..])
  }

  // The routine comes down to the stack it was started on with its last outcome, and not before.
  predicate Balanced(labels: Labels, size: nat, start: int, stack: seq<Option<int>>, body: seq<Outcome>) {
    && body != []
    && StaysUp(labels, size, At(start, stack + [None]), body[..|body| - 1], |stack|)
    && |Run(labels, size, At(start, stack + [None]), body).stack| <= |stack|
  }

  /** Routines that end in their own return all find, and leave, the stack of the main script. */
  lemma {:induction false} RoutinesKeepStack(
    labels: Labels, size: nat, names: seq<string>, stack: seq<Option<int>>, bodies: seq<seq<Outcome>>)
    requires |names| == |bodies| && forall i :: 0 <= i < |names| ==> names[i] in labels
    requires forall i :: 0 <= i < |names| ==> Balanced(labels, size, labels[names[i]], stack, bodies[i])
    ensures AllRoutines(labels, size, names, stack, bodies) == stack
    decreases |names|
  {
    if names != [] {
      var body := bodies[0];
      assert Balanced(labels, size, labels[names[0]], stack, body);
      var n := |body| - 1;
      assert body == body[..n] + [body[n]];
      AtexitEnds(labels, size, names[0], stack, body[..n], body[n]);
      forall i | 0 <= i < |names[1..]|
        ensures names[1..][i] in labels && Balanced(labels, size, labels[names[1..][i]], stack, bodies[1..][i])
      {
        assert names[1..][i] == names[i + 1] && bodies[1..][i] == bodies[i + 1];
      }
      RoutinesKeepStack(labels, size, names[1..], stack, bodies[1..]);
    }
  }
}
