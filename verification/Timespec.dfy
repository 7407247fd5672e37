/** Timestamps as struct timespec, and tsAdd (lib/message.c). */
module Timespecs {

  const BILLION := 1_000_000_000

  datatype Time = Time(sec: int, nsec: int) {
    /** The lexicographic order that the timer list is searched with. */
    predicate Earlier(other: Time) {
      sec < other.sec || (sec == other.sec && nsec < other.nsec)
    }

    function Nanoseconds(): int {
      sec * BILLION + nsec
    }

    // What pthread_cond_timedwait accepts.
    predicate Normal() {
      0 <= nsec < BILLION
    }

    // What mcCallbackAbs accepts for tv_nsec: one nanosecond count too many.
    predicate NearlyNormal() {
      0 <= nsec <= BILLION
    }
  }

  class Timespec {
    var sec: int
    var nsec: int

    constructor (t: Time)
      ensures Value() == t
    {
      sec, nsec := t.sec, t.nsec;
    }

    function Value(): Time
      reads this
    {
      Time(sec, nsec)
    }
  }

  /** tsAdd: the sum may be written over either operand. */
  method TsAdd(a: Timespec, b: Timespec, total: Timespec)
    modifies total
    ensures total.Value().Nanoseconds() == old(a.Value().Nanoseconds() + b.Value().Nanoseconds())
    ensures total.Value() == Sum(old(a.Value()), old(b.Value()))
  {
    total.sec := a.sec + b.sec;
    total.nsec := a.nsec + b.nsec;
    if total.nsec > BILLION {
      total.nsec := total.nsec - BILLION;
      total.sec := total.sec + 1;
    }
  }

  function Sum(a: Time, b: Time): Time {
    if a.nsec + b.nsec > BILLION then Time(a.sec + b.sec + 1, a.nsec + b.nsec - BILLION)
    else Time(a.sec + b.sec, a.nsec + b.nsec)
  }

  /** Nearly normal operands give a nearly normal sum; two normal ones miss being normal
      exactly when their nanoseconds add up to one second. */
  lemma SumRange(a: Time, b: Time)
    requires a.NearlyNormal() && b.NearlyNormal()
    ensures Sum(a, b).NearlyNormal()
    ensures a.Normal() && b.Normal() ==> (Sum(a, b).Normal() <==> a.nsec + b.nsec != BILLION)
    ensures Sum(a, b).Nanoseconds() == a.Nanoseconds() + b.Nanoseconds()
  {
  }

  /** The list's lexicographic order agrees with elapsed time, up to the one tie of 1e9 ns. */
  lemma OrderAgrees(a: Time, b: Time)
    requires a.NearlyNormal() && b.NearlyNormal()
    ensures a.Nanoseconds() < b.Nanoseconds() ==> a.Earlier(b)
    ensures a.Earlier(b) ==> a.Nanoseconds() <= b.Nanoseconds()
    ensures a.Normal() && b.Normal() ==> (a.Earlier(b) <==> a.Nanoseconds() < b.Nanoseconds())
  {
  }
}
