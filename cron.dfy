/**
  The cron schedule as `buildEvents` sees it. The grammar and the calendar
  arithmetic belong to the cron library and are not part of this model; a
  parsed schedule is known only through its "next firing time" operation,
  on Unix seconds, which always moves strictly forward.
*/
module Cron {

  /** A parsed five-field schedule: `next(t)` is the first firing strictly after `t`. */
  type Schedule = next: int -> int | Advances(next) witness (t: int) => t + 1

  /** Every firing lies strictly after the instant it was asked about. */
  ghost predicate Advances(next: int -> int) {
    forall t :: next(t) > t
  }

  /** `next` applied `k` times, starting from `t`. */
  function Iterate(s: Schedule, t: int, k: nat): (u: int)
    ensures k > 0 ==> u > t
    decreases k
  {
    if k == 0 then t else Iterate(s, s(t), k - 1)
  }

  /** The firing times recorded by the expansion loop of one line: starting at
      `curr`, while `curr < end`, advance `curr` to the next firing and record
      it. The test comes before the step, so the last time recorded is the
      first firing at or after `end`. */
  function Occurrences(s: Schedule, curr: int, end: int): (times: seq<int>)
    ensures |times| > 0 <==> curr < end
    ensures |times| <= if curr < end then end - curr else 0
    ensures forall i :: 0 <= i < |times| ==> curr < times[i]
    ensures forall i, j :: 0 <= i < j < |times| ==> times[i] < times[j]
    decreases end - curr
  {
    if curr < end then [s(curr)] + Occurrences(s, s(curr), end) else []
  }

  /** One turn of the expansion loop moves the next firing from the times
      still to come to the times recorded. */
  lemma OccurrencesStep(s: Schedule, recorded: seq<int>, curr: int, end: int)
    requires curr < end
    ensures recorded + Occurrences(s, curr, end) == (recorded + [s(curr)]) + Occurrences(s, s(curr), end)
  {

  }

  /** The `k`-th recorded time is `next` applied `k + 1` times to the window start. */
  lemma {:induction false} OccurrencesAreIterates(s: Schedule, start: int, end: int, k: nat)
    requires k < |Occurrences(s, start, end)|
    ensures Occurrences(s, start, end)[k] == Iterate(s, start, k + 1)
    decreases k
  {
    if k > 0 {
      OccurrencesAreIterates(s, s(start), end, k - 1);
    }
  }

  /** Every recorded time but the last lies before `end`; the last lies at or
      after it: the loop overshoots the window by exactly one firing. */
  lemma {:induction false} OccurrencesOvershoot(s: Schedule, start: int, end: int)
    ensures var times := Occurrences(s, start, end);
      && (forall i :: 0 <= i < |times| - 1 ==> times[i] < end)
      && (|times| > 0 ==> times[|times| - 1] >= end)
    decreases end - start
  {
    if start < end {
      var times := Occurrences(s, start, end);
      var rest := Occurrences(s, s(start), end);
      OccurrencesOvershoot(s, s(start), end);
      assert times == [s(start)] + rest;
      if rest != [] {
        assert s(start) < end;
        forall i | 1 <= i < |times| - 1 ensures times[i] < end {
          assert times[i] == rest[i - 1];
        }
      }
    }
  }
}
