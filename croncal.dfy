/**
  `buildEvents` of croncal: crontab text in, an ordered list of calendar
  events out. The text is cut into lines; lines starting with `#` are
  dropped; every remaining non-empty line is cut on single spaces into five
  timing fields and a command; the timing is parsed into a schedule, and the
  schedule is walked forward from the window start, one event per firing,
  until the walk has reached the window end.

  The cron parser is a parameter (`parse`), since its grammar lives in a
  library outside the model; timestamps are Unix seconds.
*/
module CronCal {
  import opened GoStrings
  import opened Cron

  /** One calendar entry: the command of its line and the firing time. */
  datatype Event = Event(title: string, start: int)

  datatype Error =
    /** The line has fewer than five space-separated fields. Go indexes the
        missing field and panics; the model returns this error instead. */
    | FieldsMissing(line: string)
    /** The cron parser refused the timing fields. */
    | ParseFailed(message: string)

  datatype Result<T> = Ok(value: T) | Err(error: Error)

  /** What the cron parser returns for a timing string. */
  datatype ParseResult = Parsed(schedule: Schedule) | Invalid(message: string)

  /** A crontab line cut into its timing (five fields) and its command. */
  datatype Spec = Spec(timing: string, command: string)

  /** `strings.HasPrefix(line, "#")`: a comment starts at column 0. */
  predicate IsComment(line: string) {
    |line| > 0 && line[0] == '#'
  }

  /** The lines that survive the comment filter, in their original order. */
  function Specs(lines: seq<string>): (specs: seq<string>)
    ensures |specs| <= |lines|
  {
    if lines == [] then []
    else (if IsComment(lines[0]) then [] else [lines[0]]) + Specs(lines[1..])
  }

  /** Cuts a line on single spaces: the first five fields, rejoined by single
      spaces, are the timing; the rest, rejoined likewise, is the command.
      With fewer than five fields (fewer than four spaces) there is no timing. */
  function SplitSpec(line: string): Result<Spec> {
    var fields := Split(line, ' ');
    if |fields| < 5 then Err(FieldsMissing(line))
    else Ok(Spec(Join(fields[..5], ' '), Join(fields[5..], ' ')))
  }

  /** The events of one line, given the window: nothing for an empty line,
      the first error for a malformed one, otherwise one event per recorded
      firing, all titled with the line's command. */
  function LineEvents(line: string, parse: string -> ParseResult, start: int, end: int): Result<seq<Event>>
  {
    if |line| == 0 then Ok([])
    else match SplitSpec(line)
      case Err(e) => Err(e)
      case Ok(spec) =>
        match parse(spec.timing)
        case Invalid(message) => Err(ParseFailed(message))
        case Parsed(s) => Ok(Run(spec.command, Occurrences(s, start, end)))
  }

  /** The events for a list of times, all with the same title. */
  function Run(title: string, times: seq<int>): seq<Event> {
    if times == [] then [] else [Event(title, times[0])] + Run(title, times[1..])
  }

  /** The lines' events one after another, or the error of the first line
      that fails. */
  function ExpandAll(specs: seq<string>, parse: string -> ParseResult, start: int, end: int): Result<seq<Event>>
  {
    if specs == [] then Ok([])
    else match LineEvents(specs[0], parse, start, end)
      case Err(e) => Err(e)
      case Ok(first) =>
        match ExpandAll(specs[1..], parse, start, end)
        case Err(e) => Err(e)
        case Ok(rest) => Ok(first + rest)
  }

  /** What `buildEvents(input, start, end)` returns. */
  function Events(input: string, parse: string -> ParseResult, start: int, end: int): Result<seq<Event>>
  {
    ExpandAll(Specs(Split(input, '\n')), parse, start, end)
  }

  /** `buildEvents`: filter the comment lines into `specs`, then for each
      non-empty spec append the events of the walk from `start` to `end`. */
  method BuildEvents(input: string, parse: string -> ParseResult, start: int, end: int)
    returns (r: Result<seq<Event>>)
    ensures r == Events(input, parse, start, end)
  {
    var lines := Split(input, '\n');
    var specs: seq<string> := [];
    for i := 0 to |lines|
      invariant specs == Specs(lines[..i])
    {
      SpecsAppend(lines[..i], [lines[i]]);
      assert lines[..i + 1] == lines[..i] + [lines[i]];
      if !IsComment(lines[i]) {
        specs := specs + [lines[i]];
      }
    }
    assert lines[..|lines|] == lines;

    var events: seq<Event> := [];
    for k := 0 to |specs|
      invariant ExpandAll(specs[..k], parse, start, end) == Ok(events)
    {
      var line := specs[k];
      if |line| == 0 {
        ExpandAllStep(specs, k, parse, start, end);
        continue;
      }
      var fields := SplitSpec(line);
      if fields.Err? {
        // Go indexes a missing field here and panics.
        ExpandAllStep(specs, k, parse, start, end);
        return Err(fields.error);
      }
      var timing, command := fields.value.timing, fields.value.command;
      var parsed := parse(timing);
      if parsed.Invalid? {
        ExpandAllStep(specs, k, parse, start, end);
        return Err(ParseFailed(parsed.message));
      }
      events := AppendFirings(events, parsed.schedule, command, start, end);
      assert LineEvents(line, parse, start, end) == Ok(Run(command, Occurrences(parsed.schedule, start, end)));
      ExpandAllStep(specs, k, parse, start, end);
    }
    assert specs[..|specs|] == specs;
    r := Ok(events);
  }

  /** The inner loop of `buildEvents`: walk `curr` from `start`, and while it
      is before `end`, advance it to the next firing and append an event for
      that firing. */
  method AppendFirings(events: seq<Event>, sched: Schedule, title: string, start: int, end: int)
    returns (out: seq<Event>)
    ensures out == events + Run(title, Occurrences(sched, start, end))
  {
    out := events;
    ghost var recorded: seq<int> := [];
    var curr := start;
    while curr < end
      invariant Occurrences(sched, start, end) == recorded + Occurrences(sched, curr, end)
      invariant out == events + Run(title, recorded)
      decreases end - curr
    {
      OccurrencesStep(sched, recorded, curr, end);
      curr := sched(curr);
      out := out + [Event(title, curr)];
      RunAppend(title, recorded, [curr]);
      assert Run(title, [curr]) == [Event(title, curr)];
      recorded := recorded + [curr];
    }
    assert recorded == Occurrences(sched, start, end);
  }

  /** The comment filter keeps exactly the lines that do not start with `#`. */
  lemma {:induction false} SpecsMembers(lines: seq<string>)
    ensures forall l :: l in Specs(lines) <==> l in lines && !IsComment(l)
    decreases |lines|
  {
    if lines != [] {
      SpecsMembers(lines[1..]);
      assert lines == [lines[0]] + lines[1..];
    }
  }

  /** The comment filter distributes over concatenation: no line is moved,
      and whether a line is kept depends on that line alone. */
  lemma {:induction false} SpecsAppend(a: seq<string>, b: seq<string>)
    ensures Specs(a + b) == Specs(a) + Specs(b)
    decreases |a|
  {
    if a != [] {
      SpecsAppend(a[1..], b);
      assert (a + b)[1..] == a[1..] + b;
    } else {
      assert a + b == b;
    }
  }

  /** Expanding a concatenation of lines: the first part's error if it has
      one, else the second part's error if it has one, else the two event
      lists one after the other. */
  lemma {:induction false} ExpandAllAppend(a: seq<string>, b: seq<string>, parse: string -> ParseResult, start: int, end: int)
    ensures ExpandAll(a + b, parse, start, end) ==
      if ExpandAll(a, parse, start, end).Err? then ExpandAll(a, parse, start, end)
      else if ExpandAll(b, parse, start, end).Err? then ExpandAll(b, parse, start, end)
      else Ok(ExpandAll(a, parse, start, end).value + ExpandAll(b, parse, start, end).value)
    decreases |a|
  {
    if a == [] {
      assert a + b == b;
      if ExpandAll(b, parse, start, end).Ok? {
        assert [] + ExpandAll(b, parse, start, end).value == ExpandAll(b, parse, start, end).value;
      }
    } else {
      ExpandAllAppend(a[1..], b, parse, start, end);
      assert (a + b)[1..] == a[1..] + b;
      var first := LineEvents(a[0], parse, start, end);
      if first.Ok? && ExpandAll(a[1..], parse, start, end).Ok? && ExpandAll(b, parse, start, end).Ok? {
        assert first.value + (ExpandAll(a[1..], parse, start, end).value + ExpandAll(b, parse, start, end).value)
            == (first.value + ExpandAll(a[1..], parse, start, end).value) + ExpandAll(b, parse, start, end).value;
      }
    }
  }

  /** One step of the outer loop of `BuildEvents`: the events of the first
      `k + 1` lines extend those of the first `k` by the events of line `k`,
      and an error among the first `k + 1` lines is the error of all of them. */
  lemma ExpandAllStep(specs: seq<string>, k: nat, parse: string -> ParseResult, start: int, end: int)
    requires k < |specs|
    ensures var prefix := ExpandAll(specs[..k], parse, start, end);
      var line := LineEvents(specs[k], parse, start, end);
      ExpandAll(specs[..k + 1], parse, start, end) ==
        if prefix.Err? then prefix
        else if line.Err? then line
        else Ok(prefix.value + line.value)
    ensures LineEvents(specs[k], parse, start, end) == Ok([]) ==>
      ExpandAll(specs[..k + 1], parse, start, end) == ExpandAll(specs[..k], parse, start, end)
    ensures ExpandAll(specs[..k + 1], parse, start, end).Err? ==>
      ExpandAll(specs, parse, start, end) == ExpandAll(specs[..k + 1], parse, start, end)
  {
    var line := specs[k];
    ExpandAllAppend(specs[..k], [line], parse, start, end);
    assert specs[..k + 1] == specs[..k] + [line];
    ExpandAllAppend(specs[..k + 1], specs[k + 1..], parse, start, end);
    assert specs[..k + 1] + specs[k + 1..] == specs;
    assert [line][1..] == [];
    var one := LineEvents(line, parse, start, end);
    if one.Ok? {
      assert one.value + [] == one.value;
      var prefix := ExpandAll(specs[..k], parse, start, end);
      if prefix.Ok? && one.value == [] {
        assert prefix.value + [] == prefix.value;
      }
    }
  }

  /** Titling a list of times distributes over concatenation. */
  lemma {:induction false} RunAppend(title: string, a: seq<int>, b: seq<int>)
    ensures Run(title, a + b) == Run(title, a) + Run(title, b)
    decreases |a|
  {
    if a == [] {
      assert a + b == b;
    } else {
      RunAppend(title, a[1..], b);
      assert (a + b)[1..] == a[1..] + b;
    }
  }

  /** The `k`-th event of a run carries the run's title and the `k`-th time. */
  lemma {:induction false} RunAt(title: string, times: seq<int>, k: nat)
    requires k < |times|
    ensures |Run(title, times)| == |times|
    ensures Run(title, times)[k] == Event(title, times[k])
    decreases k
  {
    if k > 0 {
      RunAt(title, times[1..], k - 1);
    } else {
      RunLength(title, times);
    }
  }

  /** A run has one event per time. */
  lemma {:induction false} RunLength(title: string, times: seq<int>)
    ensures |Run(title, times)| == |times|
    decreases |times|
  {
    if times != [] {
      RunLength(title, times[1..]);
    }
  }

  /** A line is refused exactly when it has fewer than four spaces (fewer
      than five fields), and the refusal names the line. */
  lemma SplitSpecRefuses(line: string)
    ensures SplitSpec(line).Err? <==> multiset(line)[' '] < 4
    ensures SplitSpec(line).Err? ==> SplitSpec(line).error == FieldsMissing(line)
  {
    SplitCount(line, ' ');
  }

  /** The timing of an accepted line is exactly five fields: it holds four
      spaces. */
  lemma SplitSpecTiming(line: string)
    requires SplitSpec(line).Ok?
    ensures multiset(SplitSpec(line).value.timing)[' '] == 4
  {
    var fields := Split(line, ' ');
    SplitPiecesAvoid(line, ' ');
    SplitJoin(fields[..5], ' ');
    SplitCount(SplitSpec(line).value.timing, ' ');
  }

  /** With exactly four spaces the whole line is the timing and the command
      is empty; with more, timing, one space and command give back the line. */
  lemma SplitSpecRejoins(line: string)
    requires SplitSpec(line).Ok?
    ensures var spec := SplitSpec(line).value;
      && (multiset(line)[' '] == 4 ==> spec.timing == line && spec.command == "")
      && (multiset(line)[' '] > 4 ==> spec.timing + " " + spec.command == line)
  {
    var fields := Split(line, ' ');
    SplitCount(line, ' ');
    JoinSplit(line, ' ');
    if |fields| == 5 {
      assert fields[..5] == fields;
      assert fields[5..] == [];
    } else {
      JoinAppend(fields[..5], fields[5..], ' ');
      assert fields[..5] + fields[5..] == fields;
    }
  }

  /** The events of one non-empty line that expands: one per firing, all
      titled with the command; the `i`-th is `next` applied `i + 1` times to
      the window start; they strictly increase; all but the last lie before
      the window end and the last at or after it; and there is at least one
      exactly when the window is not empty. */
  lemma LineEventsWindow(line: string, parse: string -> ParseResult, start: int, end: int)
    requires line != "" && LineEvents(line, parse, start, end).Ok?
    ensures var events := LineEvents(line, parse, start, end).value;
      var spec := SplitSpec(line).value;
      && parse(spec.timing).Parsed?
      && (|events| > 0 <==> start < end)
      && (forall i :: 0 <= i < |events| ==>
            events[i].title == spec.command &&
            events[i].start == Iterate(parse(spec.timing).schedule, start, i + 1) &&
            events[i].start > start)
      && (forall i, j :: 0 <= i < j < |events| ==> events[i].start < events[j].start)
      && (forall i :: 0 <= i < |events| - 1 ==> events[i].start < end)
      && (|events| > 0 ==> events[|events| - 1].start >= end)
  {
    var spec := SplitSpec(line).value;
    var s := parse(spec.timing).schedule;
    var times := Occurrences(s, start, end);
    var events := LineEvents(line, parse, start, end).value;
    assert events == Run(spec.command, times);
    RunLength(spec.command, times);
    OccurrencesOvershoot(s, start, end);
    forall i | 0 <= i < |events|
      ensures events[i] == Event(spec.command, times[i])
      ensures times[i] == Iterate(s, start, i + 1)
    {
      RunAt(spec.command, times, i);
      OccurrencesAreIterates(s, start, end, i);
    }
  }

  /** `title` is the command of one of the non-empty lines that split. */
  ghost predicate CommandOf(specs: seq<string>, title: string) {
    exists j :: 0 <= j < |specs| && specs[j] != "" && SplitSpec(specs[j]).Ok? &&
      SplitSpec(specs[j]).value.command == title
  }

  /** Over all lines at once: every event lies strictly after the window
      start and carries the command of one of the lines, and an empty or
      reversed window yields no event. */
  lemma {:induction false} ExpandAllWindow(specs: seq<string>, parse: string -> ParseResult, start: int, end: int)
    ensures var r := ExpandAll(specs, parse, start, end);
      r.Ok? ==>
        && (forall i :: 0 <= i < |r.value| ==> r.value[i].start > start && CommandOf(specs, r.value[i].title))
        && (start >= end ==> r.value == [])
    decreases |specs|
  {
    var r := ExpandAll(specs, parse, start, end);
    if specs != [] && r.Ok? {
      var rest := specs[1..];
      ExpandAllWindow(rest, parse, start, end);
      var first := LineEvents(specs[0], parse, start, end).value;
      var later := ExpandAll(rest, parse, start, end).value;
      assert r.value == first + later;
      if specs[0] != "" {
        LineEventsWindow(specs[0], parse, start, end);
      }
      forall i | 0 <= i < |r.value|
        ensures r.value[i].start > start && CommandOf(specs, r.value[i].title)
      {
        if i < |first| {
          assert r.value[i] == first[i];
        } else {
          assert r.value[i] == later[i - |first|];
          var j :| 0 <= j < |rest| && rest[j] != "" && SplitSpec(rest[j]).Ok? &&
            SplitSpec(rest[j]).value.command == later[i - |first|].title;
          assert specs[j + 1] == rest[j];
        }
      }
      if start >= end {
        assert first == [];
      }
    }
  }

  /** `title` is the command of an input line that is neither a comment nor
      empty and that splits. */
  ghost predicate CommandOfInputLine(lines: seq<string>, title: string) {
    exists line :: line in lines && !IsComment(line) && line != "" &&
      SplitSpec(line).Ok? && SplitSpec(line).value.command == title
  }

  /** What `buildEvents` returns, as a whole: every event lies strictly after
      the window start and is titled with the command of a non-comment input
      line, and an empty or reversed window yields no event. */
  lemma EventsWindow(input: string, parse: string -> ParseResult, start: int, end: int)
    ensures var r := Events(input, parse, start, end);
      r.Ok? ==>
        && (forall i :: 0 <= i < |r.value| ==> r.value[i].start > start)
        && (forall i :: 0 <= i < |r.value| ==> CommandOfInputLine(Split(input, '\n'), r.value[i].title))
        && (start >= end ==> r.value == [])
  {
    var lines := Split(input, '\n');
    var specs := Specs(lines);
    var r := Events(input, parse, start, end);
    ExpandAllWindow(specs, parse, start, end);
    SpecsMembers(lines);
    if r.Ok? {
      forall i | 0 <= i < |r.value|
        ensures CommandOfInputLine(lines, r.value[i].title)
      {
        var j :| 0 <= j < |specs| && specs[j] != "" && SplitSpec(specs[j]).Ok? &&
          SplitSpec(specs[j]).value.command == r.value[i].title;
        assert specs[j] in specs;
      }
    }
  }

  /** Some line fails with `e` and every line before it expands. */
  ghost predicate FailsFirstWith(specs: seq<string>, parse: string -> ParseResult, start: int, end: int, e: Error) {
    exists i :: 0 <= i < |specs| && LineEvents(specs[i], parse, start, end) == Err(e) &&
      forall j :: 0 <= j < i ==> LineEvents(specs[j], parse, start, end).Ok?
  }

  /** Expansion fails with `e` exactly when some line fails with `e` and every
      line before it expands: the first failing line decides the error. */
  lemma {:induction false} FirstErrorWins(specs: seq<string>, parse: string -> ParseResult, start: int, end: int, e: Error)
    ensures ExpandAll(specs, parse, start, end) == Err(e) <==> FailsFirstWith(specs, parse, start, end, e)
  {
    if ExpandAll(specs, parse, start, end) == Err(e) {
      ErrorHasFirstLine(specs, parse, start, end, e);
    }
    if FailsFirstWith(specs, parse, start, end, e) {
      FirstLineGivesError(specs, parse, start, end, e);
    }
  }

  /** An error of the expansion comes from a line all of whose predecessors
      expand. */
  lemma {:induction false} ErrorHasFirstLine(specs: seq<string>, parse: string -> ParseResult, start: int, end: int, e: Error)
    requires ExpandAll(specs, parse, start, end) == Err(e)
    ensures FailsFirstWith(specs, parse, start, end, e)
    decreases |specs|
  {
    var rest := specs[1..];
    if LineEvents(specs[0], parse, start, end).Ok? {
      ErrorHasFirstLine(rest, parse, start, end, e);
      var i :| 0 <= i < |rest| && LineEvents(rest[i], parse, start, end) == Err(e) &&
        forall j :: 0 <= j < i ==> LineEvents(rest[j], parse, start, end).Ok?;
      assert specs[i + 1] == rest[i];
      forall j | 0 <= j < i + 1 ensures LineEvents(specs[j], parse, start, end).Ok? {
        if j > 0 {
          assert specs[j] == rest[j - 1];
        }
      }
    } else {
      assert LineEvents(specs[0], parse, start, end) == Err(e);
    }
  }

  /** A failing line whose predecessors all expand makes the expansion fail
      with its error. */
  lemma {:induction false} FirstLineGivesError(specs: seq<string>, parse: string -> ParseResult, start: int, end: int, e: Error)
    requires FailsFirstWith(specs, parse, start, end, e)
    ensures ExpandAll(specs, parse, start, end) == Err(e)
    decreases |specs|
  {
    var i :| 0 <= i < |specs| && LineEvents(specs[i], parse, start, end) == Err(e) &&
      forall j :: 0 <= j < i ==> LineEvents(specs[j], parse, start, end).Ok?;
    if i > 0 {
      var rest := specs[1..];
      assert LineEvents(specs[0], parse, start, end).Ok?;
      assert rest[i - 1] == specs[i];
      forall j | 0 <= j < i - 1 ensures LineEvents(rest[j], parse, start, end).Ok? {
        assert rest[j] == specs[j + 1];
      }
      FirstLineGivesError(rest, parse, start, end, e);
    }
  }

  /** Expansion succeeds exactly when every line expands. */
  lemma {:induction false} AllLinesExpand(specs: seq<string>, parse: string -> ParseResult, start: int, end: int)
    ensures ExpandAll(specs, parse, start, end).Ok? <==>
      forall i :: 0 <= i < |specs| ==> LineEvents(specs[i], parse, start, end).Ok?
    decreases |specs|
  {
    if specs != [] {
      AllLinesExpand(specs[1..], parse, start, end);
      if forall i :: 0 <= i < |specs| ==> LineEvents(specs[i], parse, start, end).Ok? {
        forall i | 0 <= i < |specs| - 1 ensures LineEvents(specs[1..][i], parse, start, end).Ok? {
          assert specs[1..][i] == specs[i + 1];
        }
      }
      if ExpandAll(specs, parse, start, end).Ok? {
        forall i | 0 <= i < |specs| ensures LineEvents(specs[i], parse, start, end).Ok? {
          if i > 0 {
            assert specs[i] == specs[1..][i - 1];
          }
        }
      }
    }
  }

  /** An empty line changes nothing: it is never split or parsed, so it adds
      no event and no error wherever it stands. */
  lemma EmptyLineIgnored(a: seq<string>, b: seq<string>, parse: string -> ParseResult, start: int, end: int)
    ensures ExpandAll(a + [""] + b, parse, start, end) == ExpandAll(a + b, parse, start, end)
  {
    ExpandAllAppend(a + [""], b, parse, start, end);
    ExpandAllAppend(a, [""], parse, start, end);
    ExpandAllAppend(a, b, parse, start, end);
    BlankLinesExpandToNothing([""], parse, start, end);
    var left := ExpandAll(a, parse, start, end);
    if left.Ok? {
      assert left.value + [] == left.value;
    }
  }

  /** Lines that are all empty expand to no events and no error. */
  lemma {:induction false} BlankLinesExpandToNothing(specs: seq<string>, parse: string -> ParseResult, start: int, end: int)
    requires forall i :: 0 <= i < |specs| ==> specs[i] == ""
    ensures ExpandAll(specs, parse, start, end) == Ok([])
    decreases |specs|
  {
    if specs != [] {
      BlankLinesExpandToNothing(specs[1..], parse, start, end);
      assert LineEvents(specs[0], parse, start, end) == Ok([]);
      var none: seq<Event> := [];
      assert none + none == none;
    }
  }

  /** Input made only of comment lines and empty lines yields no events and
      no error. */
  lemma CommentsAndBlanksOnly(input: string, parse: string -> ParseResult, start: int, end: int)
    requires forall l :: l in Split(input, '\n') ==> IsComment(l) || l == ""
    ensures Events(input, parse, start, end) == Ok([])
  {
    var specs := Specs(Split(input, '\n'));
    SpecsMembers(Split(input, '\n'));
    assert forall i :: 0 <= i < |specs| ==> specs[i] in specs;
    BlankLinesExpandToNothing(specs, parse, start, end);
  }

  /** For text made by joining lines that hold no line break, the result is
      the expansion of those lines' non-comment ones. */
  lemma EventsOfJoinedLines(lines: seq<string>, parse: string -> ParseResult, start: int, end: int)
    requires |lines| >= 1
    requires forall i :: 0 <= i < |lines| ==> '\n' !in lines[i]
    ensures Events(Join(lines, '\n'), parse, start, end) == ExpandAll(Specs(lines), parse, start, end)
  {
    SplitJoin(lines, '\n');
  }

  /** Among the lines, a comment line or an empty line anywhere can be
      dropped without changing the result. */
  lemma IgnoredLineDropped(a: seq<string>, line: string, b: seq<string>, parse: string -> ParseResult, start: int, end: int)
    requires IsComment(line) || line == ""
    ensures ExpandAll(Specs(a + [line] + b), parse, start, end) == ExpandAll(Specs(a + b), parse, start, end)
  {
    SpecsAppend(a + [line], b);
    SpecsAppend(a, [line]);
    SpecsAppend(a, b);
    assert [line][1..] == [];
    if IsComment(line) {
      assert Specs([line]) == [];
      assert Specs(a) + [] == Specs(a);
    } else {
      assert Specs([line]) == [""];
      EmptyLineIgnored(Specs(a), Specs(b), parse, start, end);
    }
  }

  /** Removing one line from a list of lines without line breaks leaves a
      list without line breaks. */
  lemma UnbrokenWithout(a: seq<string>, line: string, b: seq<string>)
    requires forall i :: 0 <= i < |a + [line] + b| ==> '\n' !in (a + [line] + b)[i]
    ensures forall i :: 0 <= i < |a + b| ==> '\n' !in (a + b)[i]
  {
    var with, without := a + [line] + b, a + b;
    forall i | 0 <= i < |without| ensures '\n' !in without[i] {
      if i < |a| {
        assert without[i] == with[i];
      } else {
        assert without[i] == with[i + 1];
      }
    }
  }

  /** Adding a comment line or an empty line anywhere in the input text leaves
      the result unchanged. */
  lemma IgnoredLineInserted(a: seq<string>, line: string, b: seq<string>, parse: string -> ParseResult, start: int, end: int)
    requires IsComment(line) || line == ""
    requires forall i :: 0 <= i < |a + [line] + b| ==> '\n' !in (a + [line] + b)[i]
    ensures Events(Join(a + [line] + b, '\n'), parse, start, end) == Events(Join(a + b, '\n'), parse, start, end)
  {
    EventsOfJoinedLines(a + [line] + b, parse, start, end);
    IgnoredLineDropped(a, line, b, parse, start, end);
    if a + b == [] {
      assert Join(a + b, '\n') == "";
      assert Split("", '\n') == [""];
      IgnoredLineDropped([], "", [], parse, start, end);
    } else {
      UnbrokenWithout(a, line, b);
      EventsOfJoinedLines(a + b, parse, start, end);
    }
  }
}
