/**
  The scenario of croncal's own test: a crontab with two comment lines and a
  weekly backup, expanded over the window 2021-01-31T00:00:00Z to
  2021-02-07T00:00:00Z. The cron parser is left abstract except that it reads
  "0 5 * * 1" as "every Monday at 05:00 UTC".
*/
module CronCalExample {
  import opened GoStrings
  import opened Cron
  import opened CronCal

  const Week := 604800
  /** 1970-01-05T05:00:00Z, the first Monday at 05:00 of the Unix epoch. */
  const EpochMondayAtFive := 363600

  /** `next` of the schedule "0 5 * * 1" in UTC: the first Monday 05:00 strictly
      after `t`. Being at most a week ahead and on the weekly grid makes it the
      first such instant. */
  function MondayAtFive(t: int): (u: int)
    ensures t < u <= t + Week
    ensures (u - EpochMondayAtFive) % Week == 0
  {
    t + 1 + (EpochMondayAtFive - (t + 1)) % Week
  }

  // The lines of the test input. The longer ones are written as
  // concatenations of short literals, and the two lines that get split are
  // written field by field: the verifier reasons much more cheaply about
  // short literals than about one long one.
  const Comment1 := "# For example, you can run" + " a backup of all your user accounts"
  const Comment2 := "# at 5 a.m every week with:"
  const Title := "tar" + " " + "-zcf" + " " + "/var/backups/home.tgz" + " " + "/home/"
  const Timing := "0" + " " + "5" + " " + "*" + " " + "*" + " " + "1"
  const Backup := Timing + " " + Title
  const TimingFields := ["0", "5", "*", "*", "1"]
  const CommandFields := ["tar", "-zcf", "/var/backups/home.tgz", "/home/"]

  /** The test's input text: a blank first line, two comments, the backup
      line and a final newline. */
  const Input := "\n" + Comment1 + "\n" + Comment2 + "\n" + Backup + "\n"

  const Start := 1612051200   // 2021-01-31T00:00:00Z
  const End := 1612656000     // 2021-02-07T00:00:00Z

  /** Four words joined by a separator. */
  lemma JoinFour(w0: string, w1: string, w2: string, w3: string, sep: char)
    ensures Join([w0, w1, w2, w3], sep) == w0 + [sep] + w1 + [sep] + w2 + [sep] + w3
  {
    JoinCons(w2, [w3], sep);
    JoinCons(w1, [w2, w3], sep);
    JoinCons(w0, [w1, w2, w3], sep);
    assert [w2] + [w3] == [w2, w3];
    assert [w1] + [w2, w3] == [w1, w2, w3];
    assert [w0] + [w1, w2, w3] == [w0, w1, w2, w3];
  }

  /** Five words joined by a separator. */
  lemma JoinFive(w0: string, w1: string, w2: string, w3: string, w4: string, sep: char)
    ensures Join([w0, w1, w2, w3, w4], sep) == w0 + [sep] + w1 + [sep] + w2 + [sep] + w3 + [sep] + w4
  {
    JoinFour(w1, w2, w3, w4, sep);
    JoinCons(w0, [w1, w2, w3, w4], sep);
    assert [w0] + [w1, w2, w3, w4] == [w0, w1, w2, w3, w4];
  }

  /** The command fields joined by single spaces give the title. */
  lemma CommandJoin()
    ensures Join(CommandFields, ' ') == Title
  {

  }

  /** The timing fields joined by single spaces give "0 5 * * 1". */
  lemma TimingJoin()
    ensures Join(TimingFields, ' ') == Timing
  {

  }

  /** No field of the backup line holds a space. */
  lemma BackupFieldsUnspaced()
    ensures forall i :: 0 <= i < |TimingFields + CommandFields| ==> ' ' !in (TimingFields + CommandFields)[i]
  {

  }

  /** The backup line is cut into the timing "0 5 * * 1" and the command. */
  lemma BackupSpec()
    ensures SplitSpec(Backup) == Ok(Spec(Timing, Title))
  {
    var f := TimingFields + CommandFields;
    TimingJoin();
    CommandJoin();
    JoinAppend(TimingFields, CommandFields, ' ');
    BackupFieldsUnspaced();
    SplitJoin(f, ' ');
    assert f[..5] == TimingFields;
    assert f[5..] == CommandFields;
  }

  /** The backup line is neither empty nor a comment. */
  lemma BackupIsNoComment()
    ensures |Backup| > 0 && !IsComment(Backup)
  {

  }

  /** The first comment holds no line break. */
  lemma Comment1Unbroken()
    ensures '\n' !in Comment1
  {

  }

  /** The backup line holds no line break. */
  lemma BackupUnbroken()
    ensures '\n' !in Backup
  {

  }

  /** No line of the test input holds a line break. */
  lemma NoLineBreaks()
    ensures '\n' !in Comment1 && '\n' !in Comment2 && '\n' !in Backup
  {
    Comment1Unbroken();
    BackupUnbroken();
  }

  /** Two Mondays are recorded: 2021-02-01 05:00, which lies in the window,
      and 2021-02-08 05:00, the first firing past its end. */
  lemma BackupFirings()
    ensures Occurrences(MondayAtFive, Start, End) == [1612155600, 1612760400]
  {

  }

  /** A line between two empty lines expands like the line alone. */
  lemma FramedByBlanks(line: string, parse: string -> ParseResult, start: int, end: int)
    ensures ExpandAll(["", line, ""], parse, start, end) == LineEvents(line, parse, start, end)
  {
    EmptyLineIgnored([], [line, ""], parse, start, end);
    EmptyLineIgnored([line], [], parse, start, end);
    assert [] + [""] + [line, ""] == ["", line, ""];
    assert [line] + [""] + [] == [line, ""];
    assert [] + [line, ""] == [line, ""];
    assert [line] + [] == [line];
    assert [line][1..] == [];
    var one := LineEvents(line, parse, start, end);
    if one.Ok? {
      assert one.value + [] == one.value;
    }
  }

  /** The shape of the test input, for any two comment lines and any other
      line: the comments and the blank lines vanish and the remaining line
      yields its events. */
  lemma TwoCommentsAndALine(comment1: string, comment2: string, line: string,
                            parse: string -> ParseResult, start: int, end: int)
    requires IsComment(comment1) && IsComment(comment2) && !IsComment(line)
    requires '\n' !in comment1 && '\n' !in comment2 && '\n' !in line
    ensures Events("\n" + comment1 + "\n" + comment2 + "\n" + line + "\n", parse, start, end)
         == LineEvents(line, parse, start, end)
  {
    var lines := ["", comment1, comment2, line, ""];
    JoinFive("", comment1, comment2, line, "", '\n');
    assert "" + "\n" == "\n";
    assert Join(lines, '\n') == "\n" + comment1 + "\n" + comment2 + "\n" + line + "\n";
    EventsOfJoinedLines(lines, parse, start, end);
    CommentsDropped(comment1, comment2, line);
    FramedByBlanks(line, parse, start, end);
  }

  /** The comment filter on the five lines of the test's shape. */
  lemma CommentsDropped(comment1: string, comment2: string, line: string)
    requires IsComment(comment1) && IsComment(comment2) && !IsComment(line)
    ensures Specs(["", comment1, comment2, line, ""]) == ["", line, ""]
  {
    var lines := ["", comment1, comment2, line, ""];
    var rest1, rest2, rest3, rest4 := [comment1, comment2, line, ""], [comment2, line, ""], [line, ""], [""];
    assert lines[1..] == rest1 && rest1[1..] == rest2 && rest2[1..] == rest3 && rest3[1..] == rest4;
    assert rest4[1..] == [];
    assert Specs(rest4) == [""];
    assert Specs(rest3) == [line, ""];
    assert Specs(rest2) == [line, ""];
    assert Specs(rest1) == [line, ""];
  }

  /** The backup line, parsed as every Monday at 05:00, yields the two events. */
  lemma BackupEvents(parse: string -> ParseResult)
    requires parse(Timing) == Parsed(MondayAtFive)
    ensures LineEvents(Backup, parse, Start, End) ==
      Ok([Event(Title, 1612155600), Event(Title, 1612760400)])
  {
    BackupSpec();
    BackupFirings();
    BackupIsNoComment();
    TwoFirings(Backup, Timing, Title, parse, MondayAtFive, Start, End, 1612155600, 1612760400);
  }

  /** A line whose schedule fires twice in the walk yields two events with
      its command as title. */
  lemma TwoFirings(line: string, timing: string, title: string, parse: string -> ParseResult,
                   s: Schedule, start: int, end: int, t0: int, t1: int)
    requires |line| > 0 && SplitSpec(line) == Ok(Spec(timing, title))
    requires parse(timing) == Parsed(s)
    requires Occurrences(s, start, end) == [t0, t1]
    ensures LineEvents(line, parse, start, end) == Ok([Event(title, t0), Event(title, t1)])
  {
    var times := [t0, t1];
    assert LineEvents(line, parse, start, end) == Ok(Run(title, times));
    assert times[1..] == [t1];
    assert [t1][1..] == [];
    assert Run(title, [t1]) == [Event(title, t1)];
    assert Run(title, times) == [Event(title, t0)] + [Event(title, t1)];
    assert [Event(title, t0)] + [Event(title, t1)] == [Event(title, t0), Event(title, t1)];
  }

  /** The test's expectation: exactly two events, both titled with the
      backup command, at 2021-02-01T05:00:00Z and 2021-02-08T05:00:00Z. */
  lemma BuildEventsTest(parse: string -> ParseResult)
    requires parse(Timing) == Parsed(MondayAtFive)
    ensures Events(Input, parse, Start, End) ==
      Ok([Event(Title, 1612155600), Event(Title, 1612760400)])
  {
    NoLineBreaks();
    BackupEvents(parse);
    BackupIsNoComment();
    TwoCommentsAndALine(Comment1, Comment2, Backup, parse, Start, End);
  }
}
