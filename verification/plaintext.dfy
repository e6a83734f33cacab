/** `PlaintextFormatter::format`: one `<id>: <description>\t<status>` line
    per task, in list order, joined with newlines. */
module Plaintext {
  import opened Decimal
  import opened Strings
  import opened Tasks

  /** The line of one task: `format!("{}: {}\t{}", id, description, status)`. */
  function Line(t: Task): (l: string)
    ensures l != []
    ensures '\n' in l <==> '\n' in t.description
  {
    assert '\n' !in DecimalString(t.id);
    assert '\n' !in StatusName(t.status);
    DecimalString(t.id) + ": " + t.description + "\t" + StatusName(t.status)
  }

  /** The lines of all tasks, in list order: one per task, and a line
      holds a newline only when its task's description does. */
  function Lines(ts: seq<Task>): (lines: seq<string>)
    ensures |lines| == |ts|
    ensures forall i :: 0 <= i < |ts| ==> ('\n' in lines[i] <==> '\n' in ts[i].description)
  {
    seq(|ts|, i requires 0 <= i < |ts| => Line(ts[i]))
  }

  /** The plaintext rendering of the whole list. */
  function Format(ts: seq<Task>): (r: string)
    ensures r == [] <==> ts == []
  {
    Join(Lines(ts), '\n')
  }

  /** The line of a task starts with its id and ": ", ends with a tab and
      its status name, and holds exactly the description in between. */
  lemma LineShape(t: Task)
    ensures var p := DecimalString(t.id) + ": ";
            var l := Line(t);
            |l| >= |p| && l[..|p|] == p
    ensures var q := "\t" + StatusName(t.status);
            var l := Line(t);
            |l| >= |q| && l[|l| - |q|..] == q
    ensures var p := DecimalString(t.id) + ": ";
            var q := "\t" + StatusName(t.status);
            var l := Line(t);
            |l| >= |p| + |q| && l[|p|..|l| - |q|] == t.description
  {
    var p := DecimalString(t.id) + ": ";
    var q := "\t" + StatusName(t.status);
    var l := Line(t);
    assert l == p + t.description + q;
    assert l[..|p|] == p;
    assert l[|l| - |q|..] == q;
    assert l[|p|..|l| - |q|] == t.description;
  }

  /** An empty list renders as the empty string. */
  lemma FormatEmpty()
    ensures Format([]) == ""
  {
  }

  /** The output never ends with a newline: it ends with the last task's
      status name. */
  lemma FormatNoTrailingNewline(ts: seq<Task>)
    requires |ts| > 0
    ensures |Format(ts)| > 0 && Format(ts)[|Format(ts)| - 1] != '\n'
  {
    var lines := Lines(ts);
    var last := lines[|lines| - 1];
    JoinEndsWithLast(lines, '\n');
    LineShape(ts[|ts| - 1]);
    var name := StatusName(ts[|ts| - 1].status);
    assert last[|last| - 1] == name[|name| - 1];
  }

  /** When no description holds a newline, cutting the output at newlines
      gives back exactly one line per task, in list order. */
  lemma FormatOneLinePerTask(ts: seq<Task>)
    requires |ts| > 0
    requires forall i :: 0 <= i < |ts| ==> '\n' !in ts[i].description
    ensures Split(Format(ts), '\n') == Lines(ts)
    ensures Count(Format(ts), '\n') == |ts| - 1
  {
    var lines := Lines(ts);
    SplitJoin(lines, '\n');
    JoinSeparatorCount(lines, '\n');
  }

  /** Appending a task appends one newline and its line. */
  lemma FormatAppend(ts: seq<Task>, t: Task)
    requires |ts| > 0
    ensures Format(ts + [t]) == Format(ts) + "\n" + Line(t)
  {
    var lines := Lines(ts);
    assert Lines(ts + [t]) == lines + [Line(t)];
    JoinAppend(lines, Line(t), '\n');
  }

  lemma {:induction false} JoinAppend(parts: seq<string>, p: string, sep: char)
    requires |parts| > 0
    ensures Join(parts + [p], sep) == Join(parts, sep) + [sep] + p
    decreases |parts|
  {
    if |parts| > 1 {
      assert (parts + [p])[1..] == parts[1..] + [p];
      JoinAppend(parts[1..], p, sep);
    }
  }

  /** A two-task list renders as its two lines around one newline. */
  lemma FormatPair(a: Task, b: Task)
    ensures Format([a, b]) == Line(a) + "\n" + Line(b)
  {
    assert Lines([a]) == [Line(a)];
    assert [a, b] == [a] + [b];
    FormatAppend([a], b);
  }

  /** The two-task list of the unit test: both tasks are fresh, so both
      are not started. */
  lemma FormatExample()
    ensures Format([NewTask(1, "Task 1"), NewTask(2, "Task 2")])
            == "1: Task 1\tNot Started\n2: Task 2\tNot Started"
  {
    FormatPair(Task(1, "Task 1", NotStarted), Task(2, "Task 2", NotStarted));
    FirstExampleLine();
    SecondExampleLine();
  }

  /** A two-task list whose second task is completed. */
  lemma FormatCompletedExample()
    ensures Format([Task(1, "Task 1", NotStarted), Task(2, "Task 2", Completed)])
            == "1: Task 1\tNot Started\n2: Task 2\tCompleted"
  {
    FormatPair(Task(1, "Task 1", NotStarted), Task(2, "Task 2", Completed));
    FirstExampleLine();
    CompletedExampleLine();
  }

  /** The line of a task whose id text and status name are known. */
  lemma LineOf(t: Task, id: string, name: string)
    requires DecimalString(t.id) == id && StatusName(t.status) == name
    ensures Line(t) == id + ": " + t.description + "\t" + name
  {
  }

  lemma FirstExampleLine()
    ensures Line(Task(1, "Task 1", NotStarted)) == "1: Task 1\tNot Started"
  {
    StatusNames();
    LineOf(Task(1, "Task 1", NotStarted), "1", "Not Started");
  }

  lemma SecondExampleLine()
    ensures Line(Task(2, "Task 2", NotStarted)) == "2: Task 2\tNot Started"
  {
    StatusNames();
    LineOf(Task(2, "Task 2", NotStarted), "2", "Not Started");
  }

  lemma CompletedExampleLine()
    ensures Line(Task(2, "Task 2", Completed)) == "2: Task 2\tCompleted"
  {
    StatusNames();
    LineOf(Task(2, "Task 2", Completed), "2", "Completed");
  }
}
