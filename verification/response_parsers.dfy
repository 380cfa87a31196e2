/** The two heuristic scanners that turn a language-model reply into child
    descriptors (`parseManagerResponse` / `parseSupervisorResponse` in
    `sessionExecutor.ts`). Both split the reply into lines, keep each line that
    contains one of two markers, and label it with the trimmed text between its
    first and second colon, or a fixed fallback when that text is empty. They
    are total: no reply makes them fail. */
module Parsers {
  import Text

  datatype SupervisorDescriptor = SupervisorDescriptor(component: string, description: string)

  datatype WorkerDescriptor = WorkerDescriptor(task: string, requirements: seq<string>)

  const UnknownComponent := "Unknown Component"
  const UnknownTask := "Unknown Task"
  const ManagerDescription := "Parsed from manager response"
  const SupervisorRequirement := "Parsed from supervisor response"

  /** The first position of `c` in `s`. */
  function IndexOf(s: string, c: char): (r: nat)
    requires c in s
    ensures r < |s| && s[r] == c && c !in s[..r]
  {
    if s[0] == c then 0
    else
      var r := IndexOf(s[1..], c) + 1;
      assert s[..r] == [s[0]] + s[1..][..r - 1];
      r
  }

  /** `line.split(':')[1]?.trim() || fallback`. */
  function Label(line: string, fallback: string): string
  {
    var parts := Text.Split(line, ':');
    var t := if |parts| >= 2 then Text.Trim(parts[1]) else "";
    if t == "" then fallback else t
  }

  /** The label is never empty; it is the trimmed second field whenever that
      is not empty, and the fallback whenever there is no second field or it
      trims to nothing. */
  lemma LabelChoice(line: string, fallback: string)
    requires fallback != ""
    ensures Label(line, fallback) != ""
    ensures var parts := Text.Split(line, ':');
      |parts| >= 2 && Text.Trim(parts[1]) != "" ==> Label(line, fallback) == Text.Trim(parts[1])
    ensures var parts := Text.Split(line, ':');
      |parts| < 2 || Text.Trim(parts[1]) == "" ==> Label(line, fallback) == fallback
  {
  }

  lemma {:induction false} FirstPiece(b: string, c: char)
    ensures var f := Text.Split(b, c)[0];
      |f| <= |b| && f == b[..|f|] && (|f| == |b| || b[|f|] == c)
    decreases |b|
  {
    if |b| > 0 && b[0] != c {
      FirstPiece(b[1..], c);
    }
  }

  /** The second field of a line holding the separator is exactly the text
      between the first separator and the next one (or the end of the line). */
  lemma SecondField(line: string, c: char)
    requires c in line
    ensures |Text.Split(line, c)| >= 2
    ensures var i := IndexOf(line, c); var f := Text.Split(line, c)[1];
      && i + 1 + |f| <= |line|
      && f == line[i + 1..i + 1 + |f|]
      && (i + 1 + |f| == |line| || line[i + 1 + |f|] == c)
  {
    var i := IndexOf(line, c);
    var a, b := line[..i], line[i + 1..];
    assert line == a + [c] + b;
    Text.SplitHasSeparator(line, c);
    Text.SplitAfterFirst(a, b, c);
    FirstPiece(b, c);
  }

  /** Scan `lines`, producing `make(l)` for every line `l` that `matches`. */
  function Scan<D>(lines: seq<string>, matches: string -> bool, make: string -> D): (r: seq<D>)
    ensures |r| <= |lines|
  {
    if |lines| == 0 then []
    else (if matches(lines[0]) then [make(lines[0])] else []) + Scan(lines[1..], matches, make)
  }

  /** Scanning is line by line: the scan of a concatenation is the
      concatenation of the scans. */
  lemma {:induction false} ScanAppend<D>(a: seq<string>, b: seq<string>, matches: string -> bool, make: string -> D)
    ensures Scan(a + b, matches, make) == Scan(a, matches, make) + Scan(b, matches, make)
    decreases |a|
  {
    if |a| == 0 {
      assert a + b == b;
    } else {
      var head := if matches(a[0]) then [make(a[0])] else [];
      assert (a + b)[0] == a[0];
      assert (a + b)[1..] == a[1..] + b;
      ScanAppend(a[1..], b, matches, make);
      calc {
        Scan(a + b, matches, make);
        head + Scan(a[1..] + b, matches, make);
        head + (Scan(a[1..], matches, make) + Scan(b, matches, make));
        (head + Scan(a[1..], matches, make)) + Scan(b, matches, make);
      }
    }
  }

  /** One line yields exactly one descriptor if it matches and none otherwise. */
  lemma ScanOne<D>(line: string, matches: string -> bool, make: string -> D)
    ensures Scan([line], matches, make) == if matches(line) then [make(line)] else []
  {
    assert [line][1..] == [];
  }

  predicate IsManagerLine(line: string)
  {
    Text.Contains(line, "Supervisor:") || Text.Contains(line, "Component:")
  }

  predicate IsSupervisorLine(line: string)
  {
    Text.Contains(line, "Task:") || Text.Contains(line, "Worker:")
  }

  function ManagerDescriptor(line: string): SupervisorDescriptor
  {
    SupervisorDescriptor(Label(line, UnknownComponent), ManagerDescription)
  }

  function SupervisorDescriptorOf(line: string): WorkerDescriptor
  {
    WorkerDescriptor(Label(line, UnknownTask), [SupervisorRequirement])
  }

  /** `parseManagerResponse`: one supervisor descriptor per line mentioning
      `Supervisor:` or `Component:`, in line order, each with a non-empty
      component label. */
  function ParseManagerResponse(response: string): (r: seq<SupervisorDescriptor>)
    ensures |r| <= |Text.Split(response, '\n')|
    ensures forall i :: 0 <= i < |r| ==> r[i].component != "" && r[i].description == ManagerDescription
  {
    ScanLabels(Text.Split(response, '\n'));
    Scan(Text.Split(response, '\n'), IsManagerLine, ManagerDescriptor)
  }

  /** `parseSupervisorResponse`: one worker descriptor per line mentioning
      `Task:` or `Worker:`, in line order, each with a non-empty task label and
      the single fixed requirement. */
  function ParseSupervisorResponse(response: string): (r: seq<WorkerDescriptor>)
    ensures |r| <= |Text.Split(response, '\n')|
    ensures forall i :: 0 <= i < |r| ==> r[i].task != "" && r[i].requirements == [SupervisorRequirement]
  {
    ScanTasks(Text.Split(response, '\n'));
    Scan(Text.Split(response, '\n'), IsSupervisorLine, SupervisorDescriptorOf)
  }

  /** A property every produced descriptor has holds of the whole scan. */
  lemma {:induction false} ScanAll<D>(lines: seq<string>, matches: string -> bool, make: string -> D, P: D -> bool)
    requires forall l :: P(make(l))
    ensures forall d :: d in Scan(lines, matches, make) ==> P(d)
    decreases |lines|
  {
    if |lines| > 0 {
      ScanAll(lines[1..], matches, make, P);
    }
  }

  lemma ScanLabels(lines: seq<string>)
    ensures forall d :: d in Scan(lines, IsManagerLine, ManagerDescriptor) ==>
      d.component != "" && d.description == ManagerDescription
  {
    forall l ensures ManagerDescriptor(l).component != "" {
      LabelChoice(l, UnknownComponent);
    }
    ScanAll(lines, IsManagerLine, ManagerDescriptor,
      (d: SupervisorDescriptor) => d.component != "" && d.description == ManagerDescription);
  }

  lemma ScanTasks(lines: seq<string>)
    ensures forall d :: d in Scan(lines, IsSupervisorLine, SupervisorDescriptorOf) ==>
      d.task != "" && d.requirements == [SupervisorRequirement]
  {
    forall l ensures SupervisorDescriptorOf(l).task != "" {
      LabelChoice(l, UnknownTask);
    }
    ScanAll(lines, IsSupervisorLine, SupervisorDescriptorOf,
      (d: WorkerDescriptor) => d.task != "" && d.requirements == [SupervisorRequirement]);
  }

  /** A line with a marker always has a second field, so its descriptor takes
      the fallback label only when the text between its first two colons is
      blank. */
  lemma MarkedLineHasField(line: string)
    requires IsManagerLine(line) || IsSupervisorLine(line)
    ensures |Text.Split(line, ':')| >= 2
  {
    if Text.Contains(line, "Supervisor:") {
      Text.ContainsChar(line, "Supervisor:", 10);
    } else if Text.Contains(line, "Component:") {
      Text.ContainsChar(line, "Component:", 9);
    } else if Text.Contains(line, "Task:") {
      Text.ContainsChar(line, "Task:", 4);
    } else {
      Text.ContainsChar(line, "Worker:", 6);
    }
    Text.SplitHasSeparator(line, ':');
  }

  /** The manager reply parse is the concatenation of its lines' parses: a
      reply whose lines are `a` followed by `b` yields the descriptors of `a`
      followed by those of `b`, and a single line yields one descriptor exactly
      when it carries a marker. */
  lemma ParseManagerByLines(a: seq<string>, b: seq<string>, line: string)
    requires forall i :: 0 <= i < |a| ==> '\n' !in a[i]
    requires forall i :: 0 <= i < |b| ==> '\n' !in b[i]
    requires |a| >= 1 && |b| >= 1
    ensures ParseManagerResponse(Text.Join(a + b, "\n"))
         == ParseManagerResponse(Text.Join(a, "\n")) + ParseManagerResponse(Text.Join(b, "\n"))
    ensures '\n' !in line ==>
      ParseManagerResponse(line) == if IsManagerLine(line) then [ManagerDescriptor(line)] else []
  {
    assert forall i :: 0 <= i < |a + b| ==> '\n' !in (a + b)[i];
    Text.JoinSplit(a + b, '\n');
    Text.JoinSplit(a, '\n');
    Text.JoinSplit(b, '\n');
    ScanAppend(a, b, IsManagerLine, ManagerDescriptor);
    if '\n' !in line {
      Text.SplitNoSeparator(line, '\n');
      ScanOne(line, IsManagerLine, ManagerDescriptor);
    }
  }

  /** The supervisor reply parse is the concatenation of its lines' parses: a
      reply whose lines are `a` followed by `b` yields the worker descriptors
      of `a` followed by those of `b`, and a single line yields one descriptor
      exactly when it carries a marker. */
  lemma ParseSupervisorByLines(a: seq<string>, b: seq<string>, line: string)
    requires forall i :: 0 <= i < |a| ==> '\n' !in a[i]
    requires forall i :: 0 <= i < |b| ==> '\n' !in b[i]
    requires |a| >= 1 && |b| >= 1
    ensures ParseSupervisorResponse(Text.Join(a + b, "\n"))
         == ParseSupervisorResponse(Text.Join(a, "\n")) + ParseSupervisorResponse(Text.Join(b, "\n"))
    ensures '\n' !in line ==>
      ParseSupervisorResponse(line) == if IsSupervisorLine(line) then [SupervisorDescriptorOf(line)] else []
  {
    assert forall i :: 0 <= i < |a + b| ==> '\n' !in (a + b)[i];
    Text.JoinSplit(a + b, '\n');
    Text.JoinSplit(a, '\n');
    Text.JoinSplit(b, '\n');
    ScanAppend(a, b, IsSupervisorLine, SupervisorDescriptorOf);
    if '\n' !in line {
      Text.SplitNoSeparator(line, '\n');
      ScanOne(line, IsSupervisorLine, SupervisorDescriptorOf);
    }
  }
}
