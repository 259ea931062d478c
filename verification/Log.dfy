/**
 The date-grouped log of a bundle (`append_log`): its parser, its printer, the appending of one entry, and
 the bundle validator's reading of the result (`_validate_log`).
 */
module Log {
  import opened Prelude
  import opened Strings
  import opened Text
  import opened Dates

  const TITLE := "# Update Log"
  const RULE := "Append-only ledger, newest entries first."
  const HEADER := TITLE + "\n\n" + RULE + "\n"

  type Sections = map<string, seq<string>>

  datatype Log = Log(intro: seq<string>, sections: Sections)

  /** Lines are counted from zero. */
  datatype Fault = NotADate(line: nat) | NoSuchDay(day: string) | Repeated(line: nat) | NoOperation | NoSubject

  datatype Result<T> = Ok(value: T) | Refused(fault: Fault)

  // ----- parsing ---------------------------------------------------------------------------

  predicate Headed(line: string) {
    "##" <= line
  }

  predicate DateHeading(line: string) {
    |line| == 13 && line[..3] == "## " && IsoDate(line[3..])
  }

  /** The first line that no log may hold. */
  function Check(lines: seq<string>): Option<Fault>
    decreases |lines|
  {
    if lines == [] then None
    else
      var before, line := lines[..|lines| - 1], lines[|lines| - 1];
      if Check(before).Some? then Check(before)
      else if !Headed(line) then None
      else if !DateHeading(line) then Some(NotADate(|before|))
      else if !ValidDate(line[3..]) then Some(NoSuchDay(line[3..]))
      else if line in before then Some(Repeated(|before|))
      else None
  }

  type Split = (seq<string>, seq<(string, seq<string>)>)

  /** The lines before the first heading, and every heading with the lines below it. */
  function SplitLog(lines: seq<string>): Split
    decreases |lines|
  {
    if lines == [] then ([], []) else Extend(SplitLog(lines[..|lines| - 1]), lines[|lines| - 1])
  }

  function Extend(s: Split, line: string): Split {
    if Headed(line) then (s.0, s.1 + [(line, [])])
    else if s.1 == [] then (s.0 + [line], [])
    else
      var last := s.1[|s.1| - 1];
      (s.0, s.1[..|s.1| - 1] + [(last.0, last.1 + [line])])
  }

  predicate Blank(line: string) {
    Strip(line) == ""
  }

  function TrimFront(body: seq<string>): seq<string> {
    if body != [] && Blank(body[0]) then TrimFront(body[1..]) else body
  }

  function TrimBack(body: seq<string>): seq<string> {
    if body != [] && Blank(body[|body| - 1]) then TrimBack(body[..|body| - 1]) else body
  }

  function Trim(body: seq<string>): seq<string> {
    TrimBack(TrimFront(body))
  }

  function DayOf(heading: string): string {
    if |heading| < 3 then heading else heading[3..]
  }

  function SectionsOf(parts: seq<(string, seq<string>)>): Sections {
    if parts == [] then map[]
    else
      var last := parts[|parts| - 1];
      SectionsOf(parts[..|parts| - 1])[DayOf(last.0) := Trim(last.1)]
  }

  function Parse(text: string): Result<Log> {
    var lines := Lines(text);
    if Check(lines).Some? then Refused(Check(lines).value)
    else Ok(Log(SplitLog(lines).0, SectionsOf(SplitLog(lines).1)))
  }

  /** Where the headings stand. */
  function Starts(lines: seq<string>): seq<nat>
    decreases |lines|
  {
    if lines == [] then []
    else Starts(lines[..|lines| - 1]) + if Headed(lines[|lines| - 1]) then [|lines| - 1] else []
  }

  function EndOf(starts: seq<nat>, n: nat, total: nat): nat {
    if n + 1 < |starts| then starts[n + 1] else total
  }

  ghost predicate Ascending(starts: seq<nat>, total: nat) {
    && (forall n :: 0 <= n < |starts| ==> starts[n] < total)
    && (forall n :: 0 <= n < |starts| - 1 ==> starts[n] < starts[n + 1])
  }

  function Part(lines: seq<string>, starts: seq<nat>, n: nat): (string, seq<string>)
    requires Ascending(starts, |lines|) && n < |starts|
  {
    (lines[starts[n]], lines[starts[n] + 1..EndOf(starts, n, |lines|)])
  }

  /** The parts of a log are the stretches between its headings. */
  ghost predicate Cut(lines: seq<string>, starts: seq<nat>, s: Split) {
    && Ascending(starts, |lines|) && |s.1| == |starts|
    && (forall n :: 0 <= n < |starts| ==> s.1[n] == Part(lines, starts, n))
    && s.0 == lines[..if starts == [] then |lines| else starts[0]]
  }

  /** The parts that are closed do not change with what follows; the open one takes the next line. */
  lemma PartNext(lines: seq<string>, line: string, starts: seq<nat>, n: nat)
    requires Ascending(starts, |lines|) && n < |starts|
    ensures Ascending(starts, |lines| + 1) && Ascending(starts + [|lines|], |lines| + 1)
    ensures Part(lines + [line], starts + [|lines|], n) == Part(lines, starts, n)
    ensures n < |starts| - 1 ==> Part(lines + [line], starts, n) == Part(lines, starts, n)
    ensures n == |starts| - 1 ==>
              Part(lines + [line], starts, n) == (Part(lines, starts, n).0, Part(lines, starts, n).1 + [line])
  {
    var all, from, to := lines + [line], starts[n] + 1, EndOf(starts, n, |lines|);
    assert all[..|lines|] == lines && all[starts[n]] == lines[starts[n]];
    assert all[from..to] == lines[from..to];
    assert n == |starts| - 1 ==> all[from..|all|] == lines[from..|lines|] + [line];
  }

  lemma CutHeading(lines: seq<string>, line: string, starts: seq<nat>, s: Split)
    requires Cut(lines, starts, s) && Headed(line)
    ensures Cut(lines + [line], starts + [|lines|], Extend(s, line))
  {
    var all, more, s' := lines + [line], starts + [|lines|], Extend(s, line);
    assert Ascending(more, |all|);
    forall n | 0 <= n < |more| ensures s'.1[n] == Part(all, more, n) {
      if n < |starts| {
        PartNext(lines, line, starts, n);
      } else {
        assert all[|lines| + 1..|all|] == [];
      }
    }
    assert all[..|lines|] == lines;
    if starts != [] { assert all[..starts[0]] == lines[..starts[0]]; }
  }

  lemma CutBody(lines: seq<string>, line: string, starts: seq<nat>, s: Split)
    requires Cut(lines, starts, s) && !Headed(line)
    ensures Cut(lines + [line], starts, Extend(s, line))
  {
    var all, s' := lines + [line], Extend(s, line);
    forall n | 0 <= n < |starts| ensures s'.1[n] == Part(all, starts, n) {
      PartNext(lines, line, starts, n);
    }
    if starts != [] { assert all[..starts[0]] == lines[..starts[0]]; }
  }

  lemma {:induction false} LogIsCut(lines: seq<string>)
    ensures Cut(lines, Starts(lines), SplitLog(lines))
    decreases |lines|
  {
    if lines != [] {
      var before, line := lines[..|lines| - 1], lines[|lines| - 1];
      LogIsCut(before);
      assert lines == before + [line];
      if Headed(line) {
        CutHeading(before, line, Starts(before), SplitLog(before));
      } else {
        CutBody(before, line, Starts(before), SplitLog(before));
        assert Starts(lines) == Starts(before);
      }
    }
  }

  /** A fault found in the first lines is the fault of them all. */
  lemma {:induction false} FirstFault(lines: seq<string>, n: nat)
    requires n <= |lines| && Check(lines[..n]).Some?
    ensures Check(lines) == Check(lines[..n])
    decreases |lines|
  {
    if n < |lines| {
      assert lines[..|lines| - 1][..n] == lines[..n];
      FirstFault(lines[..|lines| - 1], n);
    } else {
      assert lines[..n] == lines;
    }
  }

  method FindHeadings(lines: seq<string>) returns (r: Result<seq<nat>>)
    ensures r == if Check(lines).Some? then Refused(Check(lines).value) else Ok(Starts(lines))
  {
    var starts: seq<nat> := [];
    var seen: set<string> := {};
    for i := 0 to |lines|
      invariant Check(lines[..i]) == None && starts == Starts(lines[..i])
      invariant forall l :: l in lines[..i] && DateHeading(l) ==> l[3..] in seen
      invariant forall d :: d in seen ==> "## " + d in lines[..i]
    {
      var line := lines[i];
      assert lines[..i + 1] == lines[..i] + [line] && lines[..i + 1][..i] == lines[..i];
      if Headed(line) {
        if !DateHeading(line) {
          FirstFault(lines, i + 1);
          return Refused(NotADate(i));
        }
        var day := line[3..];
        assert line == "## " + day;
        if !ValidDate(day) {
          FirstFault(lines, i + 1);
          return Refused(NoSuchDay(day));
        }
        if day in seen {
          FirstFault(lines, i + 1);
          return Refused(Repeated(i));
        }
        seen := seen + {day};
        starts := starts + [i];
      }
    }
    assert lines[..|lines|] == lines;
    r := Ok(starts);
  }

  method TrimBody(lines: seq<string>) returns (body: seq<string>)
    ensures body == Trim(lines)
  {
    body := lines;
    while body != [] && Blank(body[0])
      invariant TrimFront(body) == TrimFront(lines)
      decreases |body|
    {
      body := body[1..];
    }
    while body != [] && Blank(body[|body| - 1])
      invariant TrimBack(body) == Trim(lines)
      decreases |body|
    {
      body := body[..|body| - 1];
    }
  }

  /** The loop over the parts. */
  method CollectSections(lines: seq<string>, starts: seq<nat>, ghost s: Split) returns (sections: Sections)
    requires Cut(lines, starts, s)
    ensures sections == SectionsOf(s.1)
  {
    sections := map[];
    for n := 0 to |starts|
      invariant sections == SectionsOf(s.1[..n])
    {
      assert s.1[n] == Part(lines, starts, n);
      assert s.1[..n + 1] == s.1[..n] + [s.1[n]];
      var body := TrimBody(lines[starts[n] + 1..EndOf(starts, n, |lines|)]);
      sections := sections[DayOf(lines[starts[n]]) := body];
    }
    assert s.1[..|starts|] == s.1;
  }

  method ParseLog(text: string) returns (r: Result<Log>)
    ensures r == Parse(text)
  {
    var lines := Lines(text);
    var found := FindHeadings(lines);
    if found.Refused? {
      return Refused(found.fault);
    }
    var starts := found.value;
    LogIsCut(lines);
    var first := if starts == [] then |lines| else starts[0];
    var sections := CollectSections(lines, starts, SplitLog(lines));
    r := Ok(Log(lines[..first], sections));
  }

  // ----- printing --------------------------------------------------------------------------

  function Prefix(intro: seq<string>): string {
    var p := RStrip(Join("\n", intro));
    if p != "" then p else RStrip(HEADER)
  }

  function Chunk(day: string, body: seq<string>): string {
    var b := Strip(Join("\n", body));
    "## " + day + if b != "" then "\n" + b else ""
  }

  function Chunks(days: seq<string>, sections: Sections): seq<string>
    requires forall d :: d in days ==> d in sections
  {
    if days == [] then [] else [Chunk(days[0], sections[days[0]])] + Chunks(days[1..], sections)
  }

  predicate Latest(day: string, days: set<string>) {
    day in days && forall d :: d in days ==> d == day || Before(d, day)
  }

  lemma {:induction false} SomeLatest(days: set<string>) returns (day: string)
    requires days != {}
    ensures Latest(day, days)
    decreases |days|
  {
    day :| day in days;
    if days != {day} {
      var rest := SomeLatest(days - {day});
      BeforeIsTotal(rest, day);
      forall d | d in days && d != day && d != rest && Before(rest, day) ensures Before(d, day) {
        BeforeIsTransitive(d, rest, day);
      }
      if Before(day, rest) { day := rest; }
    }
  }

  lemma LatestIsUnique(a: string, b: string, days: set<string>)
    requires Latest(a, days) && Latest(b, days)
    ensures a == b
  {
    if a != b {
      BeforeIsTransitive(a, b, a);
      BeforeIsIrreflexive(a);
    }
  }

  /** `sorted(days, reverse=True)`. */
  ghost function Newest(days: set<string>): (r: seq<string>)
    ensures forall d :: d in r <==> d in days
    decreases |days|
  {
    if days == {} then []
    else
      assert exists day :: Latest(day, days) by { var _ := SomeLatest(days); }
      var day :| Latest(day, days);
      [day] + Newest(days - {day})
  }

  method LatestOf(days: set<string>) returns (day: string)
    requires days != {}
    ensures Latest(day, days)
  {
    day :| day in days;
    var rest := days - {day};
    while rest != {}
      invariant rest <= days && day in days && Latest(day, days - rest)
      decreases |rest|
    {
      var d :| d in rest;
      BeforeIsTotal(day, d);
      if Before(day, d) {
        forall e | e in days - rest && e != day ensures Before(e, d) { BeforeIsTransitive(e, day, d); }
        day := d;
      }
      rest := rest - {d};
    }
    assert days - {} == days;
  }

  method SortNewest(days: set<string>) returns (sorted: seq<string>)
    ensures sorted == Newest(days)
  {
    var rest := days;
    sorted := [];
    while rest != {}
      invariant sorted + Newest(rest) == Newest(days)
      decreases |rest|
    {
      var day := LatestOf(rest);
      LatestIsUnique(day, Newest(rest)[0], rest);
      assert Newest(rest) == [day] + Newest(rest - {day});
      sorted, rest := sorted + [day], rest - {day};
    }
  }

  ghost function Render(log: Log): string {
    RStrip(Join("\n\n", [Prefix(log.intro)] + Chunks(Newest(log.sections.Keys), log.sections))) + "\n"
  }

  lemma {:induction false} ChunksSnoc(days: seq<string>, day: string, sections: Sections)
    requires day in sections && forall d :: d in days ==> d in sections
    ensures forall d :: d in days + [day] ==> d in sections
    ensures Chunks(days + [day], sections) == Chunks(days, sections) + [Chunk(day, sections[day])]
    decreases |days|
  {
    if days == [] {
      assert days + [day] == [day] && [day][1..] == [];
    } else {
      assert (days + [day])[0] == days[0] && (days + [day])[1..] == days[1..] + [day];
      ChunksSnoc(days[1..], day, sections);
    }
  }

  method ListChunks(days: seq<string>, sections: Sections) returns (chunks: seq<string>)
    requires forall d :: d in days ==> d in sections
    ensures chunks == Chunks(days, sections)
  {
    chunks := [];
    for i := 0 to |days|
      invariant forall d :: d in days[..i] ==> d in sections
      invariant chunks == Chunks(days[..i], sections)
    {
      assert days[..i + 1] == days[..i] + [days[i]] && days[i] in days;
      ChunksSnoc(days[..i], days[i], sections);
      chunks := chunks + [Chunk(days[i], sections[days[i]])];
    }
    assert days[..|days|] == days;
  }

  method RenderLog(log: Log) returns (text: string)
    ensures text == Render(log)
  {
    var days := SortNewest(log.sections.Keys);
    var chunks := ListChunks(days, log.sections);
    text := RStrip(Join("\n\n", [Prefix(log.intro)] + chunks)) + "\n";
  }

  // ----- one entry -------------------------------------------------------------------------

  function Head(operation: string, subject: string): string {
    "* **" + operation + "**: " + Join(" ", Words(subject))
  }

  function Segments(operation: string, subject: string, note: string, files: seq<string>): seq<string> {
    [Head(operation, subject)]
    + (if Words(note) == [] then [] else [Join(" ", Words(note))])
    + if files == [] then [] else ["files: " + Join(", ", files)]
  }

  /** `_entry`; `operation` is stripped and in title case. */
  function Entry(operation: string, subject: string, note: string, files: seq<string>): Result<string> {
    if operation == "" then Refused(NoOperation)
    else if Words(subject) == [] then Refused(NoSubject)
    else Ok(Join(" — ", Segments(operation, subject, note, files)))
  }

  function Put(sections: Sections, day: string, entry: string): Sections {
    sections[day := [entry] + if day in sections then sections[day] else []]
  }

  /** The new log, given the text of the old one if there is one. */
  ghost function Appended(text: Option<string>, day: string, entry: string): Result<string> {
    if !ValidDate(day) then Refused(NoSuchDay(day))
    else
      var parsed := Parse(if text.Some? then text.value else HEADER);
      if parsed.Refused? then Refused(parsed.fault)
      else Ok(Render(Log(parsed.value.intro, Put(parsed.value.sections, day, entry))))
  }

  /** `append`: the date is checked first, then the entry, then the log. */
  method Append(text: Option<string>, operation: string, subject: string, files: seq<string>, note: string, day: string)
    returns (r: Result<string>)
    ensures r == if !ValidDate(day) then Refused(NoSuchDay(day))
                 else if Entry(operation, subject, note, files).Refused? then Entry(operation, subject, note, files)
                 else Appended(text, day, Entry(operation, subject, note, files).value)
  {
    if !ValidDate(day) {
      return Refused(NoSuchDay(day));
    }
    var entry := Entry(operation, subject, note, files);
    if entry.Refused? {
      return entry;
    }
    var parsed := ParseLog(if text.Some? then text.value else HEADER);
    if parsed.Refused? {
      return Refused(parsed.fault);
    }
    var intro, sections := parsed.value.intro, parsed.value.sections;
    sections := sections[day := [entry.value] + if day in sections then sections[day] else []];
    var printed := RenderLog(Log(intro, sections));
    r := Ok(printed);
  }
}
