/** What a log says after any number of appends, and the bundle validator that reads it. */
module LogHistory {
  import opened Prelude
  import opened Strings
  import opened Text
  import opened Dates
  import opened Log
  import opened LogLaws

  // ----- the entries -----------------------------------------------------------------------

  lemma WordsEndBare(s: string)
    requires Words(s) != []
    ensures EndsBare(Join(" ", Words(s))) && OneLine(Join(" ", Words(s)))
  {
    var words := Words(s);
    assert OneWord(words[|words| - 1]);
    JoinEndsBare(" ", words);
    forall i | 0 <= i < |words| ensures OneLine(words[i]) { assert OneWord(words[i]); }
    JoinOneLine(" ", words);
  }

  lemma JoinSnoc(sep: string, parts: seq<string>, last: string)
    requires parts != []
    ensures Join(sep, parts + [last]) == Join(sep, parts) + (sep + last)
  {
    JoinAppend(sep, parts, [last]);
    assert [last][1..] == [];
    assert After(sep, [last]) == sep + last;
  }

  lemma FilesEnd(files: seq<string>)
    requires files != []
    ensures EndsBare("files: " + Join(", ", files)) == EndsBare(files[|files| - 1])
  {
    var last := files[|files| - 1];
    if last != "" {
      JoinEndsBare(", ", files);
      BareAppend("files: ", Join(", ", files));
    } else if |files| == 1 {
      assert files[1..] == [];
      assert Join(", ", files) == "";
    } else {
      assert files == files[..|files| - 1] + [last];
      JoinSnoc(", ", files[..|files| - 1], last);
      assert "files: " + Join(", ", files) == ("files: " + Join(", ", files[..|files| - 1])) + ", ";
      BareAppend("files: " + Join(", ", files[..|files| - 1]), ", ");
    }
  }

  lemma HeadIs(operation: string, subject: string)
    requires Words(subject) != []
    ensures Bullet(Head(operation, subject)) && EndsBare(Head(operation, subject))
    ensures OneLine(Head(operation, subject)) == OneLine(operation)
  {
    var subjectText := Join(" ", Words(subject));
    WordsEndBare(subject);
    BareAppend("* **" + operation + "**: ", subjectText);
    OneLineAppend("* **" + operation + "**: ", subjectText);
    OneLineAppend("* **" + operation, "**: ");
    OneLineAppend("* **", operation);
  }

  ghost predicate AllLines(parts: seq<string>) {
    forall i :: 0 <= i < |parts| ==> OneLine(parts[i])
  }

  lemma AllLinesAppend(a: seq<string>, b: seq<string>)
    ensures AllLines(a + b) <==> AllLines(a) && AllLines(b)
  {
    assert forall i :: 0 <= i < |a| ==> (a + b)[i] == a[i];
    assert forall i :: 0 <= i < |b| ==> (a + b)[|a| + i] == b[i];
  }

  lemma FilesAreLines(files: seq<string>)
    ensures AllLines(["files: " + Join(", ", files)]) <==> AllLines(files)
  {
    JoinOneLine(", ", files);
    OneLineAppend("files: ", Join(", ", files));
    AllLinesOne("files: " + Join(", ", files));
  }

  lemma AllLinesOne(line: string)
    ensures AllLines([line]) <==> OneLine(line)
  {
    assert [line][0] == line;
  }

  lemma SegmentsAreLines(operation: string, subject: string, note: string, files: seq<string>)
    requires Words(subject) != []
    ensures AllLines(Segments(operation, subject, note, files)) <==> OneLine(operation) && AllLines(files)
  {
    var head := [Head(operation, subject)];
    var noteText := if Words(note) == [] then [] else [Join(" ", Words(note))];
    var fileText := if files == [] then [] else ["files: " + Join(", ", files)];
    HeadIs(operation, subject);
    if Words(note) != [] { WordsEndBare(note); }
    FilesAreLines(files);
    AllLinesAppend(head, noteText);
    AllLinesAppend(head + noteText, fileText);
    assert AllLines(head) <==> OneLine(head[0]);
    assert AllLines(noteText);
  }

  lemma SegmentsEnd(operation: string, subject: string, note: string, files: seq<string>)
    requires Words(subject) != []
    ensures var parts := Segments(operation, subject, note, files);
            && parts[|parts| - 1] != ""
            && EndsBare(parts[|parts| - 1]) == (files == [] || EndsBare(files[|files| - 1]))
  {
    HeadIs(operation, subject);
    if Words(note) != [] { WordsEndBare(note); }
    if files != [] { FilesEnd(files); }
  }

  /**
   An entry is a bullet; it is one line if and only if the operation and the files hold no line break, and
   it ends bare if and only if the last file does. Subject and note never matter.
   */
  lemma EntryIs(operation: string, subject: string, note: string, files: seq<string>)
    requires Entry(operation, subject, note, files).Ok?
    ensures var entry := Entry(operation, subject, note, files).value;
            && Bullet(entry)
            && (OneLine(entry) <==> OneLine(operation) && AllLines(files))
            && (EndsBare(entry) <==> files == [] || EndsBare(files[|files| - 1]))
  {
    var parts := Segments(operation, subject, note, files);
    SegmentsAreLines(operation, subject, note, files);
    SegmentsEnd(operation, subject, note, files);
    HeadIs(operation, subject);
    JoinIs(" — ", parts);
    BulletJoins(parts);
  }

  /**
   Appending to a printed log adds exactly the one bullet, if and only if the operation and the files hold
   no line break and, for the day's first bullet, the last file does not end in white space.
   */
  lemma AppendIsExact(log: Log, operation: string, subject: string, note: string, files: seq<string>, day: string)
    requires Canonical(log) && ValidDate(day) && Entry(operation, subject, note, files).Ok?
    ensures AddsExactly(Render(log), day, Entry(operation, subject, note, files).value) <==>
            && OneLine(operation) && AllLines(files)
            && (files == [] || EndsBare(files[|files| - 1]) || Get(log.sections, day) !in [None, Some([])])
  {
    EntryIs(operation, subject, note, files);
    AppendAddsExactly(log, day, Entry(operation, subject, note, files).value);
  }

  lemma JoinIs(sep: string, parts: seq<string>)
    requires OneLine(sep) && parts != [] && parts[|parts| - 1] != ""
    ensures OneLine(Join(sep, parts)) <==> AllLines(parts)
    ensures EndsBare(Join(sep, parts)) == EndsBare(parts[|parts| - 1])
  {
    JoinOneLine(sep, parts);
    JoinEndsBare(sep, parts);
  }

  lemma BulletJoins(parts: seq<string>)
    requires parts != [] && Bullet(parts[0])
    ensures Bullet(Join(" — ", parts))
  {
    assert Join(" — ", parts)[..2] == parts[0][..2];
  }

  // ----- the validator ---------------------------------------------------------------------

  /** `text.split("\n")`. */
  function Rows(text: string): (rows: seq<string>)
    ensures rows != []
  {
    if text == "" then [""]
    else
      var rest := Rows(text[1..]);
      if text[0] == '\n' then [""] + rest else [[text[0]] + rest[0]] + rest[1..]
  }

  /** Two hashes and white space, which may be the line feed, open a heading. */
  predicate Opens(rows: seq<string>) {
    rows != [] && Headed(rows[0]) && if |rows[0]| > 2 then IsSpace(rows[0][2]) else |rows| > 1
  }

  /** The first row with text, if any. */
  function FirstText(rows: seq<string>): (k: nat)
    ensures k <= |rows| && (k < |rows| ==> Strip(rows[k]) != "")
  {
    if rows == [] || Strip(rows[0]) != "" then 0 else 1 + FirstText(rows[1..])
  }

  /** The last character, of rows that are all white space. */
  function LastBlank(rows: seq<string>): seq<string> {
    if rows == [] then []
    else
      var row := rows[|rows| - 1];
      if row == "" then LastBlank(rows[..|rows| - 1]) else [[row[|row| - 1]]]
  }

  /**
   What the pattern for headings finds: behind the two hashes the first text, in this row or the next that
   holds any; and where only white space is left, its last character if one can be spared.
   */
  function Found(rows: seq<string>): seq<string>
    decreases |rows|
  {
    if rows == [] then []
    else if !Opens(rows) then Found(rows[1..])
    else
      var below := [rows[0][2..]] + rows[1..];
      var k := FirstText(below);
      if k < |below| then [Strip(below[k])] + Found(rows[k + 1..])
      else LastBlank((if below[0] == "" then [] else [below[0][1..]]) + below[1..])
  }

  /** A row that is a heading by itself. */
  predicate H2(line: string) {
    |line| > 2 && line[..2] == "##" && IsSpace(line[2]) && Strip(line[2..]) != ""
  }

  function Headings(rows: seq<string>): seq<string> {
    if rows == [] then []
    else (if H2(rows[0]) then [Strip(rows[0][2..])] else []) + Headings(rows[1..])
  }

  /** No heading is spread over rows. */
  ghost predicate Regular(rows: seq<string>) {
    forall i :: 0 <= i < |rows| ==> Headed(rows[i]) ==> H2(rows[i])
  }

  /** Then what is found is what the rows say one by one. */
  lemma {:induction false} FoundRowByRow(rows: seq<string>)
    requires Regular(rows)
    ensures Found(rows) == Headings(rows)
    decreases |rows|
  {
    if rows != [] {
      assert forall i :: 0 <= i < |rows| - 1 ==> rows[1..][i] == rows[i + 1];
      FoundRowByRow(rows[1..]);
      H2IsHeaded(rows[0]);
      if H2(rows[0]) {
        var below := [rows[0][2..]] + rows[1..];
        assert Opens(rows) && FirstText(below) == 0 && below[0] == rows[0][2..];
      }
    }
  }

  lemma {:induction false} RowsStart(line: string, rest: string)
    requires OneLine(line)
    ensures Rows(line + rest) == [line + Rows(rest)[0]] + Rows(rest)[1..]
    decreases |line|
  {
    var text, r := line + rest, Rows(rest);
    if line == "" {
      assert text == rest && line + r[0] == r[0] && [r[0]] + r[1..] == r;
    } else {
      assert text[0] == line[0] && text[1..] == line[1..] + rest;
      assert OneLine(line[1..]) && line[0] != '\n';
      RowsStart(line[1..], rest);
      var next := Rows(text[1..]);
      assert next[0] == line[1..] + r[0] && next[1..] == r[1..];
      assert [line[0]] + (line[1..] + r[0]) == line + r[0];
    }
  }

  lemma RowsLine(line: string)
    requires OneLine(line)
    ensures Rows(line) == [line]
  {
    RowsStart(line, "");
    assert line + "" == line && Rows("") == [""] && [""][1..] == [];
  }

  lemma RowsCons(line: string, rest: string)
    requires OneLine(line)
    ensures Rows(line + ("\n" + rest)) == [line] + Rows(rest)
  {
    var tail := "\n" + rest;
    assert tail[0] == '\n' && tail[1..] == rest;
    RowsStart(line, tail);
    assert Rows(tail)[0] == "" && Rows(tail)[1..] == Rows(rest) && line + "" == line;
  }

  /** Joined rows come apart again. */
  lemma {:induction false} RowsOfJoin(rows: seq<string>)
    requires rows != [] && forall i :: 0 <= i < |rows| ==> OneLine(rows[i])
    ensures Rows(Join("\n", rows)) == rows
    decreases |rows|
  {
    var rest := rows[1..];
    if rest == [] {
      assert Join("\n", rows) == rows[0] && rows == [rows[0]];
      RowsLine(rows[0]);
    } else {
      assert forall i :: 0 <= i < |rest| ==> rest[i] == rows[i + 1];
      RowsOfJoin(rest);
      JoinCons("\n", rows);
      RowsCons(rows[0], Join("\n", rest));
    }
  }

  lemma JoinCons(sep: string, parts: seq<string>)
    requires |parts| > 1
    ensures Join(sep, parts) == parts[0] + (sep + Join(sep, parts[1..]))
  {}

  predicate Fence(line: string) {
    Strip(line) == "---"
  }

  function FenceEnd(lines: seq<string>): (n: nat)
    ensures n <= |lines|
  {
    if lines == [] || Fence(lines[0]) then 0 else 1 + FenceEnd(lines[1..])
  }

  /** The text without a line feed at its start. */
  function Unled(text: string): string {
    if text != "" && text[0] == '\n' then text[1..] else text
  }

  /** Where the body starts below a frontmatter that opens the file, if the frontmatter is closed and can be read. */
  function BodyStart(lines: seq<string>, readable: seq<string> -> bool): (r: Option<nat>)
    requires lines != []
    ensures r.Some? ==> r.value <= |lines|
  {
    var end := 1 + FenceEnd(lines[1..]);
    if end < |lines| && readable(lines[1..end]) then Some(end + 1) else None
  }

  /** The text, or what stands below its frontmatter. */
  function LogBody(text: string, readable: seq<string> -> bool): Option<string> {
    var lines := Lines(text);
    if lines == [] || !Fence(lines[0]) then Some(text)
    else
      var start := BodyStart(lines, readable);
      if start == None then None else Some(Unled(Join("\n", lines[start.value..])))
  }

  /** Calendar days, each later than the next. */
  ghost predicate NewestDays(headings: seq<string>) {
    && (forall i :: 0 <= i < |headings| ==> ValidDate(headings[i]))
    && forall i, j :: 0 <= i < j < |headings| ==> Ordinal(headings[i]) > Ordinal(headings[j])
  }

  ghost predicate Accepted(text: string, readable: seq<string> -> bool) {
    var body := LogBody(text, readable);
    body.Some? && NewestDays(Found(Rows(body.value)))
  }

  datatype LogError = Unreadable | NotIso(heading: string) | NoDay(heading: string) | Twice(heading: string) | OutOfOrder

  /** The numbers of the headings that are days. */
  function DayNumbers(headings: seq<string>): seq<nat> {
    if headings == [] then []
    else
      var last := headings[|headings| - 1];
      DayNumbers(headings[..|headings| - 1]) + if ValidDate(last) then [Ordinal(last)] else []
  }

  /** A heading that is a day, above one that is not earlier. */
  ghost predicate Misplaced(headings: seq<string>, i: nat, j: nat) {
    i < j < |headings| && ValidDate(headings[i]) && ValidDate(headings[j]) && Ordinal(headings[i]) <= Ordinal(headings[j])
  }

  /** The same day stands above. */
  ghost predicate SeenAbove(headings: seq<string>, j: nat) {
    j < |headings| && exists i :: 0 <= i < j && headings[i] == headings[j] && ValidDate(headings[i])
  }

  /** Exactly the errors of the headings, one by one. */
  ghost predicate Complains(headings: seq<string>, errors: seq<LogError>) {
    && (forall e :: e in errors ==> e.NotIso? || e.NoDay? || e.Twice?)
    && (forall h :: NotIso(h) in errors <==> h in headings && !IsoDate(h))
    && (forall h :: NoDay(h) in errors <==> h in headings && IsoDate(h) && !ValidDate(h))
    && (forall h :: Twice(h) in errors <==> exists j: nat :: SeenAbove(headings, j) && headings[j] == h)
  }

  /** A number stands for the heading it came from. */
  lemma {:induction false} NumberFrom(headings: seq<string>, k: nat) returns (i: nat)
    requires k < |DayNumbers(headings)|
    ensures i < |headings| && ValidDate(headings[i]) && DayNumbers(headings)[k] == Ordinal(headings[i])
    ensures |DayNumbers(headings[..i])| == k
    decreases |headings|
  {
    var n := |headings| - 1;
    var before := headings[..n];
    if k < |DayNumbers(before)| {
      i := NumberFrom(before, k);
      assert before[..i] == headings[..i];
    } else {
      i := n;
    }
  }

  lemma {:induction false} NumberOf(headings: seq<string>, i: nat)
    requires i < |headings| && ValidDate(headings[i])
    ensures var k := |DayNumbers(headings[..i])|;
            k < |DayNumbers(headings)| && DayNumbers(headings)[k] == Ordinal(headings[i])
    decreases |headings|
  {
    var n := |headings| - 1;
    if i < n {
      NumberOf(headings[..n], i);
      assert headings[..n][..i] == headings[..i];
    }
  }

  lemma {:induction false} FewerAbove(headings: seq<string>, i: nat, j: nat)
    requires i < j <= |headings| && ValidDate(headings[i])
    ensures |DayNumbers(headings[..i])| < |DayNumbers(headings[..j])|
    decreases j
  {
    assert headings[..j][..j - 1] == headings[..j - 1] && headings[..j][j - 1] == headings[j - 1];
    if i < j - 1 { FewerAbove(headings, i, j - 1); }
  }

  lemma {:induction false} StepsSuffice(dates: seq<nat>, i: nat, j: nat)
    requires forall k :: 0 <= k < |dates| - 1 ==> dates[k] > dates[k + 1]
    requires i < j < |dates|
    ensures dates[i] > dates[j]
    decreases j
  {
    if i < j - 1 { StepsSuffice(dates, i, j - 1); }
  }

  /** Each day is later than the next one if and only if no day stands above one that is not earlier. */
  lemma OrderedExactly(headings: seq<string>)
    ensures var dates := DayNumbers(headings);
            (forall k :: 0 <= k < |dates| - 1 ==> dates[k] > dates[k + 1])
            <==> !exists i: nat, j: nat :: Misplaced(headings, i, j)
  {
    var dates := DayNumbers(headings);
    if forall k :: 0 <= k < |dates| - 1 ==> dates[k] > dates[k + 1] {
      forall i: nat, j: nat ensures !Misplaced(headings, i, j) {
        if Misplaced(headings, i, j) {
          NumberOf(headings, i);
          NumberOf(headings, j);
          FewerAbove(headings, i, j);
          StepsSuffice(dates, |DayNumbers(headings[..i])|, |DayNumbers(headings[..j])|);
          assert false;
        }
      }
    } else {
      var k :| 0 <= k < |dates| - 1 && dates[k] <= dates[k + 1];
      var i := NumberFrom(headings, k);
      var j := NumberFrom(headings, k + 1);
      if j < i { FewerAbove(headings, j, i); }
      assert Misplaced(headings, i, j);
    }
  }

  /** The loop over the headings. */
  method CheckHeadings(headings: seq<string>) returns (errors: seq<LogError>, dates: seq<nat>)
    ensures Complains(headings, errors) && dates == DayNumbers(headings)
  {
    errors, dates := [], [];
    var seen: set<nat> := {};
    for i := 0 to |headings|
      invariant Complains(headings[..i], errors) && dates == DayNumbers(headings[..i])
      invariant SeenDays(headings, i, seen)
    {
      var heading := headings[i];
      ComplainsNext(headings, i, errors);
      SeenIsAbove(headings, i, seen);
      assert headings[..i + 1][i] == heading && headings[..i + 1][..i] == headings[..i];
      if !IsoDate(heading) {
        errors := errors + [NotIso(heading)];
      } else if !ValidDate(heading) {
        errors := errors + [NoDay(heading)];
      } else {
        if Ordinal(heading) in seen {
          errors := errors + [Twice(heading)];
        }
        seen := seen + {Ordinal(heading)};
        dates := dates + [Ordinal(heading)];
      }
    }
    assert headings[..|headings|] == headings;
  }

  /** The numbers of the days among the first headings. */
  ghost predicate SeenDays(headings: seq<string>, i: nat, seen: set<nat>)
    requires i <= |headings|
  {
    forall n :: n in seen <==> exists k :: 0 <= k < i && ValidDate(headings[k]) && n == Ordinal(headings[k])
  }

  lemma SeenIsAbove(headings: seq<string>, i: nat, seen: set<nat>)
    requires i < |headings| && SeenDays(headings, i, seen)
    ensures ValidDate(headings[i]) ==> (Ordinal(headings[i]) in seen <==> SeenAbove(headings, i))
    ensures SeenDays(headings, i + 1, if ValidDate(headings[i]) then seen + {Ordinal(headings[i])} else seen)
  {
    if ValidDate(headings[i]) {
      forall k | 0 <= k < i && ValidDate(headings[k])
        ensures Ordinal(headings[i]) == Ordinal(headings[k]) <==> headings[k] == headings[i]
      {
        StringOrderIsCalendarOrder(headings[k], headings[i]);
      }
    }
  }

  lemma ComplainsNext(headings: seq<string>, i: nat, errors: seq<LogError>)
    requires i < |headings| && Complains(headings[..i], errors)
    ensures var h := headings[i];
            Complains(headings[..i + 1], errors +
              if !IsoDate(h) then [NotIso(h)] else if !ValidDate(h) then [NoDay(h)]
              else if SeenAbove(headings, i) then [Twice(h)] else [])
  {
    var before, after, h := headings[..i], headings[..i + 1], headings[i];
    var more := errors +
      if !IsoDate(h) then [NotIso(h)] else if !ValidDate(h) then [NoDay(h)]
      else if SeenAbove(headings, i) then [Twice(h)] else [];
    assert after == before + [h];
    forall j: nat ensures SeenAbove(after, j) <==> SeenAbove(before, j) || (j == i && SeenAbove(headings, i)) {
      if j < i { assert after[j] == before[j] && forall k :: 0 <= k < j ==> after[k] == before[k]; }
      if j == i { assert forall k :: 0 <= k < j ==> after[k] == headings[k]; }
    }
    forall x ensures Twice(x) in more <==> exists j: nat :: SeenAbove(after, j) && after[j] == x {
      if j: nat :| SeenAbove(before, j) && before[j] == x { assert SeenAbove(after, j) && after[j] == x; }
      if SeenAbove(headings, i) && x == h { assert SeenAbove(after, i) && after[i] == x; }
      forall j: nat | SeenAbove(after, j) && after[j] == x ensures Twice(x) in more {
        if j < i { assert SeenAbove(before, j) && before[j] == x; }
      }
    }
  }

  /** The errors of a log: each heading that is no day, each day that stands above already, and days out of order. */
  ghost predicate Reports(text: string, readable: seq<string> -> bool, errors: seq<LogError>) {
    var body := LogBody(text, readable);
    if body == None then errors == [Unreadable]
    else
      var headings := Found(Rows(body.value));
      exists complaints :: Complains(headings, complaints) &&
        errors == complaints + if exists i: nat, j: nat :: Misplaced(headings, i, j) then [OutOfOrder] else []
  }

  lemma AcceptedExactly(headings: seq<string>, errors: seq<LogError>)
    requires Complains(headings, errors)
    ensures NewestDays(headings) <==> errors == [] && !exists i: nat, j: nat :: Misplaced(headings, i, j)
  {
    assert errors != [] ==> errors[0] in errors;
    if errors == [] && !exists i: nat, j: nat :: Misplaced(headings, i, j) {
      forall i | 0 <= i < |headings| ensures ValidDate(headings[i]) {
        assert NotIso(headings[i]) !in errors && NoDay(headings[i]) !in errors;
      }
      forall i, j | 0 <= i < j < |headings| ensures Ordinal(headings[i]) > Ordinal(headings[j]) {
        assert !Misplaced(headings, i, j);
      }
    }
    if NewestDays(headings) {
      forall j: nat ensures !SeenAbove(headings, j) {}
      assert forall e :: e !in errors;
    }
  }

  /**
   The validator reports exactly the errors of the log's headings, and none if and only if they are days,
   newest first. `text` is what reading a file in text mode gives, with line feeds for carriage returns.
   */
  method ValidateLog(text: string, readable: seq<string> -> bool) returns (errors: seq<LogError>)
    ensures Reports(text, readable, errors)
    ensures errors == [] <==> Accepted(text, readable)
  {
    var body := LogBody(text, readable);
    if body == None {
      return [Unreadable];
    }
    var headings, dates := Found(Rows(body.value)), [];
    errors, dates := CheckHeadings(headings);
    ghost var complaints := errors;
    var ordered := true;
    var i := 0;
    while i + 1 < |dates|
      invariant ordered <==> forall k :: 0 <= k < i && k + 1 < |dates| ==> dates[k] > dates[k + 1]
    {
      if dates[i + 1] >= dates[i] { ordered := false; }
      i := i + 1;
    }
    OrderedExactly(headings);
    AcceptedExactly(headings, complaints);
    if !ordered {
      errors := errors + [OutOfOrder];
    }
    assert errors == complaints + if ordered then [] else [OutOfOrder];
  }

  lemma {:induction false} HeadingsAppend(a: seq<string>, b: seq<string>)
    ensures Headings(a + b) == Headings(a) + Headings(b)
    decreases |a|
  {
    if a == [] {
      assert a + b == b;
    } else {
      assert (a + b)[0] == a[0] && (a + b)[1..] == a[1..] + b;
      HeadingsAppend(a[1..], b);
    }
  }

  lemma H2IsHeaded(line: string)
    ensures H2(line) ==> Headed(line)
  {
    if |line| > 2 && line[..2] == "##" { assert "##" <= line; }
  }

  lemma {:induction false} PlainHasNone(lines: seq<string>)
    requires PlainLines(lines)
    ensures Headings(lines) == []
    decreases |lines|
  {
    if lines != [] {
      H2IsHeaded(lines[0]);
      assert forall i :: 0 <= i < |lines| - 1 ==> lines[1..][i] == lines[i + 1];
      PlainHasNone(lines[1..]);
    }
  }

  lemma DayHeading(day: string)
    requires ValidDate(day)
    ensures Headings(["", "## " + day]) == [day] && H2("## " + day)
  {
    var line := "## " + day;
    assert line[2..] == " " + day && line[..2] == "##";
    assert Digit(day[0]) && Digit(day[9]) && !IsSpace(day[0]) && !IsSpace(day[9]);
    RStripOfBare(" " + day);
    assert (" " + day)[1..] == day && LStrip(day) == day && LStrip(" " + day) == LStrip(day);
    assert Strip(line[2..]) == day;
    assert ["", line][1..] == [line] && [line][1..] == [];
    assert Headings([line]) == [day];
  }

  lemma {:induction false} HeadingsOfDays(days: seq<string>, sections: Sections)
    requires forall d :: d in days ==> d in sections && ValidDate(d) && CanonicalBody(sections[d])
    ensures Headings(LinesOf(days, sections)) == days
    decreases |days|
  {
    if days != [] {
      var day, body, rest := days[0], sections[days[0]], LinesOf(days[1..], sections);
      assert day in days;
      DayHeading(day);
      PlainHasNone(body);
      HeadingsAppend(["", "## " + day] + body, rest);
      HeadingsAppend(["", "## " + day], body);
      HeadingsOfDays(days[1..], sections);
    }
  }

  lemma NewestAreNewest(days: set<string>)
    requires forall d :: d in days ==> ValidDate(d)
    ensures NewestDays(Newest(days))
  {
    var r := Newest(days);
    NewestIsDistinct(days);
    assert forall i :: 0 <= i < |r| ==> r[i] in r;
    forall i, j | 0 <= i < j < |r| ensures Ordinal(r[i]) > Ordinal(r[j]) {
      StringOrderIsCalendarOrder(r[j], r[i]);
    }
  }

  lemma PageHeadings(log: Log)
    requires Canonical(log)
    ensures Headings(Page(log)) == Newest(log.sections.Keys) && NewestDays(Headings(Page(log)))
  {
    var days := Newest(log.sections.Keys);
    PlainHasNone(log.intro);
    HeadingsOfDays(days, log.sections);
    HeadingsAppend(log.intro, LinesOf(days, log.sections));
    NewestAreNewest(log.sections.Keys);
  }

  lemma NewestSuffix(headings: seq<string>, a: seq<string>, b: seq<string>)
    requires headings == a + b && NewestDays(headings)
    ensures NewestDays(b)
  {
    assert forall i :: 0 <= i < |b| ==> b[i] == headings[|a| + i];
  }

  lemma {:induction false} PageIsRegular(days: seq<string>, sections: Sections)
    requires forall d :: d in days ==> d in sections && ValidDate(d) && CanonicalBody(sections[d])
    ensures Regular(LinesOf(days, sections))
    decreases |days|
  {
    if days != [] {
      var day, body, rest := days[0], sections[days[0]], LinesOf(days[1..], sections);
      var line := "## " + day;
      assert day in days;
      PageIsRegular(days[1..], sections);
      DayIsHeading(day);
      assert LinesOf(days, sections) == ["", line] + body + rest;
      RegularAppend(["", line], body);
      RegularAppend(["", line] + body, rest);
    }
  }

  lemma OneHeading(line: string)
    requires H2(line)
    ensures Regular(["", line])
  {
    var rows := ["", line];
    assert rows[0] == "" && rows[1] == line && !Headed("");
  }

  lemma DayIsHeading(day: string)
    requires ValidDate(day)
    ensures H2("## " + day) && Regular(["", "## " + day])
  {
    DayHeading(day);
    OneHeading("## " + day);
  }

  lemma RegularAppend(a: seq<string>, b: seq<string>)
    requires Regular(a) && Regular(b)
    ensures Regular(a + b)
  {}

  lemma RegularPage(log: Log)
    requires Canonical(log)
    ensures Regular(Page(log))
  {
    var days := Newest(log.sections.Keys);
    PageIsRegular(days, log.sections);
    RegularAppend(log.intro, LinesOf(days, log.sections));
  }

  /** The end of a printed log, from any line on, shows days, newest first. */
  lemma EndShowsDays(log: Log, k: nat, tail: seq<string>)
    requires Canonical(log) && k <= |Page(log)| && (tail == [] || tail == [""])
    ensures NewestDays(Found(Page(log)[k..] + tail))
  {
    PageHeadings(log);
    RegularPage(log);
    EndShows(Page(log), k, tail);
  }

  lemma EndShows(page: seq<string>, k: nat, tail: seq<string>)
    requires Regular(page) && NewestDays(Headings(page)) && k <= |page| && (tail == [] || tail == [""])
    ensures NewestDays(Found(page[k..] + tail))
  {
    var end := page[k..];
    assert page == page[..k] + end;
    HeadingsAppend(page[..k], end);
    HeadingsAppend(end, tail);
    assert Headings(tail) == [] && Headings(end) + [] == Headings(end);
    NewestSuffix(Headings(page), Headings(page[..k]), Headings(end));
    assert forall i :: 0 <= i < |end| ==> end[i] == page[k + i];
    RegularAppend(end, tail);
    FoundRowByRow(end + tail);
  }

  /** What is left below the frontmatter is the end of the page, less a first blank line. */
  lemma BodyIsEnd(rest: seq<string>) returns (rows: seq<string>, k: nat, tail: seq<string>)
    requires forall i :: 0 <= i < |rest| ==> OneLine(rest[i])
    ensures rows == Rows(Unled(Join("\n", rest)))
    ensures k <= |rest| && rows == rest[k..] + tail && (tail == [] || tail == [""])
  {
    rows := Rows(Unled(Join("\n", rest)));
    if rest == [] {
      k, tail := 0, [""];
    } else if rest[0] == "" && |rest| > 1 {
      assert Join("\n", rest) == "\n" + Join("\n", rest[1..]);
      RowsOfJoin(rest[1..]);
      k, tail := 1, [];
    } else {
      assert rest[0] != "" ==> Join("\n", rest)[0] == rest[0][0];
      assert rest[0] == "" ==> rest == [""];
      RowsOfJoin(rest);
      k, tail := 0, [];
    }
  }

  lemma UnfencedIsAccepted(log: Log, readable: seq<string> -> bool)
    requires Canonical(log) && !Fence(log.intro[0])
    ensures Accepted(Render(log), readable)
  {
    var page := Page(log);
    PageLines(log);
    PageIsPlain(Newest(log.sections.Keys), log.sections);
    RenderIsPage(log);
    RowsOfJoin(page + [""]);
    JoinSnoc("\n", page, "");
    assert Render(log) == Join("\n", page + [""]) && page[0..] == page && page[0] == log.intro[0];
    EndShowsDays(log, 0, [""]);
  }

  /** The rows from some line on, joined and told apart again. */
  lemma EndIsEnd(page: seq<string>, start: nat) returns (k: nat, tail: seq<string>)
    requires start <= |page| && forall i :: 0 <= i < |page| ==> OneLine(page[i])
    ensures k <= |page| && Rows(Unled(Join("\n", page[start..]))) == page[k..] + tail && (tail == [] || tail == [""])
  {
    var rest := page[start..];
    assert forall i :: 0 <= i < |rest| ==> rest[i] == page[start + i];
    var rows, n, more := BodyIsEnd(rest);
    assert rest[n..] == page[start + n..];
    k, tail := start + n, more;
  }

  lemma FencedIsAccepted(log: Log, readable: seq<string> -> bool, body: string)
    requires Canonical(log) && Fence(log.intro[0]) && LogBody(Render(log), readable) == Some(body)
    ensures NewestDays(Found(Rows(body)))
  {
    PageLines(log);
    PageIsPlain(Newest(log.sections.Keys), log.sections);
    assert Page(log)[0] == log.intro[0];
    var k, tail := EndIsEnd(Page(log), BodyStart(Page(log), readable).value);
    EndShowsDays(log, k, tail);
  }

  /** A printed log is accepted, unless it opens with a fence that no readable frontmatter closes. */
  lemma PrintedLogIsAccepted(log: Log, readable: seq<string> -> bool)
    requires Canonical(log)
    ensures Accepted(Render(log), readable) <==> LogBody(Render(log), readable).Some?
    ensures !Fence(log.intro[0]) ==> Accepted(Render(log), readable)
  {
    if !Fence(log.intro[0]) {
      UnfencedIsAccepted(log, readable);
    } else if LogBody(Render(log), readable).Some? {
      FencedIsAccepted(log, readable, LogBody(Render(log), readable).value);
    }
  }

  // ----- histories -------------------------------------------------------------------------

  /** The bullets of a day, newest first. */
  function Told(history: seq<(string, string)>, day: string): seq<string> {
    if history == [] then []
    else
      var last := history[|history| - 1];
      (if last.0 == day then [last.1] else []) + Told(history[..|history| - 1], day)
  }

  /** The text after appending each entry on its day, in order. */
  ghost function Replay(text: string, history: seq<(string, string)>): Option<string> {
    if history == [] then Some(text)
    else
      var before, last := Replay(text, history[..|history| - 1]), history[|history| - 1];
      if before == None || Appended(before, last.0, last.1).Refused? then None
      else Some(Appended(before, last.0, last.1).value)
  }

  ghost predicate Clean(history: seq<(string, string)>) {
    forall i :: 0 <= i < |history| ==> CleanStep(history[i].0, history[i].1)
  }

  function BulletsOf(log: Log, day: string): seq<string> {
    if day in log.sections then log.sections[day] else []
  }

  /** The bullets of every day are those that the history tells, above the ones from before. */
  ghost predicate Tells(start: Log, history: seq<(string, string)>, log: Log) {
    && (forall d :: BulletsOf(log, d) == Told(history, d) + BulletsOf(start, d))
    && forall d :: d in log.sections <==> d in start.sections || Told(history, d) != []
  }

  lemma BulletsPut(log: Log, day: string, entry: string, d: string)
    ensures BulletsOf(Log(log.intro, Put(log.sections, day, entry)), d) ==
            if d == day then [entry] + BulletsOf(log, d) else BulletsOf(log, d)
  {}

  lemma ToldSnoc(history: seq<(string, string)>, day: string, entry: string, d: string)
    ensures Told(history + [(day, entry)], d) == (if d == day then [entry] else []) + Told(history, d)
  {
    var all := history + [(day, entry)];
    assert all[..|history|] == history && all[|history|] == (day, entry);
  }

  lemma TellsNext(start: Log, history: seq<(string, string)>, log: Log, day: string, entry: string)
    requires Tells(start, history, log)
    ensures Tells(start, history + [(day, entry)], Log(log.intro, Put(log.sections, day, entry)))
  {
    var all, next := history + [(day, entry)], Log(log.intro, Put(log.sections, day, entry));
    forall d
      ensures BulletsOf(next, d) == Told(all, d) + BulletsOf(start, d)
      ensures d in next.sections <==> d in start.sections || Told(all, d) != []
    {
      BulletsPut(log, day, entry, d);
      ToldSnoc(history, day, entry, d);
      assert BulletsOf(log, d) == Told(history, d) + BulletsOf(start, d);
      assert [entry] + (Told(history, d) + BulletsOf(start, d)) == [entry] + Told(history, d) + BulletsOf(start, d);
    }
  }

  lemma TellsNothing(start: Log)
    ensures Tells(start, [], start)
  {
    forall d ensures BulletsOf(start, d) == Told([], d) + BulletsOf(start, d) {
      assert [] + BulletsOf(start, d) == BulletsOf(start, d);
    }
  }

  lemma ReplayNext(text: string, history: seq<(string, string)>, next: (string, string), before: string, after: string)
    ensures Replay(text, history) == Some(before) && Appended(Some(before), next.0, next.1) == Ok(after) ==>
              Replay(text, history + [next]) == Some(after)
  {
    var all := history + [next];
    assert all[..|history|] == history && all[|history|] == next;
  }

  ghost predicate CleanStep(day: string, entry: string) {
    ValidDate(day) && Bullet(entry) && OneLine(entry) && EndsBare(entry)
  }

  /** The printed log `log` is what the history made of `start`. */
  ghost predicate Reached(start: Log, history: seq<(string, string)>, log: Log) {
    && Canonical(log) && log.intro == start.intro && Tells(start, history, log)
    && Replay(Render(start), history) == Some(Render(log))
  }

  lemma ReachedNext(start: Log, history: seq<(string, string)>, log: Log, day: string, entry: string)
    requires CleanStep(day, entry)
    ensures Reached(start, history, log) ==>
              Reached(start, history + [(day, entry)], Log(log.intro, Put(log.sections, day, entry)))
  {
    var next := Log(log.intro, Put(log.sections, day, entry));
    if Reached(start, history, log) {
      AppendedIs(log, day, entry);
      PutIsCanonical(log, day, entry);
      TellsNext(start, history, log, day, entry);
      ReplayNext(Render(start), history, (day, entry), Render(log), Render(next));
    }
  }

  lemma ReachedNothing(start: Log)
    requires Canonical(start)
    ensures Reached(start, [], start)
  {
    TellsNothing(start);
  }

  lemma CleanPrefix(history: seq<(string, string)>)
    requires Clean(history) && history != []
    ensures var n := |history| - 1;
            Clean(history[..n]) && CleanStep(history[n].0, history[n].1)
            && history == history[..n] + [(history[n].0, history[n].1)]
  {}

  /** After any clean history a printed log is printed again, and tells the history. */
  lemma {:induction false} ReplayTells(start: Log, history: seq<(string, string)>) returns (log: Log)
    requires Canonical(start) && Clean(history)
    ensures Reached(start, history, log)
    decreases |history|
  {
    if history == [] {
      log := start;
      ReachedNothing(start);
    } else {
      var n := |history| - 1;
      CleanPrefix(history);
      var before := ReplayTells(start, history[..n]);
      ReachedNext(start, history[..n], before, history[n].0, history[n].1);
      log := Log(before.intro, Put(before.sections, history[n].0, history[n].1));
    }
  }

  const FRESH: Log := Log([TITLE, "", RULE], map[])

  lemma JoinThree(sep: string, a: string, b: string, c: string)
    ensures Join(sep, [a, b, c]) == a + sep + b + sep + c
  {
    assert [a, b, c][1..] == [b, c] && [b, c][1..] == [c];
    assert [c][1..] == [] && After(sep, []) == "";
    assert After(sep, [c]) == sep + c;
    assert After(sep, [b, c]) == sep + b + After(sep, [c]);
  }

  lemma PrintTwo(a: string, c: string)
    requires CanonicalIntro([a, "", c])
    ensures Render(Log([a, "", c], map[])) == a + "\n\n" + c + "\n"
  {
    var log := Log([a, "", c], map[]);
    NoDays(log);
    RenderIsPage(log);
    JoinThree("\n", a, "", c);
    assert "\n" + "" + "\n" == "\n\n";
    assert a + "\n" + "" + "\n" + c == a + "\n\n" + c;
  }

  lemma NoDays(log: Log)
    requires log.sections == map[]
    ensures Page(log) == log.intro
  {
    assert log.sections.Keys == {} && Newest({}) == [] && log.intro + [] == log.intro;
  }

  lemma FreshIsCanonical()
    ensures CanonicalIntro(FRESH.intro) && !Fence(FRESH.intro[0])
  {
    var a, c := TITLE, RULE;
    assert forall n :: 0 <= n < |a| ==> 32 <= a[n] as int < 127;
    assert forall n :: 0 <= n < |c| ==> 32 <= c[n] as int < 127;
    assert OneLine(a) && OneLine(c) && a[1] != '#' && c[0] != '#';
    assert !Headed(a) && !Headed("") && !Headed(c);
    RStripOfBare(a);
    assert a[0] == '#' && |a| > 3;
  }

  lemma HeaderIsPrinted()
    ensures Canonical(FRESH) && Render(FRESH) == HEADER
  {
    FreshIsCanonical();
    PrintTwo(TITLE, RULE);
  }

  /**
   A log started by the program tells its whole history: after any clean entries its text parses to exactly
   the bullets of every day, newest first, and the validator accepts it.
   */
  lemma LogTellsItsHistory(history: seq<(string, string)>, readable: seq<string> -> bool) returns (text: string)
    requires Clean(history)
    ensures Replay(HEADER, history) == Some(text) && Parse(text).Ok? && Accepted(text, readable)
    ensures forall d :: Get(Parse(text).value.sections, d) == if Told(history, d) == [] then None else Some(Told(history, d))
  {
    FreshIsCanonical();
    HeaderIsPrinted();
    var log := ReplayTells(FRESH, history);
    text := Render(log);
    ParseAfterRender(log);
    PrintedLogIsAccepted(log, readable);
    forall d ensures Get(log.sections, d) == if Told(history, d) == [] then None else Some(Told(history, d)) {
      assert BulletsOf(log, d) == Told(history, d) + BulletsOf(FRESH, d);
      assert Told(history, d) + [] == Told(history, d);
    }
  }
}
