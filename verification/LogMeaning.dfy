/** What the log's reader, its entries and its calendar come to, line by line and word by word. */
module LogMeaning {
  import opened Prelude
  import opened Strings
  import opened Text
  import opened Dates
  import opened Log
  import opened LogLaws

  // ----- lines and words -------------------------------------------------------------------

  /** The characters that `splitlines` breaks at; all of them are white space. */
  lemma BreaksAre(c: char)
    ensures IsBreak(c) <==> c as int in {10, 11, 12, 13, 28, 29, 30, 133, 8232, 8233}
    ensures IsBreak(c) ==> IsSpace(c)
  {}

  /** The characters that `strip` and `split` take for white space. */
  lemma SpacesAre(c: char)
    ensures IsSpace(c) <==>
              IsBreak(c) || c as int in {9, 31, 32, 160, 5760, 8239, 8287, 12288} || 8192 <= c as int <= 8202
  {}

  /** A line break: one character, or a carriage return and a line feed. */
  predicate Break(s: string) {
    s == "\r\n" || (|s| == 1 && IsBreak(s[0]))
  }

  /** The lines of a text and the break behind each; only the last line may lack one. */
  ghost predicate Broken(text: string, lines: seq<string>, breaks: seq<string>)
    decreases |lines|
  {
    |lines| == |breaks|
    && if lines == [] then text == ""
       else
         && Opens(text, lines[0], breaks[0], |lines| == 1)
         && Broken(text[|lines[0]| + |breaks[0]|..], lines[1..], breaks[1..])
  }

  /** The text begins with a line and its break. */
  ghost predicate Opens(text: string, line: string, end: string, last: bool) {
    && OneLine(line) && |line| + |end| <= |text| && line + end <= text
    && (if end == "" then last && line == text && line != "" else Break(end))
    && (end == "\r" && |line| + 1 < |text| ==> text[|line| + 1] != '\n')
  }

  lemma FirstLine(text: string, n: nat, end: string)
    requires n < |text| && OneLine(text[..n]) && IsBreak(text[n])
    requires end == if n + 1 < |text| && text[n] == '\r' && text[n + 1] == '\n' then "\r\n" else [text[n]]
    ensures Opens(text, text[..n], end, false) && n + |end| <= |text|
  {
    assert text[..n] + end == text[..n + |end|];
  }

  lemma BrokenNext(text: string, line: string, end: string, lines: seq<string>, breaks: seq<string>)
    requires Opens(text, line, end, false) && Broken(text[|line| + |end|..], lines, breaks)
    ensures Broken(text, [line] + lines, [end] + breaks)
  {
    var all, ends := [line] + lines, [end] + breaks;
    assert all[0] == line && all[1..] == lines && ends[0] == end && ends[1..] == breaks;
  }

  lemma LastLine(text: string)
    requires text != "" && LineEnd(text) == |text|
    ensures Lines(text) == [text] && Broken(text, [text], [""])
  {
    assert text[..|text|] == text && text + "" == text;
    assert Opens(text, text, "", true) && text[|text|..] == "" && [text][1..] == [] && [""][1..] == [];
  }

  lemma LinesBehind(text: string, n: nat, width: nat)
    requires n == LineEnd(text) < |text|
    requires width == if n + 1 < |text| && text[n] == '\r' && text[n + 1] == '\n' then 2 else 1
    ensures n + width <= |text| && Lines(text) == [text[..n]] + Lines(text[n + width..])
  {
    if width == 2 {
      assert Lines(text) == [text[..n]] + Lines(text[n + 2..]);
    } else {
      assert Lines(text) == [text[..n]] + Lines(text[n + 1..]);
    }
  }

  /** `Lines` takes the text apart at its breaks and at nothing else. */
  lemma {:induction false} LinesAre(text: string) returns (breaks: seq<string>)
    ensures Broken(text, Lines(text), breaks)
    decreases |text|
  {
    breaks := [];
    if text != "" {
      var n := LineEnd(text);
      if n == |text| {
        breaks := [""];
        LastLine(text);
      } else {
        var end := if n + 1 < |text| && text[n] == '\r' && text[n + 1] == '\n' then "\r\n" else [text[n]];
        FirstLine(text, n, end);
        LinesBehind(text, n, |end|);
        var rest := LinesAre(text[n + |end|..]);
        breaks := [end] + rest;
        BrokenNext(text, text[..n], end, Lines(text[n + |end|..]), rest);
      }
    }
  }

  /** The text without its white space. */
  function Squeezed(s: string): string {
    if s == "" then "" else (if IsSpace(s[0]) then "" else [s[0]]) + Squeezed(s[1..])
  }

  function Concat(words: seq<string>): string {
    if words == [] then "" else words[0] + Concat(words[1..])
  }

  lemma {:induction false} SqueezedWord(word: string, rest: string)
    requires forall i :: 0 <= i < |word| ==> !IsSpace(word[i])
    ensures Squeezed(word + rest) == word + Squeezed(rest)
    decreases |word|
  {
    if word == "" {
      assert word + rest == rest;
    } else {
      assert (word + rest)[0] == word[0] && (word + rest)[1..] == word[1..] + rest;
      SqueezedWord(word[1..], rest);
      assert [word[0]] + word[1..] == word;
    }
  }

  /** No character of a word is lost, and no word runs on. */
  lemma {:induction false} WordsAre(s: string)
    ensures Concat(Words(s)) == Squeezed(s)
    ensures Words(s) == [] <==> forall i :: 0 <= i < |s| ==> IsSpace(s[i])
    ensures s != "" && !IsSpace(s[0]) ==> Words(s)[0] <= s && (Words(s)[0] == s || IsSpace(s[|Words(s)[0]|]))
    decreases |s|
  {
    if s != "" {
      if IsSpace(s[0]) {
        WordsAre(s[1..]);
        assert forall i :: 0 <= i < |s| - 1 ==> s[1..][i] == s[i + 1];
      } else {
        var n := WordEnd(s);
        WordsAre(s[n..]);
        SqueezedWord(s[..n], s[n..]);
        assert s == s[..n] + s[n..] && Words(s)[1..] == Words(s[n..]);
      }
    }
  }

  // ----- an entry --------------------------------------------------------------------------

  /** The parts stand in the text one after the other. */
  ghost predicate InOrder(text: string, parts: seq<string>)
    decreases |parts|
  {
    parts == [] || exists before, after :: text == before + parts[0] + after && InOrder(after, parts[1..])
  }

  lemma OneFirst(before: string, part: string, after: string, parts: seq<string>)
    requires InOrder(after, parts)
    ensures InOrder(before + part + after, [part] + parts)
  {
    assert ([part] + parts)[1..] == parts && ([part] + parts)[0] == part;
  }

  lemma {:induction false} MoreBefore(before: string, text: string, parts: seq<string>)
    requires InOrder(text, parts)
    ensures InOrder(before + text, parts)
  {
    if parts != [] {
      var front, after :| text == front + parts[0] + after && InOrder(after, parts[1..]);
      assert before + text == (before + front) + parts[0] + after;
    }
  }

  /** The parts of joined text, and then those of what follows. */
  lemma {:induction false} AfterInOrder(sep: string, parts: seq<string>, text: string, more: seq<string>)
    requires InOrder(text, more)
    ensures InOrder(After(sep, parts) + text, parts + more)
    decreases |parts|
  {
    if parts == [] {
      assert After(sep, parts) + text == text && parts + more == more;
    } else {
      AfterInOrder(sep, parts[1..], text, more);
      OneFirst(sep, parts[0], After(sep, parts[1..]) + text, parts[1..] + more);
      assert [parts[0]] + (parts[1..] + more) == parts + more;
      assert After(sep, parts) + text == sep + parts[0] + (After(sep, parts[1..]) + text);
    }
  }

  lemma JoinInOrder(sep: string, parts: seq<string>, text: string, more: seq<string>)
    requires InOrder(text, more)
    ensures InOrder(Join(sep, parts) + text, parts + more)
  {
    if parts == [] {
      assert Join(sep, parts) + text == text && parts + more == more;
    } else {
      AfterInOrder(sep, parts[1..], text, more);
      OneFirst("", parts[0], After(sep, parts[1..]) + text, parts[1..] + more);
      assert [parts[0]] + (parts[1..] + more) == parts + more;
      assert Join(sep, parts) + text == "" + parts[0] + (After(sep, parts[1..]) + text);
    }
  }

  function NoteText(note: string): string {
    if Words(note) == [] then "" else " — " + Join(" ", Words(note))
  }

  function FilesText(files: seq<string>): string {
    if files == [] then "" else " — " + ("files: " + Join(", ", files))
  }

  lemma OneAfter(sep: string, part: string)
    ensures After(sep, [part]) == sep + part
  {
    assert [part][1..] == [];
  }

  lemma Regroup(a: string, b: string, c: string)
    ensures (a + b) + c == a + (b + c)
  {}

  /** The entry written out. */
  lemma EntryText(operation: string, subject: string, note: string, files: seq<string>)
    ensures Join(" — ", Segments(operation, subject, note, files)) ==
            Head(operation, subject) + (NoteText(note) + FilesText(files))
  {
    var noteSegment := if Words(note) == [] then [] else [Join(" ", Words(note))];
    var fileSegment := if files == [] then [] else ["files: " + Join(", ", files)];
    var parts := Segments(operation, subject, note, files);
    assert parts == [Head(operation, subject)] + (noteSegment + fileSegment);
    assert parts[0] == Head(operation, subject) && parts[1..] == noteSegment + fileSegment;
    AfterAppend(" — ", noteSegment, fileSegment);
    OneAfter(" — ", Join(" ", Words(note)));
    OneAfter(" — ", "files: " + Join(", ", files));
  }

  lemma NoteInOrder(note: string, text: string, more: seq<string>)
    requires InOrder(text, more)
    ensures InOrder(NoteText(note) + text, Words(note) + more)
  {
    JoinInOrder(" ", Words(note), text, more);
    if Words(note) == [] {
      assert NoteText(note) + text == text && Words(note) + more == more;
    } else {
      MoreBefore(" — ", Join(" ", Words(note)) + text, Words(note) + more);
      Regroup(" — ", Join(" ", Words(note)), text);
    }
  }

  lemma FilesInOrder(files: seq<string>)
    ensures InOrder(FilesText(files), files)
  {
    if files != [] {
      JoinInOrder(", ", files, "", []);
      assert Join(", ", files) + "" == Join(", ", files) && files + [] == files;
      MoreBefore("files: ", Join(", ", files), files);
      MoreBefore(" — ", "files: " + Join(", ", files), files);
    }
  }

  lemma HeadInOrder(operation: string, subject: string, text: string, more: seq<string>)
    requires InOrder(text, more)
    ensures InOrder(Head(operation, subject) + text, [operation] + (Words(subject) + more))
  {
    var words := Join(" ", Words(subject));
    JoinInOrder(" ", Words(subject), text, more);
    MoreBefore("**: ", words + text, Words(subject) + more);
    OneFirst("* **", operation, "**: " + (words + text), Words(subject) + more);
    Regroup("* **" + operation, "**: ", words);
    Regroup("* **" + operation, "**: " + words, text);
    Regroup("**: ", words, text);
  }

  /** An entry tells the operation, every word of the subject, every word of the note and every file, in this order. */
  lemma EntryTells(operation: string, subject: string, note: string, files: seq<string>)
    requires operation != "" && Words(subject) != []
    ensures var r := Entry(operation, subject, note, files);
            r.Ok? && InOrder(r.value, [operation] + (Words(subject) + (Words(note) + files)))
  {
    EntryText(operation, subject, note, files);
    FilesInOrder(files);
    NoteInOrder(note, FilesText(files), files);
    HeadInOrder(operation, subject, NoteText(note) + FilesText(files), Words(note) + files);
  }

  /** There is an entry if and only if there is an operation, and a subject that is not all white space. */
  lemma EntryExactly(operation: string, subject: string, note: string, files: seq<string>)
    ensures Entry(operation, subject, note, files).Ok? <==>
            operation != "" && exists i :: 0 <= i < |subject| && !IsSpace(subject[i])
  {
    WordsAre(subject);
  }

  // ----- reading a log ---------------------------------------------------------------------

  /** A line that opens with two hashes is a calendar day, and not one from above. */
  ghost predicate GoodLine(lines: seq<string>, i: nat)
    requires i < |lines|
  {
    "##" <= lines[i] ==>
      && (exists day :: ValidDate(day) && lines[i] == "## " + day)
      && forall j :: 0 <= j < i ==> lines[j] != lines[i]
  }

  /** What is wrong with a line. */
  ghost predicate FaultAt(lines: seq<string>, i: nat, fault: Fault)
    requires i < |lines|
  {
    match fault
    case NotADate(line) => line == i && forall day :: IsoDate(day) ==> lines[i] != "## " + day
    case NoSuchDay(day) => lines[i] == "## " + day && IsoDate(day) && !ValidDate(day)
    case Repeated(line) => line == i && exists j :: 0 <= j < i && lines[j] == lines[i]
    case NoOperation => false
    case NoSubject => false
  }

  lemma DateHeadingIs(line: string)
    ensures DateHeading(line) <==> exists day :: IsoDate(day) && line == "## " + day
    ensures forall day :: line == "## " + day ==> line[3..] == day
  {
    if DateHeading(line) { assert line == "## " + line[3..]; }
    forall day | line == "## " + day ensures line[3..] == day && (IsoDate(day) ==> DateHeading(line)) {
      assert line[..3] == "## ";
    }
  }

  /** A log is read if and only if each of its lines is good; otherwise the first bad line is reported. */
  lemma {:induction false} CheckMeans(lines: seq<string>)
    ensures Check(lines) == None <==> forall i :: 0 <= i < |lines| ==> GoodLine(lines, i)
    ensures Check(lines).Some? ==>
              exists i :: 0 <= i < |lines| && FaultAt(lines, i, Check(lines).value) && !GoodLine(lines, i)
                          && forall j :: 0 <= j < i ==> GoodLine(lines, j)
    decreases |lines|
  {
    if lines != [] {
      var n := |lines| - 1;
      var before := lines[..n];
      CheckMeans(before);
      forall i | 0 <= i < n ensures GoodLine(before, i) <==> GoodLine(lines, i) {}
      DateHeadingIs(lines[n]);
      if Check(before).Some? {
        var i :| 0 <= i < n && FaultAt(before, i, Check(before).value) && !GoodLine(before, i)
                 && forall j :: 0 <= j < i ==> GoodLine(before, j);
        assert FaultAt(lines, i, Check(lines).value) && !GoodLine(lines, i);
      } else if Check(lines).Some? {
        LastIsBad(lines);
      } else {
        LastIsGood(lines);
      }
    }
  }

  lemma LastIsBad(lines: seq<string>)
    requires lines != [] && Check(lines[..|lines| - 1]) == None && Check(lines).Some?
    ensures FaultAt(lines, |lines| - 1, Check(lines).value) && !GoodLine(lines, |lines| - 1)
  {
    var n := |lines| - 1;
    var before, line := lines[..n], lines[n];
    DateHeadingIs(line);
    if DateHeading(line) && ValidDate(line[3..]) {
      var j :| 0 <= j < n && before[j] == line;
      assert lines[j] == lines[n];
    }
  }

  lemma LastIsGood(lines: seq<string>)
    requires lines != [] && Check(lines) == None
    ensures GoodLine(lines, |lines| - 1)
  {
    var n := |lines| - 1;
    var before, line := lines[..n], lines[n];
    if Headed(line) {
      assert line == "## " + line[3..];
      forall j | 0 <= j < n ensures lines[j] != line { assert before[j] in before; }
    }
  }

  /** What is left of a body without its blank ends. */
  lemma TrimIs(body: seq<string>) returns (i: nat, j: nat)
    ensures i <= j <= |body| && Trim(body) == body[i..j]
    ensures forall k :: (0 <= k < i || j <= k < |body|) ==> Blank(body[k])
    ensures i < j ==> !Blank(body[i]) && !Blank(body[j - 1])
  {
    i := FrontIs(body);
    var rest := body[i..];
    var n := BackIs(rest);
    j := i + n;
    assert rest[..n] == body[i..j];
    assert forall k :: n <= k < |rest| ==> rest[k] == body[i + k];
  }

  lemma {:induction false} FrontIs(body: seq<string>) returns (i: nat)
    ensures i <= |body| && TrimFront(body) == body[i..] && (forall k :: 0 <= k < i ==> Blank(body[k]))
    ensures i < |body| ==> !Blank(body[i])
    decreases |body|
  {
    i := 0;
    if body != [] && Blank(body[0]) {
      var n := FrontIs(body[1..]);
      i := n + 1;
      assert body[1..][n..] == body[i..];
      assert forall k :: 0 <= k < n ==> body[1..][k] == body[k + 1];
    }
  }

  lemma {:induction false} BackIs(body: seq<string>) returns (n: nat)
    ensures n <= |body| && TrimBack(body) == body[..n] && (forall k :: n <= k < |body| ==> Blank(body[k]))
    ensures n > 0 ==> !Blank(body[n - 1])
    decreases |body|
  {
    n := |body|;
    if body != [] && Blank(body[|body| - 1]) {
      n := BackIs(body[..|body| - 1]);
    }
    assert body[..n] == if n < |body| then body[..|body| - 1][..n] else body;
  }

  /** Where the day of the heading at `i` ends: at the next heading, or with the log. */
  ghost predicate UpToNext(lines: seq<string>, i: nat, end: nat) {
    && i < end <= |lines| && "##" <= lines[i] && (forall k :: i < k < end ==> !("##" <= lines[k]))
    && (end < |lines| ==> "##" <= lines[end])
  }

  /** The headings stand in order where `Starts` says, and no other line is one. */
  lemma {:induction false} StartsAre(lines: seq<string>)
    ensures forall n :: 0 <= n < |Starts(lines)| ==> Starts(lines)[n] < |lines| && Headed(lines[Starts(lines)[n]])
    ensures forall n, m :: 0 <= n < m < |Starts(lines)| ==> Starts(lines)[n] < Starts(lines)[m]
    ensures forall i :: 0 <= i < |lines| && Headed(lines[i]) ==> i in Starts(lines)
    decreases |lines|
  {
    if lines != [] {
      StartsAre(lines[..|lines| - 1]);
      assert forall i :: 0 <= i < |lines| - 1 ==> lines[..|lines| - 1][i] == lines[i];
    }
  }

  lemma EndIsNext(lines: seq<string>, n: nat)
    requires n < |Starts(lines)|
    ensures UpToNext(lines, Starts(lines)[n], EndOf(Starts(lines), n, |lines|))
  {
    StartsAre(lines);
    var starts, end := Starts(lines), EndOf(Starts(lines), n, |lines|);
    forall k | starts[n] < k < end ensures !Headed(lines[k]) {
      if Headed(lines[k]) {
        var m :| 0 <= m < |starts| && starts[m] == k;
        assert false;
      }
    }
  }

  /** No day has two parts. */
  ghost predicate DaysApart(parts: seq<(string, seq<string>)>) {
    forall m, k :: 0 <= m < k < |parts| ==> DayOf(parts[m].0) != DayOf(parts[k].0)
  }

  /** With every day once, each section is the part of its heading. */
  lemma {:induction false} SectionOfPart(parts: seq<(string, seq<string>)>, n: nat)
    requires n < |parts| && DaysApart(parts)
    ensures Get(SectionsOf(parts), DayOf(parts[n].0)) == Some(Trim(parts[n].1))
    decreases |parts|
  {
    var before := parts[..|parts| - 1];
    if n < |parts| - 1 {
      SectionOfPart(before, n);
    }
  }

  lemma {:induction false} SectionHasPart(parts: seq<(string, seq<string>)>, day: string)
    requires day in SectionsOf(parts)
    ensures exists n :: 0 <= n < |parts| && DayOf(parts[n].0) == day
    decreases |parts|
  {
    var last := parts[|parts| - 1];
    if DayOf(last.0) != day {
      SectionHasPart(parts[..|parts| - 1], day);
      var n :| 0 <= n < |parts| - 1 && DayOf(parts[..|parts| - 1][n].0) == day;
      assert parts[n] == parts[..|parts| - 1][n];
    }
  }

  lemma DaysDiffer(lines: seq<string>, n: nat, m: nat)
    requires Check(lines) == None && n < m < |Starts(lines)|
    ensures Starts(lines)[n] < |lines| && Starts(lines)[m] < |lines|
    ensures DayOf(lines[Starts(lines)[n]]) != DayOf(lines[Starts(lines)[m]])
  {
    StartsAre(lines);
    CheckMeans(lines);
    var a, b := Starts(lines)[n], Starts(lines)[m];
    assert GoodLine(lines, a) && GoodLine(lines, b);
    var day :| ValidDate(day) && lines[a] == "## " + day;
    var day' :| ValidDate(day') && lines[b] == "## " + day';
    assert lines[a][3..] == day && lines[b][3..] == day';
  }

  /** The part of a heading. */
  lemma PartOfHeading(lines: seq<string>, i: nat) returns (n: nat, end: nat)
    requires i < |lines| && "##" <= lines[i]
    ensures n < |SplitLog(lines).1| && UpToNext(lines, i, end)
    ensures SplitLog(lines).1[n] == (lines[i], lines[i + 1..end])
  {
    StartsAre(lines);
    n :| 0 <= n < |Starts(lines)| && Starts(lines)[n] == i;
    end := EndOf(Starts(lines), n, |lines|);
    EndIsNext(lines, n);
    LogIsCut(lines);
    assert SplitLog(lines).1[n] == Part(lines, Starts(lines), n);
  }

  lemma DayOfHeading(day: string)
    ensures DayOf("## " + day) == day && "##" <= "## " + day
  {
    assert ("## " + day)[3..] == day;
  }

  /** A day holds the lines up to the next heading, trimmed. */
  lemma DayHolds(lines: seq<string>, i: nat, end: nat, day: string)
    requires Check(lines) == None && UpToNext(lines, i, end) && lines[i] == "## " + day
    ensures Get(SectionsOf(SplitLog(lines).1), day) == Some(Trim(lines[i + 1..end]))
  {
    var n, end' := PartOfHeading(lines, i);
    EndIsUnique(lines, i, end, end');
    PartsDiffer(lines);
    SectionOfPart(SplitLog(lines).1, n);
    DayOfHeading(day);
  }

  lemma PartsDiffer(lines: seq<string>)
    requires Check(lines) == None
    ensures DaysApart(SplitLog(lines).1)
  {
    LogIsCut(lines);
    var starts, parts := Starts(lines), SplitLog(lines).1;
    forall n, m | 0 <= n < m < |parts| ensures DayOf(parts[n].0) != DayOf(parts[m].0) {
      DaysDiffer(lines, n, m);
      assert parts[n] == Part(lines, starts, n) && parts[m] == Part(lines, starts, m);
    }
  }

  /** The lines above the first heading. */
  ghost predicate Introduces(intro: seq<string>, lines: seq<string>) {
    && intro <= lines && (forall k :: 0 <= k < |intro| ==> !("##" <= lines[k]))
    && (|intro| < |lines| ==> "##" <= lines[|intro|])
  }

  lemma IntroIs(lines: seq<string>)
    ensures Introduces(SplitLog(lines).0, lines)
  {
    LogIsCut(lines);
    StartsAre(lines);
    if Starts(lines) != [] { FirstHeading(lines); }
  }

  /** A log that is read: its days are those of its headings, and a day holds the lines up to the next heading, trimmed. */
  lemma ParseMeans(text: string)
    requires Parse(text).Ok?
    ensures var lines, log := Lines(text), Parse(text).value;
            && Introduces(log.intro, lines)
            && (forall day :: day in log.sections <==> "## " + day in lines)
            && (forall i: nat, end: nat, day :: UpToNext(lines, i, end) && lines[i] == "## " + day ==>
                  Get(log.sections, day) == Some(Trim(lines[i + 1..end])))
  {
    var lines, log := Lines(text), Parse(text).value;
    IntroIs(lines);
    forall day ensures day in log.sections <==> "## " + day in lines {
      DayIsHeaded(lines, day);
    }
    forall i: nat, end: nat, day | UpToNext(lines, i, end) && lines[i] == "## " + day
      ensures Get(log.sections, day) == Some(Trim(lines[i + 1..end]))
    {
      DayHolds(lines, i, end, day);
    }
  }

  lemma EndIsUnique(lines: seq<string>, i: nat, a: nat, b: nat)
    requires UpToNext(lines, i, a) && UpToNext(lines, i, b)
    ensures a == b
  {}

  lemma FirstHeading(lines: seq<string>)
    requires Starts(lines) != []
    ensures Starts(lines)[0] < |lines| && forall k :: 0 <= k < Starts(lines)[0] ==> !Headed(lines[k])
  {
    StartsAre(lines);
  }

  lemma DayIsHeaded(lines: seq<string>, day: string)
    requires Check(lines) == None
    ensures day in SectionsOf(SplitLog(lines).1) <==> "## " + day in lines
  {
    if day in SectionsOf(SplitLog(lines).1) {
      SectionHasPart(SplitLog(lines).1, day);
      var n :| 0 <= n < |SplitLog(lines).1| && DayOf(SplitLog(lines).1[n].0) == day;
      HeadingOfPart(lines, n);
    }
    if "## " + day in lines {
      var i :| 0 <= i < |lines| && lines[i] == "## " + day;
      DayOfHeading(day);
      var n, end := PartOfHeading(lines, i);
      PartsDiffer(lines);
      SectionOfPart(SplitLog(lines).1, n);
    }
  }

  lemma HeadingOfPart(lines: seq<string>, n: nat)
    requires Check(lines) == None && n < |SplitLog(lines).1|
    ensures "## " + DayOf(SplitLog(lines).1[n].0) in lines
  {
    LogIsCut(lines);
    StartsAre(lines);
    CheckMeans(lines);
    var i := Starts(lines)[n];
    assert SplitLog(lines).1[n] == Part(lines, Starts(lines), n) && GoodLine(lines, i);
    var day :| ValidDate(day) && lines[i] == "## " + day;
    DayOfHeading(day);
    assert lines[i] in lines;
  }

  // ----- the calendar ----------------------------------------------------------------------

  /** The days of the months, February without its leap day. */
  const MONTHS := [31, 28, 31, 30, 31, 30, 31, 31, 30, 31, 30, 31]

  /** Every fourth year has a leap day, of the centuries every fourth one. */
  predicate LeapDay(year: nat, month: nat, day: nat) {
    month == 2 && day == 29 && if year % 100 == 0 then year % 400 == 0 else year % 4 == 0
  }

  lemma LeapIs(y: nat)
    ensures Leap(y) <==> LeapDay(y, 2, 29)
  {
    Multiples(y);
  }

  lemma Multiples(n: nat)
    ensures n % 400 == 0 ==> n % 100 == 0
    ensures n % 100 == 0 ==> n % 4 == 0
  {
    if n % 400 == 0 { HundredTimes(n, 4 * (n / 400)); }
    if n % 100 == 0 { FourTimes(n, 25 * (n / 100)); }
  }

  lemma HundredTimes(n: nat, k: nat)
    requires n == 100 * k
    ensures n % 100 == 0
  {}

  lemma FourTimes(n: nat, k: nat)
    requires n == 4 * k
    ensures n % 4 == 0
  {}

  /** A date is four digits, two and two, of a month and a day there is. */
  lemma DateIs(s: string)
    requires IsoDate(s)
    ensures ValidDate(s) <==>
            && Year(s) > 0 && 1 <= Month(s) <= 12 && Day(s) > 0
            && (Day(s) <= MONTHS[Month(s) - 1] || LeapDay(Year(s), Month(s), Day(s)))
  {
    LeapIs(Year(s));
    var y, m, d := Year(s), Month(s), Day(s);
    if 1 <= m <= 12 { DaysAre(y, m); }
  }

  lemma DaysAre(y: nat, m: nat)
    requires 1 <= m <= 12
    ensures DaysIn(y, m) == MONTHS[m - 1] + if m == 2 && Leap(y) then 1 else 0
  {}

  /** One more multiple at every multiple. */
  lemma OneMoreFourth(n: nat)
    requires n > 0
    ensures n / 4 == (n - 1) / 4 + if n % 4 == 0 then 1 else 0
  {}

  lemma OneMoreHundredth(n: nat)
    requires n > 0
    ensures n / 100 == (n - 1) / 100 + if n % 100 == 0 then 1 else 0
  {}

  lemma OneMoreFourHundredth(n: nat)
    requires n > 0
    ensures n / 400 == (n - 1) / 400 + if n % 400 == 0 then 1 else 0
  {}

  /** The leap years up to this one. */
  function LeapsTo(n: nat): nat {
    if n == 0 then 0 else LeapsTo(n - 1) + if Leap(n) then 1 else 0
  }

  lemma Tally(a: bool, b: bool, c: bool)
    requires (c ==> b) && (b ==> a)
    ensures (if a then 1 else 0) - (if b then 1 else 0) + (if c then 1 else 0) == if a && (!b || c) then 1 else 0
  {}

  lemma {:induction false} LeapsAre(n: nat)
    ensures LeapsTo(n) == n / 4 - n / 100 + n / 400
  {
    if n > 0 {
      LeapsAre(n - 1);
      Multiples(n);
      OneMoreFourth(n);
      OneMoreHundredth(n);
      OneMoreFourHundredth(n);
      Tally(n % 4 == 0, n % 100 == 0, n % 400 == 0);
    }
  }

  lemma LeapsRepeat(n: nat)
    ensures LeapsTo(n + 400) == LeapsTo(n) + 97
  {
    LeapsAre(n);
    LeapsAre(n + 400);
    assert (n + 400) / 4 == n / 4 + 100;
    assert (n + 400) / 100 == n / 100 + 4;
    assert (n + 400) / 400 == n / 400 + 1;
  }

  /** How many days the first years have. */
  lemma {:induction false} YearsAre(n: nat)
    ensures DaysBeforeYear(n + 1) == 365 * n + LeapsTo(n)
  {
    if n > 0 {
      YearsAre(n - 1);
    }
  }

  /** Four centuries have 146097 days. */
  lemma CalendarRepeats(y: nat)
    requires y >= 1
    ensures DaysBeforeYear(y + 400) == DaysBeforeYear(y) + 146097
  {
    YearsAre(y - 1);
    YearsAre(y - 1 + 400);
    LeapsRepeat(y - 1);
  }

  // ----- printing --------------------------------------------------------------------------

  /** A log without an introduction is printed with the standard one. */
  lemma RenderStarts(log: Log)
    requires forall k :: 0 <= k < |log.intro| ==> log.intro[k] == ""
    ensures "# Update Log" + "\n\n" + "Append-only ledger, newest entries first." <= Render(log)
  {
    BlankJoin(log.intro);
    var start := "# Update Log" + "\n\n" + "Append-only ledger, newest entries first.";
    assert HEADER == start + "\n";
    RStripSpace(start, '\n');
    RStripOfBare(start);
    assert Prefix(log.intro) == start;
    var chunks := Chunks(Newest(log.sections.Keys), log.sections);
    var all := [start] + chunks;
    assert all[1..] == chunks && Join("\n\n", all) == start + After("\n\n", chunks);
    StripKeepsBare(start, After("\n\n", chunks));
  }

  lemma {:induction false} BlankJoin(intro: seq<string>)
    requires forall k :: 0 <= k < |intro| ==> intro[k] == ""
    ensures RStrip(Join("\n", intro)) == ""
  {
    if intro != [] {
      BlankAfter(intro[1..]);
      assert Join("\n", intro) == After("\n", intro[1..]);
    }
  }

  lemma {:induction false} BlankAfter(parts: seq<string>)
    requires forall k :: 0 <= k < |parts| ==> parts[k] == ""
    ensures RStrip(After("\n", parts)) == ""
    decreases |parts|
  {
    if parts != [] {
      BlankAfter(parts[1..]);
      StripAll("\n", After("\n", parts[1..]));
      assert RStrip("\n") == RStrip("") == "";
      assert "\n" + parts[0] == "\n";
    }
  }

  lemma {:induction false} StripAll(space: string, text: string)
    requires RStrip(text) == "" && RStrip(space) == ""
    ensures RStrip(space + text) == ""
    decreases |text|
  {
    if text == "" {
      assert space + text == space;
    } else {
      assert (space + text)[..|space + text| - 1] == space + text[..|text| - 1];
      StripAll(space, text[..|text| - 1]);
    }
  }

  lemma {:induction false} StripKeepsBare(start: string, text: string)
    requires start != "" && !IsSpace(start[|start| - 1])
    ensures start <= RStrip(start + text)
    decreases |text|
  {
    if text == "" {
      assert start + text == start;
    } else {
      assert (start + text)[..|start + text| - 1] == start + text[..|text| - 1];
      StripKeepsBare(start, text[..|text| - 1]);
    }
  }
}
