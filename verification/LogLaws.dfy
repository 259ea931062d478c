/** Printing and parsing a log undo each other, and appending adds exactly one bullet. */
module LogLaws {
  import opened Prelude
  import opened Strings
  import opened Text
  import opened Dates
  import opened Log

  // ----- logs as the program prints them ---------------------------------------------------

  ghost predicate PlainLines(lines: seq<string>) {
    forall i :: 0 <= i < |lines| ==> OneLine(lines[i]) && !Headed(lines[i])
  }

  ghost predicate CanonicalIntro(intro: seq<string>) {
    intro != [] && PlainLines(intro) && EndsBare(intro[|intro| - 1])
  }

  /** No bullet spans lines, and no white space opens or closes the section. */
  ghost predicate CanonicalBody(body: seq<string>) {
    && PlainLines(body)
    && (body != [] ==> body[0] != "" && !IsSpace(body[0][0]) && EndsBare(body[|body| - 1]))
  }

  ghost predicate Canonical(log: Log) {
    && CanonicalIntro(log.intro)
    && forall d :: d in log.sections ==> ValidDate(d) && CanonicalBody(log.sections[d])
  }

  ghost predicate FitDay(day: string, body: seq<string>) {
    ValidDate(day) && CanonicalBody(body)
  }

  ghost predicate FitDays(days: seq<string>, sections: Sections) {
    forall d :: d in days ==> d in sections && FitDay(d, sections[d])
  }

  lemma FitRest(days: seq<string>, sections: Sections)
    requires FitDays(days, sections) && days != []
    ensures days[0] in sections && FitDay(days[0], sections[days[0]]) && FitDays(days[1..], sections)
  {}

  /** The lines below the intro. */
  function LinesOf(days: seq<string>, sections: Sections): seq<string>
    requires forall d :: d in days ==> d in sections
  {
    if days == [] then [] else ["", "## " + days[0]] + sections[days[0]] + LinesOf(days[1..], sections)
  }

  /** The text above a day, and the days below it. */
  lemma LinesStep(lines: seq<string>, days: seq<string>, sections: Sections)
    requires days != [] && forall d :: d in days ==> d in sections
    ensures lines + LinesOf(days, sections) ==
            (lines + ["", "## " + days[0]] + sections[days[0]]) + LinesOf(days[1..], sections)
  {}

  ghost function Page(log: Log): seq<string> {
    log.intro + LinesOf(Newest(log.sections.Keys), log.sections)
  }

  // ----- printing --------------------------------------------------------------------------

  lemma BodyText(body: seq<string>)
    requires CanonicalBody(body)
    ensures Strip(Join("\n", body)) == Join("\n", body)
    ensures body != [] ==> EndsBare(Join("\n", body)) && Join("\n", body) != ""
  {
    if body != [] {
      JoinEndsBare("\n", body);
      var text := Join("\n", body);
      assert text[0] == body[0][0];
      RStripOfBare(text);
    }
  }

  lemma ChunkIs(day: string, body: seq<string>)
    requires CanonicalBody(body)
    ensures "\n\n" + Chunk(day, body) == After("\n", ["", "## " + day] + body)
  {
    BodyText(body);
    var head := "## " + day;
    AfterAppend("\n", ["", head], body);
    assert ["", head][1..] == [head] && [head][1..] == [];
    assert After("\n", [head]) == "\n" + head;
    assert After("\n", ["", head]) == "\n\n" + head;
    if body != [] {
      assert After("\n", body) == "\n" + Join("\n", body);
    }
  }

  lemma {:induction false} ChunksAre(days: seq<string>, sections: Sections)
    requires forall d :: d in days ==> d in sections && CanonicalBody(sections[d])
    ensures After("\n\n", Chunks(days, sections)) == After("\n", LinesOf(days, sections))
    decreases |days|
  {
    if days != [] {
      var head, rest := ["", "## " + days[0]] + sections[days[0]], LinesOf(days[1..], sections);
      ChunkIs(days[0], sections[days[0]]);
      AfterAppend("\n", head, rest);
      ChunksAre(days[1..], sections);
      assert Chunks(days, sections)[1..] == Chunks(days[1..], sections);
    }
  }

  lemma {:induction false} DaysEndBare(days: seq<string>, sections: Sections)
    requires days != [] && FitDays(days, sections)
    ensures LinesOf(days, sections) != [] && EndsBare(LinesOf(days, sections)[|LinesOf(days, sections)| - 1])
    decreases |days|
  {
    FitRest(days, sections);
    var head, body, rest := "## " + days[0], sections[days[0]], LinesOf(days[1..], sections);
    assert LinesOf(days, sections) == ["", head] + body + rest;
    if |days| > 1 {
      DaysEndBare(days[1..], sections);
    } else {
      assert LinesOf(days, sections) == ["", head] + body;
      assert head[12] == days[0][9] && Digit(days[0][9]);
    }
  }

  lemma PrefixIs(intro: seq<string>)
    requires CanonicalIntro(intro)
    ensures Prefix(intro) == Join("\n", intro) == Prefix(intro + [""])
  {
    JoinEndsBare("\n", intro);
    RStripOfBare(Join("\n", intro));
    JoinAppend("\n", intro, [""]);
    assert [""][1..] == [];
    assert After("\n", [""]) == "\n";
    RStripSpace(Join("\n", intro), '\n');
  }

  /** A canonical log is printed line by line. */
  lemma RenderIsPage(log: Log)
    requires Canonical(log)
    ensures Render(log) == Join("\n", Page(log)) + "\n"
  {
    var days := Newest(log.sections.Keys);
    PrefixIs(log.intro);
    ChunksAre(days, log.sections);
    JoinAppend("\n", log.intro, LinesOf(days, log.sections));
    var parts := [Prefix(log.intro)] + Chunks(days, log.sections);
    assert parts[1..] == Chunks(days, log.sections);
    if days != [] { DaysEndBare(days, log.sections); }
    assert EndsBare(Page(log)[|Page(log)| - 1]);
    JoinEndsBare("\n", Page(log));
    RStripOfBare(Join("\n", Page(log)));
  }

  // ----- parsing ---------------------------------------------------------------------------

  lemma HeadingIs(day: string)
    requires ValidDate(day)
    ensures OneLine("## " + day) && DateHeading("## " + day) && DayOf("## " + day) == day && ("## " + day)[3..] == day
  {
    var line := "## " + day;
    assert line[3..] == day && line[..3] == "## ";
    forall i | 0 <= i < 13 ensures !IsBreak(line[i]) {
      if i >= 3 {
        assert line[i] == day[i - 3];
        assert i != 7 && i != 10 ==> Digit(day[i - 3]);
      }
    }
  }

  lemma {:induction false} PageIsPlain(days: seq<string>, sections: Sections)
    requires forall d :: d in days ==> d in sections && ValidDate(d) && CanonicalBody(sections[d])
    ensures forall i :: 0 <= i < |LinesOf(days, sections)| ==> OneLine(LinesOf(days, sections)[i])
    decreases |days|
  {
    if days != [] {
      PageIsPlain(days[1..], sections);
      assert days[0] in days;
      HeadingIs(days[0]);
    }
  }

  /** The lines that no heading interrupts go to the part that is open. */
  function Grow(s: Split, more: seq<string>): Split {
    if s.1 == [] then (s.0 + more, [])
    else (s.0, s.1[..|s.1| - 1] + [(s.1[|s.1| - 1].0, s.1[|s.1| - 1].1 + more)])
  }

  lemma GrowNothing(s: Split)
    ensures Grow(s, []) == s
  {
    if s.1 == [] {
      assert s.0 + [] == s.0;
    } else {
      var last := s.1[|s.1| - 1];
      assert last.1 + [] == last.1;
      assert s.1 == s.1[..|s.1| - 1] + [(last.0, last.1)];
    }
  }

  lemma GrowNext(s: Split, more: seq<string>, line: string)
    requires !Headed(line)
    ensures Extend(Grow(s, more), line) == Grow(s, more + [line])
  {
    if s.1 == [] {
      assert (s.0 + more) + [line] == s.0 + (more + [line]);
    } else {
      var last := s.1[|s.1| - 1];
      assert (last.1 + more) + [line] == last.1 + (more + [line]);
    }
  }

  lemma {:induction false} SplitPlain(lines: seq<string>, more: seq<string>)
    requires PlainLines(more)
    ensures SplitLog(lines + more) == Grow(SplitLog(lines), more)
    decreases |more|
  {
    var s := SplitLog(lines);
    if more == [] {
      assert lines + more == lines;
      GrowNothing(s);
    } else {
      var init, last := more[..|more| - 1], more[|more| - 1];
      SplitPlain(lines, init);
      assert (lines + more)[..|lines + more| - 1] == lines + init && (lines + more)[|lines + more| - 1] == last;
      assert more == init + [last];
      GrowNext(s, init, last);
    }
  }

  lemma {:induction false} CheckPlain(lines: seq<string>, more: seq<string>)
    requires PlainLines(more)
    ensures Check(lines + more) == Check(lines)
    decreases |more|
  {
    if more == [] {
      assert lines + more == lines;
    } else {
      assert (lines + more)[..|lines + more| - 1] == lines + more[..|more| - 1];
      CheckPlain(lines, more[..|more| - 1]);
    }
  }

  lemma TrimCanonical(body: seq<string>)
    requires CanonicalBody(body)
    ensures Trim(body) == body
  {
    if body != [] {
      BareIsNotBlank(body[|body| - 1]);
      StartsBare(body[0]);
    }
  }

  /** A blank line at the end of a section is no bullet. */
  lemma {:induction false} TrimBlankEnd(body: seq<string>)
    ensures Trim(body + [""]) == Trim(body)
    decreases |body|
  {
    if body == [] {
      assert body + [""] == [""] && [""][1..] == [];
    } else if Blank(body[0]) {
      assert (body + [""])[0] == body[0] && (body + [""])[1..] == body[1..] + [""];
      TrimBlankEnd(body[1..]);
    } else {
      assert (body + [""])[..|body|] == body;
    }
  }

  lemma BareIsNotBlank(s: string)
    requires EndsBare(s)
    ensures !Blank(s)
  {
    RStripOfBare(s);
    LStripKeepsEnd(s);
  }

  lemma {:induction false} LStripKeepsEnd(s: string)
    requires EndsBare(s)
    ensures LStrip(s) != ""
    decreases |s|
  {
    if IsSpace(s[0]) { LStripKeepsEnd(s[1..]); }
  }

  lemma StartsBare(s: string)
    requires s != "" && !IsSpace(s[0])
    ensures !Blank(s)
  {
    RStripIs(s);
    var r := RStrip(s);
    assert r != "";
    assert r[0] == s[0];
  }

  /** The parts with their bodies trimmed. */
  function Trimmed(parts: seq<(string, seq<string>)>): seq<(string, seq<string>)> {
    seq(|parts|, i requires 0 <= i < |parts| => (parts[i].0, Trim(parts[i].1)))
  }

  function PartsOf(days: seq<string>, sections: Sections): seq<(string, seq<string>)>
    requires forall d :: d in days ==> d in sections
  {
    seq(|days|, i requires 0 <= i < |days| => assert days[i] in days; ("## " + days[i], sections[days[i]]))
  }

  lemma TrimmedSnoc(parts: seq<(string, seq<string>)>, last: (string, seq<string>))
    ensures Trimmed(parts + [last]) == Trimmed(parts) + [(last.0, Trim(last.1))]
  {
    var all := parts + [last];
    assert forall i :: 0 <= i < |parts| ==> all[i] == parts[i];
  }

  lemma TrimmedGrow(s: Split)
    ensures Trimmed(Grow(s, [""]).1) == Trimmed(s.1)
  {
    if s.1 != [] {
      var init, last := s.1[..|s.1| - 1], s.1[|s.1| - 1];
      assert s.1 == init + [last];
      TrimmedSnoc(init, last);
      TrimmedSnoc(init, (last.0, last.1 + [""]));
      TrimBlankEnd(last.1);
    }
  }

  /** `t` is `s` with these parts below it. */
  ghost predicate Below(s: Split, t: Split, parts: seq<(string, seq<string>)>) {
    && Trimmed(t.1) == Trimmed(s.1) + parts
    && t.0 == if s.1 == [] && parts != [] then s.0 + [""] else s.0
  }

  /** One day more. */
  lemma SplitDay(lines: seq<string>, day: string, body: seq<string>)
    requires CanonicalBody(body)
    ensures Below(SplitLog(lines), SplitLog(lines + ["", "## " + day] + body), [("## " + day, body)])
  {
    var s, head := SplitLog(lines), "## " + day;
    SplitHead(lines, head);
    SplitPlain(lines + ["", head], body);
    OpenPart(Grow(s, [""]), head, body);
    TrimmedGrow(s);
    TrimmedSnoc(Grow(s, [""]).1, (head, body));
    TrimCanonical(body);
  }

  lemma SplitHead(lines: seq<string>, head: string)
    requires Headed(head)
    ensures SplitLog(lines + ["", head]) == Extend(Grow(SplitLog(lines), [""]), head)
  {
    var mid := lines + [""];
    SplitPlain(lines, [""]);
    assert lines + ["", head] == mid + [head];
    assert (mid + [head])[..|mid|] == mid && (mid + [head])[|mid|] == head;
  }

  lemma OpenPart(s: Split, head: string, body: seq<string>)
    requires Headed(head)
    ensures Grow(Extend(s, head), body) == (s.0, s.1 + [(head, body)])
  {
    assert [] + body == body;
    assert (s.1 + [(head, [])])[..|s.1|] == s.1;
  }

  lemma BelowBelow(s: Split, t: Split, u: Split, a: seq<(string, seq<string>)>, b: seq<(string, seq<string>)>)
    requires Below(s, t, a) && Below(t, u, b) && a != []
    ensures Below(s, u, a + b)
  {
    assert |Trimmed(t.1)| == |t.1| && |Trimmed(s.1)| == |s.1|;
    assert Trimmed(s.1) + a + b == Trimmed(s.1) + (a + b);
  }

  /** The days below. */
  lemma {:induction false} SplitDays(lines: seq<string>, days: seq<string>, sections: Sections)
    requires FitDays(days, sections)
    ensures Below(SplitLog(lines), SplitLog(lines + LinesOf(days, sections)), PartsOf(days, sections))
    decreases |days|
  {
    if days == [] {
      assert lines + LinesOf(days, sections) == lines;
    } else {
      var day, body := days[0], sections[days[0]];
      var more := lines + ["", "## " + day] + body;
      FitRest(days, sections);
      LinesStep(lines, days, sections);
      SplitDay(lines, day, body);
      SplitDays(more, days[1..], sections);
      PartsStep(days, sections);
      BelowBelow(SplitLog(lines), SplitLog(more), SplitLog(lines + LinesOf(days, sections)),
                 [("## " + day, body)], PartsOf(days[1..], sections));
    }
  }

  lemma PartsStep(days: seq<string>, sections: Sections)
    requires days != [] && forall d :: d in days ==> d in sections
    ensures PartsOf(days, sections) == [("## " + days[0], sections[days[0]])] + PartsOf(days[1..], sections)
  {
    assert forall i :: 0 < i < |days| ==> days[1..][i - 1] == days[i];
  }

  // ----- the headings of a page ------------------------------------------------------------

  lemma CheckDay(lines: seq<string>, day: string, body: seq<string>)
    requires Check(lines) == None && ValidDate(day) && CanonicalBody(body) && "## " + day !in lines
    ensures Check(lines + ["", "## " + day] + body) == None
  {
    var head, mid := "## " + day, lines + [""];
    HeadingIs(day);
    CheckPlain(lines, [""]);
    assert lines + ["", head] == mid + [head];
    assert (mid + [head])[..|mid|] == mid && (mid + [head])[|mid|] == head;
    assert head !in mid;
    CheckPlain(mid + [head], body);
  }

  /** No day comes twice. */
  lemma NotAbove(lines: seq<string>, day: string, body: seq<string>, other: string)
    requires PlainLines(body) && other != day && "## " + other !in lines
    ensures "## " + other !in lines + ["", "## " + day] + body
  {
    var head := "## " + other;
    assert head[3..] == other && ("## " + day)[3..] == day;
    assert Headed(head);
  }

  /** No line is the heading of one of these days. */
  ghost predicate Unheaded(lines: seq<string>, days: seq<string>) {
    forall d :: d in days ==> "## " + d !in lines
  }

  lemma UnheadedNext(lines: seq<string>, days: seq<string>, body: seq<string>)
    requires days != [] && Distinct(days) && Unheaded(lines, days) && PlainLines(body)
    ensures Unheaded(lines + ["", "## " + days[0]] + body, days[1..])
  {
    forall d | d in days[1..] ensures "## " + d !in lines + ["", "## " + days[0]] + body {
      NotAbove(lines, days[0], body, d);
    }
  }

  lemma {:induction false} CheckDays(lines: seq<string>, days: seq<string>, sections: Sections)
    requires Check(lines) == None && Distinct(days) && FitDays(days, sections) && Unheaded(lines, days)
    ensures Check(lines + LinesOf(days, sections)) == None
    decreases |days|
  {
    if days == [] {
      assert lines + LinesOf(days, sections) == lines;
    } else {
      FitRest(days, sections);
      CheckDay(lines, days[0], sections[days[0]]);
      UnheadedNext(lines, days, sections[days[0]]);
      LinesStep(lines, days, sections);
      CheckDays(lines + ["", "## " + days[0]] + sections[days[0]], days[1..], sections);
    }
  }

  lemma NewestFirst(days: set<string>)
    requires days != {}
    ensures Newest(days) != [] && Latest(Newest(days)[0], days) && Newest(days)[1..] == Newest(days - {Newest(days)[0]})
  {}

  ghost predicate Falling(r: seq<string>) {
    forall i, j :: 0 <= i < j < |r| ==> Before(r[j], r[i])
  }

  lemma FallingCons(top: string, rest: seq<string>)
    requires Distinct(rest) && Falling(rest) && forall d :: d in rest ==> d != top && Before(d, top)
    ensures Distinct([top] + rest) && Falling([top] + rest)
  {
    var r := [top] + rest;
    assert forall i :: 0 < i < |r| ==> r[i] == rest[i - 1] && r[i] in rest;
  }

  lemma {:induction false} NewestIsDistinct(days: set<string>)
    ensures Distinct(Newest(days)) && |Newest(days)| == |days| && Falling(Newest(days))
    decreases |days|
  {
    if days != {} {
      NewestFirst(days);
      var top := Newest(days)[0];
      NewestIsDistinct(days - {top});
      FallingCons(top, Newest(days - {top}));
      assert Newest(days) == [top] + Newest(days - {top});
    }
  }

  lemma TrimmedSections(parts: seq<(string, seq<string>)>, trimmed: seq<(string, seq<string>)>)
    requires trimmed == Trimmed(parts)
    requires forall i :: 0 <= i < |trimmed| ==> Trim(trimmed[i].1) == trimmed[i].1
    ensures SectionsOf(parts) == SectionsOf(trimmed)
  {
    if parts != [] {
      var n := |parts| - 1;
      assert trimmed[..n] == Trimmed(parts[..n]);
      TrimmedSections(parts[..n], trimmed[..n]);
    }
  }

  lemma SectionsSnoc(parts: seq<(string, seq<string>)>, last: (string, seq<string>))
    ensures SectionsOf(parts + [last]) == SectionsOf(parts)[DayOf(last.0) := Trim(last.1)]
  {
    assert (parts + [last])[..|parts|] == parts;
  }

  lemma FitInit(days: seq<string>, sections: Sections)
    requires FitDays(days, sections) && days != []
    ensures var n := |days| - 1;
            && FitDays(days[..n], sections) && days[n] in sections && FitDay(days[n], sections[days[n]])
            && PartsOf(days, sections) == PartsOf(days[..n], sections) + [("## " + days[n], sections[days[n]])]
  {
    assert days[|days| - 1] in days;
  }

  /** The sections of these days. */
  function Restricted(days: seq<string>, sections: Sections): Sections
    requires forall d :: d in days ==> d in sections
  {
    map d | d in days :: sections[d]
  }

  lemma RestrictedSnoc(days: seq<string>, last: string, sections: Sections)
    requires last in sections && forall d :: d in days ==> d in sections
    ensures forall d :: d in days + [last] ==> d in sections
    ensures Restricted(days + [last], sections) == Restricted(days, sections)[last := sections[last]]
  {}

  lemma {:induction false} SectionsAre(days: seq<string>, sections: Sections)
    requires FitDays(days, sections)
    ensures SectionsOf(PartsOf(days, sections)) == Restricted(days, sections)
    decreases |days|
  {
    if days != [] {
      var init, last := days[..|days| - 1], days[|days| - 1];
      FitInit(days, sections);
      SectionsAre(init, sections);
      SectionsSnoc(PartsOf(init, sections), ("## " + last, sections[last]));
      HeadingIs(last);
      TrimCanonical(sections[last]);
      RestrictedSnoc(init, last, sections);
      assert days == init + [last];
    }
  }

  /** The intro as the parser sees it: the blank line before the first day belongs to it. */
  function Seen(log: Log): Log {
    Log(log.intro + if log.sections.Keys == {} then [] else [""], log.sections)
  }

  lemma PageLines(log: Log)
    requires Canonical(log)
    ensures Lines(Render(log)) == Page(log)
  {
    RenderIsPage(log);
    PageIsPlain(Newest(log.sections.Keys), log.sections);
    LinesOfJoin(Page(log));
  }

  lemma PageChecks(log: Log)
    requires Canonical(log)
    ensures Check(Page(log)) == None
  {
    var days := Newest(log.sections.Keys);
    NewestIsDistinct(log.sections.Keys);
    assert [] + log.intro == log.intro;
    CheckPlain([], log.intro);
    forall d | d in days ensures "## " + d !in log.intro { assert Headed("## " + d); }
    CheckDays(log.intro, days, log.sections);
  }

  lemma SplitIntro(intro: seq<string>)
    requires PlainLines(intro)
    ensures SplitLog(intro) == (intro, [])
  {
    assert [] + intro == intro;
    SplitPlain([], intro);
  }

  lemma PageSplits(log: Log)
    requires Canonical(log)
    ensures SplitLog(Page(log)).0 == Seen(log).intro
    ensures Trimmed(SplitLog(Page(log)).1) == PartsOf(Newest(log.sections.Keys), log.sections)
  {
    var days := Newest(log.sections.Keys);
    SplitIntro(log.intro);
    SplitDays(log.intro, days, log.sections);
    assert Below((log.intro, []), SplitLog(Page(log)), PartsOf(days, log.sections));
    BelowIntro(log.intro, SplitLog(Page(log)), PartsOf(days, log.sections));
    NewestIsDistinct(log.sections.Keys);
    assert |PartsOf(days, log.sections)| == |days|;
  }

  lemma BelowIntro(intro: seq<string>, t: Split, parts: seq<(string, seq<string>)>)
    requires Below((intro, []), t, parts)
    ensures Trimmed(t.1) == parts && t.0 == intro + if parts == [] then [] else [""]
  {
    assert intro + [] == intro;
    assert [] + parts == parts;
  }

  lemma PartsAreSections(parts: seq<(string, seq<string>)>, days: seq<string>, sections: Sections)
    requires FitDays(days, sections) && forall d :: d in sections ==> d in days
    requires Trimmed(parts) == PartsOf(days, sections)
    ensures SectionsOf(parts) == sections
  {
    PartsAreTrimmed(days, sections);
    TrimmedSections(parts, PartsOf(days, sections));
    SectionsAre(days, sections);
    assert Restricted(days, sections) == sections;
  }

  lemma PartsAreTrimmed(days: seq<string>, sections: Sections)
    requires FitDays(days, sections)
    ensures var parts := PartsOf(days, sections); forall i :: 0 <= i < |parts| ==> Trim(parts[i].1) == parts[i].1
  {
    var parts := PartsOf(days, sections);
    forall i | 0 <= i < |parts| ensures Trim(parts[i].1) == parts[i].1 {
      assert days[i] in days;
      TrimCanonical(sections[days[i]]);
    }
  }

  /** What is printed is parsed as it was. */
  lemma ParseAfterRender(log: Log)
    requires Canonical(log)
    ensures Parse(Render(log)) == Ok(Seen(log))
  {
    PageLines(log);
    PageChecks(log);
    PageSplits(log);
    assert FitDays(Newest(log.sections.Keys), log.sections);
    PartsAreSections(SplitLog(Page(log)).1, Newest(log.sections.Keys), log.sections);
  }

  /** On a log in printed form, printing what was parsed is the identity. */
  lemma RenderAfterParse(log: Log)
    requires Canonical(log)
    ensures Parse(Render(log)).Ok? && Render(Parse(Render(log)).value) == Render(log)
  {
    ParseAfterRender(log);
    PrefixIs(log.intro);
    assert log.intro + [] == log.intro;
  }
  // ----- appending -------------------------------------------------------------------------

  /** The text is a log as the program prints it. */
  ghost predicate Printed(text: string) {
    exists log :: Canonical(log) && text == Render(log)
  }

  /** The new text parses to the old sections with the entry before the others of its day. */
  ghost predicate AddsExactly(text: string, day: string, entry: string) {
    var r := Appended(Some(text), day, entry);
    && Parse(text).Ok? && r.Ok? && Parse(r.value).Ok?
    && Parse(r.value).value.sections == Put(Parse(text).value.sections, day, entry)
  }

  predicate Bullet(entry: string) {
    "* " <= entry
  }

  lemma BulletIsPlain(entry: string)
    requires Bullet(entry)
    ensures entry[0] == '*' && !Headed(entry) && RStrip(entry) != "" && RStrip(entry)[0] == '*'
  {
    RStripIs(entry);
    var r := RStrip(entry);
    assert !IsSpace(entry[0]) && r != "";
    assert r[0] == entry[0];
  }

  lemma PutIsCanonical(log: Log, day: string, entry: string)
    requires Canonical(log) && ValidDate(day) && Bullet(entry) && OneLine(entry)
    requires EndsBare(entry) || Get(log.sections, day) !in [None, Some([])]
    ensures Canonical(Log(log.intro, Put(log.sections, day, entry)))
  {
    BulletIsPlain(entry);
    var kept := if day in log.sections then log.sections[day] else [];
    var body := [entry] + kept;
    assert forall i :: 0 < i < |body| ==> body[i] == kept[i - 1];
    assert CanonicalBody(body);
  }

  /** The intro's blank line does not matter to the printer. */
  lemma AppendedIs(log: Log, day: string, entry: string)
    requires Canonical(log) && ValidDate(day)
    ensures Appended(Some(Render(log)), day, entry) == Ok(Render(Log(log.intro, Put(log.sections, day, entry))))
  {
    ParseAfterRender(log);
    PrefixIs(log.intro);
    assert log.intro + [] == log.intro;
  }

  lemma CleanEntryIsAdded(log: Log, day: string, entry: string)
    requires Canonical(log) && ValidDate(day) && Bullet(entry) && OneLine(entry)
    requires EndsBare(entry) || Get(log.sections, day) !in [None, Some([])]
    ensures AddsExactly(Render(log), day, entry) && Printed(Appended(Some(Render(log)), day, entry).value)
  {
    var next := Log(log.intro, Put(log.sections, day, entry));
    AppendedIs(log, day, entry);
    PutIsCanonical(log, day, entry);
    ParseAfterRender(log);
    ParseAfterRender(next);
  }

  lemma {:induction false} PartsHoldLines(lines: seq<string>)
    requires forall i :: 0 <= i < |lines| ==> OneLine(lines[i])
    ensures forall n, k :: 0 <= n < |SplitLog(lines).1| && 0 <= k < |SplitLog(lines).1[n].1| ==>
              OneLine(SplitLog(lines).1[n].1[k])
    decreases |lines|
  {
    if lines != [] { PartsHoldLines(lines[..|lines| - 1]); }
  }

  lemma {:induction false} TrimHoldsLines(body: seq<string>)
    requires forall k :: 0 <= k < |body| ==> OneLine(body[k])
    ensures forall k :: 0 <= k < |Trim(body)| ==> OneLine(Trim(body)[k])
    decreases |body|
  {
    if body != [] && Blank(body[0]) {
      TrimHoldsLines(body[1..]);
      assert Trim(body) == Trim(body[1..]);
    } else {
      TrimBackIsPrefix(body);
      assert forall k :: 0 <= k < |Trim(body)| ==> Trim(body)[k] == body[k];
    }
  }

  lemma {:induction false} TrimBackIsPrefix(body: seq<string>)
    ensures TrimBack(body) <= body
    decreases |body|
  {
    if body != [] && Blank(body[|body| - 1]) { TrimBackIsPrefix(body[..|body| - 1]); }
  }

  lemma {:induction false} SectionsHoldLines(parts: seq<(string, seq<string>)>)
    requires forall n, k :: 0 <= n < |parts| && 0 <= k < |parts[n].1| ==> OneLine(parts[n].1[k])
    ensures forall d, k :: d in SectionsOf(parts) && 0 <= k < |SectionsOf(parts)[d]| ==> OneLine(SectionsOf(parts)[d][k])
    decreases |parts|
  {
    if parts != [] {
      SectionsHoldLines(parts[..|parts| - 1]);
      TrimHoldsLines(parts[|parts| - 1].1);
    }
  }

  /** No bullet that the parser returns spans lines. */
  lemma ParsedBulletsAreLines(text: string)
    requires Parse(text).Ok?
    ensures var sections := Parse(text).value.sections;
            forall d, k :: d in sections && 0 <= k < |sections[d]| ==> OneLine(sections[d][k])
  {
    PartsHoldLines(Lines(text));
    SectionsHoldLines(SplitLog(Lines(text)).1);
  }

  lemma BrokenEntryIsNotAdded(text: string, day: string, entry: string)
    requires !OneLine(entry)
    ensures !AddsExactly(text, day, entry)
  {
    assert forall s: Sections :: Put(s, day, entry)[day][0] == entry;
    var r := Appended(Some(text), day, entry);
    if r.Ok? && Parse(r.value).Ok? { ParsedBulletsAreLines(r.value); }
  }

  lemma {:induction false} SameChunks(days: seq<string>, a: Sections, b: Sections)
    requires forall d :: d in days ==> d in a && d in b && Chunk(d, a[d]) == Chunk(d, b[d])
    ensures Chunks(days, a) == Chunks(days, b)
    decreases |days|
  {
    if days != [] { SameChunks(days[1..], a, b); }
  }

  lemma PlainBare(bare: string, entry: string)
    requires bare == RStrip(entry) && Bullet(entry) && OneLine(entry)
    ensures OneLine(bare) && !Headed(bare) && EndsBare(bare) && bare[0] == '*'
  {
    RStripIs(entry);
    BulletIsPlain(entry);
  }

  lemma PutAlone(sections: Sections, day: string, entry: string)
    requires Get(sections, day) in [None, Some([])]
    ensures Put(sections, day, entry) == sections[day := [entry]]
  {
    assert [entry] + [] == [entry];
  }

  lemma ChunkAlone(day: string, entry: string)
    ensures Chunk(day, [entry]) == Chunk(day, [RStrip(entry)])
  {
    RStripIs(entry);
    assert Join("\n", [entry]) == entry && Join("\n", [RStrip(entry)]) == RStrip(entry) by {
      assert [entry][1..] == [] && [RStrip(entry)][1..] == [];
    }
  }

  /** The printer does not tell a loose bullet from a bare one. */
  lemma LooseRendersBare(log: Log, day: string, entry: string)
    ensures Render(Log(log.intro, log.sections[day := [entry]])) == Render(Log(log.intro, log.sections[day := [RStrip(entry)]]))
  {
    var a, b := log.sections[day := [entry]], log.sections[day := [RStrip(entry)]];
    assert a.Keys == b.Keys;
    ChunkAlone(day, entry);
    SameChunks(Newest(a.Keys), a, b);
  }

  /** White space at the end of a day's only bullet is lost. */
  lemma LooseEntryIsNotAdded(log: Log, day: string, entry: string)
    requires Canonical(log) && ValidDate(day) && Bullet(entry) && OneLine(entry) && !EndsBare(entry)
    requires Get(log.sections, day) in [None, Some([])]
    ensures !AddsExactly(Render(log), day, entry)
  {
    var next := Log(log.intro, log.sections[day := [RStrip(entry)]]);
    LooseIsCanonical(log, day, entry);
    AppendedIs(log, day, entry);
    PutAlone(log.sections, day, entry);
    LooseRendersBare(log, day, entry);
    ParsesTo(log);
    ParsesTo(next);
    BareDiffers(log.sections, day, entry);
  }

  lemma LooseIsCanonical(log: Log, day: string, entry: string)
    requires Canonical(log) && ValidDate(day) && Bullet(entry) && OneLine(entry)
    ensures Canonical(Log(log.intro, log.sections[day := [RStrip(entry)]])) && EndsBare(RStrip(entry))
  {
    PlainBare(RStrip(entry), entry);
    assert CanonicalBody([RStrip(entry)]);
  }

  lemma ParsesTo(log: Log)
    requires Canonical(log)
    ensures Parse(Render(log)).Ok? && Parse(Render(log)).value.sections == log.sections
  {
    ParseAfterRender(log);
  }

  lemma BareDiffers(sections: Sections, day: string, entry: string)
    requires !EndsBare(entry) && EndsBare(RStrip(entry))
    ensures sections[day := [RStrip(entry)]] != sections[day := [entry]]
  {
    assert sections[day := [RStrip(entry)]][day][0] != sections[day := [entry]][day][0];
  }

  /**
   Appending to a printed log adds exactly the one bullet, if and only if the bullet is one line and, when it
   is the day's only one, no white space ends it.
   */
  lemma AppendAddsExactly(log: Log, day: string, entry: string)
    requires Canonical(log) && ValidDate(day) && Bullet(entry)
    ensures AddsExactly(Render(log), day, entry) <==>
            OneLine(entry) && (EndsBare(entry) || Get(log.sections, day) !in [None, Some([])])
  {
    if !OneLine(entry) {
      BrokenEntryIsNotAdded(Render(log), day, entry);
    } else if EndsBare(entry) || Get(log.sections, day) !in [None, Some([])] {
      CleanEntryIsAdded(log, day, entry);
    } else {
      LooseEntryIsNotAdded(log, day, entry);
    }
  }
}
