/**
 Frontmatter and verification events that slipped below the closing fence of a concept: how they are
 split off its body (`validate.split_body_spill`), and the normal form of a body without them.

 A line carries what the program's patterns say about it. Line endings are not modelled.
 */
module Spill {
  import opened Prelude
  import opened Text

  datatype EventField = By | At

  /**
   `flow`: a one-line `{by: …, at: …}` event; `block`: the field a `- by:` or `- at:` line opens; `field`:
   the field an indented line holds; `key`: the key of a `key:` line, `known` when it is a spill key.
   */
  datatype RawLine = Line(text: string, flow: bool, block: Option<EventField>, field: Option<EventField>,
                          key: Option<string>, known: bool)

  predicate Blank(l: RawLine) {
    RStrip(l.text) == ""
  }

  predicate Fence(l: RawLine) {
    Strip(l.text) == "---"
  }

  predicate Indented(l: RawLine) {
    l.text != "" && (l.text[0] == ' ' || l.text[0] == '\t' || l.text[0] == '-')
  }

  /** No pattern matches a blank line or a fence, and a line that opens with a key matches no other one. */
  type Line = l: RawLine |
    && (Blank(l) || Fence(l) ==> !l.flow && l.block == None && l.field == None && l.key == None)
    && (l.key.Some? ==> !l.flow && l.block == None && l.field == None && !Indented(l) && !Fence(l))
    witness Line("", false, None, None, None, false)

  // ----- the split -------------------------------------------------------------------------

  predicate OpensEvent(lines: seq<Line>) {
    && |lines| >= 2 && lines[0].block.Some? && lines[1].field.Some?
    && lines[0].block.value != lines[1].field.value
  }

  /** One turn of the scan: how many lines it takes (none to stop), and whether nested lines may follow. */
  function Turn(lines: seq<Line>, inKey: bool): (r: (nat, bool))
    requires lines != []
    ensures r.0 <= |lines|
    decreases |lines|, 0
  {
    if Blank(lines[0]) then (1, inKey)
    else if Fence(lines[0]) then
      // A stray fence counts only when spill follows it; otherwise it is Markdown.
      if Spilled(lines[1..]) == [] then (0, inKey) else (1, false)
    else if lines[0].flow then (1, false)
    else if OpensEvent(lines) then (2, false)
    else if lines[0].key.Some? && lines[0].known then (1, true)
    else if inKey && Indented(lines[0]) then (1, true)
    else (0, inKey)
  }

  /** How many leading lines the scan passes; `inKey` while nested lines belong to a spilled key. */
  function Scan(lines: seq<Line>, inKey: bool): (n: nat)
    ensures n <= |lines|
    decreases |lines|, 1
  {
    if lines == [] || Turn(lines, inKey).0 == 0 then 0
    else Turn(lines, inKey).0 + Scan(lines[Turn(lines, inKey).0..], Turn(lines, inKey).1)
  }

  function NonBlank(lines: seq<Line>): seq<Line> {
    if lines == [] then []
    else (if Blank(lines[0]) then [] else [lines[0]]) + NonBlank(lines[1..])
  }

  /** The spilled lines: what the scan passed, without its blank lines. */
  function Spilled(lines: seq<Line>): seq<Line>
    decreases |lines|, 2
  {
    NonBlank(lines[..Scan(lines, false)])
  }

  /** The body that remains; a body that does not start with spill is left as it is. */
  function Rest(lines: seq<Line>): seq<Line> {
    if Spilled(lines) == [] then lines else lines[Scan(lines, false)..]
  }

  lemma {:induction false} NonBlankAppend(a: seq<Line>, b: seq<Line>)
    ensures NonBlank(a + b) == NonBlank(a) + NonBlank(b)
    decreases |a|
  {
    if a == [] {
      assert a + b == b;
    } else {
      assert (a + b)[0] == a[0] && (a + b)[1..] == a[1..] + b;
      NonBlankAppend(a[1..], b);
    }
  }

  lemma NonBlankTwo(a: Line, b: Line)
    ensures NonBlank([a]) == if Blank(a) then [] else [a]
    ensures !Blank(a) && !Blank(b) ==> NonBlank([a, b]) == [a, b]
  {
    assert [a][1..] == [] && [a, b][1..] == [b] && [b][1..] == [];
  }

  /** The lines that one turn takes are all spill, or one blank line. */
  method Look(lines: seq<Line>, index: nat, inKey: bool) returns (step: nat, next: bool, taken: seq<Line>)
    requires index < |lines|
    ensures (step, next) == Turn(lines[index..], inKey)
    ensures index + step <= |lines| && taken == NonBlank(lines[index..index + step])
    decreases |lines| - index, 0
  {
    var line := lines[index];
    ghost var tail := lines[index..];
    assert tail[0] == line && tail[1..] == lines[index + 1..];
    assert lines[index..index + 1] == [line] && lines[index..index] == [];
    NonBlankTwo(line, line);
    step, next, taken := 1, false, [line];
    if Blank(line) {
      next, taken := inKey, [];
    } else if Fence(line) {
      var nested, _ := SplitBodySpill(lines[index + 1..]);
      if nested == [] {
        step, next, taken := 0, inKey, [];
      }
    } else if line.flow {
    } else if index + 1 < |lines| && line.block.Some? && lines[index + 1].field.Some?
              && line.block.value != lines[index + 1].field.value {
      assert lines[index..index + 2] == [line, lines[index + 1]] && tail[1] == lines[index + 1];
      NonBlankTwo(line, lines[index + 1]);
      step, taken := 2, [line, lines[index + 1]];
    } else if line.key.Some? && line.known {
      next := true;
    } else if inKey && Indented(line) {
      next := true;
    } else {
      step, next, taken := 0, inKey, [];
    }
  }

  /** The walk has passed `index` lines of the scan, and is at the end of it once it is no longer `open`. */
  ghost predicate Walked(lines: seq<Line>, index: nat, inKey: bool, open: bool, spilled: seq<Line>) {
    && index <= |lines| && spilled == NonBlank(lines[..index])
    && Scan(lines, false) == index + if open then Scan(lines[index..], inKey) else 0
  }

  lemma WalkStarts(lines: seq<Line>)
    ensures Walked(lines, 0, false, true, [])
  {
    assert lines[0..] == lines && lines[..0] == [];
  }

  lemma WalkGoesOn(lines: seq<Line>, index: nat, inKey: bool, spilled: seq<Line>, step: nat, next: bool)
    requires Walked(lines, index, inKey, true, spilled) && index < |lines| && (step, next) == Turn(lines[index..], inKey)
    ensures index + step <= |lines|
    ensures Walked(lines, index + step, next, step > 0, spilled + NonBlank(lines[index..index + step]))
  {
    assert lines[index..][step..] == lines[index + step..];
    assert lines[..index + step] == lines[..index] + lines[index..index + step];
    NonBlankAppend(lines[..index], lines[index..index + step]);
  }

  lemma WalkEnds(lines: seq<Line>, index: nat, inKey: bool, open: bool, spilled: seq<Line>)
    requires Walked(lines, index, inKey, open, spilled) && (open ==> index == |lines|)
    ensures Spilled(lines) == spilled && Rest(lines) == if spilled == [] then lines else lines[index..]
  {}

  method SplitBodySpill(lines: seq<Line>) returns (spilled: seq<Line>, rest: seq<Line>)
    ensures spilled == Spilled(lines) && rest == Rest(lines)
    decreases |lines|, 1
  {
    spilled := [];
    var index: nat, inKey, open := 0, false, true;
    WalkStarts(lines);
    while open && index < |lines|
      invariant index <= |lines| && Walked(lines, index, inKey, open, spilled)
      decreases |lines| - index, open
    {
      var step, next, taken := Look(lines, index, inKey);
      WalkGoesOn(lines, index, inKey, spilled, step, next);
      spilled, inKey, index, open := spilled + taken, next, index + step, step > 0;
    }
    WalkEnds(lines, index, inKey, open, spilled);
    rest := if spilled == [] then lines else lines[index..];
  }

  /** Where the scan stops, a fresh scan stops at once. */
  lemma {:induction false} ScanStops(lines: seq<Line>, inKey: bool)
    ensures var rest := lines[Scan(lines, inKey)..];
            rest != [] ==> !Blank(rest[0]) && Scan(rest, false) == 0
    decreases |lines|
  {
    if lines != [] {
      var turn := Turn(lines, inKey);
      if turn.0 != 0 {
        ScanStops(lines[turn.0..], turn.1);
        assert lines[turn.0..][Scan(lines[turn.0..], turn.1)..] == lines[Scan(lines, inKey)..];
      }
    }
  }

  lemma NothingToSplit(lines: seq<Line>)
    requires Scan(lines, false) == 0
    ensures Spilled(lines) == [] && Rest(lines) == lines
  {
    assert lines[..0] == [];
  }

  lemma RestIsSplit(body: seq<Line>)
    ensures Spilled(Rest(body)) == [] && Rest(Rest(body)) == Rest(body)
  {
    if Spilled(body) != [] {
      ScanStops(body, false);
      NothingToSplit(body[Scan(body, false)..]);
    }
  }

  /**
   Splitting loses nothing and finds everything: when there is spill, a prefix of the body whose non-blank
   lines are the spilled ones, followed by the rest, is the body; otherwise the body is the rest. The rest
   starts with no spill, so `body_spill_errors` accepts it.
   */
  lemma SplitPartitionsBody(body: seq<Line>)
    ensures |Rest(body)| <= |body| && (Spilled(body) == [] ==> Rest(body) == body)
    ensures Spilled(body) != [] ==>
              var k := |body| - |Rest(body)|; k > 0 && body[k..] == Rest(body) && NonBlank(body[..k]) == Spilled(body)
    ensures Spilled(Rest(body)) == [] && Rest(Rest(body)) == Rest(body)
  {
    RestIsSplit(body);
    assert body[..0] == [];
  }

  // ----- which lines are spill -------------------------------------------------------------

  /** A one-line event stands at `i`, or the two lines of one start there. */
  predicate EventLine(lines: seq<Line>, i: int) {
    && 0 <= i < |lines|
    && (lines[i].flow
        || (i + 1 < |lines| && lines[i].block.Some? && lines[i + 1].field.Some?
            && lines[i].block.value != lines[i + 1].field.value))
  }

  predicate SpillKey(l: Line) {
    l.key.Some? && l.known
  }

  /** From a spilled key on, or from the start if one is open, only blank and indented lines stand before `i`. */
  ghost predicate Under(lines: seq<Line>, inKey: bool, i: nat)
    requires i <= |lines|
  {
    (inKey && Nested(lines, 0, i)) || exists k: nat :: k < i && SpillKey(lines[k]) && Nested(lines, k + 1, i)
  }

  predicate Nested(lines: seq<Line>, from: nat, to: nat)
    requires to <= |lines|
  {
    forall j :: from <= j < to ==>
      Blank(lines[j]) || (Indented(lines[j]) && !Fence(lines[j]) && !EventLine(lines, j))
  }

  /** A line of spill: an event or its second line, a known key or what is nested below it, or a fence above more spill. */
  ghost predicate IsSpill(lines: seq<Line>, inKey: bool, i: nat)
    requires i < |lines|
  {
    || EventLine(lines, i) || (EventLine(lines, i - 1) && lines[i].field.Some?)
    || SpillKey(lines[i]) || (Indented(lines[i]) && Under(lines, inKey, i))
    || (Fence(lines[i]) && Spilled(lines[i + 1..]) != [])
  }

  lemma UnderAtStart(lines: seq<Line>, inKey: bool)
    ensures Under(lines, inKey, 0) <==> inKey
  {
    assert Nested(lines, 0, 0);
  }

  lemma EventShift(lines: seq<Line>, t: nat, j: int)
    requires t <= |lines| && j >= t
    ensures EventLine(lines[t..], j - t) <==> EventLine(lines, j)
  {}

  lemma NestedShift(lines: seq<Line>, t: nat, from: nat, to: nat)
    requires t <= from && from <= to <= |lines|
    ensures Nested(lines[t..], from - t, to - t) <==> Nested(lines, from, to)
  {
    var rest := lines[t..];
    forall j | from <= j < to
      ensures rest[j - t] == lines[j] && (EventLine(rest, j - t) <==> EventLine(lines, j))
    {
      EventShift(lines, t, j);
    }
    if Nested(rest, from - t, to - t) {
      forall j | from <= j < to
        ensures Blank(lines[j]) || (Indented(lines[j]) && !Fence(lines[j]) && !EventLine(lines, j))
      {
        assert rest[j - t] == lines[j];
      }
    }
  }

  /** A line that a turn passes without an event or a fence keeps a key open if and only if it was, or is one. */
  lemma TurnNests(lines: seq<Line>, inKey: bool)
    requires lines != [] && Turn(lines, inKey).0 > 0
    ensures Turn(lines, inKey).1 ==>
              Turn(lines, inKey).0 == 1 && (SpillKey(lines[0]) || (inKey && Nested(lines, 0, 1)))
    ensures SpillKey(lines[0]) || (inKey && Nested(lines, 0, 1)) ==> Turn(lines, inKey) == (1, true)
    ensures Turn(lines, inKey).0 == 2 ==> !SpillKey(lines[1]) && !Nested(lines, 0, 2)
  {
    assert Nested(lines, 0, 1) <==> Blank(lines[0]) || (Indented(lines[0]) && !Fence(lines[0]) && !EventLine(lines, 0));
  }

  lemma UnderShift(lines: seq<Line>, inKey: bool, i: nat)
    requires lines != [] && i <= |lines| && 0 < Turn(lines, inKey).0 <= i
    ensures var t := Turn(lines, inKey); Under(lines[t.0..], t.1, i - t.0) ==> Under(lines, inKey, i)
  {
    var t := Turn(lines, inKey);
    var rest := lines[t.0..];
    TurnNests(lines, inKey);
    if t.1 && Nested(rest, 0, i - t.0) {
      NestedShift(lines, 1, 1, i);
      if !SpillKey(lines[0]) { assert Nested(lines, 0, i); }
    } else if Under(rest, t.1, i - t.0) {
      var k: nat :| k < i - t.0 && SpillKey(rest[k]) && Nested(rest, k + 1, i - t.0);
      UnderKeyShift(lines, inKey, i, t.0, k);
    }
  }

  lemma UnderKeyShift(lines: seq<Line>, inKey: bool, i: nat, t: nat, k: nat)
    requires t <= i <= |lines| && k < i - t && SpillKey(lines[t..][k]) && Nested(lines[t..], k + 1, i - t)
    ensures Under(lines, inKey, i)
  {
    NestedShift(lines, t, k + 1 + t, i);
    assert SpillKey(lines[k + t]) && Nested(lines, k + t + 1, i);
  }

  lemma UnderUnshift(lines: seq<Line>, inKey: bool, i: nat)
    requires lines != [] && i <= |lines| && 0 < Turn(lines, inKey).0 <= i
    ensures var t := Turn(lines, inKey); Under(lines, inKey, i) ==> Under(lines[t.0..], t.1, i - t.0)
  {
    var t := Turn(lines, inKey);
    TurnNests(lines, inKey);
    if inKey && Nested(lines, 0, i) {
      assert Nested(lines, 0, 1);
      NestedShift(lines, 1, 1, i);
    } else if Under(lines, inKey, i) {
      var k: nat :| k < i && SpillKey(lines[k]) && Nested(lines, k + 1, i);
      UnderKeyUnshift(lines, inKey, i, k);
    }
  }

  lemma UnderKeyUnshift(lines: seq<Line>, inKey: bool, i: nat, k: nat)
    requires lines != [] && i <= |lines| && 0 < Turn(lines, inKey).0 <= i && k < i && SpillKey(lines[k]) && Nested(lines, k + 1, i)
    ensures var t := Turn(lines, inKey); Under(lines[t.0..], t.1, i - t.0)
  {
    var t := Turn(lines, inKey);
    if k >= t.0 {
      NestedShift(lines, t.0, k + 1, i);
      assert SpillKey(lines[t.0..][k - t.0]);
    } else {
      TurnNests(lines, inKey);
      NestedShift(lines, 1, 1, i);
    }
  }

  /** What `ScanMeans` says of the line that the scan stops at. */
  ghost predicate Stops(lines: seq<Line>, inKey: bool, n: nat) {
    n < |lines| ==>
      && !Blank(lines[n]) && !EventLine(lines, n) && !SpillKey(lines[n])
      && (Fence(lines[n]) ==> Spilled(lines[n + 1..]) == [])
      && (Indented(lines[n]) && !Fence(lines[n]) ==> !Under(lines, inKey, n))
  }

  /**
   The scan passes every blank line and every line of spill, and stops at the first line that is neither;
   which line that is does not depend on how the scan got there.
   */
  lemma {:induction false} ScanMeans(lines: seq<Line>, inKey: bool)
    ensures forall i: nat :: i < Scan(lines, inKey) ==> Blank(lines[i]) || IsSpill(lines, inKey, i)
    ensures Stops(lines, inKey, Scan(lines, inKey))
    decreases |lines|
  {
    if lines != [] {
      var t, n := Turn(lines, inKey), Scan(lines, inKey);
      if t.0 == 0 {
        UnderAtStart(lines, inKey);
        StopsHere(lines, inKey);
      } else {
        ScanMeans(lines[t.0..], t.1);
        forall i: nat | i < n ensures Blank(lines[i]) || IsSpill(lines, inKey, i) {
          SpillLater(lines, inKey, i);
        }
        StopsLater(lines, inKey, n);
      }
    }
  }

  lemma StopsHere(lines: seq<Line>, inKey: bool)
    requires lines != [] && Turn(lines, inKey).0 == 0 && (Under(lines, inKey, 0) ==> inKey)
    ensures Stops(lines, inKey, 0)
  {}

  lemma StopsLater(lines: seq<Line>, inKey: bool, n: nat)
    requires lines != [] && 0 < Turn(lines, inKey).0 <= n <= |lines|
    requires var t := Turn(lines, inKey); Stops(lines[t.0..], t.1, n - t.0)
    ensures Stops(lines, inKey, n)
  {
    var t := Turn(lines, inKey);
    UnderUnshift(lines, inKey, n);
    EventShift(lines, t.0, n);
    if n < |lines| {
      assert lines[t.0..][n - t.0] == lines[n] && lines[t.0..][n - t.0 + 1..] == lines[n + 1..];
    }
  }

  lemma SpillLater(lines: seq<Line>, inKey: bool, i: nat)
    requires lines != [] && i < |lines|
    requires var t := Turn(lines, inKey);
             t.0 > 0 && (i >= t.0 ==> Blank(lines[i]) || IsSpill(lines[t.0..], t.1, i - t.0))
    ensures Blank(lines[i]) || IsSpill(lines, inKey, i)
  {
    var t := Turn(lines, inKey);
    if i >= t.0 {
      UnderShift(lines, inKey, i);
      EventShift(lines, t.0, i);
      if i > t.0 { EventShift(lines, t.0, i - 1); }
      assert lines[t.0..][i - t.0] == lines[i] && lines[t.0..][i - t.0 + 1..] == lines[i + 1..];
    } else {
      UnderAtStart(lines, inKey);
      assert i == 1 ==> EventLine(lines, 0);
    }
  }

  // ----- the normal form of a body ---------------------------------------------------------

  /** Runs of blank lines become one, and none comes first. `last` is the line kept before. */
  function Squeeze(lines: seq<Line>, last: string): seq<string> {
    if lines == [] then []
    else
      var bare := RStrip(lines[0].text);
      if bare != "" || last != "" then [bare] + Squeeze(lines[1..], bare) else Squeeze(lines[1..], last)
  }

  function DropLastEmpty(s: seq<string>): seq<string> {
    if s != [] && s[|s| - 1] == "" then s[..|s| - 1] else s
  }

  /** `_normalize_body`: trailing spaces, blank-line runs and spill are not content. */
  function Normalize(body: seq<Line>): seq<string> {
    DropLastEmpty(Squeeze(Rest(body), ""))
  }

  /** The runs of lines between blank ones, without the white space at the ends of lines: what a body says. */
  function Paragraphs(lines: seq<Line>): seq<seq<string>> {
    if lines == [] then []
    else
      var rest := Paragraphs(lines[1..]);
      if Blank(lines[0]) then rest
      else if |lines| > 1 && !Blank(lines[1]) && rest != [] then [[RStrip(lines[0].text)] + rest[0]] + rest[1..]
      else [[RStrip(lines[0].text)]] + rest
  }

  /** The text of the lines that are not blank, in order. */
  function Texts(lines: seq<Line>): seq<string> {
    if lines == [] then [] else (if Blank(lines[0]) then [] else [RStrip(lines[0].text)]) + Texts(lines[1..])
  }

  /** Every paragraph with an empty line above it. */
  function Below(paragraphs: seq<seq<string>>): seq<string> {
    if paragraphs == [] then [] else [""] + (paragraphs[0] + Below(paragraphs[1..]))
  }

  /** Paragraphs one below the other, an empty line between them. */
  function Spaced(paragraphs: seq<seq<string>>): seq<string> {
    if paragraphs == [] then [] else paragraphs[0] + Below(paragraphs[1..])
  }

  ghost predicate RealParagraphs(paragraphs: seq<seq<string>>) {
    forall i :: 0 <= i < |paragraphs| ==> paragraphs[i] != [] && "" !in paragraphs[i]
  }

  lemma {:induction false} ParagraphsAreReal(lines: seq<Line>)
    ensures RealParagraphs(Paragraphs(lines))
    ensures lines != [] && !Blank(lines[0]) ==> Paragraphs(lines) != [] && Paragraphs(lines)[0][0] == RStrip(lines[0].text)
    decreases |lines|
  {
    if lines != [] { ParagraphsAreReal(lines[1..]); }
  }

  /** The lines, or the lines and an empty one behind them. */
  predicate Closes(s: seq<string>, lines: seq<string>) {
    s == lines || (lines != [] && s == lines + [""])
  }

  lemma SpacedAfter(word: string, paragraphs: seq<seq<string>>)
    ensures Spaced([[word]] + paragraphs) == [word] + Below(paragraphs)
  {
    var apart := [[word]] + paragraphs;
    assert apart[0] == [word] && apart[1..] == paragraphs;
  }

  lemma SpacedGrows(word: string, paragraphs: seq<seq<string>>)
    requires paragraphs != []
    ensures Spaced([[word] + paragraphs[0]] + paragraphs[1..]) == [word] + Spaced(paragraphs)
  {
    var joined := [[word] + paragraphs[0]] + paragraphs[1..];
    assert joined[0] == [word] + paragraphs[0] && joined[1..] == paragraphs[1..];
  }

  /** The squeezed lines are the spaced paragraphs; an empty line opens them when blank lines follow a line. */
  lemma {:induction false} SqueezeSpaces(lines: seq<Line>, last: string)
    ensures var p, s := Spaced(Paragraphs(lines)), Squeeze(lines, last);
            if last != "" && lines != [] && Blank(lines[0]) then s != [] && s[0] == "" && Closes(s[1..], p)
            else Closes(s, p)
    decreases |lines|
  {
    if lines != [] {
      var bare, rest := RStrip(lines[0].text), lines[1..];
      ParagraphsAreReal(rest);
      if bare == "" {
        SqueezeSpaces(rest, "");
        assert last != "" ==> Squeeze(lines, last) == [""] + Squeeze(rest, "");
      } else {
        SqueezeSpaces(rest, bare);
        SpacedAfter(bare, Paragraphs(rest));
        if Paragraphs(rest) != [] { SpacedGrows(bare, Paragraphs(rest)); }
        SqueezeWord(bare, rest);
      }
    }
  }

  lemma SqueezeWord(bare: string, rest: seq<Line>)
    requires bare != "" && RealParagraphs(Paragraphs(rest))
    requires var p, s := Spaced(Paragraphs(rest)), Squeeze(rest, bare);
             if rest != [] && Blank(rest[0]) then s != [] && s[0] == "" && Closes(s[1..], p) else Closes(s, p)
    ensures Closes([bare] + Squeeze(rest, bare),
                   if rest != [] && !Blank(rest[0]) then [bare] + Spaced(Paragraphs(rest))
                   else [bare] + Below(Paragraphs(rest)))
  {
    var p, s := Spaced(Paragraphs(rest)), Squeeze(rest, bare);
    if rest != [] && Blank(rest[0]) {
      assert s == [""] + s[1..];
      SpacedEndsBare(Paragraphs(rest));
      BelowOpens(Paragraphs(rest));
      assert [bare] + s == [bare] + ([""] + s[1..]);
    } else if rest != [] {
      ParagraphsAreReal(rest);
    }
  }

  lemma {:induction false} SpacedEndsBare(paragraphs: seq<seq<string>>)
    requires RealParagraphs(paragraphs)
    ensures paragraphs == [] ==> Spaced(paragraphs) == []
    ensures paragraphs != [] ==> Spaced(paragraphs) != [] && Spaced(paragraphs)[|Spaced(paragraphs)| - 1] != ""
    decreases |paragraphs|
  {
    if |paragraphs| == 1 {
      var only := paragraphs[0];
      assert only[|only| - 1] in only;
    } else if paragraphs != [] {
      assert forall i :: 0 <= i < |paragraphs| - 1 ==> paragraphs[1..][i] == paragraphs[i + 1];
      SpacedEndsBare(paragraphs[1..]);
      BelowOpens(paragraphs[1..]);
    }
  }

  /** The normal form of a body is its paragraphs, one empty line between them. */
  lemma NormalIsSpaced(body: seq<Line>)
    ensures Normalize(body) == Spaced(Paragraphs(Rest(body)))
  {
    var p := Paragraphs(Rest(body));
    ParagraphsAreReal(Rest(body));
    SqueezeSpaces(Rest(body), "");
    SpacedEndsBare(p);
    assert (Spaced(p) + [""])[..|Spaced(p)|] == Spaced(p);
  }

  lemma {:induction false} FirstGap(a: seq<string>, b: seq<string>, x: seq<string>, y: seq<string>)
    requires "" !in a && "" !in b && a + x == b + y
    requires (x == [] || x[0] == "") && (y == [] || y[0] == "")
    ensures a == b && x == y
    decreases |a|
  {
    assert a != [] ==> a[0] in a && (a + x)[0] == a[0];
    assert b != [] ==> b[0] in b && (b + y)[0] == b[0];
    if a != [] && b != [] {
      assert (a + x)[1..] == a[1..] + x && (b + y)[1..] == b[1..] + y;
      FirstGap(a[1..], b[1..], x, y);
      assert a == [a[0]] + a[1..] && b == [b[0]] + b[1..];
    } else {
      assert a == [] ==> a + x == x;
      assert b == [] ==> b + y == y;
    }
  }

  /** Spaced paragraphs can be told apart again. */
  lemma {:induction false} SpacedIsExact(a: seq<seq<string>>, b: seq<seq<string>>)
    requires RealParagraphs(a) && RealParagraphs(b) && Spaced(a) == Spaced(b)
    ensures a == b
    decreases |a|
  {
    SpacedEndsBare(a);
    SpacedEndsBare(b);
    if a != [] && b != [] {
      FirstGap(a[0], b[0], Below(a[1..]), Below(b[1..]));
      assert forall i :: 0 <= i < |a| - 1 ==> a[1..][i] == a[i + 1];
      assert forall i :: 0 <= i < |b| - 1 ==> b[1..][i] == b[i + 1];
      BelowOpens(a[1..]);
      BelowOpens(b[1..]);
      assert ([""] + Spaced(a[1..]))[1..] == Spaced(a[1..]) && ([""] + Spaced(b[1..]))[1..] == Spaced(b[1..]);
      SpacedIsExact(a[1..], b[1..]);
      assert a == [a[0]] + a[1..] && b == [b[0]] + b[1..];
    }
  }

  lemma BelowOpens(paragraphs: seq<seq<string>>)
    ensures Below(paragraphs) == if paragraphs == [] then [] else [""] + Spaced(paragraphs)
  {}

  /**
   Two bodies are the same content if and only if their paragraphs below the spill are: the same lines, but
   for white space at their ends, with blank lines between the same ones.
   */
  lemma NormalTells(a: seq<Line>, b: seq<Line>)
    ensures Normalize(a) == Normalize(b) <==> Paragraphs(Rest(a)) == Paragraphs(Rest(b))
  {
    NormalIsSpaced(a);
    NormalIsSpaced(b);
    ParagraphsAreReal(Rest(a));
    ParagraphsAreReal(Rest(b));
    if Normalize(a) == Normalize(b) { SpacedIsExact(Paragraphs(Rest(a)), Paragraphs(Rest(b))); }
  }

  function Flat(paragraphs: seq<seq<string>>): seq<string> {
    if paragraphs == [] then [] else paragraphs[0] + Flat(paragraphs[1..])
  }

  lemma {:induction false} FlatParagraphs(lines: seq<Line>)
    ensures Flat(Paragraphs(lines)) == Texts(lines)
    decreases |lines|
  {
    if lines != [] {
      var rest, p := Paragraphs(lines[1..]), Paragraphs(lines);
      FlatParagraphs(lines[1..]);
      if !Blank(lines[0]) { assert p[1..] == if |lines| > 1 && !Blank(lines[1]) && rest != [] then rest[1..] else rest; }
    }
  }

  /** Bodies whose lines differ beyond blank ones and white space at their ends are different content. */
  lemma OtherTextIsOtherContent(a: seq<Line>, b: seq<Line>)
    requires Texts(Rest(a)) != Texts(Rest(b))
    ensures Normalize(a) != Normalize(b)
  {
    NormalTells(a, b);
    FlatParagraphs(Rest(a));
    FlatParagraphs(Rest(b));
  }

  /** `parse_document`'s view of a body: one empty first line is dropped, and one empty line is no body. */
  function Parsed(body: seq<Line>): seq<Line> {
    var b := if |body| >= 2 && body[0].text == "" then body[1..] else body;
    if |b| == 1 && b[0].text == "" then [] else b
  }

  lemma NormalizeRest(body: seq<Line>)
    ensures Normalize(Rest(body)) == Normalize(body)
  {
    SplitPartitionsBody(body);
  }

  lemma SpilledAfterBlank(l: Line, body: seq<Line>)
    requires Blank(l)
    ensures Spilled([l] + body) == Spilled(body)
    ensures Spilled(body) != [] ==> Rest([l] + body) == Rest(body)
  {
    var all := [l] + body;
    assert all[0] == l && all[1..] == body;
    var k := Scan(body, false);
    assert Scan(all, false) == 1 + k;
    assert all[..1 + k] == [l] + body[..k];
    NonBlankAppend([l], body[..k]);
    NonBlankTwo(l, l);
    assert all[1 + k..] == body[k..];
  }

  /** A blank first line is no content. */
  lemma NormalizeAfterBlank(l: Line, body: seq<Line>)
    requires Blank(l)
    ensures Normalize([l] + body) == Normalize(body)
  {
    SpilledAfterBlank(l, body);
    var all := [l] + body;
    assert all[0] == l && all[1..] == body;
  }

  /** Bodies that read the same have the same normal form. */
  lemma ParsedDecidesNormal(a: seq<Line>, b: seq<Line>)
    requires Parsed(a) == Parsed(b)
    ensures Normalize(a) == Normalize(b)
  {
    NormalizeParsed(a);
    NormalizeParsed(b);
  }

  lemma NormalizeParsed(body: seq<Line>)
    ensures Normalize(Parsed(body)) == Normalize(body)
  {
    var b := if |body| >= 2 && body[0].text == "" then body[1..] else body;
    if |body| >= 2 && body[0].text == "" {
      assert body == [body[0]] + b;
      NormalizeAfterBlank(body[0], b);
    }
    if |b| == 1 && b[0].text == "" {
      assert b == [b[0]] + [];
      NormalizeAfterBlank(b[0], []);
    }
  }

  /** `body_spill_errors` sees the parsed body; it finds no more spill there than in the lines. */
  lemma ParsedSpill(body: seq<Line>)
    ensures Spilled(Parsed(body)) == Spilled(body)
  {
    var b := if |body| >= 2 && body[0].text == "" then body[1..] else body;
    if |body| >= 2 && body[0].text == "" {
      assert body == [body[0]] + b;
      SpilledAfterBlank(body[0], b);
    }
    if |b| == 1 && b[0].text == "" {
      assert b == [b[0]] + [];
      SpilledAfterBlank(b[0], []);
    }
  }
}
