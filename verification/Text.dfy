/** Python's view of text: white space, line breaks, `splitlines`, `strip` and `join`. */
module Text {

  predicate IsSpace(c: char) {
    var n := c as int;
    || 9 <= n <= 13 || 28 <= n <= 32 || n == 0x85 || n == 0xa0 || n == 0x1680
    || 0x2000 <= n <= 0x200a || 0x2028 <= n <= 0x2029 || n == 0x202f || n == 0x205f || n == 0x3000
  }

  predicate IsBreak(c: char) {
    var n := c as int;
    10 <= n <= 13 || 28 <= n <= 30 || n == 0x85 || 0x2028 <= n <= 0x2029
  }

  function RStrip(s: string): string {
    if s != "" && IsSpace(s[|s| - 1]) then RStrip(s[..|s| - 1]) else s
  }

  function LStrip(s: string): string {
    if s != "" && IsSpace(s[0]) then LStrip(s[1..]) else s
  }

  function Strip(s: string): string {
    LStrip(RStrip(s))
  }

  predicate OneLine(s: string) {
    forall i :: 0 <= i < |s| ==> !IsBreak(s[i])
  }

  /** Where the first line ends. */
  function LineEnd(text: string): (n: nat)
    ensures n <= |text| && OneLine(text[..n]) && (n < |text| ==> IsBreak(text[n]))
  {
    if text == "" || IsBreak(text[0]) then 0
    else
      var n := 1 + LineEnd(text[1..]);
      assert text[..n] == [text[0]] + text[1..][..n - 1];
      n
  }

  /** `text.splitlines()`; a carriage return and a line feed are one break. */
  function Lines(text: string): (lines: seq<string>)
    ensures forall i :: 0 <= i < |lines| ==> OneLine(lines[i])
  {
    if text == "" then []
    else
      var n := LineEnd(text);
      if n == |text| then [text]
      else if n + 1 < |text| && text[n] == '\r' && text[n + 1] == '\n' then [text[..n]] + Lines(text[n + 2..])
      else [text[..n]] + Lines(text[n + 1..])
  }

  /** Every part with the separator before it. */
  function After(sep: string, parts: seq<string>): string {
    if parts == [] then "" else sep + parts[0] + After(sep, parts[1..])
  }

  function Join(sep: string, parts: seq<string>): string {
    if parts == [] then "" else parts[0] + After(sep, parts[1..])
  }

  lemma {:induction false} AfterAppend(sep: string, a: seq<string>, b: seq<string>)
    ensures After(sep, a + b) == After(sep, a) + After(sep, b)
    decreases |a|
  {
    if a == [] {
      assert a + b == b;
    } else {
      assert (a + b)[0] == a[0] && (a + b)[1..] == a[1..] + b;
      AfterAppend(sep, a[1..], b);
    }
  }

  lemma JoinAppend(sep: string, a: seq<string>, b: seq<string>)
    requires a != []
    ensures Join(sep, a + b) == Join(sep, a) + After(sep, b)
  {
    assert (a + b)[0] == a[0] && (a + b)[1..] == a[1..] + b;
    AfterAppend(sep, a[1..], b);
  }

  lemma {:induction false} LineEndAt(line: string, rest: string)
    requires OneLine(line) && (rest == "" || IsBreak(rest[0]))
    ensures LineEnd(line + rest) == |line|
    decreases |line|
  {
    if line == "" {
      assert line + rest == rest;
    } else {
      assert (line + rest)[1..] == line[1..] + rest;
      LineEndAt(line[1..], rest);
    }
  }

  /** Joined lines, each ended by a line feed, split into the same lines. */
  lemma {:induction false} LinesOfJoin(lines: seq<string>)
    requires lines != [] && forall i :: 0 <= i < |lines| ==> OneLine(lines[i])
    ensures Lines(Join("\n", lines) + "\n") == lines
    decreases |lines|
  {
    var rest := lines[1..];
    var tail := After("\n", rest) + "\n";
    assert Join("\n", lines) + "\n" == lines[0] + tail;
    var text := lines[0] + tail;
    assert tail[0] == '\n';
    LineEndAt(lines[0], tail);
    assert text[..|lines[0]|] == lines[0];
    if rest == [] {
      assert text[|lines[0]| + 1..] == "";
    } else {
      assert text[|lines[0]| + 1..] == Join("\n", rest) + "\n";
      LinesOfJoin(rest);
    }
  }

  // ----- strip -----------------------------------------------------------------------------

  predicate EndsBare(s: string) {
    s != "" && !IsSpace(s[|s| - 1])
  }

  lemma RStripOfBare(s: string)
    ensures EndsBare(s) ==> RStrip(s) == s
    ensures EndsBare(s) && !IsSpace(s[0]) ==> Strip(s) == s
  {}

  lemma RStripSpace(s: string, c: char)
    requires IsSpace(c)
    ensures RStrip(s + [c]) == RStrip(s)
  {
    assert (s + [c])[..|s|] == s;
  }

  /** What is left ends bare, or nothing is left; only white space goes. */
  lemma {:induction false} RStripIs(s: string)
    ensures (RStrip(s) == "" || EndsBare(RStrip(s))) && |RStrip(s)| <= |s| && RStrip(s) == s[..|RStrip(s)|]
    ensures forall i :: |RStrip(s)| <= i < |s| ==> IsSpace(s[i])
    ensures RStrip(RStrip(s)) == RStrip(s)
    decreases |s|
  {
    if s != "" && IsSpace(s[|s| - 1]) { RStripIs(s[..|s| - 1]); }
  }

  lemma BareAppend(a: string, b: string)
    requires b != ""
    ensures EndsBare(a + b) == EndsBare(b)
  {}

  lemma {:induction false} AfterEndsBare(sep: string, parts: seq<string>)
    requires parts != [] && parts[|parts| - 1] != ""
    ensures After(sep, parts) != "" && EndsBare(After(sep, parts)) == EndsBare(parts[|parts| - 1])
    decreases |parts|
  {
    if |parts| == 1 {
      BareAppend(sep, parts[0]);
      assert After(sep, parts[1..]) == "";
      assert After(sep, parts) == sep + parts[0];
    } else {
      AfterEndsBare(sep, parts[1..]);
      BareAppend(sep + parts[0], After(sep, parts[1..]));
    }
  }

  lemma JoinEndsBare(sep: string, parts: seq<string>)
    requires parts != [] && parts[|parts| - 1] != ""
    ensures Join(sep, parts) != "" && EndsBare(Join(sep, parts)) == EndsBare(parts[|parts| - 1])
  {
    if |parts| == 1 {
      assert parts[1..] == [];
      assert Join(sep, parts) == parts[0];
    } else {
      AfterEndsBare(sep, parts[1..]);
      BareAppend(parts[0], After(sep, parts[1..]));
    }
  }

  // ----- words -----------------------------------------------------------------------------

  predicate OneWord(s: string) {
    s != "" && forall i :: 0 <= i < |s| ==> !IsSpace(s[i])
  }

  function WordEnd(s: string): (n: nat)
    ensures n <= |s| && (forall i :: 0 <= i < n ==> !IsSpace(s[i])) && (n < |s| ==> IsSpace(s[n]))
  {
    if s == "" || IsSpace(s[0]) then 0
    else
      var n := 1 + WordEnd(s[1..]);
      assert forall i :: 0 < i < n ==> s[i] == s[1..][i - 1];
      n
  }

  /** `s.split()`. */
  function Words(s: string): (words: seq<string>)
    ensures forall i :: 0 <= i < |words| ==> OneWord(words[i])
    decreases |s|
  {
    if s == "" then []
    else if IsSpace(s[0]) then Words(s[1..])
    else [s[..WordEnd(s)]] + Words(s[WordEnd(s)..])
  }

  lemma {:induction false} AfterOneLine(sep: string, parts: seq<string>)
    requires OneLine(sep)
    ensures OneLine(After(sep, parts)) <==> forall i :: 0 <= i < |parts| ==> OneLine(parts[i])
    decreases |parts|
  {
    if parts != [] {
      AfterOneLine(sep, parts[1..]);
      assert forall i :: 0 < i < |parts| ==> parts[i] == parts[1..][i - 1];
      OneLineAppend(sep + parts[0], After(sep, parts[1..]));
      OneLineAppend(sep, parts[0]);
    }
  }

  lemma OneLineAppend(a: string, b: string)
    ensures OneLine(a + b) <==> OneLine(a) && OneLine(b)
  {
    assert forall i :: 0 <= i < |a| ==> (a + b)[i] == a[i];
    assert forall i :: 0 <= i < |b| ==> (a + b)[|a| + i] == b[i];
  }

  lemma JoinOneLine(sep: string, parts: seq<string>)
    requires OneLine(sep)
    ensures OneLine(Join(sep, parts)) <==> forall i :: 0 <= i < |parts| ==> OneLine(parts[i])
  {
    if parts != [] {
      AfterOneLine(sep, parts[1..]);
      assert forall i :: 0 < i < |parts| ==> parts[i] == parts[1..][i - 1];
      OneLineAppend(parts[0], After(sep, parts[1..]));
    }
  }
}
