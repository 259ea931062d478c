/**
 The validator's pattern for headings, `(?m)^##\s+(.+?)\s*$`, with the meaning that a backtracking matcher
 gives it, and that the scan of `LogHistory` row by row finds what the pattern finds.
 */
module LogPattern {
  import opened Prelude
  import opened Text
  import opened Log
  import opened LogHistory

  // ----- the pattern -----------------------------------------------------------------------

  predicate Spaces(t: string, i: nat, j: nat)
    requires j <= |t|
  {
    forall k :: i <= k < j ==> IsSpace(t[k])
  }

  predicate OneRow(t: string, i: nat, j: nat)
    requires j <= |t|
  {
    forall k :: i <= k < j ==> t[k] != '\n'
  }

  /** `$`: the end of the text, or before a line feed. */
  predicate AtEnd(t: string, c: nat) {
    c == |t| || (c < |t| && t[c] == '\n')
  }

  /** At the start of a row: two hashes, white space up to `a`, the group up to `b`, white space up to `c`. */
  predicate Match(t: string, a: nat, b: nat, c: nat) {
    && 2 < a < b <= c <= |t| && t[..2] == "##"
    && Spaces(t, 2, a) && OneRow(t, a, b) && Spaces(t, b, c) && AtEnd(t, c)
  }

  lemma SpaceAt(t: string, i: nat, j: nat, k: nat)
    requires j <= |t| && Spaces(t, i, j) && k < |t|
    ensures i <= k < j ==> IsSpace(t[k])
  {}

  lemma MatchStarts(t: string, a: nat, b: nat, c: nat)
    ensures Match(t, a, b, c) ==> 3 <= a < |t| && t[0] == '#' && t[..2] == "##" && IsSpace(t[2]) && t[a] != '\n'
  {
    if |t| >= 2 { assert t[..2][0] == t[0]; }
  }

  /** The most white space first, then the shortest group, then the most white space again. */
  predicate Prefers(a: nat, b: nat, c: nat, a': nat, b': nat, c': nat) {
    a > a' || (a == a' && (b < b' || (b == b' && c >= c')))
  }

  /** What the matcher comes to. */
  ghost predicate Best(t: string, a: nat, b: nat, c: nat) {
    Match(t, a, b, c) && forall a': nat, b': nat, c': nat :: Match(t, a', b', c') ==> Prefers(a, b, c, a', b', c')
  }

  /** `findall`: the groups of the matches from left to right; `start` says that a row starts here. */
  ghost function FindAll(t: string, start: bool): seq<string>
    decreases |t|
  {
    if t == "" then []
    else if start && exists a: nat, b: nat, c: nat :: Best(t, a, b, c) then
      var a: nat, b: nat, c: nat :| Best(t, a, b, c);
      [t[a..b]] + FindAll(t[c..], t[c - 1] == '\n')
    else FindAll(t[1..], t[0] == '\n')
  }

  lemma BestIsFound(t: string, a: nat, b: nat, c: nat)
    requires Best(t, a, b, c)
    ensures FindAll(t, true) == [t[a..b]] + FindAll(t[c..], t[c - 1] == '\n')
  {
    forall a': nat, b': nat, c': nat | Best(t, a', b', c') ensures a' == a && b' == b && c' == c {
      assert Match(t, a', b', c');
    }
  }

  lemma NoBestGoesOn(t: string)
    requires forall a: nat, b: nat, c: nat :: !Match(t, a, b, c)
    ensures FindAll(t, true) == FindAll(t, false)
  {}

  lemma NoHashNoMatch(t: string, a: nat, b: nat, c: nat)
    requires t == "" || t[0] != '#'
    ensures !Match(t, a, b, c)
  {
    MatchStarts(t, a, b, c);
  }

  lemma NoHash(t: string)
    requires t == "" || t[0] != '#'
    ensures FindAll(t, true) == FindAll(t, false)
  {
    forall a: nat, b: nat, c: nat ensures !Match(t, a, b, c) { NoHashNoMatch(t, a, b, c); }
    NoBestGoesOn(t);
  }

  /** White space is passed over. */
  lemma {:induction false} SkipSpaces(t: string, n: nat)
    requires n <= |t| && Spaces(t, 0, n) && AtEnd(t, n)
    ensures FindAll(t, false) == FindAll(t[n..], false)
    decreases n
  {
    if n == 0 {
      assert t[0..] == t;
    } else {
      var rest := t[1..];
      assert IsSpace(t[0]);
      assert Spaces(rest, 0, n - 1) && AtEnd(rest, n - 1) by {
        assert forall k :: 0 <= k < |rest| ==> rest[k] == t[k + 1];
      }
      SkipSpaces(rest, n - 1);
      assert rest[n - 1..] == t[n..];
      if rest != "" { assert rest[0] != '#' by { if n > 1 { assert IsSpace(t[1]); } } }
      NoHash(rest);
    }
  }

  /** Within a row nothing starts. */
  lemma {:induction false} SkipRow(t: string, n: nat)
    requires n <= |t| && OneRow(t, 0, n) && AtEnd(t, n)
    ensures FindAll(t, false) == if n == |t| then [] else FindAll(t[n + 1..], true)
    decreases n
  {
    if n > 0 {
      var rest := t[1..];
      assert OneRow(rest, 0, n - 1) && AtEnd(rest, n - 1) by {
        assert forall k :: 0 <= k < |rest| ==> rest[k] == t[k + 1];
      }
      SkipRow(rest, n - 1);
      if n < |t| { assert rest[n..] == t[n + 1..]; }
    } else if t != "" {
      assert t[1..] == t[n + 1..];
    }
  }

  // ----- rows ------------------------------------------------------------------------------

  /** Where the first row ends. */
  function RowEnd(t: string): (n: nat)
    ensures n <= |t| && OneRow(t, 0, n) && AtEnd(t, n)
  {
    if t == "" || t[0] == '\n' then 0
    else
      var n := RowEnd(t[1..]);
      assert forall k :: 0 <= k < |t| - 1 ==> t[1..][k] == t[k + 1];
      n + 1
  }

  /** The rows behind the first. */
  function Below(t: string, n: nat): seq<string>
    requires n <= |t|
  {
    if n == |t| then [] else Rows(t[n + 1..])
  }

  lemma {:induction false} RowsAre(t: string, n: nat)
    requires n <= |t| && OneRow(t, 0, n) && AtEnd(t, n)
    ensures Rows(t) == [t[..n]] + Below(t, n)
    decreases n
  {
    if n == 0 {
      assert t[..0] == "";
      if t != "" { assert t[1..] == t[n + 1..]; }
    } else {
      var rest := t[1..];
      assert OneRow(rest, 0, n - 1) && AtEnd(rest, n - 1) by {
        assert forall k :: 0 <= k < |rest| ==> rest[k] == t[k + 1];
      }
      RowsAre(rest, n - 1);
      assert t[..n] == [t[0]] + rest[..n - 1];
      if n < |t| { assert rest[n..] == t[n + 1..]; }
      assert Below(rest, n - 1) == Below(t, n);
    }
  }

  /** The first text: white space up to `f`, text from there, its row up to `e`. */
  ghost predicate TextAt(u: string, f: nat, e: nat) {
    f < e <= |u| && Spaces(u, 0, f) && !IsSpace(u[f]) && OneRow(u, f, e) && AtEnd(u, e)
  }

  /** The row at `k`, stripped, is the text, and these are the rows below it. */
  ghost predicate TextRow(rows: seq<string>, text: string, below: seq<string>, k: nat) {
    k < |rows| && Strip(rows[k]) == RStrip(text) && rows[k + 1..] == below
  }

  /** Where the white space in front ends. */
  lemma {:induction false} LeadingSpaces(s: string) returns (f: nat)
    ensures f <= |s| && Spaces(s, 0, f) && (f < |s| ==> !IsSpace(s[f])) && LStrip(s) == s[f..]
    decreases |s|
  {
    f := 0;
    if s != "" && IsSpace(s[0]) {
      var g := LeadingSpaces(s[1..]);
      f := g + 1;
      assert s[1..][g..] == s[f..];
      assert forall k :: 0 <= k < |s| - 1 ==> s[1..][k] == s[k + 1];
    }
  }

  lemma {:induction false} RStripLeading(s: string, f: nat)
    requires f < |s| && Spaces(s, 0, f) && !IsSpace(s[f])
    ensures RStrip(s) == s[..f] + RStrip(s[f..])
    decreases |s|
  {
    if IsSpace(s[|s| - 1]) {
      RStripLeading(s[..|s| - 1], f);
      assert s[..|s| - 1][f..] == s[f..][..|s| - 1 - f] && s[..|s| - 1][..f] == s[..f];
    } else {
      assert s == s[..f] + s[f..];
    }
  }

  lemma {:induction false} LStripLeading(s: string, f: nat)
    requires f < |s| && Spaces(s, 0, f) && !IsSpace(s[f])
    ensures LStrip(s) == s[f..]
    decreases f
  {
    if f > 0 {
      assert forall k :: 0 <= k < |s| - 1 ==> s[1..][k] == s[k + 1];
      LStripLeading(s[1..], f - 1);
      assert s[1..][f - 1..] == s[f..];
    } else {
      assert s[0..] == s;
    }
  }

  /** A row with text, stripped, is its text from the first character that is no white space. */
  lemma StripIs(s: string, f: nat)
    requires f < |s| && Spaces(s, 0, f) && !IsSpace(s[f])
    ensures Strip(s) == RStrip(s[f..]) && RStrip(s[f..]) != "" && RStrip(s[f..]) <= s[f..]
    ensures !IsSpace(RStrip(s[f..])[|RStrip(s[f..])| - 1])
    ensures Spaces(s, f + |RStrip(s[f..])|, |s|)
  {
    RStripLeading(s, f);
    RStripKeeps(s[f..]);
    var r := RStrip(s[f..]);
    var stripped := s[..f] + r;
    assert stripped[f] == r[0] == s[f] && stripped[f..] == r;
    assert Spaces(stripped, 0, f) by { assert forall k :: 0 <= k < f ==> stripped[k] == s[k]; }
    LStripLeading(stripped, f);
    assert forall k :: f + |r| <= k < |s| ==> s[k] == s[f..][k - f];
  }

  lemma {:induction false} RStripKeeps(s: string)
    requires s != "" && !IsSpace(s[0])
    ensures RStrip(s) != "" && RStrip(s) <= s && RStrip(s)[0] == s[0]
    ensures !IsSpace(RStrip(s)[|RStrip(s)| - 1]) && Spaces(s, |RStrip(s)|, |s|)
    decreases |s|
  {
    if IsSpace(s[|s| - 1]) { RStripKeeps(s[..|s| - 1]); }
  }

  lemma {:induction false} AllSpaceStrips(s: string)
    ensures Strip(s) == "" <==> Spaces(s, 0, |s|)
  {
    var f := LeadingSpaces(s);
    if f < |s| {
      StripIs(s, f);
    } else {
      SpacesStrip(s);
    }
  }

  lemma {:induction false} SpacesStrip(s: string)
    requires Spaces(s, 0, |s|)
    ensures RStrip(s) == "" && Strip(s) == ""
    decreases |s|
  {
    if s != "" { SpacesStrip(s[..|s| - 1]); }
  }

  lemma TextInFirst(u: string, n: nat) returns (f: nat)
    requires n <= |u| && OneRow(u, 0, n) && AtEnd(u, n) && Strip(u[..n]) != ""
    ensures TextAt(u, f, n) && Strip(u[..n]) == RStrip(u[f..n])
  {
    var row := u[..n];
    AllSpaceStrips(row);
    f := LeadingSpaces(row);
    StripIs(row, f);
    assert row[f..] == u[f..n] && u[f] == row[f];
    assert forall k :: 0 <= k < f ==> u[k] == row[k];
  }

  /** Text in the first row, or in the first one below that has any. */
  ghost predicate Finds(u: string, f: nat, e: nat, rows: seq<string>, text: string, below: seq<string>) {
    TextAt(u, f, e) && text == u[f..e] && below == Below(u, e) && TextRow(rows, text, below, FirstText(rows))
  }

  /** The first row with text, as positions. */
  lemma {:induction false} FindText(u: string, rows: seq<string>)
    returns (f: nat, e: nat, text: string, below: seq<string>)
    requires rows == Rows(u) && FirstText(rows) < |rows|
    ensures Finds(u, f, e, rows, text, below)
    decreases |u|
  {
    var n := RowEnd(u);
    RowsAre(u, n);
    assert rows[0] == u[..n] && rows[1..] == Below(u, n);
    if Strip(rows[0]) != "" {
      f := TextInFirst(u, n);
      e, text, below := n, u[f..n], Below(u, n);
      FindsFirst(u, n, f, rows, text, below);
    } else {
      FirstIsBelow(rows);
      BlankRow(u, n);
      var g, h;
      g, h, text, below := FindText(u[n + 1..], rows[1..]);
      f, e := n + 1 + g, n + 1 + h;
      FindsFurther(u, n, g, h, f, e, rows, text, below);
    }
  }

  lemma FindsFirst(u: string, n: nat, f: nat, rows: seq<string>, text: string, below: seq<string>)
    requires TextAt(u, f, n) && text == u[f..n] && below == Below(u, n)
    requires rows != [] && Strip(rows[0]) == RStrip(text) && Strip(rows[0]) != "" && rows[1..] == below
    ensures Finds(u, f, n, rows, text, below)
  {}

  lemma FirstIsBelow(rows: seq<string>)
    requires rows != [] && Strip(rows[0]) == ""
    ensures FirstText(rows) == 1 + FirstText(rows[1..])
  {}

  lemma FindsFurther(u: string, n: nat, g: nat, h: nat, f: nat, e: nat, rows: seq<string>, text: string, below: seq<string>)
    requires n < |u| && u[n] == '\n' && Spaces(u, 0, n) && f == n + 1 + g && e == n + 1 + h
    requires rows != [] && Strip(rows[0]) == "" && Finds(u[n + 1..], g, h, rows[1..], text, below)
    ensures Finds(u, f, e, rows, text, below)
  {
    TextFurther(u, n, g, h, f, e);
    SliceFurther(u, n + 1, g, h, f, e);
    BelowFurther(u, n + 1, h, e);
    RowsFurther(rows, text, below);
  }

  lemma RowsFurther(rows: seq<string>, text: string, below: seq<string>)
    requires rows != [] && Strip(rows[0]) == "" && TextRow(rows[1..], text, below, FirstText(rows[1..]))
    ensures TextRow(rows, text, below, FirstText(rows))
  {
    FirstIsBelow(rows);
    RowFurther(rows, text, below, FirstText(rows[1..]), FirstText(rows));
  }

  lemma BlankRow(u: string, n: nat)
    requires n <= |u| && Strip(u[..n]) == ""
    ensures Spaces(u, 0, n)
  {
    AllSpaceStrips(u[..n]);
    assert forall k :: 0 <= k < n ==> u[k] == u[..n][k];
  }

  /** Below a blank row the text stands so much further. */
  lemma TextFurther(u: string, n: nat, g: nat, h: nat, f: nat, e: nat)
    requires n < |u| && Spaces(u, 0, n) && u[n] == '\n' && TextAt(u[n + 1..], g, h)
    requires f == n + 1 + g && e == n + 1 + h
    ensures TextAt(u, f, e)
  {
    var rest := u[n + 1..];
    assert forall i :: n < i < |u| ==> u[i] == rest[i - n - 1];
  }

  lemma RowFurther(rows: seq<string>, text: string, below: seq<string>, k: nat, next: nat)
    requires rows != [] && TextRow(rows[1..], text, below, k) && next == k + 1
    ensures TextRow(rows, text, below, next)
  {
    assert rows[1..][k + 1..] == rows[next + 1..];
  }

  lemma SliceFurther(u: string, n: nat, g: nat, h: nat, f: nat, e: nat)
    requires n <= |u| && g <= h <= |u| - n && f == n + g && e == n + h
    ensures u[n..][g..h] == u[f..e]
  {}

  lemma BelowFurther(u: string, n: nat, h: nat, e: nat)
    requires n <= |u| && h <= |u| - n && e == n + h
    ensures Below(u[n..], h) == Below(u, e)
  {
    if e < |u| { assert u[n..][h + 1..] == u[e + 1..]; }
  }

  // ----- a heading with text ---------------------------------------------------------------

  /** In front of text the matcher takes all the white space, the stripped text, and goes on behind its row. */
  lemma BestWithText(t: string, f: nat, e: nat, group: string) returns (b: nat, c: nat)
    requires |t| > 2 && t[..2] == "##" && IsSpace(t[2]) && TextAt(t[2..], f, e) && group == RStrip(t[2..][f..e])
    ensures Best(t, 2 + f, b, c) && t[2 + f..b] == group && 2 + e <= c && Spaces(t, 2 + e, c)
  {
    var u, text := t[2..], t[2..][f..e];
    assert forall i :: 0 <= i < |u| ==> u[i] == t[i + 2];
    RStripKeeps(text);
    var a := 2 + f;
    b := a + |group|;
    assert text[..|group|] == group && t[a..b] == group;
    assert f > 0 by { if f == 0 { assert u[0] == t[2]; } }
    assert forall i :: b <= i < 2 + e ==> t[i] == text[i - a];
    assert forall i :: a <= i < 2 + e ==> t[i] == u[i - 2] && t[i] != '\n';
    assert Match(t, a, b, 2 + e);
    c := MostSpace(t, b, 2 + e);
    assert !IsSpace(t[a]);
    assert t[b - 1] == group[|group| - 1];
    forall a': nat, b': nat, c': nat | Match(t, a', b', c') ensures Prefers(a, b, c, a', b', c') {
      SpaceAt(t, 2, a', a);
      SpaceAt(t, b', c', b - 1);
    }
  }

  /** The last place that white space from `b` reaches and that is an end. */
  lemma MostSpace(t: string, b: nat, e: nat) returns (c: nat)
    requires b <= e <= |t| && Spaces(t, b, e) && AtEnd(t, e)
    ensures e <= c <= |t| && Spaces(t, b, c) && AtEnd(t, c)
    ensures forall c': nat :: b <= c' <= |t| && Spaces(t, b, c') && AtEnd(t, c') ==> c' <= c
  {
    c := e;
    var n := e;
    while n < |t| && IsSpace(t[n])
      invariant e <= c <= n <= |t| && Spaces(t, b, n) && AtEnd(t, c)
      invariant forall c': nat :: b <= c' <= n && AtEnd(t, c') ==> c' <= c
    {
      n := n + 1;
      if n == |t| || t[n] == '\n' { c := n; }
    }
    forall c': nat | b <= c' <= |t| && Spaces(t, b, c') && AtEnd(t, c') ensures c' <= c {
      if n < |t| { SpaceAt(t, b, c', n); }
    }
  }

  /** What is found in the rows behind the one that ends at `e`. */
  ghost function FindBelow(t: string, e: nat): seq<string>
    requires e <= |t|
  {
    if e == |t| then [] else FindAll(t[e + 1..], true)
  }

  /** Behind the row of the text and the white space after it the search goes on with the rows below. */
  lemma GoesOnBelow(t: string, e: nat, c: nat)
    requires e <= c <= |t| && c > 0 && AtEnd(t, e) && AtEnd(t, c) && Spaces(t, e, c)
    ensures FindAll(t[c..], t[c - 1] == '\n') == FindBelow(t, e)
  {
    NoHash(t[c..]);
    var from := t[e..];
    assert forall k :: 0 <= k < |from| ==> from[k] == t[e + k];
    SkipSpaces(from, c - e);
    assert from[c - e..] == t[c..];
    SkipRow(from, 0);
    if e < |t| { assert from[1..] == t[e + 1..]; }
  }

  // ----- a heading without text ------------------------------------------------------------

  /** The last character that is no line feed. */
  function LastChar(v: string): seq<string> {
    if v == "" then []
    else if LastChar(v[1..]) != [] then LastChar(v[1..])
    else if v[0] == '\n' then []
    else [[v[0]]]
  }

  lemma {:induction false} LastBlankCons(row: string, rows: seq<string>)
    ensures LastBlank([row] + rows) ==
            if LastBlank(rows) != [] then LastBlank(rows) else if row == "" then [] else [[row[|row| - 1]]]
    decreases |rows|
  {
    var all := [row] + rows;
    if rows == [] {
      assert all[..|all| - 1] == [];
    } else {
      assert all[|all| - 1] == rows[|rows| - 1] && all[..|all| - 1] == [row] + rows[..|rows| - 1];
      LastBlankCons(row, rows[..|rows| - 1]);
    }
  }

  lemma {:induction false} LastBlankIs(v: string)
    ensures LastBlank(Rows(v)) == LastChar(v)
    decreases |v|
  {
    if v == "" {
      assert [""][..0] == [];
    } else {
      var rest := Rows(v[1..]);
      LastBlankIs(v[1..]);
      if v[0] == '\n' {
        LastBlankCons("", rest);
      } else {
        LastBlankCons(rest[0], rest[1..]);
        LastBlankCons([v[0]] + rest[0], rest[1..]);
        assert [rest[0]] + rest[1..] == rest;
      }
    }
  }

  lemma {:induction false} LastCharAt(v: string) returns (a: nat)
    requires LastChar(v) != []
    ensures a < |v| && v[a] != '\n' && LastChar(v) == [[v[a]]] && forall i :: a < i < |v| ==> v[i] == '\n'
    decreases |v|
  {
    if LastChar(v[1..]) != [] {
      a := LastCharAt(v[1..]);
      a := a + 1;
    } else {
      a := 0;
      NoLastChar(v[1..]);
    }
    assert forall i :: 0 < i < |v| ==> v[i] == v[1..][i - 1];
  }

  lemma {:induction false} NoLastChar(v: string)
    requires LastChar(v) == []
    ensures forall i :: 0 <= i < |v| ==> v[i] == '\n'
    decreases |v|
  {
    if v != "" {
      NoLastChar(v[1..]);
      assert forall i :: 0 < i < |v| ==> v[i] == v[1..][i - 1];
    }
  }

  /** With white space alone behind the hashes, the group is its last character, if one can be spared. */
  lemma WithoutText(t: string)
    requires |t| > 2 && t[..2] == "##" && Spaces(t, 2, |t|)
    ensures FindAll(t, true) == LastChar(t[3..])
  {
    var v := t[3..];
    assert forall i :: 0 <= i < |v| ==> v[i] == t[i + 3];
    if LastChar(v) != [] {
      var i := LastCharAt(v);
      var a := i + 3;
      assert t[a..a + 1] == [v[i]];
      assert forall k :: a < k < |t| ==> t[k] == v[k - 3];
      assert Match(t, a, a + 1, |t|);
      forall a': nat, b': nat, c': nat | Match(t, a', b', c') ensures Prefers(a, a + 1, |t|, a', b', c') {
        assert t[a'] == v[a' - 3];
      }
      BestIsFound(t, a, a + 1, |t|);
      assert t[|t|..] == "";
    } else {
      NoLastChar(v);
      assert forall i :: 3 <= i < |t| ==> t[i] == v[i - 3] == '\n';
      forall a: nat, b: nat, c: nat ensures !Match(t, a, b, c) {
        MatchStarts(t, a, b, c);
      }
      NoBestGoesOn(t);
      NoHashes(t);
    }
  }

  lemma NoHashes(t: string)
    requires |t| > 2 && t[..2] == "##" && Spaces(t, 2, |t|)
    ensures FindAll(t, false) == []
  {
    assert t[0] == t[..2][0] == '#' && t[1] == t[..2][1] == '#';
    var u := t[1..][1..];
    assert u == t[2..] && t[1..] != "" && t[1..][0] == '#';
    assert forall i :: 0 <= i < |u| ==> u[i] == t[i + 2];
    assert FindAll(t, false) == FindAll(t[1..], false) == FindAll(u, false);
    SkipSpaces(u, |u|);
    assert u[|u|..] == "";
  }

  // ----- the scan finds what the pattern finds ---------------------------------------------

  lemma {:induction false} NoText(u: string)
    requires FirstText(Rows(u)) == |Rows(u)|
    ensures Spaces(u, 0, |u|)
    decreases |u|
  {
    var n := RowEnd(u);
    RowsAre(u, n);
    assert Rows(u)[0] == u[..n] && Rows(u)[1..] == Below(u, n);
    AllSpaceStrips(u[..n]);
    assert Spaces(u[..n], 0, n);
    assert forall k :: 0 <= k < n ==> u[k] == u[..n][k];
    if n < |u| {
      NoText(u[n + 1..]);
      assert forall k :: n < k < |u| ==> u[k] == u[n + 1..][k - n - 1];
    }
  }

  /** A row opens a heading exactly where two hashes and white space stand. */
  lemma OpensIs(t: string)
    ensures Opens(Rows(t)) <==> |t| > 2 && t[..2] == "##" && IsSpace(t[2])
  {
    var n := RowEnd(t);
    RowsAre(t, n);
    var row := t[..n];
    assert Rows(t)[0] == row;
    if Headed(row) {
      assert t[..2] == row[..2] == "##";
      if n > 2 { assert row[2] == t[2]; }
    }
    if |t| > 2 && t[..2] == "##" {
      assert t[0] == t[..2][0] && t[1] == t[..2][1];
      assert n >= 2 && row[..2] == "##";
      if n > 2 { assert row[2] == t[2]; }
    }
  }

  /** The rows behind the hashes. */
  lemma RowsBehind(t: string)
    requires |t| > 2 && t[..2] == "##"
    ensures Rows(t)[0] != "" && |Rows(t)[0]| >= 2 && Rows(t[2..]) == [Rows(t)[0][2..]] + Rows(t)[1..]
  {
    var n, u := RowEnd(t), t[2..];
    assert t[0] == t[..2][0] && t[1] == t[..2][1];
    RowsAre(t, n);
    assert n >= 2;
    assert forall k :: 0 <= k < |u| ==> u[k] == t[k + 2];
    RowsAre(u, n - 2);
    assert t[..n][2..] == u[..n - 2];
    if n < |t| { assert u[n - 1..] == t[n + 1..]; }
  }

  /** The rows behind the hashes and one character of white space. */
  lemma RowsSpared(u: string)
    requires u != ""
    ensures Rows(u[1..]) == (if Rows(u)[0] == "" then [] else [Rows(u)[0][1..]]) + Rows(u)[1..]
  {
    var rest := Rows(u[1..]);
    if u[0] == '\n' {
      assert Rows(u) == [""] + rest && Rows(u)[1..] == rest && [] + rest == rest;
    } else {
      assert Rows(u)[0][1..] == rest[0] && Rows(u)[1..] == rest[1..] && [rest[0]] + rest[1..] == rest;
    }
  }

  /** Row by row the scan finds what the pattern finds in the text. */
  lemma {:induction false} ScanFindsAll(t: string)
    ensures Found(Rows(t)) == FindAll(t, true)
    decreases |t|, 2
  {
    var n, rows := RowEnd(t), Rows(t);
    RowsAre(t, n);
    OpensIs(t);
    if !Opens(rows) {
      forall a: nat, b: nat, c: nat ensures !Match(t, a, b, c) {
        MatchStarts(t, a, b, c);
      }
      NoBestGoesOn(t);
      SkipRow(t, n);
      assert rows[1..] == Below(t, n);
      if n < |t| { ScanFindsAll(t[n + 1..]); }
    } else {
      var u := t[2..];
      RowsBehind(t);
      var below := Rows(u);
      assert below == [rows[0][2..]] + rows[1..];
      if FirstText(below) < |below| {
        ScanWithText(t);
      } else {
        NoText(u);
        assert forall i :: 2 <= i < |t| ==> t[i] == u[i - 2];
        WithoutText(t);
        RowsSpared(u);
        assert u[1..] == t[3..] && below[1..] == rows[1..];
        LastBlankIs(t[3..]);
      }
    }
  }

  lemma FoundWithText(rows: seq<string>, below: seq<string>, k: nat)
    requires Opens(rows) && below == [rows[0][2..]] + rows[1..] && k == FirstText(below) < |below|
    ensures Found(rows) == [Strip(below[k])] + Found(below[k + 1..])
  {
    RestSame(rows, below, k);
    assert Found(rows) == [Strip(below[k])] + Found(rows[k + 1..]);
  }

  lemma RestSame(rows: seq<string>, below: seq<string>, k: nat)
    requires rows != [] && |below| == |rows| && below[1..] == rows[1..] && k < |below|
    ensures below[k + 1..] == rows[k + 1..]
  {
    assert forall i :: 0 < i < |below| ==> below[i] == below[1..][i - 1];
    assert forall i :: 0 < i < |rows| ==> rows[i] == rows[1..][i - 1];
  }

  /** The pattern finds the text and goes on below its row. */
  lemma TextIsFound(t: string, a: nat, b: nat, c: nat, e: nat, group: string)
    requires Best(t, a, b, c) && t[a..b] == group && e <= c && Spaces(t, e, c) && AtEnd(t, e)
    ensures FindAll(t, true) == [group] + FindBelow(t, e)
  {
    BestIsFound(t, a, b, c);
    GoesOnBelow(t, e, c);
  }

  /** The rows below are scanned for what the pattern finds in them. */
  lemma {:induction false} ScanBelow(t: string, e: nat)
    requires |t| > 2 && e <= |t| - 2
    ensures Found(Below(t[2..], e)) == FindBelow(t, 2 + e)
    decreases |t|, 0
  {
    if e < |t| - 2 {
      assert t[2..][e + 1..] == t[2 + e + 1..];
      ScanFindsAll(t[2 + e + 1..]);
    }
  }

  lemma {:induction false} ScanWithText(t: string)
    requires |t| > 2 && t[..2] == "##" && IsSpace(t[2]) && FirstText(Rows(t[2..])) < |Rows(t[2..])|
    requires Opens(Rows(t)) && Rows(t[2..]) == [Rows(t)[0][2..]] + Rows(t)[1..]
    ensures Found(Rows(t)) == FindAll(t, true)
    decreases |t|, 1
  {
    var u := t[2..];
    FoundWithText(Rows(t), Rows(u), FirstText(Rows(u)));
    var f, e, text, below := FindText(u, Rows(u));
    assert Found(Rows(t)) == [RStrip(text)] + Found(below);
    var b, c := BestWithText(t, f, e, RStrip(text));
    EndBehind(t, e);
    TextIsFound(t, 2 + f, b, c, 2 + e, RStrip(text));
    ScanBelow(t, e);
  }

  lemma EndBehind(t: string, e: nat)
    requires |t| > 2 && e <= |t| - 2 && AtEnd(t[2..], e)
    ensures AtEnd(t, 2 + e) && (e < |t| - 2 ==> t[2..][e + 1..] == t[2 + e + 1..])
  {}
}
