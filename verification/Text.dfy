/** Text as the C library and the shell see it: search, blanks, splitting. */
module Text {

  /** isblank. */
  predicate Blank(c: char) {
    c == ' ' || c == '\t'
  }

  /** The position of the first c in s at or after i, or |s|: strchr. */
  function Find(s: string, c: char, i: nat := 0): (k: nat)
    requires i <= |s|
    ensures i <= k <= |s|
    ensures forall j :: i <= j < k ==> s[j] != c
    ensures k < |s| ==> s[k] == c
    decreases |s| - i
  {
    if i < |s| && s[i] != c then Find(s, c, i + 1) else i
  }

  /** There is only one first position. */
  lemma FindIs(s: string, c: char, i: nat, k: nat)
    requires i <= k <= |s|
    requires forall j :: i <= j < k ==> s[j] != c
    requires k < |s| ==> s[k] == c
    ensures Find(s, c, i) == k
    decreases k - i
  {
    if i < k {
      FindIs(s, c, i + 1, k);
    }
  }

  /** pat occurs in s at position o. */
  predicate At(s: string, pat: string, o: nat) {
    o + |pat| <= |s| && s[o..o + |pat|] == pat
  }

  /** strstr found something; grep with a pattern free of special characters matched. */
  predicate Contains(s: string, pat: string) {
    exists o :: 0 <= o <= |s| && At(s, pat, o)
  }

  /** The pieces of s between separators, empty ones included. */
  function Split(s: string, sep: char): (r: seq<string>)
    ensures |r| > 0
  {
    var k := Find(s, sep);
    if k == |s| then [s] else [s[..k]] + Split(s[k + 1..], sep)
  }

  function Join(parts: seq<string>, sep: char): (r: string)
    requires |parts| > 0
  {
    if |parts| == 1 then parts[0] else parts[0] + [sep] + Join(parts[1..], sep)
  }

  /** The first separator of a joined text ends its first part. */
  lemma FindFirst(part: string, sep: char, rest: string)
    requires sep !in part
    ensures var s := part + [sep] + rest;
            Find(s, sep) == |part| && s[..|part|] == part && s[|part| + 1..] == rest
  {
    var s := part + [sep] + rest;
    assert forall j :: 0 <= j < |part| ==> s[j] == part[j];
    FindIs(s, sep, 0, |part|);
  }

  lemma SplitFirst(part: string, sep: char, rest: string)
    requires sep !in part
    ensures Split(part + [sep] + rest, sep) == [part] + Split(rest, sep)
  {
    FindFirst(part, sep, rest);
  }

  lemma ContainsPrefix(text: string, more: string, pat: string)
    requires Contains(text, pat)
    ensures Contains(text + more, pat)
  {
    var o :| 0 <= o <= |text| && At(text, pat, o);
    assert (text + more)[o..o + |pat|] == text[o..o + |pat|];
    assert At(text + more, pat, o);
  }

  lemma SplitLast(part: string, sep: char)
    requires sep !in part
    ensures Split(part, sep) == [part]
  {
    FindIs(part, sep, 0, |part|);
  }

  lemma SplitWord(w: string, rest: string)
    requires ' ' !in w
    ensures Split(w + (" " + rest), ' ') == [w] + Split(rest, ' ')
  {
    assert w + (" " + rest) == w + [' '] + rest;
    SplitFirst(w, ' ', rest);
  }

  lemma SplitTwo(a: string, c: string, tail: string, pieces: seq<string>)
    requires ' ' !in a && ' ' !in c && Split(tail, ' ') == pieces
    ensures Split(a + (" " + (c + (" " + tail))), ' ') == [a, c] + pieces
  {
    SplitWord(c, tail);
    SplitWord(a, c + (" " + tail));
  }

  /** Splitting what was joined gives the parts back, if none contains the separator. */
  lemma {:induction false} SplitJoin(parts: seq<string>, sep: char)
    requires |parts| > 0 && forall p :: p in parts ==> sep !in p
    ensures Split(Join(parts, sep), sep) == parts
  {
    if |parts| == 1 {
      SplitLast(parts[0], sep);
    } else {
      SplitFirst(parts[0], sep, Join(parts[1..], sep));
      SplitJoin(parts[1..], sep);
    }
  }

  /** tr [a-z] [A-Z], one character. */
  function UpperChar(c: char): (r: char) {
    if 'a' <= c <= 'z' then (c as int - 32) as char else c
  }

  function Upper(s: string): (r: string)
    ensures |r| == |s| && forall i :: 0 <= i < |s| ==> r[i] == UpperChar(s[i])
  {
    seq(|s|, i requires 0 <= i < |s| => UpperChar(s[i]))
  }

  lemma UpperOfLetters(c: char)
    ensures Upper("abcdefghijklmnopqrstuvwxyz") == "ABCDEFGHIJKLMNOPQRSTUVWXYZ"
    ensures !('a' <= c <= 'z') ==> UpperChar(c) == c
  {
  }

  /** strcasecmp(a, b) == 0. */
  predicate SameIgnoringCase(a: string, b: string) {
    Upper(a) == Upper(b)
  }

  lemma SameIgnoringCaseIs(a: string, b: string)
    ensures SameIgnoringCase(a, b) <==>
            |a| == |b| && forall i :: 0 <= i < |a| ==> UpperChar(a[i]) == UpperChar(b[i])
  {
    if |a| == |b| && forall i :: 0 <= i < |a| ==> UpperChar(a[i]) == UpperChar(b[i]) {
      assert Upper(a) == Upper(b);
    } else if |a| == |b| {
      var i :| 0 <= i < |a| && UpperChar(a[i]) != UpperChar(b[i]);
      assert Upper(a)[i] != Upper(b)[i];
    }
  }

  /** What fgets with a buffer of the given size reads first. */
  function TakeLine(text: string, size: nat): (line: string)
    requires size >= 2
    ensures line <= text && |line| <= size - 1 && (text != "" ==> line != "")
  {
    var k := Find(text, '\n');
    var n := if k < |text| then k + 1 else |text|;
    text[..if n <= size - 1 then n else size - 1]
  }

  /** A line that does not fit the buffer is taken in pieces. */
  lemma TakeLineCut(text: string, size: nat)
    requires size >= 2 && |text| >= size - 1 && '\n' !in text[..size - 1]
    ensures TakeLine(text, size) == text[..size - 1]
  {
    assert forall j :: 0 <= j < size - 1 ==> text[j] == text[..size - 1][j];
  }

  /** fgets takes exactly the first line of a text, if it fits the buffer. */
  lemma TakeLineOf(line: string, rest: string, size: nat)
    requires line != "" && line[|line| - 1] == '\n' && '\n' !in line[..|line| - 1] && |line| <= size - 1
    ensures TakeLine(line + rest, size) == line
    ensures (line + rest)[|line|..] == rest
  {
    var text := line + rest;
    var k := |line| - 1;
    forall j | 0 <= j < k ensures text[j] != '\n' {
      assert text[j] == line[..k][j];
    }
    FindIs(text, '\n', 0, k);
    assert text[..|line|] == line;
  }
}
