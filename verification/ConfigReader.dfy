/** config_read and its helpers as they work on the line buffer: strings are cut in place by writing zeros,
    and words are found by moving positions along the buffer. */
module ConfigReader {
  import opened Limits
  import opened Wrappers
  import opened Text
  import opened AcServers
  import opened ConfigText

  /** The buffer holds s and is zero behind it. */
  ghost predicate Padded(l: array<char>, s: string)
    reads l
  {
    && |s| < l.Length && '\0' !in s
    && (forall j :: 0 <= j < |s| ==> l[j] == s[j])
    && (forall j :: |s| <= j < l.Length ==> l[j] == '\0')
  }

  /** The buffer holds s with zeros written over the positions t to e. */
  ghost predicate CutOut(l: array<char>, s: string, t: nat, e: nat)
    reads l
  {
    && |s| < l.Length && '\0' !in s
    && (forall j :: 0 <= j < |s| ==> l[j] == if t <= j <= e then '\0' else s[j])
    && (forall j :: |s| <= j < l.Length ==> l[j] == '\0')
  }

  /** strchr on the string that starts at position i: where c stands, or -1. */
  method StrChr(line: array<char>, i: nat, c: char, ghost s: string) returns (k: int)
    requires |s| < line.Length && '\0' !in s && line[..|s|] == s && line[|s|] == '\0' && i <= |s| && c != '\0'
    ensures k == if Find(s, c, i) < |s| then Find(s, c, i) else -1
  {
    k := i;
    while line[k] != '\0' && line[k] != c
      invariant i <= k <= |s|
      invariant forall j :: i <= j < k ==> s[j] != c
      decreases |s| - k
    {
      assert line[k] == line[..|s|][k];
      k := k + 1;
    }
    FindIs(s, c, i, k);
    if line[k] == '\0' {
      k := -1;
    }
  }

  /** The string at position i of the buffer, copied: safe_strdup. */
  method StrDup(line: array<char>, i: nat, ghost end: nat) returns (r: string)
    requires i <= end < line.Length && line[end] == '\0' && forall j :: i <= j < end ==> line[j] != '\0'
    ensures r == line[i..end]
  {
    r := "";
    var k := i;
    while line[k] != '\0'
      invariant i <= k <= end && r == line[i..k]
      decreases end - k
    {
      r := r + [line[k]];
      k := k + 1;
    }
  }

  /** Where the line is to be cut, or -1. */
  method FindCut(line: array<char>, p1: nat, ghost s: string) returns (p2: int)
    requires line.Length == MAX_BUF && Padded(line, s) && p1 <= |s|
    ensures p2 == if CutAt(s, p1) < |s| then CutAt(s, p1) else -1
  {
    assert line[..|s|] == s;
    p2 := StrChr(line, p1, '#', s);
    if p2 == -1 {
      p2 := StrChr(line, p1, '\r', s);
      if p2 == -1 {
        p2 := StrChr(line, p1, '\n', s);
      }
    }
  }

  /** Write zeros over the blanks from position from down to p1 + 1. */
  method TrimFrom(line: array<char>, p1: nat, from: int, ghost s: string, ghost e: nat)
    requires line.Length == MAX_BUF && p1 <= e <= |s| <= MAX_BUF - 2
    requires CutOut(line, s, e, e) && from == if e < |s| then e - 1 else MAX_BUF - 2
    modifies line
    ensures CutOut(line, s, if e < |s| then TrimEnd(s, p1, e) else |s|, e)
  {
    var p2 := from;
    while p2 > p1 && Blank(line[p2])
      invariant p2 <= from && (e == |s| ==> p2 == from)
      invariant e < |s| ==> (p2 >= p1 || p2 == from)
      invariant CutOut(line, s, if e < |s| then p2 + 1 else e, e)
      invariant e < |s| ==> forall j :: p2 < j < e ==> Blank(s[j])
      decreases p2
    {
      line[p2] := '\0';
      p2 := p2 - 1;
    }
    if p1 < e < |s| {
      TrimEndIs(s, p1, e, p2 + 1);
    }
  }

  /** Cut the line at its comment or its end, and trim the blanks before the cut. */
  method CutLine(line: array<char>, p1: nat, ghost s: string)
    requires line.Length == MAX_BUF && |s| <= MAX_BUF - 2 && Padded(line, s) && p1 <= |s|
    modifies line
    ensures CutOut(line, s, KeptEnd(s, p1), CutAt(s, p1))
  {
    var p2 := FindCut(line, p1, s);
    if p2 != -1 {
      line[p2] := '\0';
      TrimFrom(line, p1, p2 - 1, s, p2);
    } else {
      TrimFrom(line, p1, MAX_BUF - 2, s, |s|);
    }
  }

  /** The first position from i on without a blank. */
  method SkipBlanksFrom(line: array<char>, i: nat, ghost end: nat) returns (k: nat)
    requires i <= end < line.Length && line[end] == '\0'
    ensures i <= k <= end && !Blank(line[k]) && forall j :: i <= j < k ==> Blank(line[j])
  {
    k := i;
    while Blank(line[k])
      invariant i <= k <= end
      invariant forall j :: i <= j < k ==> Blank(line[j])
      decreases end - k
    {
      k := k + 1;
    }
  }

  /** The end of the word that starts at i. */
  method WordEndFrom(line: array<char>, i: nat, ghost end: nat) returns (k: nat)
    requires i <= end < line.Length && line[end] == '\0' && forall j :: i <= j < end ==> line[j] != '\0'
    ensures i <= k <= end && (k < end ==> Blank(line[k])) && forall j :: i <= j < k ==> !Blank(line[j])
  {
    k := i;
    while line[k] != '\0' && !Blank(line[k])
      invariant i <= k <= end
      invariant forall j :: i <= j < k ==> !Blank(line[j])
      decreases end - k
    {
      k := k + 1;
    }
  }

  /** The scan for the value behind the keyword that ends at w. */
  method ValueBehind(line: array<char>, w: nat, ghost s: string, ghost t: nat, ghost e: nat) returns (value: string)
    requires line.Length == MAX_BUF && |s| <= MAX_BUF - 2 && w <= t <= e <= |s| && (e == |s| ==> t == e)
    requires '\0' !in s
    requires forall j :: w < j < |s| ==> line[j] == if t <= j <= e then '\0' else s[j]
    requires forall j :: |s| <= j < MAX_BUF ==> line[j] == '\0'
    ensures value == ValueAfter(s, w, t, e)
  {
    ghost var end := if w < t then t else if t == e < |s| then |s| else w + 1;
    var p2 := SkipBlanksFrom(line, w + 1, end);
    value := StrDup(line, p2, end);
    if w < t {
      SkipBlanksIs(s, w + 1, t, p2);
      SameSlice(line, s, p2, t);
      assert ValueAfter(s, w, t, e) == s[p2..t];
    } else if t == e < |s| {
      SkipBlanksIs(s, e + 1, |s|, p2);
      SameSlice(line, s, p2, |s|);
      assert ValueAfter(s, w, t, e) == s[p2..] == s[p2..|s|];
    } else {
      assert line[p2..end] == "";
    }
  }

  /** Terminate the keyword and find the value. */
  method SplitLine(line: array<char>, p1: nat, ghost s: string, ghost t: nat, ghost e: nat)
    returns (key: string, value: string)
    requires line.Length == MAX_BUF && |s| <= MAX_BUF - 2 && p1 < t <= e <= |s| && (e == |s| ==> t == e)
    requires CutOut(line, s, t, e)
    modifies line
    ensures var w := WordEnd(s, p1, t);
            key == s[p1..w] && value == ValueAfter(s, w, t, e)
  {
    var w := WordEndFrom(line, p1, t);
    WordEndIs(s, p1, t, w);
    line[w] := '\0';
    key := StrDup(line, p1, w);
    assert key == s[p1..w];
    value := ValueBehind(line, w, s, t, e);
  }

  lemma SameSlice(line: array<char>, s: string, i: nat, k: nat)
    requires i <= k <= |s| && k <= line.Length && forall j :: i <= j < k ==> line[j] == s[j]
    ensures line[i..k] == s[i..k]
  {
  }

  /** One line of a server block. */
  method ParseBlockLine(line: array<char>, ghost s: string) returns (r: Option<(string, string)>)
    requires line.Length == MAX_BUF && |s| <= MAX_BUF - 2 && Padded(line, s)
    modifies line
    ensures r == BlockFields(s)
  {
    var p1 := SkipBlanksFrom(line, 0, |s|);
    SkipBlanksIs(s, 0, |s|, p1);
    CutLine(line, p1, s);
    ghost var e, t := CutAt(s, p1), KeptEnd(s, p1);
    if line[p1] == '\0' {
      return None;
    }
    var key, value := SplitLine(line, p1, s, t, e);
    r := Some((key, value));
  }

  /** fgets: the next line of the text, or the part of it that fits. */
  method Fgets(text: string, pos: nat, line: array<char>, size: nat) returns (next: nat)
    requires pos < |text| && '\0' !in text && 2 <= size <= line.Length
    modifies line
    ensures var s := TakeLine(text[pos..], size);
            && next == pos + |s| <= |text| && '\0' !in s && s != ""
            && (forall j :: 0 <= j < |s| ==> line[j] == s[j])
            && line[|s|] == '\0'
            && (forall j :: |s| < j < line.Length ==> line[j] == old(line[j]))
  {
    ghost var t := text[pos..];
    var i, done := 0, false;
    while i < size - 1 && pos + i < |text| && !done
      invariant 0 <= i <= size - 1 && pos + i <= |text|
      invariant forall j :: 0 <= j < i ==> line[j] == t[j]
      invariant forall j :: i <= j < line.Length ==> line[j] == old(line[j])
      invariant if done then i > 0 && t[i - 1] == '\n' && '\n' !in t[..i - 1] else '\n' !in t[..i]
      decreases size - i, !done
    {
      line[i] := text[pos + i];
      done := text[pos + i] == '\n';
      i := i + 1;
    }
    line[i] := '\0';
    next := pos + i;
    if done {
      FindIs(t, '\n', 0, i - 1);
    } else if pos + i == |text| {
      FindIs(t, '\n', 0, i);
    } else {
      NoNewlineYet(t, i);
    }
    assert TakeLine(t, size) == t[..i];
  }

  lemma NoNewlineYet(t: string, i: nat)
    requires i <= |t| && '\n' !in t[..i]
    ensures Find(t, '\n') >= i
  {
    assert forall j :: 0 <= j < i ==> t[j] == t[..i][j];
  }

  /** Only ' ' is skipped. */
  method SkipSpacesFrom(line: array<char>, i: nat, ghost l: string) returns (k: nat)
    requires i <= |l| < line.Length && '\0' !in l && line[|l|] == '\0' && forall j :: i <= j < |l| ==> line[j] == l[j]
    ensures k == SkipSpaces(l, i)
  {
    k := i;
    while line[k] != '\0' && line[k] == ' '
      invariant i <= k <= |l|
      invariant SkipSpaces(l, k) == SkipSpaces(l, i)
      decreases |l| - k
    {
      k := k + 1;
    }
  }

  /** The end of the token: the first ' ' of the line, else its first tab. */
  method FindTokenEnd(line: array<char>, ghost l: string) returns (p1: int)
    requires |l| < line.Length && '\0' !in l && line[|l|] == '\0' && forall j :: 0 <= j < |l| ==> line[j] == l[j]
    ensures var b := if Find(l, ' ') < |l| then Find(l, ' ') else Find(l, '\t');
            p1 == if b < |l| then b else -1
  {
    assert line[..|l|] == l;
    p1 := StrChr(line, 0, ' ', l);
    if p1 == -1 {
      p1 := StrChr(line, 0, '\t', l);
    }
  }

  /** Cut behind the token, skip spaces, copy the rest, cut the value. */
  method SplitTopLine(line: array<char>, ghost l: string) returns (r: Option<(string, string, string)>)
    requires |l| < line.Length && '\0' !in l && line[|l|] == '\0' && forall j :: 0 <= j < |l| ==> line[j] == l[j]
    modifies line
    ensures r == LineFields(l)
  {
    var p1 := FindTokenEnd(line, l);
    if p1 == -1 {
      return None;
    }
    line[p1] := '\0';
    var token := StrDup(line, 0, p1);
    assert token == l[..p1];
    var v := SkipSpacesFrom(line, p1 + 1, l);
    var rawarg := StrDup(line, v, |l|);
    assert rawarg == l[v..];
    var value := CutValue(line, v, l);
    r := Some((token, rawarg, value));
  }

  /** A line outside blocks: strip the newline, then split. */
  method ParseTopLine(line: array<char>, len: nat, ghost s: string) returns (r: Option<(string, string, string)>)
    requires 0 < len == |s| < line.Length && '\0' !in s && line[len] == '\0'
    requires forall j :: 0 <= j < len ==> line[j] == s[j]
    modifies line
    ensures r == TopFields(s)
  {
    ghost var n := if s[len - 1] == '\n' then len - 1 else len;
    if line[len - 1] == '\n' {
      line[len - 1] := '\0';
    }
    r := SplitTopLine(line, s[..n]);
  }

  method CutValue(line: array<char>, v: nat, ghost l: string) returns (value: string)
    requires v <= |l| < line.Length && '\0' !in l && line[|l|] == '\0' && forall j :: v <= j < |l| ==> line[j] == l[j]
    modifies line
    ensures value == l[v..Find(l, ' ', v)]
  {
    var p2 := v;
    while line[p2] != '\0' && line[p2] != ' '
      invariant v <= p2 <= |l|
      invariant forall j :: v <= j < p2 ==> l[j] != ' '
      decreases |l| - p2
    {
      p2 := p2 + 1;
    }
    FindIs(l, ' ', v, p2);
    line[p2] := '\0';
    value := StrDup(line, v, p2);
    assert value == l[v..p2];
  }

  // ----- The popular servers -----

  method ParsePopularServers(config: Config, ptr: string)
    modifies config`popularServers
    ensures config.popularServers == AddNames(Split(ptr, ','), old(config.popularServers))
  {
    var rest := Some(ptr);
    ghost var pieces := Split(ptr, ',');
    while rest.Some?
      invariant pieces == if rest.Some? then Split(rest.value, ',') else []
      invariant AddNames(pieces, config.popularServers) == AddNames(Split(ptr, ','), old(config.popularServers))
      decreases rest.Some?, if rest.Some? then |rest.value| else 0
    {
      // strsep: the piece up to the next comma, and the text behind it.
      var k := Find(rest.value, ',');
      assert k == |rest.value| ==> rest.value[..k] == rest.value;
      var hostname := rest.value[..k];
      rest := if k < |rest.value| then Some(rest.value[k + 1..]) else None;
      assert pieces[0] == hostname && pieces[1..] == if rest.Some? then Split(rest.value, ',') else [];
      var name := NameIn(hostname);
      if name != "" {
        config.popularServers := [name] + config.popularServers;
      } else {
        assert [] + config.popularServers == config.popularServers;
      }
      pieces := pieces[1..];
    }
  }

  // ----- Blocks and files -----

  function Infos(s: seq<AcServer>): (r: seq<ServerInfo>) {
    seq(|s|, i requires 0 <= i < |s| => s[i].info)
  }

  /** One round of the loop over the lines of a block: whether it goes on, and with which fields. */
  method BlockRound(text: string, pos: nat, b: Block, line: array<char>)
    returns (open: bool, b': Option<Block>, next: nat)
    requires pos < |text| && '\0' !in text && line.Length == MAX_BUF
    modifies line
    ensures pos < next <= |text| && (open ==> b'.Some?)
    ensures ReadBlock(text[pos..], b) == if open then ReadBlock(text[next..], b'.value) else (b', text[next..])
  {
    ghost var rest := text[pos..];
    ghost var s := TakeLine(rest, MAX_BUF - 1);
    Clear(line);
    next := Fgets(text, pos, line, MAX_BUF - 1);
    assert rest[|s|..] == text[next..];
    var brace := HasChar(line, s, '}');
    if brace {
      return false, Some(b), next;
    }
    var fields := ParseBlockLine(line, s);
    b' := if fields.Some? then Assign(b, ParseToken(fields.value.0), fields.value.1) else Some(b);
    open := b'.Some?;
  }

  method ReadBlockLines(text: string, pos: nat) returns (b: Option<Block>, next: nat)
    requires pos <= |text| && '\0' !in text
    ensures next <= |text| && (b, text[next..]) == ReadBlock(text[pos..], NEW_BLOCK)
  {
    var line := new char[MAX_BUF];
    b, next := Some(NEW_BLOCK), pos;
    var open := true;
    while open && next < |text|
      invariant pos <= next <= |text|
      invariant open ==> b.Some?
      invariant ReadBlock(text[pos..], NEW_BLOCK)
             == if open then ReadBlock(text[next..], b.value) else (b, text[next..])
      decreases |text| - next
    {
      open, b, next := BlockRound(text, next, b.value, line);
    }
    if open {
      assert text[next..] == "";
    }
  }

  /** memset. */
  method Clear(line: array<char>)
    modifies line
    ensures forall j :: 0 <= j < line.Length ==> line[j] == '\0'
  {
    forall j | 0 <= j < line.Length {
      line[j] := '\0';
    }
  }

  /** strchr(line, c) != NULL. */
  method HasChar(line: array<char>, ghost s: string, c: char) returns (found: bool)
    requires Padded(line, s) && c != '\0'
    ensures found == (c in s)
  {
    assert line[..|s|] == s;
    var k := StrChr(line, 0, c, s);
    found := k != -1;
  }

  /** parse_ac_server: read the block, and append a node for it unless it names no host. */
  method ParseAcServer(config: Config, text: string, pos: nat) returns (ok: bool, next: nat)
    requires config.Valid() && pos <= |text| && '\0' !in text
    modifies config`acServers, config`Spine, config`Position, config`Nodes, config.Nodes`next
    ensures config.Valid() && fresh(config.Nodes - old(config.Nodes)) && next <= |text|
    ensures var (b, rest) := ReadBlock(text[pos..], NEW_BLOCK);
            && ok == b.Some? && text[next..] == rest
            && Infos(config.Spine) == Infos(old(config.Spine)) + if ok then ServerOf(b.value) else []
  {
    var b;
    b, next := ReadBlockLines(text, pos);
    ok := b.Some?;
    if ok && b.value.host.Some? {
      var node := new AcServer(ServerInfo(b.value.host.value, b.value.pingPath, b.value.resultPath, b.value.port));
      config.Append(node);
    }
  }

  /** Everything that has been read, as the specification lists it. */
  ghost function Now(config: Config, scalars: Scalars): (r: Settings)
    reads config
  {
    Settings(Infos(config.Spine), config.popularServers, scalars)
  }

  /** Read and split the next line outside blocks. */
  method NextTopLine(text: string, pos: nat, line: array<char>)
    returns (fields: Option<(string, string, string)>, next: nat)
    requires pos < |text| && '\0' !in text && line.Length == MAX_BUF
    modifies line
    ensures var s := TakeLine(text[pos..], MAX_BUF);
            pos < next == pos + |s| <= |text| && fields == TopFields(s) && text[next..] == text[pos..][|s|..]
  {
    next := Fgets(text, pos, line, MAX_BUF);
    ghost var s := TakeLine(text[pos..], MAX_BUF);
    assert text[next..] == text[pos..][|s|..];
    fields := ParseTopLine(line, next - pos, s);
  }

  /** The switch over the option of a line. */
  method HandleOption(config: Config, op: OpCode, rawarg: string, value: string, text: string, pos: nat,
                      scalars: Scalars)
    returns (ok: bool, scalars': Scalars, next: nat)
    requires config.Valid() && pos <= |text| && '\0' !in text
    modifies config, config.Nodes`next
    ensures config.Valid() && fresh(config.Nodes - old(config.Nodes)) && next <= |text|
    ensures Handle(op, rawarg, value, text[pos..], old(Now(config, scalars)))
         == if ok then Some((Now(config, scalars'), text[next..])) else None
  {
    ok, scalars', next := true, scalars, pos;
    if op == AcServerBlock {
      ok, next := ParseAcServer(config, text, pos);
    } else if op == PopularServers {
      ParsePopularServers(config, rawarg);
    } else if IsScalar(op) {
      scalars' := SetScalar(scalars, op, value);
    } else {
      ok := false;
    }
  }

  /** One round of the loop over the file; ok says that the program has not exited. */
  method TopRound(config: Config, text: string, pos: nat, line: array<char>, scalars: Scalars)
    returns (ok: bool, scalars': Scalars, next: nat)
    requires config.Valid() && pos < |text| && '\0' !in text && line.Length == MAX_BUF
    modifies config, config.Nodes`next, line
    ensures config.Valid() && fresh(config.Nodes - old(config.Nodes)) && next <= |text|
    ensures ok ==> pos < next
    ensures ReadConfig(text[pos..], old(Now(config, scalars)))
         == if ok then ReadConfig(text[next..], Now(config, scalars')) else None
  {
    ok, scalars' := true, scalars;
    var fields;
    fields, next := NextTopLine(text, pos, line);
    if fields.None? {
      return;
    }
    var (token, rawarg, value) := fields.value;
    if value == "" || (token != "" && token[0] == '#') {
      return;
    }
    ok, scalars', next := HandleOption(config, ParseToken(token), rawarg, value, text, next, scalars);
  }

  /** config_read: the servers, popular servers and single settings are those of the specification, and the
      program exits exactly where the specification says so. */
  method ConfigRead(config: Config, text: string, start: Scalars) returns (ok: bool, scalars: Scalars)
    requires config.Valid() && '\0' !in text
    modifies config, config.Nodes`next
    ensures config.Valid()
    ensures ReadConfig(text, old(Now(config, start))) == if ok then Some(Now(config, scalars)) else None
  {
    var line := new char[MAX_BUF];
    var pos := 0;
    ok, scalars := true, start;
    ghost var goal := ReadConfig(text, Now(config, start));
    assert text[0..] == text;
    while ok && pos < |text|
      invariant pos <= |text| && config.Valid() && fresh(config.Nodes - old(config.Nodes))
      invariant goal == if ok then ReadConfig(text[pos..], Now(config, scalars)) else None
      decreases ok, |text| - pos
    {
      ok, scalars, pos := TopRound(config, text, pos, line, scalars);
    }
    if ok {
      assert text[pos..] == "";
    }
  }
}
