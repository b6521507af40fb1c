/** A printer of configuration files, and the proof that the reader inverts it. */
module ConfigPrinter {
  import opened Limits
  import opened Wrappers
  import opened Text
  import opened Decimal
  import opened AcServers
  import opened ConfigText
  import opened Seqs

  // ----- Keywords -----

  lemma {:induction false} TokenIs(cp: string, i: nat, k: nat)
    requires i <= k < |KEYWORDS|
    requires forall j :: i <= j < k ==> !SameIgnoringCase(cp, KEYWORDS[j].0)
    requires SameIgnoringCase(cp, KEYWORDS[k].0)
    ensures ParseToken(cp, i) == KEYWORDS[k].1
    decreases k - i
  {
    if i < k {
      TokenIs(cp, i + 1, k);
    }
  }

  lemma Differ(a: string, b: string, i: nat)
    requires |a| != |b| || (i < |a| && UpperChar(a[i]) != UpperChar(b[i]))
    ensures !SameIgnoringCase(a, b)
  {
    assert |a| == |b| ==> Upper(a)[i] != Upper(b)[i];
  }

  /** Any two keywords differ, even when case is ignored. */
  lemma KeywordsDiffer(j: nat, k: nat)
    requires j < k < |KEYWORDS|
    ensures !SameIgnoringCase(KEYWORDS[k].0, KEYWORDS[j].0)
  {
    var a, b := KEYWORDS[k].0, KEYWORDS[j].0;
    if |a| == |b| {
      if UpperChar(a[0]) != UpperChar(b[0]) {
        Differ(a, b, 0);
      } else {
        Differ(a, b, 1);
      }
    } else {
      Differ(a, b, 0);
    }
  }

  lemma KeywordIsRead(k: nat)
    requires k < |KEYWORDS|
    ensures ParseToken(KEYWORDS[k].0) == KEYWORDS[k].1
  {
    forall j | 0 <= j < k ensures !SameIgnoringCase(KEYWORDS[k].0, KEYWORDS[j].0) {
      KeywordsDiffer(j, k);
    }
    TokenIs(KEYWORDS[k].0, 0, k);
  }

  // ----- Printing -----

  /** The fields of a block. */
  datatype Field = HostField | PortField | PingField | ResultField {
    function Key(): (r: string) {
      match this
      case HostField => "Hostname"
      case PortField => "HttpPort"
      case PingField => "PingPath"
      case ResultField => "ResultPath"
    }

    /** Its place in the keyword table. */
    function Index(): (r: nat) {
      match this
      case HostField => 7
      case PortField => 9
      case PingField => 10
      case ResultField => 11
    }
  }

  /** How a line is laid out: indentation, the blanks between keyword and value, blanks after the value,
      a comment from '#' on, and whether the line ends in CR LF. */
  datatype Layout = Layout(lead: string, sep: string, trail: string, comment: string, crlf: bool)

  function Return(crlf: bool): (r: string) {
    if crlf then "\r" else ""
  }

  datatype Item = Item(field: Field, value: string, layout: Layout)

  predicate AllBlank(s: string) {
    forall i :: 0 <= i < |s| ==> s[i] == ' ' || s[i] == '\t'
  }

  predicate PlainLayout(y: Layout) {
    && AllBlank(y.lead) && AllBlank(y.sep) && y.sep != "" && AllBlank(y.trail)
    && (y.comment != "" ==> y.comment[0] == '#' && '\n' !in y.comment && '}' !in y.comment)
  }

  /** Values the configuration file can carry. */
  predicate PlainValue(v: string) {
    && v != "" && !Blank(v[0]) && !Blank(v[|v| - 1])
    && '#' !in v && '}' !in v && '\r' !in v && '\n' !in v
  }

  function LineText(key: string, v: string, y: Layout): (r: string) {
    y.lead + key + y.sep + v + y.trail + y.comment + Return(y.crlf) + "\n"
  }

  function PrintItem(it: Item): (r: string) {
    LineText(it.field.Key(), it.value, it.layout)
  }

  predicate PlainItem(it: Item) {
    PlainLayout(it.layout) && PlainValue(it.value) && |PrintItem(it)| <= MAX_BUF - 2
  }

  /** Once the positions of keyword, value and cut are known, the fields are what stands there. */
  lemma FieldsAt(s: string, a: nat, w: nat, v: nat, t: nat, e: nat)
    requires a < w < v < t <= e < |s|
    requires forall j :: 0 <= j < a ==> Blank(s[j])
    requires forall j :: a <= j < w ==> !Blank(s[j])
    requires forall j :: w <= j < v ==> Blank(s[j])
    requires !Blank(s[v]) && !Blank(s[t - 1])
    requires forall j :: t <= j < e ==> Blank(s[j])
    requires CutAt(s, a) == e
    ensures BlockFields(s) == Some((s[a..w], s[v..t]))
  {
    SkipBlanksIs(s, 0, |s|, a);
    TrimEndIs(s, a, e, t);
    WordEndIs(s, a, t, w);
    SkipBlanksIs(s, w + 1, t, v);
  }

  predicate Special(c: char) {
    c == '#' || c == '\r' || c == '\n'
  }

  /** A line is cut at its comment, or else at its end. */
  lemma CutAtEnd(s: string, a: nat, e: nat)
    requires a <= e < |s| && forall j :: a <= j < e ==> !Special(s[j])
    requires s[e] == '#' || (s[e] == '\r' && |s| == e + 2 && s[e + 1] == '\n') || (s[e] == '\n' && |s| == e + 1)
    ensures CutAt(s, a) == e
  {
    if s[e] == '#' {
      FindIs(s, '#', a, e);
    } else {
      FindIs(s, '#', a, |s|);
      if s[e] == '\r' {
        FindIs(s, '\r', a, e);
      } else {
        FindIs(s, '\r', a, |s|);
        FindIs(s, '\n', a, e);
      }
    }
  }

  /** Letters only: no blanks and none of the special characters. */
  predicate PlainKey(key: string) {
    key != "" && forall i :: 0 <= i < |key| ==> 'A' <= key[i] <= 'Z' || 'a' <= key[i] <= 'z'
  }

  lemma NotSpecial(s: string, a: nat, w: nat, v: nat, t: nat, e: nat)
    requires a <= w <= v <= t <= e <= |s|
    requires forall j :: a <= j < w ==> 'A' <= s[j] <= 'Z' || 'a' <= s[j] <= 'z'
    requires forall j :: w <= j < v ==> Blank(s[j])
    requires forall j :: v <= j < t ==> !Special(s[j])
    requires forall j :: t <= j < e ==> Blank(s[j])
    ensures forall j :: a <= j < e ==> !Special(s[j])
  {
  }

  /** Where the parts of a printed line stand. */
  lemma LineParts(key: string, value: string, y: Layout)
    ensures var s := LineText(key, value, y);
            var a := |y.lead|;
            var w := a + |key|;
            var v := w + |y.sep|;
            var t := v + |value|;
            var e := t + |y.trail|;
            && s[0..a] == y.lead && s[a..w] == key && s[w..v] == y.sep && s[v..t] == value && s[t..e] == y.trail
            && |s| == e + |y.comment| + |Return(y.crlf)| + 1 && s[|s| - 1] == '\n'
            && s[e] == (if y.comment != "" then y.comment[0] else if y.crlf then '\r' else '\n')
            && (y.comment == "" ==> |s| == e + 1 || (|s| == e + 2 && s[e + 1] == '\n'))
  {
  }

  lemma Pointwise(s: string, i: nat, k: nat, part: string)
    requires i <= k <= |s| && s[i..k] == part
    ensures forall j :: i <= j < k ==> s[j] == part[j - i]
  {
    forall j | i <= j < k ensures s[j] == part[j - i] {
      assert s[i..k][j - i] == s[j];
    }
  }

  /** The reader finds a keyword and a value that stand at these places of a line. */
  lemma FieldsOfParts(s: string, a: nat, w: nat, v: nat, t: nat, e: nat, key: string, value: string)
    requires a <= w <= v <= t <= e < |s| && s[a..w] == key && s[v..t] == value
    requires PlainKey(key) && PlainValue(value) && w < v
    requires AllBlank(s[0..a]) && AllBlank(s[w..v]) && AllBlank(s[t..e])
    requires s[e] == '#' || (s[e] == '\r' && |s| == e + 2 && s[e + 1] == '\n') || (s[e] == '\n' && |s| == e + 1)
    ensures BlockFields(s) == Some((key, value))
  {
    Pointwise(s, 0, a, s[0..a]);
    Pointwise(s, a, w, key);
    Pointwise(s, w, v, s[w..v]);
    Pointwise(s, v, t, value);
    Pointwise(s, t, e, s[t..e]);
    NotSpecial(s, a, w, v, t, e);
    CutAtEnd(s, a, e);
    FieldsAt(s, a, w, v, t, e);
  }

  /** So it finds those of a printed line, however the line is laid out. */
  lemma FieldsOfLine(key: string, value: string, y: Layout)
    requires PlainKey(key) && PlainValue(value) && PlainLayout(y)
    ensures BlockFields(LineText(key, value, y)) == Some((key, value))
  {
    var a := |y.lead|;
    var w := a + |key|;
    var v := w + |y.sep|;
    var t := v + |value|;
    LineParts(key, value, y);
    FieldsOfParts(LineText(key, value, y), a, w, v, t, t + |y.trail|, key, value);
  }

  // ----- Blocks -----

  /** The block the items describe: later items override earlier ones, the rest keeps its value. */
  function Fold(b: Block, items: seq<Item>): (r: Block)
    decreases items
  {
    if items == [] then b
    else
      var v := items[0].value;
      Fold(match items[0].field
           case HostField => b.(host := Some(v))
           case PortField => b.(port := Atoi(v))
           case PingField => b.(pingPath := v)
           case ResultField => b.(resultPath := v),
           items[1..])
  }

  function CloseLine(crlf: bool): (r: string) {
    "}" + Return(crlf) + "\n"
  }

  function PrintItems(items: seq<Item>, crlf: bool): (r: string) {
    if items == [] then CloseLine(crlf) else PrintItem(items[0]) + PrintItems(items[1..], crlf)
  }

  lemma PrintedItemIsLine(it: Item)
    requires PlainItem(it)
    ensures var line := PrintItem(it);
            line != "" && line[|line| - 1] == '\n' && '\n' !in line[..|line| - 1] && '}' !in line
  {
    var y := it.layout;
    var line := PrintItem(it);
    var key := it.field.Key();
    FieldKeyPlain(it.field);
    var body := y.lead + key + y.sep + it.value + y.trail + y.comment + Return(y.crlf);
    assert line[..|line| - 1] == body;
    assert '\n' !in body && '}' !in body;
  }

  lemma FieldKeyPlain(f: Field)
    ensures PlainKey(f.Key()) && f.Key() == KEYWORDS[f.Index()].0
  {
  }

  lemma AssignIsFold(b: Block, it: Item)
    ensures Assign(b, KEYWORDS[it.field.Index()].1, it.value) == Some(Fold(b, [it]))
  {
    assert [it][1..] == [];
  }

  lemma ReadItem(b: Block, it: Item)
    requires PlainItem(it)
    ensures BlockLine(b, PrintItem(it)) == Some(Fold(b, [it]))
  {
    FieldKeyPlain(it.field);
    FieldsOfLine(it.field.Key(), it.value, it.layout);
    KeywordIsRead(it.field.Index());
    AssignIsFold(b, it);
  }

  /** A closing brace anywhere in a line ends the block, even inside a comment: the item of that line is lost, and
      the items behind it are read as lines outside the block. */
  lemma BraceInLineEndsBlock(line: string, rest: string, b: Block)
    requires line != "" && line[|line| - 1] == '\n' && '\n' !in line[..|line| - 1] && |line| <= MAX_BUF - 2
    ensures '}' in line ==> ReadBlock(line + rest, b) == (Some(b), rest)
    ensures '}' !in line && BlockLine(b, line).Some? ==>
              ReadBlock(line + rest, b) == ReadBlock(rest, BlockLine(b, line).value)
  {
    TakeLineOf(line, rest, MAX_BUF - 1);
  }

  lemma FoldFirst(b: Block, items: seq<Item>)
    requires items != []
    ensures Fold(b, items) == Fold(Fold(b, [items[0]]), items[1..])
  {
    assert [items[0]][1..] == [];
  }

  lemma CloseLineIsLine(crlf: bool)
    ensures var line := CloseLine(crlf);
            line != "" && line[|line| - 1] == '\n' && '\n' !in line[..|line| - 1] && '}' in line && |line| <= 3
  {
    assert CloseLine(crlf)[..|CloseLine(crlf)| - 1] == "}" + Return(crlf);
    assert CloseLine(crlf)[0] == '}';
  }

  /** Reading a printed block gives the folded fields, and stops right behind the closing line. */
  lemma {:induction false} ReadPrintedBlock(items: seq<Item>, crlf: bool, b: Block, rest: string)
    requires forall it :: it in items ==> PlainItem(it)
    ensures ReadBlock(PrintItems(items, crlf) + rest, b) == (Some(Fold(b, items)), rest)
    decreases items
  {
    if items == [] {
      CloseLineIsLine(crlf);
      BraceInLineEndsBlock(CloseLine(crlf), rest, b);
    } else {
      var line, more := PrintItem(items[0]), PrintItems(items[1..], crlf) + rest;
      Assoc(line, PrintItems(items[1..], crlf), rest);
      PrintedItemIsLine(items[0]);
      ReadItem(b, items[0]);
      BraceInLineEndsBlock(line, more, b);
      FoldFirst(b, items);
      ReadPrintedBlock(items[1..], crlf, Fold(b, [items[0]]), rest);
    }
  }

  // ----- Files -----

  /** The line that opens a block. */
  function OpenLine(crlf: bool): (r: string) {
    "SmartAcServer " + ("{" + Return(crlf)) + "\n"
  }

  function PrintBlocks(blocks: seq<seq<Item>>, crlf: bool): (r: string) {
    if blocks == [] then ""
    else OpenLine(crlf) + (PrintItems(blocks[0], crlf) + PrintBlocks(blocks[1..], crlf))
  }

  /** The servers the blocks describe: a block without a host name adds none. */
  function ServersOf(blocks: seq<seq<Item>>): (r: seq<ServerInfo>) {
    if blocks == [] then [] else ServerOf(Fold(NEW_BLOCK, blocks[0])) + ServersOf(blocks[1..])
  }

  /** The token and the value of a line "token value". */
  lemma TokenAndValue(token: string, v: string)
    requires ' ' !in token && ' ' !in v && v != ""
    ensures LineFields(token + " " + v) == Some((token, v, v))
  {
    var l := token + " " + v;
    assert forall j :: 0 <= j < |token| ==> l[j] == token[j];
    FindIs(l, ' ', 0, |token|);
    assert l[..|token|] == token && l[|token| + 1..] == v;
    assert forall j :: |token| + 1 <= j < |l| ==> l[j] == v[j - (|token| + 1)];
    assert l[|token| + 1] == v[0];
    FindIs(l, ' ', |token| + 1, |l|);
    assert l[|token| + 1..|l|] == v;
  }

  lemma OpenLineFields(crlf: bool)
    ensures TopFields(OpenLine(crlf)) == Some(("SmartAcServer", "{" + Return(crlf), "{" + Return(crlf)))
  {
    var v := "{" + Return(crlf);
    var l := "SmartAcServer " + v;
    assert OpenLine(crlf)[..|OpenLine(crlf)| - 1] == l;
    assert l == "SmartAcServer" + " " + v;
    TokenAndValue("SmartAcServer", v);
  }

  lemma OpenLineIsRead(crlf: bool)
    ensures !Ignored(OpenLine(crlf)) && ParseToken("SmartAcServer") == AcServerBlock
  {
    OpenLineFields(crlf);
    KeywordIsRead(6);
  }

  lemma OpenLineIsLine(crlf: bool)
    ensures var line := OpenLine(crlf);
            line != "" && line[|line| - 1] == '\n' && '\n' !in line[..|line| - 1] && |line| <= 17
  {
    assert OpenLine(crlf)[..|OpenLine(crlf)| - 1] == "SmartAcServer " + ("{" + Return(crlf));
  }

  function WithBlock(c: Settings, items: seq<Item>): (r: Settings) {
    c.(servers := c.servers + ServerOf(Fold(NEW_BLOCK, items)))
  }

  predicate PlainBlock(items: seq<Item>) {
    forall it :: it in items ==> PlainItem(it)
  }

  predicate PlainBlocks(blocks: seq<seq<Item>>) {
    forall i :: 0 <= i < |blocks| ==> PlainBlock(blocks[i])
  }

  /** What the reader does with the line that opens a block. */
  lemma ReadOpenLine(crlf: bool, more: string, c: Settings, b: Block, rest: string)
    requires ReadBlock(more, NEW_BLOCK) == (Some(b), rest)
    ensures ReadConfig(OpenLine(crlf) + more, c) == ReadConfig(rest, c.(servers := c.servers + ServerOf(b)))
  {
    OpenLineIsLine(crlf);
    TakeLineOf(OpenLine(crlf), more, MAX_BUF);
    OpenLineFields(crlf);
    OpenLineIsRead(crlf);
  }

  /** One printed block adds its server, and reading goes on behind it. */
  lemma ReadOneBlock(items: seq<Item>, crlf: bool, rest: string, c: Settings)
    requires PlainBlock(items)
    ensures ReadConfig(OpenLine(crlf) + (PrintItems(items, crlf) + rest), c) == ReadConfig(rest, WithBlock(c, items))
  {
    ReadPrintedBlock(items, crlf, NEW_BLOCK, rest);
    ReadOpenLine(crlf, PrintItems(items, crlf) + rest, c, Fold(NEW_BLOCK, items), rest);
  }

  /** Printing any blocks and reading the text back appends exactly the servers they describe, in order. */
  lemma {:induction false} ReadPrintedBlocks(blocks: seq<seq<Item>>, crlf: bool, c: Settings)
    requires PlainBlocks(blocks)
    ensures ReadConfig(PrintBlocks(blocks, crlf), c) == Some(c.(servers := c.servers + ServersOf(blocks)))
    decreases blocks
  {
    if blocks == [] {
      assert c.servers + [] == c.servers;
    } else {
      ReadOneBlock(blocks[0], crlf, PrintBlocks(blocks[1..], crlf), c);
      ReadPrintedBlocks(blocks[1..], crlf, WithBlock(c, blocks[0]));
      Assoc(c.servers, ServerOf(Fold(NEW_BLOCK, blocks[0])), ServersOf(blocks[1..]));
    }
  }

  /** A server written out in full. */
  function ItemsOf(s: ServerInfo, y: Layout): (r: seq<Item>) {
    [Item(HostField, s.hostname, y), Item(PortField, Print(s.port), y),
     Item(PingField, s.pingPath, y), Item(ResultField, s.resultPath, y)]
  }

  function BlocksOf(servers: seq<ServerInfo>, y: Layout): (r: seq<seq<Item>>) {
    seq(|servers|, i requires 0 <= i < |servers| => ItemsOf(servers[i], y))
  }

  predicate PlainServer(s: ServerInfo, y: Layout) {
    forall it :: it in ItemsOf(s, y) ==> PlainItem(it)
  }

  lemma FoldOfItems(s: ServerInfo, y: Layout)
    ensures ServerOf(Fold(NEW_BLOCK, ItemsOf(s, y))) == [s]
  {
    var items := ItemsOf(s, y);
    assert items[1..][1..] == items[2..] && items[2..][1..] == items[3..] && items[3..][1..] == [];
    AtoiOfPrint(s.port, "");
    assert Print(s.port) + "" == Print(s.port);
    var b1 := NEW_BLOCK.(host := Some(s.hostname));
    var b2 := b1.(port := s.port);
    var b3 := b2.(pingPath := s.pingPath);
    assert Fold(NEW_BLOCK, items) == Fold(b1, items[1..]) == Fold(b2, items[2..]) == Fold(b3, items[3..]);
  }

  lemma {:induction false} ServersOfBlocks(servers: seq<ServerInfo>, y: Layout)
    ensures ServersOf(BlocksOf(servers, y)) == servers
  {
    var blocks := BlocksOf(servers, y);
    if servers != [] {
      FoldOfItems(servers[0], y);
      ServersOfBlocks(servers[1..], y);
      assert blocks[1..] == BlocksOf(servers[1..], y);
      assert servers == [servers[0]] + servers[1..];
    }
  }

  /** The round trip: printing a list of servers and reading the text appends exactly that list. */
  lemma ReadPrintedServers(servers: seq<ServerInfo>, y: Layout, c: Settings)
    requires forall s :: s in servers ==> PlainServer(s, y)
    ensures ReadConfig(PrintBlocks(BlocksOf(servers, y), y.crlf), c) == Some(c.(servers := c.servers + servers))
  {
    var blocks := BlocksOf(servers, y);
    forall i | 0 <= i < |blocks| ensures PlainBlock(blocks[i]) {
      assert PlainServer(servers[i], y);
    }
    ReadPrintedBlocks(blocks, y.crlf, c);
    ServersOfBlocks(servers, y);
  }

  // ----- The comma list -----

  function Reverse<T>(s: seq<T>): (r: seq<T>) {
    if s == [] then [] else Reverse(s[1..]) + [s[0]]
  }

  /** The names in the pieces, empty ones left out. */
  function Names(pieces: seq<string>): (r: seq<string>) {
    if pieces == [] then []
    else (if NameIn(pieces[0]) == "" then [] else [NameIn(pieces[0])]) + Names(pieces[1..])
  }

  lemma {:induction false} AddNamesReverses(pieces: seq<string>, list: seq<string>)
    ensures AddNames(pieces, list) == Reverse(Names(pieces)) + list
    decreases pieces
  {
    if pieces != [] {
      var n := NameIn(pieces[0]);
      if n == "" {
        assert [] + list == list && [] + Names(pieces[1..]) == Names(pieces[1..]);
        AddNamesReverses(pieces[1..], list);
      } else {
        AddNamesReverses(pieces[1..], [n] + list);
        assert Names(pieces)[1..] == Names(pieces[1..]);
      }
    }
  }

  predicate PlainName(n: string) {
    n != "" && forall i :: 0 <= i < |n| ==> !Blank(n[i]) && n[i] != ','
  }

  lemma {:induction false} NamesOfPlain(names: seq<string>)
    requires forall n :: n in names ==> PlainName(n)
    ensures Names(names) == names
  {
    if names != [] {
      var n := names[0];
      assert n in names;
      SkipBlanksIs(n, 0, |n|, 0);
      WordEndIs(n, 0, |n|, |n|);
      assert n[0..|n|] == n;
      NamesOfPlain(names[1..]);
    }
  }

  /** Joining names with commas and parsing the list puts them in reverse order in front of the old ones. */
  lemma PopularOfJoined(names: seq<string>, list: seq<string>)
    requires names != [] && forall n :: n in names ==> PlainName(n)
    ensures AddNames(Split(Join(names, ','), ','), list) == Reverse(names) + list
  {
    SplitJoin(names, ',');
    NamesOfPlain(names);
    AddNamesReverses(names, list);
  }
}
