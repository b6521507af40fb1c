/** What each line outside the server blocks does, with its keyword written out. */
module ConfigOptions {
  import opened Limits
  import opened Wrappers
  import opened Text
  import opened Decimal
  import opened Seqs
  import opened AcServers
  import opened ConfigText
  import opened ConfigPrinter

  // ----- Lines -----

  /** A keyword, a blank, further spaces, the value, and what follows the value. */
  datatype Line = Line(key: string, sep: char, gap: string, value: string, trail: string) {
    function Raw(): (r: string) {
      value + trail
    }

    function Body(): (r: string) {
      key + [sep] + (gap + Raw())
    }

    function Text(): (r: string) {
      Body() + "\n"
    }

    /** A tab separates the keyword only from a line without spaces; the value ends at a space. */
    predicate PlainParts() {
      && key != "" && (forall i :: 0 <= i < |key| ==> 'A' <= key[i] <= 'Z' || 'a' <= key[i] <= 'z')
      && (forall i :: 0 <= i < |gap| ==> gap[i] == ' ')
      && value != "" && ' ' !in value && '\n' !in value && '\n' !in trail && (trail != "" ==> trail[0] == ' ')
      && (sep == ' ' || (sep == '\t' && gap == "" && trail == ""))
    }

    predicate Plain() {
      PlainParts() && |Text()| <= MAX_BUF - 1
    }
  }

  lemma {:induction false} SpacesSkipped(l: string, i: nat, v: nat)
    requires i <= v <= |l| && forall j :: i <= j < v ==> l[j] == ' '
    requires v < |l| ==> l[v] != ' '
    ensures SkipSpaces(l, i) == v
    decreases v - i
  {
    if i < v {
      SpacesSkipped(l, i + 1, v);
    }
  }

  lemma FieldsAtPlaces(l: string, b: nat, v: nat, e: nat)
    requires b < v <= e <= |l|
    requires forall j :: 0 <= j < b ==> !Blank(l[j])
    requires l[b] == ' ' || (l[b] == '\t' && v == b + 1 && e == |l|)
    requires forall j :: b < j < v ==> l[j] == ' '
    requires v < |l| ==> l[v] != ' '
    requires forall j :: v <= j < e ==> l[j] != ' '
    requires e < |l| ==> l[e] == ' '
    ensures LineFields(l) == Some((l[..b], l[v..], l[v..e]))
  {
    if l[b] == ' ' {
      FindIs(l, ' ', 0, b);
    } else {
      FindIs(l, ' ', 0, |l|);
      FindIs(l, '\t', 0, b);
    }
    SpacesSkipped(l, b + 1, v);
    FindIs(l, ' ', v, e);
  }

  /** Where the parts of a line stand. */
  ghost predicate Parts(line: Line, l: string, b: nat, v: nat, e: nat) {
    && b == |line.key| && v == b + 1 + |line.gap| && e == v + |line.value| && |l| == e + |line.trail|
    && l[..b] == line.key && l[b] == line.sep && l[v..e] == line.value
    && (forall j :: b < j < v ==> l[j] == line.gap[j - b - 1])
    && (e < |l| ==> l[e] == line.trail[0])
  }

  lemma PartsOf(line: Line, b: nat, v: nat, e: nat)
    requires b == |line.key| && v == b + 1 + |line.gap| && e == v + |line.value|
    ensures Parts(line, line.Body(), b, v, e) && line.Body()[v..] == line.Raw()
  {
    PartsAre(line.key, line.sep, line.gap, line.value, line.trail);
  }

  lemma PartsAre(key: string, sep: char, gap: string, value: string, trail: string)
    ensures var l := key + [sep] + (gap + (value + trail));
            var b := |key|;
            var v := b + 1 + |gap|;
            var e := v + |value|;
            && |l| == e + |trail| && l[..b] == key && l[b] == sep && l[v..] == value + trail && l[v..e] == value
            && (forall j :: b < j < v ==> l[j] == gap[j - b - 1])
            && (e < |l| ==> l[e] == trail[0])
  {
  }

  lemma FieldsOfParts(line: Line, l: string, b: nat, v: nat, e: nat)
    requires line.PlainParts() && Parts(line, l, b, v, e)
    ensures LineFields(l) == Some((line.key, l[v..], line.value))
  {
    forall j | 0 <= j < b ensures !Blank(l[j]) {
      assert l[j] == line.key[j];
    }
    forall j | v <= j < e ensures l[j] != ' ' {
      assert l[j] == line.value[j - v];
    }
    assert l[v] == line.value[0];
    FieldsAtPlaces(l, b, v, e);
  }

  lemma FieldsOfBody(line: Line)
    requires line.PlainParts()
    ensures LineFields(line.Body()) == Some((line.key, line.Raw(), line.value))
  {
    var b := |line.key|;
    var v := b + 1 + |line.gap|;
    var e := v + |line.value|;
    PartsOf(line, b, v, e);
    FieldsOfParts(line, line.Body(), b, v, e);
  }

  lemma NoNewline(line: Line)
    requires line.Plain()
    ensures '\n' !in line.Body()
  {
  }

  lemma LineIsTaken(body: string, rest: string)
    requires '\n' !in body && |body| <= MAX_BUF - 2
    ensures var text := (body + "\n") + rest;
            text != "" && TakeLine(text, MAX_BUF) == body + "\n" && text[|body + "\n"|..] == rest
    ensures TopFields(body + "\n") == LineFields(body)
  {
    var line := body + "\n";
    assert line[..|body|] == body;
    TakeLineOf(line, rest, MAX_BUF);
  }

  lemma ReadOne(text: string, line: string, rest: string, token: string, raw: string, value: string, c: Settings)
    requires text != "" && TakeLine(text, MAX_BUF) == line && text[|line|..] == rest
    requires TopFields(line) == Some((token, raw, value)) && value != "" && token != "" && token[0] != '#'
    ensures ReadConfig(text, c)
         == match Handle(ParseToken(token), raw, value, rest, c)
            case None => None
            case Some((c', after)) => ReadConfig(after, c')
  {
  }

  /** What the reader does with such a line. */
  lemma LineIsHandled(line: Line, rest: string, c: Settings)
    requires line.Plain()
    ensures ReadConfig(line.Text() + rest, c)
         == match Handle(ParseToken(line.key), line.Raw(), line.value, rest, c)
            case None => None
            case Some((c', after)) => ReadConfig(after, c')
  {
    NoNewline(line);
    LineIsTaken(line.Body(), rest);
    FieldsOfBody(line);
    ReadOne(line.Text() + rest, line.Text(), rest, line.key, line.Raw(), line.value, c);
  }

  // ----- Keywords -----

  function Name(op: OpCode): (r: string)
    requires !op.BadOption?
  {
    match op
    case Daemon => "Daemon"
    case DebugLevel => "DebugLevel"
    case GwAcId => "GatewayAcId"
    case GwAcInterface => "GatewayAcInterface"
    case ArpTable => "ArpTablePath"
    case CheckInterval => "CheckInterval"
    case AcServerBlock => "SmartAcServer"
    case Hostname => "Hostname"
    case PopularServers => "PopularServers"
    case HttpPort => "HttpPort"
    case PingPath => "PingPath"
    case ResultPath => "ResultPath"
    case IsHaveWifidog => "IsHaveWifidog"
    case WifidogPath => "WifidogPath"
  }

  lemma NameInTable(op: OpCode) returns (k: nat)
    requires !op.BadOption?
    ensures k < |KEYWORDS| && KEYWORDS[k] == (Name(op), op)
  {
    k := match op
         case Daemon => 0
         case DebugLevel => 1
         case GwAcId => 2
         case GwAcInterface => 3
         case ArpTable => 4
         case CheckInterval => 5
         case AcServerBlock => 6
         case Hostname => 7
         case PopularServers => 8
         case HttpPort => 9
         case PingPath => 10
         case ResultPath => 11
         case IsHaveWifidog => 12
         case WifidogPath => 13;
  }

  /** A keyword is known whatever the case of its letters. */
  lemma KeyIsKnown(key: string, op: OpCode)
    requires !op.BadOption? && SameIgnoringCase(key, Name(op))
    ensures ParseToken(key) == op
  {
    var k := NameInTable(op);
    forall j | 0 <= j < k ensures !SameIgnoringCase(key, KEYWORDS[j].0) {
      KeywordsDiffer(j, k);
    }
    TokenIs(key, 0, k);
  }

  lemma {:induction false} KeyIsUnknown(key: string, i: nat)
    requires i <= |KEYWORDS| && forall j :: i <= j < |KEYWORDS| ==> !SameIgnoringCase(key, KEYWORDS[j].0)
    ensures ParseToken(key, i) == BadOption
    decreases |KEYWORDS| - i
  {
    if i < |KEYWORDS| {
      KeyIsUnknown(key, i + 1);
    }
  }

  // ----- What each option does -----

  /** Reading this line, whatever follows it, changes these settings and no others. */
  ghost predicate Sets(line: Line, rest: string, c: Settings, c': Settings) {
    ReadConfig(line.Text() + rest, c) == ReadConfig(rest, c')
  }

  ghost predicate SetsScalars(line: Line, rest: string, c: Settings, scalars: Scalars) {
    Sets(line, rest, c, c.(scalars := scalars))
  }

  lemma ScalarIsSet(line: Line, op: OpCode, rest: string, c: Settings, sc: Scalars)
    requires line.Plain() && IsScalar(op) && SameIgnoringCase(line.key, Name(op))
    requires sc == SetScalar(c.scalars, op, line.value)
    ensures SetsScalars(line, rest, c, sc)
  {
    KeyIsKnown(line.key, op);
    LineIsHandled(line, rest, c);
  }

  /** A number; text behind it does not matter. */
  lemma DebugLevelIsRead(line: Line, n: int, junk: string, rest: string, c: Settings)
    requires line.Plain() && SameIgnoringCase(line.key, "DebugLevel")
    requires line.value == Print(n) + junk && !StartsNumber(junk)
    ensures SetsScalars(line, rest, c, c.scalars.(debugLevel := n))
  {
    ScanOfPrint(n, junk);
    ScalarIsSet(line, DebugLevel, rest, c, c.scalars.(debugLevel := n));
  }

  lemma CheckIntervalIsRead(line: Line, n: int, junk: string, rest: string, c: Settings)
    requires line.Plain() && SameIgnoringCase(line.key, "CheckInterval")
    requires line.value == Print(n) + junk && !StartsNumber(junk)
    ensures SetsScalars(line, rest, c, c.scalars.(checkInterval := n))
  {
    ScanOfPrint(n, junk);
    ScalarIsSet(line, CheckInterval, rest, c, c.scalars.(checkInterval := n));
  }

  lemma IsHaveWifidogIsRead(line: Line, n: int, junk: string, rest: string, c: Settings)
    requires line.Plain() && SameIgnoringCase(line.key, "IsHaveWifidog")
    requires line.value == Print(n) + junk && !StartsNumber(junk)
    ensures SetsScalars(line, rest, c, c.scalars.(haveWifidog := n))
  {
    ScanOfPrint(n, junk);
    ScalarIsSet(line, IsHaveWifidog, rest, c, c.scalars.(haveWifidog := n));
  }

  /** Where no number starts the old one stays. */
  lemma NoNumberIsRead(line: Line, rest: string, c: Settings)
    requires line.Plain() && !StartsNumber(line.value) && line.value[0] !in {'-', '+'} && !Space(line.value[0])
    requires || SameIgnoringCase(line.key, "DebugLevel") || SameIgnoringCase(line.key, "CheckInterval")
             || SameIgnoringCase(line.key, "IsHaveWifidog")
    ensures Sets(line, rest, c, c)
  {
    var op := if SameIgnoringCase(line.key, "DebugLevel") then DebugLevel
              else if SameIgnoringCase(line.key, "CheckInterval") then CheckInterval else IsHaveWifidog;
    ScalarIsSet(line, op, rest, c, c.scalars);
  }

  /** A text, up to its first space. */
  lemma GatewayAcIdIsRead(line: Line, rest: string, c: Settings)
    requires line.Plain() && SameIgnoringCase(line.key, "GatewayAcId")
    ensures SetsScalars(line, rest, c, c.scalars.(gwAcId := Some(line.value)))
  {
    ScalarIsSet(line, GwAcId, rest, c, c.scalars.(gwAcId := Some(line.value)));
  }

  lemma GatewayAcInterfaceIsRead(line: Line, rest: string, c: Settings)
    requires line.Plain() && SameIgnoringCase(line.key, "GatewayAcInterface")
    ensures SetsScalars(line, rest, c, c.scalars.(gwAcInterface := Some(line.value)))
  {
    ScalarIsSet(line, GwAcInterface, rest, c, c.scalars.(gwAcInterface := Some(line.value)));
  }

  lemma ArpTablePathIsRead(line: Line, rest: string, c: Settings)
    requires line.Plain() && SameIgnoringCase(line.key, "ArpTablePath")
    ensures SetsScalars(line, rest, c, c.scalars.(arpTablePath := line.value))
  {
    ScalarIsSet(line, ArpTable, rest, c, c.scalars.(arpTablePath := line.value));
  }

  lemma WifidogPathIsRead(line: Line, rest: string, c: Settings)
    requires line.Plain() && SameIgnoringCase(line.key, "WifidogPath")
    ensures SetsScalars(line, rest, c, c.scalars.(wifidogPath := line.value))
  {
    ScalarIsSet(line, WifidogPath, rest, c, c.scalars.(wifidogPath := line.value));
  }

  /** The daemon flag is set once, by one of the four words; it says whether the log goes to stderr. */
  lemma DaemonIsRead(line: Line, rest: string, c: Settings)
    requires line.Plain() && SameIgnoringCase(line.key, "Daemon")
    ensures var v := line.value;
            var yes, no := SameIgnoringCase(v, "yes") || v == "1", SameIgnoringCase(v, "no") || v == "0";
            SetsScalars(line, rest, c, if c.scalars.daemon != -1 then c.scalars
                                       else if yes then c.scalars.(daemon := 1, logToStderr := false)
                                       else if no then c.scalars.(daemon := 0, logToStderr := true)
                                       else c.scalars)
  {
    YesIsNotNo(line.value);
    ScalarIsSet(line, Daemon, rest, c, SetScalar(c.scalars, Daemon, line.value));
  }

  lemma YesIsNotNo(v: string)
    ensures !(SameIgnoringCase(v, "yes") && SameIgnoringCase(v, "no"))
    ensures !(SameIgnoringCase(v, "no") && v == "1") && !(SameIgnoringCase(v, "yes") && v == "0")
  {
  }

  // ----- The comma list -----

  /** A name in the list, with blanks around it. */
  datatype Piece = Piece(lead: string, name: string, trail: string) {
    function Text(): (r: string) {
      lead + (name + trail)
    }

    predicate Plain() {
      AllBlank(lead) && PlainName(name) && '\n' !in name && AllBlank(trail)
    }
  }

  lemma MiddlePart(a: string, b: string, c: string)
    ensures (a + (b + c))[|a|..|a| + |b|] == b
  {
  }

  lemma NameOfPiece(p: Piece)
    requires p.Plain()
    ensures NameIn(p.Text()) == p.name && ',' !in p.Text() && '\n' !in p.Text()
  {
    var s := p.Text();
    var a := |p.lead|;
    var e := a + |p.name|;
    assert forall j :: 0 <= j < a ==> s[j] == p.lead[j];
    assert forall j :: a <= j < e ==> s[j] == p.name[j - a];
    assert forall j :: e <= j < |s| ==> s[j] == p.trail[j - e];
    SkipBlanksIs(s, 0, |s|, a);
    WordEndIs(s, a, |s|, e);
    MiddlePart(p.lead, p.name, p.trail);
  }

  function Texts(ps: seq<Piece>): (r: seq<string>)
    ensures |r| == |ps| && forall i :: 0 <= i < |r| ==> r[i] == ps[i].Text()
  {
    seq(|ps|, i requires 0 <= i < |ps| => ps[i].Text())
  }

  function NamesIn(ps: seq<Piece>): (r: seq<string>)
    ensures |r| == |ps| && forall i :: 0 <= i < |r| ==> r[i] == ps[i].name
  {
    seq(|ps|, i requires 0 <= i < |ps| => ps[i].name)
  }

  lemma {:induction false} NamesOfPieces(ps: seq<Piece>)
    requires forall p :: p in ps ==> p.Plain()
    ensures Names(Texts(ps)) == NamesIn(ps)
  {
    if ps != [] {
      NameOfPiece(ps[0]);
      NamesOfPieces(ps[1..]);
      assert Texts(ps)[1..] == Texts(ps[1..]);
      assert NamesIn(ps) == [ps[0].name] + NamesIn(ps[1..]);
    }
  }

  /** The whole rest of the line is the list, not only the text up to its first space; each name goes to the front. */
  lemma PopularServersAreRead(line: Line, ps: seq<Piece>, rest: string, c: Settings)
    requires line.Plain() && SameIgnoringCase(line.key, "PopularServers")
    requires ps != [] && (forall p :: p in ps ==> p.Plain()) && line.Raw() == Join(Texts(ps), ',')
    ensures Sets(line, rest, c, c.(popular := Reverse(NamesIn(ps)) + c.popular))
  {
    KeyIsKnown(line.key, PopularServers);
    LineIsHandled(line, rest, c);
    forall t | t in Texts(ps) ensures ',' !in t {
      var i :| 0 <= i < |ps| && t == ps[i].Text();
      NameOfPiece(ps[i]);
    }
    SplitJoin(Texts(ps), ',');
    NamesOfPieces(ps);
    AddNamesReverses(Texts(ps), c.popular);
  }

  // ----- Lines that set nothing -----

  /** A keyword of server blocks ends the program here. */
  lemma BlockKeyExits(line: Line, rest: string, c: Settings)
    requires line.Plain()
    requires || SameIgnoringCase(line.key, "Hostname") || SameIgnoringCase(line.key, "HttpPort")
             || SameIgnoringCase(line.key, "PingPath") || SameIgnoringCase(line.key, "ResultPath")
    ensures ReadConfig(line.Text() + rest, c) == None
  {
    var op := if SameIgnoringCase(line.key, "Hostname") then Hostname
              else if SameIgnoringCase(line.key, "HttpPort") then HttpPort
              else if SameIgnoringCase(line.key, "PingPath") then PingPath else ResultPath;
    BlockFieldExits(line, op, rest, c);
  }

  lemma BlockFieldExits(line: Line, op: OpCode, rest: string, c: Settings)
    requires line.Plain() && (op.Hostname? || op.HttpPort? || op.PingPath? || op.ResultPath?)
    requires SameIgnoringCase(line.key, Name(op))
    ensures ReadConfig(line.Text() + rest, c) == None
  {
    KeyIsKnown(line.key, op);
    RefusedExits(line, op, rest, c);
  }

  lemma RefusedExits(line: Line, op: OpCode, rest: string, c: Settings)
    requires line.Plain() && ParseToken(line.key) == op && !IsScalar(op) && !op.AcServerBlock? && !op.PopularServers?
    ensures ReadConfig(line.Text() + rest, c) == None
  {
    LineIsHandled(line, rest, c);
  }

  /** So does a keyword that there is not. */
  lemma UnknownKeyExits(line: Line, rest: string, c: Settings)
    requires line.Plain() && forall op: OpCode :: !op.BadOption? ==> !SameIgnoringCase(line.key, Name(op))
    ensures ReadConfig(line.Text() + rest, c) == None
  {
    IsUnknown(line.key);
    RefusedExits(line, BadOption, rest, c);
  }

  lemma IsUnknown(key: string)
    requires forall op: OpCode :: !op.BadOption? ==> !SameIgnoringCase(key, Name(op))
    ensures ParseToken(key) == BadOption
  {
    forall j | 0 <= j < |KEYWORDS| ensures !SameIgnoringCase(key, KEYWORDS[j].0) {
      TableIsNamed(j);
    }
    KeyIsUnknown(key, 0);
  }

  lemma TableIsNamed(k: nat)
    requires k < |KEYWORDS|
    ensures !KEYWORDS[k].1.BadOption? && KEYWORDS[k].0 == Name(KEYWORDS[k].1)
  {
  }

  lemma LineIsIgnored(body: string, rest: string, c: Settings)
    requires '\n' !in body && |body| <= MAX_BUF - 2
    requires var f := LineFields(body);
             f.None? || f.value.2 == "" || (f.value.0 != "" && f.value.0[0] == '#')
    ensures ReadConfig((body + "\n") + rest, c) == ReadConfig(rest, c)
  {
    LineIsTaken(body, rest);
  }

  /** A line without a blank asks for nothing ... */
  lemma BareLineIsIgnored(body: string, rest: string, c: Settings)
    requires ' ' !in body && '\t' !in body && '\n' !in body && |body| <= MAX_BUF - 2
    ensures ReadConfig((body + "\n") + rest, c) == ReadConfig(rest, c)
  {
    FindIs(body, ' ', 0, |body|);
    FindIs(body, '\t', 0, |body|);
    LineIsIgnored(body, rest, c);
  }

  /** ... nor does one with nothing but spaces behind its keyword, ... */
  lemma EmptyOptionIsIgnored(body: string, spaces: string, rest: string, c: Settings)
    requires ' ' !in body && '\t' !in body && '\n' !in body && |body| + 1 + |spaces| <= MAX_BUF - 2
    requires forall i :: 0 <= i < |spaces| ==> spaces[i] == ' '
    ensures ReadConfig((body + [' '] + spaces + "\n") + rest, c) == ReadConfig(rest, c)
  {
    var l := body + [' '] + spaces;
    var b := |body|;
    assert forall j :: 0 <= j < b ==> l[j] == body[j];
    assert forall j :: b <= j < |l| ==> l[j] == ' ';
    FieldsAtPlaces(l, b, |l|, |l|);
    LineIsIgnored(l, rest, c);
  }

  /** ... nor does a comment. */
  lemma CommentIsIgnored(text: string, rest: string, c: Settings)
    requires '\n' !in text && |text| <= MAX_BUF - 3
    ensures ReadConfig(("#" + text + "\n") + rest, c) == ReadConfig(rest, c)
  {
    var l := "#" + text;
    assert l[0] == '#';
    LineIsIgnored(l, rest, c);
  }

  // ----- Lines inside a server block -----

  lemma BlockFieldIsAssigned(key: string, value: string, y: Layout, op: OpCode, b: Block)
    requires PlainKey(key) && PlainValue(value) && PlainLayout(y) && !op.BadOption? && SameIgnoringCase(key, Name(op))
    ensures BlockLine(b, LineText(key, value, y)) == Assign(b, op, value)
  {
    FieldsOfLine(key, value, y);
    KeyIsKnown(key, op);
  }

  /** The four fields of a server, in any case and layout ... */
  lemma HostnameIsRead(key: string, value: string, y: Layout, b: Block)
    requires PlainKey(key) && PlainValue(value) && PlainLayout(y) && SameIgnoringCase(key, "Hostname")
    ensures BlockLine(b, LineText(key, value, y)) == Some(b.(host := Some(value)))
  {
    BlockFieldIsAssigned(key, value, y, Hostname, b);
  }

  lemma HttpPortIsRead(key: string, value: string, y: Layout, b: Block)
    requires PlainKey(key) && PlainValue(value) && PlainLayout(y) && SameIgnoringCase(key, "HttpPort")
    ensures BlockLine(b, LineText(key, value, y)) == Some(b.(port := Atoi(value)))
  {
    BlockFieldIsAssigned(key, value, y, HttpPort, b);
  }

  lemma PingPathIsRead(key: string, value: string, y: Layout, b: Block)
    requires PlainKey(key) && PlainValue(value) && PlainLayout(y) && SameIgnoringCase(key, "PingPath")
    ensures BlockLine(b, LineText(key, value, y)) == Some(b.(pingPath := value))
  {
    BlockFieldIsAssigned(key, value, y, PingPath, b);
  }

  lemma ResultPathIsRead(key: string, value: string, y: Layout, b: Block)
    requires PlainKey(key) && PlainValue(value) && PlainLayout(y) && SameIgnoringCase(key, "ResultPath")
    ensures BlockLine(b, LineText(key, value, y)) == Some(b.(resultPath := value))
  {
    BlockFieldIsAssigned(key, value, y, ResultPath, b);
  }

  lemma OtherFieldExits(key: string, value: string, y: Layout, op: OpCode, b: Block)
    requires PlainKey(key) && PlainValue(value) && PlainLayout(y) && !op.BadOption? && SameIgnoringCase(key, Name(op))
    requires !op.Hostname? && !op.HttpPort? && !op.PingPath? && !op.ResultPath?
    ensures BlockLine(b, LineText(key, value, y)) == None
  {
    BlockFieldIsAssigned(key, value, y, op, b);
  }

  /** ... and no other keyword: it ends the program. */
  lemma OtherKeyInBlockExits(key: string, value: string, y: Layout, b: Block)
    requires PlainKey(key) && PlainValue(value) && PlainLayout(y)
    requires !SameIgnoringCase(key, "Hostname") && !SameIgnoringCase(key, "HttpPort")
    requires !SameIgnoringCase(key, "PingPath") && !SameIgnoringCase(key, "ResultPath")
    ensures BlockLine(b, LineText(key, value, y)) == None
  {
    if op: OpCode :| !op.BadOption? && SameIgnoringCase(key, Name(op)) {
      assert !op.Hostname? && !op.HttpPort? && !op.PingPath? && !op.ResultPath?;
      OtherFieldExits(key, value, y, op, b);
    } else {
      IsUnknown(key);
      FieldsOfLine(key, value, y);
    }
  }

  /** A line is cut at its first '#', whatever stands before it, or else at its first CR, or else at its LF. */
  lemma CutIs(s: string, a: nat, e: nat)
    requires a <= e < |s| && s[e] in {'#', '\r', '\n'}
    requires forall j :: a <= j < e ==> s[j] != s[e]
    requires s[e] != '#' ==> forall j :: a <= j < |s| ==> s[j] != '#'
    requires s[e] == '\n' ==> forall j :: a <= j < |s| ==> s[j] != '\r'
    ensures CutAt(s, a) == e
  {
    FindIs(s, s[e], a, e);
    if s[e] != '#' {
      FindIs(s, '#', a, |s|);
    }
    if s[e] == '\n' {
      FindIs(s, '\r', a, |s|);
    }
  }

  /** A line of blanks and a comment line set nothing in a block. */
  lemma NothingInBlock(lead: string, end: string, b: Block)
    requires AllBlank(lead) && end != "" && (end[0] == '#' || end == "\n" || end == "\r\n")
    ensures BlockLine(b, lead + end) == Some(b)
  {
    var s, a := lead + end, |lead|;
    assert forall j :: 0 <= j < a ==> s[j] == lead[j];
    assert forall j :: a <= j < |s| ==> s[j] == end[j - a];
    SkipBlanksIs(s, 0, |s|, a);
    CutIs(s, a, a);
  }

  lemma FieldsAtCut(s: string, e: nat, v: nat)
    requires 0 < e < v <= |s| && s[e] in {'#', '\r', '\n'}
    requires forall j :: 0 <= j < e ==> !Blank(s[j]) && !Special(s[j])
    requires forall j :: e < j < v ==> Blank(s[j])
    requires v < |s| ==> !Blank(s[v])
    requires forall j :: v <= j < |s| ==> s[j] != '#' && s[j] != '\r'
    ensures BlockFields(s) == Some((s[0..e], s[v..]))
  {
    SkipBlanksIs(s, 0, |s|, 0);
    CutIs(s, 0, e);
    TrimEndIs(s, 0, e, e);
    WordEndIs(s, 0, e, e);
    SkipBlanksIs(s, e + 1, |s|, v);
  }

  /** A keyword that runs right up to the cut takes what stands behind the cut as its value. */
  lemma KeywordAtCut(key: string, cut: char, blanks: string, value: string)
    requires PlainKey(key) && AllBlank(blanks) && (value != "" ==> !Blank(value[0]))
    requires cut in {'#', '\r', '\n'} && '#' !in value && '\r' !in value
    ensures BlockFields(key + [cut] + (blanks + value)) == Some((key, value))
  {
    var s, e := key + [cut] + (blanks + value), |key|;
    var v := e + 1 + |blanks|;
    assert forall j :: 0 <= j < e ==> s[j] == key[j];
    assert forall j :: e < j < v ==> s[j] == blanks[j - e - 1];
    assert forall j :: v <= j < |s| ==> s[j] == value[j - v];
    assert s[e] == cut && s[0..e] == key && s[v..] == value;
    FieldsAtCut(s, e, v);
  }

  lemma FieldsOfRest(s: string, w: nat, v: nat)
    requires 0 < w < v < |s| && !Blank(s[v])
    requires forall j :: 0 <= j < |s| ==> !Special(s[j])
    requires forall j :: 0 <= j < w ==> !Blank(s[j])
    requires forall j :: w <= j < v ==> Blank(s[j])
    ensures BlockFields(s) == Some((s[0..w], s[v..|s|]))
  {
    SkipBlanksIs(s, 0, |s|, 0);
    FindIs(s, '#', 0, |s|);
    FindIs(s, '\r', 0, |s|);
    FindIs(s, '\n', 0, |s|);
    WordEndIs(s, 0, |s|, w);
    SkipBlanksIs(s, w + 1, |s|, v);
  }

  /** A last line without a newline keeps the blanks behind its value. */
  lemma LastLineIsKept(key: string, sep: string, value: string)
    requires PlainKey(key) && AllBlank(sep) && sep != "" && value != "" && !Blank(value[0])
    requires '#' !in value && '\r' !in value && '\n' !in value
    ensures BlockFields(key + (sep + value)) == Some((key, value))
  {
    var s, w := key + (sep + value), |key|;
    var v := w + |sep|;
    assert forall j :: 0 <= j < w ==> s[j] == key[j];
    assert forall j :: w <= j < v ==> s[j] == sep[j - w];
    assert forall j :: v <= j < |s| ==> s[j] == value[j - v];
    assert s[0..w] == key && s[v..|s|] == value;
    FieldsOfRest(s, w, v);
  }

  /** A block that the end of the file closes. */
  function PrintOpen(items: seq<Item>): (r: string) {
    if items == [] then "" else PrintItem(items[0]) + PrintOpen(items[1..])
  }

  /** It counts like one that a brace closes. */
  lemma {:induction false} OpenBlockIsRead(items: seq<Item>, b: Block)
    requires forall it :: it in items ==> PlainItem(it)
    ensures ReadBlock(PrintOpen(items), b) == (Some(Fold(b, items)), "")
    decreases items
  {
    if items != [] {
      PrintedItemIsLine(items[0]);
      ReadItem(b, items[0]);
      BraceInLineEndsBlock(PrintItem(items[0]), PrintOpen(items[1..]), b);
      FoldFirst(b, items);
      OpenBlockIsRead(items[1..], Fold(b, [items[0]]));
    }
  }

  /** A line that no block may have ends the program, wherever it stands in the block. */
  lemma {:induction false} BadLineInBlock(items: seq<Item>, line: string, rest: string, b: Block)
    requires forall it :: it in items ==> PlainItem(it)
    requires line != "" && line[|line| - 1] == '\n' && '\n' !in line[..|line| - 1] && |line| <= MAX_BUF - 2
    requires '}' !in line && forall a: Block :: BlockLine(a, line) == None
    ensures ReadBlock(PrintOpen(items) + (line + rest), b).0 == None
    decreases items
  {
    if items == [] {
      assert "" + (line + rest) == line + rest;
      TakeLineOf(line, rest, MAX_BUF - 1);
    } else {
      var more := PrintOpen(items[1..]) + (line + rest);
      Assoc(PrintItem(items[0]), PrintOpen(items[1..]), line + rest);
      PrintedItemIsLine(items[0]);
      ReadItem(b, items[0]);
      BraceInLineEndsBlock(PrintItem(items[0]), more, b);
      BadLineInBlock(items[1..], line, rest, Fold(b, [items[0]]));
    }
  }

  /** It ends the reading of the whole file. */
  lemma BadBlockExits(items: seq<Item>, line: string, rest: string, crlf: bool, c: Settings)
    requires forall it :: it in items ==> PlainItem(it)
    requires line != "" && line[|line| - 1] == '\n' && '\n' !in line[..|line| - 1] && |line| <= MAX_BUF - 2
    requires '}' !in line && forall a: Block :: BlockLine(a, line) == None
    ensures ReadConfig(OpenLine(crlf) + (PrintOpen(items) + (line + rest)), c) == None
  {
    var more := PrintOpen(items) + (line + rest);
    BadLineInBlock(items, line, rest, NEW_BLOCK);
    OpenLineIsLine(crlf);
    TakeLineOf(OpenLine(crlf), more, MAX_BUF);
    OpenLineFields(crlf);
    OpenLineIsRead(crlf);
  }

  /** A line of a block that does not fit the buffer is taken for several lines. */
  lemma LongBlockLine(text: string, b: Block)
    requires |text| >= MAX_BUF - 2 && '\n' !in text[..MAX_BUF - 2] && '}' !in text[..MAX_BUF - 2]
    ensures ReadBlock(text, b) == match BlockLine(b, text[..MAX_BUF - 2])
                                  case None => (None, text[MAX_BUF - 2..])
                                  case Some(b') => ReadBlock(text[MAX_BUF - 2..], b')
  {
    TakeLineCut(text, MAX_BUF - 1);
  }

  /** So is one outside blocks. */
  lemma LongLine(text: string, c: Settings)
    requires |text| >= MAX_BUF - 1 && '\n' !in text[..MAX_BUF - 1] && Ignored(text[..MAX_BUF - 1])
    ensures ReadConfig(text, c) == ReadConfig(text[MAX_BUF - 1..], c)
  {
    TakeLineCut(text, MAX_BUF);
  }

  /** The fields a block does not mention. */
  lemma DefaultsOfBlock(host: string)
    ensures ServerOf(NEW_BLOCK) == []
    ensures ServerOf(NEW_BLOCK.(host := Some(host)))
         == [ServerInfo(host, "/smartac/ping?", "/smartac/result?", 8080)]
  {
  }
}
