/** What the configuration reader makes of a text, line by line. Positions stand for the C pointers into
    the line buffer; MAX_BUF is the size of that buffer. */
module ConfigText {
  import opened Limits
  import opened Wrappers
  import opened Text
  import opened Decimal
  import opened AcServers

  // ----- Scanning inside a line -----

  /** The first position from i on, up to hi, without a blank. */
  function SkipBlanks(s: string, i: nat, hi: nat): (k: nat)
    requires i <= hi <= |s|
    ensures i <= k <= hi
    ensures forall j :: i <= j < k ==> Blank(s[j])
    ensures k < hi ==> !Blank(s[k])
    decreases hi - i
  {
    if i < hi && Blank(s[i]) then SkipBlanks(s, i + 1, hi) else i
  }

  /** The first blank from i on, or hi. */
  function WordEnd(s: string, i: nat, hi: nat): (k: nat)
    requires i <= hi <= |s|
    ensures i <= k <= hi
    ensures forall j :: i <= j < k ==> !Blank(s[j])
    ensures k < hi ==> Blank(s[k])
    decreases hi - i
  {
    if i < hi && !Blank(s[i]) then WordEnd(s, i + 1, hi) else i
  }

  /** The end of the text between a and e once the blanks before e are cut off; one character always stays. */
  function TrimEnd(s: string, a: nat, e: nat): (t: nat)
    requires a <= e <= |s|
    ensures a <= t <= e
    ensures forall j :: t <= j < e ==> Blank(s[j])
    ensures t > a + 1 ==> !Blank(s[t - 1])
    ensures t == a ==> e == a
    decreases e
  {
    if e > a + 1 && Blank(s[e - 1]) then TrimEnd(s, a, e - 1) else e
  }

  lemma SkipBlanksIs(s: string, i: nat, hi: nat, k: nat)
    requires i <= k <= hi <= |s|
    requires forall j :: i <= j < k ==> Blank(s[j])
    requires k < hi ==> !Blank(s[k])
    ensures SkipBlanks(s, i, hi) == k
    decreases k - i
  {
    if i < k {
      SkipBlanksIs(s, i + 1, hi, k);
    }
  }

  lemma WordEndIs(s: string, i: nat, hi: nat, k: nat)
    requires i <= k <= hi <= |s|
    requires forall j :: i <= j < k ==> !Blank(s[j])
    requires k < hi ==> Blank(s[k])
    ensures WordEnd(s, i, hi) == k
    decreases k - i
  {
    if i < k {
      WordEndIs(s, i + 1, hi, k);
    }
  }

  lemma TrimEndIs(s: string, a: nat, e: nat, t: nat)
    requires a < t <= e <= |s|
    requires forall j :: t <= j < e ==> Blank(s[j])
    requires t > a + 1 ==> !Blank(s[t - 1])
    ensures TrimEnd(s, a, e) == t
    decreases e
  {
    if t < e {
      TrimEndIs(s, a, e - 1, t);
    }
  }

  /** Where a line of a server block is cut: at the first '#' from a on, else at the first CR, else at the LF. */
  function CutAt(s: string, a: nat): (e: nat)
    requires a <= |s|
    ensures a <= e <= |s|
  {
    if Find(s, '#', a) < |s| then Find(s, '#', a)
    else if Find(s, '\r', a) < |s| then Find(s, '\r', a)
    else Find(s, '\n', a)
  }

  /** The end of what is kept of the line behind position a: up to the cut, without the blanks before it. A line
      without any cut is kept as it is. */
  function KeptEnd(s: string, a: nat): (t: nat)
    requires a <= |s|
    ensures a <= t <= CutAt(s, a) && (CutAt(s, a) == |s| ==> t == |s|) && (t == a ==> CutAt(s, a) == a)
  {
    if CutAt(s, a) < |s| then TrimEnd(s, a, CutAt(s, a)) else |s|
  }

  /** The keyword and the value of a line of a server block, or nothing for a blank or comment line.
      When the keyword runs right up to the cut, the scan for its value starts behind the cut. */
  function BlockFields(s: string): (r: Option<(string, string)>) {
    var a := SkipBlanks(s, 0, |s|);
    var e, t := CutAt(s, a), KeptEnd(s, a);
    if t == a then None
    else Some((s[a..WordEnd(s, a, t)], ValueAfter(s, WordEnd(s, a, t), t, e)))
  }

  /** The value behind the keyword that ends at w. */
  function ValueAfter(s: string, w: nat, t: nat, e: nat): (r: string)
    requires w <= t <= e <= |s|
  {
    if w < t then s[SkipBlanks(s, w + 1, t)..t]
    else if e < |s| && t == e then s[SkipBlanks(s, e + 1, |s|)..]
    else ""
  }

  // ----- Keywords -----

  datatype OpCode =
    | BadOption | GwAcId | GwAcInterface | Daemon | DebugLevel | ArpTable | AcServerBlock | Hostname | HttpPort
    | PingPath | ResultPath | CheckInterval | PopularServers | IsHaveWifidog | WifidogPath

  const KEYWORDS: seq<(string, OpCode)> :=
    [("Daemon", Daemon), ("DebugLevel", DebugLevel), ("GatewayAcId", GwAcId), ("GatewayAcInterface", GwAcInterface),
     ("ArpTablePath", ArpTable), ("CheckInterval", CheckInterval), ("SmartAcServer", AcServerBlock),
     ("Hostname", Hostname), ("PopularServers", PopularServers), ("HttpPort", HttpPort), ("PingPath", PingPath),
     ("ResultPath", ResultPath), ("IsHaveWifidog", IsHaveWifidog), ("WifidogPath", WifidogPath)]

  /** The first keyword equal to the token but for case. */
  function ParseToken(cp: string, i: nat := 0): (op: OpCode)
    requires i <= |KEYWORDS|
    decreases |KEYWORDS| - i
  {
    if i == |KEYWORDS| then BadOption
    else if SameIgnoringCase(cp, KEYWORDS[i].0) then KEYWORDS[i].1
    else ParseToken(cp, i + 1)
  }

  // ----- A server block -----

  /** The local variables of parse_ac_server. */
  datatype Block = Block(host: Option<string>, pingPath: string, resultPath: string, port: int)

  const NEW_BLOCK := Block(None, DEFAULT_PING_PATH, DEFAULT_RESULT_PATH, DEFAULT_PORT)

  /** One assignment; None where the program exits. */
  function Assign(b: Block, op: OpCode, value: string): (r: Option<Block>) {
    match op
    case Hostname => Some(b.(host := Some(value)))
    case PingPath => Some(b.(pingPath := value))
    case ResultPath => Some(b.(resultPath := value))
    case HttpPort => Some(b.(port := Atoi(value)))
    case _ => None
  }

  function BlockLine(b: Block, line: string): (r: Option<Block>) {
    match BlockFields(line)
    case None => Some(b)
    case Some((key, value)) => Assign(b, ParseToken(key), value)
  }

  /** Reading a block: its fields (None where the program exits) and the text behind the line that closes it. */
  function ReadBlock(text: string, b: Block): (r: (Option<Block>, string))
    ensures |r.1| <= |text|
    decreases |text|
  {
    if text == "" then (Some(b), "")
    else
      var line := TakeLine(text, MAX_BUF - 1);
      var rest := text[|line|..];
      if '}' in line then (Some(b), rest)
      else match BlockLine(b, line)
           case None => (None, rest)
           case Some(b') => ReadBlock(rest, b')
  }

  /** The server a finished block adds. */
  function ServerOf(b: Block): (r: seq<ServerInfo>) {
    if b.host.None? then [] else [ServerInfo(b.host.value, b.pingPath, b.resultPath, b.port)]
  }

  // ----- The popular servers -----

  /** The name in a piece of the comma list: leading blanks skipped, cut at the next blank. */
  function NameIn(piece: string): (r: string) {
    var a := SkipBlanks(piece, 0, |piece|);
    piece[a..WordEnd(piece, a, |piece|)]
  }

  /** Each name is put in front of the list. */
  function AddNames(pieces: seq<string>, list: seq<string>): (r: seq<string>)
    decreases pieces
  {
    if pieces == [] then list
    else AddNames(pieces[1..], (if NameIn(pieces[0]) == "" then [] else [NameIn(pieces[0])]) + list)
  }

  // ----- The whole file -----

  /** The token, the raw rest and the value of a line outside blocks, without its newline. */
  function LineFields(l: string): (r: Option<(string, string, string)>) {
    var b := if Find(l, ' ') < |l| then Find(l, ' ') else Find(l, '\t');
    if b == |l| then None
    else
      var v := SkipSpaces(l, b + 1);
      Some((l[..b], l[v..], l[v..Find(l, ' ', v)]))
  }

  function TopFields(s: string): (r: Option<(string, string, string)>) {
    LineFields(s[..if s != "" && s[|s| - 1] == '\n' then |s| - 1 else |s|])
  }

  /** Only ' ' is skipped here, not a tab. */
  function SkipSpaces(s: string, i: nat): (k: nat)
    requires i <= |s|
    ensures i <= k <= |s|
    ensures forall j :: i <= j < k ==> s[j] == ' '
    ensures k < |s| ==> s[k] != ' '
    decreases |s| - i
  {
    if i < |s| && s[i] == ' ' then SkipSpaces(s, i + 1) else i
  }

  /** The settings with one value; -1 for a daemon flag that nobody has set. */
  datatype Scalars = Scalars(daemon: int, logToStderr: bool, debugLevel: int, checkInterval: int, haveWifidog: int,
                             gwAcId: Option<string>, gwAcInterface: Option<string>, arpTablePath: string,
                             wifidogPath: string)

  /** What has been read so far. */
  datatype Settings = Settings(servers: seq<ServerInfo>, popular: seq<string>, scalars: Scalars)

  /** parse_boolean_value. */
  function ParseBoolean(s: string): (r: Option<int>) {
    if SameIgnoringCase(s, "yes") then Some(1)
    else if SameIgnoringCase(s, "no") then Some(0)
    else if s == "1" then Some(1)
    else if s == "0" then Some(0)
    else None
  }

  /** What one option with a value does. A number that cannot be read leaves the old one. */
  function SetScalar(sc: Scalars, op: OpCode, value: string): (r: Scalars) {
    match op
    case Daemon =>
      if sc.daemon == -1 && ParseBoolean(value).Some? then
        sc.(daemon := ParseBoolean(value).value, logToStderr := ParseBoolean(value).value == 0)
      else sc
    case DebugLevel => if ScanInt(value).Some? then sc.(debugLevel := ScanInt(value).value) else sc
    case CheckInterval => if ScanInt(value).Some? then sc.(checkInterval := ScanInt(value).value) else sc
    case IsHaveWifidog => if ScanInt(value).Some? then sc.(haveWifidog := ScanInt(value).value) else sc
    case GwAcId => sc.(gwAcId := Some(value))
    case GwAcInterface => sc.(gwAcInterface := Some(value))
    case ArpTable => sc.(arpTablePath := value)
    case WifidogPath => sc.(wifidogPath := value)
    case _ => sc
  }

  predicate IsScalar(op: OpCode) {
    op in {GwAcId, GwAcInterface, Daemon, DebugLevel, ArpTable, CheckInterval, IsHaveWifidog, WifidogPath}
  }

  /** The line asks for nothing: it has no value, or it is a comment. */
  predicate Ignored(line: string) {
    match TopFields(line)
    case None => true
    case Some((token, _, value)) => value == "" || (token != "" && token[0] == '#')
  }

  /** What an option does: the settings after it and the text still to read; None where the program exits. */
  function Handle(op: OpCode, raw: string, value: string, rest: string, c: Settings): (r: Option<(Settings, string)>)
    ensures r.Some? ==> |r.value.1| <= |rest|
  {
    if op == AcServerBlock then
      var (b, after) := ReadBlock(rest, NEW_BLOCK);
      if b.None? then None else Some((c.(servers := c.servers + ServerOf(b.value)), after))
    else if op == PopularServers then Some((c.(popular := AddNames(Split(raw, ','), c.popular)), rest))
    else if IsScalar(op) then Some((c.(scalars := SetScalar(c.scalars, op, value)), rest))
    else None
  }

  /** Reading a file; None where the program exits. */
  function ReadConfig(text: string, c: Settings): (r: Option<Settings>)
    decreases |text|
  {
    if text == "" then Some(c)
    else
      var line := TakeLine(text, MAX_BUF);
      var rest := text[|line|..];
      if Ignored(line) then ReadConfig(rest, c)
      else
        var (token, raw, value) := TopFields(line).value;
        match Handle(ParseToken(token), raw, value, rest, c)
        case None => None
        case Some((c', after)) => ReadConfig(after, c')
  }

  /** Once somebody has set the daemon flag, no configuration file changes it, nor where the log goes. */
  lemma {:induction false} DaemonStays(text: string, c: Settings)
    requires c.scalars.daemon != -1 && ReadConfig(text, c).Some?
    ensures var sc := ReadConfig(text, c).value.scalars;
            sc.daemon == c.scalars.daemon && sc.logToStderr == c.scalars.logToStderr
    decreases |text|
  {
    if text != "" {
      var line := TakeLine(text, MAX_BUF);
      var rest := text[|line|..];
      if Ignored(line) {
        DaemonStays(rest, c);
      } else {
        var (token, raw, value) := TopFields(line).value;
        HandleKeepsDaemon(ParseToken(token), raw, value, rest, c);
        var (c', after) := Handle(ParseToken(token), raw, value, rest, c).value;
        DaemonStays(after, c');
      }
    }
  }

  lemma HandleKeepsDaemon(op: OpCode, raw: string, value: string, rest: string, c: Settings)
    requires c.scalars.daemon != -1 && Handle(op, raw, value, rest, c).Some?
    ensures var sc := Handle(op, raw, value, rest, c).value.0.scalars;
            sc.daemon == c.scalars.daemon && sc.logToStderr == c.scalars.logToStderr
  {
  }
}
