/** Posting a command result: from the queued buffer to the bytes of the HTTP request, and the way
    a remote command travels in the ping response. */
module PostResult {
  import opened Limits
  import opened Wrappers
  import opened Text
  import opened Decimal
  import opened Seqs
  import P = Pstr
  import RQ = ResultQueue

  const CRLF := "\r\n"

  /** snprintf(request, sizeof(request) - 1, ...) keeps this many characters. */
  const REQUEST_ROOM := MAX_BUF - 2

  // ----- The request as it is printed -----

  const LENGTH_KEY := "Content-Length: "
  const TYPE_LINE := "Content-Type: text/json;charset=utf-8"

  function HeadLines(path: string, version: string, cSize: int, host: string): (r: seq<string>) {
    ["POST " + path + " HTTP/1.0",
     "User-Agent: WiFiAc " + version,
     TYPE_LINE,
     LENGTH_KEY + Print(cSize),
     "Connection: close",
     "Host: " + host]
  }

  /** Lines, each ended by CR LF, an empty line, and the body. */
  function Frame(lines: seq<string>, body: string): (r: string) {
    if lines == [] then CRLF + body else lines[0] + CRLF + Frame(lines[1..], body)
  }

  function Request(path: string, version: string, cSize: int, host: string, data: string): (r: string) {
    Frame(HeadLines(path, version, cSize, host), data)
  }

  /** The request that thread_post_result sends for a result with this buffer. */
  function Posted(p: RQ.Payload, path: string, version: string, host: string): (r: string) {
    Sent(Request(path, version, p.cSize, host, P.CStr(p.bytes)))
  }

  /** What the request buffer keeps of a text. */
  function Sent(full: string): (r: string)
    ensures |r| <= REQUEST_ROOM
  {
    if |full| <= REQUEST_ROOM then full else full[..REQUEST_ROOM]
  }

  /** The copy into the local data buffer fits exactly for outputs up to MAX_CMD_OUT_BUF - 2 bytes. */
  lemma PostCopyFitsExactly(output: seq<char>)
    requires |output| <= MAX_CMD_OUT_BUF + 2
    ensures |RQ.Copied(RQ.Queued(output)).bytes| <= MAX_CMD_OUT_BUF <==> |output| <= MAX_CMD_OUT_BUF - 2
  {
  }

  method ThreadPostResult(result: RQ.Result, path: string, version: string, host: string) returns (request: string)
    requires result.Valid() && result.size <= MAX_CMD_OUT_BUF && '\0' in result.result[..]
    ensures request == Posted(result.View(), path, version, host)
  {
    var data := new char[MAX_CMD_OUT_BUF];
    RQ.CopyBytes(data, result.result, result.size);
    assert result.result[..result.size] == result.result[..];
    var k := P.StrLen(data);
    SameCStr(result.result[..], data[..], k);
    request := Request(path, version, result.cSize, host, data[..k]);
    if |request| > REQUEST_ROOM {
      request := request[..REQUEST_ROOM];
    }
  }

  /** What follows the first zero of a buffer does not matter. */
  lemma SameCStr(a: seq<char>, b: seq<char>, k: nat)
    requires '\0' in a && a <= b && k < |b| && P.CStr(b) == b[..k] && b[k] == '\0'
    ensures P.CStr(a) == b[..k]
  {
    var i := Find(a, '\0');
    assert forall j :: 0 <= j < i ==> b[j] == a[j];
    FindIs(b, '\0', 0, i);
    assert a[..i] == b[..i];
  }

  // ----- A reference reader of messages (RFC 1945, section 4.1) -----

  function ReadLine(s: string): (r: Option<(string, string)>) {
    var k := Find(s, '\r');
    if k + 1 < |s| && s[k + 1] == '\n' then Some((s[..k], s[k + 2..])) else None
  }

  /** The header lines and the body. */
  function ReadMessage(s: string): (r: Option<(seq<string>, string)>)
    decreases |s|
  {
    match ReadLine(s)
    case None => None
    case Some((line, rest)) =>
      if line == "" then Some(([], rest))
      else match ReadMessage(rest)
           case None => None
           case Some((lines, body)) => Some(([line] + lines, body))
  }

  function ContentLength(lines: seq<string>, i: nat := 0): (r: Option<int>)
    requires i <= |lines|
    decreases |lines| - i
  {
    if i == |lines| then None
    else if LENGTH_KEY <= lines[i] then Some(Atoi(lines[i][|LENGTH_KEY|..]))
    else ContentLength(lines, i + 1)
  }

  /** The message can be read, and its Content-Length is the number of bytes of its body. */
  predicate WellFramed(s: string) {
    var m := ReadMessage(s);
    m.Some? && ContentLength(m.value.0) == Some(|m.value.1|)
  }

  lemma ReadLineOf(line: string, rest: string)
    requires '\r' !in line
    ensures ReadLine(line + CRLF + rest) == Some((line, rest))
  {
    var s := line + CRLF + rest;
    assert forall j :: 0 <= j < |line| ==> s[j] == line[j];
    FindIs(s, '\r', 0, |line|);
    assert s[..|line|] == line && s[|line| + 2..] == rest;
  }

  /** Reading inverts framing. */
  lemma {:induction false} ReadOfFrame(lines: seq<string>, body: string)
    requires forall i :: 0 <= i < |lines| ==> Clean(lines[i])
    ensures ReadMessage(Frame(lines, body)) == Some((lines, body))
  {
    if lines == [] {
      ReadLineOf("", body);
      assert "" + CRLF + body == CRLF + body;
    } else {
      ReadLineOf(lines[0], Frame(lines[1..], body));
      ReadOfFrame(lines[1..], body);
      assert [lines[0]] + lines[1..] == lines;
    }
  }

  /** Cutting a framed message inside its body cuts the body. */
  lemma {:induction false} CutFrame(lines: seq<string>, body: string, n: nat)
    requires |Frame(lines, "")| <= n <= |Frame(lines, body)|
    ensures |Frame(lines, body)| == |Frame(lines, "")| + |body|
    ensures Frame(lines, body)[..n] == Frame(lines, body[..n - |Frame(lines, "")|])
  {
    if lines != [] {
      var l := |lines[0]| + 2;
      FrameLength(lines[1..], body);
      CutFrame(lines[1..], body, n - l);
      assert Frame(lines, body) == lines[0] + CRLF + Frame(lines[1..], body);
    }
  }

  lemma {:induction false} FrameLength(lines: seq<string>, body: string)
    ensures |Frame(lines, body)| == |Frame(lines, "")| + |body|
  {
    if lines != [] {
      FrameLength(lines[1..], body);
    }
  }

  /** A line that the reader takes for a header line as it stands. */
  predicate Clean(line: string) {
    line != "" && '\r' !in line
  }

  lemma CleanAppend(a: string, b: string)
    requires Clean(a) && '\r' !in b
    ensures Clean(a + b)
  {
  }

  lemma SixClean(a: string, b: string, c: string, d: string, e: string, f: string)
    requires Clean(a) && Clean(b) && Clean(c) && Clean(d) && Clean(e) && Clean(f)
    ensures forall i :: 0 <= i < 6 ==> Clean([a, b, c, d, e, f][i])
  {
  }

  lemma TypeLineClean()
    ensures Clean(TYPE_LINE) && Clean("Connection: close")
  {
  }

  lemma HostLineClean(host: string)
    requires '\r' !in host
    ensures Clean("Host: " + host)
  {
    CleanAppend("Host: ", host);
  }

  lemma LengthLineClean(n: int)
    ensures Clean(LENGTH_KEY + Print(n))
  {
    PrintHasNoReturn(n);
    CleanAppend(LENGTH_KEY, Print(n));
  }

  lemma FirstLinesClean(path: string, version: string)
    requires '\r' !in path && '\r' !in version
    ensures Clean("POST " + path + " HTTP/1.0") && Clean("User-Agent: WiFiAc " + version)
  {
    CleanAppend("POST ", path);
    CleanAppend("POST " + path, " HTTP/1.0");
    CleanAppend("User-Agent: WiFiAc ", version);
  }

  lemma HeadLinesClean(path: string, version: string, cSize: int, host: string)
    requires '\r' !in path && '\r' !in version && '\r' !in host
    ensures var h := HeadLines(path, version, cSize, host);
            forall i :: 0 <= i < |h| ==> Clean(h[i])
  {
    FirstLinesClean(path, version);
    TypeLineClean();
    LengthLineClean(cSize);
    HostLineClean(host);
    SixClean("POST " + path + " HTTP/1.0", "User-Agent: WiFiAc " + version, TYPE_LINE, LENGTH_KEY + Print(cSize),
             "Connection: close", "Host: " + host);
  }

  lemma HeadLinesRead(path: string, version: string, cSize: int, host: string)
    ensures ContentLength(HeadLines(path, version, cSize, host)) == Some(cSize)
  {
    var h := HeadLines(path, version, cSize, host);
    NotPrefix(LENGTH_KEY, h[0], 0);
    NotPrefix(LENGTH_KEY, h[1], 0);
    NotPrefix(LENGTH_KEY, h[2], 8);
    LengthFound(h, cSize);
  }

  lemma LengthFound(h: seq<string>, n: int)
    requires |h| > 3 && h[3] == LENGTH_KEY + Print(n)
    requires !(LENGTH_KEY <= h[0]) && !(LENGTH_KEY <= h[1]) && !(LENGTH_KEY <= h[2])
    ensures ContentLength(h) == Some(n)
  {
    LengthLineRead(h[3], n);
    assert ContentLength(h, 3) == Some(n);
    assert ContentLength(h, 2) == ContentLength(h, 3);
    assert ContentLength(h, 1) == ContentLength(h, 2);
  }

  lemma LengthLineRead(line: string, cSize: int)
    requires line == LENGTH_KEY + Print(cSize)
    ensures LENGTH_KEY <= line && Atoi(line[|LENGTH_KEY|..]) == cSize
  {
    assert line[|LENGTH_KEY|..] == Print(cSize) + "";
    AtoiOfPrint(cSize, "");
  }

  /** What stands behind the first header line with this name (RFC 1945, section 4.2). */
  function Header(lines: seq<string>, name: string, i: nat := 1): (r: Option<string>)
    decreases |lines| - i
  {
    if i >= |lines| then None
    else if name + ": " <= lines[i] then Some(lines[i][|name| + 2..])
    else Header(lines, name, i + 1)
  }

  lemma {:induction false} HeaderIs(lines: seq<string>, name: string, i: nat, k: nat, value: string)
    requires i <= k < |lines| && lines[k] == name + ": " + value
    requires forall j :: i <= j < k ==> !(name + ": " <= lines[j])
    ensures Header(lines, name, i) == Some(value)
    decreases k - i
  {
    if i < k {
      HeaderIs(lines, name, i + 1, k, value);
    } else {
      assert lines[k][|name| + 2..] == value;
    }
  }

  /** Two names that differ where both have a letter. */
  lemma OtherHeader(name: string, other: string, value: string, i: nat)
    requires i < |name| && i < |other| && name[i] != other[i]
    ensures !(name + ": " <= other + ": " + value)
  {
    assert (name + ": ")[i] == name[i] && (other + ": " + value)[i] == other[i];
  }

  /** The five header lines of a request, by their names. */
  lemma HeadersAre(h: seq<string>, agent: string, kind: string, length: string, host: string)
    requires |h| == 6 && h[1] == "User-Agent" + ": " + agent && h[2] == "Content-Type" + ": " + kind
    requires h[3] == "Content-Length" + ": " + length && h[4] == "Connection" + ": " + "close"
    requires h[5] == "Host" + ": " + host
    ensures Header(h, "User-Agent") == Some(agent) && Header(h, "Content-Type") == Some(kind)
    ensures Header(h, "Content-Length") == Some(length) && Header(h, "Connection") == Some("close")
    ensures Header(h, "Host") == Some(host)
  {
    HeaderIs(h, "User-Agent", 1, 1, agent);
    OtherHeader("Content-Type", "User-Agent", agent, 0);
    HeaderIs(h, "Content-Type", 1, 2, kind);
    OtherHeader("Content-Length", "User-Agent", agent, 0);
    OtherHeader("Content-Length", "Content-Type", kind, 8);
    HeaderIs(h, "Content-Length", 1, 3, length);
    OtherHeader("Connection", "User-Agent", agent, 0);
    OtherHeader("Connection", "Content-Type", kind, 3);
    OtherHeader("Connection", "Content-Length", length, 3);
    HeaderIs(h, "Connection", 1, 4, "close");
    OtherHeader("Host", "User-Agent", agent, 0);
    OtherHeader("Host", "Content-Type", kind, 0);
    OtherHeader("Host", "Content-Length", length, 0);
    OtherHeader("Host", "Connection", "close", 0);
    HeaderIs(h, "Host", 1, 5, host);
  }

  /** The words of the request line (RFC 1945, section 5.1). */
  lemma RequestWords(path: string, version: string)
    requires ' ' !in path && ' ' !in version
    ensures Split("POST " + path + (" " + version), ' ') == ["POST", path, version]
  {
    assert "POST " + path + (" " + version) == "POST" + (" " + (path + (" " + version)));
    SplitLast(version, ' ');
    SplitTwo("POST", path, version, [version]);
  }

  /** What a reader finds in the head of a posted result: the path of the server, its name, and the length. */
  lemma HeadLinesMean(path: string, version: string, cSize: int, host: string)
    ensures var h := HeadLines(path, version, cSize, host);
            && |h| == 6 && (' ' !in path ==> Split(h[0], ' ') == ["POST", path, "HTTP/1.0"])
            && Header(h, "Host") == Some(host) && Header(h, "User-Agent") == Some("WiFiAc " + version)
            && Header(h, "Content-Type") == Some("text/json;charset=utf-8")
            && Header(h, "Content-Length") == Some(Print(cSize)) && Header(h, "Connection") == Some("close")
  {
    var h := HeadLines(path, version, cSize, host);
    AgentLine(version);
    TypeLine();
    LengthAndHostLines(Print(cSize), host);
    HeadersAre(h, "WiFiAc " + version, "text/json;charset=utf-8", Print(cSize), host);
    if ' ' !in path {
      RequestWords(path, "HTTP/1.0");
      RequestLine(path);
    }
  }

  lemma AgentLine(version: string)
    ensures "User-Agent: WiFiAc " + version == "User-Agent" + ": " + ("WiFiAc " + version)
  {
  }

  lemma TypeLine()
    ensures TYPE_LINE == "Content-Type" + ": " + "text/json;charset=utf-8"
  {
  }

  lemma LengthAndHostLines(length: string, host: string)
    ensures LENGTH_KEY + length == "Content-Length" + ": " + length && "Host: " + host == "Host" + ": " + host
    ensures "Connection: close" == "Connection" + ": " + "close"
  {
  }

  lemma RequestLine(path: string)
    ensures "POST " + path + " HTTP/1.0" == "POST " + path + (" " + "HTTP/1.0")
  {
  }

  lemma NotPrefix(a: string, b: string, i: nat)
    requires i < |a| && i < |b| && a[i] != b[i]
    ensures !(a <= b)
  {
  }

  lemma PrintHasNoReturn(i: int)
    ensures '\r' !in Print(i)
  {
  }

  lemma NoLine(s: string, k: nat)
    requires k <= |s| && '\r' !in s[..k] && (k == |s| || (k + 1 == |s| && s[k] == '\r'))
    ensures ReadLine(s) == None
  {
    assert forall j :: 0 <= j < k ==> s[j] == s[..k][j];
    FindIs(s, '\r', 0, k);
  }

  /** A message that is cut inside its first line cannot be read. */
  lemma CutInLine(line: string, rest: string, n: nat)
    requires '\r' !in line && n < |line| + 2
    ensures ReadMessage((line + CRLF + rest)[..n]) == None
  {
    var s := (line + CRLF + rest)[..n];
    var k := if n <= |line| then n else |line|;
    assert s[..k] == line[..k];
    assert forall j :: 0 <= j < k ==> line[..k][j] == line[j];
    NoLine(s, k);
  }

  lemma CutBehindLine(line: string, rest: string, n: nat)
    requires Clean(line) && |line| + 2 <= n <= |line| + 2 + |rest|
    requires ReadMessage(rest[..n - |line| - 2]) == None
    ensures ReadMessage((line + CRLF + rest)[..n]) == None
  {
    var more := rest[..n - |line| - 2];
    assert (line + CRLF + rest)[..n] == line + CRLF + more;
    ReadLineOf(line, more);
  }

  /** A message that is cut inside its head cannot be read. */
  lemma {:induction false} CutInHead(lines: seq<string>, body: string, n: nat)
    requires forall i :: 0 <= i < |lines| ==> Clean(lines[i])
    requires n < |Frame(lines, "")|
    ensures n <= |Frame(lines, body)| && ReadMessage(Frame(lines, body)[..n]) == None
    decreases lines
  {
    FrameLength(lines, body);
    if lines == [] {
      assert "" + CRLF + body == CRLF + body && "" + CRLF + "" == CRLF + "";
      CutInLine("", body, n);
    } else if n < |lines[0]| + 2 {
      CutInLine(lines[0], Frame(lines[1..], body), n);
    } else {
      CutInHead(lines[1..], body, n - |lines[0]| - 2);
      CutBehindLine(lines[0], Frame(lines[1..], body), n);
    }
  }

  /** A request is read back with as much of the body as the buffer kept, and not at all if its head does not fit. */
  lemma SentIsRead(lines: seq<string>, body: string)
    requires forall i :: 0 <= i < |lines| ==> Clean(lines[i])
    ensures |Frame(lines, body)| == |Frame(lines, "")| + |body|
    ensures var room := REQUEST_ROOM - |Frame(lines, "")|;
            ReadMessage(Sent(Frame(lines, body)))
            == if room < 0 then None else Some((lines, if |body| <= room then body else body[..room]))
  {
    FrameLength(lines, body);
    var room := REQUEST_ROOM - |Frame(lines, "")|;
    if room < 0 {
      CutInHead(lines, body, REQUEST_ROOM);
    } else if |body| <= room {
      ReadOfFrame(lines, body);
    } else {
      CutFrame(lines, body, REQUEST_ROOM);
      ReadOfFrame(lines, body[..room]);
    }
  }

  /** For outputs whose second copy fits: the posted request is well framed, with exactly the command output as its
      body, if and only if the output has no zero byte and the whole request fits. */
  lemma PostedIsWellFramedExactly(output: seq<char>, path: string, version: string, host: string)
    requires |output| <= MAX_CMD_OUT_BUF - 2
    requires '\r' !in path && '\r' !in version && '\r' !in host
    ensures var request := Posted(RQ.Copied(RQ.Queued(output)), path, version, host);
            && (WellFramed(request)
                <==> '\0' !in output && |Request(path, version, |output|, host, output)| <= MAX_BUF - 2)
            && (WellFramed(request) ==>
                  ReadMessage(request) == Some((HeadLines(path, version, |output|, host), output)))
  {
    var lines := HeadLines(path, version, |output|, host);
    HeadLinesClean(path, version, |output|, host);
    HeadLinesRead(path, version, |output|, host);
    PostedText(output, path, version, host);
    SentIsRead(lines, P.CStr(output));
    FrameLength(lines, output);
    CStrIsAll(output);
  }

  /** Through queue and copy, the text that is posted is the string at the start of the output. */
  lemma PostedText(output: seq<char>, path: string, version: string, host: string)
    requires |output| <= MAX_CMD_OUT_BUF - 2
    ensures Posted(RQ.Copied(RQ.Queued(output)), path, version, host)
         == Sent(Frame(HeadLines(path, version, |output|, host), P.CStr(output)))
  {
    var p := RQ.Copied(RQ.Queued(output));
    RQ.DeliveredIsTerminated(output);
    CStrOfPadded(output, |p.bytes| - |output|);
  }

  lemma CStrIsAll(output: seq<char>)
    ensures |P.CStr(output)| <= |output|
    ensures |P.CStr(output)| == |output| <==> '\0' !in output
    ensures '\0' !in output ==> P.CStr(output) == output
  {
  }

  /** Zeros after an output do not change the string it starts. */
  lemma CStrOfPadded(output: seq<char>, n: nat)
    requires n > 0
    ensures P.CStr(output + RQ.Zeros(n)) == P.CStr(output)
  {
    var s := output + RQ.Zeros(n);
    var k := Find(output, '\0');
    assert forall j :: 0 <= j < k ==> s[j] == output[j];
    FindIs(s, '\0', 0, k);
    assert s[..k] == output[..k];
  }

  // ----- Remote commands -----

  /** What a response asks for. Malformed: there is a bar, but no second one behind it; the code then goes on from
      a null pointer. */
  datatype Asked = Nothing | Malformed | Command(cmd: string)

  /** The command to run, as ping and excute_remote_shell_command cut it out of a response:
      after the second bar, and the character that follows it. */
  function RemoteCommand(res: string): (r: Asked) {
    var i := Find(res, '|');
    if !Contains(res, "Pong") || i == |res| then Nothing
    else
      var shellcmd := res[i + 1..];
      var j := Find(shellcmd, '|');
      if j == |shellcmd| then Malformed
      else Command(if j + 2 <= |shellcmd| then shellcmd[j + 2..] else "")
  }

  /** There is nothing to do exactly if the response does not say Pong or has no bar; with one bar it is malformed. */
  lemma NothingToDoExactly(res: string)
    ensures RemoteCommand(res).Nothing? <==> !Contains(res, "Pong") || '|' !in res
    ensures RemoteCommand(res).Command? ==> exists i, j :: 0 <= i < j < |res| && res[i] == '|' && res[j] == '|'
  {
    var i := Find(res, '|');
    if i < |res| {
      var shellcmd := res[i + 1..];
      var j := Find(shellcmd, '|');
      if j < |shellcmd| {
        assert res[i + 1 + j] == '|';
      }
    }
  }

  /** A response framed as text | mark id | mark command gives back the command, which may contain bars itself. */
  lemma RemoteCommandOfFramed(text: string, id: string, mark: char, cmd: string)
    requires '|' !in text && '|' !in id && Contains(text, "Pong")
    ensures RemoteCommand(text + ['|'] + (id + ['|'] + ([mark] + cmd))) == Command(cmd)
  {
    var shellcmd := id + ['|'] + ([mark] + cmd);
    FindFirst(text, '|', shellcmd);
    FindFirst(id, '|', [mark] + cmd);
    BehindMark(shellcmd, |id|, mark, cmd);
    Assoc(text, ['|'], shellcmd);
    ContainsPrefix(text, ['|'] + shellcmd, "Pong");
  }

  lemma BehindMark(s: string, j: nat, mark: char, cmd: string)
    requires j + 1 <= |s| && s[j + 1..] == [mark] + cmd
    ensures j + 2 <= |s| && s[j + 2..] == cmd
  {
    assert |s[j + 1..]| == 1 + |cmd|;
    assert s[j + 2..] == s[j + 1..][1..];
  }

  /** A response with one bar only is malformed, whatever it says. */
  lemma OneBarIsMalformed(text: string, more: string)
    requires '|' !in text && '|' !in more && Contains(text, "Pong")
    ensures RemoteCommand(text + ['|'] + more) == Malformed
  {
    FindFirst(text, '|', more);
    FindIs(more, '|', 0, |more|);
    Assoc(text, ['|'], more);
    ContainsPrefix(text, ['|'] + more, "Pong");
  }

  /** The producer's side: the output file of the command goes into a result, and the result into the queue. */
  method ExcuteRemoteShellCommand(queue: RQ.Queue, output: Option<seq<char>>) returns (status: int)
    requires queue.Valid()
    requires output.Some? ==> |output.value| <= MAX_CMD_OUT_BUF + 2
    modifies queue.Repr
    ensures queue.Valid()
    ensures output.None? ==> status == -1 && queue.Contents == old(queue.Contents)
    ensures output.Some? ==> status == 0 && queue.Contents == old(queue.Contents) + [RQ.Queued(output.value)]
  {
    if output.None? {
      return -1;
    }
    var out := output.value;
    var cmdResult := new RQ.Result(|out|);
    cmdResult.cSize := |out|;
    forall i | 0 <= i < |out| {
      cmdResult.result[i] := out[i];
    }
    assert cmdResult.result[..] == out + RQ.Zeros(cmdResult.size - |out|);
    queue.Insert(cmdResult);
    status := 0;
  }
}
