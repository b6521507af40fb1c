/** A ping from the files it starts from to the request it sends: the two lists are built, joined and printed,
    and the JSON text becomes the body of the request. */
module Ping {
  import opened Wrappers
  import opened Decimal
  import opened Json
  import opened ClientList
  import opened PingJson
  import opened Seqs
  import opened Text
  import DI = DeviceInfo
  import PR = PostResult

  // ----- The JSON text -----

  /** What follows the clients. */
  function Closing(more: seq<string>): (r: string) {
    if more == [] then "}" else "," + JoinMembers(more)
  }

  lemma JoinCons(a: string, more: seq<string>)
    ensures JoinMembers([a] + more) == a + Closing(more)
  {
    assert ([a] + more)[1..] == more;
  }

  lemma JoinFour(a: string, b: string, c: string, x: string, more: seq<string>)
    ensures JoinMembers([a, b, c, x] + more) == a + ("," + (b + ("," + (c + ("," + (x + Closing(more)))))))
  {
    assert [a, b, c, x] + more == [a] + ([b] + ([c] + ([x] + more)));
    JoinCons(a, [b] + ([c] + ([x] + more)));
    JoinCons(b, [c] + ([x] + more));
    JoinCons(c, [x] + more);
    JoinCons(x, more);
  }

  lemma Append3(a: string, b: string, c: string, x: string)
    ensures ((a + (b + c)) + x) == a + (b + (c + x))
  {
    Assoc(b, c, x);
    Assoc(a, b + c, x);
  }

  /** Prints that are appended one after the other, each with its comma, and what the text is then. */
  lemma Regrouped(o: string, a: string, b: string, c: string, m: string, x: string, y: string)
    ensures ((((o + (a + m)) + (b + m)) + (c + m)) + x) + y == o + (a + (m + (b + (m + (c + (m + (x + y)))))))
  {
    var t0 := o + (a + m);
    var t1 := t0 + (b + m);
    Assoc(t1 + (c + m), x, y);
    Append3(t1, c, m, x + y);
    Append3(t0, b, m, c + (m + (x + y)));
    Append3(o, a, m, b + (m + (c + (m + (x + y)))));
  }

  lemma PrintedInOrder(a: string, b: string, c: string, x: string, more: seq<string>)
    ensures (((("{" + (a + ",")) + (b + ",")) + (c + ",")) + x) + Closing(more)
         == "{" + JoinMembers([a, b, c, x] + more)
  {
    Regrouped("{", a, b, c, ",", x, Closing(more));
    JoinFour(a, b, c, x, more);
  }

  /** The wifidog status and the closing brace. */
  method PrintStatus(dog: Dog) returns (tail: string)
    ensures tail == Closing(StatusTexts(dog))
  {
    match dog
    case NoDog => tail := "}";
    case Asked(None) => tail := "," + (Field("wifidog_status", "{}") + "}");
    case Asked(Some(status)) => tail := "," + (Field("wifidog_status", status) + "}");
  }

  /** build_ping_json_data: None where it returns an error. The whole text and the clients fit their buffers. */
  method BuildPingJsonData(gwId: string, dog: Dog, device: Option<string>, cList: Client,
                           ghost cs: seq<Client>, ghost recs: seq<ClientRec>)
    returns (json: Option<string>)
    requires ClientChain(cList, cs, recs)
    requires device.Some? ==> FitsBuffers(gwId, dog, device.value, recs)
    ensures json == if device.None? then None else Some(PingText(gwId, dog, device.value, recs))
  {
    var tmp := "{" + (Field("gw_id", Quoted(gwId)) + ",");
    tmp := tmp + (Field("wifidog_flag", DogFlag(dog)) + ",");
    if device.None? {
      return None;
    }
    tmp := tmp + (device.value + ",");
    var clients := GetClientListJson(cList, cs, recs);
    tmp := tmp + clients;
    var tail := PrintStatus(dog);
    tmp := tmp + tail;
    PrintedInOrder(Field("gw_id", Quoted(gwId)), Field("wifidog_flag", DogFlag(dog)), device.value, clients,
                   StatusTexts(dog));
    json := Some(tmp);
  }

  method BuildClients(text: string) returns (cList: Client, ghost cs: seq<Client>)
    requires text != "" && LeaseText(text)
    ensures ClientChain(cList, cs, Leases(text)) && forall i :: 0 <= i < |cs| ==> fresh(cs[i])
  {
    cList := new Client();
    cs := InitClientList(cList, text);
  }

  method BuildTraffic(text: string) returns (tList: Traffic, ghost ts: seq<Traffic>)
    requires text != "" && TrafficText(text)
    ensures TrafficChain(tList, ts, Traffics(text)) && forall i :: 0 <= i < |ts| ==> fresh(ts[i])
  {
    tList := new Traffic();
    ts := InitTrafficList(tList, text);
  }

  /** Build both lists, then join them. */
  method BuildLists(leases: string, traffic: string) returns (cList: Client, ghost cs: seq<Client>)
    requires leases != "" && LeaseText(leases) && traffic != "" && TrafficText(traffic)
    ensures ClientChain(cList, cs, JoinedClients(leases, traffic))
  {
    cList, cs := BuildClients(leases);
    var tList;
    ghost var ts;
    tList, ts := BuildTraffic(traffic);
    GetTrafficToClient(cList, tList, cs, ts, Leases(leases), Traffics(traffic));
  }

  /** The first half of ping: None where it gives up because a file cannot be read. */
  method CollectPing(leases: Option<string>, traffic: Option<string>, gwId: string, dog: Dog, device: Option<string>)
    returns (json: Option<string>)
    requires leases.Some? ==> leases.value != "" && LeaseText(leases.value)
    requires traffic.Some? ==> traffic.value != "" && TrafficText(traffic.value)
    requires leases.Some? && traffic.Some? && device.Some? ==>
               FitsBuffers(gwId, dog, device.value, JoinedClients(leases.value, traffic.value))
    ensures json == if leases.None? || traffic.None? || device.None? then None
                    else Some(PingText(gwId, dog, device.value, JoinedClients(leases.value, traffic.value)))
  {
    if leases.None? || traffic.None? {
      return None;
    }
    var cList;
    ghost var cs;
    cList, cs := BuildLists(leases.value, traffic.value);
    json := BuildPingJsonData(gwId, dog, device, cList, cs, JoinedClients(leases.value, traffic.value));
  }

  // ----- The request -----

  const PING_TYPE_LINE := "Content-Type: application/json;charset=utf-8"

  function PingHead(path: string, version: string, length: int, host: string): (r: seq<string>) {
    ["POST " + path + " HTTP/1.1",
     "User-Agent: WiFiAcVer " + version,
     PING_TYPE_LINE,
     PR.LENGTH_KEY + Print(length),
     "Connection: close",
     "Host: " + host]
  }

  function PingRequest(path: string, version: string, host: string, json: string): (r: string) {
    PR.Sent(PR.Frame(PingHead(path, version, |json|, host), json))
  }

  /** The request buffer has room for the whole request. */
  predicate FitsRequest(path: string, version: string, host: string, json: string) {
    |PR.Frame(PingHead(path, version, |json|, host), "")| + |json| <= PR.REQUEST_ROOM
  }

  lemma PingTypeLineClean()
    ensures PR.Clean(PING_TYPE_LINE)
  {
  }

  lemma PingFirstLinesClean(path: string, version: string)
    requires '\r' !in path && '\r' !in version
    ensures PR.Clean("POST " + path + " HTTP/1.1") && PR.Clean("User-Agent: WiFiAcVer " + version)
  {
    PR.CleanAppend("POST ", path);
    PR.CleanAppend("POST " + path, " HTTP/1.1");
    PR.CleanAppend("User-Agent: WiFiAcVer ", version);
  }

  lemma PingHeadClean(path: string, version: string, length: int, host: string)
    requires '\r' !in path && '\r' !in version && '\r' !in host
    ensures var h := PingHead(path, version, length, host);
            forall i :: 0 <= i < |h| ==> PR.Clean(h[i])
  {
    PingFirstLinesClean(path, version);
    PingTypeLineClean();
    PR.TypeLineClean();
    PR.LengthLineClean(length);
    PR.HostLineClean(host);
    PR.SixClean("POST " + path + " HTTP/1.1", "User-Agent: WiFiAcVer " + version, PING_TYPE_LINE,
                PR.LENGTH_KEY + Print(length), "Connection: close", "Host: " + host);
  }

  lemma PingHeadRead(path: string, version: string, length: int, host: string)
    ensures PR.ContentLength(PingHead(path, version, length, host)) == Some(length)
  {
    var h := PingHead(path, version, length, host);
    PR.NotPrefix(PR.LENGTH_KEY, h[0], 0);
    PR.NotPrefix(PR.LENGTH_KEY, h[1], 0);
    PR.NotPrefix(PR.LENGTH_KEY, h[2], 8);
    PR.LengthFound(h, length);
  }

  /** What a reader finds in the head of a ping. */
  lemma PingHeadMeans(path: string, version: string, length: int, host: string)
    ensures var h := PingHead(path, version, length, host);
            && |h| == 6 && (' ' !in path ==> Split(h[0], ' ') == ["POST", path, "HTTP/1.1"])
            && PR.Header(h, "Host") == Some(host) && PR.Header(h, "User-Agent") == Some("WiFiAcVer " + version)
            && PR.Header(h, "Content-Type") == Some("application/json;charset=utf-8")
            && PR.Header(h, "Content-Length") == Some(Print(length)) && PR.Header(h, "Connection") == Some("close")
  {
    var h := PingHead(path, version, length, host);
    PingLines(path, version);
    PingTypeLine();
    PR.LengthAndHostLines(Print(length), host);
    PR.HeadersAre(h, "WiFiAcVer " + version, "application/json;charset=utf-8", Print(length), host);
    if ' ' !in path {
      PR.RequestWords(path, "HTTP/1.1");
    }
  }

  lemma PingLines(path: string, version: string)
    ensures "User-Agent: WiFiAcVer " + version == "User-Agent" + ": " + ("WiFiAcVer " + version)
    ensures "POST " + path + " HTTP/1.1" == "POST " + path + (" " + "HTTP/1.1")
  {
  }

  lemma PingTypeLine()
    ensures PING_TYPE_LINE == "Content-Type" + ": " + "application/json;charset=utf-8"
  {
  }

  /** A request is well framed, with exactly the JSON text as its body, if and only if the whole of it fits the
      request buffer. */
  lemma PingIsWellFramedExactly(path: string, version: string, host: string, json: string)
    requires '\r' !in path && '\r' !in version && '\r' !in host
    ensures var request := PingRequest(path, version, host, json);
            && (PR.WellFramed(request) <==> FitsRequest(path, version, host, json))
            && (PR.WellFramed(request) ==>
                  PR.ReadMessage(request) == Some((PingHead(path, version, |json|, host), json)))
  {
    PingHeadClean(path, version, |json|, host);
    PingHeadRead(path, version, |json|, host);
    PR.SentIsRead(PingHead(path, version, |json|, host), json);
  }

  /** From the two files to the peer: what the server reads out of the ping request is one JSON object, and its
      clientList holds the leases in file order, each joined with the first traffic record of its address. */
  lemma PingArrives(leases: string, traffic: string, gwId: string, dog: Dog, device: string, m: Member, status: Value,
                    path: string, version: string, host: string)
    requires leases != "" && LeaseText(leases) && traffic != "" && TrafficText(traffic)
    requires forall c :: c in Leases(leases) ==> PlainClient(c)
    requires PlainText(gwId) && ReadsMember(device, m)
    requires dog.Asked? && dog.status.Some? ==> ReadsValue(dog.status.value, status)
    requires '\r' !in path && '\r' !in version && '\r' !in host
    ensures var cs := JoinedClients(leases, traffic);
            var json := PingText(gwId, dog, device, cs);
            var message := PR.ReadMessage(PingRequest(path, version, host, json));
            FitsBuffers(gwId, dog, device, cs) && FitsRequest(path, version, host, json) ==>
              && message.Some?
              && PR.ContentLength(message.value.0) == Some(|message.value.1|)
              && ReadValue(message.value.1) == Some((Obj(PingMembers(gwId, dog, m, cs, status)), ""))
  {
    var cs := JoinedClients(leases, traffic);
    var json := PingText(gwId, dog, device, cs);
    if FitsBuffers(gwId, dog, device, cs) && FitsRequest(path, version, host, json) {
      PingIsWellFramedExactly(path, version, host, json);
      PingReadsBack(leases, traffic, gwId, dog, device, m, status);
    }
  }

  /** Its device file may be any that the script writes. */
  lemma PingOfDeviceArrives(leases: string, traffic: string, gwId: string, dog: Dog, device: DI.Device, status: Value,
                            path: string, version: string, host: string)
    requires leases != "" && LeaseText(leases) && traffic != "" && TrafficText(traffic)
    requires forall c :: c in Leases(leases) ==> PlainClient(c)
    requires PlainText(gwId) && DI.Sound(device)
    requires dog.Asked? && dog.status.Some? ==> ReadsValue(dog.status.value, status)
    requires '\r' !in path && '\r' !in version && '\r' !in host
    ensures var cs := JoinedClients(leases, traffic);
            var text := DI.DeviceText(device);
            var json := PingText(gwId, dog, text, cs);
            var message := PR.ReadMessage(PingRequest(path, version, host, json));
            var m := Member("deviceData", Obj(DI.DeviceMembers(device)));
            FitsBuffers(gwId, dog, text, cs) && FitsRequest(path, version, host, json) ==>
              && message.Some?
              && PR.ContentLength(message.value.0) == Some(|message.value.1|)
              && ReadValue(message.value.1) == Some((Obj(PingMembers(gwId, dog, m, cs, status)), ""))
  {
    DI.DeviceIsRead(device);
    PingArrives(leases, traffic, gwId, dog, DI.DeviceText(device),
                Member("deviceData", Obj(DI.DeviceMembers(device))), status, path, version, host);
  }
}
