/** The lease file of the DHCP server, and what the daemon reads from it and reports. */
module LeaseFile {
  import opened ClientList
  import opened Json
  import opened Ping
  import opened PingJson
  import opened Text
  import opened Wrappers
  import DI = DeviceInfo
  import PR = PostResult

  /** What a line says: when the lease ends, the two addresses, the name of the host and the client id. */
  datatype Lease = Lease(time: string, mac: string, ip: string, hostname: string, clientId: string)

  predicate IsField(w: string) {
    ' ' !in w && '\n' !in w
  }

  function LeaseWords(l: Lease): (r: seq<string>) {
    [l.time, l.mac, l.ip, l.hostname, l.clientId + "\n"]
  }

  function LeaseLineText(l: Lease): (r: string) {
    l.time + (" " + (l.mac + (" " + (l.ip + (" " + (l.hostname + (" " + (l.clientId + "\n"))))))))
  }

  /** No field contains a blank, and all fit their members and the line buffer. */
  predicate PlainLease(l: Lease) {
    && IsField(l.time) && IsField(l.mac) && IsField(l.ip) && IsField(l.hostname) && IsField(l.clientId)
    && |l.mac| <= 17 && |l.ip| <= 15 && |l.hostname| <= 63 && |LeaseLineText(l)| <= 511
  }

  function PrintLeases(ls: seq<Lease>): (r: string) {
    if ls == [] then "" else LeaseLineText(ls[0]) + PrintLeases(ls[1..])
  }

  lemma SplitLease(l: Lease)
    requires PlainLease(l)
    ensures Split(LeaseLineText(l), ' ') == LeaseWords(l)
  {
    SplitLast(l.clientId + "\n", ' ');
    SplitWord(l.hostname, l.clientId + "\n");
    SplitWord(l.ip, l.hostname + (" " + (l.clientId + "\n")));
    SplitTwo(l.time, l.mac, l.ip + (" " + (l.hostname + (" " + (l.clientId + "\n")))),
             [l.ip, l.hostname, l.clientId + "\n"]);
  }

  /** The second, third and fourth fields are the client's. */
  lemma LeaseIsRead(l: Lease)
    requires PlainLease(l)
    ensures LeaseLine(LeaseLineText(l))
    ensures LeaseOf(LeaseLineText(l)) == ClientRec(l.mac, l.ip, l.hostname, 0, 0, 0, 0)
  {
    SplitLease(l);
  }

  /** A line with three fields has no host name. */
  lemma ShortLeaseIsRead(time: string, mac: string, ip: string)
    requires ' ' !in time && ' ' !in mac && ' ' !in ip && |mac| <= 17 && |ip| <= 15
    ensures var line := time + (" " + (mac + (" " + ip)));
            LeaseLine(line) && LeaseOf(line) == ClientRec(mac, ip, "", 0, 0, 0, 0)
  {
    SplitLast(ip, ' ');
    SplitTwo(time, mac, ip, [ip]);
  }

  lemma LeaseIsLine(l: Lease)
    requires PlainLease(l)
    ensures var t := LeaseLineText(l); t[|t| - 1] == '\n' && '\n' !in t[..|t| - 1]
  {
    var t := LeaseLineText(l);
    assert t[..|t| - 1]
        == l.time + (" " + (l.mac + (" " + (l.ip + (" " + (l.hostname + (" " + l.clientId)))))));
  }

  /** What the leases say, before the traffic is joined. */
  function Clients(ls: seq<Lease>): (r: seq<ClientRec>)
    ensures |r| == |ls|
    ensures forall i :: 0 <= i < |r| ==> r[i] == ClientRec(ls[i].mac, ls[i].ip, ls[i].hostname, 0, 0, 0, 0)
  {
    seq(|ls|, i requires 0 <= i < |ls| => ClientRec(ls[i].mac, ls[i].ip, ls[i].hostname, 0, 0, 0, 0))
  }

  /** The daemon reads exactly the leases of the file, in their order, with counters of zero. */
  lemma {:induction false} LeasesAreRead(ls: seq<Lease>)
    requires forall i :: 0 <= i < |ls| ==> PlainLease(ls[i])
    ensures LeaseText(PrintLeases(ls)) && Leases(PrintLeases(ls)) == Clients(ls)
    ensures ls != [] ==> PrintLeases(ls) != ""
    decreases ls
  {
    if ls != [] {
      var line, more := LeaseLineText(ls[0]), ls[1..];
      LeasesAreRead(more);
      LeaseIsRead(ls[0]);
      LeaseIsLine(ls[0]);
      TakeLineOf(line, PrintLeases(more), LEASE_LINE);
      assert Clients(ls) == [Clients(ls)[0]] + Clients(more);
    }
  }

  // ----- What the server is told -----

  /** The values that a client in the ping has under its seven keys: those of the lease, and the numbers of the first
      traffic record of its address, or zeros. */
  predicate Tells(v: Value, l: Lease, ts: seq<TrafficRec>) {
    var k := FirstFor(ts, l.ip);
    var t := if k < |ts| then ts[k] else TrafficRec(l.ip, 0, 0, 0, 0);
    && Get(v, "mac") == Some(Str(l.mac)) && Get(v, "ip") == Some(Str(l.ip))
    && Get(v, "hostname") == Some(Str(l.hostname))
    && Get(v, "incoming") == Some(Int(t.incoming)) && Get(v, "outgoing") == Some(Int(t.outgoing))
    && Get(v, "go_speed") == Some(Int(t.goSpeed)) && Get(v, "come_speed") == Some(Int(t.comeSpeed))
  }

  const CLIENT_KEYS := ["mac", "ip", "incoming", "outgoing", "hostname", "go_speed", "come_speed"]

  lemma KeysDiffer(j: nat, k: nat)
    requires j < k < 7
    ensures CLIENT_KEYS[j] != CLIENT_KEYS[k]
  {
  }

  lemma ClientKey(c: ClientRec, k: nat)
    requires k < 7
    ensures Get(ClientValue(c), CLIENT_KEYS[k]) == Some(Members(c)[k].value)
  {
    var ms := Members(c);
    assert forall j :: 0 <= j < 7 ==> ms[j].key == CLIENT_KEYS[j];
    forall j | 0 <= j < k ensures ms[j].key != CLIENT_KEYS[k] {
      KeysDiffer(j, k);
    }
    FirstWithIs(ms, CLIENT_KEYS[k], k);
  }

  lemma ClientTells(l: Lease, ts: seq<TrafficRec>)
    ensures Tells(ClientValue(Joined(ClientRec(l.mac, l.ip, l.hostname, 0, 0, 0, 0), ts)), l, ts)
  {
    var c := Joined(ClientRec(l.mac, l.ip, l.hostname, 0, 0, 0, 0), ts);
    forall k | 0 <= k < 7 ensures Get(ClientValue(c), CLIENT_KEYS[k]) == Some(Members(c)[k].value) {
      ClientKey(c, k);
    }
    assert CLIENT_KEYS[0] == "mac" && CLIENT_KEYS[1] == "ip" && CLIENT_KEYS[2] == "incoming";
    assert CLIENT_KEYS[3] == "outgoing" && CLIENT_KEYS[4] == "hostname" && CLIENT_KEYS[5] == "go_speed";
    assert CLIENT_KEYS[6] == "come_speed";
  }

  /** The members of a ping, by their keys. */
  lemma PingKeys(gwId: string, dog: Dog, device: Value, cs: seq<ClientRec>, status: Value)
    ensures var v := Obj(PingMembers(gwId, dog, Member("deviceData", device), cs, status));
            && Get(v, "gw_id") == Some(Str(gwId)) && Get(v, "wifidog_flag") == Some(Bool(dog.Asked?))
            && Get(v, "deviceData") == Some(device) && Get(v, "clientList") == Some(Arr(ClientValues(cs)))
            && Get(v, "wifidog_status") == match dog
                                           case NoDog => None
                                           case Asked(None) => Some(Obj([]))
                                           case Asked(Some(_)) => Some(status)
  {
    var ms := PingMembers(gwId, dog, Member("deviceData", device), cs, status);
    assert ms[0].key == "gw_id" && ms[1].key == "wifidog_flag" && ms[2].key == "deviceData";
    assert ms[3].key == "clientList";
    FirstWithIs(ms, "gw_id", 0);
    FirstWithIs(ms, "wifidog_flag", 1);
    FirstWithIs(ms, "deviceData", 2);
    FirstWithIs(ms, "clientList", 3);
    if dog.Asked? {
      FirstWithIs(ms, "wifidog_status", 4);
    } else {
      FirstWithNone(ms, "wifidog_status");
    }
  }

  /** From the leases to the server: what it reads out of the ping request is one JSON object, which tells for every
      lease, in the order of the file, its addresses, its host and its traffic, and the twelve values of the device. */
  lemma LeasesArrive(ls: seq<Lease>, traffic: string, gwId: string, dog: Dog, device: DI.Device, status: Value,
                     path: string, version: string, host: string) returns (v: Value, clients: seq<Value>)
    requires ls != [] && forall i :: 0 <= i < |ls| ==> PlainLease(ls[i])
    requires forall i :: 0 <= i < |ls| ==> PlainText(ls[i].mac) && PlainText(ls[i].ip) && PlainText(ls[i].hostname)
    requires traffic != "" && TrafficText(traffic) && PlainText(gwId) && DI.Sound(device)
    requires dog.Asked? && dog.status.Some? ==> ReadsValue(dog.status.value, status)
    requires '\r' !in path && '\r' !in version && '\r' !in host
    ensures LeaseText(PrintLeases(ls))
    ensures var cs := JoinedClients(PrintLeases(ls), traffic);
            var text := DI.DeviceText(device);
            var json := PingText(gwId, dog, text, cs);
            var message := PR.ReadMessage(PingRequest(path, version, host, json));
            FitsBuffers(gwId, dog, text, cs) && FitsRequest(path, version, host, json) ==>
              && message.Some? && PR.ContentLength(message.value.0) == Some(|message.value.1|)
              && ReadValue(message.value.1) == Some((v, ""))
    ensures Get(v, "clientList") == Some(Arr(clients)) && |clients| == |ls|
    ensures forall i :: 0 <= i < |ls| ==> Tells(clients[i], ls[i], Traffics(traffic))
    ensures Get(v, "deviceData").Some? && DI.Reports(Get(v, "deviceData").value, device)
    ensures Get(v, "gw_id") == Some(Str(gwId)) && Get(v, "wifidog_flag") == Some(Bool(dog.Asked?))
    ensures dog.Asked? ==> Get(v, "wifidog_status") == Some(if dog.status.Some? then status else Obj([]))
  {
    LeasesAreRead(ls);
    var cs := JoinedClients(PrintLeases(ls), traffic);
    var told := Obj(DI.DeviceMembers(device));
    v := Obj(PingMembers(gwId, dog, Member("deviceData", told), cs, status));
    clients := ClientValues(cs);
    LeasesPlain(ls);
    PingOfDeviceArrives(PrintLeases(ls), traffic, gwId, dog, device, status, path, version, host);
    PingKeys(gwId, dog, told, cs, status);
    DI.DeviceIsReported(device);
    forall i | 0 <= i < |ls| ensures Tells(clients[i], ls[i], Traffics(traffic)) {
      ClientTells(ls[i], Traffics(traffic));
    }
  }

  lemma LeasesPlain(ls: seq<Lease>)
    requires forall i :: 0 <= i < |ls| ==> PlainText(ls[i].mac) && PlainText(ls[i].ip) && PlainText(ls[i].hostname)
    ensures forall c :: c in Clients(ls) ==> PlainClient(c)
  {
  }
}
