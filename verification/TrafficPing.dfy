/** From the counting rules to the server: one traffic_update of the script and the ping that follows it. */
module TrafficPing {
  import opened ClientList
  import opened CountRules
  import opened Json
  import opened Ping
  import opened PingJson
  import opened TrafficFile
  import opened TrafficListing
  import opened Wrappers
  import PR = PostResult

  // ----- The records of a chain -----

  lemma {:induction false} UploadsAreOwn(chain: seq<Rule>, text: Rule -> string, d: string, n: nat)
    requires OnlyOwn(chain, text, d) && n in Uploads(chain, text, d)
    ensures Up(d, n) in chain
    decreases chain
  {
    var more := chain[1..];
    assert forall i :: 0 <= i < |more| ==> more[i] == chain[i + 1];
    if n in Uploads(more, text, d) {
      UploadsAreOwn(more, text, d, n);
    } else {
      assert n == chain[0].count;
    }
  }

  lemma {:induction false} RecordsOfRules(rules: seq<Rule>, chain: seq<Rule>, text: Rule -> string,
                                          down: string -> int, up: string -> int, t: TrafficRec)
    requires t in RecordsOf(rules, chain, text, down, up)
    ensures t.incoming >= 0 && Down(t.ip, t.incoming) in rules
    ensures t == RecordOf(t.ip, t.incoming, chain, text, down, up)
    decreases rules
  {
    var more := RecordsOf(rules[1..], chain, text, down, up);
    if t in more {
      RecordsOfRules(rules[1..], chain, text, down, up, t);
    } else {
      assert rules[0].Down? && t == RecordOf(rules[0].addr, rules[0].count, chain, text, down, up);
      assert rules[0] == Down(t.ip, t.incoming);
    }
  }

  lemma {:induction false} RecordForEach(rules: seq<Rule>, chain: seq<Rule>, text: Rule -> string,
                                         down: string -> int, up: string -> int, x: string)
    requires x in Downs(rules)
    ensures exists t :: t in RecordsOf(rules, chain, text, down, up) && t.ip == x
    decreases rules
  {
    var r := rules[0];
    if r.Down? && r.addr == x {
      assert RecordOf(r.addr, r.count, chain, text, down, up) in RecordsOf(rules, chain, text, down, up);
    } else {
      RecordForEach(rules[1..], chain, text, down, up, x);
      var t :| t in RecordsOf(rules[1..], chain, text, down, up) && t.ip == x;
      assert t in RecordsOf(rules, chain, text, down, up);
    }
  }

  /** The client c as a ping reports it: with the counters of its two rules and its rates. */
  predicate Reported(chain: seq<Rule>, down: string -> int, up: string -> int, c: ClientRec, sent: ClientRec) {
    && sent.incoming >= 0 && Down(c.ip, sent.incoming) in chain
    && sent.outgoing >= 0 && Up(c.ip, sent.outgoing) in chain
    && sent == c.(incoming := sent.incoming, outgoing := sent.outgoing, goSpeed := up(c.ip), comeSpeed := down(c.ip))
  }

  /** Joining a client with the records of a chain. */
  lemma JoinedIsReported(chain: seq<Rule>, text: Rule -> string, down: string -> int, up: string -> int, c: ClientRec)
    requires Paired(chain) && ShowsOwn(chain, text) && Apart(chain, text)
    ensures var sent := Joined(c, RecordsOf(chain, chain, text, down, up));
            if c.ip in Downs(chain) then Reported(chain, down, up, c, sent) else sent == c
  {
    var ts := RecordsOf(chain, chain, text, down, up);
    var k := FirstFor(ts, c.ip);
    if c.ip in Downs(chain) {
      RecordForEach(chain, chain, text, down, up, c.ip);
      RecordsOfRules(chain, chain, text, down, up, ts[k]);
      var i := DownRuleOf(chain, c.ip);
      OneUpload(chain, text, i);
      UploadsAreOwn(chain, text, c.ip, Uploads(chain, text, c.ip)[0]);
    } else if k < |ts| {
      RecordsOfRules(chain, chain, text, down, up, ts[k]);
      PairedIsListed(chain, Down(ts[k].ip, ts[k].incoming));
    }
  }

  // ----- One update -----

  /** The ARP table holds addresses of hosts, and no two addresses, live or counted, look alike. */
  ghost predicate Distinct(chain: seq<Rule>, arp: seq<string>) {
    && (forall a :: a in arp ==> IsAddress(a))
    && forall x, y :: (x in arp || x in Downs(chain)) && (y in arp || y in Downs(chain)) && Match(x, y) ==> x == y
  }

  /** The records fit the line buffer of the reader. */
  predicate RecordsFit(chain: seq<Rule>, packets: Rule -> nat, down: string -> int, up: string -> int) {
    forall i :: 0 <= i < |chain| && chain[i].Down? ==>
      |RecordLine(RecordOf(chain[i].addr, chain[i].count, chain, Listing(packets), down, up))| <= 1022
  }

  /** The file that the ping reads, as the script writes it for a chain. */
  function FileOf(chain: seq<Rule>, packets: Rule -> nat, rates: string -> (string, string)): (r: string) {
    InfoText(TrafficLines(chain, chain, Listing(packets)), rates)
  }

  /** The chain after an update of paired rules with distinct addresses. */
  lemma UpdateCountsHosts(chain: seq<Rule>, arp: seq<string>)
    requires Paired(chain) && Distinct(chain, arp)
    ensures var u := Update(chain, arp);
            Paired(u) && Hosts(u) && NoMatches(u) && forall x :: x in Downs(u) <==> x in arp
  {
    UpdateIs(chain, arp);
    NoMatchesSuffice(chain, arp);
    ReconcilesExactly(chain, arp);
  }

  /** After the update the file tells for every client in the ARP table the counters of its two rules, and nothing about
      any other client. */
  lemma UpdateIsReported(chain: seq<Rule>, arp: seq<string>, packets: Rule -> nat, rates: string -> (string, string),
                         down: string -> int, up: string -> int, leases: string)
    requires Paired(chain) && Distinct(chain, arp) && LeaseText(leases)
    requires var u := Update(chain, arp);
             CountersApart(u, packets) && OneRate(u, rates, down, up) && RecordsFit(u, packets, down, up)
    ensures var u := Update(chain, arp);
            var traffic := FileOf(u, packets, rates);
            && TrafficText(traffic) && (arp != [] ==> traffic != "")
            && |JoinedClients(leases, traffic)| == |Leases(leases)|
            && forall i :: 0 <= i < |Leases(leases)| ==>
                 var c, sent := Leases(leases)[i], JoinedClients(leases, traffic)[i];
                 if c.ip in arp then Reported(u, down, up, c, sent) else sent == c
  {
    var u := Update(chain, arp);
    UpdateCountsHosts(chain, arp);
    HostsAddressed(u);
    ListingShowsOwn(u, packets);
    ListingApart(u, packets);
    PairedFileIsRead(u, Listing(packets), rates, down, up);
    if arp != [] {
      RecordForEach(u, u, Listing(packets), down, up, arp[0]);
    }
    forall i | 0 <= i < |Leases(leases)|
      ensures var c, sent := Leases(leases)[i], JoinedClients(leases, FileOf(u, packets, rates))[i];
              if c.ip in arp then Reported(u, down, up, c, sent) else sent == c
    {
      JoinedIsReported(u, Listing(packets), down, up, Leases(leases)[i]);
    }
  }

  /** From the counting rules to the server: what it reads out of the ping request is one JSON object, whose clients are
      the leases in file order, each that is in the ARP table with the counters of its two rules after the update. */
  lemma CountersArrive(chain: seq<Rule>, arp: seq<string>, packets: Rule -> nat, rates: string -> (string, string),
                       down: string -> int, up: string -> int, leases: string, gwId: string, dog: Dog, device: string,
                       m: Member, status: Value, path: string, version: string, host: string)
    returns (sent: seq<ClientRec>)
    requires Paired(chain) && Distinct(chain, arp) && arp != []
    requires var u := Update(chain, arp);
             CountersApart(u, packets) && OneRate(u, rates, down, up) && RecordsFit(u, packets, down, up)
    requires leases != "" && LeaseText(leases) && forall c :: c in Leases(leases) ==> PlainClient(c)
    requires PlainText(gwId) && ReadsMember(device, m)
    requires dog.Asked? && dog.status.Some? ==> ReadsValue(dog.status.value, status)
    requires '\r' !in path && '\r' !in version && '\r' !in host
    ensures |sent| == |Leases(leases)|
    ensures forall i :: 0 <= i < |sent| ==>
              if Leases(leases)[i].ip in arp then Reported(Update(chain, arp), down, up, Leases(leases)[i], sent[i])
              else sent[i] == Leases(leases)[i]
    ensures var traffic := FileOf(Update(chain, arp), packets, rates);
            TrafficText(traffic) && sent == JoinedClients(leases, traffic)
    ensures var json := PingText(gwId, dog, device, sent);
            var message := PR.ReadMessage(PingRequest(path, version, host, json));
            FitsBuffers(gwId, dog, device, sent) && FitsRequest(path, version, host, json) ==>
              && message.Some?
              && PR.ContentLength(message.value.0) == Some(|message.value.1|)
              && ReadValue(message.value.1) == Some((Obj(PingMembers(gwId, dog, m, sent, status)), ""))
  {
    var traffic := FileOf(Update(chain, arp), packets, rates);
    UpdateIsReported(chain, arp, packets, rates, down, up, leases);
    sent := JoinedClients(leases, traffic);
    PingArrives(leases, traffic, gwId, dog, device, m, status, path, version, host);
  }
}
