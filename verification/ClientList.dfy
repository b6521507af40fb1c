/** The lists of clients and of their traffic, built from text files node by node, and the join that
    copies the traffic into the clients. */
module ClientList {
  import opened Wrappers
  import opened Text
  import opened Decimal
  import opened Rotation
  import opened Seqs

  /** What a client node says; the numbers are those of struct _client_. */
  datatype ClientRec = ClientRec(mac: string, ip: string, hostname: string,
                                 incoming: int, outgoing: int, goSpeed: int, comeSpeed: int)

  datatype TrafficRec = TrafficRec(ip: string, incoming: int, outgoing: int, goSpeed: int, comeSpeed: int)

  // ----- The files as records -----

  const LEASE_LINE := 512
  const TRAFFIC_LINE := 1024

  /** The last field read may be missing, the others not; the fields are few enough for the pointer array,
      and each is short enough for its member. */
  predicate LeaseLine(line: string) {
    var seg := Split(line, ' ');
    3 <= |seg| <= 15 && |seg[1]| <= 17 && |seg[2]| <= 15 && (|seg| > 3 ==> |seg[3]| <= 63)
  }

  predicate TrafficLine(line: string) {
    var seg := Split(line, ' ');
    4 <= |seg| <= 15 && |seg[0]| <= 15
  }

  function LeaseOf(line: string): (r: ClientRec)
    requires LeaseLine(line)
  {
    var seg := Split(line, ' ');
    ClientRec(seg[1], seg[2], if |seg| > 3 then seg[3] else "", 0, 0, 0, 0)
  }

  function TrafficOf(line: string): (r: TrafficRec)
    requires TrafficLine(line)
  {
    var seg := Split(line, ' ');
    TrafficRec(seg[0], Atoi(seg[1]), Atoi(seg[2]), if |seg| > 4 then Atoi(seg[4]) else 0, Atoi(seg[3]))
  }

  /** Every line that fgets delivers is a lease line. */
  predicate LeaseText(text: string)
    decreases |text|
  {
    text == "" || (LeaseLine(TakeLine(text, LEASE_LINE)) && LeaseText(Behind(text, LEASE_LINE)))
  }

  predicate TrafficText(text: string)
    decreases |text|
  {
    text == "" || (TrafficLine(TakeLine(text, TRAFFIC_LINE)) && TrafficText(Behind(text, TRAFFIC_LINE)))
  }

  /** The text behind the first line. */
  function Behind(text: string, size: nat): (r: string)
    requires text != "" && size >= 2
    ensures |r| < |text|
  {
    text[|TakeLine(text, size)|..]
  }

  /** The clients of a lease file, in file order. */
  function Leases(text: string): (r: seq<ClientRec>)
    requires LeaseText(text)
    decreases |text|
  {
    if text == "" then [] else [LeaseOf(TakeLine(text, LEASE_LINE))] + Leases(Behind(text, LEASE_LINE))
  }

  function Traffics(text: string): (r: seq<TrafficRec>)
    requires TrafficText(text)
    decreases |text|
  {
    if text == "" then [] else [TrafficOf(TakeLine(text, TRAFFIC_LINE))] + Traffics(Behind(text, TRAFFIC_LINE))
  }

  // ----- Nodes -----

  class Client {
    var cIp: string
    var cMac: string
    var cHostname: string
    var incoming: int
    var outgoing: int
    var goSpeed: int
    var comeSpeed: int
    var next: Client?

    /** malloc: nothing is filled in. */
    constructor () {
    }

    function Rec(): (r: ClientRec)
      reads this
    {
      ClientRec(cMac, cIp, cHostname, incoming, outgoing, goSpeed, comeSpeed)
    }

    method Fill(mac: string, ip: string, hostname: string)
      requires |mac| <= 17 && |ip| <= 15 && |hostname| <= 63
      modifies this
      ensures Rec() == ClientRec(mac, ip, hostname, 0, 0, 0, 0) && next == null
    {
      cMac := mac;
      cIp := ip;
      cHostname := hostname;
      comeSpeed, goSpeed, incoming, outgoing := 0, 0, 0, 0;
      next := null;
    }
  }

  class Traffic {
    var trafficIp: string
    var incoming: int
    var outgoing: int
    var goSpeed: int
    var comeSpeed: int
    var next: Traffic?

    constructor () {
    }

    function Rec(): (r: TrafficRec)
      reads this
    {
      TrafficRec(trafficIp, incoming, outgoing, goSpeed, comeSpeed)
    }

    method Fill(r: TrafficRec)
      requires |r.ip| <= 15
      modifies this
      ensures Rec() == r && next == null
    {
      trafficIp := r.ip;
      incoming, outgoing, comeSpeed, goSpeed := r.incoming, r.outgoing, r.comeSpeed, r.goSpeed;
      next := null;
    }
  }

  /** cs are the nodes of the list, in order. */
  ghost predicate ClientLinks(head: Client?, cs: seq<Client>)
    reads cs`next
  {
    && (if cs == [] then head == null else head == cs[0] && cs[|cs| - 1].next == null)
    && (forall i {:trigger cs[i].next} :: 0 <= i < |cs| - 1 ==> cs[i].next == cs[i + 1])
  }

  /** The list holds the records. */
  ghost predicate ClientChain(head: Client?, cs: seq<Client>, recs: seq<ClientRec>)
    reads cs
  {
    && ClientLinks(head, cs) && Distinct(cs)
    && |cs| == |recs| && (forall i :: 0 <= i < |cs| ==> cs[i].Rec() == recs[i])
  }

  /** The last node is not a node before it. */
  ghost predicate LastApart<T>(s: seq<T>) {
    forall i :: 0 <= i < |s| - 1 ==> s[i] != s[|s| - 1]
  }

  ghost predicate TrafficChain(head: Traffic?, ts: seq<Traffic>, recs: seq<TrafficRec>)
    reads ts
  {
    && |ts| == |recs| && LastApart(ts)
    && (if ts == [] then head == null else head == ts[0] && ts[|ts| - 1].next == null)
    && (forall i {:trigger ts[i].next} :: 0 <= i < |ts| - 1 ==> ts[i].next == ts[i + 1])
    && (forall i :: 0 <= i < |ts| ==> ts[i].Rec() == recs[i])
  }

  /** strsep over the line: the pointers to its pieces, and a null behind them. The entries after
      the null keep whatever an earlier line left there. */
  method SplitSegments(line: string, seg: array<Option<string>>)
    requires seg.Length == 16 && |Split(line, ' ')| <= 15
    modifies seg
    ensures var pieces := Split(line, ' ');
            && (forall i :: 0 <= i < |pieces| ==> seg[i] == Some(pieces[i])) && seg[|pieces|] == None
            && (forall i :: |pieces| < i < seg.Length ==> seg[i] == old(seg[i]))
  {
    ghost var done: seq<string> := [];
    var ptr := Some(line);
    var i := 0;
    while ptr.Some?
      invariant i == |done| && done + ToDo(ptr) == Split(line, ' ')
      invariant forall j :: 0 <= j < i ==> seg[j] == Some(done[j])
      invariant forall j :: i <= j < seg.Length ==> seg[j] == old(seg[j])
      decreases ptr.Some?, if ptr.Some? then |ptr.value| else 0
    {
      var piece;
      piece, ptr := StrSep(ptr.value);
      Assoc(done, [piece], ToDo(ptr));
      seg[i] := Some(piece);
      done := done + [piece];
      i := i + 1;
    }
    seg[i] := None;
  }

  /** The pieces that strsep has still to deliver. */
  ghost function ToDo(ptr: Option<string>): (r: seq<string>)
    ensures ptr.Some? ==> |r| > 0
  {
    if ptr.Some? then Split(ptr.value, ' ') else []
  }

  /** strsep: the piece before the first blank, and a pointer behind it, null if there was none. */
  method StrSep(ptr: string) returns (piece: string, rest: Option<string>)
    ensures Split(ptr, ' ') == [piece] + ToDo(rest)
    ensures rest.Some? ==> |rest.value| < |ptr|
  {
    var k := Find(ptr, ' ');
    piece := ptr[..k];
    rest := if k < |ptr| then Some(ptr[k + 1..]) else None;
    assert k == |ptr| ==> piece == ptr;
  }

  /** One round of the list building: the node at the end of the list, or a new one behind it, is filled. */
  method AddClient(list: Client, head: Client?, pre: Client, mac: string, ip: string, hostname: string,
                   ghost cs: seq<Client>, ghost recs: seq<ClientRec>)
    returns (last: Client)
    requires cs == [] ==> head == list == pre && recs == []
    requires cs != [] ==> head == null && pre == cs[|cs| - 1] && ClientChain(list, cs, recs)
    requires |mac| <= 17 && |ip| <= 15 && |hostname| <= 63
    modifies pre
    ensures ClientChain(list, cs + [last], recs + [ClientRec(mac, ip, hostname, 0, 0, 0, 0)])
    ensures if cs == [] then last == list else fresh(last)
  {
    last := pre;
    if head == null {
      last := new Client();
      pre.next := last;
    }
    last.Fill(mac, ip, hostname);
  }

  /** One round of the list building: the node at the end of the list, or a new one behind it, is filled. */
  method AddTraffic(list: Traffic, head: Traffic?, pre: Traffic, r: TrafficRec,
                    ghost ts: seq<Traffic>, ghost recs: seq<TrafficRec>)
    returns (last: Traffic)
    requires ts == [] ==> head == list == pre && recs == []
    requires ts != [] ==> head == null && pre == ts[|ts| - 1] && TrafficChain(list, ts, recs)
    requires |r.ip| <= 15
    modifies pre
    ensures TrafficChain(list, ts + [last], recs + [r])
    ensures if ts == [] then last == list else fresh(last)
  {
    last := pre;
    if head == null {
      last := new Traffic();
      pre.next := last;
    }
    last.Fill(r);
  }

  /** Cut the next line into its fields. */
  method NextClient(text: string) returns (mac: string, ip: string, hostname: string, rest: string)
    requires text != "" && LeaseText(text)
    ensures |mac| <= 17 && |ip| <= 15 && |hostname| <= 63 && |rest| < |text| && LeaseText(rest)
    ensures Leases(text) == [ClientRec(mac, ip, hostname, 0, 0, 0, 0)] + Leases(rest)
  {
    var line := TakeLine(text, LEASE_LINE);
    var seg := new Option<string>[16];
    SplitSegments(line, seg);
    mac, ip := seg[1].value, seg[2].value;
    hostname := if seg[3].Some? then seg[3].value else "";
    rest := text[|line|..];
  }

  /** init_client_list: the node given is filled first, every further line gets a node of its own. */
  method InitClientList(list: Client, text: string) returns (ghost cs: seq<Client>)
    requires text != "" && LeaseText(text)
    modifies list
    ensures ClientChain(list, cs, Leases(text))
    ensures forall i :: 0 <= i < |cs| ==> cs[i] == list || fresh(cs[i])
  {
    var head: Client? := list;
    var pre := list;
    head.next := null;
    var rest := text;
    ghost var all, recs: seq<ClientRec> := Leases(text), [];
    cs := [];
    while rest != ""
      invariant LeaseText(rest) && recs + Leases(rest) == all
      invariant cs == [] ==> head == list == pre && recs == [] && rest != ""
      invariant cs != [] ==> head == null && pre == cs[|cs| - 1] && ClientChain(list, cs, recs)
      invariant pre == list || fresh(pre)
      invariant forall i :: 0 <= i < |cs| ==> cs[i] == list || fresh(cs[i])
      decreases |rest|
    {
      var mac, ip, hostname;
      mac, ip, hostname, rest := NextClient(rest);
      Assoc(recs, [ClientRec(mac, ip, hostname, 0, 0, 0, 0)], Leases(rest));
      pre := AddClient(list, head, pre, mac, ip, hostname, cs, recs);
      cs, recs := cs + [pre], recs + [ClientRec(mac, ip, hostname, 0, 0, 0, 0)];
      head := pre.next;
    }
  }

  /** Cut the next line into its fields. */
  method NextTraffic(text: string) returns (r: TrafficRec, rest: string)
    requires text != "" && TrafficText(text)
    ensures |r.ip| <= 15 && |rest| < |text| && TrafficText(rest)
    ensures Traffics(text) == [r] + Traffics(rest)
  {
    var line := TakeLine(text, TRAFFIC_LINE);
    var seg := new Option<string>[16];
    SplitSegments(line, seg);
    var goSpeed := if seg[4].Some? then Atoi(seg[4].value) else 0;
    r := TrafficRec(seg[0].value, Atoi(seg[1].value), Atoi(seg[2].value), goSpeed, Atoi(seg[3].value));
    rest := text[|line|..];
  }

  /** init_traffic_list: the same for the traffic file. */
  method InitTrafficList(list: Traffic, text: string) returns (ghost ts: seq<Traffic>)
    requires text != "" && TrafficText(text)
    modifies list
    ensures TrafficChain(list, ts, Traffics(text))
    ensures forall i :: 0 <= i < |ts| ==> ts[i] == list || fresh(ts[i])
  {
    var head: Traffic? := list;
    var pre := list;
    head.next := null;
    var rest := text;
    ghost var all, recs: seq<TrafficRec> := Traffics(text), [];
    ts := [];
    while rest != ""
      invariant TrafficText(rest) && recs + Traffics(rest) == all
      invariant ts == [] ==> head == list == pre && recs == [] && rest != ""
      invariant ts != [] ==> head == null && pre == ts[|ts| - 1] && TrafficChain(list, ts, recs)
      invariant pre == list || fresh(pre)
      invariant forall i :: 0 <= i < |ts| ==> ts[i] == list || fresh(ts[i])
      decreases |rest|
    {
      var r;
      r, rest := NextTraffic(rest);
      Assoc(recs, [r], Traffics(rest));
      pre := AddTraffic(list, head, pre, r, ts, recs);
      ts, recs := ts + [pre], recs + [r];
      head := pre.next;
    }
  }

  // ----- The join -----

  /** The first record with this address, or |ts|. */
  function FirstFor(ts: seq<TrafficRec>, ip: string, i: nat := 0): (k: nat)
    requires i <= |ts|
    ensures i <= k <= |ts|
    ensures forall j :: i <= j < k ==> ts[j].ip != ip
    ensures k < |ts| ==> ts[k].ip == ip
    decreases |ts| - i
  {
    if i < |ts| && ts[i].ip != ip then FirstFor(ts, ip, i + 1) else i
  }

  /** A client with the numbers of the first traffic record of its address; unchanged if there is none. */
  function Joined(c: ClientRec, ts: seq<TrafficRec>): (r: ClientRec) {
    var k := FirstFor(ts, c.ip);
    if k == |ts| then c
    else c.(incoming := ts[k].incoming, outgoing := ts[k].outgoing,
            goSpeed := ts[k].goSpeed, comeSpeed := ts[k].comeSpeed)
  }

  function JoinAll(cs: seq<ClientRec>, ts: seq<TrafficRec>): (r: seq<ClientRec>) {
    seq(|cs|, i requires 0 <= i < |cs| => Joined(cs[i], ts))
  }

  method FindTrafficByIp(list: Traffic?, ip: string, ghost ts: seq<Traffic>, ghost recs: seq<TrafficRec>)
    returns (p: Traffic?)
    requires TrafficChain(list, ts, recs)
    ensures var k := FirstFor(recs, ip);
            if k == |recs| then p == null else p == ts[k]
  {
    p := list;
    ghost var i := 0;
    while p != null
      invariant i <= |ts| && (if i == |ts| then p == null else p == ts[i])
      invariant FirstFor(recs, ip, i) == FirstFor(recs, ip)
      decreases |ts| - i
    {
      assert ts[i].Rec() == recs[i];
      if p.trafficIp == ip {
        return;
      }
      assert i + 1 < |ts| ==> ts[i].next == ts[i + 1];
      p := p.next;
      i := i + 1;
    }
  }

  method JoinOne(p: Client, tList: Traffic?, ghost ts: seq<Traffic>, ghost trecs: seq<TrafficRec>)
    requires TrafficChain(tList, ts, trecs)
    modifies p`incoming, p`outgoing, p`goSpeed, p`comeSpeed
    ensures p.Rec() == Joined(old(p.Rec()), trecs)
  {
    var t := FindTrafficByIp(tList, p.cIp, ts, trecs);
    if t != null {
      assert t.Rec() == trecs[FirstFor(trecs, p.cIp)];
      p.incoming := t.incoming;
      p.outgoing := t.outgoing;
      p.goSpeed := t.goSpeed;
      p.comeSpeed := t.comeSpeed;
    }
  }

  /** The i-th client is joined, the others are as before. */
  method JoinAt(p: Client, tList: Traffic?, ghost cs: seq<Client>, ghost i: nat, ghost ts: seq<Traffic>,
                ghost trecs: seq<TrafficRec>)
    requires i < |cs| && p == cs[i] && Distinct(cs) && TrafficChain(tList, ts, trecs)
    modifies p`incoming, p`outgoing, p`goSpeed, p`comeSpeed
    ensures p.Rec() == Joined(old(p.Rec()), trecs)
    ensures forall j :: 0 <= j < |cs| && j != i ==> cs[j].Rec() == old(cs[j].Rec())
  {
    JoinOne(p, tList, ts, trecs);
  }

  /** get_traffic_to_client: only the four numbers of a client change, and no link. */
  method GetTrafficToClient(cList: Client?, tList: Traffic?, ghost cs: seq<Client>, ghost ts: seq<Traffic>,
                            ghost crecs: seq<ClientRec>, ghost trecs: seq<TrafficRec>)
    requires ClientChain(cList, cs, crecs) && TrafficChain(tList, ts, trecs)
    modifies cs`incoming, cs`outgoing, cs`goSpeed, cs`comeSpeed
    ensures ClientChain(cList, cs, JoinAll(crecs, trecs))
  {
    var p := cList;
    ghost var i := 0;
    while p != null
      invariant i <= |cs| && (if i == |cs| then p == null else p == cs[i])
      invariant ClientLinks(cList, cs) && TrafficChain(tList, ts, trecs)
      invariant forall j :: 0 <= j < i ==> cs[j].Rec() == Joined(crecs[j], trecs)
      invariant forall j :: i <= j < |cs| ==> cs[j].Rec() == crecs[j]
      decreases |cs| - i
    {
      JoinAt(p, tList, cs, i, ts, trecs);
      p := p.next;
      i := i + 1;
    }
  }
}
