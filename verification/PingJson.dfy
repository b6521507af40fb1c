/** The JSON text of a ping: printed field by field as sprintf does it, and read back by the reference reader. */
module PingJson {
  import opened Decimal
  import opened Wrappers
  import opened Json
  import opened ClientList
  import opened Seqs

  const MAX_STRING_LEN := 10240

  // ----- One client -----

  function EntryTexts(c: ClientRec): (r: seq<string>) {
    [Field("mac", Quoted(c.mac)), Field("ip", Quoted(c.ip)), Field("incoming", Print(c.incoming)),
     Field("outgoing", Print(c.outgoing)), Field("hostname", Quoted(c.hostname)),
     Field("go_speed", Print(c.goSpeed)), Field("come_speed", Print(c.comeSpeed))]
  }

  /** The text the format string of get_client_list_json produces for one client, without the final comma. */
  function Entry(c: ClientRec): (r: string) {
    "{" + JoinMembers(EntryTexts(c))
  }

  function Members(c: ClientRec): (r: seq<Member>) {
    [Member("mac", Str(c.mac)), Member("ip", Str(c.ip)), Member("incoming", Int(c.incoming)),
     Member("outgoing", Int(c.outgoing)), Member("hostname", Str(c.hostname)),
     Member("go_speed", Int(c.goSpeed)), Member("come_speed", Int(c.comeSpeed))]
  }

  function ClientValue(c: ClientRec): (r: Value) {
    Obj(Members(c))
  }

  function ClientValues(cs: seq<ClientRec>): (r: seq<Value>) {
    seq(|cs|, i requires 0 <= i < |cs| => ClientValue(cs[i]))
  }

  /** The printed client is the rendering of an object with the seven members, in this order. */
  lemma EntryIsRendered(c: ClientRec)
    ensures Entry(c) == Render(ClientValue(c))
  {
    var ms := Members(c);
    RenderInt(c.incoming);
    RenderInt(c.outgoing);
    RenderInt(c.goSpeed);
    RenderInt(c.comeSpeed);
    assert FieldTexts(ms) == EntryTexts(c);
    RenderedIsJoined(ms);
  }

  // ----- The list of clients -----

  const LIST_HEAD := "\"clientList\":["

  /** Every part followed by a comma. */
  function Commas(parts: seq<string>): (r: string) {
    if parts == [] then "" else parts[0] + ("," + Commas(parts[1..]))
  }

  /** The text in the buffer after the loop: every client followed by a comma. */
  function Entries(cs: seq<ClientRec>): (r: string) {
    Commas(Texts(cs))
  }

  function Texts(cs: seq<ClientRec>): (r: seq<string>) {
    seq(|cs|, i requires 0 <= i < |cs| => Entry(cs[i]))
  }

  lemma {:induction false} CommasSnoc(parts: seq<string>, p: string)
    ensures Commas(parts + [p]) == Commas(parts) + (p + ",")
  {
    if parts == [] {
      assert (parts + [p])[1..] == [];
      assert "" + (p + ",") == p + ("," + "");
    } else {
      assert (parts + [p])[1..] == parts[1..] + [p];
      CommasSnoc(parts[1..], p);
      Assoc(",", Commas(parts[1..]), p + ",");
      Assoc(parts[0], "," + Commas(parts[1..]), p + ",");
    }
  }

  /** Replacing the last comma by a blank and closing the bracket gives a rendered array. */
  lemma {:induction false} CommasAreRendered(parts: seq<string>, vs: seq<Value>)
    requires parts != [] && |vs| == |parts| && forall i :: 0 <= i < |vs| ==> parts[i] == Render(vs[i])
    ensures |Commas(parts)| > 0
    ensures Commas(parts)[..|Commas(parts)| - 1] + " ]" == RenderElems(vs)
  {
    if |parts| == 1 {
      assert parts[1..] == [];
      assert Commas(parts)[..|Commas(parts)| - 1] == parts[0];
    } else {
      CommasAreRendered(parts[1..], vs[1..]);
      DropLast(parts[0], Commas(parts[1..]));
    }
  }

  lemma DropLast(p: string, t: string)
    requires |t| > 0
    ensures var s := p + ("," + t);
            s[..|s| - 1] + " ]" == p + ("," + (t[..|t| - 1] + " ]"))
  {
  }

  predicate FitsBuffer(recs: seq<ClientRec>) {
    |LIST_HEAD + Entries(recs)| + 1 < MAX_STRING_LEN
  }

  predicate IsPrinted(tmp: string, recs: seq<ClientRec>) {
    tmp == LIST_HEAD + Entries(recs)
  }

  /** get_client_list_json. The buffer must hold the text and its terminating zero. */
  method GetClientListJson(cList: Client, ghost cs: seq<Client>, ghost recs: seq<ClientRec>) returns (json: string)
    requires ClientChain(cList, cs, recs)
    requires FitsBuffer(recs)
    ensures json == Field("clientList", Render(Arr(ClientValues(recs))))
  {
    var tmp := LIST_HEAD;
    NothingPrinted();
    var p: Client? := cList;
    ghost var i := 0;
    while p != null
      invariant i <= |cs| && (if i == |cs| then p == null else p == cs[i])
      invariant IsPrinted(tmp, recs[..i])
      decreases |cs| - i
    {
      tmp := PrintClient(tmp, p, recs, i);
      p := p.next;
      i := i + 1;
    }
    assert recs[..i] == recs;
    json := CloseList(tmp, recs);
  }

  lemma NothingPrinted()
    ensures IsPrinted(LIST_HEAD, [])
  {
  }

  /** One sprintf at the end of the buffer. */
  method PrintClient(tmp: string, p: Client, ghost recs: seq<ClientRec>, ghost i: nat) returns (r: string)
    requires i < |recs| && p.Rec() == recs[i] && IsPrinted(tmp, recs[..i])
    ensures IsPrinted(r, recs[..i + 1])
  {
    r := tmp + (Entry(p.Rec()) + ",");
    OneMorePrinted(tmp, recs, i);
  }

  lemma OneMorePrinted(tmp: string, recs: seq<ClientRec>, i: nat)
    requires i < |recs| && IsPrinted(tmp, recs[..i])
    ensures IsPrinted(tmp + (Entry(recs[i]) + ","), recs[..i + 1])
  {
    TextsSnoc(recs, i);
    OneMorePart(tmp, Texts(recs[..i]), Entry(recs[i]));
  }

  lemma TextsSnoc(recs: seq<ClientRec>, i: nat)
    requires i < |recs|
    ensures Texts(recs[..i + 1]) == Texts(recs[..i]) + [Entry(recs[i])]
  {
  }

  lemma OneMorePart(tmp: string, parts: seq<string>, e: string)
    requires tmp == LIST_HEAD + Commas(parts)
    ensures tmp + (e + ",") == LIST_HEAD + Commas(parts + [e])
  {
    CommasSnoc(parts, e);
    Assoc(LIST_HEAD, Commas(parts), e + ",");
  }

  /** tmp[cur_len - 1] = ' '; tmp[cur_len] = ']'. */
  method CloseList(tmp: string, ghost recs: seq<ClientRec>) returns (json: string)
    requires recs != [] && IsPrinted(tmp, recs)
    ensures json == Field("clientList", Render(Arr(ClientValues(recs))))
  {
    ClosedList(tmp, recs);
    json := tmp[..|tmp| - 1] + " ]";
  }

  lemma ClosedList(tmp: string, recs: seq<ClientRec>)
    requires recs != [] && tmp == LIST_HEAD + Entries(recs)
    ensures |tmp| > 0 && tmp[..|tmp| - 1] + " ]" == Field("clientList", Render(Arr(ClientValues(recs))))
  {
    EntriesAreRendered(recs);
    ListHeadIsField(RenderElems(ClientValues(recs)));
    ClosedText(tmp, LIST_HEAD, Entries(recs), RenderElems(ClientValues(recs)));
  }

  lemma EntriesAreRendered(recs: seq<ClientRec>)
    requires recs != []
    ensures |Entries(recs)| > 0
    ensures Entries(recs)[..|Entries(recs)| - 1] + " ]" == RenderElems(ClientValues(recs))
  {
    var vs := ClientValues(recs);
    forall i | 0 <= i < |recs| ensures Texts(recs)[i] == Render(vs[i]) {
      EntryIsRendered(recs[i]);
    }
    CommasAreRendered(Texts(recs), vs);
  }

  lemma ClosedText(tmp: string, head: string, e: string, elems: string)
    requires tmp == head + e && |e| > 0 && e[..|e| - 1] + " ]" == elems
    ensures |tmp| > 0 && tmp[..|tmp| - 1] + " ]" == head + elems
  {
    assert tmp[..|tmp| - 1] == head + e[..|e| - 1];
    Assoc(head, e[..|e| - 1], " ]");
  }

  lemma ListHeadIsField(elems: string)
    ensures LIST_HEAD + elems == Field("clientList", "[" + elems)
  {
    assert LIST_HEAD == Quoted("clientList") + (":" + "[");
    Assoc(Quoted("clientList"), ":" + "[", elems);
    Assoc(":", "[", elems);
  }

  predicate PlainClient(c: ClientRec) {
    PlainText(c.mac) && PlainText(c.ip) && PlainText(c.hostname)
  }

  lemma KeysPlain()
    ensures PlainText("mac") && PlainText("ip") && PlainText("incoming") && PlainText("outgoing")
    ensures PlainText("hostname") && PlainText("go_speed") && PlainText("come_speed")
  {
  }

  predicate PlainMember(m: Member) {
    PlainText(m.key) && Plain(m.value)
  }

  lemma MembersPlain(ms: seq<Member>)
    requires forall i :: 0 <= i < |ms| ==> PlainMember(ms[i])
    ensures Plain(Obj(ms))
  {
    forall m | m in ms ensures PlainText(m.key) && Plain(m.value) {
      var i :| 0 <= i < |ms| && ms[i] == m;
      assert PlainMember(ms[i]);
    }
  }

  lemma ClientPlain(c: ClientRec)
    requires PlainClient(c)
    ensures Plain(ClientValue(c))
  {
    var ms := Members(c);
    KeysPlain();
    assert PlainMember(ms[0]) && PlainMember(ms[1]) && PlainMember(ms[2]) && PlainMember(ms[3]);
    assert PlainMember(ms[4]) && PlainMember(ms[5]) && PlainMember(ms[6]);
    MembersPlain(ms);
  }

  lemma ClientValuesPlain(cs: seq<ClientRec>)
    requires forall c :: c in cs ==> PlainClient(c)
    ensures forall v :: v in ClientValues(cs) ==> Plain(v)
  {
    forall v | v in ClientValues(cs) ensures Plain(v) {
      var i :| 0 <= i < |cs| && ClientValues(cs)[i] == v;
      ClientPlain(cs[i]);
    }
  }

  /** Reading the printed array of clients gives exactly the clients, in order. */
  lemma ReadClients(cs: seq<ClientRec>, rest: string)
    requires (forall c :: c in cs ==> PlainClient(c)) && Delimited(rest)
    ensures ReadValue(Render(Arr(ClientValues(cs))) + rest) == Some((Arr(ClientValues(cs)), rest))
  {
    ClientValuesPlain(cs);
    ReadRendered(Arr(ClientValues(cs)), rest);
  }

  // ----- The whole ping -----

  /** What status the wifidog gave, if the device has one; None if it could not be asked. */
  datatype Dog = NoDog | Asked(status: Option<string>)

  function DogFlag(dog: Dog): (r: string) {
    if dog.NoDog? then "false" else "true"
  }

  /** The texts between the commas of a ping. The device file and the wifidog status go in as they are. */
  function PingTexts(gwId: string, dog: Dog, device: string, clients: string): (r: seq<string>) {
    [Field("gw_id", Quoted(gwId)), Field("wifidog_flag", DogFlag(dog)), device, clients] + StatusTexts(dog)
  }

  function StatusTexts(dog: Dog): (r: seq<string>) {
    match dog
    case NoDog => []
    case Asked(None) => [Field("wifidog_status", "{}")]
    case Asked(Some(status)) => [Field("wifidog_status", status)]
  }

  function ClientsText(cs: seq<ClientRec>): (r: string) {
    Field("clientList", Render(Arr(ClientValues(cs))))
  }

  function PingText(gwId: string, dog: Dog, device: string, cs: seq<ClientRec>): (r: string) {
    "{" + JoinMembers(PingTexts(gwId, dog, device, ClientsText(cs)))
  }

  /** What the peer should get: m is the member in the device file, status the value the wifidog gave. */
  function PingMembers(gwId: string, dog: Dog, m: Member, cs: seq<ClientRec>, status: Value): (r: seq<Member>) {
    [Member("gw_id", Str(gwId)), Member("wifidog_flag", Bool(!dog.NoDog?)), m,
     Member("clientList", Arr(ClientValues(cs)))]
    + match dog
      case NoDog => []
      case Asked(None) => [Member("wifidog_status", Obj([]))]
      case Asked(Some(_)) => [Member("wifidog_status", status)]
  }

  lemma PingKeysPlain()
    ensures PlainText("gw_id") && PlainText("wifidog_flag") && PlainText("clientList") && PlainText("wifidog_status")
  {
  }

  lemma GwIdReads(gwId: string)
    requires PlainText(gwId)
    ensures ReadsMember(Field("gw_id", Quoted(gwId)), Member("gw_id", Str(gwId)))
  {
    PingKeysPlain();
    RenderedReads(Str(gwId));
    FieldReads("gw_id", Quoted(gwId), Str(gwId));
  }

  lemma FlagReads(dog: Dog)
    ensures ReadsMember(Field("wifidog_flag", DogFlag(dog)), Member("wifidog_flag", Bool(!dog.NoDog?)))
  {
    PingKeysPlain();
    RenderedReads(Bool(!dog.NoDog?));
    FieldReads("wifidog_flag", DogFlag(dog), Bool(!dog.NoDog?));
  }

  lemma ClientsRead(cs: seq<ClientRec>)
    requires forall c :: c in cs ==> PlainClient(c)
    ensures ReadsMember(ClientsText(cs), Member("clientList", Arr(ClientValues(cs))))
  {
    PingKeysPlain();
    ClientValuesPlain(cs);
    RenderedReads(Arr(ClientValues(cs)));
    FieldReads("clientList", Render(Arr(ClientValues(cs))), Arr(ClientValues(cs)));
  }

  lemma StatusReads(text: string, status: Value)
    requires ReadsValue(text, status)
    ensures ReadsMember(Field("wifidog_status", text), Member("wifidog_status", status))
  {
    PingKeysPlain();
    FieldReads("wifidog_status", text, status);
  }

  /** For every device file and wifidog status that the reader accepts, the text of a ping is one JSON object, and
      its clientList is the list of clients. */
  lemma PingIsRead(gwId: string, dog: Dog, device: string, m: Member, cs: seq<ClientRec>, status: Value)
    requires (forall c :: c in cs ==> PlainClient(c)) && PlainText(gwId) && ReadsMember(device, m)
    requires dog.Asked? && dog.status.Some? ==> ReadsValue(dog.status.value, status)
    ensures ReadValue(PingText(gwId, dog, device, cs)) == Some((Obj(PingMembers(gwId, dog, m, cs, status)), ""))
  {
    var texts, ms := PingTexts(gwId, dog, device, ClientsText(cs)), PingMembers(gwId, dog, m, cs, status);
    GwIdReads(gwId);
    FlagReads(dog);
    ClientsRead(cs);
    if dog.Asked? {
      if dog.status.Some? {
        StatusReads(dog.status.value, status);
      } else {
        RenderedReads(Obj([]));
        StatusReads("{}", Obj([]));
      }
    }
    ReadObject(texts, ms, "");
    assert "{" + JoinMembers(texts) + "" == "{" + JoinMembers(texts);
  }

  /** The client buffer and the buffer of the whole text are large enough. */
  predicate FitsBuffers(gwId: string, dog: Dog, device: string, cs: seq<ClientRec>) {
    FitsBuffer(cs) && |PingText(gwId, dog, device, cs)| < MAX_STRING_LEN
  }

  /** What the two files say about the clients. */
  function JoinedClients(leases: string, traffic: string): (cs: seq<ClientRec>)
    requires LeaseText(leases) && TrafficText(traffic)
  {
    JoinAll(Leases(leases), Traffics(traffic))
  }

  lemma JoinedArePlain(leases: string, traffic: string)
    requires LeaseText(leases) && TrafficText(traffic) && forall c :: c in Leases(leases) ==> PlainClient(c)
    ensures forall c :: c in JoinedClients(leases, traffic) ==> PlainClient(c)
  {
    var cs := JoinedClients(leases, traffic);
    forall c | c in cs ensures PlainClient(c) {
      var i :| 0 <= i < |cs| && cs[i] == c;
      assert Leases(leases)[i] in Leases(leases);
    }
  }

  /** From the lease file and the traffic file to the peer: the clientList that is read holds the leases in file
      order, each joined with the first traffic record of its address. */
  lemma PingReadsBack(leases: string, traffic: string, gwId: string, dog: Dog, device: string, m: Member, status: Value)
    requires leases != "" && LeaseText(leases) && traffic != "" && TrafficText(traffic)
    requires forall c :: c in Leases(leases) ==> PlainClient(c)
    requires PlainText(gwId) && ReadsMember(device, m)
    requires dog.Asked? && dog.status.Some? ==> ReadsValue(dog.status.value, status)
    ensures var cs := JoinedClients(leases, traffic);
            FitsBuffers(gwId, dog, device, cs) ==>
              ReadValue(PingText(gwId, dog, device, cs)) == Some((Obj(PingMembers(gwId, dog, m, cs, status)), ""))
  {
    JoinedArePlain(leases, traffic);
    PingIsRead(gwId, dog, device, m, JoinedClients(leases, traffic), status);
  }
}
