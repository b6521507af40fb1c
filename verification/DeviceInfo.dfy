/** The device file, which update_device_info of the script update_ac_information.sh writes for the ping. */
module DeviceInfo {
  import opened Decimal
  import opened Json
  import opened Seqs
  import opened Wrappers

  /** What the system told the script. The load is a number with a fraction. */
  datatype Device = Device(uptime: nat, memFree: nat, loadWhole: nat, loadFraction: string, gwMac: string,
                           gwSsid: string, cpuUse: int, acVersion: string, wanIp: string, incoming: nat,
                           outgoing: nat, goSpeed: int, comeSpeed: int)

  predicate Sound(d: Device) {
    && d.loadFraction != "" && AllDigits(d.loadFraction)
    && PlainText(d.gwMac) && PlainText(d.gwSsid) && PlainText(d.acVersion) && PlainText(d.wanIp)
  }

  function LoadText(d: Device): (r: string) {
    Digits(d.loadWhole) + ("." + d.loadFraction)
  }

  function DeviceTexts(d: Device): (r: seq<string>) {
    [Field("sys_uptime", Print(d.uptime)), Field("sys_memfree", Print(d.memFree)), Field("sys_load", LoadText(d)),
     Field("gw_mac", Quoted(d.gwMac)), Field("gw_ssid", Quoted(d.gwSsid)), Field("cpu_use", Print(d.cpuUse)),
     Field("ac_version", Quoted(d.acVersion)), Field("wan_ip", Quoted(d.wanIp)), Field("incoming", Print(d.incoming)),
     Field("outgoing", Print(d.outgoing)), Field("go_speed", Print(d.goSpeed)), Field("come_speed", Print(d.comeSpeed))]
  }

  /** The file, without the newlines that the script deletes at the end. */
  function DeviceText(d: Device): (r: string) {
    Field("deviceData", "{" + JoinMembers(DeviceTexts(d)))
  }

  function Load(d: Device): (v: Value)
    requires AllDigits(d.loadFraction)
  {
    Num(d.loadWhole * Pow10(|d.loadFraction|) + Decimal.Value(d.loadFraction), 0 - |d.loadFraction|)
  }

  function DeviceMembers(d: Device): (r: seq<Member>)
    requires Sound(d)
  {
    [Member("sys_uptime", Int(d.uptime)), Member("sys_memfree", Int(d.memFree)), Member("sys_load", Load(d)),
     Member("gw_mac", Str(d.gwMac)), Member("gw_ssid", Str(d.gwSsid)), Member("cpu_use", Int(d.cpuUse)),
     Member("ac_version", Str(d.acVersion)), Member("wan_ip", Str(d.wanIp)), Member("incoming", Int(d.incoming)),
     Member("outgoing", Int(d.outgoing)), Member("go_speed", Int(d.goSpeed)), Member("come_speed", Int(d.comeSpeed))]
  }

  lemma KeysPlain()
    ensures PlainText("sys_uptime") && PlainText("sys_memfree") && PlainText("sys_load") && PlainText("gw_mac")
    ensures PlainText("gw_ssid") && PlainText("cpu_use") && PlainText("ac_version") && PlainText("wan_ip")
  {
  }

  lemma MoreKeysPlain()
    ensures PlainText("incoming") && PlainText("outgoing") && PlainText("go_speed") && PlainText("come_speed")
    ensures PlainText("deviceData")
  {
  }

  lemma IntReads(key: string, n: int)
    requires PlainText(key)
    ensures ReadsMember(Field(key, Print(n)), Member(key, Int(n)))
  {
    RenderedReads(Int(n));
    assert Render(Int(n)) == Print(n) + "" == Print(n);
    FieldReads(key, Print(n), Int(n));
  }

  lemma StrReads(key: string, s: string)
    requires PlainText(key) && PlainText(s)
    ensures ReadsMember(Field(key, Quoted(s)), Member(key, Str(s)))
  {
    RenderedReads(Str(s));
    FieldReads(key, Quoted(s), Str(s));
  }

  /** What starts like a number is read as one. */
  lemma NumberIsValue(s: string)
    requires s != "" && IsDigit(s[0])
    ensures ReadValue(s) == ReadNumber(s)
  {
    assert !Ws(s[0]) && SkipWs(s) == s;
    assert s[0] !in {'"', '[', '{', 't', 'f'};
  }

  lemma LoadThen(d: Device, rest: string)
    requires Sound(d) && Delimited(rest)
    ensures ReadValue(LoadText(d) + rest) == Some((Load(d), rest))
  {
    var tail := "." + (d.loadFraction + rest);
    ReadDecimal(d.loadWhole, d.loadFraction, rest);
    StartsWithDigit(d.loadWhole, tail);
    NumberIsValue(Digits(d.loadWhole) + tail);
    Assoc(Digits(d.loadWhole), "." + d.loadFraction, rest);
    Assoc(".", d.loadFraction, rest);
  }

  /** The load is read with all its digits. */
  lemma LoadReads(d: Device)
    requires Sound(d)
    ensures ReadsValue(LoadText(d), Load(d))
  {
    forall rest | Follows(rest)
      ensures ReadValue(LoadText(d) + rest) == Some((Load(d), rest)) && SkipWs(rest) == rest
    {
      FollowsIsSkipped(rest);
      LoadThen(d, rest);
    }
  }

  lemma FirstSixRead(d: Device)
    requires Sound(d)
    ensures forall i :: 0 <= i < 6 ==> ReadsMember(DeviceTexts(d)[i], DeviceMembers(d)[i])
  {
    KeysPlain();
    IntReads("sys_uptime", d.uptime);
    IntReads("sys_memfree", d.memFree);
    LoadReads(d);
    FieldReads("sys_load", LoadText(d), Load(d));
    StrReads("gw_mac", d.gwMac);
    StrReads("gw_ssid", d.gwSsid);
    IntReads("cpu_use", d.cpuUse);
  }

  lemma LastSixRead(d: Device)
    requires Sound(d)
    ensures forall i :: 6 <= i < 12 ==> ReadsMember(DeviceTexts(d)[i], DeviceMembers(d)[i])
  {
    KeysPlain();
    MoreKeysPlain();
    StrReads("ac_version", d.acVersion);
    StrReads("wan_ip", d.wanIp);
    IntReads("incoming", d.incoming);
    IntReads("outgoing", d.outgoing);
    IntReads("go_speed", d.goSpeed);
    IntReads("come_speed", d.comeSpeed);
  }

  /** The device file that the script writes is one JSON member, whatever the load is. */
  lemma DeviceIsRead(d: Device)
    requires Sound(d)
    ensures ReadsMember(DeviceText(d), Member("deviceData", Obj(DeviceMembers(d))))
  {
    FirstSixRead(d);
    LastSixRead(d);
    MoreKeysPlain();
    assert DeviceTexts(d)[0][0] == '"';
    ObjectReads(DeviceTexts(d), DeviceMembers(d));
    FieldReads("deviceData", "{" + JoinMembers(DeviceTexts(d)), Obj(DeviceMembers(d)));
  }

  /** Which value stands under which key. */
  predicate Reports(v: Value, d: Device)
    requires Sound(d)
  {
    && Get(v, "sys_uptime") == Some(Int(d.uptime)) && Get(v, "sys_memfree") == Some(Int(d.memFree))
    && Get(v, "sys_load") == Some(Load(d)) && Get(v, "gw_mac") == Some(Str(d.gwMac))
    && Get(v, "gw_ssid") == Some(Str(d.gwSsid)) && Get(v, "cpu_use") == Some(Int(d.cpuUse))
    && Get(v, "ac_version") == Some(Str(d.acVersion)) && Get(v, "wan_ip") == Some(Str(d.wanIp))
    && Get(v, "incoming") == Some(Int(d.incoming)) && Get(v, "outgoing") == Some(Int(d.outgoing))
    && Get(v, "go_speed") == Some(Int(d.goSpeed)) && Get(v, "come_speed") == Some(Int(d.comeSpeed))
  }

  const KEYS := ["sys_uptime", "sys_memfree", "sys_load", "gw_mac", "gw_ssid", "cpu_use", "ac_version", "wan_ip",
                 "incoming", "outgoing", "go_speed", "come_speed"]

  lemma KeysDiffer(j: nat, k: nat)
    requires j < k < 12
    ensures KEYS[j] != KEYS[k]
  {
  }

  lemma KeyOf(d: Device, k: nat)
    requires Sound(d) && k < 12
    ensures Get(Obj(DeviceMembers(d)), KEYS[k]) == Some(DeviceMembers(d)[k].value)
  {
    var ms := DeviceMembers(d);
    assert forall j :: 0 <= j < 12 ==> ms[j].key == KEYS[j];
    forall j | 0 <= j < k ensures ms[j].key != KEYS[k] {
      KeysDiffer(j, k);
    }
    FirstWithIs(ms, KEYS[k], k);
  }

  lemma DeviceIsReported(d: Device)
    requires Sound(d)
    ensures Reports(Obj(DeviceMembers(d)), d)
  {
    forall k | 0 <= k < 12 ensures Get(Obj(DeviceMembers(d)), KEYS[k]) == Some(DeviceMembers(d)[k].value) {
      KeyOf(d, k);
    }
    KeysAre();
  }

  lemma KeysAre()
    ensures KEYS[0] == "sys_uptime" && KEYS[1] == "sys_memfree" && KEYS[2] == "sys_load" && KEYS[3] == "gw_mac"
    ensures KEYS[4] == "gw_ssid" && KEYS[5] == "cpu_use" && KEYS[6] == "ac_version" && KEYS[7] == "wan_ip"
    ensures KEYS[8] == "incoming" && KEYS[9] == "outgoing" && KEYS[10] == "go_speed" && KEYS[11] == "come_speed"
  {
  }
}
