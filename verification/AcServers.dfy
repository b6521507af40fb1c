/** The list of AC servers kept in the configuration, as linked nodes on the heap,
    and the failover that walks it under the configuration lock. */
module AcServers {
  import opened Rotation
  import opened Seqs
  import opened Wrappers

  const DEFAULT_PORT := 8080
  const DEFAULT_PING_PATH := "/smartac/ping?"
  const DEFAULT_RESULT_PATH := "/smartac/result?"

  /** What the configuration file says about one server. */
  datatype ServerInfo = ServerInfo(hostname: string, pingPath: string, resultPath: string, port: int)

  class AcServer {
    const info: ServerInfo
    var lastIp: Option<string>
    var next: AcServer?

    constructor (info: ServerInfo)
      ensures this.info == info && lastIp == None && next == null
    {
      this.info := info;
      lastIp := None;
      next := null;
    }
  }

  /** Every answer the network gives during one call of connect_ac_server. A lookup is
      identified by the level of the recursion and a slot: slot 0 is the server at the head of the list,
      slot j + 1 the j-th popular server, so equal names may be answered differently each time. */
  datatype Answers = Answers(
    resolve: (nat, nat, string) -> Option<string>,
    socket: nat -> int,
    connect: (nat, string, int) -> bool)

  /** The network as one call sees it. It remembers which AC servers it was asked about. */
  class Network {
    const answers: Answers
    ghost var asked: seq<AcServer>

    constructor (answers: Answers)
      ensures this.answers == answers && asked == []
    {
      this.answers := answers;
      asked := [];
    }

    /** Look up the name of an AC server. */
    method ResolveServer(level: nat, server: AcServer) returns (ip: Option<string>)
      modifies `asked
      ensures ip == answers.resolve(level, 0, server.info.hostname)
      ensures asked == old(asked) + [server]
    {
      ip := answers.resolve(level, 0, server.info.hostname);
      asked := asked + [server];
    }
  }

  /** What one level of the recursion finds out about the server at the head. */
  datatype Verdict =
    | DnsDead
    | Offline
    | NoSocket(ip: string)
    | Refused(ip: string)
    | Connected(ip: string, fd: int)
  {
    /** The two outcomes after which the next server is tried. */
    predicate Skips() {
      DnsDead? || Refused?
    }

    function LastIp(before: Option<string>): (r: Option<string>) {
      match this
      case DnsDead => None
      case Offline => before
      case NoSocket(ip) => Some(ip)
      case Refused(ip) => Some(ip)
      case Connected(ip, _) => Some(ip)
    }
  }

  predicate SomePopularResolves(net: Answers, level: nat, popular: seq<string>) {
    exists j :: 0 <= j < |popular| && net.resolve(level, j + 1, popular[j]).Some?
  }

  function Judge(net: Answers, popular: seq<string>, level: nat, info: ServerInfo): (r: Verdict) {
    match net.resolve(level, 0, info.hostname)
    case None =>
      if SomePopularResolves(net, level, popular) then DnsDead else Offline
    case Some(ip) =>
      if net.socket(level) == -1 then NoSocket(ip)
      else if net.connect(level, ip, info.port % 0x1_0000) then Connected(ip, net.socket(level))
      else Refused(ip)
  }

  /** The verdicts on all servers of the list, for a call made at level 0. */
  function Verdicts(net: Answers, popular: seq<string>, s: seq<AcServer>): (vs: seq<Verdict>) {
    seq(|s|, i requires 0 <= i < |s| => Judge(net, popular, i + 1, s[i].info))
  }

  /** The index of the first verdict, from position i on, that settles the call. */
  function FirstStop(vs: seq<Verdict>, i: nat := 0): (k: nat)
    requires i <= |vs|
    ensures i <= k <= |vs|
    ensures forall j :: i <= j < k ==> vs[j].Skips()
    ensures k < |vs| ==> !vs[k].Skips()
    decreases |vs| - i
  {
    if i < |vs| && vs[i].Skips() then FirstStop(vs, i + 1) else i
  }

  /** The first settling server is the only position with nothing but skipped servers before it and a server
      that is not skipped, or the end of the list, at it. */
  lemma FirstStopIs(vs: seq<Verdict>, k: nat)
    ensures FirstStop(vs) == k <==>
              k <= |vs| && (forall j :: 0 <= j < k ==> vs[j].Skips()) && (k < |vs| ==> !vs[k].Skips())
  {
    var f := FirstStop(vs);
    if k <= |vs| && (forall j :: 0 <= j < k ==> vs[j].Skips()) && (k < |vs| ==> !vs[k].Skips()) {
      assert !(f < k) && !(k < f);
    }
  }

  /** The addresses remembered for the servers once the level entered at `enter` is over. */
  function IpsAfter(vs: seq<Verdict>, enter: nat, ips: seq<Option<string>>): (r: seq<Option<string>>)
    requires enter <= |vs|
    ensures |r| == |ips|
  {
    seq(|ips|, i requires 0 <= i < |ips| =>
      if enter + i <= FirstStop(vs, enter) && enter + i < |vs| then vs[enter + i].LastIp(ips[i]) else ips[i])
  }

  /** The verdict of level i + 1 on the list s as the level entered at `enter` finds it. */
  function VerdictAt(net: Answers, popular: seq<string>, enter: nat, s: seq<AcServer>, i: nat): (v: Verdict)
    requires enter <= i < enter + |s|
  {
    Judge(net, popular, i + 1, s[i - enter].info)
  }

  /** vs are the verdicts for a list that the level entered at `enter` finds as s: the servers before `enter` have
      gone to the end. */
  ghost predicate Judged(net: Answers, popular: seq<string>, enter: nat, s: seq<AcServer>, vs: seq<Verdict>) {
    && enter <= |s| == |vs|
    && forall i {:trigger VerdictAt(net, popular, enter, s, i)} :: enter <= i < |vs| ==>
         vs[i] == VerdictAt(net, popular, enter, s, i)
  }

  /** The servers that the level entered at `enter` and those below it ask about. */
  function Tried(vs: seq<Verdict>, enter: nat, s: seq<AcServer>): (r: seq<AcServer>)
    requires enter <= |vs| == |s|
  {
    var k := FirstStop(vs, enter);
    s[..if k < |vs| then k + 1 - enter else k - enter]
  }

  /** Those that the levels below it ask about. */
  function TriedBelow(vs: seq<Verdict>, enter: nat, s: seq<AcServer>): (r: seq<AcServer>)
    requires enter < |vs| == |s|
  {
    if vs[enter].Skips() then Tried(vs, enter + 1, Rotate(s, 1)) else []
  }

  /** What a level entered at `enter` leaves behind: the new list order and the socket. */
  ghost predicate Outcome(vs: seq<Verdict>, enter: nat, s: seq<AcServer>, order: seq<AcServer>, sockfd: int)
    requires enter <= |vs| == |s|
  {
    var k := FirstStop(vs, enter);
    && order == Rotate(s, k - enter)
    && sockfd == (if k < |vs| && vs[k].Connected? then vs[k].fd else -1)
  }

  /** What the network does to the server of one level, told by its answers alone: the server is passed over if its
      name does not resolve and that of some popular server does, or if it refuses the connection. */
  predicate PassedOver(net: Answers, popular: seq<string>, level: nat, info: ServerInfo) {
    var ip := net.resolve(level, 0, info.hostname);
    if ip.None? then exists j :: 0 <= j < |popular| && net.resolve(level, j + 1, popular[j]) != None
    else net.socket(level) != -1 && !net.connect(level, ip.value, info.port % 65536)
  }

  predicate Accepts(net: Answers, level: nat, info: ServerInfo) {
    var ip := net.resolve(level, 0, info.hostname);
    ip.Some? && net.socket(level) != -1 && net.connect(level, ip.value, info.port % 65536)
  }

  lemma VerdictMeans(net: Answers, popular: seq<string>, level: nat, info: ServerInfo)
    ensures var v := Judge(net, popular, level, info);
            && (v.Skips() <==> PassedOver(net, popular, level, info))
            && (v.Connected? <==> Accepts(net, level, info))
            && (v.Connected? ==> v.fd == net.socket(level))
  {
  }

  /** A call connects exactly if some server accepts and all servers before it are passed over: an unresolvable
      name with no popular server to vouch for the name service, or a failing socket, ends the search early. */
  lemma ConnectsExactly(net: Answers, popular: seq<string>, s: seq<AcServer>, order: seq<AcServer>, sockfd: int)
    requires Outcome(Verdicts(net, popular, s), 0, s, order, sockfd)
    ensures sockfd != -1 <==>
            exists i :: 0 <= i < |s| && Accepts(net, i + 1, s[i].info)
                        && forall j :: 0 <= j < i ==> PassedOver(net, popular, j + 1, s[j].info)
  {
    var vs := Verdicts(net, popular, s);
    forall i | 0 <= i < |s|
      ensures vs[i].Skips() <==> PassedOver(net, popular, i + 1, s[i].info)
      ensures vs[i].Connected? <==> Accepts(net, i + 1, s[i].info)
    {
      VerdictMeans(net, popular, i + 1, s[i].info);
    }
    if i :| 0 <= i < |s| && Accepts(net, i + 1, s[i].info)
            && forall j :: 0 <= j < i ==> PassedOver(net, popular, j + 1, s[j].info) {
      FirstStopIs(vs, i);
    }
  }

  /** A level that does not recurse, because the head settles the call. */
  lemma OutcomeAtOnce(vs: seq<Verdict>, enter: nat, s: seq<AcServer>, ips: seq<Option<string>>)
    requires enter < |vs| == |s| == |ips| && !vs[enter].Skips()
    ensures Outcome(vs, enter, s, s, if vs[enter].Connected? then vs[enter].fd else -1)
    ensures IpsAfter(vs, enter, ips) == ips[0 := vs[enter].LastIp(ips[0])]
  {
  }

  /** A level that has no server left to try. */
  lemma OutcomeAtEnd(vs: seq<Verdict>, s: seq<AcServer>, ips: seq<Option<string>>)
    requires |vs| == |s| == |ips|
    ensures Outcome(vs, |vs|, s, s, -1) && Tried(vs, |vs|, s) == [] && IpsAfter(vs, |vs|, ips) == ips
  {
  }

  /** A level that skips the head, moves it to the end and calls itself again. */
  lemma OutcomeAfterSkip(vs: seq<Verdict>, enter: nat, s: seq<AcServer>, order: seq<AcServer>, sockfd: int)
    requires enter < |vs| == |s|
    requires vs[enter].Skips()
    requires Outcome(vs, enter + 1, Rotate(s, 1), order, sockfd)
    ensures Outcome(vs, enter, s, order, sockfd)
  {
    RotateTwice(s, 1, FirstStop(vs, enter + 1) - enter - 1);
  }

  /** A level asks about the head first, then about what the levels below it ask about. */
  lemma TriedIsHeadFirst(vs: seq<Verdict>, enter: nat, s: seq<AcServer>)
    requires enter < |vs| == |s|
    ensures Tried(vs, enter, s) == [s[0]] + TriedBelow(vs, enter, s)
  {
    if vs[enter].Skips() {
      assert FirstStop(vs, enter) == FirstStop(vs, enter + 1);
      PrefixOfRotation(s, |Tried(vs, enter, s)|);
    } else {
      assert FirstStop(vs, enter) == enter && s[..1] == [s[0]];
    }
  }

  /** The addresses after a skip: the head keeps the one it got, the others get those of the next level. */
  lemma IpsAfterSkip(vs: seq<Verdict>, enter: nat, before: seq<Option<string>>, after: seq<Option<string>>)
    requires enter < |vs| == |before| == |after|
    requires vs[enter].Skips()
    requires Rotate(after, 1) == IpsAfter(vs, enter + 1, Rotate(before, 1))
    ensures after == IpsAfter(vs, enter, before)[0 := before[0]]
  {
    var n := |before|;
    assert Rotate(after, 1)[n - 1] == after[0] && Rotate(before, 1)[n - 1] == before[0];
    forall i | 1 <= i < n ensures after[i] == IpsAfter(vs, enter, before)[i] {
      assert Rotate(after, 1)[i - 1] == after[i] && Rotate(before, 1)[i - 1] == before[i];
    }
  }

  /** The address of the head is set first, the others by the levels below. */
  lemma IpsHeadFirst(vs: seq<Verdict>, enter: nat, before: seq<Option<string>>, ip: Option<string>)
    requires enter < |vs| == |before|
    requires vs[enter].Skips() && ip == vs[enter].LastIp(before[0])
    ensures IpsAfter(vs, enter, before[0 := ip])[0 := ip] == IpsAfter(vs, enter, before)
  {
  }

  /** The next level finds the verdicts still to come in their places. */
  lemma JudgedAfterMove(net: Answers, popular: seq<string>, enter: nat, s: seq<AcServer>, vs: seq<Verdict>)
    requires Judged(net, popular, enter, s, vs) && enter < |vs|
    ensures Judged(net, popular, enter + 1, Rotate(s, 1), vs)
  {
    forall i | enter + 1 <= i < |vs| ensures vs[i] == VerdictAt(net, popular, enter + 1, Rotate(s, 1), i) {
      assert Rotate(s, 1)[i - (enter + 1)] == s[i - enter];
      assert vs[i] == VerdictAt(net, popular, enter, s, i);
    }
  }

  /** What the addresses after a call mean: a server skipped because its name was dead has none, one that refused or
      accepted has the address just found, and one that was not tried keeps its own. */
  lemma IpsAfterIs(vs: seq<Verdict>, ips: seq<Option<string>>, i: nat)
    requires i < |vs| == |ips|
    ensures var k := FirstStop(vs); var ip := IpsAfter(vs, 0, ips)[i];
            && (i <= k && vs[i].DnsDead? ==> ip == None)
            && (i <= k && (vs[i].NoSocket? || vs[i].Refused? || vs[i].Connected?) ==> ip == Some(vs[i].ip))
            && (i > k || vs[i].Offline? ==> ip == ips[i])
  {
  }

  /** The addresses the servers are remembered with. */
  function Ips(s: seq<AcServer>): (r: seq<Option<string>>)
    reads s
  {
    seq(|s|, i requires 0 <= i < |s| reads s => s[i].lastIp)
  }

  lemma IpsOfRotation(s: seq<AcServer>)
    requires s != []
    ensures Ips(Rotate(s, 1)) == Rotate(Ips(s), 1)
  {
  }

  /** All that is left of a skip once the next level is over. */
  lemma AfterSkip(vs: seq<Verdict>, enter: nat, s: seq<AcServer>, order: seq<AcServer>, sockfd: int,
                  before: seq<Option<string>>)
    requires enter < |vs| == |s| == |before|
    requires vs[enter].Skips()
    requires Outcome(vs, enter + 1, Rotate(s, 1), order, sockfd)
    requires Ips(Rotate(s, 1)) == IpsAfter(vs, enter + 1, Rotate(before, 1))
    ensures Outcome(vs, enter, s, order, sockfd)
    ensures Ips(s) == IpsAfter(vs, enter, before)[0 := before[0]]
  {
    OutcomeAfterSkip(vs, enter, s, order, sockfd);
    IpsOfRotation(s);
    IpsAfterSkip(vs, enter, before, Ips(s));
  }

  lemma VerdictsAreJudged(net: Answers, popular: seq<string>, s: seq<AcServer>)
    ensures Judged(net, popular, 0, s, Verdicts(net, popular, s))
  {
  }

  /** What the outcome of a whole call means. */
  lemma OutcomeOfCall(vs: seq<Verdict>, s: seq<AcServer>, order: seq<AcServer>, sockfd: int)
    requires |vs| == |s| && Outcome(vs, 0, s, order, sockfd)
    ensures var k := FirstStop(vs);
            && order == Rotate(s, k) && (k == |s| ==> order == s)
            && Tried(vs, 0, s) == (if k < |s| then s[..k + 1] else s)
            && sockfd == (if k < |s| && vs[k].Connected? then vs[k].fd else -1)
            && multiset(order) == multiset(s)
  {
    RotationPermutes(s, order);
  }

  /** A successful call leaves the head where it was, so that the server read before the call is the one connected to,
      exactly if the first server accepts. */
  lemma HeadStaysExactly(net: Answers, popular: seq<string>, s: seq<AcServer>, order: seq<AcServer>, sockfd: int)
    requires Distinct(s) && Outcome(Verdicts(net, popular, s), 0, s, order, sockfd) && sockfd != -1
    ensures s != [] && order != []
    ensures order[0] == s[0] <==> Accepts(net, 1, s[0].info)
  {
    var vs := Verdicts(net, popular, s);
    VerdictMeans(net, popular, 1, s[0].info);
    assert order[0] == s[FirstStop(vs)] && vs[0] == Judge(net, popular, 1, s[0].info);
  }

  /** How a server is left by the call that stops at server k, told by the answers of the network alone. */
  predicate LeftWith(net: Answers, k: nat, i: nat, info: ServerInfo, before: Option<string>, after: Option<string>) {
    if i > k then after == before
    else if net.resolve(i + 1, 0, info.hostname).Some? then after == net.resolve(i + 1, 0, info.hostname)
    else after == if i == k then before else None
  }

  /** The whole call, told by the answers of the network alone. */
  lemma CallMeans(net: Answers, popular: seq<string>, s: seq<AcServer>, before: seq<Option<string>>) returns (k: nat)
    requires |before| == |s|
    ensures k <= |s| && k == FirstStop(Verdicts(net, popular, s))
    ensures forall i :: 0 <= i < k ==> PassedOver(net, popular, i + 1, s[i].info)
    ensures k < |s| ==> !PassedOver(net, popular, k + 1, s[k].info)
    ensures var vs := Verdicts(net, popular, s);
            && (k < |s| ==> (vs[k].Connected? <==> Accepts(net, k + 1, s[k].info)))
            && (k < |s| && vs[k].Connected? ==> vs[k].fd == net.socket(k + 1))
    ensures var after := IpsAfter(Verdicts(net, popular, s), 0, before);
            forall i :: 0 <= i < |s| ==> LeftWith(net, k, i, s[i].info, before[i], after[i])
  {
    var vs := Verdicts(net, popular, s);
    k := FirstStop(vs);
    forall i | 0 <= i < |s|
      ensures vs[i].Skips() <==> PassedOver(net, popular, i + 1, s[i].info)
      ensures vs[i].Connected? <==> Accepts(net, i + 1, s[i].info)
      ensures vs[i].Connected? ==> vs[i].fd == net.socket(i + 1)
    {
      VerdictMeans(net, popular, i + 1, s[i].info);
    }
  }

  /** A network whose answers do not depend on when they are asked. */
  ghost predicate Steady(net: Answers) {
    && (forall l: nat, l': nat, j: nat, h :: net.resolve(l, j, h) == net.resolve(l', j, h))
    && (forall l: nat, l': nat :: net.socket(l) == net.socket(l'))
    && (forall l: nat, l': nat, ip, p :: net.connect(l, ip, p) == net.connect(l', ip, p))
  }

  /** Once a call has stopped at a server, the next call under the same network conditions
      reaches that server first: nothing is skipped and the list stays as it is. */
  lemma NextCallStaysPut(net: Answers, popular: seq<string>, s: seq<AcServer>)
    requires Steady(net)
    ensures var k := FirstStop(Verdicts(net, popular, s));
            var t := Rotate(s, k);
            FirstStop(Verdicts(net, popular, t)) == (if k < |s| then 0 else k)
  {
    var k := FirstStop(Verdicts(net, popular, s));
    var t := Rotate(s, k);
    if k < |s| {
      JudgeIsSteady(net, popular, k + 1, 1, s[k].info);
      assert Verdicts(net, popular, t)[0] == Verdicts(net, popular, s)[k];
    } else {
      assert t == s;
    }
  }

  lemma JudgeIsSteady(net: Answers, popular: seq<string>, l: nat, l': nat, info: ServerInfo)
    requires Steady(net)
    ensures Judge(net, popular, l, info) == Judge(net, popular, l', info)
  {
    assert forall j :: 0 <= j < |popular| ==> net.resolve(l, j + 1, popular[j]) == net.resolve(l', j + 1, popular[j]);
  }

  /** Each server of the list is at the position noted for it, so no two are the same. */
  ghost predicate Placed(s: seq<AcServer>, position: map<AcServer, int>) {
    forall i {:trigger s[i] in position} :: 0 <= i < |s| ==> s[i] in position && position[s[i]] == i
  }

  lemma PlacedIsDistinct(s: seq<AcServer>, position: map<AcServer, int>)
    requires Placed(s, position)
    ensures Distinct(s)
  {
    forall i, j | 0 <= i < j < |s| ensures s[i] != s[j] {
      assert s[i] in position && s[j] in position;
    }
  }

  /** The positions when the head has moved to the end. */
  ghost function Moved(n: nat, position: map<AcServer, int>): (r: map<AcServer, int>) {
    map x | x in position :: if position[x] == 0 then n - 1 else position[x] - 1
  }

  lemma MovedIsPlaced(s: seq<AcServer>, position: map<AcServer, int>)
    requires Placed(s, position) && s != []
    ensures Placed(Rotate(s, 1), Moved(|s|, position))
  {
    var r := Rotate(s, 1);
    forall i | 0 <= i < |s| ensures r[i] in Moved(|s|, position) && Moved(|s|, position)[r[i]] == i {
      assert s[if i + 1 < |s| then i + 1 else 0] in position;
    }
  }

  lemma AppendIsPlaced(s: seq<AcServer>, position: map<AcServer, int>, node: AcServer)
    requires Placed(s, position) && node !in s
    ensures Placed(s + [node], position[node := |s|])
  {
    forall i | 0 <= i < |s| ensures s[i] != node && s[i] in position {
    }
  }

  class Config {
    var acServers: AcServer?
    var popularServers: seq<string>

    /** The nodes reachable from acServers, in list order, and the position of each. */
    ghost var Spine: seq<AcServer>
    ghost var Position: map<AcServer, int>
    ghost var Nodes: set<AcServer>

    ghost predicate Valid()
      reads this, Nodes
    {
      && (forall i :: 0 <= i < |Spine| ==> Spine[i] in Nodes)
      && Placed(Spine, Position)
      && (Spine == [] ==> acServers == null)
      && (Spine != [] ==> acServers == Spine[0] && Spine[|Spine| - 1].next == null)
      && (forall i {:trigger Spine[i].next} :: 0 <= i < |Spine| - 1 ==> Spine[i].next == Spine[i + 1])
    }

    constructor ()
      ensures Valid() && Spine == [] && popularServers == []
    {
      acServers := null;
      popularServers := [];
      Spine, Position, Nodes := [], map[], {};
    }

    /** The last node of a list that is not empty. */
    method LastServer() returns (tmp: AcServer)
      requires Valid() && acServers != null
      ensures |Spine| > 0 && tmp == Spine[|Spine| - 1]
    {
      tmp := acServers;
      ghost var i := 0;
      while tmp.next != null
        invariant 0 <= i < |Spine| && tmp == Spine[i]
        invariant i + 1 < |Spine| ==> tmp.next == Spine[i + 1]
        decreases |Spine| - i
      {
        tmp := tmp.next;
        i := i + 1;
      }
    }

    /** The node built from a finished server block goes to the end of the list. */
    method Append(node: AcServer)
      requires Valid() && node !in Spine && node.next == null
      modifies `acServers, `Spine, `Position, `Nodes, Nodes`next
      ensures Valid()
      ensures Spine == old(Spine) + [node] && Nodes == old(Nodes) + {node}
    {
      if acServers == null {
        acServers := node;
      } else {
        var tmp := LastServer();
        tmp.next := node;
      }
      AppendIsPlaced(Spine, Position, node);
      Position := Position[node := |Spine|];
      Spine, Nodes := Spine + [node], Nodes + {node};
    }

    method MarkBad(bad: AcServer)
      requires Valid()
      modifies `acServers, `Spine, `Position, Nodes`next
      ensures Valid()
      ensures Spine == if old(acServers) == bad then Rotate(old(Spine), 1) else old(Spine)
    {
      PlacedIsDistinct(Spine, Position);
      assert |Spine| > 1 ==> Spine[0].next == Spine[1];
      if acServers == bad && bad.next != null {
        var tmp := LastServer();
        tmp.next := bad;
        acServers := bad.next;
        bad.next := null;
        MovedIsPlaced(Spine, Position);
        Spine, Position := Rotate(Spine, 1), Moved(|Spine|, Position);
      } else if acServers == bad {
        assert |Spine| == 1;
      }
    }

    method CountServers() returns (n: nat)
      requires Valid()
      ensures n == |Spine|
    {
      var server := acServers;
      n := 0;
      while server != null
        invariant 0 <= n <= |Spine|
        invariant server == if n < |Spine| then Spine[n] else null
        decreases |Spine| - n
      {
        n := n + 1;
        server := server.next;
      }
    }

    method AskPopular(net: Answers, level: nat) returns (found: bool)
      ensures found == SomePopularResolves(net, level, popularServers)
    {
      found := false;
      var j := 0;
      while j < |popularServers| && !found
        invariant 0 <= j <= |popularServers|
        invariant found ==> SomePopularResolves(net, level, popularServers)
        invariant !found ==> forall i :: 0 <= i < j ==> net.resolve(level, i + 1, popularServers[i]).None?
        decreases |popularServers| - j, !found
      {
        if net.resolve(level, j + 1, popularServers[j]).Some? {
          found := true;
        } else {
          j := j + 1;
        }
      }
    }

    /** One level of the failover, entered with the lock held. The ghost argument lists the verdicts of
        all levels of this call. */
    method ConnectAt(net: Network, enter: nat, ghost vs: seq<Verdict>) returns (sockfd: int)
      requires Valid() && Judged(net.answers, popularServers, enter, Spine, vs)
      modifies `acServers, `Spine, `Position, Nodes, net`asked
      ensures Valid()
      ensures Outcome(vs, enter, old(Spine), Spine, sockfd)
      ensures net.asked == old(net.asked) + Tried(vs, enter, old(Spine))
      ensures Ips(old(Spine)) == IpsAfter(vs, enter, old(Ips(Spine)))
      decreases |vs| - enter, 0
    {
      if acServers == null {
        OutcomeAtEnd(vs, Spine, Ips(Spine));
        return -1;
      }
      var level := enter + 1;
      var numServers := CountServers();
      if level > numServers {
        OutcomeAtEnd(vs, Spine, Ips(Spine));
        return -1;
      }
      var server := acServers;
      var answer := net.ResolveServer(level, server);
      TriedIsHeadFirst(vs, enter, Spine);
      Assoc(old(net.asked), [server], TriedBelow(vs, enter, Spine));
      if answer.None? {
        sockfd := ConnectUnresolved(net, level, server, vs);
      } else {
        sockfd := ConnectResolved(net, level, server, answer.value, vs);
      }
    }

    /** The branch taken when the name of the head server was not resolved: only if some popular server
        resolves is the AC server's own name service to blame. */
    method ConnectUnresolved(net: Network, level: nat, server: AcServer, ghost vs: seq<Verdict>) returns (sockfd: int)
      requires Valid() && 0 < level && acServers == server
      requires Judged(net.answers, popularServers, level - 1, Spine, vs) && level <= |vs|
      requires net.answers.resolve(level, 0, server.info.hostname) == None
      modifies `acServers, `Spine, `Position, Nodes, net`asked
      ensures Valid()
      ensures Outcome(vs, level - 1, old(Spine), Spine, sockfd)
      ensures net.asked == old(net.asked) + TriedBelow(vs, level - 1, old(Spine))
      ensures Ips(old(Spine)) == IpsAfter(vs, level - 1, old(Ips(Spine)))
      decreases |vs| - level, 2
    {
      ghost var ips := Ips(Spine);
      assert vs[level - 1] == VerdictAt(net.answers, popularServers, level - 1, Spine, level - 1);
      var found := AskPopular(net.answers, level);
      if found {
        Remember(server, None);
        IpsHeadFirst(vs, level - 1, ips, None);
        sockfd := TryNext(net, level, server, vs);
      } else {
        sockfd := -1;
        OutcomeAtOnce(vs, level - 1, Spine, ips);
      }
    }

    /** Set the last address of the head, if it is not that already. */
    method Remember(server: AcServer, ip: Option<string>)
      requires Valid() && acServers == server
      modifies Nodes`lastIp
      ensures Valid() && Ips(Spine) == old(Ips(Spine))[0 := ip] && server.lastIp == ip
    {
      PlacedIsDistinct(Spine, Position);
      if server.lastIp != ip {
        server.lastIp := ip;
      }
    }

    /** The branch taken when the name of the head server was resolved to `ip`. */
    method ConnectResolved(net: Network, level: nat, server: AcServer, ip: string, ghost vs: seq<Verdict>)
      returns (sockfd: int)
      requires Valid() && 0 < level && acServers == server
      requires Judged(net.answers, popularServers, level - 1, Spine, vs) && level <= |vs|
      requires net.answers.resolve(level, 0, server.info.hostname) == Some(ip)
      modifies `acServers, `Spine, `Position, Nodes, net`asked
      ensures Valid()
      ensures Outcome(vs, level - 1, old(Spine), Spine, sockfd)
      ensures net.asked == old(net.asked) + TriedBelow(vs, level - 1, old(Spine))
      ensures Ips(old(Spine)) == IpsAfter(vs, level - 1, old(Ips(Spine)))
      decreases |vs| - level, 2
    {
      ghost var ips := Ips(Spine);
      assert vs[level - 1] == VerdictAt(net.answers, popularServers, level - 1, Spine, level - 1);
      Remember(server, Some(ip));
      var port := server.info.port % 0x1_0000;
      sockfd := net.answers.socket(level);
      if sockfd == -1 {
        OutcomeAtOnce(vs, level - 1, Spine, ips);
        return;
      }
      if !net.answers.connect(level, ip, port) {
        IpsHeadFirst(vs, level - 1, ips, Some(ip));
        sockfd := TryNext(net, level, server, vs);
      } else {
        OutcomeAtOnce(vs, level - 1, Spine, ips);
      }
    }

    /** The tail shared by the two failing branches: mark the head as bad and recurse. */
    method TryNext(net: Network, level: nat, bad: AcServer, ghost vs: seq<Verdict>) returns (sockfd: int)
      requires Valid() && 0 < level && acServers == bad
      requires Judged(net.answers, popularServers, level - 1, Spine, vs) && level <= |vs| && vs[level - 1].Skips()
      modifies `acServers, `Spine, `Position, Nodes, net`asked
      ensures Valid()
      ensures Outcome(vs, level - 1, old(Spine), Spine, sockfd)
      ensures net.asked == old(net.asked) + TriedBelow(vs, level - 1, old(Spine))
      ensures Ips(old(Spine)) == IpsAfter(vs, level - 1, old(Ips(Spine)))[0 := old(bad.lastIp)]
      decreases |vs| - level, 1
    {
      ghost var s, ips := Spine, Ips(Spine);
      MoveHead(bad);
      JudgedAfterMove(net.answers, popularServers, level - 1, s, vs);
      sockfd := ConnectAt(net, level, vs);
      AfterSkip(vs, level - 1, s, Spine, sockfd, ips);
    }

    method MoveHead(bad: AcServer)
      requires Valid() && acServers == bad
      modifies `acServers, `Spine, `Position, Nodes`next
      ensures Valid() && Spine == Rotate(old(Spine), 1)
      ensures Ips(Spine) == Rotate(old(Ips(Spine)), 1)
    {
      ghost var s := Spine;
      MarkBad(bad);
      assert Ips(s) == old(Ips(Spine));
      IpsOfRotation(s);
    }

    /** The whole failover: at most one attempt a server, in cyclic order from the head. Server k is where it stops:
        the first one that is not passed over, or the end of the list. */
    method ConnectAcServer(net: Network) returns (sockfd: int, ghost k: nat)
      requires Valid()
      modifies `acServers, `Spine, `Position, Nodes, net`asked
      ensures Valid()
      ensures multiset(Spine) == multiset(old(Spine)) && Distinct(Spine)
      // Every server before k either has a name that does not resolve, while that of some popular server does, or gets
      // a socket and refuses the connection.
      ensures k <= |old(Spine)|
      ensures forall i :: 0 <= i < k ==> PassedOver(net.answers, popularServers, i + 1, old(Spine)[i].info)
      ensures k < |old(Spine)| ==> !PassedOver(net.answers, popularServers, k + 1, old(Spine)[k].info)
      // Server k becomes the head; when all are passed over the order is the old one again.
      ensures Spine == Rotate(old(Spine), k) && (k == |old(Spine)| ==> Spine == old(Spine))
      ensures net.asked == old(net.asked) + if k < |old(Spine)| then old(Spine)[..k + 1] else old(Spine)
      // The socket is that of server k if it resolves, gets a socket and accepts the connection.
      ensures sockfd == if k < |old(Spine)| && Accepts(net.answers, k + 1, old(Spine)[k].info)
                        then net.answers.socket(k + 1) else -1
      ensures forall i :: 0 <= i < |old(Spine)| ==>
                LeftWith(net.answers, k, i, old(Spine)[i].info, old(Ips(Spine))[i], old(Spine)[i].lastIp)
      ensures Outcome(Verdicts(net.answers, popularServers, old(Spine)), 0, old(Spine), Spine, sockfd)
    {
      ghost var s, ips, vs := Spine, Ips(Spine), Verdicts(net.answers, popularServers, Spine);
      VerdictsAreJudged(net.answers, popularServers, s);
      k := CallMeans(net.answers, popularServers, s, ips);
      sockfd := ConnectAt(net, 0, vs);
      OutcomeOfCall(vs, s, Spine, sockfd);
      PlacedIsDistinct(Spine, Position);
    }
  }
}
