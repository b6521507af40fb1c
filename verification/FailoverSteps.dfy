/** The failover at the granularity of single pointer reads and writes, run by any number of threads.
    The configuration lock guards the search; get_ac_server reads the head without it.
    The n configured servers are the nodes 0, ..., n - 1, in the order of the configuration file. */
module FailoverSteps {
  import opened Rotation
  import opened Wrappers

  type Node = nat
  type Tid = nat

  /** The shared list: the pointer config.ac_servers and the next pointer of each node. */
  datatype List = List(head: Option<Node>, next: map<Node, Option<Node>>)

  /** Where a thread is inside connect_ac_server, with its local variables. The number in Leaving is history:
      how many servers the search has moved to the end. */
  datatype Pc =
    | Outside
    | Starting(level: nat)
    | Counting(level: nat, cur: Option<Node>, num: nat)
    | Trying(level: nat)
    | Testing(level: nat, bad: Node)
    | Walking(level: nat, bad: Node, tmp: Node)
    | Closing(level: nat, bad: Node, tmp: Node)
    | Moving(level: nat, bad: Node)
    | Cutting(level: nat, bad: Node)
    | Leaving(moved: nat, connected: bool)

  /** The list, the lock, the threads, and what each thread last read from get_ac_server. */
  datatype State = State(list: List, holder: Option<Tid>, pc: map<Tid, Pc>, seen: map<Tid, Option<Node>>)

  /** What the network does to the server at the head: it fails and the next one is tried,
      it ends the search without a connection, or it connects. */
  datatype Reply = Fails | Ends | Connects

  datatype Action = Spawn | Peek | Enter | Run(reply: Reply)

  /** The node a thread at pc dereferences next. */
  function Touched(list: List, pc: Pc): (r: Option<Node>) {
    match pc
    case Counting(_, cur, _) => cur
    case Trying(_) => list.head
    case Testing(_, bad) => Some(bad)
    case Walking(_, _, tmp) => Some(tmp)
    case Closing(_, _, tmp) => Some(tmp)
    case Moving(_, bad) => Some(bad)
    case Cutting(_, bad) => Some(bad)
    case _ => None
  }

  /** The thread at pc does not follow a pointer that leads nowhere. */
  predicate PointerLive(list: List, pc: Pc) {
    && (Touched(list, pc).Some? ==> Touched(list, pc).value in list.next)
    && (pc.Trying? ==> list.head.Some?)
  }

  /** The lock holder's next instruction: its effect on the list ... */
  function Write(list: List, pc: Pc): (r: List)
    requires PointerLive(list, pc)
  {
    match pc
    case Closing(_, bad, tmp) => list.(next := list.next[tmp := Some(bad)])
    case Moving(_, bad) => list.(head := list.next[bad])
    case Cutting(_, bad) => list.(next := list.next[bad := None])
    case _ => list
  }

  /** The levels that have failed when this level is entered. */
  function Before(level: nat): (n: nat) {
    if level == 0 then 0 else level - 1
  }

  /** ... and where it continues. */
  function Continue(list: List, pc: Pc, reply: Reply): (r: Pc)
    requires PointerLive(list, pc)
  {
    match pc
    case Outside => Outside
    case Starting(level) =>
      if list.head.None? then Leaving(level, false) else Counting(level + 1, list.head, 0)
    case Counting(level, cur, num) =>
      if cur.Some? then Counting(level, list.next[cur.value], num + 1)
      else if level > num then Leaving(Before(level), false)
      else Trying(level)
    case Trying(level) =>
      (match reply
       case Fails => Testing(level, list.head.value)
       case Ends => Leaving(Before(level), false)
       case Connects => Leaving(Before(level), true))
    case Testing(level, bad) =>
      if list.head == Some(bad) && list.next[bad].Some? then Walking(level, bad, bad) else Starting(level)
    case Walking(level, bad, tmp) =>
      if list.next[tmp].Some? then Walking(level, bad, list.next[tmp].value) else Closing(level, bad, tmp)
    case Closing(level, bad, _) => Moving(level, bad)
    case Moving(level, bad) => Cutting(level, bad)
    case Cutting(level, _) => Starting(level)
    case Leaving(_, _) => Outside
  }

  /** One step of thread t. */
  ghost predicate Next(s: State, s': State, t: Tid, a: Action) {
    match a
    case Spawn => t !in s.pc && s' == s.(pc := s.pc[t := Outside])
    case Peek => t in s.pc && s.pc[t].Outside? && s' == s.(seen := s.seen[t := s.list.head])
    case Enter => t in s.pc && s.pc[t].Outside? && s.holder.None?
                  && s' == s.(holder := Some(t), pc := s.pc[t := Starting(0)])
    case Run(reply) =>
      && s.holder == Some(t) && t in s.pc && PointerLive(s.list, s.pc[t])
      && s' == s.(list := Write(s.list, s.pc[t]), pc := s.pc[t := Continue(s.list, s.pc[t], reply)],
                  holder := if s.pc[t].Leaving? then None else Some(t))
  }

  // ----- What is true of the list at each point -----

  function Succ(n: nat, i: nat): (r: nat) {
    if i + 1 == n then 0 else i + 1
  }

  /** The node i places after node k. */
  function Place(n: nat, k: nat, i: nat): (r: nat) {
    if k + i < n then k + i else if k + i < 2 * n then k + i - n else 0
  }

  /** Read from the head, the list is k, k + 1, ..., n - 1, 0, ..., k - 1, and ends there. */
  ghost predicate Linear(list: List, n: nat, k: nat) {
    && (if n == 0 then list.head == None else k < n && list.head == Some(k))
    && (forall i: nat :: i in list.next <==> i < n)
    && (forall i: nat :: i in list.next ==> list.next[i] == if Succ(n, i) == k then None else Some(Succ(n, i)))
  }

  /** Every node points to its successor, the last one to the first. */
  ghost predicate Cyclic(list: List, n: nat) {
    && 2 <= n
    && (forall i: nat :: i in list.next <==> i < n)
    && (forall i: nat :: i in list.next ==> list.next[i] == Some(Succ(n, i)))
  }

  /** The list while the lock holder is at pc; k is the head the list had when the holder
      last finished moving a server. */
  ghost predicate Shape(list: List, n: nat, k: nat, pc: Pc) {
    match pc
    case Outside => false
    case Starting(level) => Linear(list, n, k) && level <= n
    case Counting(level, cur, num) =>
      && Linear(list, n, k) && 1 <= level <= n + 1 && num <= n
      && cur == if num < n then Some(Place(n, k, num)) else None
    case Trying(level) => Linear(list, n, k) && 1 <= level <= n
    case Testing(level, bad) => Linear(list, n, k) && 1 <= level <= n && bad == k
    case Walking(level, bad, tmp) => Linear(list, n, k) && 1 <= level <= n && 2 <= n && bad == k && tmp < n
    case Closing(level, bad, tmp) =>
      Linear(list, n, k) && 1 <= level <= n && 2 <= n && bad == k && tmp < n && Succ(n, tmp) == k
    case Moving(level, bad) => Cyclic(list, n) && 1 <= level <= n && bad == k < n && list.head == Some(k)
    case Cutting(level, bad) => Cyclic(list, n) && 1 <= level <= n && bad == k < n && list.head == Some(Succ(n, k))
    case Leaving(moved, connected) => Linear(list, n, k) && moved <= n && (connected ==> moved < n)
  }

  ghost predicate ListInv(list: List, n: nat, k: nat, pc: Pc) {
    if pc.Outside? then Linear(list, n, k) else Shape(list, n, k, pc)
  }

  /** At most one thread is inside the lock. */
  ghost predicate Exclusive(s: State) {
    && (forall t :: t in s.pc && !s.pc[t].Outside? ==> s.holder == Some(t))
    && (s.holder.Some? ==> s.holder.value in s.pc && !s.pc[s.holder.value].Outside?)
  }

  function HolderPc(s: State): (r: Pc) {
    if s.holder.Some? && s.holder.value in s.pc then s.pc[s.holder.value] else Outside
  }

  /** Every unlocked read returned a configured node (or null when none is configured). */
  ghost predicate SeenConfigured(s: State, n: nat) {
    forall t :: t in s.seen ==> if n == 0 then s.seen[t] == None else s.seen[t].Some? && s.seen[t].value < n
  }

  ghost predicate Inv(s: State, n: nat, k: nat) {
    Exclusive(s) && SeenConfigured(s, n) && ListInv(s.list, n, k, HolderPc(s))
  }

  /** The head after one more instruction of the holder. */
  function HeadAfter(n: nat, k: nat, pc: Pc): (r: nat) {
    if pc.Cutting? then Succ(n, k) else k
  }

  lemma ListStep(list: List, n: nat, k: nat, pc: Pc, reply: Reply)
    requires Shape(list, n, k, pc)
    ensures PointerLive(list, pc)
    ensures ListInv(Write(list, pc), n, HeadAfter(n, k, pc), Continue(list, pc, reply))
  {
  }

  lemma HeadIsConfigured(list: List, n: nat, k: nat, pc: Pc)
    requires ListInv(list, n, k, pc)
    ensures if n == 0 then list.head == None else list.head.Some? && list.head.value < n
  {
  }

  /** Every step of every thread keeps the invariant. */
  lemma StepKeepsInv(s: State, s': State, t: Tid, a: Action, n: nat, k: nat)
    requires Inv(s, n, k) && Next(s, s', t, a)
    ensures Inv(s', n, if a.Run? then HeadAfter(n, k, HolderPc(s)) else k)
  {
    HeadIsConfigured(s.list, n, k, HolderPc(s));
    if a.Run? {
      ListStep(s.list, n, k, s.pc[t], a.reply);
    }
  }

  // ----- Whole runs -----

  /** acts[i] takes states[i] to states[i + 1]. */
  ghost predicate IsRun(states: seq<State>, acts: seq<(Tid, Action)>) {
    && |states| == |acts| + 1
    && forall i :: 0 <= i < |acts| ==> Next(states[i], states[i + 1], acts[i].0, acts[i].1)
  }

  /** The daemon after the configuration was read: nobody holds the lock, the list is as configured. */
  ghost predicate Init(s: State, n: nat) {
    && Linear(s.list, n, 0)
    && s.holder == None && s.seen == map[]
    && forall t :: t in s.pc ==> s.pc[t].Outside?
  }

  /** The first j of n nodes, each pointing to the next one. */
  function Links(n: nat, j: nat): (m: map<Node, Option<Node>>)
    ensures forall i: nat :: i in m <==> i < j
    ensures forall i: nat :: i in m ==> m[i] == if i + 1 == n then None else Some(i + 1)
  {
    if j == 0 then map[] else Links(n, j - 1)[j - 1 := if j == n then None else Some(j)]
  }

  /** Every number of servers has such a state. */
  lemma InitExists(n: nat) returns (s: State)
    ensures Init(s, n)
  {
    s := State(List(if n == 0 then None else Some(0), Links(n, n)), None, map[], map[]);
  }

  /** In every reachable state, whatever the threads and the network did, some server k heads
      the list and the invariant holds. */
  lemma {:induction false} RunKeepsInv(states: seq<State>, acts: seq<(Tid, Action)>, n: nat, i: nat) returns (k: nat)
    requires IsRun(states, acts) && Init(states[0], n) && i < |states|
    ensures Inv(states[i], n, k)
  {
    if i == 0 {
      k := 0;
    } else {
      var h := RunKeepsInv(states, acts, n, i - 1);
      var s := states[i - 1];
      var (t, a) := acts[i - 1];
      assert Next(s, states[i - 1 + 1], t, a);
      StepKeepsInv(s, states[i], t, a, n, h);
      k := if a.Run? then HeadAfter(n, h, HolderPc(s)) else h;
    }
  }

  /** The nodes met by following next pointers from cur, at most `fuel` of them. */
  function Follow(list: List, cur: Option<Node>, fuel: nat): (r: seq<Node>)
    decreases fuel
  {
    if fuel == 0 || cur.None? || cur.value !in list.next then []
    else [cur.value] + Follow(list, list.next[cur.value], fuel - 1)
  }

  /** The configured servers in configuration order. */
  function Configured(n: nat): (r: seq<Node>) {
    seq(n, i => i)
  }

  lemma {:induction false} FollowLinear(list: List, n: nat, k: nat, i: nat, fuel: nat)
    requires Linear(list, n, k) && i <= n <= i + fuel && k <= n
    ensures Follow(list, if i < n then Some(Place(n, k, i)) else None, fuel) == Rotate(Configured(n), k)[i..]
    decreases n - i
  {
    var r := Rotate(Configured(n), k);
    if i < n {
      FollowLinear(list, n, k, i + 1, fuel - 1);
      assert r[i] == Place(n, k, i);
      assert r[i..] == [r[i]] + r[i + 1..];
    } else {
      assert r[i..] == [];
    }
  }

  lemma {:induction false} FollowCyclic(list: List, n: nat, cur: Node, fuel: nat)
    requires Cyclic(list, n) && cur < n
    ensures |Follow(list, Some(cur), fuel)| == fuel
    decreases fuel
  {
    if fuel > 0 {
      FollowCyclic(list, n, Succ(n, cur), fuel - 1);
    }
  }

  /** Whenever the lock is free the list is acyclic and is a rotation of the configured list: no server
      is lost or repeated, however far the pointers are followed. */
  lemma FreeListIsRotation(states: seq<State>, acts: seq<(Tid, Action)>, n: nat, i: nat, fuel: nat)
    requires IsRun(states, acts) && Init(states[0], n) && i < |states| && fuel >= n
    requires states[i].holder == None
    ensures var servers := Follow(states[i].list, states[i].list.head, fuel);
            && IsRotation(Configured(n), servers)
            && multiset(servers) == multiset(Configured(n)) && Distinct(servers)
  {
    var h := RunKeepsInv(states, acts, n, i);
    var k := if n == 0 then 0 else h;
    if n == 0 {
      assert Follow(states[i].list, states[i].list.head, fuel) == Rotate(Configured(n), 0);
    } else {
      FollowLinear(states[i].list, n, k, 0, fuel);
      assert Rotate(Configured(n), k)[0..] == Rotate(Configured(n), k);
    }
    RotationPermutes(Configured(n), Follow(states[i].list, states[i].list.head, fuel));
  }

  /** get_ac_server reads the head without the lock; at every moment of every run it gets a configured node. */
  lemma UnlockedReadIsSafe(states: seq<State>, acts: seq<(Tid, Action)>, n: nat, i: nat)
    requires IsRun(states, acts) && Init(states[0], n) && i < |states| && n > 0
    ensures states[i].list.head.Some? && states[i].list.head.value < n
    ensures forall t :: t in states[i].seen ==> states[i].seen[t].Some? && states[i].seen[t].value < n
  {
    var k := RunKeepsInv(states, acts, n, i);
    HeadIsConfigured(states[i].list, n, k, HolderPc(states[i]));
  }

  /** No thread ever follows a dangling pointer, and two threads are never inside the lock together. */
  lemma NoThreadGoesWrong(states: seq<State>, acts: seq<(Tid, Action)>, n: nat, i: nat, t: Tid, u: Tid)
    requires IsRun(states, acts) && Init(states[0], n) && i < |states|
    requires t in states[i].pc && !states[i].pc[t].Outside?
    ensures PointerLive(states[i].list, states[i].pc[t])
    ensures u in states[i].pc && !states[i].pc[u].Outside? ==> u == t
  {
    var k := RunKeepsInv(states, acts, n, i);
    ListStep(states[i].list, n, k, states[i].pc[t], Ends);
  }

  /** Between the first and the last of the three writes the list is a cycle: a walk over it would never end.
      So a reader may take the head without the lock, but not walk the list. */
  lemma WalkDuringMoveNeverEnds(states: seq<State>, acts: seq<(Tid, Action)>, n: nat, i: nat, t: Tid, fuel: nat)
    requires IsRun(states, acts) && Init(states[0], n) && i < |states|
    requires t in states[i].pc && (states[i].pc[t].Moving? || states[i].pc[t].Cutting?)
    ensures |Follow(states[i].list, states[i].list.head, fuel)| == fuel
  {
    var k := RunKeepsInv(states, acts, n, i);
    FollowCyclic(states[i].list, n, states[i].list.head.value, fuel);
  }

  // ----- What one search does to the order -----

  /** How many servers the search at pc has moved to the end. */
  function Moved(pc: Pc): (r: int) {
    if pc.Outside? then 0 else if pc.Leaving? then pc.moved else if pc.Starting? then pc.level else pc.level - 1
  }

  /** The list is the one with head k, rotated by the number of servers that the search at pc has moved. */
  predicate Rotated(n: nat, k: nat, h: nat, pc: Pc) {
    0 <= Moved(pc) <= n && (n > 0 ==> h == Place(n, k, Moved(pc)))
  }

  lemma RotatedStep(list: List, n: nat, k: nat, h: nat, pc: Pc, reply: Reply)
    requires Shape(list, n, h, pc) && !pc.Leaving? && k <= n && (n > 0 ==> k < n) && Rotated(n, k, h, pc)
    ensures PointerLive(list, pc)
    ensures Rotated(n, k, HeadAfter(n, h, pc), Continue(list, pc, reply))
  {
  }

  /** One step of any thread while t searches. */
  lemma SearchStep(s: State, s': State, u: Tid, a: Action, n: nat, t: Tid, k: nat, h: nat) returns (h': nat)
    requires Next(s, s', u, a) && s.holder == Some(t) && s'.holder == Some(t)
    requires Inv(s, n, h) && (n > 0 ==> k < n) && Rotated(n, if n > 0 then k else 0, h, HolderPc(s))
    ensures Inv(s', n, h') && Rotated(n, if n > 0 then k else 0, h', HolderPc(s'))
  {
    StepKeepsInv(s, s', u, a, n, h);
    h' := if a.Run? then HeadAfter(n, h, HolderPc(s)) else h;
    if a.Run? {
      RotatedStep(s.list, n, if n > 0 then k else 0, h, HolderPc(s), a.reply);
    }
  }

  /** While thread t searches, the list is the one it found rotated by the number of failed levels. */
  lemma {:induction false} SearchRotates(states: seq<State>, acts: seq<(Tid, Action)>, n: nat, t: Tid,
                                         i: nat, j: nat, k: nat) returns (h: nat)
    requires IsRun(states, acts) && i <= j < |states| && Inv(states[i], n, k)
    requires forall m :: i <= m <= j ==> states[m].holder == Some(t)
    requires HolderPc(states[i]) == Starting(0)
    ensures Inv(states[j], n, h) && (n > 0 ==> k < n) && Rotated(n, if n > 0 then k else 0, h, HolderPc(states[j]))
    decreases j - i
  {
    if i == j {
      h := k;
    } else {
      var (u, a) := acts[j - 1];
      assert Next(states[j - 1], states[j - 1 + 1], u, a);
      var g := SearchRotates(states, acts, n, t, i, j - 1, k);
      h := SearchStep(states[j - 1], states[j], u, a, n, t, k, g);
    }
  }

  /** A search that has failed at all n servers leaves the list exactly as it found it. */
  lemma GivingUpRestoresTheOrder(states: seq<State>, acts: seq<(Tid, Action)>, n: nat, t: Tid, i: nat, j: nat)
    requires IsRun(states, acts) && Init(states[0], n) && i <= j < |states| && n > 0
    requires forall m :: i <= m <= j ==> states[m].holder == Some(t)
    requires HolderPc(states[i]) == Starting(0)
    requires var pc := HolderPc(states[j]); pc.Counting? && pc.cur == None && pc.level > pc.num
    ensures states[j].list == states[i].list
  {
    var k := RunKeepsInv(states, acts, n, i);
    var h := SearchRotates(states, acts, n, t, i, j, k);
    assert Linear(states[i].list, n, k) && Linear(states[j].list, n, k);
  }

  /** The server a search tries at one of its levels, in cyclic order from the head it found. */
  lemma TriesInOrder(states: seq<State>, acts: seq<(Tid, Action)>, n: nat, t: Tid, i: nat, j: nat)
    requires IsRun(states, acts) && Init(states[0], n) && i <= j < |states|
    requires forall m :: i <= m <= j ==> states[m].holder == Some(t)
    requires HolderPc(states[i]) == Starting(0) && HolderPc(states[j]).Trying?
    ensures var level := HolderPc(states[j]).level;
            && 1 <= level <= n && states[i].list.head.Some? && states[i].list.head.value < n
            && states[j].list.head == Some(Place(n, states[i].list.head.value, level - 1))
  {
    var k := RunKeepsInv(states, acts, n, i);
    var h := SearchRotates(states, acts, n, t, i, j, k);
  }

  /** No server is tried twice in one search: attempts of different levels are at different servers. */
  lemma TriesEachOnce(states: seq<State>, acts: seq<(Tid, Action)>, n: nat, t: Tid, i: nat, a: nat, b: nat)
    requires IsRun(states, acts) && Init(states[0], n) && i <= a < |states| && i <= b < |states|
    requires forall m :: i <= m <= a ==> states[m].holder == Some(t)
    requires forall m :: i <= m <= b ==> states[m].holder == Some(t)
    requires HolderPc(states[i]) == Starting(0) && HolderPc(states[a]).Trying? && HolderPc(states[b]).Trying?
    ensures states[a].list.head == states[b].list.head <==> HolderPc(states[a]).level == HolderPc(states[b]).level
  {
    TriesInOrder(states, acts, n, t, i, a);
    TriesInOrder(states, acts, n, t, i, b);
  }

  // ----- What the network decides -----

  /** The instructions that move the server of this level to the end. */
  predicate GivingUp(pc: Pc, l: nat) {
    (pc.Testing? || pc.Walking? || pc.Closing? || pc.Moving? || pc.Cutting?) && pc.level == l
  }

  /** Until the next level starts, a search whose attempt failed does nothing but move that server. */
  lemma {:induction false} FailGivesUp(states: seq<State>, acts: seq<(Tid, Action)>, t: Tid, m: nat, j: nat, l: nat)
    requires IsRun(states, acts) && m < j < |states|
    requires forall x :: m <= x <= j ==> states[x].holder == Some(t)
    requires HolderPc(states[m]) == Trying(l) && acts[m].1 == Run(Fails)
    requires forall x :: m < x < j ==> !HolderPc(states[x]).Starting? && !HolderPc(states[x]).Leaving?
    ensures GivingUp(HolderPc(states[j]), l) || HolderPc(states[j]) == Starting(l)
    decreases j - m
  {
    var (u, a) := acts[j - 1];
    assert Next(states[j - 1], states[j - 1 + 1], u, a);
    if j - 1 > m {
      FailGivesUp(states, acts, t, m, j - 1, l);
    }
  }

  /** When the attempt of level l fails, the next level starts, and exactly the l servers tried so far are at the end:
      the head is the server l places behind the one the search found. */
  lemma FailMovesOn(states: seq<State>, acts: seq<(Tid, Action)>, n: nat, t: Tid, i: nat, m: nat, j: nat, l: nat)
    requires IsRun(states, acts) && Init(states[0], n) && i <= m < j < |states|
    requires forall x :: i <= x <= j ==> states[x].holder == Some(t)
    requires HolderPc(states[i]) == Starting(0) && HolderPc(states[m]) == Trying(l) && acts[m].1 == Run(Fails)
    requires forall x :: m < x < j ==> !HolderPc(states[x]).Starting? && !HolderPc(states[x]).Leaving?
    requires HolderPc(states[j]).Starting? || HolderPc(states[j]).Leaving?
    ensures HolderPc(states[j]) == Starting(l) && states[i].list.head.Some? && states[i].list.head.value < n
    ensures states[j].list.head == Some(Place(n, states[i].list.head.value, l))
  {
    FailGivesUp(states, acts, t, m, j, l);
    TriesInOrder(states, acts, n, t, i, m);
    var k := RunKeepsInv(states, acts, n, i);
    var h := SearchRotates(states, acts, n, t, i, j, k);
  }

  /** The server of level l was tried between the moments i and j, and this was the reply. */
  ghost predicate Answered(states: seq<State>, acts: seq<(Tid, Action)>, i: nat, j: nat, l: nat, reply: Reply)
    requires j <= |acts| <= |states|
  {
    exists m :: i <= m < j && HolderPc(states[m]) == Trying(l) && acts[m].1 == Run(reply)
  }

  ghost predicate AllFailed(states: seq<State>, acts: seq<(Tid, Action)>, i: nat, j: nat, n: nat)
    requires j <= |acts| <= |states|
  {
    forall l :: 1 <= l <= n ==> Answered(states, acts, i, j, l, Fails)
  }

  /** What has been answered when the search that started at moment i is at pc. */
  ghost predicate Heard(states: seq<State>, acts: seq<(Tid, Action)>, i: nat, j: nat, n: nat, pc: Pc)
    requires j <= |acts| <= |states|
  {
    match pc
    case Outside => false
    case Starting(level) => AllFailed(states, acts, i, j, level)
    case Counting(level, _, _) => level > 0 && AllFailed(states, acts, i, j, level - 1)
    case Trying(level) => level > 0 && AllFailed(states, acts, i, j, level - 1)
    case Leaving(moved, connected) =>
      && AllFailed(states, acts, i, j, moved)
      && (connected ==> Answered(states, acts, i, j, moved + 1, Connects))
      && (!connected ==> moved == n || Answered(states, acts, i, j, moved + 1, Ends))
    case _ => AllFailed(states, acts, i, j, pc.level)
  }

  lemma AnsweredStays(states: seq<State>, acts: seq<(Tid, Action)>, i: nat, j: nat, j': nat, n: nat)
    requires i <= j <= j' <= |acts| <= |states|
    ensures forall l: nat, reply ::
              Answered(states, acts, i, j, l, reply) ==> Answered(states, acts, i, j', l, reply)
    ensures AllFailed(states, acts, i, j, n) ==> AllFailed(states, acts, i, j', n)
  {
  }

  lemma HeardNext(states: seq<State>, acts: seq<(Tid, Action)>, i: nat, j: nat, n: nat, k: nat)
    requires IsRun(states, acts) && i <= j < |acts| && Inv(states[j], n, k)
    requires states[j].holder.Some? && states[j + 1].holder == states[j].holder
    requires Heard(states, acts, i, j, n, HolderPc(states[j]))
    ensures Heard(states, acts, i, j + 1, n, HolderPc(states[j + 1]))
  {
    var (u, a) := acts[j];
    assert Next(states[j], states[j + 1], u, a);
    var pc, pc' := HolderPc(states[j]), HolderPc(states[j + 1]);
    AnsweredStays(states, acts, i, j, j + 1, if pc.Leaving? then pc.moved else if pc.Outside? then 0 else pc.level);
    if pc.Counting? || pc.Trying? {
      AnsweredStays(states, acts, i, j, j + 1, pc.level - 1);
    }
  }

  lemma {:induction false} SearchHears(states: seq<State>, acts: seq<(Tid, Action)>, n: nat, t: Tid, i: nat, j: nat)
    requires IsRun(states, acts) && Init(states[0], n) && i <= j < |states|
    requires forall x :: i <= x <= j ==> states[x].holder == Some(t)
    requires HolderPc(states[i]) == Starting(0)
    ensures Heard(states, acts, i, j, n, HolderPc(states[j]))
    decreases j - i
  {
    if i < j {
      SearchHears(states, acts, n, t, i, j - 1);
      var k := RunKeepsInv(states, acts, n, j - 1);
      HeardNext(states, acts, i, j - 1, n, k);
    }
  }

  lemma AnswerDecides(states: seq<State>, acts: seq<(Tid, Action)>, n: nat, t: Tid, i: nat, j: nat, l: nat,
                      reply: Reply)
    requires IsRun(states, acts) && Init(states[0], n) && i <= j < |states|
    requires forall x :: i <= x <= j ==> states[x].holder == Some(t)
    requires Answered(states, acts, i, j, l, reply)
    ensures l > 0 && match reply
                     case Connects => HolderPc(states[j]) == Leaving(l - 1, true)
                     case Ends => HolderPc(states[j]) == Leaving(l - 1, false)
                     case Fails => Past(HolderPc(states[j]), l)
  {
    var m: nat :| i <= m < j && HolderPc(states[m]) == Trying(l) && acts[m].1 == Run(reply);
    var k := RunKeepsInv(states, acts, n, m);
    ReplyDecides(states, acts, t, m, j, l);
  }

  /** How a search ends: the servers moved are those whose attempts failed; it leaves connected if and only if some
      attempt was accepted, and unconnected if and only if some attempt was answered Ends or all n servers failed. */
  lemma SearchEnds(states: seq<State>, acts: seq<(Tid, Action)>, n: nat, t: Tid, i: nat, j: nat)
    requires IsRun(states, acts) && Init(states[0], n) && i <= j < |states|
    requires forall x :: i <= x <= j ==> states[x].holder == Some(t)
    requires HolderPc(states[i]) == Starting(0) && HolderPc(states[j]).Leaving?
    ensures var end := HolderPc(states[j]);
            && (forall l: nat :: Answered(states, acts, i, j, l, Fails) <==> 1 <= l <= end.moved)
            && (end.connected <==> exists l: nat :: Answered(states, acts, i, j, l, Connects))
            && (!end.connected <==> || (exists l: nat :: Answered(states, acts, i, j, l, Ends))
                                    || (forall l: nat :: 1 <= l <= n ==> Answered(states, acts, i, j, l, Fails)))
  {
    SearchHears(states, acts, n, t, i, j);
    var k := RunKeepsInv(states, acts, n, j);
    forall l: nat, reply | Answered(states, acts, i, j, l, reply)
      ensures l > 0 && match reply
                       case Connects => HolderPc(states[j]) == Leaving(l - 1, true)
                       case Ends => HolderPc(states[j]) == Leaving(l - 1, false)
                       case Fails => Past(HolderPc(states[j]), l)
    {
      AnswerDecides(states, acts, n, t, i, j, l, reply);
    }
    var end := HolderPc(states[j]);
    assert end.moved <= n && (end.connected ==> end.moved < n);
    assert end.connected ==> !Answered(states, acts, i, j, end.moved + 1, Fails);
  }

  // ----- The server named in the request -----

  /** The search has not yet heard of its first server. */
  predicate Early(pc: Pc) {
    || pc == Starting(0) || (pc.Counting? && pc.level == 1) || pc == Trying(1) || pc == Leaving(0, false)
  }

  /** The search has given up the server of this level. */
  predicate Past(pc: Pc, l: nat) {
    match pc
    case Outside => false
    case Starting(level) => level >= l
    case Counting(level, _, _) => level > l
    case Trying(level) => level > l
    case Testing(level, _) => level >= l
    case Walking(level, _, _) => level >= l
    case Closing(level, _, _) => level >= l
    case Moving(level, _) => level >= l
    case Cutting(level, _) => level >= l
    case Leaving(moved, _) => moved >= l
  }

  /** A search that is not early any more has made its first attempt at some moment m. */
  lemma {:induction false} FirstAttempt(states: seq<State>, acts: seq<(Tid, Action)>, t: Tid, i: nat, j: nat)
    returns (m: nat)
    requires IsRun(states, acts) && i <= j < |states|
    requires forall l :: i <= l <= j ==> states[l].holder == Some(t)
    requires HolderPc(states[i]) == Starting(0) && !Early(HolderPc(states[j]))
    ensures i <= m < j && HolderPc(states[m]) == Trying(1) && acts[m].1.Run?
    decreases j - i
  {
    var (u, a) := acts[j - 1];
    assert Next(states[j - 1], states[j - 1 + 1], u, a);
    if Early(HolderPc(states[j - 1])) {
      m := j - 1;
    } else {
      m := FirstAttempt(states, acts, t, i, j - 1);
    }
  }

  /** What the reply to an attempt decides for the rest of the search. */
  lemma {:induction false} ReplyDecides(states: seq<State>, acts: seq<(Tid, Action)>, t: Tid, m: nat, j: nat, l: nat)
    requires IsRun(states, acts) && m < j < |states| && l > 0
    requires forall x :: m <= x <= j ==> states[x].holder == Some(t)
    requires HolderPc(states[m]) == Trying(l) && acts[m].1.Run?
    ensures match acts[m].1.reply
            case Connects => HolderPc(states[j]) == Leaving(l - 1, true)
            case Ends => HolderPc(states[j]) == Leaving(l - 1, false)
            case Fails => Past(HolderPc(states[j]), l)
    decreases j - m
  {
    var (u, a) := acts[j - 1];
    assert Next(states[j - 1], states[j - 1 + 1], u, a);
    if j - 1 > m {
      ReplyDecides(states, acts, t, m, j - 1, l);
    }
  }

  /** The daemon takes the path and the host of its request from get_ac_server before it connects. When a search has
      connected, the server it reached is as many places behind the head it found as servers failed. If nobody moved a
      server since the read, the request names that server exactly if the first server tried, at moment m, accepted. */
  lemma RequestNamesConnected(states: seq<State>, acts: seq<(Tid, Action)>, n: nat, t: Tid, i: nat, j: nat)
    returns (m: nat)
    requires IsRun(states, acts) && Init(states[0], n) && i <= j < |states|
    requires forall l :: i <= l <= j ==> states[l].holder == Some(t)
    requires HolderPc(states[i]) == Starting(0)
    requires HolderPc(states[j]).Leaving? && HolderPc(states[j]).connected && t in states[j].seen
    ensures i <= m < j && HolderPc(states[m]) == Trying(1) && acts[m].1.Run?
    ensures states[m].list.head == states[i].list.head
    ensures var found, read := states[i].list.head, states[j].seen[t];
            && found.Some? && states[j].list.head == Some(Place(n, found.value, HolderPc(states[j]).moved))
            && (read == found ==> (read == states[j].list.head <==> acts[m].1.reply == Connects))
  {
    m := FirstAttempt(states, acts, t, i, j);
    ReplyDecides(states, acts, t, m, j, 1);
    TriesInOrder(states, acts, n, t, i, m);
    var k := RunKeepsInv(states, acts, n, i);
    var h := SearchRotates(states, acts, n, t, i, j, k);
  }

  /** Thread 0 inside the search over two servers, having read server 0 before. */
  function Inside(list: List, pc: Pc): (s: State) {
    State(list, Some(0), map[0 := pc], map[0 := Some(0)])
  }

  lemma InsideStep(list: List, pc: Pc, reply: Reply)
    requires PointerLive(list, pc) && !pc.Leaving?
    ensures Next(Inside(list, pc), Inside(Write(list, pc), Continue(list, pc, reply)), 0, Run(reply))
  {
    assert map[0 := pc][0 := Continue(list, pc, reply)] == map[0 := Continue(list, pc, reply)];
  }

  /** A run, one step longer. */
  lemma GoOn(states: seq<State>, acts: seq<(Tid, Action)>, s: State, t: Tid, a: Action)
    returns (states': seq<State>, acts': seq<(Tid, Action)>)
    requires IsRun(states, acts) && Next(states[|acts|], s, t, a)
    ensures IsRun(states', acts') && states'[|acts'|] == s && states'[0] == states[0]
  {
    states', acts' := states + [s], acts + [(t, a)];
    forall i | 0 <= i < |acts'| ensures Next(states'[i], states'[i + 1], acts'[i].0, acts'[i].1) {
      if i < |acts| {
        assert Next(states[i], states[i + 1], acts[i].0, acts[i].1);
      }
    }
  }

  lemma RunOn(states: seq<State>, acts: seq<(Tid, Action)>, list: List, pc: Pc, reply: Reply)
    returns (states': seq<State>, acts': seq<(Tid, Action)>)
    requires IsRun(states, acts) && states[|acts|] == Inside(list, pc) && PointerLive(list, pc) && !pc.Leaving?
    ensures IsRun(states', acts') && states'[0] == states[0]
    ensures states'[|acts'|] == Inside(Write(list, pc), Continue(list, pc, reply))
  {
    InsideStep(list, pc, reply);
    states', acts' := GoOn(states, acts, Inside(Write(list, pc), Continue(list, pc, reply)), 0, Run(reply));
  }

  const BOTH := List(Some(0), map[0 := Some(1), 1 := None])
  const CLOSED := List(Some(0), map[0 := Some(1), 1 := Some(0)])
  const MOVED := List(Some(1), map[0 := Some(1), 1 := Some(0)])
  const TURNED := List(Some(1), map[0 := None, 1 := Some(0)])

  lemma BothInOrder()
    ensures Linear(BOTH, 2, 0)
  {
    forall i: nat ensures i in BOTH.next <==> i < 2 {
      assert i in BOTH.next <==> i == 0 || i == 1;
    }
    assert BOTH.next[0] == Some(1) && BOTH.next[1] == None;
  }

  /** The thread reads the head, enters the search and comes to try server 0. */
  lemma FirstTry() returns (states: seq<State>, acts: seq<(Tid, Action)>)
    ensures IsRun(states, acts) && Init(states[0], 2) && states[|acts|] == Inside(BOTH, Trying(1))
  {
    BothInOrder();
    states, acts := [State(BOTH, None, map[], map[])], [];
    states, acts := GoOn(states, acts, State(BOTH, None, map[0 := Outside], map[]), 0, Spawn);
    states, acts := GoOn(states, acts, State(BOTH, None, map[0 := Outside], map[0 := Some(0)]), 0, Peek);
    assert map[0 := Outside][0 := Starting(0)] == map[0 := Starting(0)];
    states, acts := GoOn(states, acts, Inside(BOTH, Starting(0)), 0, Enter);
    states, acts := RunOn(states, acts, BOTH, Starting(0), Ends);
    states, acts := RunOn(states, acts, BOTH, Counting(1, Some(0), 0), Ends);
    states, acts := RunOn(states, acts, BOTH, Counting(1, Some(1), 1), Ends);
    states, acts := RunOn(states, acts, BOTH, Counting(1, None, 2), Ends);
  }

  /** Server 0 fails; the search walks to the end of the list. */
  lemma FirstFails(states0: seq<State>, acts0: seq<(Tid, Action)>)
    returns (states: seq<State>, acts: seq<(Tid, Action)>)
    requires IsRun(states0, acts0) && states0[|acts0|] == Inside(BOTH, Trying(1))
    ensures IsRun(states, acts) && states[0] == states0[0] && states[|acts|] == Inside(BOTH, Closing(1, 0, 1))
  {
    states, acts := RunOn(states0, acts0, BOTH, Trying(1), Fails);
    states, acts := RunOn(states, acts, BOTH, Testing(1, 0), Ends);
    states, acts := RunOn(states, acts, BOTH, Walking(1, 0, 0), Ends);
    states, acts := RunOn(states, acts, BOTH, Walking(1, 0, 1), Ends);
  }

  /** The three writes. */
  lemma FirstMoves(states0: seq<State>, acts0: seq<(Tid, Action)>)
    returns (states: seq<State>, acts: seq<(Tid, Action)>)
    requires IsRun(states0, acts0) && states0[|acts0|] == Inside(BOTH, Closing(1, 0, 1))
    ensures IsRun(states, acts) && states[0] == states0[0] && states[|acts|] == Inside(TURNED, Starting(1))
  {
    assert BOTH.next[1 := Some(0)] == CLOSED.next;
    states, acts := RunOn(states0, acts0, BOTH, Closing(1, 0, 1), Ends);
    states, acts := RunOn(states, acts, CLOSED, Moving(1, 0), Ends);
    assert MOVED.next[0 := None] == TURNED.next;
    states, acts := RunOn(states, acts, MOVED, Cutting(1, 0), Ends);
  }

  /** Server 1 accepts. */
  lemma SecondConnects(states0: seq<State>, acts0: seq<(Tid, Action)>)
    returns (states: seq<State>, acts: seq<(Tid, Action)>)
    requires IsRun(states0, acts0) && states0[|acts0|] == Inside(TURNED, Starting(1))
    ensures IsRun(states, acts) && states[0] == states0[0] && states[|acts|] == Inside(TURNED, Leaving(1, true))
  {
    states, acts := RunOn(states0, acts0, TURNED, Starting(1), Ends);
    states, acts := RunOn(states, acts, TURNED, Counting(2, Some(1), 0), Ends);
    states, acts := RunOn(states, acts, TURNED, Counting(2, Some(0), 1), Ends);
    states, acts := RunOn(states, acts, TURNED, Counting(2, None, 2), Ends);
    states, acts := RunOn(states, acts, TURNED, Trying(2), Connects);
  }

  /** So a request can name a server it is not sent to: with two servers, of which the first refuses the connection and
      the second accepts, the one thread there is reads server 0 and is connected to server 1. */
  lemma RequestMayNameAnother() returns (states: seq<State>, acts: seq<(Tid, Action)>)
    ensures IsRun(states, acts) && Init(states[0], 2)
    ensures var end := states[|acts|];
            && HolderPc(end) == Leaving(1, true) && 0 in end.seen
            && end.seen[0] == Some(0) && end.list.head == Some(1)
  {
    states, acts := FirstTry();
    states, acts := FirstFails(states, acts);
    states, acts := FirstMoves(states, acts);
    states, acts := SecondConnects(states, acts);
  }

  // ----- How long the lock is held -----

  function Offset(n: nat, k: nat, i: nat): (r: int) {
    if i >= k then i - k else i + n - k
  }

  /** An upper bound on the instructions one level of the search takes. */
  function LevelCost(n: nat): (r: nat) {
    2 * n + 8
  }

  /** The cost of the levels that may still come after level l. */
  function Rest(n: nat, l: nat): (r: nat)
    decreases n + 1 - l
  {
    if l > n then 0 else LevelCost(n) + Rest(n, l + 1)
  }

  lemma {:induction false} RestIs(n: nat, l: nat)
    requires l <= n + 1
    ensures Rest(n, l) == (n + 1 - l) * LevelCost(n)
    decreases n + 1 - l
  {
    if l <= n {
      RestIs(n, l + 1);
      assert (n + 1 - l) * LevelCost(n) == (n + 1 - (l + 1)) * LevelCost(n) + LevelCost(n);
    }
  }

  /** What is left to do for a thread at pc: it goes down with every instruction. */
  function Rank(n: nat, k: nat, pc: Pc): (r: int) {
    match pc
    case Outside => 0
    case Leaving(_, _) => 1
    case Starting(l) => Rest(n, l)
    case Counting(l, _, num) => Rest(n, l) + LevelCost(n) - 1 - num
    case Trying(l) => Rest(n, l) + LevelCost(n) - n - 3
    case Testing(l, _) => Rest(n, l) + LevelCost(n) - n - 4
    case Walking(l, _, tmp) => Rest(n, l) + LevelCost(n) - n - 5 - Offset(n, k, tmp)
    case Closing(l, _, _) => Rest(n, l) + LevelCost(n) - 2 * n - 5
    case Moving(l, _) => Rest(n, l) + LevelCost(n) - 2 * n - 6
    case Cutting(l, _) => Rest(n, l) + LevelCost(n) - 2 * n - 7
  }

  lemma RankFalls(list: List, n: nat, k: nat, pc: Pc, reply: Reply)
    requires Shape(list, n, k, pc) && PointerLive(list, pc)
    ensures 0 <= Rank(n, HeadAfter(n, k, pc), Continue(list, pc, reply)) < Rank(n, k, pc)
  {
  }

  /** How many of the actions i, ..., j - 1 are instructions of the lock holder. */
  function Instructions(acts: seq<(Tid, Action)>, i: nat, j: nat): (r: nat)
    requires i <= j <= |acts|
    decreases j - i
  {
    if i == j then 0 else (if acts[i].1.Run? then 1 else 0) + Instructions(acts, i + 1, j)
  }

  lemma {:induction false} InstructionsBounded(states: seq<State>, acts: seq<(Tid, Action)>, n: nat, t: Tid,
                                               i: nat, j: nat, k: nat)
    requires IsRun(states, acts) && i <= j < |states| && Inv(states[i], n, k)
    requires forall m :: i <= m <= j ==> states[m].holder == Some(t)
    ensures Instructions(acts, i, j) <= Rank(n, k, HolderPc(states[i]))
    decreases j - i
  {
    var s := states[i];
    if i == j {
      ListStep(s.list, n, k, HolderPc(s), Ends);
      RankFalls(s.list, n, k, HolderPc(s), Ends);
    } else {
      var (u, a) := acts[i];
      assert Next(s, states[i + 1], u, a);
      StepKeepsInv(s, states[i + 1], u, a, n, k);
      var k' := if a.Run? then HeadAfter(n, k, HolderPc(s)) else k;
      InstructionsBounded(states, acts, n, t, i + 1, j, k');
      if a.Run? {
        RankFalls(s.list, n, k, HolderPc(s), a.reply);
      }
    }
  }

  /** One search holds the lock for at most (n + 1)(2n + 8) instructions of its own, whatever the network
      answers and whatever the other threads do meanwhile. */
  lemma SearchTerminates(states: seq<State>, acts: seq<(Tid, Action)>, n: nat, t: Tid, i: nat, j: nat)
    requires IsRun(states, acts) && Init(states[0], n) && i <= j < |states|
    requires forall m :: i <= m <= j ==> states[m].holder == Some(t)
    requires t in states[i].pc && states[i].pc[t] == Starting(0)
    ensures Instructions(acts, i, j) <= (n + 1) * (2 * n + 8)
  {
    var k := RunKeepsInv(states, acts, n, i);
    InstructionsBounded(states, acts, n, t, i, j, k);
    RestIs(n, 0);
  }
}
