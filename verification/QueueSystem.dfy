/** The result queue under concurrency, at the granularity of single pointer writes: any number of
    inserting threads (the daemon's ping thread is one), and the main loop that takes results out and
    hands each to a posting thread. */
module QueueSystem {
  import opened Limits
  import opened Wrappers
  import RQ = ResultQueue

  type Id = nat
  type Tid = nat

  /** A payload as cmdresult_malloc sizes it. */
  type Payload = p: RQ.Payload | |p.bytes| <= MAX_CMD_OUT_BUF + 2 witness RQ.Payload([], 0)

  /** Who may free a node. This, `linked`, `taken` and `handed` below are history: no step looks at them
      to decide what to do. */
  datatype Owner = Sentinel | Queued(pos: nat) | WithProducer(t: Tid) | WithConsumer

  datatype Node = Node(data: Option<Payload>, next: Option<Id>, owner: Owner)

  /** insert_queue, between its instructions. */
  datatype Producer = PIdle | PReady(p: Id) | PLocked(p: Id) | PLinked(p: Id) | PMoved(p: Id)

  /** getout_queue and the main loop, between their instructions. */
  datatype Consumer =
    | CIdle
    | CLocked
    | CEmpty
    | CTook(p: Id)
    | CCopied(p: Id, res: RQ.Payload)
    | CUnlinked(p: Id, res: RQ.Payload)
    | CRepaired(p: Id, res: RQ.Payload)
    | CFreed(res: RQ.Payload)
    | CHolding(res: RQ.Payload)

  datatype Mutex = Free | ByProducer(t: Tid) | ByConsumer

  datatype Link = Link(id: Id, data: Payload)

  /** A result that left the main loop: given to a posting thread, or dropped because none could be created. */
  datatype Handoff = Handoff(res: RQ.Payload, posted: bool)

  datatype State = State(
    heap: map<Id, Node>,
    front: Id,
    rear: Id,
    mutex: Mutex,
    producers: map<Tid, Producer>,
    consumer: Consumer,
    linked: seq<Link>,
    taken: nat,
    handed: seq<Handoff>)

  datatype Action =
    | Spawn(t: Tid)
    | Alloc(t: Tid, p: Id, data: Payload)
    | Produce(t: Tid)
    | Consume(created: bool)

  // ----- The steps -----

  function SetNext(heap: map<Id, Node>, x: Id, n: Option<Id>): (r: map<Id, Node>)
    requires x in heap
  {
    heap[x := heap[x].(next := n)]
  }

  /** The next instruction of inserting thread t. */
  function ProducerStep(s: State, t: Tid): (r: Option<State>) {
    if t !in s.producers then None else
    match s.producers[t]
    case PIdle => None
    case PReady(p) =>
      if s.mutex.Free? then Some(s.(mutex := ByProducer(t), producers := s.producers[t := PLocked(p)])) else None
    case PLocked(p) =>
      if s.rear in s.heap && p in s.heap && s.heap[p].data.Some? then
        var h := SetNext(s.heap, s.rear, Some(p));
        Some(s.(heap := h[p := h[p].(owner := Queued(|s.linked|))],
                linked := s.linked + [Link(p, s.heap[p].data.value)],
                producers := s.producers[t := PLinked(p)]))
      else None
    case PLinked(p) => Some(s.(rear := p, producers := s.producers[t := PMoved(p)]))
    case PMoved(_) => Some(s.(mutex := Free, producers := s.producers[t := PIdle]))
  }

  /** The next instruction of the main loop; `created` says whether a posting thread could be created. */
  function ConsumerStep(s: State, created: bool): (r: Option<State>) {
    match s.consumer
    case CIdle => if s.mutex.Free? then Some(s.(mutex := ByConsumer, consumer := CLocked)) else None
    case CLocked =>
      if s.front == s.rear then Some(s.(consumer := CEmpty))
      else if s.front in s.heap && s.heap[s.front].next.Some? then
        Some(s.(consumer := CTook(s.heap[s.front].next.value)))
      else None
    case CEmpty => Some(s.(mutex := Free, consumer := CIdle))
    case CTook(p) =>
      if p in s.heap && s.heap[p].data.Some? then
        Some(s.(consumer := CCopied(p, RQ.Copied(s.heap[p].data.value))))
      else None
    case CCopied(p, res) =>
      if s.front in s.heap && p in s.heap then
        var h := SetNext(s.heap, s.front, s.heap[p].next);
        Some(s.(heap := h[p := h[p].(owner := WithConsumer)], taken := s.taken + 1, consumer := CUnlinked(p, res)))
      else None
    case CUnlinked(p, res) =>
      Some(s.(rear := if s.rear == p then s.front else s.rear, consumer := CRepaired(p, res)))
    case CRepaired(p, res) => Some(s.(heap := s.heap - {p}, consumer := CFreed(res)))
    case CFreed(res) => Some(s.(mutex := Free, consumer := CHolding(res)))
    case CHolding(res) => Some(s.(handed := s.handed + [Handoff(res, created)], consumer := CIdle))
  }

  ghost predicate Next(s: State, s': State, a: Action) {
    match a
    case Spawn(t) => t !in s.producers && s' == s.(producers := s.producers[t := PIdle])
    case Alloc(t, p, data) =>
      && t in s.producers && s.producers[t].PIdle? && p !in s.heap
      && s' == s.(heap := s.heap[p := Node(Some(data), None, WithProducer(t))],
                  producers := s.producers[t := PReady(p)])
    case Produce(t) => ProducerStep(s, t) == Some(s')
    case Consume(created) => ConsumerStep(s, created) == Some(s')
  }

  // ----- The invariant -----

  /** The node of an inserting thread before it is linked. */
  predicate Carries(pc: Producer, x: Id) {
    (pc.PReady? || pc.PLocked?) && pc.p == x
  }

  /** The node of the main loop between unlinking and freeing it. */
  predicate Detached(c: Consumer, x: Id) {
    (c.CUnlinked? || c.CRepaired?) && c.p == x
  }

  /** The node that linked[i] records, or the sentinel just below the first queued position. */
  function IdAt(s: State, i: int): (r: Id)
    requires s.taken - 1 <= i < |s.linked|
  {
    if i == s.taken - 1 then s.front else s.linked[i].id
  }

  /** The claim of a node's owner. */
  predicate OwnerHas(s: State, x: Id, owner: Owner) {
    match owner
    case Sentinel => x == s.front
    case Queued(i) => s.taken <= i < |s.linked| && s.linked[i].id == x
    case WithProducer(t) => t in s.producers && Carries(s.producers[t], x)
    case WithConsumer => Detached(s.consumer, x)
  }

  /** Every node is where its owner says: nothing leaks, and nothing is owned twice. */
  ghost predicate Owned(s: State) {
    forall x :: x in s.heap ==> OwnerHas(s, x, s.heap[x].owner)
  }

  /** Each queued node is in the heap and holds what was inserted. */
  ghost predicate Stored(heap: map<Id, Node>, linked: seq<Link>, taken: nat) {
    forall i :: taken <= i < |linked| ==>
      && linked[i].id in heap && heap[linked[i].id].owner == Queued(i)
      && heap[linked[i].id].data == Some(linked[i].data)
  }

  /** The nodes from the sentinel on are linked in insertion order; the last one ends the list. */
  ghost predicate Chained(heap: map<Id, Node>, front: Id, linked: seq<Link>, taken: nat) {
    && front in heap && heap[front].owner == Sentinel
    && taken <= |linked|
    && heap[front].next == (if taken < |linked| then Some(linked[taken].id) else None)
    && (forall i, j :: taken <= i && j == i + 1 && j < |linked| && linked[i].id in heap ==>
          heap[linked[i].id].next == Some(linked[j].id))
    && (taken < |linked| && linked[|linked| - 1].id in heap ==> heap[linked[|linked| - 1].id].next == None)
  }

  ghost predicate Chain(s: State) {
    Stored(s.heap, s.linked, s.taken) && Chained(s.heap, s.front, s.linked, s.taken)
  }

  /** Where rear points: to the last node, except between the two writes of an insertion (the node before it)
      and of a removal that empties the queue (the node just unlinked). */
  ghost predicate RearPlaced(s: State)
    requires s.taken <= |s.linked|
  {
    if s.mutex.ByProducer? && s.mutex.t in s.producers && s.producers[s.mutex.t].PLinked? then
      && s.taken < |s.linked| && s.linked[|s.linked| - 1].id == s.producers[s.mutex.t].p
      && s.rear == IdAt(s, |s.linked| - 2)
    else if s.consumer.CUnlinked? && s.taken == |s.linked| then s.rear == s.consumer.p
    else s.rear == IdAt(s, |s.linked| - 1)
  }

  ghost predicate ProducersOk(s: State) {
    && (forall t :: t in s.producers ==>
          (s.producers[t].PIdle? || s.producers[t].PReady? || s.mutex == ByProducer(t)))
    && (forall t :: t in s.producers && (s.producers[t].PReady? || s.producers[t].PLocked?) ==>
          var p := s.producers[t].p;
          p in s.heap && s.heap[p].owner == WithProducer(t) && s.heap[p].data.Some? && s.heap[p].next == None)
    && (s.mutex.ByProducer? ==> s.mutex.t in s.producers
                                && !s.producers[s.mutex.t].PIdle? && !s.producers[s.mutex.t].PReady?)
  }

  ghost predicate ConsumerOk(s: State) {
    && ((s.consumer.CIdle? || s.consumer.CHolding?) <==> s.mutex != ByConsumer)
    && (s.consumer.CEmpty? ==> s.taken == |s.linked|)
    && (s.consumer.CTook? || s.consumer.CCopied? ==>
          s.taken < |s.linked| && s.consumer.p == s.linked[s.taken].id)
    && (s.consumer.CCopied? ==> s.consumer.res == RQ.Copied(s.linked[s.taken].data))
    && (s.consumer.CUnlinked? || s.consumer.CRepaired? ==>
          s.consumer.p in s.heap && s.heap[s.consumer.p].owner == WithConsumer)
  }

  /** The result the main loop has taken but not yet handed over. */
  function InHand(c: Consumer): (r: Option<RQ.Payload>) {
    if c.CUnlinked? || c.CRepaired? || c.CFreed? || c.CHolding? then Some(c.res) else None
  }

  /** Results leave in insertion order, each once, with the inserted bytes and length. */
  ghost predicate Delivered(s: State) {
    && s.taken == |s.handed| + (if InHand(s.consumer).Some? then 1 else 0)
    && s.taken <= |s.linked|
    && (forall i :: 0 <= i < |s.handed| ==> s.handed[i].res == RQ.Copied(s.linked[i].data))
    && (InHand(s.consumer).Some? ==> InHand(s.consumer).value == RQ.Copied(s.linked[|s.handed|].data))
  }

  ghost predicate Inv(s: State) {
    Owned(s) && Chain(s) && RearPlaced(s) && ProducersOk(s) && ConsumerOk(s) && Delivered(s)
  }

  // ----- Each instruction keeps it -----

  lemma AllocKeepsOwned(s: State, s': State, t: Tid, p: Id, data: Payload)
    requires Owned(s) && Next(s, s', Alloc(t, p, data))
    ensures Owned(s')
  {
  }

  lemma AllocKeepsChain(s: State, s': State, t: Tid, p: Id, data: Payload)
    requires Chain(s) && RearPlaced(s) && ProducersOk(s) && Next(s, s', Alloc(t, p, data))
    ensures Chain(s')
  {
  }

  lemma AllocKeepsRear(s: State, s': State, t: Tid, p: Id, data: Payload)
    requires Chain(s) && RearPlaced(s) && ProducersOk(s) && Next(s, s', Alloc(t, p, data))
    ensures s'.taken <= |s'.linked| && RearPlaced(s')
  {
  }

  lemma AllocKeepsThreads(s: State, s': State, t: Tid, p: Id, data: Payload)
    requires ProducersOk(s) && ConsumerOk(s) && Delivered(s) && Next(s, s', Alloc(t, p, data))
    ensures ProducersOk(s') && ConsumerOk(s') && Delivered(s')
  {
  }

  lemma LinkKeepsOwned(s: State, s': State, t: Tid)
    requires Owned(s) && Chain(s) && ProducersOk(s) && Next(s, s', Produce(t)) && s.producers[t].PLocked?
    ensures Owned(s')
  {
  }

  lemma LinkKeepsStored(s: State, s': State, t: Tid)
    requires Chain(s) && RearPlaced(s) && ProducersOk(s) && ConsumerOk(s)
    requires Next(s, s', Produce(t)) && s.producers[t].PLocked?
    ensures Stored(s'.heap, s'.linked, s'.taken)
  {
  }

  lemma LinkKeepsChained(s: State, s': State, t: Tid)
    requires Chain(s) && RearPlaced(s) && ProducersOk(s) && ConsumerOk(s)
    requires Next(s, s', Produce(t)) && s.producers[t].PLocked?
    ensures Chained(s'.heap, s'.front, s'.linked, s'.taken)
  {
  }

  lemma LinkKeepsRear(s: State, s': State, t: Tid)
    requires Chain(s) && RearPlaced(s) && ProducersOk(s) && ConsumerOk(s)
    requires Next(s, s', Produce(t)) && s.producers[t].PLocked?
    ensures RearPlaced(s')
  {
  }

  lemma LinkKeepsThreads(s: State, s': State, t: Tid)
    requires Chain(s) && RearPlaced(s) && ProducersOk(s) && ConsumerOk(s) && Delivered(s)
    requires Next(s, s', Produce(t)) && s.producers[t].PLocked?
    ensures ProducersOk(s') && ConsumerOk(s') && Delivered(s')
  {
  }

  lemma ProducerKeepsOwned(s: State, s': State, t: Tid)
    requires Owned(s) && Chain(s) && RearPlaced(s) && ProducersOk(s) && ConsumerOk(s)
    requires Next(s, s', Produce(t)) && !s.producers[t].PLocked?
    ensures Owned(s')
  {
  }

  lemma ProducerKeepsChain(s: State, s': State, t: Tid)
    requires Owned(s) && Chain(s) && RearPlaced(s) && ProducersOk(s) && ConsumerOk(s)
    requires Next(s, s', Produce(t)) && !s.producers[t].PLocked?
    ensures Chain(s')
  {
  }

  lemma ProducerKeepsRear(s: State, s': State, t: Tid)
    requires Owned(s) && Chain(s) && RearPlaced(s) && ProducersOk(s) && ConsumerOk(s)
    requires Next(s, s', Produce(t)) && !s.producers[t].PLocked?
    ensures s'.taken <= |s'.linked| && RearPlaced(s')
  {
  }

  lemma ProducerKeepsThreads(s: State, s': State, t: Tid)
    requires ProducersOk(s) && ConsumerOk(s) && Delivered(s)
    requires Next(s, s', Produce(t)) && !s.producers[t].PLocked?
    ensures ProducersOk(s') && ConsumerOk(s') && Delivered(s')
  {
  }

  lemma UnlinkKeepsOwned(s: State, s': State, created: bool)
    requires Owned(s) && Chain(s) && ConsumerOk(s)
    requires Next(s, s', Consume(created)) && s.consumer.CCopied?
    ensures Owned(s')
  {
    forall x | x in s'.heap ensures OwnerHas(s', x, s'.heap[x].owner) {
      assert OwnerHas(s, x, s.heap[x].owner);
    }
  }

  lemma UnlinkKeepsStored(s: State, s': State, created: bool)
    requires Chain(s) && ConsumerOk(s)
    requires Next(s, s', Consume(created)) && s.consumer.CCopied?
    ensures Stored(s'.heap, s'.linked, s'.taken)
  {
  }

  lemma UnlinkKeepsChained(s: State, s': State, created: bool)
    requires Chain(s) && ConsumerOk(s)
    requires Next(s, s', Consume(created)) && s.consumer.CCopied?
    ensures Chained(s'.heap, s'.front, s'.linked, s'.taken)
  {
  }

  lemma UnlinkKeepsRear(s: State, s': State, created: bool)
    requires Chain(s) && ConsumerOk(s) && RearPlaced(s)
    requires Next(s, s', Consume(created)) && s.consumer.CCopied?
    ensures s'.taken <= |s'.linked| && RearPlaced(s')
  {
  }

  lemma UnlinkKeepsThreads(s: State, s': State, created: bool)
    requires Chain(s) && ProducersOk(s) && ConsumerOk(s) && Delivered(s)
    requires Next(s, s', Consume(created)) && s.consumer.CCopied?
    ensures ProducersOk(s') && ConsumerOk(s') && Delivered(s')
  {
  }

  lemma FreeKeepsOwned(s: State, s': State, created: bool)
    requires Owned(s) && Chain(s) && ConsumerOk(s) && RearPlaced(s)
    requires Next(s, s', Consume(created)) && s.consumer.CRepaired?
    ensures Owned(s')
  {
  }

  lemma FreeKeepsChain(s: State, s': State, created: bool)
    requires Owned(s) && Chain(s) && ConsumerOk(s) && RearPlaced(s)
    requires Next(s, s', Consume(created)) && s.consumer.CRepaired?
    ensures Chain(s')
  {
  }

  lemma FreeKeepsRear(s: State, s': State, created: bool)
    requires Owned(s) && Chain(s) && ConsumerOk(s) && RearPlaced(s)
    requires Next(s, s', Consume(created)) && s.consumer.CRepaired?
    ensures s'.taken <= |s'.linked| && RearPlaced(s')
  {
  }

  lemma FreeKeepsThreads(s: State, s': State, created: bool)
    requires ProducersOk(s) && ConsumerOk(s) && Delivered(s)
    requires Next(s, s', Consume(created)) && s.consumer.CRepaired?
    ensures ProducersOk(s') && ConsumerOk(s') && Delivered(s')
  {
  }

  lemma RepairKeepsNodes(s: State, s': State, created: bool)
    requires Owned(s) && Chain(s) && RearPlaced(s) && ProducersOk(s) && ConsumerOk(s)
    requires Next(s, s', Consume(created)) && s.consumer.CUnlinked?
    ensures Owned(s') && Chain(s') && RearPlaced(s')
  {
  }

  /** The instructions that move no pointer: they only take or release the mutex, test, copy, or hand over. */
  predicate Quiet(c: Consumer) {
    !c.CCopied? && !c.CUnlinked? && !c.CRepaired?
  }

  lemma QuietMovesNothing(s: State, s': State, created: bool)
    requires Next(s, s', Consume(created)) && Quiet(s.consumer)
    ensures s'.heap == s.heap && s'.front == s.front && s'.linked == s.linked && s'.taken == s.taken
    ensures s'.producers == s.producers && Quiet(s'.consumer) == !s'.consumer.CCopied?
  {
  }

  lemma QuietKeepsNodes(s: State, s': State, created: bool)
    requires Owned(s) && Chain(s) && Next(s, s', Consume(created)) && Quiet(s.consumer)
    ensures Owned(s') && Chain(s')
  {
    QuietMovesNothing(s, s', created);
    forall x | x in s'.heap ensures OwnerHas(s', x, s'.heap[x].owner) {
      assert OwnerHas(s, x, s.heap[x].owner);
    }
  }

  lemma QuietKeepsRear(s: State, s': State, created: bool)
    requires s.taken <= |s.linked| && RearPlaced(s) && ConsumerOk(s)
    requires Next(s, s', Consume(created)) && Quiet(s.consumer)
    ensures RearPlaced(s')
  {
  }

  lemma QuietKeepsProducers(s: State, s': State, created: bool)
    requires ProducersOk(s) && ConsumerOk(s) && Next(s, s', Consume(created)) && Quiet(s.consumer)
    ensures ProducersOk(s')
  {
  }

  lemma QuietKeepsConsumer(s: State, s': State, created: bool)
    requires Chain(s) && RearPlaced(s) && ConsumerOk(s)
    requires Next(s, s', Consume(created)) && Quiet(s.consumer)
    ensures ConsumerOk(s')
  {
  }

  lemma QuietKeepsDelivered(s: State, s': State, created: bool)
    requires ConsumerOk(s) && Delivered(s)
    requires Next(s, s', Consume(created)) && Quiet(s.consumer)
    ensures Delivered(s')
  {
  }

  lemma RepairKeepsThreads(s: State, s': State, created: bool)
    requires ProducersOk(s) && ConsumerOk(s) && Delivered(s)
    requires Next(s, s', Consume(created)) && s.consumer.CUnlinked?
    ensures ProducersOk(s') && ConsumerOk(s') && Delivered(s')
  {
  }

  lemma ProduceKeepsInv(s: State, s': State, t: Tid)
    requires Inv(s) && Next(s, s', Produce(t))
    ensures Inv(s')
  {
    if s.producers[t].PLocked? {
      LinkKeepsOwned(s, s', t);
      LinkKeepsStored(s, s', t);
      LinkKeepsChained(s, s', t);
      LinkKeepsRear(s, s', t);
      LinkKeepsThreads(s, s', t);
    } else {
      ProducerKeepsOwned(s, s', t);
      ProducerKeepsChain(s, s', t);
      ProducerKeepsRear(s, s', t);
      ProducerKeepsThreads(s, s', t);
    }
  }

  lemma QuietKeepsInv(s: State, s': State, created: bool)
    requires Inv(s) && Next(s, s', Consume(created)) && Quiet(s.consumer)
    ensures Inv(s')
  {
    QuietKeepsNodes(s, s', created);
    QuietKeepsRear(s, s', created);
    QuietKeepsProducers(s, s', created);
    QuietKeepsConsumer(s, s', created);
    QuietKeepsDelivered(s, s', created);
  }

  lemma ConsumeKeepsInv(s: State, s': State, created: bool)
    requires Inv(s) && Next(s, s', Consume(created))
    ensures Inv(s')
  {
    if s.consumer.CCopied? {
      UnlinkKeepsOwned(s, s', created);
      UnlinkKeepsStored(s, s', created);
      UnlinkKeepsChained(s, s', created);
      UnlinkKeepsRear(s, s', created);
      UnlinkKeepsThreads(s, s', created);
    } else if s.consumer.CRepaired? {
      FreeKeepsOwned(s, s', created);
      FreeKeepsChain(s, s', created);
      FreeKeepsRear(s, s', created);
      FreeKeepsThreads(s, s', created);
    } else if s.consumer.CUnlinked? {
      RepairKeepsNodes(s, s', created);
      RepairKeepsThreads(s, s', created);
    } else {
      QuietKeepsInv(s, s', created);
    }
  }

  lemma SpawnKeepsNodes(s: State, s': State, t: Tid)
    requires Inv(s) && Next(s, s', Spawn(t))
    ensures Owned(s') && Chain(s') && RearPlaced(s')
  {
  }

  lemma SpawnKeepsThreads(s: State, s': State, t: Tid)
    requires Inv(s) && Next(s, s', Spawn(t))
    ensures ProducersOk(s') && ConsumerOk(s') && Delivered(s')
  {
  }

  /** Every instruction of every thread keeps the invariant. */
  lemma StepKeepsInv(s: State, s': State, a: Action)
    requires Inv(s) && Next(s, s', a)
    ensures Inv(s')
  {
    match a
    case Spawn(t) =>
      SpawnKeepsNodes(s, s', t);
      SpawnKeepsThreads(s, s', t);
    case Alloc(t, p, data) =>
      AllocKeepsOwned(s, s', t, p, data);
      AllocKeepsChain(s, s', t, p, data);
      AllocKeepsRear(s, s', t, p, data);
      AllocKeepsThreads(s, s', t, p, data);
    case Produce(t) => ProduceKeepsInv(s, s', t);
    case Consume(created) => ConsumeKeepsInv(s, s', created);
  }

  // ----- Whole runs -----

  /** The state initial_queue leaves: the sentinel alone, nobody inside. */
  ghost predicate Init(s: State) {
    && s.heap == map[s.front := Node(None, None, Sentinel)] && s.rear == s.front
    && s.mutex == Free && s.producers == map[] && s.consumer == CIdle
    && s.linked == [] && s.taken == 0 && s.handed == []
  }

  ghost predicate IsRun(states: seq<State>, acts: seq<Action>) {
    && |states| == |acts| + 1 && Init(states[0])
    && forall i :: 0 <= i < |acts| ==> Next(states[i], states[i + 1], acts[i])
  }

  lemma {:induction false} RunKeepsInv(states: seq<State>, acts: seq<Action>, i: nat)
    requires IsRun(states, acts) && i < |states|
    ensures Inv(states[i])
  {
    if i > 0 {
      RunKeepsInv(states, acts, i - 1);
      assert Next(states[i - 1], states[i - 1 + 1], acts[i - 1]);
      StepKeepsInv(states[i - 1], states[i], acts[i - 1]);
    }
  }

  /** The nodes reached from the sentinel, in order, at most `fuel` of them. */
  function Follow(heap: map<Id, Node>, cur: Option<Id>, fuel: nat): (r: seq<Id>)
    decreases fuel
  {
    if fuel == 0 || cur.None? || cur.value !in heap then []
    else [cur.value] + Follow(heap, heap[cur.value].next, fuel - 1)
  }

  lemma {:induction false} FollowQueue(s: State, i: nat, fuel: nat)
    requires Chain(s) && s.taken <= i <= |s.linked| && |s.linked| - i <= fuel
    ensures Follow(s.heap, if i < |s.linked| then Some(s.linked[i].id) else None, fuel)
         == seq(|s.linked| - i, j requires 0 <= j < |s.linked| - i => s.linked[i + j].id)
    decreases |s.linked| - i
  {
    if i < |s.linked| {
      FollowQueue(s, i + 1, fuel - 1);
      assert i + 1 < |s.linked| ==> s.heap[s.linked[i].id].next == Some(s.linked[i + 1].id);
    }
  }

  /** Whenever the mutex is free: the list from the sentinel holds exactly the results inserted and not yet
      taken, in insertion order; rear is its last node, whose next is null; and front == rear says "empty". */
  lemma FreeQueueShape(states: seq<State>, acts: seq<Action>, i: nat, fuel: nat)
    requires IsRun(states, acts) && i < |states| && states[i].mutex == Free
    requires fuel >= |states[i].linked| - states[i].taken
    ensures var s := states[i];
            && s.taken <= |s.linked| && s.front in s.heap && s.rear in s.heap
            && Follow(s.heap, s.heap[s.front].next, fuel)
               == seq(|s.linked| - s.taken, j requires 0 <= j < |s.linked| - s.taken => s.linked[s.taken + j].id)
            && (forall j :: s.taken <= j < |s.linked| ==>
                  s.linked[j].id in s.heap && s.heap[s.linked[j].id].data == Some(s.linked[j].data))
            && s.heap[s.rear].next == None
            && (s.front == s.rear <==> s.taken == |s.linked|)
            && (s.front != s.rear ==> s.rear == s.linked[|s.linked| - 1].id)
  {
    RunKeepsInv(states, acts, i);
    FollowQueue(states[i], states[i].taken, fuel);
  }

  /** The shape breaks between the two writes of each operation: while an insertion holds the mutex behind its first
      write, rear is not the last node; while the removal of the last result does, rear is outside the list. */
  lemma ShapeBreaksBetweenWrites(states: seq<State>, acts: seq<Action>, i: nat, t: Tid)
    requires IsRun(states, acts) && i < |states|
    ensures var s := states[i];
            && (t in s.producers && s.producers[t].PLinked? ==>
                  s.mutex == ByProducer(t) && s.rear in s.heap && s.heap[s.rear].next == Some(s.producers[t].p))
            && (s.consumer.CUnlinked? && s.taken == |s.linked| ==>
                  s.mutex == ByConsumer && s.rear != s.front && s.front in s.heap && s.heap[s.front].next == None)
  {
    RunKeepsInv(states, acts, i);
    var s := states[i];
    if t in s.producers && s.producers[t].PLinked? && s.taken + 2 <= |s.linked| {
      assert s.heap[s.linked[|s.linked| - 2].id].next == Some(s.linked[|s.linked| - 1].id);
    }
  }

  /** At every moment of every run: rear is the last node of the list and ends it, except exactly between the two
      writes of an insertion, and between those of a removal that empties the queue. */
  lemma RearIsLastExactly(states: seq<State>, acts: seq<Action>, i: nat)
    requires IsRun(states, acts) && i < |states|
    ensures var s := states[i];
            && s.taken <= |s.linked|
            && ((s.rear == IdAt(s, |s.linked| - 1) && s.rear in s.heap && s.heap[s.rear].next == None)
                <==> !(s.mutex.ByProducer? && s.mutex.t in s.producers && s.producers[s.mutex.t].PLinked?)
                     && !(s.consumer.CUnlinked? && s.taken == |s.linked|))
  {
    RunKeepsInv(states, acts, i);
    var s := states[i];
    if s.mutex.ByProducer? && s.producers[s.mutex.t].PLinked? {
      ShapeBreaksBetweenWrites(states, acts, i, s.mutex.t);
    }
  }

  /** The main loop's test front == rear is exact at the moment it is made: getout_queue returns
      null only from an empty queue, and never from a queue that holds something. */
  lemma EmptyTestIsExact(states: seq<State>, acts: seq<Action>, i: nat)
    requires IsRun(states, acts) && i < |states| && states[i].consumer == CLocked
    ensures states[i].front == states[i].rear <==> states[i].taken == |states[i].linked|
  {
    RunKeepsInv(states, acts, i);
    var s := states[i];
    if s.taken < |s.linked| {
      assert s.heap[s.linked[|s.linked| - 1].id].owner == Queued(|s.linked| - 1);
    }
  }

  /** Each inserted result is in exactly one place: handed over (posted or dropped) with its own bytes and
      length, in the hands of the main loop, or in the queue; and results are handed over in insertion order. */
  lemma EachResultInOnePlace(states: seq<State>, acts: seq<Action>, i: nat, r: nat)
    requires IsRun(states, acts) && i < |states| && r < |states[i].linked|
    ensures var s := states[i];
            var handed, inHand, queued := r < |s.handed|, r == |s.handed| && r < s.taken, s.taken <= r;
            && (if handed then !inHand && !queued else inHand != queued)
            && (handed ==> s.handed[r].res == RQ.Copied(s.linked[r].data))
            && (inHand ==> InHand(s.consumer) == Some(RQ.Copied(s.linked[r].data)))
            && (queued ==> s.linked[r].id in s.heap && s.heap[s.linked[r].id].data == Some(s.linked[r].data))
  {
    RunKeepsInv(states, acts, i);
  }

  /** Nothing leaks and nothing is freed early: every allocated node is the sentinel, a queued node, or the
      private node of one thread; and no thread is stuck for want of a node it is about to read. */
  lemma HeapIsExact(states: seq<State>, acts: seq<Action>, i: nat)
    requires IsRun(states, acts) && i < |states|
    ensures var s := states[i];
            && (forall x :: x in s.heap ==> OwnerHas(s, x, s.heap[x].owner))
            && (forall t :: t in s.producers && s.producers[t].PLocked? ==> ProducerStep(s, t).Some?)
            && (!s.consumer.CIdle? ==> ConsumerStep(s, true).Some?)
  {
    RunKeepsInv(states, acts, i);
    var s := states[i];
    if s.consumer.CLocked? {
      EmptyTestIsExact(states, acts, i);
    }
  }

  // ----- Progress -----

  /** How many instructions of the main loop are left until it has handed over its next result. */
  function Left(c: Consumer): (r: nat) {
    match c
    case CIdle => 8
    case CLocked => 7
    case CEmpty => 9
    case CTook(_) => 6
    case CCopied(_, _) => 5
    case CUnlinked(_, _) => 4
    case CRepaired(_, _) => 3
    case CFreed(_) => 2
    case CHolding(_) => 1
  }

  /** How many until it has handed over result r. */
  function Distance(s: State, r: nat): (d: int) {
    8 * (r - |s.handed|) + Left(s.consumer)
  }

  /** While a result is queued the main loop does not find the queue empty. */
  lemma QueuedIsSeen(s: State)
    requires Chain(s) && RearPlaced(s) && ConsumerOk(s) && s.consumer.CLocked? && s.taken < |s.linked|
    ensures s.front != s.rear
  {
    assert s.heap[s.linked[|s.linked| - 1].id].owner == Queued(|s.linked| - 1);
  }

  lemma ConsumeComesNearer(s: State, s': State, created: bool, r: nat)
    requires ConsumerOk(s) && Delivered(s) && Next(s, s', Consume(created)) && |s.handed| <= r < |s.linked|
    requires s.consumer.CLocked? && s.taken < |s.linked| ==> s.front != s.rear
    ensures Distance(s', r) == Distance(s, r) - 1
  {
  }

  lemma OthersKeepDistance(s: State, s': State, a: Action)
    requires Next(s, s', a) && !a.Consume?
    ensures s'.handed == s.handed && s'.consumer == s.consumer
  {
  }

  /** Every instruction of the main loop comes one nearer to handing the result over, and no other thread's takes it
      further away. */
  lemma DistanceFalls(s: State, s': State, a: Action, r: nat)
    requires Inv(s) && Next(s, s', a) && |s.handed| <= r < |s.linked|
    ensures Distance(s', r) == Distance(s, r) - if a.Consume? then 1 else 0
  {
    match a
    case Consume(created) =>
      if s.consumer.CLocked? && s.taken < |s.linked| {
        QueuedIsSeen(s);
      }
      ConsumeComesNearer(s, s', created, r);
    case _ => OthersKeepDistance(s, s', a);
  }

  /** How many of the actions i, ..., j - 1 are instructions of the main loop. */
  function Consumed(acts: seq<Action>, i: nat, j: nat): (r: nat)
    requires i <= j <= |acts|
    decreases j - i
  {
    if i == j then 0 else (if acts[i].Consume? then 1 else 0) + Consumed(acts, i + 1, j)
  }

  /** What was inserted and what was handed over stays so. */
  lemma {:induction false} HistoryGrows(states: seq<State>, acts: seq<Action>, i: nat, j: nat)
    requires IsRun(states, acts) && i <= j < |states|
    ensures states[i].linked <= states[j].linked && states[i].handed <= states[j].handed
    decreases j - i
  {
    if i < j {
      StepGrows(states[i], states[i + 1], acts[i]);
      HistoryGrows(states, acts, i + 1, j);
    }
  }

  lemma StepGrows(s: State, s': State, a: Action)
    requires Next(s, s', a)
    ensures s.linked <= s'.linked && s.handed <= s'.handed
  {
  }

  lemma RunComesNearer(states: seq<State>, acts: seq<Action>, i: nat, r: nat)
    requires IsRun(states, acts) && i < |acts| && |states[i].handed| <= r < |states[i].linked|
    ensures Distance(states[i + 1], r) == Distance(states[i], r) - if acts[i].Consume? then 1 else 0
    ensures r < |states[i + 1].linked|
  {
    RunKeepsInv(states, acts, i);
    assert Next(states[i], states[i + 1], acts[i]);
    StepGrows(states[i], states[i + 1], acts[i]);
    DistanceFalls(states[i], states[i + 1], acts[i], r);
  }

  lemma {:induction false} ConsumedIs(states: seq<State>, acts: seq<Action>, i: nat, j: nat, r: nat)
    requires IsRun(states, acts) && i <= j < |states| && r < |states[i].linked| && |states[j].handed| <= r
    ensures Consumed(acts, i, j) == Distance(states[i], r) - Distance(states[j], r)
    decreases j - i
  {
    if i < j {
      HistoryGrows(states, acts, i, j);
      RunComesNearer(states, acts, i, r);
      ConsumedIs(states, acts, i + 1, j, r);
    }
  }

  lemma StartIsNear(states: seq<State>, acts: seq<Action>, i: nat, r: nat)
    requires IsRun(states, acts) && i < |states| && |states[i].handed| <= r < |states[i].linked|
    ensures Distance(states[i], r) <= 8 * (r + 1 - |states[i].handed|)
  {
    RunKeepsInv(states, acts, i);
  }

  /** In every run an inserted result is handed over after at most eight instructions of the main loop for it and for
      each result before it, whatever the inserting threads do meanwhile. */
  lemma HandedOverInTime(states: seq<State>, acts: seq<Action>, i: nat, j: nat, r: nat)
    requires IsRun(states, acts) && i <= j < |states| && |states[i].handed| <= r < |states[i].linked|
    requires Consumed(acts, i, j) >= 8 * (r + 1 - |states[i].handed|)
    ensures r < |states[j].handed| && states[j].handed[r].res == RQ.Copied(states[i].linked[r].data)
  {
    HistoryGrows(states, acts, i, j);
    EachResultInOnePlace(states, acts, j, r);
    if |states[j].handed| <= r {
      StartIsNear(states, acts, i, r);
      ConsumedIs(states, acts, i, j, r);
    }
  }

  /** A result is posted exactly if a thread could be created when it was handed over, and dropped otherwise. */
  lemma {:induction false} PostedIfCreated(states: seq<State>, acts: seq<Action>, j: nat, r: nat) returns (i: nat)
    requires IsRun(states, acts) && j < |states| && r < |states[j].handed|
    ensures i < j && acts[i].Consume? && states[i].consumer.CHolding? && |states[i].handed| == r
    ensures states[j].handed[r] == Handoff(states[i].consumer.res, acts[i].created)
    decreases j
  {
    i := j - 1;
    var s, a := states[i], acts[i];
    assert Next(s, states[i + 1], a);
    StepGrows(s, states[j], a);
    if r < |s.handed| {
      i := PostedIfCreated(states, acts, j - 1, r);
    }
  }

  function Inside(pc: Producer): (r: nat) {
    match pc
    case PLocked(_) => 3
    case PLinked(_) => 2
    case PMoved(_) => 1
    case _ => 0
  }

  /** The main loop waits only while an inserting thread is inside the mutex, and that thread can go on and leaves it
      after at most three instructions of its own. */
  lemma MutexIsGivenBack(states: seq<State>, acts: seq<Action>, i: nat)
    requires IsRun(states, acts) && i < |states|
    ensures var s := states[i];
            && (ConsumerStep(s, true).None? <==> s.consumer.CIdle? && s.mutex.ByProducer?)
            && (s.mutex.ByProducer? ==>
                  var t := s.mutex.t;
                  && t in s.producers && 1 <= Inside(s.producers[t]) <= 3 && ProducerStep(s, t).Some?
                  && var s' := ProducerStep(s, t).value;
                     && Inside(s'.producers[t]) == Inside(s.producers[t]) - 1
                     && (s'.mutex == if Inside(s'.producers[t]) == 0 then Free else s.mutex))
  {
    RunKeepsInv(states, acts, i);
    HeapIsExact(states, acts, i);
  }

  // ----- A run -----

  /** A run, one step longer. */
  lemma GoOn(states: seq<State>, acts: seq<Action>, s: State, a: Action)
    returns (states': seq<State>, acts': seq<Action>)
    requires IsRun(states, acts) && Next(states[|acts|], s, a)
    ensures IsRun(states', acts') && states'[|acts'|] == s
  {
    states', acts' := states + [s], acts + [a];
    forall i | 0 <= i < |acts'| ensures Next(states'[i], states'[i + 1], acts'[i]) {
      if i < |acts| {
        assert Next(states[i], states[i + 1], acts[i]);
      }
    }
  }

  const SENTINEL := Node(None, None, Sentinel)

  function Loaded(data: Payload, owner: Owner): (n: Node) {
    Node(Some(data), None, owner)
  }

  /** Thread 0 inserts a result behind the empty queue. */
  lemma InsertOne(data: Payload) returns (states: seq<State>, acts: seq<Action>)
    ensures IsRun(states, acts)
    ensures states[|acts|] == State(map[0 := SENTINEL.(next := Some(1)), 1 := Loaded(data, Queued(0))], 0, 1, Free,
                                    map[0 := PIdle], CIdle, [Link(1, data)], 0, [])
  {
    var node := Loaded(data, WithProducer(0));
    var s := State(map[0 := SENTINEL], 0, 0, Free, map[], CIdle, [], 0, []);
    states, acts := [s], [];
    s := s.(producers := map[0 := PIdle]);
    states, acts := GoOn(states, acts, s, Spawn(0));
    assert s.heap[1 := node] == map[0 := SENTINEL, 1 := node] && s.producers[0 := PReady(1)] == map[0 := PReady(1)];
    s := s.(heap := map[0 := SENTINEL, 1 := node], producers := map[0 := PReady(1)]);
    states, acts := GoOn(states, acts, s, Alloc(0, 1, data));
    assert s.producers[0 := PLocked(1)] == map[0 := PLocked(1)];
    s := s.(mutex := ByProducer(0), producers := map[0 := PLocked(1)]);
    states, acts := GoOn(states, acts, s, Produce(0));
    states, acts, s := LinkOne(states, acts, s, data);
    assert s.producers[0 := PMoved(1)] == map[0 := PMoved(1)];
    s := s.(rear := 1, producers := map[0 := PMoved(1)]);
    states, acts := GoOn(states, acts, s, Produce(0));
    assert s.producers[0 := PIdle] == map[0 := PIdle];
    s := s.(mutex := Free, producers := map[0 := PIdle]);
    states, acts := GoOn(states, acts, s, Produce(0));
  }

  lemma LinkOne(states0: seq<State>, acts0: seq<Action>, s: State, data: Payload)
    returns (states: seq<State>, acts: seq<Action>, s': State)
    requires IsRun(states0, acts0) && states0[|acts0|] == s
    requires s == State(map[0 := SENTINEL, 1 := Loaded(data, WithProducer(0))], 0, 0, ByProducer(0),
                        map[0 := PLocked(1)], CIdle, [], 0, [])
    ensures IsRun(states, acts) && states[|acts|] == s'
    ensures s' == State(map[0 := SENTINEL.(next := Some(1)), 1 := Loaded(data, Queued(0))], 0, 0, ByProducer(0),
                        map[0 := PLinked(1)], CIdle, [Link(1, data)], 0, [])
  {
    var h := SetNext(s.heap, 0, Some(1));
    assert h[1 := h[1].(owner := Queued(0))] == map[0 := SENTINEL.(next := Some(1)), 1 := Loaded(data, Queued(0))];
    assert s.producers[0 := PLinked(1)] == map[0 := PLinked(1)];
    assert s.linked + [Link(1, data)] == [Link(1, data)];
    s' := s.(heap := map[0 := SENTINEL.(next := Some(1)), 1 := Loaded(data, Queued(0))],
             producers := map[0 := PLinked(1)], linked := [Link(1, data)]);
    states, acts := GoOn(states0, acts0, s', Produce(0));
  }

  /** The main loop takes the result out and hands it to a posting thread; the sentinel is left alone. */
  lemma ResultGetsThrough(data: Payload) returns (states: seq<State>, acts: seq<Action>)
    ensures IsRun(states, acts)
    ensures var end := states[|acts|];
            && end.handed == [Handoff(RQ.Copied(data), true)] && end.heap == map[end.front := SENTINEL]
            && end.rear == end.front && end.mutex == Free
  {
    states, acts := InsertOne(data);
    var s := states[|acts|];
    var res := RQ.Copied(data);
    s := s.(mutex := ByConsumer, consumer := CLocked);
    states, acts := GoOn(states, acts, s, Consume(true));
    s := s.(consumer := CTook(1));
    states, acts := GoOn(states, acts, s, Consume(true));
    s := s.(consumer := CCopied(1, res));
    states, acts := GoOn(states, acts, s, Consume(true));
    states, acts, s := UnlinkOne(states, acts, s, data);
    s := s.(rear := 0, consumer := CRepaired(1, res));
    states, acts := GoOn(states, acts, s, Consume(true));
    assert s.heap - {1} == map[0 := SENTINEL];
    s := s.(heap := map[0 := SENTINEL], consumer := CFreed(res));
    states, acts := GoOn(states, acts, s, Consume(true));
    s := s.(mutex := Free, consumer := CHolding(res));
    states, acts := GoOn(states, acts, s, Consume(true));
    assert s.handed + [Handoff(res, true)] == [Handoff(res, true)];
    s := s.(handed := [Handoff(res, true)], consumer := CIdle);
    states, acts := GoOn(states, acts, s, Consume(true));
  }

  lemma UnlinkOne(states0: seq<State>, acts0: seq<Action>, s: State, data: Payload)
    returns (states: seq<State>, acts: seq<Action>, s': State)
    requires IsRun(states0, acts0) && states0[|acts0|] == s
    requires s == State(map[0 := SENTINEL.(next := Some(1)), 1 := Loaded(data, Queued(0))], 0, 1, ByConsumer,
                        map[0 := PIdle], CCopied(1, RQ.Copied(data)), [Link(1, data)], 0, [])
    ensures IsRun(states, acts) && states[|acts|] == s'
    ensures s' == s.(heap := map[0 := SENTINEL, 1 := Loaded(data, WithConsumer)], taken := 1,
                     consumer := CUnlinked(1, RQ.Copied(data)))
  {
    var h := SetNext(s.heap, 0, None);
    assert h[1 := h[1].(owner := WithConsumer)] == map[0 := SENTINEL, 1 := Loaded(data, WithConsumer)];
    s' := s.(heap := map[0 := SENTINEL, 1 := Loaded(data, WithConsumer)], taken := 1,
             consumer := CUnlinked(1, RQ.Copied(data)));
    states, acts := GoOn(states0, acts0, s', Consume(true));
  }
}
