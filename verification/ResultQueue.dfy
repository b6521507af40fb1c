/** The queue of command results: a linked list with a sentinel node, kept under a mutex.
    A C byte is a Dafny char, and the byte 0 is '\0'. */
module ResultQueue {
  import opened Limits

  /** A result as its readers see it: the whole buffer, and the length of the command output. */
  datatype Payload = Payload(bytes: seq<char>, cSize: int)

  /** The size of the buffer that cmdresult_malloc allocates when asked for n bytes. */
  function BufferSize(n: nat): (r: nat) {
    (if n > MAX_CMD_OUT_BUF + 1 then MAX_CMD_OUT_BUF + 1 else n) + 1
  }

  function Zeros(n: nat): (r: seq<char>) {
    seq(n, _ => '\0')
  }

  /** A second allocation for a buffer of an allocated size never comes out smaller, so the copy fits. */
  lemma CopyFits(n: nat)
    ensures BufferSize(n) <= BufferSize(BufferSize(n))
  {
  }

  /** What getout_queue hands over for a queued payload: the old buffer, zeros up to the new size. */
  function Copied(p: Payload): (r: Payload)
    requires |p.bytes| <= MAX_CMD_OUT_BUF + 2
  {
    Payload(p.bytes + Zeros(BufferSize(|p.bytes|) - |p.bytes|), p.cSize)
  }

  /** What the producer queues for a command output that fits its first buffer. */
  function Queued(output: seq<char>): (r: Payload)
    requires |output| <= MAX_CMD_OUT_BUF + 2
  {
    Payload(output + Zeros(BufferSize(|output|) - |output|), |output|)
  }

  /** One byte more than asked for, as long as that is not more than the largest buffer. */
  lemma BufferSizeIs(n: nat)
    ensures BufferSize(n) == n + 1 || BufferSize(n) == MAX_CMD_OUT_BUF + 2
    ensures BufferSize(n) == n + 1 <==> n <= MAX_CMD_OUT_BUF + 1
  {
  }

  /** The first allocation holds the whole output exactly up to this length; beyond it the read into
      the buffer would run past its end. */
  lemma ReadFitsExactly(n: nat)
    ensures n <= BufferSize(n) <==> n <= MAX_CMD_OUT_BUF + 2
  {
  }

  /** Through both allocations the consumer gets the output itself, its length in cSize, and a terminating
      zero exactly when the output has at most MAX_CMD_OUT_BUF + 1 bytes. */
  lemma DeliveredIsTerminated(output: seq<char>)
    requires |output| <= MAX_CMD_OUT_BUF + 2
    ensures var d := Copied(Queued(output));
            && d.cSize == |output|
            && |d.bytes| >= |output|
            && d.bytes == output + Zeros(|d.bytes| - |output|)
            && (|d.bytes| > |output| <==> |output| <= MAX_CMD_OUT_BUF + 1)
  {
    var q := Queued(output);
    var k := BufferSize(|output|) - |output|;
    assert Zeros(k) + Zeros(BufferSize(|q.bytes|) - |q.bytes|) == Zeros(BufferSize(|q.bytes|) - |output|);
    assert (output + Zeros(k)) + Zeros(BufferSize(|q.bytes|) - |q.bytes|)
        == output + (Zeros(k) + Zeros(BufferSize(|q.bytes|) - |q.bytes|));
  }

  /** memcpy. */
  method CopyBytes(dst: array<char>, src: array<char>, n: nat)
    requires n <= dst.Length && n <= src.Length && dst != src
    modifies dst
    ensures dst[..] == src[..n] + old(dst[n..])
  {
    var i := 0;
    while i < n
      invariant i <= n
      invariant forall j :: 0 <= j < i ==> dst[j] == src[j]
      invariant forall j :: i <= j < dst.Length ==> dst[j] == old(dst[j])
    {
      dst[i] := src[i];
      i := i + 1;
    }
  }

  class Result {
    const result: array<char>
    const size: nat
    var cSize: int

    ghost predicate Valid() {
      1 <= size <= MAX_CMD_OUT_BUF + 2 && result.Length == size
    }

    function View(): (r: Payload)
      reads this, result
    {
      Payload(result[..], cSize)
    }

    constructor (bufSize: nat)
      ensures Valid() && size == BufferSize(bufSize) && fresh(result)
      ensures result[..] == Zeros(size) && cSize == 0
    {
      var n := if bufSize > MAX_CMD_OUT_BUF + 1 then MAX_CMD_OUT_BUF + 1 else bufSize;
      n := n + 1;
      result := new char[n](_ => '\0');
      size := n;
      cSize := 0;
    }
  }

  /** The copy that getout_queue hands to its caller. */
  method CopyResult(data: Result) returns (res: Result)
    requires data.Valid()
    ensures res.Valid() && fresh(res) && fresh(res.result)
    ensures res.View() == Copied(data.View())
  {
    res := new Result(data.size);
    CopyBytes(res.result, data.result, data.size);
    res.cSize := data.cSize;
    assert data.result[..data.size] == data.result[..];
    assert Zeros(res.size)[data.size..] == Zeros(res.size - data.size);
  }

  class QNode {
    var data: Result?
    var next: QNode?

    constructor (data: Result?)
      ensures this.data == data && next == null
    {
      this.data := data;
      next := null;
    }
  }

  /** The first and the last node are found nowhere else. */
  ghost predicate EndsApart(s: seq<QNode>) {
    && (forall i :: 0 < i < |s| ==> s[i] != s[0])
    && (forall i :: 0 <= i < |s| - 1 ==> s[i] != s[|s| - 1])
  }

  class Queue {
    var front: QNode
    var rear: QNode

    /** The nodes from the sentinel on, and the payloads queued behind it. */
    ghost var Nodes: seq<QNode>
    ghost var Contents: seq<Payload>
    ghost var Repr: set<object>

    ghost predicate Valid()
      reads this, Repr
      ensures Valid() ==> this in Repr
    {
      && this in Repr
      && |Nodes| == |Contents| + 1
      && (forall i :: 0 <= i < |Nodes| ==> Nodes[i] in Repr)
      && EndsApart(Nodes)
      && front == Nodes[0] && rear == Nodes[|Nodes| - 1] && rear.next == null
      && (forall i {:trigger Nodes[i].next} :: 0 <= i < |Nodes| - 1 ==> Nodes[i].next == Nodes[i + 1])
      && (forall i :: 0 < i < |Nodes| ==> Holds(Nodes[i], Contents[i - 1]))
    }

    ghost predicate Holds(p: QNode, c: Payload)
      requires p in Repr
      reads this, Repr
    {
      && p.data != null && p.data in Repr && p.data.result in Repr
      && p.data.Valid() && p.data.View() == c
    }

    constructor ()
      ensures Valid() && fresh(Repr) && Contents == []
    {
      var p := new QNode(null);
      front := p;
      rear := p;
      Nodes, Contents := [p], [];
      Repr := {this, p};
    }

    method Insert(elem: Result)
      requires Valid() && elem.Valid()
      modifies Repr
      ensures Valid() && fresh(Repr - old(Repr) - {elem, elem.result})
      ensures Contents == old(Contents) + [old(elem.View())]
    {
      var p := new QNode(elem);
      LinkBehind(p, elem);
    }

    /** The two writes under the mutex. */
    method LinkBehind(p: QNode, ghost elem: Result)
      requires Valid() && elem.Valid() && p !in Repr && p.data == elem && p.next == null
      modifies this, rear`next
      ensures Valid() && Repr == old(Repr) + {p, elem, elem.result}
      ensures Contents == old(Contents) + [old(elem.View())]
    {
      rear.next := p;
      rear := p;
      Nodes, Contents, Repr := Nodes + [p], Contents + [elem.View()], Repr + {p, elem, elem.result};
    }

    method GetOut() returns (res: Result?)
      requires Valid()
      modifies Repr
      ensures Valid() && Repr <= old(Repr)
      ensures old(Contents) == [] ==> res == null && Contents == []
      ensures old(Contents) != [] ==>
                && res != null && fresh(res) && fresh(res.result) && res.Valid()
                && |old(Contents)[0].bytes| <= MAX_CMD_OUT_BUF + 2
                && res.View() == Copied(old(Contents)[0])
                && Contents == old(Contents)[1..]
    {
      if front == rear {
        return null;
      }
      assert front.next == Nodes[1];
      var p := front.next;
      res := CopyResult(p.data);
      UnlinkFirst(p);
    }

    /** The two writes under the mutex. */
    method UnlinkFirst(p: QNode)
      requires Valid() && Contents != [] && p == front.next
      modifies this, front`next
      ensures Valid() && Repr == old(Repr) && Contents == old(Contents)[1..]
    {
      assert front.next == Nodes[1];
      front.next := p.next;
      if rear == p {
        rear := front;
      }
      Nodes, Contents := [Nodes[0]] + Nodes[2..], Contents[1..];
    }
  }
}
