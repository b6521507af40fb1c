/** The growing string buffer and the loop that collects an HTTP response in it. */
module Pstr {
  import opened Limits
  import opened Seqs
  import opened Text
  import opened Wrappers

  /** The string that starts a character buffer: everything before the first zero. */
  function CStr(s: seq<char>): (r: seq<char>)
    ensures '\0' !in r
  {
    s[..Find(s, '\0')]
  }

  method StrLen(a: array<char>) returns (n: nat)
    requires '\0' in a[..]
    ensures n < a.Length && CStr(a[..]) == a[..n] && a[n] == '\0'
  {
    n := 0;
    while a[n] != '\0'
      invariant n < a.Length && '\0' !in a[..n]
      decreases a.Length - n
    {
      n := n + 1;
    }
    FindIs(a[..], '\0', 0, n);
  }

  /** The capacity the buffer has for a text of n characters: whole blocks, with room for the zero. */
  function Capacity(n: nat): (r: nat) {
    MAX_BUF * (n / MAX_BUF + 1)
  }

  /** It is the least number of blocks that leaves room for the terminating zero. */
  lemma CapacityIsLeast(n: nat, blocks: nat)
    ensures n + 1 <= Capacity(n)
    ensures n + 1 <= MAX_BUF * blocks ==> Capacity(n) <= MAX_BUF * blocks
  {
    assert n / MAX_BUF * MAX_BUF <= n < n / MAX_BUF * MAX_BUF + MAX_BUF;
  }

  class Pstr {
    var buf: array<char>
    var len: nat
    var size: nat

    ghost predicate Valid()
      reads this, buf
    {
      && size == buf.Length == Capacity(len)
      && len < size && buf[len] == '\0'
      && '\0' !in buf[..len]
    }

    function Text(): (r: seq<char>)
      requires len <= buf.Length
      reads this, buf
    {
      buf[..len]
    }

    constructor ()
      ensures Valid() && Text() == [] && fresh(buf)
    {
      buf := new char[MAX_BUF](_ => '\0');
      len := 0;
      size := MAX_BUF;
    }

    /** realloc: the old bytes are kept, the added ones are whatever was in memory. */
    method Grow()
      requires size == buf.Length
      modifies this`buf, this`size
      ensures fresh(buf) && size == buf.Length == old(size) + MAX_BUF
      ensures buf[..old(size)] == old(buf[..])
    {
      var bigger := new char[size + MAX_BUF];
      for i := 0 to size
        invariant size == old(size) && buf == old(buf) && buf[..] == old(buf[..])
        invariant bigger[..i] == buf[..i]
      {
        bigger[i] := buf[i];
      }
      buf := bigger;
      size := size + MAX_BUF;
    }

    /** strncat at the end of the text, for a source of inlen characters that fits. */
    method Append(src: array<char>, inlen: nat)
      requires size == buf.Length && len + inlen < size && inlen < src.Length && src != buf
      modifies this`len, buf
      ensures len == old(len) + inlen && len < buf.Length && buf[len] == '\0'
      ensures buf[..len] == old(buf[..len]) + src[..inlen]
    {
      for i := 0 to inlen
        invariant len == old(len)
        invariant buf[..len + i] == old(buf[..len]) + src[..i]
        invariant src[..] == old(src[..])
      {
        buf[len + i] := src[i];
      }
      buf[len + inlen] := '\0';
      len := len + inlen;
    }

    method Cat(src: array<char>)
      requires Valid() && '\0' in src[..] && src != buf
      modifies this, buf
      ensures Valid() && (buf == old(buf) || fresh(buf))
      ensures Text() == old(Text()) + CStr(src[..])
      ensures src[..] == old(src[..])
    {
      var inlen := StrLen(src);
      while len + inlen + 1 > size
        invariant size == buf.Length && size % MAX_BUF == 0 && len == old(len)
        invariant size == old(size) || size <= len + inlen + MAX_BUF
        invariant size >= old(size) && (buf == old(buf) || fresh(buf))
        invariant buf[..len] == old(buf[..len])
        invariant src[..] == old(src[..]) && src != buf
        decreases len + inlen + 1 - size
      {
        ghost var b := buf[..];
        Grow();
        assert buf[..len] == b[..len];
      }
      Append(src, inlen);
    }
  }

  // ----- http_get -----

  /** How the reading of a response ends: the peer closes, or select or read fails or times out. */
  datatype End = Closed | Broken

  function Flatten(chunks: seq<seq<char>>): (r: seq<char>) {
    if chunks == [] then [] else chunks[0] + Flatten(chunks[1..])
  }

  /** What http_get collects: of every read, the part before its first zero. */
  function Received(chunks: seq<seq<char>>): (r: seq<char>) {
    if chunks == [] then [] else CStr(chunks[0]) + Received(chunks[1..])
  }

  lemma {:induction false} ReceivedSnoc(chunks: seq<seq<char>>, c: seq<char>)
    ensures Received(chunks + [c]) == Received(chunks) + CStr(c)
  {
    if chunks == [] {
      assert (chunks + [c])[1..] == [];
    } else {
      assert (chunks + [c])[1..] == chunks[1..] + [c];
      ReceivedSnoc(chunks[1..], c);
    }
  }

  /** One read into the zeroed buffer. */
  method FillReadbuf(readbuf: array<char>, chunk: seq<char>)
    requires readbuf.Length == MAX_BUF && |chunk| <= MAX_BUF - 1
    modifies readbuf
    ensures '\0' in readbuf[..] && CStr(readbuf[..]) == CStr(chunk)
  {
    forall i | 0 <= i < readbuf.Length {
      readbuf[i] := if i < |chunk| then chunk[i] else '\0';
    }
    assert readbuf[|chunk|] == '\0';
    var k := Find(chunk, '\0');
    FindIs(readbuf[..], '\0', 0, k);
    assert readbuf[..][..k] == chunk[..k];
  }

  /** Send the request of reqlen bytes, of which `sent` go out, and collect what the peer sends back
      in the given chunks until `end`. */
  method HttpGet(sockfd: int, reqlen: nat, sent: int, chunks: seq<seq<char>>, end: End)
    returns (r: Option<seq<char>>)
    requires Reads(chunks)
    ensures r == if sockfd == -1 || sent <= 0 || sent != reqlen || end == Broken then None
                 else Some(Received(chunks))
  {
    if sockfd == -1 || sent <= 0 || sent != reqlen {
      return None;
    }
    var response := new Pstr();
    var readbuf := new char[MAX_BUF];
    for i := 0 to |chunks|
      invariant response.Valid() && fresh(response) && fresh(response.buf) && readbuf != response.buf
      invariant response.Text() == Received(chunks[..i])
    {
      FillReadbuf(readbuf, chunks[i]);
      response.Cat(readbuf);
      assert chunks[..i + 1] == chunks[..i] + [chunks[i]];
      ReceivedSnoc(chunks[..i], chunks[i]);
    }
    if end == Broken {
      return None;
    }
    assert chunks[..|chunks|] == chunks;
    r := Some(response.Text());
  }

  lemma {:induction false} ReceivedLength(chunks: seq<seq<char>>)
    ensures |Received(chunks)| <= |Flatten(chunks)|
    ensures '\0' !in Flatten(chunks) ==> Received(chunks) == Flatten(chunks)
    ensures '\0' in Flatten(chunks) ==> |Received(chunks)| < |Flatten(chunks)|
  {
    if chunks != [] {
      ReceivedLength(chunks[1..]);
      assert |CStr(chunks[0])| < |chunks[0]| <==> '\0' in chunks[0];
      assert '\0' !in chunks[0] ==> CStr(chunks[0]) == chunks[0];
    }
  }

  /** The response is the byte stream itself exactly when the stream has no zero byte. */
  lemma ReceivedIsStream(chunks: seq<seq<char>>)
    ensures Received(chunks) == Flatten(chunks) <==> '\0' !in Flatten(chunks)
  {
    ReceivedLength(chunks);
  }

  // ----- When the division into reads matters -----

  /** The reads that one response may be divided into. */
  predicate Reads(chunks: seq<seq<char>>) {
    forall i :: 0 <= i < |chunks| ==> 1 <= |chunks[i]| <= MAX_BUF - 1
  }

  /** All zeros stand at the end. */
  ghost predicate ZerosAtEnd(s: seq<char>) {
    forall i, j :: 0 <= i && j == i + 1 && j < |s| && s[i] == '\0' ==> s[j] == '\0'
  }

  lemma {:induction false} AllZeros(s: seq<char>, i: nat, k: nat)
    requires ZerosAtEnd(s) && i <= k < |s| && s[i] == '\0'
    ensures s[k] == '\0'
    decreases k - i
  {
    if i < k {
      AllZeros(s, i + 1, k);
    }
  }

  lemma CStrIs(s: seq<char>, k: nat)
    requires k <= |s| && '\0' !in s[..k] && (k < |s| ==> s[k] == '\0')
    ensures CStr(s) == s[..k]
  {
    assert forall j :: 0 <= j < k ==> s[j] == s[..k][j];
    FindIs(s, '\0', 0, k);
  }

  /** A chunk without a zero lets the rest through, ... */
  lemma CStrThrough(c: seq<char>, rest: seq<char>)
    requires '\0' !in c
    ensures CStr(c) == c && CStr(c + rest) == c + CStr(rest)
  {
    var k := |CStr(rest)|;
    CStrIs(c, |c|);
    assert (c + rest)[..|c| + k] == c + rest[..k];
    CStrIs(c + rest, |c| + k);
  }

  /** ... and behind one with a zero, nothing counts. */
  lemma CStrStops(c: seq<char>, rest: seq<char>)
    requires '\0' in c
    ensures CStr(c + rest) == CStr(c)
  {
    var k := |CStr(c)|;
    assert (c + rest)[..k] == c[..k];
    CStrIs(c + rest, k);
  }

  /** If all zeros of the stream stand at its end, the response is what stands before them, however it was divided. */
  lemma {:induction false} ReceivedBeforeZeros(chunks: seq<seq<char>>)
    requires ZerosAtEnd(Flatten(chunks))
    ensures Received(chunks) == CStr(Flatten(chunks))
  {
    if chunks != [] {
      var c, rest := chunks[0], Flatten(chunks[1..]);
      TailZerosAtEnd(c, rest);
      ReceivedBeforeZeros(chunks[1..]);
      if '\0' in c {
        CStrStops(c, rest);
        NothingBehindZero(c, rest);
      } else {
        CStrThrough(c, rest);
      }
    }
  }

  lemma TailZerosAtEnd(c: seq<char>, rest: seq<char>)
    requires ZerosAtEnd(c + rest)
    ensures ZerosAtEnd(rest)
  {
    forall i, j | 0 <= i && j == i + 1 && j < |rest| && rest[i] == '\0' ensures rest[j] == '\0' {
      assert (c + rest)[|c| + i] == rest[i] && (c + rest)[|c| + j] == rest[j];
    }
  }

  lemma NothingBehindZero(c: seq<char>, rest: seq<char>)
    requires ZerosAtEnd(c + rest) && '\0' in c
    ensures CStr(rest) == []
  {
    var i :| 0 <= i < |c| && c[i] == '\0';
    if rest != [] {
      AllZeros(c + rest, i, |c|);
      assert rest[0] == '\0';
    }
  }

  /** Every byte read by itself. */
  function Singles(s: seq<char>): (r: seq<seq<char>>)
    ensures |r| == |s| && Reads(r)
  {
    seq(|s|, i requires 0 <= i < |s| => [s[i]])
  }

  lemma {:induction false} FlattenSingles(s: seq<char>)
    ensures Flatten(Singles(s)) == s
    decreases s
  {
    if s != [] {
      FlattenSingles(s[1..]);
      assert Singles(s)[1..] == Singles(s[1..]);
      assert s == [s[0]] + s[1..];
    }
  }

  lemma {:induction false} SumOfReads(a: seq<seq<char>>, b: seq<seq<char>>)
    ensures Flatten(a + b) == Flatten(a) + Flatten(b)
    ensures Received(a + b) == Received(a) + Received(b)
    decreases a
  {
    if a == [] {
      assert a + b == b;
    } else {
      assert (a + b)[1..] == a[1..] + b;
      SumOfReads(a[1..], b);
      Assoc(a[0], Flatten(a[1..]), Flatten(b));
      Assoc(CStr(a[0]), Received(a[1..]), Received(b));
    }
  }

  lemma OneRead(c: seq<char>)
    ensures Flatten([c]) == c && Received([c]) == CStr(c)
  {
    assert [c][1..] == [];
    assert c + [] == c && CStr(c) + [] == CStr(c);
  }

  /** A zero and the other byte behind it: read together the other byte is lost, read one by one it is kept. */
  lemma TwoBytes(x: char)
    requires x != '\0'
    ensures Flatten([['\0', x]]) == Flatten([['\0'], [x]])
    ensures Received([['\0', x]]) == [] && Received([['\0'], [x]]) == [x]
  {
    OneRead(['\0', x]);
    OneRead(['\0']);
    OneRead([x]);
    SumOfReads([['\0']], [[x]]);
    assert [['\0']] + [[x]] == [['\0'], [x]];
    CStrIs(['\0', x], 0);
    CStrIs(['\0'], 0);
    CStrIs([x], 1);
  }

  lemma InTheMiddle(before: seq<seq<char>>, x: seq<seq<char>>, behind: seq<seq<char>>)
    ensures Flatten(before + (x + behind)) == Flatten(before) + (Flatten(x) + Flatten(behind))
    ensures |Received(before + (x + behind))| == |Received(before)| + |Received(x)| + |Received(behind)|
  {
    SumOfReads(x, behind);
    SumOfReads(before, x + behind);
  }

  /** A stream with a zero that is not at its end has two divisions with different responses. */
  lemma DivisionMattersWithZeros(s: seq<char>) returns (a: seq<seq<char>>, b: seq<seq<char>>)
    requires !ZerosAtEnd(s)
    ensures Reads(a) && Reads(b) && Flatten(a) == Flatten(b) == s && |Received(a)| != |Received(b)|
  {
    var i, j :| 0 <= i && j == i + 1 && j < |s| && s[i] == '\0' && s[j] != '\0';
    a, b := DivisionsAround(s[..i], s[j], s[j + 1..]);
    assert s == s[..i] + (['\0', s[j]] + s[j + 1..]);
  }

  lemma DivisionsAround(x: seq<char>, c: char, y: seq<char>) returns (a: seq<seq<char>>, b: seq<seq<char>>)
    requires c != '\0'
    ensures Reads(a) && Reads(b) && |Received(a)| != |Received(b)|
    ensures Flatten(a) == Flatten(b) == x + (['\0', c] + y)
  {
    var apart, together := [['\0'], [c]], [['\0', c]];
    a, b := Singles(x) + (apart + Singles(y)), Singles(x) + (together + Singles(y));
    TwoBytes(c);
    OneRead(['\0', c]);
    FlattenSingles(x);
    FlattenSingles(y);
    InTheMiddle(Singles(x), apart, Singles(y));
    InTheMiddle(Singles(x), together, Singles(y));
    ReadsInTheMiddle(Singles(x), apart, Singles(y));
    ReadsInTheMiddle(Singles(x), together, Singles(y));
  }

  lemma ReadsInTheMiddle(before: seq<seq<char>>, x: seq<seq<char>>, behind: seq<seq<char>>)
    requires Reads(before) && Reads(x) && Reads(behind)
    ensures Reads(before + (x + behind))
  {
  }

  /** The response is the same for every division of a stream into reads if and only if all zeros of the stream
      stand at its end. */
  lemma DivisionMattersExactly(s: seq<char>)
    ensures (forall a, b :: Reads(a) && Reads(b) && Flatten(a) == s && Flatten(b) == s ==> Received(a) == Received(b))
       <==> ZerosAtEnd(s)
  {
    if ZerosAtEnd(s) {
      forall a, b | Reads(a) && Reads(b) && Flatten(a) == s && Flatten(b) == s ensures Received(a) == Received(b) {
        ReceivedBeforeZeros(a);
        ReceivedBeforeZeros(b);
      }
    } else {
      var a, b := DivisionMattersWithZeros(s);
    }
  }
}
