/** The traffic file written from the listing that iptables -nvx prints: grep searches whole lines, so that the counters
    in front of an address may look like another address. */
module TrafficListing {
  import opened CountRules
  import opened Decimal
  import opened Seqs
  import opened TrafficFile

  // ----- Addresses -----

  /** An address in its printed form, not 0.0.0.0: digits and single dots between them. */
  ghost predicate IsAddress(d: string) {
    && 7 <= |d| <= 15 && IsDigit(d[0]) && IsDigit(d[|d| - 1])
    && (forall k :: 0 <= k < |d| ==> IsDigit(d[k]) || d[k] == '.')
    && (forall k, l :: 0 <= k && l == k + 1 && l < |d| ==> IsDigit(d[k]) || IsDigit(d[l]))
    && exists k :: 0 <= k < |d| && '1' <= d[k] <= '9'
  }

  lemma AddressIsWord(d: string)
    requires IsAddress(d)
    ensures Word(d) && |d| <= 15
  {
  }

  predicate NoDigit(s: string) {
    forall k :: 0 <= k < |s| ==> !IsDigit(s[k])
  }

  predicate OnlyZeros(s: string) {
    forall k :: 0 <= k < |s| ==> !('1' <= s[k] <= '9')
  }

  /** A dot of an address matches any one character, so that grep does not find the address across a gap of two
      characters that are no digits. */
  lemma NotAcrossGap(d: string, left: string, gap: string, right: string)
    requires IsAddress(d) && NoDigit(gap) && |gap| >= 2
    ensures Match(d, left + (gap + right)) <==> Match(d, left) || Match(d, right)
  {
    var text := left + (gap + right);
    var i, j := |left|, |left| + |gap|;
    if Match(d, text) {
      var o :| 0 <= o <= |text| && MatchAt(d, text, o);
      WindowBesideGap(d, left, gap, right, o);
    }
    if o :| 0 <= o <= |left| && MatchAt(d, left, o) {
      assert MatchAt(d, text, o);
    }
    if o :| 0 <= o <= |right| && MatchAt(d, right, o) {
      forall k | 0 <= k < |d| ensures d[k] == '.' || d[k] == text[j + o + k] {
        assert text[j + o + k] == right[o + k];
      }
      assert MatchAt(d, text, j + o);
    }
  }

  lemma DotsOverGap(d: string, text: string, o: nat, k: nat)
    requires MatchAt(d, text, o) && k + 1 < |d| && !IsDigit(text[o + k]) && !IsDigit(text[o + k + 1])
    requires forall i :: 0 <= i < |d| ==> IsDigit(d[i]) || d[i] == '.'
    ensures !IsDigit(d[k]) && !IsDigit(d[k + 1])
  {
    assert text[o + (k + 1)] == text[o + k + 1];
  }

  lemma WindowBesideGap(d: string, left: string, gap: string, right: string, o: nat)
    requires IsAddress(d) && NoDigit(gap) && |gap| >= 2 && MatchAt(d, left + (gap + right), o)
    ensures Match(d, left) || Match(d, right)
  {
    var text := left + (gap + right);
    var i, j, last := |left|, |left| + |gap|, |d| - 1;
    assert forall k :: i <= k < j ==> text[k] == gap[k - i];
    assert text[o + 0] == d[0] && text[o + last] == d[last];
    if o + last < i {
      assert MatchAt(d, left, o);
    } else if o >= j {
      forall k | 0 <= k < |d| ensures d[k] == '.' || d[k] == right[o - j + k] {
        assert text[o + k] == right[o - j + k];
      }
      assert MatchAt(d, right, o - j);
    } else {
      DotsOverGap(d, text, o, i - o);
      assert false;
    }
  }

  /** An address is not found where all digits are zeros, nor in less than its length. */
  lemma NotInZeros(d: string, s: string)
    requires IsAddress(d) && (OnlyZeros(s) || |s| < |d|)
    ensures !Match(d, s)
  {
    var k :| 0 <= k < |d| && '1' <= d[k] <= '9';
    assert forall o: nat :: MatchAt(d, s, o) ==> d[k] == s[o + k];
  }

  // ----- The lines -----

  function Blanks(n: int): (r: string)
    ensures NoDigit(r) && |r| == (if n < 0 then 0 else n)
  {
    if n <= 0 then "" else " " + Blanks(n - 1)
  }

  function PadLeft(s: string): (r: string) {
    Blanks(8 - |s|) + s
  }

  /** The first two columns. */
  function Counters(packets: nat, bytes: nat): (r: string) {
    PadLeft(Print(packets)) + (" " + PadLeft(Print(bytes)))
  }

  const COLUMNS := "UPLOAD     all  --  *      *       "
  const TARGET := " " + COLUMNS
  const ANYWHERE := "0.0.0.0/0           "

  function UploadLine(packets: nat, bytes: nat, addr: string): (r: string) {
    Counters(packets, bytes) + (TARGET + (addr + (Blanks(21 - |addr|) + ANYWHERE)))
  }

  /** The lines of the UPLOAD rules; packets counts beside the bytes. */
  function Listing(packets: Rule -> nat): (r: Rule -> string) {
    (r: Rule) => if r.Up? then UploadLine(packets(r), r.count, r.addr) else ""
  }

  lemma TargetIsGap()
    ensures NoDigit(TARGET) && |TARGET| >= 2 && OnlyZeros(ANYWHERE)
  {
  }

  /** In a line of the listing grep finds the addresses that it finds in the address or in the counters. */
  lemma LineShows(d: string, packets: nat, bytes: nat, addr: string)
    requires IsAddress(d) && |addr| <= 15
    ensures Match(d, UploadLine(packets, bytes, addr)) <==> Match(d, addr) || Match(d, Counters(packets, bytes))
  {
    var gap := Blanks(21 - |addr|);
    TargetIsGap();
    NotAcrossGap(d, Counters(packets, bytes), TARGET, addr + (gap + ANYWHERE));
    NotAcrossGap(d, addr, gap, ANYWHERE);
    NotInZeros(d, ANYWHERE);
  }

  lemma {:induction false} WordsBehind(n: int, rest: string)
    ensures Words(Blanks(n) + rest) == Words(rest)
  {
    if n <= 0 {
      assert Blanks(n) + rest == rest;
    } else {
      assert Blanks(n) + rest == "" + " " + (Blanks(n - 1) + rest);
      WordsFirst("", Blanks(n - 1) + rest);
      WordsBehind(n - 1, rest);
    }
  }

  lemma WordPadded(w: string, rest: string)
    requires Word(w)
    ensures Words(PadLeft(w) + (" " + rest)) == [w] + Words(rest)
  {
    var n := 8 - |w|;
    assert PadLeft(w) + (" " + rest) == Blanks(n) + (w + " " + rest);
    WordsBehind(n, w + " " + rest);
    WordsFirst(w, rest);
  }

  lemma TwoColumns(p: string, b: string, more: string)
    requires Word(p) && Word(b)
    ensures Words(PadLeft(p) + (" " + PadLeft(b)) + (" " + more)) == [p, b] + Words(more)
  {
    WordPadded(b, more);
    WordPadded(p, PadLeft(b) + (" " + more));
    assert PadLeft(p) + (" " + PadLeft(b)) + (" " + more) == PadLeft(p) + (" " + (PadLeft(b) + (" " + more)));
  }

  /** What awk prints as the second column of a line is the counter of the rule. */
  lemma SecondColumn(packets: nat, bytes: nat, addr: string)
    ensures var w := Words(UploadLine(packets, bytes, addr)); |w| >= 2 && w[1] == Print(bytes)
  {
    var behind := addr + (Blanks(21 - |addr|) + ANYWHERE);
    PrintIsWord(packets);
    PrintIsWord(bytes);
    Assoc(" ", COLUMNS, behind);
    TwoColumns(Print(packets), Print(bytes), COLUMNS + behind);
  }

  // ----- Which chains -----

  /** All counted addresses are addresses of hosts. */
  ghost predicate Hosts(chain: seq<Rule>) {
    forall d :: d in Downs(chain) ==> IsAddress(d)
  }

  /** The counters of no UPLOAD rule look like another counted address. */
  ghost predicate CountersApart(chain: seq<Rule>, packets: Rule -> nat) {
    forall i, d :: 0 <= i < |chain| && chain[i].Up? && d in Downs(chain) && d != chain[i].addr ==>
      !Match(d, Counters(packets(chain[i]), chain[i].count))
  }

  /** No counted address matches another one. */
  ghost predicate NoMatches(chain: seq<Rule>) {
    forall d, e :: d in Downs(chain) && e in Downs(chain) && Match(d, e) ==> d == e
  }

  lemma HostsAddressed(chain: seq<Rule>)
    requires Hosts(chain)
    ensures Addressed(chain)
  {
    forall i | 0 <= i < |chain| && chain[i].Down? ensures Word(chain[i].addr) && |chain[i].addr| <= 15 {
      RuleIsCounted(chain, chain[i]);
      DownsCounted(chain, chain[i].addr);
      AddressIsWord(chain[i].addr);
    }
  }

  lemma ListingShowsOwn(chain: seq<Rule>, packets: Rule -> nat)
    requires Paired(chain) && Hosts(chain)
    ensures ShowsOwn(chain, Listing(packets))
  {
    forall i | 0 <= i < |chain| && chain[i].Up? ensures Match(chain[i].addr, Listing(packets)(chain[i])) {
      var r := chain[i];
      PairedIsListed(chain, chain[i]);
      MatchSelf(r.addr);
      LineShows(r.addr, packets(r), r.count, r.addr);
    }
  }

  lemma ListingApart(chain: seq<Rule>, packets: Rule -> nat)
    requires Paired(chain) && Hosts(chain)
    ensures Apart(chain, Listing(packets)) <==> NoMatches(chain) && CountersApart(chain, packets)
  {
    var text := Listing(packets);
    forall i, d | 0 <= i < |chain| && chain[i].Up? && d in Downs(chain)
      ensures Match(d, text(chain[i])) <==>
              Match(d, chain[i].addr) || Match(d, Counters(packets(chain[i]), chain[i].count))
      ensures chain[i].addr in Downs(chain)
    {
      PairedIsListed(chain, chain[i]);
      LineShows(d, packets(chain[i]), chain[i].count, chain[i].addr);
    }
    if Apart(chain, text) {
      forall d, e | d in Downs(chain) && e in Downs(chain) && Match(d, e) ensures d == e {
        DownsCounted(chain, e);
        assert CountUp(chain, e) == CountDown(chain, e);
        var i := UpRuleOf(chain, e);
        assert OnlyOwn(chain, text, d);
      }
      forall i, d | 0 <= i < |chain| && chain[i].Up? && d in Downs(chain) && d != chain[i].addr
        ensures !Match(d, Counters(packets(chain[i]), chain[i].count))
      {
        assert OnlyOwn(chain, text, d);
      }
    }
  }

  /** With the listing that iptables prints: the script writes whole records if and only if no counted address matches
      another one or the counters in its UPLOAD line. */
  lemma ListedFileIsWholeExactly(chain: seq<Rule>, packets: Rule -> nat)
    requires Paired(chain) && Hosts(chain)
    ensures (forall l :: l in TrafficLines(chain, chain, Listing(packets)) ==> Whole(l))
       <==> NoMatches(chain) && CountersApart(chain, packets)
  {
    HostsAddressed(chain);
    ListingShowsOwn(chain, packets);
    ListingApart(chain, packets);
    PairedFileIsWholeExactly(chain, Listing(packets));
  }

  /** Counters shorter than any address: at most six digits each. */
  predicate Short(packets: nat, bytes: nat) {
    |Print(packets)| <= 6 && |Print(bytes)| <= 6
  }

  lemma ShortCounters(d: string, packets: nat, bytes: nat)
    requires IsAddress(d) && Short(packets, bytes)
    ensures !Match(d, Counters(packets, bytes))
  {
    var p, b := Print(packets), Print(bytes);
    var gap := " " + Blanks(8 - |b|);
    var rest := p + (gap + b);
    assert Counters(packets, bytes) == "" + (Blanks(8 - |p|) + rest);
    NotAcrossGap(d, "", Blanks(8 - |p|), rest);
    NotAcrossGap(d, p, gap, b);
    NotInZeros(d, "");
    NotInZeros(d, p);
    NotInZeros(d, b);
  }

  /** While no counter has seven digits, only the addresses matter. */
  lemma ShortFileIsWholeExactly(chain: seq<Rule>, packets: Rule -> nat)
    requires Paired(chain) && Hosts(chain)
    requires forall i :: 0 <= i < |chain| && chain[i].Up? ==> Short(packets(chain[i]), chain[i].count)
    ensures (forall l :: l in TrafficLines(chain, chain, Listing(packets)) ==> Whole(l)) <==> NoMatches(chain)
  {
    forall i, d | 0 <= i < |chain| && chain[i].Up? && d in Downs(chain)
      ensures !Match(d, Counters(packets(chain[i]), chain[i].count))
    {
      ShortCounters(d, packets(chain[i]), chain[i].count);
    }
    ListedFileIsWholeExactly(chain, packets);
  }

  // ----- A counter that looks like an address -----

  lemma DigitsAppend(m: nat, c: char)
    requires m > 0 && IsDigit(c)
    ensures Digits(10 * m + (c as int - '0' as int)) == Digits(m) + [c]
  {
    var n := 10 * m + (c as int - '0' as int);
    assert n / 10 == m && Digit(n % 10) == c;
  }

  lemma {:induction false} DigitsOfValue(s: string)
    requires s != "" && AllDigits(s) && s[0] != '0'
    ensures Digits(Value(s)) == s
    decreases |s|
  {
    var last := |s| - 1;
    if last == 0 {
      assert Value(s[..last]) == 0;
    } else {
      DigitsOfValue(s[..last]);
      assert Digits(0) == [Digit(0)];
      DigitsAppend(Value(s[..last]), s[last]);
    }
  }

  lemma MatchInside(d: string, left: string, mid: string, right: string)
    requires Match(d, mid)
    ensures Match(d, left + (mid + right))
  {
    var o :| 0 <= o <= |mid| && MatchAt(d, mid, o);
    var text := left + (mid + right);
    forall k | 0 <= k < |d| ensures d[k] == '.' || d[k] == text[|left| + o + k] {
      assert text[|left| + o + k] == mid[o + k];
    }
    assert MatchAt(d, text, |left| + o);
  }

  function ZerosForDots(d: string): (r: string)
    ensures |r| == |d| && forall k :: 0 <= k < |d| ==> r[k] == if d[k] == '.' then '0' else d[k]
  {
    seq(|d|, k requires 0 <= k < |d| => if d[k] == '.' then '0' else d[k])
  }

  /** Every address that does not start with a zero is matched by some counter. */
  lemma CounterLikeAddress(d: string) returns (n: nat)
    requires IsAddress(d) && d[0] != '0'
    ensures forall packets: nat :: Match(d, Counters(packets, n))
  {
    var s := ZerosForDots(d);
    n := Value(s);
    DigitsOfValue(s);
    assert MatchAt(d, s, 0);
    forall packets: nat ensures Match(d, Counters(packets, n)) {
      MatchesCounters(d, packets, n);
    }
  }

  lemma MatchesCounters(d: string, packets: nat, bytes: nat)
    requires Match(d, Print(bytes))
    ensures Match(d, Counters(packets, bytes))
  {
    var b := Print(bytes);
    var left, pad := PadLeft(Print(packets)) + " ", Blanks(8 - |b|);
    MatchInside(d, left + pad, b, "");
    assert (left + pad) + (b + "") == Counters(packets, bytes);
  }

  /** So that no match among the addresses is not enough: for any two hosts there is a number of bytes uploaded by the
      one at which the record of the other is broken, whatever the other counters are. */
  lemma CounterBreaksRecord(a: string, d: string) returns (n: nat)
    requires IsAddress(a) && IsAddress(d) && a != d && a[0] != '0'
    ensures forall i: nat, j: nat, k: nat, packets: Rule -> nat ::
              Broken([Down(a, i), Up(a, j), Down(d, k), Up(d, n)], packets)
  {
    n := CounterLikeAddress(a);
    forall i: nat, j: nat, k: nat, packets: Rule -> nat
      ensures Broken([Down(a, i), Up(a, j), Down(d, k), Up(d, n)], packets)
    {
      OneCounterBreaks(i, Up(a, j), k, Up(d, n), packets);
    }
  }

  lemma OneCounterBreaks(i: nat, u: Rule, k: nat, v: Rule, packets: Rule -> nat)
    requires u.Up? && v.Up? && u.addr != v.addr && IsAddress(u.addr) && IsAddress(v.addr)
    requires Match(u.addr, Counters(packets(v), v.count))
    ensures Broken([Down(u.addr, i), u, Down(v.addr, k), v], packets)
  {
    LinesShow(u, packets, u.addr);
    LinesShow(v, packets, v.addr);
    LinesShow(v, packets, u.addr);
    var text := Listing(packets);
    AddressIsWord(u.addr);
    AddressIsWord(v.addr);
    PairBreaksRecord(text, i, u, k, v);
  }

  /** Some record is not whole. */
  ghost predicate Broken(chain: seq<Rule>, packets: Rule -> nat) {
    exists l :: l in TrafficLines(chain, chain, Listing(packets)) && !Whole(l)
  }

  lemma LinesShow(r: Rule, packets: Rule -> nat, d: string)
    requires r.Up? && IsAddress(d) && |r.addr| <= 15
    requires d == r.addr || Match(d, Counters(packets(r), r.count))
    ensures Match(d, Listing(packets)(r))
  {
    MatchSelf(d);
    LineShows(d, packets(r), r.count, r.addr);
  }
}
