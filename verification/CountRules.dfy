/** The traffic counting rules of the FORWARD chain, kept in step with the ARP table by matching
    addresses with grep. */
module CountRules {

  /** A rule of the chain: the two counting rules of an address, with what they counted so far,
      or a rule of somebody else. */
  datatype Rule = Up(addr: string, count: nat) | Down(addr: string, count: nat) | Other(text: string)

  /** grep with an address as the pattern: a dot in it matches any character, and the match
      may start anywhere in the text. */
  predicate Match(pat: string, text: string) {
    exists o :: 0 <= o <= |text| && MatchAt(pat, text, o)
  }

  predicate MatchAt(pat: string, text: string, o: nat) {
    o + |pat| <= |text| && forall k :: 0 <= k < |pat| ==> pat[k] == '.' || pat[k] == text[o + k]
  }

  lemma MatchSelf(addr: string)
    ensures Match(addr, addr)
  {
    assert MatchAt(addr, addr, 0);
  }

  function CountUp(chain: seq<Rule>, x: string): (r: nat) {
    if chain == [] then 0 else (if chain[0].Up? && chain[0].addr == x then 1 else 0) + CountUp(chain[1..], x)
  }

  function CountDown(chain: seq<Rule>, x: string): (r: nat) {
    if chain == [] then 0 else (if chain[0].Down? && chain[0].addr == x then 1 else 0) + CountDown(chain[1..], x)
  }

  /** iptables -L FORWARD | grep DOWNLOAD | awk '{print $9}'. */
  function Downs(chain: seq<Rule>): (r: seq<string>) {
    if chain == [] then [] else if chain[0].Down? then [chain[0].addr] + Downs(chain[1..]) else Downs(chain[1..])
  }

  lemma {:induction false} DownsCounted(chain: seq<Rule>, x: string)
    ensures x in Downs(chain) <==> CountDown(chain, x) > 0
  {
    if chain != [] {
      DownsCounted(chain[1..], x);
    }
  }

  /** Every counted address has one UPLOAD and one DOWNLOAD rule. */
  ghost predicate Paired(chain: seq<Rule>) {
    forall x :: CountUp(chain, x) == CountDown(chain, x) <= 1
  }

  lemma {:induction false} RuleIsCounted(chain: seq<Rule>, r: Rule)
    requires r in chain && !r.Other?
    ensures if r.Up? then CountUp(chain, r.addr) > 0 else CountDown(chain, r.addr) > 0
  {
    if r != chain[0] {
      assert r in chain[1..];
      RuleIsCounted(chain[1..], r);
    }
  }

  lemma PairedIsListed(chain: seq<Rule>, r: Rule)
    requires Paired(chain) && r in chain && !r.Other?
    ensures r.addr in Downs(chain)
  {
    RuleIsCounted(chain, r);
    DownsCounted(chain, r.addr);
    assert CountUp(chain, r.addr) == CountDown(chain, r.addr);
  }

  // ----- One line of each loop -----

  predicate Listed(chain: seq<Rule>, line: string) {
    exists d :: d in Downs(chain) && Match(line, d)
  }

  predicate Live(arp: seq<string>, line: string) {
    exists a :: a in arp && Match(line, a)
  }

  /** The two insertions at position 1: DOWNLOAD ends up in front of UPLOAD. */
  function AddPair(chain: seq<Rule>, line: string): (r: seq<Rule>) {
    [Down(line, 0), Up(line, 0)] + chain
  }

  function DeleteUp(chain: seq<Rule>, x: string): (r: seq<Rule>) {
    if chain == [] then []
    else if chain[0].Up? && chain[0].addr == x then chain[1..]
    else [chain[0]] + DeleteUp(chain[1..], x)
  }

  function DeleteDown(chain: seq<Rule>, x: string): (r: seq<Rule>) {
    if chain == [] then []
    else if chain[0].Down? && chain[0].addr == x then chain[1..]
    else [chain[0]] + DeleteDown(chain[1..], x)
  }

  function DeletePair(chain: seq<Rule>, x: string): (r: seq<Rule>) {
    DeleteDown(DeleteUp(chain, x), x)
  }

  lemma {:induction false} DeleteUpCounts(chain: seq<Rule>, x: string, y: string)
    ensures CountUp(DeleteUp(chain, x), y)
         == if x == y && CountUp(chain, y) > 0 then CountUp(chain, y) - 1 else CountUp(chain, y)
    ensures CountDown(DeleteUp(chain, x), y) == CountDown(chain, y)
  {
    if chain != [] && !(chain[0].Up? && chain[0].addr == x) {
      DeleteUpCounts(chain[1..], x, y);
      assert DeleteUp(chain, x)[1..] == DeleteUp(chain[1..], x);
    }
  }

  lemma {:induction false} DeleteDownCounts(chain: seq<Rule>, x: string, y: string)
    ensures CountDown(DeleteDown(chain, x), y)
         == if x == y && CountDown(chain, y) > 0 then CountDown(chain, y) - 1 else CountDown(chain, y)
    ensures CountUp(DeleteDown(chain, x), y) == CountUp(chain, y)
  {
    if chain != [] && !(chain[0].Down? && chain[0].addr == x) {
      DeleteDownCounts(chain[1..], x, y);
      assert DeleteDown(chain, x)[1..] == DeleteDown(chain[1..], x);
    }
  }

  lemma DeletePairCounts(chain: seq<Rule>, x: string, y: string)
    ensures CountUp(DeletePair(chain, x), y)
         == if x == y && CountUp(chain, y) > 0 then CountUp(chain, y) - 1 else CountUp(chain, y)
    ensures CountDown(DeletePair(chain, x), y)
         == if x == y && CountDown(chain, y) > 0 then CountDown(chain, y) - 1 else CountDown(chain, y)
  {
    DeleteUpCounts(chain, x, y);
    DeleteDownCounts(DeleteUp(chain, x), x, y);
  }

  /** A counting rule of one of the addresses. */
  predicate Counts(r: Rule, addrs: set<string>) {
    !r.Other? && r.addr in addrs
  }

  /** The chain without the counting rules of the addresses in dead: the other rules keep their order
      and their counters. */
  function Without(chain: seq<Rule>, dead: set<string>): (r: seq<Rule>) {
    if chain == [] then []
    else if Counts(chain[0], dead) then Without(chain[1..], dead)
    else [chain[0]] + Without(chain[1..], dead)
  }

  lemma {:induction false} WithoutCounts(chain: seq<Rule>, dead: set<string>, x: string)
    ensures CountUp(Without(chain, dead), x) == if x in dead then 0 else CountUp(chain, x)
    ensures CountDown(Without(chain, dead), x) == if x in dead then 0 else CountDown(chain, x)
  {
    if chain != [] {
      WithoutCounts(chain[1..], dead, x);
      if !Counts(chain[0], dead) {
        assert Without(chain, dead)[1..] == Without(chain[1..], dead);
      }
    }
  }

  lemma {:induction false} WithoutTwice(chain: seq<Rule>, a: set<string>, b: set<string>)
    ensures Without(Without(chain, a), b) == Without(chain, a + b)
  {
    if chain != [] {
      WithoutTwice(chain[1..], a, b);
      if !Counts(chain[0], a) {
        assert Without(chain, a)[1..] == Without(chain[1..], a);
      }
    }
  }

  lemma {:induction false} WithoutAbsent(chain: seq<Rule>, dead: set<string>)
    requires forall x :: x in dead ==> CountUp(chain, x) == CountDown(chain, x) == 0
    ensures Without(chain, dead) == chain
  {
    if chain != [] {
      forall x | x in dead ensures CountUp(chain[1..], x) == CountDown(chain[1..], x) == 0 {
        assert CountUp(chain, x) == CountDown(chain, x) == 0;
      }
      WithoutAbsent(chain[1..], dead);
      assert chain == [chain[0]] + chain[1..];
    }
  }

  lemma {:induction false} DeleteUpIsWithout(chain: seq<Rule>, x: string)
    requires CountUp(chain, x) <= 1 && CountDown(chain, x) == 0
    ensures DeleteUp(chain, x) == Without(chain, {x})
  {
    if chain != [] {
      if chain[0].Up? && chain[0].addr == x {
        WithoutAbsent(chain[1..], {x});
      } else {
        DeleteUpIsWithout(chain[1..], x);
      }
    }
  }

  /** An address with at most one rule of each kind is removed entirely by the two deletions. */
  lemma {:induction false} DeletePairIsWithout(chain: seq<Rule>, x: string)
    requires CountUp(chain, x) <= 1 && CountDown(chain, x) <= 1
    ensures DeletePair(chain, x) == Without(chain, {x})
  {
    if chain != [] {
      var u := DeleteUp(chain, x);
      if chain[0].Up? && chain[0].addr == x {
        DeleteDownIsWithout(chain[1..], x);
      } else if chain[0].Down? && chain[0].addr == x {
        assert u == [chain[0]] + DeleteUp(chain[1..], x);
        DeleteUpIsWithout(chain[1..], x);
      } else {
        assert u == [chain[0]] + DeleteUp(chain[1..], x);
        DeletePairIsWithout(chain[1..], x);
      }
    }
  }

  lemma {:induction false} DeleteDownIsWithout(chain: seq<Rule>, x: string)
    requires CountDown(chain, x) <= 1 && CountUp(chain, x) == 0
    ensures DeleteDown(chain, x) == Without(chain, {x})
  {
    if chain != [] {
      if chain[0].Down? && chain[0].addr == x {
        WithoutAbsent(chain[1..], {x});
      } else {
        DeleteDownIsWithout(chain[1..], x);
      }
    }
  }

  // ----- update_fw_count_rule -----

  /** The chain after the first n lines of the ARP table: an address is added unless grep finds some
      counted address it matches. */
  function AddUpTo(chain: seq<Rule>, arp: seq<string>, n: nat): (r: seq<Rule>)
    requires n <= |arp|
  {
    if n == 0 then chain
    else
      var c := AddUpTo(chain, arp, n - 1);
      if Listed(c, arp[n - 1]) then c else AddPair(c, arp[n - 1])
  }

  /** The chain after the lines of the DOWNLOAD listing: an address goes unless grep finds it in the ARP table. */
  function Purge(chain: seq<Rule>, lines: seq<string>, arp: seq<string>): (r: seq<Rule>)
    decreases lines
  {
    if lines == [] then chain
    else Purge(if Live(arp, lines[0]) then chain else DeletePair(chain, lines[0]), lines[1..], arp)
  }

  function Update(chain: seq<Rule>, arp: seq<string>): (r: seq<Rule>) {
    var c := AddUpTo(chain, arp, |arp|);
    Purge(c, Downs(c), arp)
  }

  ghost function Dead(lines: seq<string>, arp: seq<string>): (r: set<string>) {
    set x | x in lines && !Live(arp, x)
  }

  lemma {:induction false} PurgeIsWithout(chain: seq<Rule>, lines: seq<string>, arp: seq<string>)
    requires forall x :: CountUp(chain, x) <= 1 && CountDown(chain, x) <= 1
    ensures Purge(chain, lines, arp) == Without(chain, Dead(lines, arp))
    decreases lines
  {
    if lines == [] {
      WithoutAbsent(chain, Dead(lines, arp));
    } else {
      assert lines == [lines[0]] + lines[1..];
      if Live(arp, lines[0]) {
        PurgeIsWithout(chain, lines[1..], arp);
        assert Dead(lines, arp) == Dead(lines[1..], arp);
      } else {
        var c := DeletePair(chain, lines[0]);
        forall x ensures CountUp(c, x) <= 1 && CountDown(c, x) <= 1 {
          DeletePairCounts(chain, lines[0], x);
        }
        PurgeIsWithout(c, lines[1..], arp);
        DeletePairIsWithout(chain, lines[0]);
        WithoutTwice(chain, {lines[0]}, Dead(lines[1..], arp));
        assert Dead(lines, arp) == {lines[0]} + Dead(lines[1..], arp);
      }
    }
  }

  lemma AddPairCounts(chain: seq<Rule>, line: string, x: string)
    ensures CountUp(AddPair(chain, line), x) == CountUp(chain, x) + if x == line then 1 else 0
    ensures CountDown(AddPair(chain, line), x) == CountDown(chain, x) + if x == line then 1 else 0
    ensures Downs(AddPair(chain, line)) == [line] + Downs(chain)
  {
    var c := AddPair(chain, line);
    assert c[1..] == [Up(line, 0)] + chain && c[1..][1..] == chain;
  }

  /** An address that matches nothing listed is not counted itself. */
  lemma UnlistedIsUncounted(chain: seq<Rule>, line: string)
    requires !Listed(chain, line)
    ensures CountDown(chain, line) == 0
  {
    MatchSelf(line);
    DownsCounted(chain, line);
  }

  lemma {:induction false} AddKeepsPaired(chain: seq<Rule>, arp: seq<string>, n: nat)
    requires Paired(chain) && n <= |arp|
    ensures Paired(AddUpTo(chain, arp, n))
  {
    if n > 0 {
      AddKeepsPaired(chain, arp, n - 1);
      var c := AddUpTo(chain, arp, n - 1);
      if !Listed(c, arp[n - 1]) {
        UnlistedIsUncounted(c, arp[n - 1]);
        var e := AddPair(c, arp[n - 1]);
        forall x ensures CountUp(e, x) == CountDown(e, x) <= 1 {
          AddPairCounts(c, arp[n - 1], x);
        }
      }
    }
  }

  /** The rules put in front by the first loop. */
  function NewPairs(chain: seq<Rule>, arp: seq<string>, n: nat): (r: seq<Rule>)
    requires n <= |arp|
    ensures forall i :: 0 <= i < |r| ==> !r[i].Other? && r[i].addr in arp && r[i].count == 0
  {
    if n == 0 then []
    else if Listed(AddUpTo(chain, arp, n - 1), arp[n - 1]) then NewPairs(chain, arp, n - 1)
    else AddPair(NewPairs(chain, arp, n - 1), arp[n - 1])
  }

  lemma {:induction false} AddsInFront(chain: seq<Rule>, arp: seq<string>, n: nat)
    requires n <= |arp|
    ensures AddUpTo(chain, arp, n) == NewPairs(chain, arp, n) + chain
  {
    if n > 0 {
      AddsInFront(chain, arp, n - 1);
    }
  }

  lemma {:induction false} WithoutOfSum(a: seq<Rule>, b: seq<Rule>, dead: set<string>)
    requires forall i :: 0 <= i < |a| ==> !Counts(a[i], dead)
    ensures Without(a + b, dead) == a + Without(b, dead)
  {
    if a == [] {
      assert a + b == b;
    } else {
      assert (a + b)[1..] == a[1..] + b;
      WithoutOfSum(a[1..], b, dead);
    }
  }

  lemma {:induction false} DownsOfSum(a: seq<Rule>, b: seq<Rule>)
    ensures Downs(a + b) == Downs(a) + Downs(b)
  {
    if a == [] {
      assert a + b == b;
    } else {
      assert (a + b)[1..] == a[1..] + b;
      DownsOfSum(a[1..], b);
    }
  }

  lemma {:induction false} DownsIn(a: seq<Rule>, arp: seq<string>)
    requires forall i :: 0 <= i < |a| ==> !a[i].Other? && a[i].addr in arp
    ensures forall x :: x in Downs(a) ==> x in arp
  {
    if a != [] {
      DownsIn(a[1..], arp);
    }
  }

  /** The pairs of these ARP lines, the last line first, each with DOWNLOAD in front. */
  function PairsOf(arp: seq<string>, added: seq<nat>): (r: seq<Rule>)
    requires forall k :: 0 <= k < |added| ==> added[k] < |arp|
  {
    if added == [] then []
    else
      var a := arp[added[|added| - 1]];
      [Down(a, 0), Up(a, 0)] + PairsOf(arp, added[..|added| - 1])
  }

  /** grep did not find this line when its turn came. */
  predicate Missing(chain: seq<Rule>, arp: seq<string>, i: nat)
    requires i < |arp|
  {
    !Listed(AddUpTo(chain, arp, i), arp[i])
  }

  /** Those of the first n lines, in their order. */
  function Added(chain: seq<Rule>, arp: seq<string>, n: nat): (r: seq<nat>)
    requires n <= |arp|
    ensures forall k :: 0 <= k < |r| ==> r[k] < n
  {
    if n == 0 then []
    else if Missing(chain, arp, n - 1) then Added(chain, arp, n - 1) + [n - 1]
    else Added(chain, arp, n - 1)
  }

  lemma {:induction false} AddedAre(chain: seq<Rule>, arp: seq<string>, n: nat)
    requires n <= |arp|
    ensures var r := Added(chain, arp, n);
            && (forall k, l :: 0 <= k < l < |r| ==> r[k] < r[l])
            && (forall i: nat :: i < n ==> (i in r <==> Missing(chain, arp, i)))
  {
    if n > 0 {
      AddedAre(chain, arp, n - 1);
    }
  }

  lemma NewPairsNext(chain: seq<Rule>, arp: seq<string>, n: nat)
    requires 0 < n <= |arp|
    ensures NewPairs(chain, arp, n)
         == if Missing(chain, arp, n - 1) then AddPair(NewPairs(chain, arp, n - 1), arp[n - 1])
            else NewPairs(chain, arp, n - 1)
  {
  }

  lemma AddedNext(chain: seq<Rule>, arp: seq<string>, n: nat)
    requires 0 < n <= |arp|
    ensures Added(chain, arp, n)
         == if Missing(chain, arp, n - 1) then Added(chain, arp, n - 1) + [n - 1] else Added(chain, arp, n - 1)
  {
  }

  /** Which pairs are new, and where they stand. */
  lemma {:induction false} NewPairsAre(chain: seq<Rule>, arp: seq<string>, n: nat)
    requires n <= |arp|
    ensures NewPairs(chain, arp, n) == PairsOf(arp, Added(chain, arp, n))
  {
    if n > 0 {
      var before, pairs := Added(chain, arp, n - 1), NewPairs(chain, arp, n - 1);
      NewPairsAre(chain, arp, n - 1);
      OneMoreLine(chain, arp, n, before, pairs);
    }
  }

  lemma {:induction false} OneMoreLine(chain: seq<Rule>, arp: seq<string>, n: nat, before: seq<nat>, pairs: seq<Rule>)
    requires 0 < n <= |arp| && before == Added(chain, arp, n - 1) && pairs == NewPairs(chain, arp, n - 1)
    requires pairs == PairsOf(arp, before)
    ensures NewPairs(chain, arp, n) == PairsOf(arp, Added(chain, arp, n))
  {
    NewPairsNext(chain, arp, n);
    AddedNext(chain, arp, n);
    PairsNext(arp, before, Added(chain, arp, n), n - 1, Missing(chain, arp, n - 1), pairs);
  }

  lemma {:induction false} PairsNext(arp: seq<string>, before: seq<nat>, added: seq<nat>, i: nat, missing: bool,
                                     pairs: seq<Rule>)
    requires i < |arp| && forall k :: 0 <= k < |before| ==> before[k] < |arp|
    requires added == (if missing then before + [i] else before) && pairs == PairsOf(arp, before)
    ensures forall k :: 0 <= k < |added| ==> added[k] < |arp|
    ensures PairsOf(arp, added) == if missing then AddPair(pairs, arp[i]) else pairs
  {
    PairsOfMore(arp, before, i);
  }

  lemma PairsOfMore(arp: seq<string>, added: seq<nat>, i: nat)
    requires i < |arp| && forall k :: 0 <= k < |added| ==> added[k] < |arp|
    ensures PairsOf(arp, added + [i]) == AddPair(PairsOf(arp, added), arp[i])
  {
    assert (added + [i])[..|added|] == added;
  }

  /** What one update does, whatever matches what: new pairs with zero counters in front, then the old chain
      without the pairs of the addresses that grep no longer finds; every rule that stays keeps its
      counters and its place. */
  lemma UpdateIs(chain: seq<Rule>, arp: seq<string>)
    requires Paired(chain)
    ensures Update(chain, arp) == NewPairs(chain, arp, |arp|) + Without(chain, Dead(Downs(chain), arp))
    ensures Paired(Update(chain, arp))
  {
    var c := AddUpTo(chain, arp, |arp|);
    var added := NewPairs(chain, arp, |arp|);
    AddKeepsPaired(chain, arp, |arp|);
    AddsInFront(chain, arp, |arp|);
    PurgeIsWithout(c, Downs(c), arp);
    DownsOfSum(added, chain);
    DownsIn(added, arp);
    forall x | x in arp ensures Live(arp, x) {
      MatchSelf(x);
    }
    assert Dead(Downs(c), arp) == Dead(Downs(chain), arp);
    WithoutOfSum(added, chain, Dead(Downs(chain), arp));
    forall x ensures var u := Update(chain, arp); CountUp(u, x) == CountDown(u, x) <= 1 {
      assert CountUp(c, x) == CountDown(c, x) <= 1;
      WithoutCounts(c, Dead(Downs(c), arp), x);
    }
  }

  lemma {:induction false} NewRuleIsUnlisted(chain: seq<Rule>, arp: seq<string>, n: nat, r: Rule)
    requires n <= |arp| && r in NewPairs(chain, arp, n)
    ensures !Listed(chain, r.addr)
  {
    var before := NewPairs(chain, arp, n - 1);
    if r in before {
      NewRuleIsUnlisted(chain, arp, n - 1, r);
    } else {
      AddsInFront(chain, arp, n - 1);
      DownsOfSum(before, chain);
      assert r.addr == arp[n - 1];
    }
  }

  lemma {:induction false} WithoutIsPart(chain: seq<Rule>, dead: set<string>, r: Rule)
    requires r in Without(chain, dead)
    ensures r in chain
  {
    if !(!Counts(chain[0], dead) && r == chain[0]) {
      WithoutIsPart(chain[1..], dead, r);
    }
  }

  /** No counter is lost or made up: an address counted before keeps its counters, a new one starts with zeros. */
  lemma UpdateKeepsCounters(chain: seq<Rule>, arp: seq<string>, r: Rule)
    requires Paired(chain) && r in Update(chain, arp) && !r.Other?
    ensures if r.addr in Downs(chain) then r in chain else r.count == 0
  {
    UpdateIs(chain, arp);
    if r in NewPairs(chain, arp, |arp|) {
      NewRuleIsUnlisted(chain, arp, |arp|, r);
      MatchSelf(r.addr);
    } else {
      WithoutIsPart(chain, Dead(Downs(chain), arp), r);
      PairedIsListed(chain, r);
    }
  }

  // ----- What the loops do to the counts of an address -----

  function Others(chain: seq<Rule>): (r: seq<Rule>) {
    if chain == [] then [] else if chain[0].Other? then [chain[0]] + Others(chain[1..]) else Others(chain[1..])
  }

  function Times(lines: seq<string>, x: string): (r: nat) {
    if lines == [] then 0 else (if lines[0] == x then 1 else 0) + Times(lines[1..], x)
  }

  function Minus(a: nat, b: nat): (r: nat) {
    if a >= b then a - b else 0
  }

  lemma {:induction false} TimesInDowns(chain: seq<Rule>, x: string)
    ensures Times(Downs(chain), x) == CountDown(chain, x)
  {
    if chain != [] {
      TimesInDowns(chain[1..], x);
      if chain[0].Down? {
        assert Downs(chain)[1..] == Downs(chain[1..]);
      }
    }
  }

  lemma {:induction false} DeleteUpKeepsOthers(chain: seq<Rule>, x: string)
    ensures Others(DeleteUp(chain, x)) == Others(chain)
  {
    if chain != [] && !(chain[0].Up? && chain[0].addr == x) {
      DeleteUpKeepsOthers(chain[1..], x);
      assert DeleteUp(chain, x)[1..] == DeleteUp(chain[1..], x);
    }
  }

  lemma {:induction false} DeleteDownKeepsOthers(chain: seq<Rule>, x: string)
    ensures Others(DeleteDown(chain, x)) == Others(chain)
  {
    if chain != [] && !(chain[0].Down? && chain[0].addr == x) {
      DeleteDownKeepsOthers(chain[1..], x);
      assert DeleteDown(chain, x)[1..] == DeleteDown(chain[1..], x);
    }
  }

  lemma {:induction false} OthersSkips(a: seq<Rule>, b: seq<Rule>)
    requires forall i :: 0 <= i < |a| ==> !a[i].Other?
    ensures Others(a + b) == Others(b)
  {
    if a == [] {
      assert a + b == b;
    } else {
      assert (a + b)[1..] == a[1..] + b;
      OthersSkips(a[1..], b);
    }
  }

  /** The second loop takes one rule of each kind from a dead address for each of its lines, and nothing else. */
  lemma {:induction false} PurgeCounts(chain: seq<Rule>, lines: seq<string>, arp: seq<string>, x: string)
    ensures var p, gone := Purge(chain, lines, arp), if Live(arp, x) then 0 else Times(lines, x);
            && CountUp(p, x) == Minus(CountUp(chain, x), gone)
            && CountDown(p, x) == Minus(CountDown(chain, x), gone)
            && Others(p) == Others(chain)
    decreases lines
  {
    if lines != [] {
      if Live(arp, lines[0]) {
        PurgeCounts(chain, lines[1..], arp, x);
      } else {
        DeletePairCounts(chain, lines[0], x);
        DeleteUpKeepsOthers(chain, lines[0]);
        DeleteDownKeepsOthers(DeleteUp(chain, lines[0]), lines[0]);
        PurgeCounts(DeletePair(chain, lines[0]), lines[1..], arp, x);
      }
    }
  }

  /** The first loop adds rules in pairs. */
  lemma {:induction false} AddUpToCounts(chain: seq<Rule>, arp: seq<string>, n: nat, x: string)
    requires n <= |arp|
    ensures var c := AddUpTo(chain, arp, n);
            CountUp(c, x) - CountUp(chain, x) == CountDown(c, x) - CountDown(chain, x) >= 0
  {
    if n > 0 {
      AddUpToCounts(chain, arp, n - 1, x);
      AddPairCounts(AddUpTo(chain, arp, n - 1), arp[n - 1], x);
    }
  }

  /** What an update leaves of the rules of an address: a dead one keeps only the UPLOAD rules it had in excess. */
  lemma UpdateCounts(chain: seq<Rule>, arp: seq<string>, x: string)
    ensures var u, c := Update(chain, arp), AddUpTo(chain, arp, |arp|);
            && CountDown(u, x) == (if Live(arp, x) then CountDown(c, x) else 0)
            && CountUp(u, x) == (if Live(arp, x) then CountUp(c, x) else Minus(CountUp(c, x), CountDown(c, x)))
            && Others(u) == Others(chain)
  {
    var c := AddUpTo(chain, arp, |arp|);
    TimesInDowns(c, x);
    PurgeCounts(c, Downs(c), arp, x);
    AddsInFront(chain, arp, |arp|);
    OthersSkips(NewPairs(chain, arp, |arp|), chain);
  }

  // ----- When it reconciles -----

  /** Line i of the ARP table is counted already, or matches no address counted by then. */
  predicate Reached(chain: seq<Rule>, arp: seq<string>, i: nat)
    requires i < |arp|
  {
    || arp[i] in Downs(chain) || arp[i] in arp[..i]
    || !((exists x :: x in Downs(chain) && Match(arp[i], x)) || (exists x :: x in arp[..i] && Match(arp[i], x)))
  }

  predicate AllReached(chain: seq<Rule>, arp: seq<string>) {
    forall i :: 0 <= i < |arp| ==> Reached(chain, arp, i)
  }

  /** No counted address that left the ARP table matches an address still in it. */
  predicate NoLookalike(chain: seq<Rule>, arp: seq<string>) {
    forall d :: d in Downs(chain) && d !in arp ==> !Live(arp, d)
  }

  lemma {:induction false} ReachedSoFar(chain: seq<Rule>, arp: seq<string>, n: nat, x: string)
    requires n <= |arp| && forall i :: 0 <= i < n ==> Reached(chain, arp, i)
    ensures x in Downs(AddUpTo(chain, arp, n)) <==> x in Downs(chain) || x in arp[..n]
  {
    if n > 0 {
      var c, a := AddUpTo(chain, arp, n - 1), arp[n - 1];
      assert arp[..n] == arp[..n - 1] + [a];
      forall y ensures y in Downs(c) <==> y in Downs(chain) || y in arp[..n - 1] {
        ReachedSoFar(chain, arp, n - 1, y);
      }
      assert Reached(chain, arp, n - 1);
      MatchSelf(a);
      AddPairCounts(c, a, x);
    }
  }

  /** An address whose turn was missed because another one matched is missed for good. */
  lemma {:induction false} MissedForGood(chain: seq<Rule>, arp: seq<string>, i: nat, n: nat)
    requires i <= n <= |arp| && i < |arp|
    requires arp[i] !in Downs(AddUpTo(chain, arp, i)) && Listed(AddUpTo(chain, arp, i), arp[i])
    ensures arp[i] !in Downs(AddUpTo(chain, arp, n)) && Listed(AddUpTo(chain, arp, n), arp[i])
  {
    if n > i {
      MissedForGood(chain, arp, i, n - 1);
      var c := AddUpTo(chain, arp, n - 1);
      AddPairCounts(c, arp[n - 1], arp[i]);
      var d :| d in Downs(c) && Match(arp[i], d);
      assert d in Downs(AddUpTo(chain, arp, n));
    }
  }

  /** After the first loop all ARP addresses are counted, exactly if each was reached. */
  lemma CoversIffReached(chain: seq<Rule>, arp: seq<string>)
    ensures (forall a :: a in arp ==> a in Downs(AddUpTo(chain, arp, |arp|))) <==> AllReached(chain, arp)
  {
    if AllReached(chain, arp) {
      forall a | a in arp ensures a in Downs(AddUpTo(chain, arp, |arp|)) {
        ReachedSoFar(chain, arp, |arp|, a);
        assert arp[..|arp|] == arp;
      }
    } else {
      var i := FirstMissed(chain, arp, 0);
      var c := AddUpTo(chain, arp, i);
      forall y ensures y in Downs(c) <==> y in Downs(chain) || y in arp[..i] {
        ReachedSoFar(chain, arp, i, y);
      }
      MissedForGood(chain, arp, i, |arp|);
      assert arp[i] in arp;
    }
  }

  lemma {:induction false} FirstMissed(chain: seq<Rule>, arp: seq<string>, from: nat) returns (i: nat)
    requires from <= |arp| && (forall j :: 0 <= j < from ==> Reached(chain, arp, j)) && !AllReached(chain, arp)
    ensures i < |arp| && !Reached(chain, arp, i) && forall j :: 0 <= j < i ==> Reached(chain, arp, j)
    decreases |arp| - from
  {
    if Reached(chain, arp, from) {
      i := FirstMissed(chain, arp, from + 1);
    } else {
      i := from;
    }
  }

  /** Which addresses are counted after the update. */
  lemma CountedAfter(chain: seq<Rule>, arp: seq<string>, x: string)
    ensures x in Downs(Update(chain, arp)) <==> x in Downs(AddUpTo(chain, arp, |arp|)) && Live(arp, x)
  {
    UpdateCounts(chain, arp, x);
    DownsCounted(AddUpTo(chain, arp, |arp|), x);
    DownsCounted(Update(chain, arp), x);
  }

  /** The counted addresses are the ARP addresses after the update, exactly if no look-alike got in the way
      of an insertion or of a deletion. */
  lemma ReconcilesExactly(chain: seq<Rule>, arp: seq<string>)
    ensures (forall x :: x in Downs(Update(chain, arp)) <==> x in arp)
       <==> AllReached(chain, arp) && NoLookalike(chain, arp)
  {
    var u, c := Update(chain, arp), AddUpTo(chain, arp, |arp|);
    forall x
      ensures x in Downs(u) <==> x in Downs(c) && Live(arp, x)
      ensures x in arp ==> Live(arp, x)
      ensures x in Downs(c) <== x in Downs(chain)
      ensures x in Downs(c) ==> x in Downs(chain) || x in arp
    {
      CountedAfter(chain, arp, x);
      MatchSelf(x);
      AddsInFront(chain, arp, |arp|);
      DownsOfSum(NewPairs(chain, arp, |arp|), chain);
      DownsIn(NewPairs(chain, arp, |arp|), arp);
    }
    CoversIffReached(chain, arp);
  }

  /** Two ARP addresses, or an ARP address and a counted one, of which neither matches the other. */
  lemma NoMatchesSuffice(chain: seq<Rule>, arp: seq<string>)
    requires forall x, y :: (x in arp || x in Downs(chain)) && (y in arp || y in Downs(chain)) && Match(x, y) ==> x == y
    ensures AllReached(chain, arp) && NoLookalike(chain, arp)
  {
  }

  /** It is not enough that the live addresses do not match each other: a stale address d that the one live
      address a matches keeps a from being counted, and is then removed itself. */
  lemma StaleLookalikeHidesAddress(a: string, d: string, k: nat)
    requires Match(a, d) && !Match(d, a)
    ensures var chain := [Down(d, k), Up(d, k)];
            Paired(chain) && Downs(Update(chain, [a])) == []
  {
    var chain := [Down(d, k), Up(d, k)];
    assert chain[1..] == [Up(d, k)] && chain[1..][1..] == [];
    assert Downs(chain[1..][1..]) == [] && Downs(chain[1..]) == [];
    forall x ensures CountUp(chain, x) == CountDown(chain, x) <= 1 {
      assert CountUp(chain[1..][1..], x) == CountDown(chain[1..][1..], x) == 0;
      assert CountUp(chain[1..], x) == if x == d then 1 else 0;
      assert CountDown(chain[1..], x) == 0;
    }
    assert Downs(chain) == [d] && d in Downs(chain) && Listed(chain, a);
    assert AddUpTo(chain, [a], 1) == chain by {
      assert AddUpTo(chain, [a], 0) == chain;
    }
    assert !Live([a], d);
    assert DeleteUp(chain, d) == [Down(d, k)];
    assert Purge(chain, [d], [a]) == Purge(DeletePair(chain, d), [], [a]);
  }

  // ----- Running the update again -----

  /** Matching is transitive: a dot of the middle address only stands where the first one has a dot too. */
  lemma MatchTransitive(x: string, y: string, z: string)
    requires Match(x, y) && Match(y, z)
    ensures Match(x, z)
  {
    var i :| 0 <= i <= |y| && MatchAt(x, y, i);
    var j :| 0 <= j <= |z| && MatchAt(y, z, j);
    forall k | 0 <= k < |x| ensures x[k] == '.' || x[k] == z[i + j + k] {
      if x[k] != '.' {
        assert y[i + k] == x[k];
      }
    }
    assert MatchAt(x, z, i + j);
  }

  /** The addresses counted after the update: those counted before that grep finds in the ARP table, and new ones. */
  lemma CountedIsOldOrNew(chain: seq<Rule>, arp: seq<string>, x: string)
    ensures x in Downs(Update(chain, arp))
       <==> (x in Downs(chain) && Live(arp, x)) || x in Downs(NewPairs(chain, arp, |arp|))
  {
    var added := NewPairs(chain, arp, |arp|);
    CountedAfter(chain, arp, x);
    AddsInFront(chain, arp, |arp|);
    DownsOfSum(added, chain);
    DownsIn(added, arp);
    MatchSelf(x);
  }

  /** An address is new only if it matched nothing that was counted before. */
  lemma {:induction false} NewIsUnlisted(chain: seq<Rule>, arp: seq<string>, n: nat, x: string)
    requires n <= |arp| && x in Downs(NewPairs(chain, arp, n))
    ensures x in arp && !Listed(chain, x)
  {
    var before := NewPairs(chain, arp, n - 1);
    if x in Downs(before) {
      NewIsUnlisted(chain, arp, n - 1, x);
    } else {
      AddPairCounts(before, arp[n - 1], x);
      AddsInFront(chain, arp, n - 1);
      DownsOfSum(before, chain);
      assert x == arp[n - 1];
    }
  }

  /** An ARP address that matches nothing counted before matches a new one: itself, or the one that kept it out. */
  lemma {:induction false} UnlistedMatchesNew(chain: seq<Rule>, arp: seq<string>, n: nat, i: nat)
    requires i < n <= |arp| && !Listed(chain, arp[i])
    ensures Listed(NewPairs(chain, arp, n), arp[i])
  {
    var before := NewPairs(chain, arp, n - 1);
    AddPairCounts(before, arp[n - 1], arp[i]);
    if i < n - 1 {
      UnlistedMatchesNew(chain, arp, n - 1, i);
      var d :| d in Downs(before) && Match(arp[i], d);
      assert d in Downs(NewPairs(chain, arp, n));
    } else {
      AddsInFront(chain, arp, n - 1);
      DownsOfSum(before, chain);
      MatchSelf(arp[i]);
      if Listed(AddUpTo(chain, arp, n - 1), arp[i]) {
        var d :| d in Downs(before) + Downs(chain) && Match(arp[i], d);
        assert d in Downs(before);
      } else {
        assert arp[i] in Downs(NewPairs(chain, arp, n));
      }
    }
  }

  /** Every ARP address matches a counted address that stays, or an ARP address that matches nothing counted. */
  predicate Settled(chain: seq<Rule>, arp: seq<string>) {
    forall a :: a in arp ==> Covered(chain, arp, a)
  }

  predicate Covered(chain: seq<Rule>, arp: seq<string>, a: string) {
    || (exists x :: x in Downs(chain) && Live(arp, x) && Match(a, x))
    || (exists x :: x in arp && !Listed(chain, x) && Match(a, x))
  }

  /** Which ARP addresses grep finds in the listing after the update. */
  lemma ListedAfter(chain: seq<Rule>, arp: seq<string>, a: string)
    ensures Listed(Update(chain, arp), a) <==> Covered(chain, arp, a)
  {
    var u, added := Update(chain, arp), NewPairs(chain, arp, |arp|);
    if Listed(u, a) {
      var d :| d in Downs(u) && Match(a, d);
      CountedIsOldOrNew(chain, arp, d);
      if d in Downs(added) {
        NewIsUnlisted(chain, arp, |arp|, d);
      }
    }
    if x :| x in Downs(chain) && Live(arp, x) && Match(a, x) {
      CountedIsOldOrNew(chain, arp, x);
    } else if x :| x in arp && !Listed(chain, x) && Match(a, x) {
      var i :| 0 <= i < |arp| && arp[i] == x;
      UnlistedMatchesNew(chain, arp, |arp|, i);
      var d :| d in Downs(added) && Match(x, d);
      MatchTransitive(a, x, d);
      CountedIsOldOrNew(chain, arp, d);
    }
  }

  /** All counted addresses are found in the ARP table after an update, so a further update removes nothing. */
  lemma NothingDies(chain: seq<Rule>, arp: seq<string>)
    ensures var u := Update(chain, arp); Update(u, arp) == NewPairs(u, arp, |arp|) + u
  {
    var u := Update(chain, arp);
    var added := NewPairs(u, arp, |arp|);
    AddsInFront(u, arp, |arp|);
    DownsOfSum(added, u);
    DownsIn(added, arp);
    forall d | d in Downs(added + u) ensures Live(arp, d) {
      MatchSelf(d);
      CountedAfter(chain, arp, d);
    }
    PurgesNothing(added + u, Downs(added + u), arp);
  }

  lemma {:induction false} PurgesNothing(chain: seq<Rule>, lines: seq<string>, arp: seq<string>)
    requires forall d :: d in lines ==> Live(arp, d)
    ensures Purge(chain, lines, arp) == chain
    decreases lines
  {
    if lines != [] {
      PurgesNothing(chain, lines[1..], arp);
    }
  }

  /** Nothing is new exactly if grep finds every ARP address. */
  lemma {:induction false} NothingNewIffListed(chain: seq<Rule>, arp: seq<string>, n: nat)
    requires n <= |arp|
    ensures NewPairs(chain, arp, n) == [] <==> forall i :: 0 <= i < n ==> Listed(chain, arp[i])
  {
    if n > 0 {
      NothingNewIffListed(chain, arp, n - 1);
      AddsInFront(chain, arp, n - 1);
      if NewPairs(chain, arp, n - 1) == [] {
        assert AddUpTo(chain, arp, n - 1) == chain;
      }
    }
  }

  lemma SamePlusNothing(a: seq<Rule>, b: seq<Rule>)
    ensures a + b == b <==> a == []
  {
    if a != [] {
      assert |a + b| > |b|;
    } else {
      assert a + b == b;
    }
  }

  /** Running the update a second time changes nothing if and only if the chain was settled before the first. */
  lemma SecondUpdateChangesNothing(chain: seq<Rule>, arp: seq<string>)
    ensures var u := Update(chain, arp);
            && (Update(u, arp) == u <==> Settled(chain, arp))
            && (Update(u, arp) == u <==> forall a :: a in arp ==> Listed(u, a))
  {
    var u := Update(chain, arp);
    NothingDies(chain, arp);
    NothingNewIffListed(u, arp, |arp|);
    SamePlusNothing(NewPairs(u, arp, |arp|), u);
    forall a | a in arp ensures Listed(u, a) <==> Covered(chain, arp, a) {
      ListedAfter(chain, arp, a);
    }
  }

  /** Running it a third time changes nothing, whatever matches what: the second run has found or added every
      ARP address, and removed nothing. */
  lemma ThirdUpdateChangesNothing(chain: seq<Rule>, arp: seq<string>)
    ensures var v := Update(Update(chain, arp), arp);
            Update(v, arp) == v && forall a :: a in arp ==> Listed(v, a)
  {
    var u := Update(chain, arp);
    forall a | a in arp ensures Covered(u, arp, a) {
      if Listed(u, a) {
        var d :| d in Downs(u) && Match(a, d);
        CountedAfter(chain, arp, d);
      } else {
        MatchSelf(a);
      }
    }
    SecondUpdateChangesNothing(u, arp);
  }

  /** The second run may change the chain: with the stale 10.0.0.10 counted and only 10.0.0.1 left in the ARP
      table, the first run removes the stale pair and the second adds the missing one. */
  lemma SecondUpdateMayAdd(k: nat)
    ensures var a, d := "10.0.0.1", "10.0.0.10";
            var chain := [Down(d, k), Up(d, k)];
            && Paired(chain) && !Settled(chain, [a])
            && Downs(Update(chain, [a])) == [] && Downs(Update(Update(chain, [a]), [a])) == [a]
  {
    var a, d := "10.0.0.1", "10.0.0.10";
    var chain := [Down(d, k), Up(d, k)];
    assert MatchAt(a, d, 0) && !Match(d, a);
    StaleLookalikeHidesAddress(a, d, k);
    var u := Update(chain, [a]);
    NothingDies(chain, [a]);
    assert !Listed(u, a);
    ListedAfter(chain, [a], a);
    assert a in [a];
    NewPairOfOne(u, a);
    DownsOfSum(NewPairs(u, [a], 1), u);
  }

  lemma NewPairOfOne(chain: seq<Rule>, a: string)
    requires !Listed(chain, a)
    ensures Downs(NewPairs(chain, [a], 1)) == [a]
  {
    assert AddUpTo(chain, [a], 0) == chain;
    AddPairCounts([], a, a);
  }

  // ----- chain_clean_up -----

  function CleanLines(chain: seq<Rule>, lines: seq<string>): (r: seq<Rule>)
    decreases lines
  {
    if lines == [] then chain else CleanLines(DeletePair(chain, lines[0]), lines[1..])
  }

  function CleanUp(chain: seq<Rule>): (r: seq<Rule>) {
    CleanLines(chain, Downs(chain))
  }

  lemma {:induction false} CleanLinesCounts(chain: seq<Rule>, lines: seq<string>, x: string)
    ensures CountUp(CleanLines(chain, lines), x) == Minus(CountUp(chain, x), Times(lines, x))
    ensures CountDown(CleanLines(chain, lines), x) == Minus(CountDown(chain, x), Times(lines, x))
    ensures Others(CleanLines(chain, lines)) == Others(chain)
    decreases lines
  {
    if lines != [] {
      DeletePairCounts(chain, lines[0], x);
      DeleteUpKeepsOthers(chain, lines[0]);
      DeleteDownKeepsOthers(DeleteUp(chain, lines[0]), lines[0]);
      CleanLinesCounts(DeletePair(chain, lines[0]), lines[1..], x);
    }
  }

  ghost predicate Uncounted(chain: seq<Rule>) {
    forall x :: CountUp(chain, x) == 0 && CountDown(chain, x) == 0
  }

  lemma {:induction false} OthersIffUncounted(chain: seq<Rule>)
    ensures Others(chain) == chain <==> Uncounted(chain)
  {
    if chain != [] {
      OthersIffUncounted(chain[1..]);
      OthersShorter(chain[1..]);
      if chain[0].Other? {
        assert chain == [chain[0]] + chain[1..];
        assert Others(chain)[1..] == Others(chain[1..]);
        forall x
          ensures CountUp(chain[1..], x) == CountUp(chain, x) && CountDown(chain[1..], x) == CountDown(chain, x)
        {
        }
        if Uncounted(chain[1..]) {
          forall x ensures CountUp(chain, x) == 0 && CountDown(chain, x) == 0 {
            assert CountUp(chain[1..], x) == 0;
          }
        } else {
          var x :| CountUp(chain[1..], x) != 0 || CountDown(chain[1..], x) != 0;
          assert CountUp(chain, x) != 0 || CountDown(chain, x) != 0;
        }
      } else {
        assert CountUp(chain, chain[0].addr) + CountDown(chain, chain[0].addr) > 0;
      }
    }
  }

  lemma {:induction false} OthersShorter(chain: seq<Rule>)
    ensures |Others(chain)| <= |chain|
  {
    if chain != [] {
      OthersShorter(chain[1..]);
    }
  }

  /** No address has more UPLOAD than DOWNLOAD rules. */
  ghost predicate NoExtraUp(chain: seq<Rule>) {
    forall x :: CountUp(chain, x) <= CountDown(chain, x)
  }

  /** The clean-up leaves exactly the rules of others, in their order, if and only if no address has more
      UPLOAD than DOWNLOAD rules: it reads the addresses to remove from the DOWNLOAD rules alone. */
  lemma CleanUpRemovesAllExactly(chain: seq<Rule>)
    ensures CleanUp(chain) == Others(chain) <==> NoExtraUp(chain)
  {
    var c := CleanUp(chain);
    forall x
      ensures CountUp(c, x) == Minus(CountUp(chain, x), CountDown(chain, x)) && CountDown(c, x) == 0
      ensures Others(c) == Others(chain)
    {
      TimesInDowns(chain, x);
      CleanLinesCounts(chain, Downs(chain), x);
    }
    assert Others(c) == Others(chain) by {
      assert CountDown(c, "") == 0;
    }
    OthersIffUncounted(c);
    if NoExtraUp(chain) {
      forall x ensures CountUp(c, x) == 0 && CountDown(c, x) == 0 {
        assert CountUp(chain, x) <= CountDown(chain, x);
      }
    } else {
      var x :| CountUp(chain, x) > CountDown(chain, x);
      assert CountUp(c, x) > 0;
      assert !Uncounted(c);
    }
  }

  /** So a clean-up after an update leaves exactly the rules of others if and only if no address had more UPLOAD than
      DOWNLOAD rules before the update. */
  lemma CleanUpAfterUpdate(chain: seq<Rule>, arp: seq<string>)
    ensures CleanUp(Update(chain, arp)) == Others(chain) <==> NoExtraUp(chain)
  {
    var u := Update(chain, arp);
    forall x
      ensures CountUp(u, x) <= CountDown(u, x) <==> CountUp(chain, x) <= CountDown(chain, x)
      ensures Others(u) == Others(chain)
    {
      UpdateCounts(chain, arp, x);
      AddUpToCounts(chain, arp, |arp|, x);
    }
    assert Others(u) == Others(chain) by {
      UpdateCounts(chain, arp, "");
    }
    CleanUpRemovesAllExactly(u);
  }

  // ----- The script -----

  class CountChain {
    var forward: seq<Rule>

    method UpdateFwCountRule(arp: seq<string>)
      modifies this
      ensures forward == Update(old(forward), arp)
    {
      for i := 0 to |arp|
        invariant forward == AddUpTo(old(forward), arp, i)
      {
        var line := arp[i];
        if !Listed(forward, line) {
          forward := [Up(line, 0)] + forward;
          forward := [Down(line, 0)] + forward;
          assert forward == AddPair(AddUpTo(old(forward), arp, i), line);
        }
      }
      var macIp := Downs(forward);
      ghost var added := forward;
      for i := 0 to |macIp|
        invariant Purge(forward, macIp[i..], arp) == Purge(added, macIp, arp)
      {
        var line := macIp[i];
        if !Live(arp, line) {
          forward := DeleteUp(forward, line);
          forward := DeleteDown(forward, line);
        }
        assert macIp[i..][1..] == macIp[i + 1..];
      }
    }

    method ChainCleanUp()
      modifies this
      ensures forward == CleanUp(old(forward))
    {
      var macIp := Downs(forward);
      for i := 0 to |macIp|
        invariant CleanLines(forward, macIp[i..]) == CleanUp(old(forward))
      {
        forward := DeleteUp(forward, macIp[i]);
        forward := DeleteDown(forward, macIp[i]);
        assert macIp[i..][1..] == macIp[i + 1..];
      }
    }
  }
}
