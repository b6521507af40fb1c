/** The MAC black and white lists: two chains of firewall rules and two list files, changed by the commands
    black, white, cancel_black and cancel_white. */
module MacTables {
  import opened Seqs
  import opened Text

  predicate IsHex(c: char) {
    '0' <= c <= '9' || 'A' <= c <= 'F'
  }

  /** The addresses iptables accepts after --mac-source. */
  predicate IsMac(m: string) {
    |m| == 17 && forall i :: 0 <= i < 17 ==> if i % 3 == 2 then m[i] == ':' else IsHex(m[i])
  }

  type Mac = m: string | IsMac(m) witness "00:00:00:00:00:00"

  /** A rule of one chain: either this script's rule for one address (drop it in INPUT, mark it in the
      wifidog chain), or a rule of somebody else, known by its line in the listing. */
  datatype Rule = ForMac(mac: Mac) | Foreign(text: string)

  datatype Tables = Tables(input: seq<Rule>, mark: seq<Rule>, black: seq<string>, white: seq<string>)

  // ----- The listing and grep -----

  const DROP_HEAD := "0 0 DROP all -- * * 0.0.0.0/0 0.0.0.0/0 "
  const DROP_TAIL := ""
  const MARK_HEAD := "0 0 MARK all -- * * 0.0.0.0/0 0.0.0.0/0 "
  const MARK_TAIL := " MARK set 0x2"

  function RuleLine(r: Rule, head: string, tail: string): (x: string) {
    match r
    case ForMac(m) => head + "MAC " + m + tail
    case Foreign(text) => text
  }

  /** iptables -L | grep "MAC $line<tail>" finds something. */
  predicate Grep(chain: seq<Rule>, line: string, head: string, tail: string) {
    exists i :: 0 <= i < |chain| && Contains(RuleLine(chain[i], head, tail), "MAC " + line + tail)
  }

  /** No foreign rule is listed with a source address; one that is would be taken for a rule of this script. */
  predicate ForeignPlain(chain: seq<Rule>) {
    forall i :: 0 <= i < |chain| && chain[i].Foreign? ==> !Contains(chain[i].text, "MAC ")
  }

  /** In the line of a rule for m, "MAC " is found at one place only, whatever counters precede it. */
  lemma MacOccursOnce(m: Mac, head: string, tail: string, o: nat, line: Mac)
    requires 'C' !in head && tail in {DROP_TAIL, MARK_TAIL}
    requires At(head + "MAC " + m + tail, "MAC " + line + tail, o)
    ensures m == line
  {
    var text := head + "MAC " + m + tail;
    var pat := "MAC " + line + tail;
    assert text[o] == pat[0] == 'M' && text[o + 2] == pat[2] == 'C';
    assert text[..|head|] == head;
    assert o == |head|;
    assert line == pat[4..21] && m == text[o + 4..o + 21];
  }

  lemma ContainsStart(text: string, a: string, b: string)
    requires Contains(text, a + b)
    ensures Contains(text, a)
  {
    var o :| 0 <= o <= |text| && At(text, a + b, o);
    assert text[o..o + |a|] == text[o..o + |a + b|][..|a|] == a;
    assert At(text, a, o);
  }

  /** For a well-formed address and foreign rules that are plain, grep answers exactly whether the rule is there. */
  lemma GrepIsExact(chain: seq<Rule>, line: Mac, head: string, tail: string)
    requires 'C' !in head && tail in {DROP_TAIL, MARK_TAIL} && ForeignPlain(chain)
    ensures Grep(chain, line, head, tail) <==> ForMac(line) in chain
  {
    var pat := "MAC " + line + tail;
    assert pat == "MAC " + (line + tail);
    if ForMac(line) in chain {
      var i :| 0 <= i < |chain| && chain[i] == ForMac(line);
      var text := RuleLine(chain[i], head, tail);
      assert text == head + pat;
      assert At(text, pat, |head|);
    }
    if Grep(chain, line, head, tail) {
      var i :| 0 <= i < |chain| && Contains(RuleLine(chain[i], head, tail), pat);
      var text := RuleLine(chain[i], head, tail);
      var o :| 0 <= o <= |text| && At(text, pat, o);
      if chain[i].ForMac? {
        MacOccursOnce(chain[i].mac, head, tail, o, line);
      } else {
        ContainsStart(text, "MAC ", line + tail);
      }
    }
  }

  // ----- Single rule edits -----

  /** iptables -I: the new rule becomes the first; a malformed address is refused. */
  function Insert(chain: seq<Rule>, line: string): (r: seq<Rule>) {
    if IsMac(line) then [ForMac(line)] + chain else chain
  }

  /** iptables -D: the first rule with this address goes; no such rule, or a malformed address, is refused. */
  function Delete(chain: seq<Rule>, line: string): (r: seq<Rule>) {
    if chain == [] || !IsMac(line) then chain
    else if chain[0] == ForMac(line) then chain[1..]
    else [chain[0]] + Delete(chain[1..], line)
  }

  function Count(chain: seq<Rule>, m: Mac): (r: nat) {
    if chain == [] then 0 else (if chain[0] == ForMac(m) then 1 else 0) + Count(chain[1..], m)
  }

  /** The rules of others, in their order. */
  function Foreigns(chain: seq<Rule>): (r: seq<Rule>) {
    if chain == [] then [] else (if chain[0].Foreign? then [chain[0]] else []) + Foreigns(chain[1..])
  }

  lemma {:induction false} InIffCounted(chain: seq<Rule>, m: Mac)
    ensures ForMac(m) in chain <==> Count(chain, m) > 0
  {
    if chain != [] {
      InIffCounted(chain[1..], m);
      assert chain == [chain[0]] + chain[1..];
    }
  }

  lemma {:induction false} DeleteEffect(chain: seq<Rule>, line: string, m: Mac)
    ensures Count(Delete(chain, line), m)
         == if m == line && Count(chain, m) > 0 then Count(chain, m) - 1 else Count(chain, m)
  {
    if chain != [] && IsMac(line) && chain[0] != ForMac(line) {
      DeleteEffect(chain[1..], line, m);
      assert Delete(chain, line)[1..] == Delete(chain[1..], line);
    }
  }

  lemma ForeignsOfCons(r: Rule, more: seq<Rule>)
    ensures Foreigns([r] + more) == (if r.Foreign? then [r] else []) + Foreigns(more)
  {
    assert ([r] + more)[1..] == more;
  }

  lemma {:induction false} DeleteKeepsForeigns(chain: seq<Rule>, line: string)
    ensures Foreigns(Delete(chain, line)) == Foreigns(chain)
  {
    if chain != [] && IsMac(line) && chain[0] != ForMac(line) {
      DeleteKeepsForeigns(chain[1..], line);
      ForeignsOfCons(chain[0], Delete(chain[1..], line));
    }
  }

  /** A deletion takes out the first rule of the address and leaves all others in place and order. */
  lemma {:induction false} DeletesFirst(chain: seq<Rule>, m: Mac, before: seq<Rule>, behind: seq<Rule>)
    requires chain == before + [ForMac(m)] + behind && ForMac(m) !in before
    ensures Delete(chain, m) == before + behind
    decreases before
  {
    if before == [] {
      assert chain[1..] == behind;
    } else {
      assert chain[1..] == before[1..] + [ForMac(m)] + behind;
      DeletesFirst(chain[1..], m, before[1..], behind);
      assert before + behind == [before[0]] + (before[1..] + behind);
    }
  }

  lemma InsertEffect(chain: seq<Rule>, line: string, m: Mac)
    ensures Count(Insert(chain, line), m) == Count(chain, m) + if m == line then 1 else 0
  {
    if IsMac(line) {
      assert Insert(chain, line)[1..] == chain;
    }
  }

  lemma InsertKeepsForeigns(chain: seq<Rule>, line: string)
    ensures Foreigns(Insert(chain, line)) == Foreigns(chain)
  {
    if IsMac(line) {
      assert Insert(chain, line)[1..] == chain;
    }
  }

  lemma {:induction false} OnlyForeigns(chain: seq<Rule>)
    requires forall m: Mac :: Count(chain, m) == 0
    ensures Foreigns(chain) == chain
  {
    if chain != [] {
      assert chain[0].ForMac? ==> Count(chain, chain[0].mac) > 0;
      forall m: Mac ensures Count(chain[1..], m) == 0 {
        assert Count(chain, m) == 0;
      }
      OnlyForeigns(chain[1..]);
      assert chain == [chain[0]] + chain[1..];
    }
  }

  /** The guarded edits of the script: delete if grep finds the address, insert if it does not. */
  function GuardedDelete(chain: seq<Rule>, line: string, head: string, tail: string): (r: seq<Rule>) {
    if Grep(chain, line, head, tail) then Delete(chain, line) else chain
  }

  function GuardedInsert(chain: seq<Rule>, line: string, head: string, tail: string): (r: seq<Rule>) {
    if !Grep(chain, line, head, tail) then Insert(chain, line) else chain
  }

  /** Insert, unless the address has its rule already. */
  function AddNew(chain: seq<Rule>, line: string): (r: seq<Rule>) {
    if IsMac(line) && Count(chain, line) == 0 then Insert(chain, line) else chain
  }

  /** The grep guards change nothing on a malformed line, and are exact on a well-formed one. */
  lemma GuardsAreExact(chain: seq<Rule>, line: string, head: string, tail: string)
    requires 'C' !in head && tail in {DROP_TAIL, MARK_TAIL} && ForeignPlain(chain)
    ensures GuardedDelete(chain, line, head, tail) == Delete(chain, line)
    ensures GuardedInsert(chain, line, head, tail) == AddNew(chain, line)
  {
    if IsMac(line) {
      GrepIsExact(chain, line, head, tail);
      InIffCounted(chain, line);
      if Count(chain, line) == 0 {
        DeleteAbsent(chain, line);
      }
    }
  }

  lemma {:induction false} DeleteAbsent(chain: seq<Rule>, m: Mac)
    requires Count(chain, m) == 0
    ensures Delete(chain, m) == chain
  {
    if chain != [] {
      DeleteAbsent(chain[1..], m);
      assert chain == [chain[0]] + chain[1..];
    }
  }

  lemma {:induction false} EditsStayPlain(chain: seq<Rule>, line: string)
    requires ForeignPlain(chain)
    ensures ForeignPlain(Delete(chain, line)) && ForeignPlain(AddNew(chain, line))
  {
    if chain != [] && IsMac(line) && chain[0] != ForMac(line) {
      EditsStayPlain(chain[1..], line);
    }
  }

  // ----- Whole commands -----

  function DeleteAll(chain: seq<Rule>, lines: seq<string>): (r: seq<Rule>)
    decreases lines
  {
    if lines == [] then chain else DeleteAll(Delete(chain, lines[0]), lines[1..])
  }

  function AddAll(chain: seq<Rule>, lines: seq<string>): (r: seq<Rule>)
    decreases lines
  {
    if lines == [] then chain else AddAll(AddNew(chain, lines[0]), lines[1..])
  }

  /** The list file that set_mac_list writes. */
  function Lines(macList: string): (r: seq<string>) {
    Split(Upper(macList), ' ')
  }

  /** One run of the script: its flags and its list. */
  datatype Command = Command(dog: bool, flag: string, macList: string)

  /** The tables after one run of the script, and whether it exits with status 0. */
  function Exec(s: Tables, c: Command): (r: (Tables, bool)) {
    var lines := Lines(c.macList);
    if c.flag == "black" then
      (s.(input := AddAll(DeleteAll(s.input, s.black), lines),
          mark := if c.dog then DeleteAll(s.mark, lines) else s.mark,
          black := lines), true)
    else if c.flag == "white" then
      var mark := DeleteAll(s.mark, s.white);
      if c.dog then (s.(input := DeleteAll(s.input, lines), mark := AddAll(mark, lines), white := lines), true)
      else (s.(mark := mark, white := lines), false)
    else if c.flag == "cancel_black" then
      (s.(input := DeleteAll(s.input, s.black)), true)
    else if c.flag == "cancel_white" then
      (s.(mark := DeleteAll(s.mark, s.white)), true)
    else (s, true)
  }

  // ----- What holds after every edit -----

  /** No address has two rules, in one chain or in both; dropped addresses are in the black file
      and marked ones in the white file. */
  ghost predicate Safe(s: Tables) {
    && (forall m: Mac :: Count(s.input, m) + Count(s.mark, m) <= 1)
    && (forall m: Mac :: Count(s.input, m) > 0 ==> m in s.black)
    && (forall m: Mac :: Count(s.mark, m) > 0 ==> m in s.white)
  }

  // ----- Single edits -----

  /** One guarded iptables call, or one write of a list file. */
  datatype Edit =
    | Undrop(line: string)
    | Drop(line: string)
    | Unmark(line: string)
    | Mark(line: string)
    | WriteBlack(lines: seq<string>)
    | WriteWhite(lines: seq<string>)

  function Apply(s: Tables, e: Edit): (t: Tables) {
    match e
    case Undrop(line) => s.(input := Delete(s.input, line))
    case Drop(line) => s.(input := AddNew(s.input, line))
    case Unmark(line) => s.(mark := Delete(s.mark, line))
    case Mark(line) => s.(mark := AddNew(s.mark, line))
    case WriteBlack(lines) => s.(black := lines)
    case WriteWhite(lines) => s.(white := lines)
  }

  function After(s: Tables, edits: seq<Edit>): (t: Tables)
    decreases edits
  {
    if edits == [] then s else After(Apply(s, edits[0]), edits[1..])
  }

  function UndropAll(lines: seq<string>): (r: seq<Edit>) {
    seq(|lines|, i requires 0 <= i < |lines| => Undrop(lines[i]))
  }

  function UnmarkAll(lines: seq<string>): (r: seq<Edit>) {
    seq(|lines|, i requires 0 <= i < |lines| => Unmark(lines[i]))
  }

  /** What add_mac_to_black_rule does with one line. */
  function BlackPair(line: string, dog: bool): (r: seq<Edit>) {
    (if dog then [Unmark(line)] else []) + [Drop(line)]
  }

  function BlackEdits(lines: seq<string>, dog: bool): (r: seq<Edit>) {
    if lines == [] then [] else BlackEdits(lines[..|lines| - 1], dog) + BlackPair(lines[|lines| - 1], dog)
  }

  /** What add_mac_to_white_rule does with one line. */
  function WhitePair(line: string): (r: seq<Edit>) {
    [Undrop(line), Mark(line)]
  }

  function WhiteEdits(lines: seq<string>): (r: seq<Edit>) {
    if lines == [] then [] else WhiteEdits(lines[..|lines| - 1]) + WhitePair(lines[|lines| - 1])
  }

  /** All edits of one run of the script, in their order. */
  function Script(s: Tables, c: Command): (r: seq<Edit>) {
    var lines := Lines(c.macList);
    if c.flag == "black" then
      UndropAll(s.black) + ([WriteBlack([]), WriteBlack(lines)] + BlackEdits(lines, c.dog))
    else if c.flag == "white" then
      UnmarkAll(s.white) + ([WriteWhite([]), WriteWhite(lines)] + if c.dog then WhiteEdits(lines) else [])
    else if c.flag == "cancel_black" then UndropAll(s.black)
    else if c.flag == "cancel_white" then UnmarkAll(s.white)
    else []
  }

  lemma {:induction false} AfterSum(s: Tables, a: seq<Edit>, b: seq<Edit>)
    ensures After(s, a + b) == After(After(s, a), b)
    decreases a
  {
    if a == [] {
      assert a + b == b;
    } else {
      assert (a + b)[1..] == a[1..] + b;
      AfterSum(Apply(s, a[0]), a[1..], b);
    }
  }

  lemma AfterOne(s: Tables, e: Edit)
    ensures After(s, [e]) == Apply(s, e)
  {
    assert [e][1..] == [];
  }

  lemma AfterTwo(s: Tables, e: Edit, f: Edit)
    ensures After(s, [e, f]) == Apply(Apply(s, e), f)
  {
    assert [e, f][1..] == [f];
    AfterOne(Apply(s, e), f);
  }

  lemma {:induction false} AfterUndropAll(s: Tables, lines: seq<string>)
    ensures After(s, UndropAll(lines)) == s.(input := DeleteAll(s.input, lines))
    decreases lines
  {
    if lines != [] {
      assert UndropAll(lines)[1..] == UndropAll(lines[1..]);
      AfterUndropAll(Apply(s, Undrop(lines[0])), lines[1..]);
    }
  }

  lemma {:induction false} AfterUnmarkAll(s: Tables, lines: seq<string>)
    ensures After(s, UnmarkAll(lines)) == s.(mark := DeleteAll(s.mark, lines))
    decreases lines
  {
    if lines != [] {
      assert UnmarkAll(lines)[1..] == UnmarkAll(lines[1..]);
      AfterUnmarkAll(Apply(s, Unmark(lines[0])), lines[1..]);
    }
  }

  lemma {:induction false} DeleteAllSnoc(chain: seq<Rule>, lines: seq<string>, x: string)
    ensures DeleteAll(chain, lines + [x]) == Delete(DeleteAll(chain, lines), x)
    decreases lines
  {
    if lines == [] {
      assert (lines + [x])[1..] == [];
    } else {
      assert (lines + [x])[1..] == lines[1..] + [x];
      DeleteAllSnoc(Delete(chain, lines[0]), lines[1..], x);
    }
  }

  lemma {:induction false} AddAllSnoc(chain: seq<Rule>, lines: seq<string>, x: string)
    ensures AddAll(chain, lines + [x]) == AddNew(AddAll(chain, lines), x)
    decreases lines
  {
    if lines == [] {
      assert (lines + [x])[1..] == [];
    } else {
      assert (lines + [x])[1..] == lines[1..] + [x];
      AddAllSnoc(AddNew(chain, lines[0]), lines[1..], x);
    }
  }

  lemma {:induction false} AfterBlackEdits(s: Tables, lines: seq<string>, dog: bool)
    ensures After(s, BlackEdits(lines, dog))
         == s.(input := AddAll(s.input, lines), mark := if dog then DeleteAll(s.mark, lines) else s.mark)
  {
    if lines != [] {
      var before, x := lines[..|lines| - 1], lines[|lines| - 1];
      assert lines == before + [x];
      AfterBlackEdits(s, before, dog);
      AfterSum(s, BlackEdits(before, dog), BlackPair(x, dog));
      AfterBlackPair(After(s, BlackEdits(before, dog)), x, dog);
      AddAllSnoc(s.input, before, x);
      DeleteAllSnoc(s.mark, before, x);
    }
  }

  lemma AfterBlackPair(s: Tables, x: string, dog: bool)
    ensures After(s, BlackPair(x, dog))
         == s.(input := AddNew(s.input, x), mark := if dog then Delete(s.mark, x) else s.mark)
  {
    if dog {
      assert BlackPair(x, dog) == [Unmark(x), Drop(x)];
      AfterTwo(s, Unmark(x), Drop(x));
    } else {
      assert BlackPair(x, dog) == [Drop(x)];
      AfterOne(s, Drop(x));
    }
  }

  lemma {:induction false} AfterWhiteEdits(s: Tables, lines: seq<string>)
    ensures After(s, WhiteEdits(lines)) == s.(input := DeleteAll(s.input, lines), mark := AddAll(s.mark, lines))
  {
    if lines != [] {
      var before, x := lines[..|lines| - 1], lines[|lines| - 1];
      assert lines == before + [x];
      AfterWhiteEdits(s, before);
      AfterSum(s, WhiteEdits(before), WhitePair(x));
      AfterTwo(After(s, WhiteEdits(before)), Undrop(x), Mark(x));
      DeleteAllSnoc(s.input, before, x);
      AddAllSnoc(s.mark, before, x);
    }
  }

  /** Edit by edit, the script computes the tables that Exec gives in closed form. */
  lemma ScriptIsExec(s: Tables, c: Command)
    ensures After(s, Script(s, c)) == Exec(s, c).0
  {
    var lines := Lines(c.macList);
    if c.flag == "black" {
      var t := s.(input := DeleteAll(s.input, s.black));
      AfterUndropAll(s, s.black);
      AfterSum(s, UndropAll(s.black), [WriteBlack([]), WriteBlack(lines)] + BlackEdits(lines, c.dog));
      AfterSum(t, [WriteBlack([]), WriteBlack(lines)], BlackEdits(lines, c.dog));
      AfterTwo(t, WriteBlack([]), WriteBlack(lines));
      AfterBlackEdits(t.(black := lines), lines, c.dog);
    } else if c.flag == "white" {
      var t := s.(mark := DeleteAll(s.mark, s.white));
      var more := if c.dog then WhiteEdits(lines) else [];
      AfterUnmarkAll(s, s.white);
      AfterSum(s, UnmarkAll(s.white), [WriteWhite([]), WriteWhite(lines)] + more);
      AfterSum(t, [WriteWhite([]), WriteWhite(lines)], more);
      AfterTwo(t, WriteWhite([]), WriteWhite(lines));
      AfterWhiteEdits(t.(white := lines), lines);
    } else if c.flag == "cancel_black" {
      AfterUndropAll(s, s.black);
    } else if c.flag == "cancel_white" {
      AfterUnmarkAll(s, s.white);
    }
  }

  // ----- Safe after every edit -----

  /** The tables are safe now and after each of the edits. */
  ghost predicate SafeAlong(s: Tables, edits: seq<Edit>)
    decreases edits
  {
    Safe(s) && (edits != [] ==> SafeAlong(Apply(s, edits[0]), edits[1..]))
  }

  lemma {:induction false} SafeAlongIs(s: Tables, edits: seq<Edit>)
    ensures SafeAlong(s, edits) <==> forall i :: 0 <= i <= |edits| ==> Safe(After(s, edits[..i]))
    decreases edits
  {
    assert After(s, edits[..0]) == s;
    if edits != [] {
      var t := Apply(s, edits[0]);
      SafeAlongIs(t, edits[1..]);
      forall i | 0 < i <= |edits| ensures After(s, edits[..i]) == After(t, edits[1..][..i - 1]) {
        assert edits[..i][1..] == edits[1..][..i - 1];
      }
      forall j | 0 <= j <= |edits| - 1 ensures After(t, edits[1..][..j]) == After(s, edits[..j + 1]) {
        assert edits[..j + 1][1..] == edits[1..][..j];
      }
    }
  }

  lemma {:induction false} SafeAlongSum(s: Tables, a: seq<Edit>, b: seq<Edit>)
    ensures SafeAlong(s, a + b) <==> SafeAlong(s, a) && SafeAlong(After(s, a), b)
    decreases a
  {
    if a == [] {
      assert a + b == b;
    } else {
      assert (a + b)[1..] == a[1..] + b;
      SafeAlongSum(Apply(s, a[0]), a[1..], b);
    }
  }

  lemma {:induction false} SafeAtEnd(s: Tables, edits: seq<Edit>)
    requires SafeAlong(s, edits)
    ensures Safe(After(s, edits))
    decreases edits
  {
    if edits != [] {
      SafeAtEnd(Apply(s, edits[0]), edits[1..]);
    }
  }

  lemma SafeAlongTwo(s: Tables, e: Edit, f: Edit)
    requires Safe(s) && Safe(Apply(s, e)) && Safe(Apply(Apply(s, e), f))
    ensures SafeAlong(s, [e, f])
  {
    assert [e, f][1..] == [f] && [f][1..] == [];
    assert SafeAlong(Apply(Apply(s, e), f), []);
    assert SafeAlong(Apply(s, e), [f]);
  }

  lemma SafeAlongOne(s: Tables, e: Edit)
    requires Safe(s) && Safe(Apply(s, e))
    ensures SafeAlong(s, [e])
  {
    assert [e][1..] == [];
    assert SafeAlong(Apply(s, e), []);
  }

  lemma DeleteKeepsSafe(s: Tables, line: string)
    requires Safe(s)
    ensures Safe(Apply(s, Undrop(line))) && Safe(Apply(s, Unmark(line)))
  {
    forall m: Mac ensures Count(Delete(s.input, line), m) <= Count(s.input, m) {
      DeleteEffect(s.input, line, m);
    }
    forall m: Mac ensures Count(Delete(s.mark, line), m) <= Count(s.mark, m) {
      DeleteEffect(s.mark, line, m);
    }
  }

  /** Dropping an address of the black file is safe exactly if the address is not marked. */
  lemma DropIsSafeExactly(s: Tables, line: string)
    requires Safe(s) && line in s.black
    ensures Safe(Apply(s, Drop(line))) <==> (IsMac(line) ==> Count(s.mark, line) == 0)
  {
    forall m: Mac {
      InsertEffect(s.input, line, m);
    }
    if IsMac(line) && Count(s.mark, line) > 0 {
      assert Count(AddNew(s.input, line), line) + Count(s.mark, line) > 1;
    }
  }

  /** Marking an address of the white file is safe exactly if the address is not dropped. */
  lemma MarkIsSafeExactly(s: Tables, line: string)
    requires Safe(s) && line in s.white
    ensures Safe(Apply(s, Mark(line))) <==> (IsMac(line) ==> Count(s.input, line) == 0)
  {
    forall m: Mac {
      InsertEffect(s.mark, line, m);
    }
    if IsMac(line) && Count(s.input, line) > 0 {
      assert Count(s.input, line) + Count(AddNew(s.mark, line), line) > 1;
    }
  }

  // ----- The counts after a whole list -----

  /** After deleting every line of a list, no address of the list has a rule left. */
  lemma {:induction false} DeleteAllClears(chain: seq<Rule>, lines: seq<string>, m: Mac)
    requires Count(chain, m) <= 1
    ensures Count(DeleteAll(chain, lines), m) == if m in lines then 0 else Count(chain, m)
    decreases lines
  {
    if lines != [] {
      DeleteEffect(chain, lines[0], m);
      DeleteAllClears(Delete(chain, lines[0]), lines[1..], m);
      assert lines == [lines[0]] + lines[1..];
    }
  }

  lemma {:induction false} DeleteAllKeepsForeigns(chain: seq<Rule>, lines: seq<string>)
    ensures Foreigns(DeleteAll(chain, lines)) == Foreigns(chain)
    decreases lines
  {
    if lines != [] {
      DeleteKeepsForeigns(chain, lines[0]);
      DeleteAllKeepsForeigns(Delete(chain, lines[0]), lines[1..]);
    }
  }

  lemma {:induction false} AddAllCounts(chain: seq<Rule>, lines: seq<string>, m: Mac)
    ensures Count(AddAll(chain, lines), m) == if Count(chain, m) == 0 && m in lines then 1 else Count(chain, m)
    decreases lines
  {
    if lines != [] {
      InsertEffect(chain, lines[0], m);
      AddAllCounts(AddNew(chain, lines[0]), lines[1..], m);
      assert lines == [lines[0]] + lines[1..];
    }
  }

  lemma {:induction false} AddAllKeepsForeigns(chain: seq<Rule>, lines: seq<string>)
    ensures Foreigns(AddAll(chain, lines)) == Foreigns(chain)
    decreases lines
  {
    if lines != [] {
      InsertKeepsForeigns(chain, lines[0]);
      AddAllKeepsForeigns(AddNew(chain, lines[0]), lines[1..]);
    }
  }

  lemma CancelKeepsNone(chain: seq<Rule>, lines: seq<string>)
    requires forall m: Mac :: Count(chain, m) <= 1
    requires forall m: Mac :: Count(chain, m) > 0 ==> m in lines
    ensures forall m: Mac :: Count(DeleteAll(chain, lines), m) == 0
  {
    forall m: Mac ensures Count(DeleteAll(chain, lines), m) == 0 {
      DeleteAllClears(chain, lines, m);
    }
  }

  /** The cancel commands clear their chain: on a safe state only the rules of others remain, in their order. */
  lemma CancelClears(chain: seq<Rule>, lines: seq<string>)
    requires forall m: Mac :: Count(chain, m) <= 1
    requires forall m: Mac :: Count(chain, m) > 0 ==> m in lines
    ensures DeleteAll(chain, lines) == Foreigns(chain)
  {
    CancelKeepsNone(chain, lines);
    OnlyForeigns(DeleteAll(chain, lines));
    DeleteAllKeepsForeigns(chain, lines);
  }

  // ----- The edits of one command -----

  lemma {:induction false} UndropAllIsSafe(s: Tables, lines: seq<string>)
    requires Safe(s)
    ensures SafeAlong(s, UndropAll(lines))
    decreases lines
  {
    if lines != [] {
      assert UndropAll(lines)[1..] == UndropAll(lines[1..]);
      DeleteKeepsSafe(s, lines[0]);
      UndropAllIsSafe(Apply(s, Undrop(lines[0])), lines[1..]);
    }
  }

  lemma {:induction false} UnmarkAllIsSafe(s: Tables, lines: seq<string>)
    requires Safe(s)
    ensures SafeAlong(s, UnmarkAll(lines))
    decreases lines
  {
    if lines != [] {
      assert UnmarkAll(lines)[1..] == UnmarkAll(lines[1..]);
      DeleteKeepsSafe(s, lines[0]);
      UnmarkAllIsSafe(Apply(s, Unmark(lines[0])), lines[1..]);
    }
  }

  lemma BlackPairIsSafe(s: Tables, x: string, dog: bool)
    requires Safe(s) && x in s.black && (IsMac(x) && !dog ==> Count(s.mark, x) == 0)
    ensures SafeAlong(s, BlackPair(x, dog))
  {
    if dog {
      assert BlackPair(x, dog) == [Unmark(x), Drop(x)];
      DeleteKeepsSafe(s, x);
      if IsMac(x) {
        assert Count(s.input, x) + Count(s.mark, x) <= 1;
        DeleteEffect(s.mark, x, x);
      }
      DropIsSafeExactly(Apply(s, Unmark(x)), x);
      SafeAlongTwo(s, Unmark(x), Drop(x));
    } else {
      assert BlackPair(x, dog) == [Drop(x)];
      DropIsSafeExactly(s, x);
      SafeAlongOne(s, Drop(x));
    }
  }

  lemma {:induction false} BlackEditsAreSafe(s: Tables, lines: seq<string>, dog: bool)
    requires Safe(s) && (forall l :: l in lines ==> l in s.black)
    requires !dog ==> forall m: Mac :: m in lines ==> Count(s.mark, m) == 0
    ensures SafeAlong(s, BlackEdits(lines, dog))
  {
    if lines != [] {
      var before, x := lines[..|lines| - 1], lines[|lines| - 1];
      var t := After(s, BlackEdits(before, dog));
      BlackEditsAreSafe(s, before, dog);
      SafeAtEnd(s, BlackEdits(before, dog));
      AfterBlackEdits(s, before, dog);
      assert x in lines;
      BlackPairIsSafe(t, x, dog);
      SafeAlongSum(s, BlackEdits(before, dog), BlackPair(x, dog));
    }
  }

  lemma WhitePairIsSafe(s: Tables, x: string)
    requires Safe(s) && x in s.white
    ensures SafeAlong(s, WhitePair(x))
  {
    DeleteKeepsSafe(s, x);
    if IsMac(x) {
      assert Count(s.input, x) + Count(s.mark, x) <= 1;
      DeleteEffect(s.input, x, x);
    }
    MarkIsSafeExactly(Apply(s, Undrop(x)), x);
    SafeAlongTwo(s, Undrop(x), Mark(x));
  }

  lemma {:induction false} WhiteEditsAreSafe(s: Tables, lines: seq<string>)
    requires Safe(s) && (forall l :: l in lines ==> l in s.white)
    ensures SafeAlong(s, WhiteEdits(lines))
  {
    if lines != [] {
      var before, x := lines[..|lines| - 1], lines[|lines| - 1];
      WhiteEditsAreSafe(s, before);
      SafeAtEnd(s, WhiteEdits(before));
      AfterWhiteEdits(s, before);
      assert x in lines;
      WhitePairIsSafe(After(s, WhiteEdits(before)), x);
      SafeAlongSum(s, WhiteEdits(before), WhitePair(x));
    }
  }

  /** The command drops an address that stays marked: it runs with the flag "no wifidog" although marks of
      its addresses are present. */
  ghost predicate Clash(s: Tables, c: Command) {
    c.flag == "black" && !c.dog && exists m: Mac :: m in Lines(c.macList) && Count(s.mark, m) > 0
  }

  lemma BlackScriptIsSafe(s: Tables, c: Command)
    requires Safe(s) && c.flag == "black" && !Clash(s, c)
    ensures SafeAlong(s, Script(s, c))
  {
    var lines := Lines(c.macList);
    var t := s.(input := DeleteAll(s.input, s.black));
    UndropAllIsSafe(s, s.black);
    AfterUndropAll(s, s.black);
    SafeAtEnd(s, UndropAll(s.black));
    CountsAtMostOne(s);
    CancelKeepsNone(s.input, s.black);
    SafeAlongTwo(t, WriteBlack([]), WriteBlack(lines));
    AfterTwo(t, WriteBlack([]), WriteBlack(lines));
    BlackEditsAreSafe(t.(black := lines), lines, c.dog);
    SafeAlongSum(t, [WriteBlack([]), WriteBlack(lines)], BlackEdits(lines, c.dog));
    SafeAlongSum(s, UndropAll(s.black), [WriteBlack([]), WriteBlack(lines)] + BlackEdits(lines, c.dog));
  }

  lemma WhiteScriptIsSafe(s: Tables, c: Command)
    requires Safe(s) && c.flag == "white"
    ensures SafeAlong(s, Script(s, c))
  {
    var lines := Lines(c.macList);
    var more := if c.dog then WhiteEdits(lines) else [];
    var t := s.(mark := DeleteAll(s.mark, s.white));
    UnmarkAllIsSafe(s, s.white);
    AfterUnmarkAll(s, s.white);
    SafeAtEnd(s, UnmarkAll(s.white));
    CountsAtMostOne(s);
    CancelKeepsNone(s.mark, s.white);
    SafeAlongTwo(t, WriteWhite([]), WriteWhite(lines));
    AfterTwo(t, WriteWhite([]), WriteWhite(lines));
    WhiteEditsAreSafe(t.(white := lines), lines);
    SafeAlongSum(t, [WriteWhite([]), WriteWhite(lines)], more);
    SafeAlongSum(s, UnmarkAll(s.white), [WriteWhite([]), WriteWhite(lines)] + more);
  }

  lemma CountsAtMostOne(s: Tables)
    requires Safe(s)
    ensures forall m: Mac :: Count(s.input, m) <= 1
    ensures forall m: Mac :: Count(s.mark, m) <= 1
  {
    forall m: Mac ensures Count(s.input, m) <= 1 && Count(s.mark, m) <= 1 {
      assert Count(s.input, m) + Count(s.mark, m) <= 1;
    }
  }

  lemma ClashBreaksSafety(s: Tables, c: Command)
    requires Safe(s) && Clash(s, c)
    ensures !Safe(Exec(s, c).0)
  {
    var lines := Lines(c.macList);
    var m: Mac :| m in lines && Count(s.mark, m) > 0;
    var t := Exec(s, c).0;
    assert Count(s.input, m) + Count(s.mark, m) <= 1;
    DeleteAllClears(s.input, s.black, m);
    AddAllCounts(DeleteAll(s.input, s.black), lines, m);
    assert Count(t.input, m) + Count(t.mark, m) > 1;
  }

  /** On safe tables, whatever the flag says: a command is safe after every single edit exactly if it does not
      clash, and exactly then it leaves the tables safe. */
  lemma CommandIsSafeExactly(s: Tables, c: Command)
    requires Safe(s)
    ensures SafeAlong(s, Script(s, c)) <==> !Clash(s, c)
    ensures Safe(Exec(s, c).0) <==> !Clash(s, c)
  {
    ScriptIsExec(s, c);
    if Clash(s, c) {
      ClashBreaksSafety(s, c);
    } else if c.flag == "black" {
      BlackScriptIsSafe(s, c);
    } else if c.flag == "white" {
      WhiteScriptIsSafe(s, c);
    } else {
      UndropAllIsSafe(s, s.black);
      UnmarkAllIsSafe(s, s.white);
    }
    if SafeAlong(s, Script(s, c)) {
      SafeAtEnd(s, Script(s, c));
    }
  }

  // ----- Runs of commands -----

  function RunAll(s: Tables, cmds: seq<Command>): (t: Tables)
    decreases cmds
  {
    if cmds == [] then s else RunAll(Exec(s, cmds[0]).0, cmds[1..])
  }

  /** All edits of a run of commands. */
  function AllEdits(s: Tables, cmds: seq<Command>): (r: seq<Edit>)
    decreases cmds
  {
    if cmds == [] then [] else Script(s, cmds[0]) + AllEdits(Exec(s, cmds[0]).0, cmds[1..])
  }

  ghost predicate NeverClashes(s: Tables, cmds: seq<Command>)
    decreases cmds
  {
    cmds != [] ==> !Clash(s, cmds[0]) && NeverClashes(Exec(s, cmds[0]).0, cmds[1..])
  }

  /** Over every run, with any flag for each command: the tables are safe after every single edit exactly if no
      command clashes. */
  lemma {:induction false} RunIsSafeExactly(s: Tables, cmds: seq<Command>)
    requires Safe(s)
    ensures SafeAlong(s, AllEdits(s, cmds)) <==> NeverClashes(s, cmds)
    ensures After(s, AllEdits(s, cmds)) == RunAll(s, cmds)
    decreases cmds
  {
    if cmds != [] {
      var c, t := cmds[0], Exec(s, cmds[0]).0;
      var more := AllEdits(t, cmds[1..]);
      CommandIsSafeExactly(s, c);
      ScriptIsExec(s, c);
      AfterSum(s, Script(s, c), more);
      SafeAlongSum(s, Script(s, c), more);
      if !Clash(s, c) {
        RunIsSafeExactly(t, cmds[1..]);
      } else {
        RunAfter(t, cmds[1..]);
      }
    }
  }

  lemma {:induction false} RunAfter(s: Tables, cmds: seq<Command>)
    ensures After(s, AllEdits(s, cmds)) == RunAll(s, cmds)
    decreases cmds
  {
    if cmds != [] {
      ScriptIsExec(s, cmds[0]);
      RunAfter(Exec(s, cmds[0]).0, cmds[1..]);
      AfterSum(s, Script(s, cmds[0]), AllEdits(Exec(s, cmds[0]).0, cmds[1..]));
    }
  }

  /** The flag is the same in all commands, and "no wifidog" only where there are no marks. */
  ghost predicate FixedFlag(s: Tables, cmds: seq<Command>, dog: bool) {
    && (forall i :: 0 <= i < |cmds| ==> cmds[i].dog == dog)
    && (!dog ==> forall m: Mac :: Count(s.mark, m) == 0)
  }

  lemma {:induction false} FixedFlagNeverClashes(s: Tables, cmds: seq<Command>, dog: bool)
    requires FixedFlag(s, cmds, dog)
    ensures NeverClashes(s, cmds)
    decreases cmds
  {
    if cmds != [] {
      var t := Exec(s, cmds[0]).0;
      if !dog {
        forall m: Mac ensures Count(t.mark, m) == 0 {
          assert Count(s.mark, m) == 0;
          DeleteAllClears(s.mark, s.white, m);
        }
      }
      FixedFlagNeverClashes(t, cmds[1..], dog);
    }
  }

  /** With a fixed flag, over every run of commands: after every single edit no address has two rules, in one chain
      or in both, and every dropped or marked address is in its file. */
  lemma EveryEditIsSafe(s: Tables, cmds: seq<Command>, dog: bool, i: nat)
    requires Safe(s) && FixedFlag(s, cmds, dog) && i <= |AllEdits(s, cmds)|
    ensures Safe(After(s, AllEdits(s, cmds)[..i]))
  {
    FixedFlagNeverClashes(s, cmds, dog);
    RunIsSafeExactly(s, cmds);
    SafeAlongIs(s, AllEdits(s, cmds));
  }

  /** No run of commands moves a rule of anybody else. */
  lemma {:induction false} RunKeepsForeigns(s: Tables, cmds: seq<Command>)
    ensures Foreigns(RunAll(s, cmds).input) == Foreigns(s.input)
    ensures Foreigns(RunAll(s, cmds).mark) == Foreigns(s.mark)
    decreases cmds
  {
    if cmds != [] {
      ExecKeepsForeigns(s, cmds[0]);
      RunKeepsForeigns(Exec(s, cmds[0]).0, cmds[1..]);
    }
  }

  lemma ExecKeepsForeigns(s: Tables, c: Command)
    ensures Foreigns(Exec(s, c).0.input) == Foreigns(s.input)
    ensures Foreigns(Exec(s, c).0.mark) == Foreigns(s.mark)
  {
    var lines := Lines(c.macList);
    if c.flag == "black" {
      ReplaceKeepsForeigns(s.input, s.black, lines);
      DeleteAllKeepsForeigns(s.mark, lines);
    } else if c.flag == "white" {
      DeleteAllKeepsForeigns(s.input, lines);
      DeleteAllKeepsForeigns(s.mark, s.white);
      ReplaceKeepsForeigns(s.mark, s.white, lines);
    } else if c.flag == "cancel_black" {
      DeleteAllKeepsForeigns(s.input, s.black);
    } else if c.flag == "cancel_white" {
      DeleteAllKeepsForeigns(s.mark, s.white);
    }
  }

  lemma ReplaceKeepsForeigns(chain: seq<Rule>, before: seq<string>, lines: seq<string>)
    ensures Foreigns(AddAll(DeleteAll(chain, before), lines)) == Foreigns(chain)
  {
    DeleteAllKeepsForeigns(chain, before);
    AddAllKeepsForeigns(DeleteAll(chain, before), lines);
  }

  // ----- No history -----

  /** One rule for each well-formed address of the list, the first occurrences in reverse order. */
  function NewRules(lines: seq<string>): (r: seq<Rule>) {
    if lines == [] then []
    else
      var before, x := lines[..|lines| - 1], lines[|lines| - 1];
      (if IsMac(x) && x !in before then [ForMac(x)] else []) + NewRules(before)
  }

  lemma {:induction false} AddAllToForeigns(f: seq<Rule>, lines: seq<string>)
    requires forall m: Mac :: Count(f, m) == 0
    ensures AddAll(f, lines) == NewRules(lines) + f
  {
    if lines != [] {
      var before, x := lines[..|lines| - 1], lines[|lines| - 1];
      assert lines == before + [x];
      AddAllSnoc(f, before, x);
      AddAllToForeigns(f, before);
      if IsMac(x) {
        AddAllCounts(f, before, x);
      }
    }
  }

  lemma FreshChain(chain: seq<Rule>, lines: seq<string>, added: seq<string>)
    requires forall m: Mac :: Count(chain, m) <= 1
    requires forall m: Mac :: Count(chain, m) > 0 ==> m in lines
    ensures AddAll(DeleteAll(chain, lines), added) == NewRules(added) + Foreigns(chain)
  {
    CancelKeepsNone(chain, lines);
    CancelClears(chain, lines);
    AddAllToForeigns(DeleteAll(chain, lines), added);
  }

  /** What even a flag that changes between commands leaves true: no chain has two rules for an address, dropped
      addresses are in the black file, and marked ones in the white file. */
  ghost predicate Tidy(s: Tables) {
    && (forall m: Mac :: Count(s.input, m) <= 1 && (Count(s.input, m) > 0 ==> m in s.black))
    && (forall m: Mac :: Count(s.mark, m) <= 1 && (Count(s.mark, m) > 0 ==> m in s.white))
  }

  ghost predicate Apart(s: Tables) {
    forall m: Mac :: Count(s.input, m) == 0 || Count(s.mark, m) == 0
  }

  /** Safe tables are the tidy ones in which no address is both dropped and marked. */
  lemma SafeIsTidy(s: Tables)
    ensures Safe(s) <==> Tidy(s) && Apart(s)
  {
    if Safe(s) {
      CountsAtMostOne(s);
      forall m: Mac ensures Count(s.input, m) == 0 || Count(s.mark, m) == 0 {
        assert Count(s.input, m) + Count(s.mark, m) <= 1;
      }
    }
    if Tidy(s) && Apart(s) {
      forall m: Mac ensures Count(s.input, m) + Count(s.mark, m) <= 1 {
        assert Count(s.input, m) <= 1 && Count(s.mark, m) <= 1;
      }
      assert forall m: Mac :: Count(s.input, m) > 0 ==> m in s.black;
      assert forall m: Mac :: Count(s.mark, m) > 0 ==> m in s.white;
    }
  }

  /** Every command, with any flag, leaves the tables tidy. */
  lemma ExecKeepsTidy(s: Tables, c: Command)
    requires Tidy(s)
    ensures Tidy(Exec(s, c).0)
  {
    var lines, t := Lines(c.macList), Exec(s, c).0;
    forall m: Mac
      ensures Count(t.input, m) <= 1 && (Count(t.input, m) > 0 ==> m in t.black)
      ensures Count(t.mark, m) <= 1 && (Count(t.mark, m) > 0 ==> m in t.white)
    {
      if c.flag == "black" || c.flag == "cancel_black" {
        DeleteAllClears(s.input, s.black, m);
        DeleteAllClears(s.mark, lines, m);
        AddAllCounts(DeleteAll(s.input, s.black), lines, m);
      } else {
        DeleteAllClears(s.mark, s.white, m);
        DeleteAllClears(s.input, lines, m);
        AddAllCounts(DeleteAll(s.mark, s.white), lines, m);
      }
    }
  }

  lemma {:induction false} RunKeepsTidy(s: Tables, cmds: seq<Command>)
    requires Tidy(s)
    ensures Tidy(RunAll(s, cmds))
    decreases cmds
  {
    if cmds != [] {
      ExecKeepsTidy(s, cmds[0]);
      RunKeepsTidy(Exec(s, cmds[0]).0, cmds[1..]);
    }
  }

  /** Whatever commands ran before, with whatever flags, the black command leaves INPUT with exactly the rules of its
      own list, in front of the rules of others in their old order. */
  lemma BlackForgetsHistory(s: Tables, cmds: seq<Command>, c: Command)
    requires Tidy(s) && c.flag == "black"
    ensures Exec(RunAll(s, cmds), c).0.input == NewRules(Lines(c.macList)) + Foreigns(s.input)
  {
    var t := RunAll(s, cmds);
    RunKeepsTidy(s, cmds);
    RunKeepsForeigns(s, cmds);
    FreshChain(t.input, t.black, Lines(c.macList));
  }

  /** The same for the white command and the mark chain, if the flag says wifidog. */
  lemma WhiteForgetsHistory(s: Tables, cmds: seq<Command>, c: Command)
    requires Tidy(s) && c.flag == "white" && c.dog
    ensures Exec(RunAll(s, cmds), c).0.mark == NewRules(Lines(c.macList)) + Foreigns(s.mark)
  {
    var t := RunAll(s, cmds);
    RunKeepsTidy(s, cmds);
    RunKeepsForeigns(s, cmds);
    FreshChain(t.mark, t.white, Lines(c.macList));
  }

  // ----- The addresses of a command -----

  /** An address whose letters may be in upper or lower case. */
  predicate AnyCase(m: string) {
    |m| == 17 && forall i :: 0 <= i < 17 ==> if i % 3 == 2 then m[i] == ':' else IsHex(m[i]) || 'a' <= m[i] <= 'f'
  }

  lemma UpperIsMac(m: string)
    requires AnyCase(m)
    ensures IsMac(Upper(m)) && ' ' !in Upper(m)
  {
  }

  /** What the list says, in upper case. */
  function Uppers(ms: seq<string>): (r: seq<string>)
    ensures |r| == |ms| && forall i :: 0 <= i < |r| ==> r[i] == Upper(ms[i])
  {
    seq(|ms|, i requires 0 <= i < |ms| => Upper(ms[i]))
  }

  lemma {:induction false} UpperOfJoin(ms: seq<string>)
    requires ms != []
    ensures Upper(Join(ms, ' ')) == Join(Uppers(ms), ' ')
  {
    if |ms| > 1 {
      UpperOfJoin(ms[1..]);
      assert Uppers(ms)[1..] == Uppers(ms[1..]);
      UpperOfSum(ms[0], Join(ms[1..], ' '));
    }
  }

  lemma UpperOfSum(a: string, b: string)
    ensures Upper(a + [' '] + b) == Upper(a) + [' '] + Upper(b)
  {
  }

  /** The list file has the addresses of the list in upper case, one a line. */
  lemma LinesOfJoined(ms: seq<string>)
    requires ms != [] && forall i :: 0 <= i < |ms| ==> AnyCase(ms[i])
    ensures Lines(Join(ms, ' ')) == Uppers(ms)
  {
    var us := Uppers(ms);
    forall i | 0 <= i < |ms| ensures ' ' !in us[i] {
      UpperIsMac(ms[i]);
    }
    UpperOfJoin(ms);
    SplitJoin(us, ' ');
  }

  /** The places where an address occurs first in the list, in their order. */
  ghost predicate FirstPlaces(lines: seq<string>, first: seq<nat>) {
    && (forall k :: 0 <= k < |first| ==> first[k] < |lines|)
    && (forall k, j :: 0 <= k < |first| && 0 <= j < first[k] < |lines| ==> lines[j] != lines[first[k]])
    && (forall k, l :: 0 <= k < l < |first| ==> first[k] < first[l])
    && (forall x :: x in lines ==> exists k :: 0 <= k < |first| && first[k] < |lines| && lines[first[k]] == x)
  }

  /** The rules of the addresses at these places, the last place first. */
  function RulesAt(lines: seq<string>, first: seq<nat>): (r: seq<Rule>)
    requires forall i :: 0 <= i < |lines| ==> IsMac(lines[i])
    requires forall k :: 0 <= k < |first| ==> first[k] < |lines|
  {
    seq(|first|, k requires 0 <= k < |first| => ForMac(lines[first[|first| - 1 - k]]))
  }

  lemma {:induction false} NewRulesAre(lines: seq<string>) returns (first: seq<nat>)
    requires forall i :: 0 <= i < |lines| ==> IsMac(lines[i])
    ensures FirstPlaces(lines, first) && NewRules(lines) == RulesAt(lines, first)
  {
    if lines == [] {
      first := [];
    } else {
      var before, x := lines[..|lines| - 1], lines[|lines| - 1];
      var places := NewRulesAre(before);
      first := if x in before then places else places + [|before|];
      assert lines == before + [x];
      PlacesOfMore(before, x, places);
      RulesAtMore(before, x, places);
      assert [] + NewRules(before) == NewRules(before);
    }
  }

  lemma RulesAtMore(before: seq<string>, x: string, places: seq<nat>)
    requires IsMac(x) && forall i :: 0 <= i < |before| ==> IsMac(before[i])
    requires forall k :: 0 <= k < |places| ==> places[k] < |before|
    ensures forall i :: 0 <= i < |before + [x]| ==> IsMac((before + [x])[i])
    ensures RulesAt(before + [x], places) == RulesAt(before, places)
    ensures RulesAt(before + [x], places + [|before|]) == [ForMac(x)] + RulesAt(before, places)
  {
  }

  lemma PlacesOfMore(before: seq<string>, x: string, places: seq<nat>)
    requires FirstPlaces(before, places)
    ensures FirstPlaces(before + [x], if x in before then places else places + [|before|])
  {
    var lines, first := before + [x], if x in before then places else places + [|before|];
    assert forall k :: 0 <= k < |places| ==> first[k] == places[k] && lines[first[k]] == before[places[k]];
    forall y | y in lines ensures exists k :: 0 <= k < |first| && first[k] < |lines| && lines[first[k]] == y {
      if y in before {
        var k :| 0 <= k < |places| && before[places[k]] == y;
        assert lines[first[k]] == y;
      } else {
        assert lines[first[|places|]] == y;
      }
    }
  }

  /** The chain has a rule for exactly the addresses of the list, the first occurrences last first, in front of the
      rules of others. */
  ghost predicate RulesOfList(chain: seq<Rule>, ms: seq<string>, others: seq<Rule>) {
    && (forall i :: 0 <= i < |ms| ==> IsMac(Uppers(ms)[i]))
    && exists first: seq<nat> :: FirstPlaces(Uppers(ms), first) && chain == RulesAt(Uppers(ms), first) + others
  }

  lemma ListIsThere(ms: seq<string>, others: seq<Rule>)
    requires forall i :: 0 <= i < |ms| ==> AnyCase(ms[i])
    ensures RulesOfList(NewRules(Uppers(ms)) + others, ms, others)
  {
    forall i | 0 <= i < |ms| ensures IsMac(Uppers(ms)[i]) {
      UpperIsMac(ms[i]);
    }
    var first := NewRulesAre(Uppers(ms));
  }

  lemma RulesAtAre(lines: seq<string>, first: seq<nat>, m: Mac)
    requires (forall i :: 0 <= i < |lines| ==> IsMac(lines[i])) && FirstPlaces(lines, first)
    ensures ForMac(m) in RulesAt(lines, first) <==> m in lines
  {
    var rules := RulesAt(lines, first);
    if m in lines {
      var k :| 0 <= k < |first| && first[k] < |lines| && lines[first[k]] == m;
      assert rules[|first| - 1 - k] == ForMac(m);
    }
  }

  lemma RulesOfListAre(chain: seq<Rule>, ms: seq<string>, others: seq<Rule>, m: Mac)
    requires RulesOfList(chain, ms, others) && ForMac(m) !in others
    ensures ForMac(m) in chain <==> exists i :: 0 <= i < |ms| && Upper(ms[i]) == m
  {
    var us := Uppers(ms);
    var first: seq<nat> :| FirstPlaces(us, first) && chain == RulesAt(us, first) + others;
    RulesAtAre(us, first, m);
    assert m in us <==> exists i :: 0 <= i < |ms| && Upper(ms[i]) == m;
  }

  lemma {:induction false} NotForeign(chain: seq<Rule>, m: Mac)
    ensures ForMac(m) !in Foreigns(chain)
  {
    if chain != [] {
      NotForeign(chain[1..], m);
    }
  }

  /** Whatever ran before: the black command drops exactly the addresses of its list, whatever their case. */
  lemma BlackDropsExactly(s: Tables, cmds: seq<Command>, dog: bool, ms: seq<string>, m: Mac)
    requires Tidy(s) && ms != [] && forall i :: 0 <= i < |ms| ==> AnyCase(ms[i])
    ensures var (t, ok) := Exec(RunAll(s, cmds), Command(dog, "black", Join(ms, ' ')));
            && ok && t.black == Uppers(ms) && t.white == RunAll(s, cmds).white
            && RulesOfList(t.input, ms, Foreigns(s.input))
            && (ForMac(m) in t.input <==> exists i :: 0 <= i < |ms| && Upper(ms[i]) == m)
            && (ForMac(m) in t.mark <==>
                  ForMac(m) in RunAll(s, cmds).mark && !(dog && exists i :: 0 <= i < |ms| && Upper(ms[i]) == m))
  {
    var c := Command(dog, "black", Join(ms, ' '));
    var before, t := RunAll(s, cmds), Exec(RunAll(s, cmds), c).0;
    LinesOfJoined(ms);
    BlackForgetsHistory(s, cmds, c);
    ListIsThere(ms, Foreigns(s.input));
    NotForeign(s.input, m);
    RulesOfListAre(t.input, ms, Foreigns(s.input), m);
    RunKeepsTidy(s, cmds);
    TakenOut(before.mark, Uppers(ms), m);
  }

  lemma TakenOut(chain: seq<Rule>, lines: seq<string>, m: Mac)
    requires Count(chain, m) <= 1
    ensures ForMac(m) in DeleteAll(chain, lines) <==> ForMac(m) in chain && m !in lines
  {
    DeleteAllClears(chain, lines, m);
    InIffCounted(chain, m);
    InIffCounted(DeleteAll(chain, lines), m);
  }

  /** The white command with the flag "wifidog" marks exactly the addresses of its list; without the flag it fails, has
      taken out all marks of this script and written the file. */
  lemma WhiteMarksExactly(s: Tables, cmds: seq<Command>, dog: bool, ms: seq<string>, m: Mac)
    requires Tidy(s) && ms != [] && forall i :: 0 <= i < |ms| ==> AnyCase(ms[i])
    ensures var (t, ok) := Exec(RunAll(s, cmds), Command(dog, "white", Join(ms, ' ')));
            && ok == dog && t.white == Uppers(ms) && t.black == RunAll(s, cmds).black
            && (if dog then RulesOfList(t.mark, ms, Foreigns(s.mark)) else t.mark == Foreigns(s.mark))
            && (ForMac(m) in t.mark <==> dog && exists i :: 0 <= i < |ms| && Upper(ms[i]) == m)
            && (ForMac(m) in t.input <==>
                  ForMac(m) in RunAll(s, cmds).input && !(dog && exists i :: 0 <= i < |ms| && Upper(ms[i]) == m))
  {
    var c := Command(dog, "white", Join(ms, ' '));
    var before, t := RunAll(s, cmds), Exec(RunAll(s, cmds), c).0;
    LinesOfJoined(ms);
    RunKeepsTidy(s, cmds);
    RunKeepsForeigns(s, cmds);
    NotForeign(s.mark, m);
    if dog {
      WhiteForgetsHistory(s, cmds, c);
      ListIsThere(ms, Foreigns(s.mark));
      RulesOfListAre(t.mark, ms, Foreigns(s.mark), m);
    } else {
      CancelClears(before.mark, before.white);
    }
    TakenOut(before.input, Uppers(ms), m);
  }

  /** Any other flag changes nothing, and the script does not fail. */
  lemma OtherFlagChangesNothing(s: Tables, c: Command)
    requires c.flag !in {"black", "white", "cancel_black", "cancel_white"}
    ensures Exec(s, c) == (s, true) && Script(s, c) == []
  {
  }

  /** The cancelling commands take out exactly this script's rules of one chain, and nothing else. */
  lemma CancelTakesOut(s: Tables, cmds: seq<Command>, dog: bool, macList: string)
    requires Tidy(s)
    ensures var t := RunAll(s, cmds);
            && Exec(t, Command(dog, "cancel_black", macList)) == (t.(input := Foreigns(s.input)), true)
            && Exec(t, Command(dog, "cancel_white", macList)) == (t.(mark := Foreigns(s.mark)), true)
  {
    RunKeepsTidy(s, cmds);
    RunKeepsForeigns(s, cmds);
    var t := RunAll(s, cmds);
    CancelClears(t.input, t.black);
    CancelClears(t.mark, t.white);
  }

  lemma {:induction false} DeleteAllAbsent(chain: seq<Rule>, lines: seq<string>)
    requires forall m: Mac :: m in lines ==> Count(chain, m) == 0
    ensures DeleteAll(chain, lines) == chain
    decreases lines
  {
    if lines != [] {
      assert lines == [lines[0]] + lines[1..];
      if IsMac(lines[0]) {
        DeleteAbsent(chain, lines[0]);
      }
      DeleteAllAbsent(chain, lines[1..]);
    }
  }

  /** Deleting the lines of a list twice is deleting them once. */
  lemma DeleteAllTwice(chain: seq<Rule>, lines: seq<string>)
    requires forall m: Mac :: Count(chain, m) <= 1
    ensures DeleteAll(DeleteAll(chain, lines), lines) == DeleteAll(chain, lines)
  {
    forall m: Mac | m in lines ensures Count(DeleteAll(chain, lines), m) == 0 {
      DeleteAllClears(chain, lines, m);
    }
    DeleteAllAbsent(DeleteAll(chain, lines), lines);
  }

  /** Replacing the rules of a list by those of another one twice is doing it once. */
  lemma ReplaceTwice(chain: seq<Rule>, before: seq<string>, lines: seq<string>)
    requires forall m: Mac :: Count(chain, m) <= 1
    requires forall m: Mac :: Count(chain, m) > 0 ==> m in before
    ensures var c := AddAll(DeleteAll(chain, before), lines); AddAll(DeleteAll(c, lines), lines) == c
  {
    var c := AddAll(DeleteAll(chain, before), lines);
    CancelKeepsNone(chain, before);
    FreshChain(chain, before, lines);
    forall m: Mac ensures Count(c, m) <= 1 && (Count(c, m) > 0 ==> m in lines) {
      AddAllCounts(DeleteAll(chain, before), lines, m);
    }
    FreshChain(c, lines, lines);
    AddAllKeepsForeigns(DeleteAll(chain, before), lines);
    DeleteAllKeepsForeigns(chain, before);
  }

  /** Repeating a command changes nothing at all, whatever ran before it: neither chain, neither file. */
  lemma RepeatChangesNothing(s: Tables, cmds: seq<Command>, c: Command)
    requires Tidy(s)
    ensures var t := Exec(RunAll(s, cmds), c).0; Exec(t, c).0 == t
  {
    RunKeepsTidy(s, cmds);
    RepeatOnTidy(RunAll(s, cmds), c);
  }

  lemma RepeatOnTidy(s: Tables, c: Command)
    requires Tidy(s)
    ensures var t := Exec(s, c).0; Exec(t, c).0 == t
  {
    var lines := Lines(c.macList);
    if c.flag == "black" {
      ReplaceTwice(s.input, s.black, lines);
      DeleteAllTwice(s.mark, lines);
    } else if c.flag == "white" {
      ReplaceTwice(s.mark, s.white, lines);
      DeleteAllTwice(s.input, lines);
      CancelKeepsNone(s.mark, s.white);
      DeleteAllAbsent(DeleteAll(s.mark, s.white), lines);
    } else {
      DeleteAllTwice(s.input, s.black);
      DeleteAllTwice(s.mark, s.white);
    }
  }

  /** A flag that changes between commands can leave an address both dropped and marked. */
  lemma ChangingTheFlagBreaksSafety(m: Mac)
    ensures var start := Tables([], [], [], []);
            var cmds := [Command(true, "white", m), Command(false, "black", m)];
            Safe(start) && !NeverClashes(start, cmds) && !Safe(RunAll(start, cmds))
  {
    var start := Tables([], [], [], []);
    var white, black := Command(true, "white", m), Command(false, "black", m);
    var marked := Exec(start, white).0;
    assert Upper(m) == m;
    SplitLast(m, ' ');
    assert Lines(m) == [m];
    assert RunAll(start, []) == start;
    WhiteForgetsHistory(start, [], white);
    assert NewRules([m]) == [ForMac(m)] by {
      assert [m][..0] == [];
    }
    CommandIsSafeExactly(start, white);
    assert Clash(marked, black) by {
      assert m in Lines(m) && Count(marked.mark, m) > 0;
    }
    ClashBreaksSafety(marked, black);
    assert [white, black][1..] == [black] && [black][1..] == [];
    assert RunAll(marked, [black]) == Exec(marked, black).0;
  }

  lemma AfterSnoc(s: Tables, edits: seq<Edit>, e: Edit)
    ensures After(s, edits + [e]) == Apply(After(s, edits), e)
  {
    AfterSum(s, edits, [e]);
    AfterOne(After(s, edits), e);
  }

  lemma ThreeSteps(log: seq<Edit>, s: Tables, a: seq<Edit>, b: seq<Edit>, c: seq<Edit>)
    ensures ((log + a) + b) + c == log + (a + (b + c))
    ensures After(After(After(s, a), b), c) == After(s, a + (b + c))
  {
    Assoc(log + a, b, c);
    Assoc(log, a, b + c);
    AfterSum(s, a, b + c);
    AfterSum(After(s, a), b, c);
  }

  // ----- The script -----

  class Firewall {
    var input: seq<Rule>
    var mark: seq<Rule>
    var blackFile: seq<string>
    var whiteFile: seq<string>

    /** The edits made so far. */
    ghost var log: seq<Edit>

    function Now(): (s: Tables)
      reads this
    {
      Tables(input, mark, blackFile, whiteFile)
    }

    ghost predicate Valid()
      reads this
    {
      ForeignPlain(input) && ForeignPlain(mark)
    }

    /** if grep finds a rule in INPUT, iptables -D it. */
    method DeleteDrop(line: string)
      requires Valid()
      modifies this`input, this`log
      ensures Valid() && log == old(log) + [Undrop(line)] && Now() == Apply(old(Now()), Undrop(line))
    {
      GuardsAreExact(input, line, DROP_HEAD, DROP_TAIL);
      EditsStayPlain(input, line);
      if Grep(input, line, DROP_HEAD, DROP_TAIL) {
        input := Delete(input, line);
      }
      log := log + [Undrop(line)];
    }

    method InsertDrop(line: string)
      requires Valid()
      modifies this`input, this`log
      ensures Valid() && log == old(log) + [Drop(line)] && Now() == Apply(old(Now()), Drop(line))
    {
      GuardsAreExact(input, line, DROP_HEAD, DROP_TAIL);
      EditsStayPlain(input, line);
      if !Grep(input, line, DROP_HEAD, DROP_TAIL) {
        input := Insert(input, line);
      }
      log := log + [Drop(line)];
    }

    method DeleteMark(line: string)
      requires Valid()
      modifies this`mark, this`log
      ensures Valid() && log == old(log) + [Unmark(line)] && Now() == Apply(old(Now()), Unmark(line))
    {
      GuardsAreExact(mark, line, MARK_HEAD, MARK_TAIL);
      EditsStayPlain(mark, line);
      if Grep(mark, line, MARK_HEAD, MARK_TAIL) {
        mark := Delete(mark, line);
      }
      log := log + [Unmark(line)];
    }

    method InsertMark(line: string)
      requires Valid()
      modifies this`mark, this`log
      ensures Valid() && log == old(log) + [Mark(line)] && Now() == Apply(old(Now()), Mark(line))
    {
      GuardsAreExact(mark, line, MARK_HEAD, MARK_TAIL);
      EditsStayPlain(mark, line);
      if !Grep(mark, line, MARK_HEAD, MARK_TAIL) {
        mark := Insert(mark, line);
      }
      log := log + [Mark(line)];
    }

    method CancelBlackMacList()
      requires Valid()
      modifies this`input, this`log
      ensures Valid() && log == old(log) + UndropAll(blackFile)
      ensures Now() == After(old(Now()), UndropAll(blackFile))
    {
      for i := 0 to |blackFile|
        invariant Valid() && log == old(log) + UndropAll(blackFile[..i])
        invariant Now() == After(old(Now()), UndropAll(blackFile[..i]))
      {
        DeleteDrop(blackFile[i]);
        assert UndropAll(blackFile[..i + 1]) == UndropAll(blackFile[..i]) + [Undrop(blackFile[i])];
        AfterSnoc(old(Now()), UndropAll(blackFile[..i]), Undrop(blackFile[i]));
      }
      assert blackFile[..|blackFile|] == blackFile;
    }

    /** The flag is not consulted: without wifidog there is no mark chain and grep finds nothing. */
    method CancelWhiteMacList()
      requires Valid()
      modifies this`mark, this`log
      ensures Valid() && log == old(log) + UnmarkAll(whiteFile)
      ensures Now() == After(old(Now()), UnmarkAll(whiteFile))
    {
      for i := 0 to |whiteFile|
        invariant Valid() && log == old(log) + UnmarkAll(whiteFile[..i])
        invariant Now() == After(old(Now()), UnmarkAll(whiteFile[..i]))
      {
        DeleteMark(whiteFile[i]);
        assert UnmarkAll(whiteFile[..i + 1]) == UnmarkAll(whiteFile[..i]) + [Unmark(whiteFile[i])];
        AfterSnoc(old(Now()), UnmarkAll(whiteFile[..i]), Unmark(whiteFile[i]));
      }
      assert whiteFile[..|whiteFile|] == whiteFile;
    }

    /** One round of the loop of add_mac_to_black_rule. */
    method BlackRound(line: string, dog: bool)
      requires Valid()
      modifies this`input, this`mark, this`log
      ensures Valid() && log == old(log) + BlackPair(line, dog) && Now() == After(old(Now()), BlackPair(line, dog))
    {
      if dog {
        DeleteMark(line);
      }
      InsertDrop(line);
      AfterBlackPair(old(Now()), line, dog);
    }

    method AddMacToBlackRule(dog: bool)
      requires Valid()
      modifies this`input, this`mark, this`log
      ensures Valid() && log == old(log) + BlackEdits(blackFile, dog)
      ensures Now() == After(old(Now()), BlackEdits(blackFile, dog))
    {
      for i := 0 to |blackFile|
        invariant Valid() && log == old(log) + BlackEdits(blackFile[..i], dog)
        invariant Now() == After(old(Now()), BlackEdits(blackFile[..i], dog))
      {
        BlackRound(blackFile[i], dog);
        assert blackFile[..i + 1][..i] == blackFile[..i];
        Assoc(old(log), BlackEdits(blackFile[..i], dog), BlackPair(blackFile[i], dog));
        AfterSum(old(Now()), BlackEdits(blackFile[..i], dog), BlackPair(blackFile[i], dog));
      }
      assert blackFile[..|blackFile|] == blackFile;
    }

    /** One round of the loop of add_mac_to_white_rule. */
    method WhiteRound(line: string)
      requires Valid()
      modifies this`input, this`mark, this`log
      ensures Valid() && log == old(log) + WhitePair(line) && Now() == After(old(Now()), WhitePair(line))
    {
      DeleteDrop(line);
      InsertMark(line);
      AfterTwo(old(Now()), Undrop(line), Mark(line));
    }

    method AddMacToWhiteRule(dog: bool) returns (ok: bool)
      requires Valid()
      modifies this`input, this`mark, this`log
      ensures ok == dog
      ensures var edits := if dog then WhiteEdits(whiteFile) else [];
              Valid() && log == old(log) + edits && Now() == After(old(Now()), edits)
    {
      if !dog {
        return false;
      }
      for i := 0 to |whiteFile|
        invariant Valid() && log == old(log) + WhiteEdits(whiteFile[..i])
        invariant Now() == After(old(Now()), WhiteEdits(whiteFile[..i]))
      {
        WhiteRound(whiteFile[i]);
        assert whiteFile[..i + 1][..i] == whiteFile[..i];
        Assoc(old(log), WhiteEdits(whiteFile[..i]), WhitePair(whiteFile[i]));
        AfterSum(old(Now()), WhiteEdits(whiteFile[..i]), WhitePair(whiteFile[i]));
      }
      assert whiteFile[..|whiteFile|] == whiteFile;
      ok := true;
    }

    /** The file is emptied, then written. */
    method SetMacList(black: bool, macList: string)
      requires Valid()
      modifies this`blackFile, this`whiteFile, this`log
      ensures var lines := Lines(macList);
              var edits := if black then [WriteBlack([]), WriteBlack(lines)] else [WriteWhite([]), WriteWhite(lines)];
              Valid() && log == old(log) + edits && Now() == After(old(Now()), edits)
    {
      var lines := Lines(macList);
      if black {
        blackFile := [];
        blackFile := lines;
        log := log + [WriteBlack([]), WriteBlack(lines)];
        AfterTwo(old(Now()), WriteBlack([]), WriteBlack(lines));
      } else {
        whiteFile := [];
        whiteFile := lines;
        log := log + [WriteWhite([]), WriteWhite(lines)];
        AfterTwo(old(Now()), WriteWhite([]), WriteWhite(lines));
      }
    }

    /** The case "black". */
    method SetBlack(dog: bool, macList: string)
      requires Valid()
      modifies this
      ensures var edits := Script(old(Now()), Command(dog, "black", macList));
              Valid() && log == old(log) + edits && Now() == After(old(Now()), edits)
    {
      ghost var a := UndropAll(blackFile);
      CancelBlackMacList();
      ghost var s := Now();
      SetMacList(true, macList);
      ghost var b := [WriteBlack([]), WriteBlack(Lines(macList))];
      AddMacToBlackRule(dog);
      ghost var c := BlackEdits(Lines(macList), dog);
      AfterTwo(s, WriteBlack([]), WriteBlack(Lines(macList)));
      ThreeSteps(old(log), old(Now()), a, b, c);
    }

    /** The case "white". */
    method SetWhite(dog: bool, macList: string) returns (ok: bool)
      requires Valid()
      modifies this
      ensures ok == dog
      ensures var edits := Script(old(Now()), Command(dog, "white", macList));
              Valid() && log == old(log) + edits && Now() == After(old(Now()), edits)
    {
      ghost var a := UnmarkAll(whiteFile);
      CancelWhiteMacList();
      ghost var s := Now();
      SetMacList(false, macList);
      ghost var b := [WriteWhite([]), WriteWhite(Lines(macList))];
      ok := AddMacToWhiteRule(dog);
      ghost var c := if dog then WhiteEdits(Lines(macList)) else [];
      AfterTwo(s, WriteWhite([]), WriteWhite(Lines(macList)));
      ThreeSteps(old(log), old(Now()), a, b, c);
    }

    /** One run of the script, after the parameter check: it makes exactly the edits of its script, one after the
        other, and so computes what Exec says. */
    method MainOperation(dog: bool, flag: string, macList: string) returns (ok: bool)
      requires Valid()
      modifies this
      ensures Valid() && log == old(log) + Script(old(Now()), Command(dog, flag, macList))
      ensures (Now(), ok) == Exec(old(Now()), Command(dog, flag, macList))
    {
      ok := true;
      ScriptIsExec(Now(), Command(dog, flag, macList));
      if flag == "black" {
        SetBlack(dog, macList);
      } else if flag == "white" {
        ok := SetWhite(dog, macList);
      } else if flag == "cancel_black" {
        CancelBlackMacList();
      } else if flag == "cancel_white" {
        CancelWhiteMacList();
      }
    }
  }
}
