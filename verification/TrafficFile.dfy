/** The traffic file, which the script update_ac_information.sh joins from the counting rules and the rate files, and
    which the ping reads: when it has whole records, and what the reader of the daemon then gets. */
module TrafficFile {
  import opened ClientList
  import opened CountRules
  import opened Decimal
  import opened Seqs
  import opened Text

  // ----- Joining the counters -----

  /** What grep finds among the listed UPLOAD rules for an address: the counters of all whose line, text(r), matches. */
  function Uploads(chain: seq<Rule>, text: Rule -> string, addr: string): (r: seq<nat>) {
    if chain == [] then []
    else (if chain[0].Up? && Match(addr, text(chain[0])) then [chain[0].count] else [])
         + Uploads(chain[1..], text, addr)
  }

  /** What precedes the upload counters of a record. */
  function Prefix(addr: string, count: nat): (r: string) {
    addr + " " + (Print(count) + "  ")
  }

  /** The lines of one record. The counters that grep found come one to a line. */
  function RecordLines(prefix: string, uploads: seq<nat>): (r: seq<string>) {
    if uploads == [] then [prefix]
    else [prefix + Print(uploads[0])] + seq(|uploads| - 1, i requires 0 <= i < |uploads| - 1 => Print(uploads[i + 1]))
  }

  /** The lines that generate_client_traffic_file writes for the DOWNLOAD rules of `rules`. */
  function TrafficLines(rules: seq<Rule>, chain: seq<Rule>, text: Rule -> string): (r: seq<string>) {
    if rules == [] then []
    else (if rules[0].Down?
          then RecordLines(Prefix(rules[0].addr, rules[0].count), Uploads(chain, text, rules[0].addr)) else [])
         + TrafficLines(rules[1..], chain, text)
  }

  /** The fields of a line, as awk counts them. */
  function Words(line: string): (r: seq<string>) {
    NonEmpty(Split(line, ' '))
  }

  function NonEmpty(pieces: seq<string>): (r: seq<string>) {
    if pieces == [] then [] else (if pieces[0] == "" then [] else [pieces[0]]) + NonEmpty(pieces[1..])
  }

  predicate Whole(line: string) {
    |Words(line)| == 3
  }

  predicate Word(w: string) {
    w != "" && ' ' !in w && '\t' !in w && '\n' !in w
  }

  lemma PrintIsWord(n: int)
    ensures Word(Print(n))
  {
    var d := Digits(if n < 0 then -n else n);
    assert forall i :: 0 <= i < |d| ==> IsDigit(d[i]);
  }

  lemma NonEmptyFirst(piece: string, pieces: seq<string>)
    ensures NonEmpty([piece] + pieces) == (if piece == "" then [] else [piece]) + NonEmpty(pieces)
  {
    assert ([piece] + pieces)[1..] == pieces;
  }

  lemma WordsFirst(w: string, rest: string)
    requires ' ' !in w
    ensures Words(w + " " + rest) == (if w == "" then [] else [w]) + Words(rest)
  {
    SplitFirst(w, ' ', rest);
    NonEmptyFirst(w, Split(rest, ' '));
  }

  lemma WordsLast(w: string)
    requires ' ' !in w
    ensures Words(w) == if w == "" then [] else [w]
  {
    SplitLast(w, ' ');
    NonEmptyFirst(w, []);
    assert [w] + [] == [w];
  }

  /** The fields of the first line of a record. */
  lemma WordsOfRecord(addr: string, count: nat, u: string)
    requires Word(addr) && ' ' !in u
    ensures Words(Prefix(addr, count) + u) == [addr, Print(count)] + if u == "" then [] else [u]
  {
    var c := Print(count);
    PrintIsWord(count);
    assert Prefix(addr, count) + u == addr + " " + (c + " " + ("" + " " + u));
    WordsFirst(addr, c + " " + ("" + " " + u));
    WordsFirst(c, "" + " " + u);
    WordsFirst("", u);
    WordsLast(u);
  }

  /** Grep found nothing: the record has two fields. */
  lemma EmptyRecord(addr: string, count: nat)
    requires Word(addr)
    ensures !Whole(Prefix(addr, count))
  {
    assert Prefix(addr, count) + "" == Prefix(addr, count);
    WordsOfRecord(addr, count, "");
  }

  lemma FirstLine(addr: string, count: nat, upload: nat)
    requires Word(addr)
    ensures Whole(Prefix(addr, count) + Print(upload))
  {
    PrintIsWord(upload);
    WordsOfRecord(addr, count, Print(upload));
  }

  /** A counter on a line of its own. */
  lemma LaterLine(upload: nat)
    ensures !Whole(Print(upload))
  {
    PrintIsWord(upload);
    WordsLast(Print(upload));
  }

  /** A record is written whole exactly if grep found one UPLOAD rule for it. */
  lemma RecordIsWholeExactly(addr: string, count: nat, uploads: seq<nat>)
    requires Word(addr)
    ensures (forall l :: l in RecordLines(Prefix(addr, count), uploads) ==> Whole(l)) <==> |uploads| == 1
  {
    EmptyRecord(addr, count);
    forall u: nat ensures Whole(Prefix(addr, count) + Print(u)) && !Whole(Print(u)) {
      FirstLine(addr, count, u);
      LaterLine(u);
    }
    CasesOfRecord(Prefix(addr, count), uploads);
  }

  lemma CasesOfRecord(p: string, uploads: seq<nat>)
    requires !Whole(p) && forall u: nat :: Whole(p + Print(u)) && !Whole(Print(u))
    ensures (forall l :: l in RecordLines(p, uploads) ==> Whole(l)) <==> |uploads| == 1
  {
    var lines := RecordLines(p, uploads);
    if |uploads| == 1 {
      assert lines == [p + Print(uploads[0])];
    } else {
      assert !Whole(lines[if uploads == [] then 0 else 1]);
    }
  }

  /** Every DOWNLOAD rule has an address that is one word, and no longer than an address is. */
  predicate Addressed(rules: seq<Rule>) {
    forall i :: 0 <= i < |rules| && rules[i].Down? ==> Word(rules[i].addr) && |rules[i].addr| <= 15
  }

  /** All records are written whole if and only if grep finds exactly one UPLOAD rule for each DOWNLOAD rule. */
  lemma {:induction false} FileIsWholeExactly(rules: seq<Rule>, chain: seq<Rule>, text: Rule -> string)
    requires Addressed(rules)
    ensures (forall l :: l in TrafficLines(rules, chain, text) ==> Whole(l))
       <==> (forall i :: 0 <= i < |rules| && rules[i].Down? ==> |Uploads(chain, text, rules[i].addr)| == 1)
    decreases rules
  {
    if rules != [] {
      var r, more := rules[0], rules[1..];
      FileIsWholeExactly(more, chain, text);
      assert forall i :: 0 <= i < |more| ==> more[i] == rules[i + 1];
      assert forall i :: 1 <= i < |rules| ==> rules[i] == more[i - 1];
      if r.Down? {
        RecordIsWholeExactly(r.addr, r.count, Uploads(chain, text, r.addr));
      }
    }
  }

  // ----- Which chains -----

  /** The line of every UPLOAD rule shows its address. */
  ghost predicate ShowsOwn(chain: seq<Rule>, text: Rule -> string) {
    forall i :: 0 <= i < |chain| && chain[i].Up? ==> Match(chain[i].addr, text(chain[i]))
  }

  /** grep finds an address in no UPLOAD line of another one. */
  ghost predicate OnlyOwn(chain: seq<Rule>, text: Rule -> string, d: string) {
    forall i :: 0 <= i < |chain| && chain[i].Up? && Match(d, text(chain[i])) ==> chain[i].addr == d
  }

  ghost predicate Apart(chain: seq<Rule>, text: Rule -> string) {
    forall d :: d in Downs(chain) ==> OnlyOwn(chain, text, d)
  }

  lemma {:induction false} UploadsOfOwn(chain: seq<Rule>, text: Rule -> string, d: string)
    requires ShowsOwn(chain, text)
    ensures |Uploads(chain, text, d)| >= CountUp(chain, d)
    ensures OnlyOwn(chain, text, d) ==> |Uploads(chain, text, d)| == CountUp(chain, d)
    decreases chain
  {
    if chain != [] {
      var more := chain[1..];
      assert forall i :: 0 <= i < |more| ==> more[i] == chain[i + 1];
      UploadsOfOwn(more, text, d);
    }
  }

  /** A line of another address is one too many. */
  lemma {:induction false} UploadsOfOther(chain: seq<Rule>, text: Rule -> string, d: string, i: nat)
    requires ShowsOwn(chain, text)
    requires i < |chain| && chain[i].Up? && Match(d, text(chain[i])) && chain[i].addr != d
    ensures |Uploads(chain, text, d)| > CountUp(chain, d)
    decreases chain
  {
    var more := chain[1..];
    assert forall j :: 0 <= j < |more| ==> more[j] == chain[j + 1];
    if i == 0 {
      UploadsOfOwn(more, text, d);
    } else {
      UploadsOfOther(more, text, d, i - 1);
    }
  }

  lemma {:induction false} DownRuleOf(chain: seq<Rule>, d: string) returns (i: nat)
    requires d in Downs(chain)
    ensures i < |chain| && chain[i].Down? && chain[i].addr == d
    decreases chain
  {
    if chain[0].Down? && chain[0].addr == d {
      i := 0;
    } else {
      var j := DownRuleOf(chain[1..], d);
      i := j + 1;
    }
  }

  lemma {:induction false} UpRuleOf(chain: seq<Rule>, e: string) returns (i: nat)
    requires CountUp(chain, e) > 0
    ensures i < |chain| && chain[i].Up? && chain[i].addr == e
    decreases chain
  {
    if chain[0].Up? && chain[0].addr == e {
      i := 0;
    } else {
      var j := UpRuleOf(chain[1..], e);
      i := j + 1;
    }
  }

  /** A counted address that grep finds in the line of another one: its record is not whole. */
  lemma HitBreaksRecord(chain: seq<Rule>, text: Rule -> string, d: string, i: nat)
    requires ShowsOwn(chain, text) && Addressed(chain) && d in Downs(chain) && CountUp(chain, d) > 0
    requires i < |chain| && chain[i].Up? && Match(d, text(chain[i])) && chain[i].addr != d
    ensures exists l :: l in TrafficLines(chain, chain, text) && !Whole(l)
  {
    var k := DownRuleOf(chain, d);
    UploadsOfOther(chain, text, d, i);
    FileIsWholeExactly(chain, chain, text);
    assert |Uploads(chain, text, chain[k].addr)| != 1;
  }

  lemma OneUpload(chain: seq<Rule>, text: Rule -> string, i: nat)
    requires Paired(chain) && ShowsOwn(chain, text) && Apart(chain, text) && i < |chain| && chain[i].Down?
    ensures |Uploads(chain, text, chain[i].addr)| == 1
  {
    var d := chain[i].addr;
    PairedIsListed(chain, chain[i]);
    DownsCounted(chain, d);
    UploadsOfOwn(chain, text, d);
    assert CountUp(chain, d) == CountDown(chain, d) <= 1;
  }

  /** For paired chains, whatever the lines look like: the script writes whole records if and only if grep finds no
      counted address in the line of another one. */
  lemma PairedFileIsWholeExactly(chain: seq<Rule>, text: Rule -> string)
    requires Paired(chain) && Addressed(chain) && ShowsOwn(chain, text)
    ensures (forall l :: l in TrafficLines(chain, chain, text) ==> Whole(l)) <==> Apart(chain, text)
  {
    if Apart(chain, text) {
      FileIsWholeExactly(chain, chain, text);
      forall i | 0 <= i < |chain| && chain[i].Down? ensures |Uploads(chain, text, chain[i].addr)| == 1 {
        OneUpload(chain, text, i);
      }
    } else {
      var d :| d in Downs(chain) && !OnlyOwn(chain, text, d);
      var i :| 0 <= i < |chain| && chain[i].Up? && Match(d, text(chain[i])) && chain[i].addr != d;
      DownsCounted(chain, d);
      assert CountUp(chain, d) == CountDown(chain, d);
      HitBreaksRecord(chain, text, d, i);
    }
  }

  /** A counted address that matches another counted one breaks its record. */
  lemma LookalikeBreaksRecord(chain: seq<Rule>, text: Rule -> string, d: string, e: string)
    requires ShowsOwn(chain, text) && Addressed(chain) && d != e && Match(d, e)
    requires d in Downs(chain) && CountUp(chain, d) > 0 && CountUp(chain, e) > 0
    ensures exists l :: l in TrafficLines(chain, chain, text) && !Whole(l)
  {
    var i := UpRuleOf(chain, e);
    MatchTransitive(d, e, text(chain[i]));
    HitBreaksRecord(chain, text, d, i);
  }

  lemma TwoPairs(i: nat, u: Rule, k: nat, v: Rule)
    requires u.Up? && v.Up?
    ensures var chain := [Down(u.addr, i), u, Down(v.addr, k), v];
            u.addr in Downs(chain) && CountUp(chain, u.addr) > 0
  {
    var three := [u, Down(v.addr, k), v];
    var chain := [Down(u.addr, i), u, Down(v.addr, k), v];
    assert chain[1..] == three;
    assert CountUp(three, u.addr) > 0;
  }

  /** If grep finds one address in the UPLOAD line of another one, a record is broken. */
  lemma PairBreaksRecord(text: Rule -> string, i: nat, u: Rule, k: nat, v: Rule)
    requires u.Up? && v.Up? && u.addr != v.addr
    requires Word(u.addr) && |u.addr| <= 15 && Word(v.addr) && |v.addr| <= 15
    requires Match(u.addr, text(u)) && Match(v.addr, text(v)) && Match(u.addr, text(v))
    ensures var chain := [Down(u.addr, i), u, Down(v.addr, k), v];
            exists l :: l in TrafficLines(chain, chain, text) && !Whole(l)
  {
    var chain := [Down(u.addr, i), u, Down(v.addr, k), v];
    TwoPairs(i, u, k, v);
    HitBreaksRecord(chain, text, u.addr, 3);
  }

  lemma Neighbours()
    ensures var a, d := "10.0.0.1", "10.0.0.10"; a != d && Word(a) && Word(d) && Match(a, d)
  {
    assert MatchAt("10.0.0.1", "10.0.0.10", 0);
  }

  /** So do 10.0.0.1 and 10.0.0.10. */
  lemma NeighboursBreakRecord(text: Rule -> string, i: nat, j: nat, k: nat, l: nat)
    requires Match("10.0.0.1", text(Up("10.0.0.1", j))) && Match("10.0.0.10", text(Up("10.0.0.10", l)))
    ensures var a, d := "10.0.0.1", "10.0.0.10";
            var chain := [Down(a, i), Up(a, j), Down(d, k), Up(d, l)];
            exists l :: l in TrafficLines(chain, chain, text) && !Whole(l)
  {
    var a, d := "10.0.0.1", "10.0.0.10";
    Neighbours();
    MatchTransitive(a, d, text(Up(d, l)));
    PairBreaksRecord(text, i, Up(a, j), k, Up(d, l));
  }

  // ----- Joining the rates -----

  /** sed 's/[ ][ ]*\/ /g'. */
  function Squeeze(s: string): (r: string) {
    if s == "" then ""
    else if |s| > 1 && s[0] == ' ' && s[1] == ' ' then Squeeze(s[1..])
    else [s[0]] + Squeeze(s[1..])
  }

  /** read drops the blanks at both ends of a line. */
  function Trim(s: string): (r: string)
    decreases |s|
  {
    if s == "" then ""
    else if Blank(s[0]) then Trim(s[1..])
    else if Blank(s[|s| - 1]) then Trim(s[..|s| - 1])
    else s
  }

  /** One line of generate_client_traffic_infomatrion_file: rates gives what grep and awk make of the two rate files
      for an address. */
  function InfoLine(line: string, rates: string -> (string, string)): (r: string) {
    var t := Trim(line);
    var ip := if Words(t) == [] then "" else Words(t)[0];
    Squeeze(t + " " + rates(ip).0 + " " + rates(ip).1)
  }

  function InfoText(lines: seq<string>, rates: string -> (string, string)): (r: string) {
    if lines == [] then "" else (InfoLine(lines[0], rates) + "\n") + InfoText(lines[1..], rates)
  }

  /** Each rate file has one line for the address of each DOWNLOAD rule; awk prints the rate and an empty field. */
  ghost predicate OneRate(rules: seq<Rule>, rates: string -> (string, string), down: string -> int, up: string -> int) {
    forall i :: 0 <= i < |rules| && rules[i].Down? ==>
      var a := rules[i].addr;
      rates(a) == (Print(down(a)) + " ", Print(up(a)) + " ")
  }

  function RecordLine(t: TrafficRec): (r: string) {
    t.ip + (" " + (Print(t.incoming) + (" " + (Print(t.outgoing) + (" " + (Print(t.comeSpeed) + (" " +
    (Print(t.goSpeed) + " "))))))))
  }

  lemma {:induction false} SqueezeWord(w: string, rest: string)
    requires ' ' !in w
    ensures Squeeze(w + rest) == w + Squeeze(rest)
    decreases w
  {
    if w == "" {
      assert w + rest == rest && w + Squeeze(rest) == Squeeze(rest);
    } else {
      assert (w + rest)[1..] == w[1..] + rest;
      SqueezeWord(w[1..], rest);
      assert w == [w[0]] + w[1..];
      Assoc([w[0]], w[1..], Squeeze(rest));
    }
  }

  lemma SqueezeGap(w: string, rest: string)
    requires Word(w)
    ensures Squeeze(" " + (w + rest)) == " " + (w + Squeeze(rest))
    ensures Squeeze(" " + (" " + (w + rest))) == " " + (w + Squeeze(rest))
  {
    assert (" " + (w + rest))[1..] == w + rest && (w + rest)[0] == w[0];
    assert (" " + (" " + (w + rest)))[1..] == " " + (w + rest);
    SqueezeWord(w, rest);
  }

  lemma SqueezeTwo(w: string, x: string, tail: string, squeezed: string)
    requires Word(w) && Word(x) && Squeeze(tail) == squeezed
    ensures Squeeze(" " + (w + (" " + (" " + (x + tail))))) == " " + (w + (" " + (x + squeezed)))
  {
    SqueezeGap(x, tail);
    SqueezeGap(w, " " + (" " + (x + tail)));
  }

  lemma SqueezeRecord(a: string, c: string, u: string, d: string, v: string)
    requires Word(a) && Word(c) && Word(u) && Word(d) && Word(v)
    ensures Squeeze(a + (" " + (c + (" " + (" " + (u + (" " + (d + (" " + (" " + (v + " ")))))))))))
         == a + (" " + (c + (" " + (u + (" " + (d + (" " + (v + " "))))))))
  {
    assert Squeeze(" ") == " " by {
      assert " "[1..] == "" && " " + "" == " ";
    }
    var tail, squeezed := " " + (d + (" " + (" " + (v + " ")))), " " + (d + (" " + (v + " ")));
    SqueezeTwo(d, v, " ", " ");
    SqueezeTwo(c, u, tail, squeezed);
    SqueezeWord(a, " " + (c + (" " + (" " + (u + tail)))));
  }

  lemma Nested(a: string, c: string, u: string, d: string, v: string)
    ensures (a + " " + (c + "  ") + u) + " " + (d + " ") + " " + (v + " ")
         == a + (" " + (c + (" " + (" " + (u + (" " + (d + (" " + (" " + (v + " "))))))))))
  {
  }

  lemma NothingToTrim(s: string)
    requires s != "" && !Blank(s[0]) && !Blank(s[|s| - 1])
    ensures Trim(s) == s
  {
  }

  /** A whole record gets its two rates, and one blank between any two fields. */
  lemma WholeRecordLine(t: TrafficRec, rates: string -> (string, string))
    requires Word(t.ip) && t.incoming >= 0 && t.outgoing >= 0
    requires rates(t.ip) == (Print(t.comeSpeed) + " ", Print(t.goSpeed) + " ")
    ensures InfoLine(Prefix(t.ip, t.incoming) + Print(t.outgoing), rates) == RecordLine(t)
  {
    var u := Print(t.outgoing);
    var line := Prefix(t.ip, t.incoming) + u;
    PrintIsWord(t.incoming);
    PrintIsWord(t.outgoing);
    PrintIsWord(t.comeSpeed);
    PrintIsWord(t.goSpeed);
    assert line[0] == t.ip[0] && line[|line| - 1] == u[|u| - 1];
    NothingToTrim(line);
    WordsOfRecord(t.ip, t.incoming, u);
    assert line == t.ip + " " + (Print(t.incoming) + "  ") + u;
    Nested(t.ip, Print(t.incoming), u, Print(t.comeSpeed), Print(t.goSpeed));
    SqueezeRecord(t.ip, Print(t.incoming), u, Print(t.comeSpeed), Print(t.goSpeed));
  }

  // ----- Reading the file -----

  lemma SplitRecord(a: string, c: string, u: string, d: string, v: string)
    requires Word(a) && Word(c) && Word(u) && Word(d) && Word(v)
    ensures Split(a + (" " + (c + (" " + (u + (" " + (d + (" " + (v + (" " + "\n"))))))))), ' ')
         == [a, c, u, d, v, "\n"]
  {
    SplitLast("\n", ' ');
    SplitWord(v, "\n");
    SplitTwo(u, d, v + (" " + "\n"), [v, "\n"]);
    SplitTwo(a, c, u + (" " + (d + (" " + (v + (" " + "\n"))))), [u, d, v, "\n"]);
  }

  lemma RecordLineEnd(a: string, c: string, u: string, d: string, v: string)
    ensures (a + (" " + (c + (" " + (u + (" " + (d + (" " + (v + " "))))))))) + "\n"
         == a + (" " + (c + (" " + (u + (" " + (d + (" " + (v + (" " + "\n")))))))))
  {
  }

  lemma AtoiPrinted(n: int)
    ensures Atoi(Print(n)) == n
  {
    AtoiOfPrint(n, "");
    assert Print(n) + "" == Print(n);
  }

  /** The daemon reads a record as it was meant. */
  lemma RecordIsRead(t: TrafficRec)
    requires Word(t.ip) && |t.ip| <= 15
    ensures TrafficLine(RecordLine(t) + "\n") && TrafficOf(RecordLine(t) + "\n") == t
  {
    PrintIsWord(t.incoming);
    PrintIsWord(t.outgoing);
    PrintIsWord(t.comeSpeed);
    PrintIsWord(t.goSpeed);
    RecordLineEnd(t.ip, Print(t.incoming), Print(t.outgoing), Print(t.comeSpeed), Print(t.goSpeed));
    SplitRecord(t.ip, Print(t.incoming), Print(t.outgoing), Print(t.comeSpeed), Print(t.goSpeed));
    AtoiPrinted(t.incoming);
    AtoiPrinted(t.outgoing);
    AtoiPrinted(t.comeSpeed);
    AtoiPrinted(t.goSpeed);
  }

  /** A line with four fields has no last rate. */
  lemma ShortRecordIsRead(ip: string, incoming: int, outgoing: int, comeSpeed: int)
    requires Word(ip) && |ip| <= 15
    ensures var line := ip + (" " + (Print(incoming) + (" " + (Print(outgoing) + (" " + Print(comeSpeed))))));
            TrafficLine(line) && TrafficOf(line) == TrafficRec(ip, incoming, outgoing, 0, comeSpeed)
  {
    PrintIsWord(incoming);
    PrintIsWord(outgoing);
    PrintIsWord(comeSpeed);
    SplitLast(Print(comeSpeed), ' ');
    SplitWord(Print(outgoing), Print(comeSpeed));
    SplitTwo(ip, Print(incoming), Print(outgoing) + (" " + Print(comeSpeed)), [Print(outgoing), Print(comeSpeed)]);
    AtoiPrinted(incoming);
    AtoiPrinted(outgoing);
    AtoiPrinted(comeSpeed);
  }

  lemma RecordIsLine(t: TrafficRec)
    requires Word(t.ip)
    ensures '\n' !in RecordLine(t)
  {
    PrintIsWord(t.incoming);
    PrintIsWord(t.outgoing);
    PrintIsWord(t.comeSpeed);
    PrintIsWord(t.goSpeed);
  }

  lemma RecordThenMore(t: TrafficRec, more: string)
    requires Word(t.ip) && |t.ip| <= 15 && |RecordLine(t)| <= 1022
    requires TrafficText(more)
    ensures var file := (RecordLine(t) + "\n") + more;
            TrafficText(file) && Traffics(file) == [t] + Traffics(more)
  {
    var line := RecordLine(t) + "\n";
    RecordIsRead(t);
    RecordIsLine(t);
    assert line[..|line| - 1] == RecordLine(t);
    TakeLineOf(line, more, TRAFFIC_LINE);
  }

  /** What the counting rules and the rates say, in the order of the DOWNLOAD rules. */
  function RecordsOf(rules: seq<Rule>, chain: seq<Rule>, text: Rule -> string, down: string -> int, up: string -> int)
    : (r: seq<TrafficRec>)
  {
    if rules == [] then []
    else (if rules[0].Down? then [RecordOf(rules[0].addr, rules[0].count, chain, text, down, up)] else [])
         + RecordsOf(rules[1..], chain, text, down, up)
  }

  function RecordOf(a: string, count: nat, chain: seq<Rule>, text: Rule -> string,
                    down: string -> int, up: string -> int)
    : (r: TrafficRec)
  {
    var u := Uploads(chain, text, a);
    TrafficRec(a, count, if |u| == 1 then u[0] else 0, up(a), down(a))
  }

  /** If grep finds one UPLOAD rule and one rate of each kind for every DOWNLOAD rule, the daemon reads from the file
      exactly one record for each, with the counters of its two rules and its rates, in the order of the chain. */
  lemma {:induction false} FileIsRead(rules: seq<Rule>, chain: seq<Rule>, text: Rule -> string,
                                      rates: string -> (string, string), down: string -> int, up: string -> int)
    requires Addressed(rules) && OneRate(rules, rates, down, up)
    requires forall i :: 0 <= i < |rules| && rules[i].Down? ==>
               && |Uploads(chain, text, rules[i].addr)| == 1
               && |RecordLine(RecordOf(rules[i].addr, rules[i].count, chain, text, down, up))| <= 1022
    ensures var file := InfoText(TrafficLines(rules, chain, text), rates);
            TrafficText(file) && Traffics(file) == RecordsOf(rules, chain, text, down, up)
    decreases rules
  {
    if rules != [] {
      var r, more := rules[0], rules[1..];
      assert forall i :: 0 <= i < |more| ==> more[i] == rules[i + 1];
      FileIsRead(more, chain, text, rates, down, up);
      var lines := TrafficLines(more, chain, text);
      if r.Down? {
        var t := RecordOf(r.addr, r.count, chain, text, down, up);
        var line := Prefix(t.ip, t.incoming) + Print(t.outgoing);
        assert RecordLines(Prefix(r.addr, r.count), Uploads(chain, text, r.addr)) == [line];
        WholeRecordLine(t, rates);
        assert ([line] + lines)[1..] == lines;
        RecordThenMore(t, InfoText(lines, rates));
      } else {
        assert [] + lines == lines;
      }
    }
  }

  /** So it does for every paired chain in which grep finds no counted address in the line of another one. */
  lemma PairedFileIsRead(chain: seq<Rule>, text: Rule -> string, rates: string -> (string, string),
                         down: string -> int, up: string -> int)
    requires Paired(chain) && Addressed(chain) && ShowsOwn(chain, text) && Apart(chain, text)
    requires OneRate(chain, rates, down, up)
    requires forall i :: 0 <= i < |chain| && chain[i].Down? ==>
               |RecordLine(RecordOf(chain[i].addr, chain[i].count, chain, text, down, up))| <= 1022
    ensures var file := InfoText(TrafficLines(chain, chain, text), rates);
            TrafficText(file) && Traffics(file) == RecordsOf(chain, chain, text, down, up)
  {
    forall i | 0 <= i < |chain| && chain[i].Down? ensures |Uploads(chain, text, chain[i].addr)| == 1 {
      OneUpload(chain, text, i);
    }
    FileIsRead(chain, chain, text, rates, down, up);
  }
}
