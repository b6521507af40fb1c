/** JSON values, the way the daemon prints them, and a reference reader for RFC 8259 (sections 2 to 7),
    except for strings with escapes and the literal null. */
module Json {
  import opened Decimal
  import opened Seqs
  import opened Wrappers

  /** A number is mantissa times ten to the exponent. */
  datatype Value =
    | Str(s: string)
    | Num(mantissa: int, exponent: int)
    | Bool(b: bool)
    | Arr(elems: seq<Value>)
    | Obj(members: seq<Member>)

  datatype Member = Member(key: string, value: Value)

  // ----- Printing -----

  function Quoted(s: string): (r: string) {
    "\"" + s + "\""
  }

  function Field(key: string, text: string): (r: string) {
    Quoted(key) + (":" + text)
  }

  function Int(n: int): (v: Value) {
    Num(n, 0)
  }

  function RenderNumber(mantissa: int, exponent: int): (r: string) {
    Print(mantissa) + (if exponent == 0 then "" else "e" + Print(exponent))
  }

  /** No blanks, except one before the bracket that closes an array. */
  function Render(v: Value): (r: string)
    decreases v, 0
  {
    match v
    case Str(s) => Quoted(s)
    case Num(m, e) => RenderNumber(m, e)
    case Bool(b) => if b then "true" else "false"
    case Arr(es) => "[" + (if es == [] then "]" else RenderElems(es))
    case Obj(ms) => "{" + (if ms == [] then "}" else RenderMembers(ms))
  }

  function RenderElems(es: seq<Value>): (r: string)
    requires es != []
    decreases es, 0
  {
    Render(es[0]) + (if |es| == 1 then " ]" else "," + RenderElems(es[1..]))
  }

  function RenderMembers(ms: seq<Member>): (r: string)
    requires ms != []
    decreases ms, 0
  {
    Field(ms[0].key, Render(ms[0].value)) + (if |ms| == 1 then "}" else "," + RenderMembers(ms[1..]))
  }

  // ----- Reading -----

  predicate Ws(c: char) {
    c == ' ' || c == '\t' || c == '\n' || c == '\r'
  }

  function SkipWs(s: string): (r: string)
    ensures |r| <= |s|
  {
    if s != "" && Ws(s[0]) then SkipWs(s[1..]) else s
  }

  /** A character that may stand in a string as itself. */
  predicate Unescaped(c: char) {
    c as int >= 0x20 && c != '"' && c != '\\'
  }

  /** The end of the run of plain characters that starts s. */
  function PlainRun(s: string, i: nat := 0): (k: nat)
    requires i <= |s|
    ensures i <= k <= |s|
    decreases |s| - i
  {
    if i < |s| && Unescaped(s[i]) then PlainRun(s, i + 1) else i
  }

  /** A string, the opening quote included. */
  function ReadString(s: string): (r: Option<(string, string)>)
    ensures r.Some? ==> |r.value.1| < |s|
  {
    if s == "" || s[0] != '"' then None
    else
      var t := s[1..];
      var k := PlainRun(t);
      if k < |t| && t[k] == '"' then Some((t[..k], t[k + 1..])) else None
  }

  /** The integer part of a number: no superfluous zeros. */
  function ReadInteger(s: string): (r: Option<(string, string)>)
    ensures r.Some? ==> AllDigits(r.value.0) && |r.value.1| < |s|
  {
    var k := Run(s);
    if k == 0 || (k > 1 && s[0] == '0') then None else Some((s[..k], s[k..]))
  }

  /** The digits behind the point, none if there is no point. */
  function ReadFraction(s: string): (r: Option<(string, string)>)
    ensures r.Some? ==> AllDigits(r.value.0) && |r.value.1| <= |s|
  {
    if s == "" || s[0] != '.' then Some(("", s))
    else
      var t := s[1..];
      var k := Run(t);
      if k == 0 then None else Some((t[..k], t[k..]))
  }

  function ReadSigned(s: string): (r: Option<(int, string)>)
    ensures r.Some? ==> |r.value.1| <= |s|
  {
    var minus := s != "" && s[0] == '-';
    var t := if minus || (s != "" && s[0] == '+') then s[1..] else s;
    var k := Run(t);
    if k == 0 then None
    else Some((if minus then 0 - Decimal.Value(t[..k]) else Decimal.Value(t[..k]), t[k..]))
  }

  /** The exponent, zero if there is none. */
  function ReadExponent(s: string): (r: Option<(int, string)>)
    ensures r.Some? ==> |r.value.1| <= |s|
  {
    if s == "" || s[0] !in {'e', 'E'} then Some((0, s)) else ReadSigned(s[1..])
  }

  function Pow10(n: nat): (r: nat) {
    if n == 0 then 1 else 10 * Pow10(n - 1)
  }

  /** The mantissa of a number with these digits before and behind the point. */
  function Mantissa(whole: string, fraction: string): (m: nat)
    requires AllDigits(whole) && AllDigits(fraction)
  {
    Decimal.Value(whole) * Pow10(|fraction|) + Decimal.Value(fraction)
  }

  function ReadUnsigned(s: string): (r: Option<((nat, int), string)>)
    ensures r.Some? ==> |r.value.1| < |s|
  {
    match ReadInteger(s)
    case None => None
    case Some((whole, s1)) =>
      match ReadFraction(s1)
      case None => None
      case Some((fraction, s2)) =>
        match ReadExponent(s2)
        case None => None
        case Some((e, s3)) => Some(((Mantissa(whole, fraction), e - |fraction|), s3))
  }

  function ReadNumber(s: string): (r: Option<(Value, string)>)
    ensures r.Some? ==> |r.value.1| < |s|
  {
    var neg := s != "" && s[0] == '-';
    match ReadUnsigned(if neg then s[1..] else s)
    case None => None
    case Some(((m, e), rest)) => Some((Num(if neg then 0 - m else m, e), rest))
  }

  function ReadLiteral(s: string): (r: Option<(bool, string)>)
    ensures r.Some? ==> |r.value.1| < |s|
  {
    if "true" <= s then Some((true, s[4..])) else if "false" <= s then Some((false, s[5..])) else None
  }

  function ReadValue(text: string): (r: Option<(Value, string)>)
    ensures r.Some? ==> |r.value.1| < |text|
    decreases |text|, 0
  {
    var s := SkipWs(text);
    if s == "" then None
    else if s[0] == '"' then
      match ReadString(s)
      case None => None
      case Some((x, rest)) => Some((Str(x), rest))
    else if s[0] == '[' then
      var t := SkipWs(s[1..]);
      if t != "" && t[0] == ']' then Some((Arr([]), t[1..]))
      else match ReadElems(s[1..])
           case None => None
           case Some((es, rest)) => Some((Arr(es), rest))
    else if s[0] == '{' then
      var t := SkipWs(s[1..]);
      if t != "" && t[0] == '}' then Some((Obj([]), t[1..]))
      else match ReadMembers(s[1..])
           case None => None
           case Some((ms, rest)) => Some((Obj(ms), rest))
    else if s[0] == 't' || s[0] == 'f' then
      match ReadLiteral(s)
      case None => None
      case Some((b, rest)) => Some((Bool(b), rest))
    else
      ReadNumber(s)
  }

  /** One or more elements and the closing bracket. */
  function ReadElems(s: string): (r: Option<(seq<Value>, string)>)
    ensures r.Some? ==> |r.value.1| < |s|
    decreases |s|, 1
  {
    match ReadValue(s)
    case None => None
    case Some((v, rest)) =>
      var t := SkipWs(rest);
      if t == "" then None
      else if t[0] == ']' then Some(([v], t[1..]))
      else if t[0] == ',' then
        match ReadElems(t[1..])
        case None => None
        case Some((vs, end)) => Some(([v] + vs, end))
      else None
  }

  function ReadMember(s: string): (r: Option<(Member, string)>)
    ensures r.Some? ==> |r.value.1| < |s|
    decreases |s|, 1
  {
    match ReadString(SkipWs(s))
    case None => None
    case Some((key, rest)) =>
      var t := SkipWs(rest);
      if t == "" || t[0] != ':' then None
      else match ReadValue(t[1..])
           case None => None
           case Some((v, end)) => Some((Member(key, v), end))
  }

  /** One or more members and the closing brace. */
  function ReadMembers(s: string): (r: Option<(seq<Member>, string)>)
    ensures r.Some? ==> |r.value.1| < |s|
    decreases |s|, 2
  {
    match ReadMember(s)
    case None => None
    case Some((m, rest)) =>
      var t := SkipWs(rest);
      if t == "" then None
      else if t[0] == '}' then Some(([m], t[1..]))
      else if t[0] == ',' then
        match ReadMembers(t[1..])
        case None => None
        case Some((ms, end)) => Some(([m] + ms, end))
      else None
  }

  // ----- Reading inverts printing -----

  predicate PlainText(s: string) {
    forall i :: 0 <= i < |s| ==> Unescaped(s[i])
  }

  /** All strings and keys can be printed without escapes. */
  predicate Plain(v: Value)
    decreases v
  {
    match v
    case Str(s) => PlainText(s)
    case Num(_, _) => true
    case Bool(_) => true
    case Arr(es) => forall e :: e in es ==> Plain(e)
    case Obj(ms) => forall m :: m in ms ==> PlainText(m.key) && Plain(m.value)
  }

  /** What may follow a value: nothing that would continue a number. */
  predicate Delimited(rest: string) {
    rest == "" || rest[0] in {',', ' ', ']', '}'}
  }

  lemma {:induction false} PlainRunIs(s: string, i: nat, k: nat)
    requires i <= k < |s| && (forall j :: i <= j < k ==> Unescaped(s[j])) && !Unescaped(s[k])
    ensures PlainRun(s, i) == k
    decreases k - i
  {
    if i < k {
      PlainRunIs(s, i + 1, k);
    }
  }

  lemma ReadQuoted(x: string, rest: string)
    requires PlainText(x)
    ensures ReadString(Quoted(x) + rest) == Some((x, rest))
  {
    var s := Quoted(x) + rest;
    var t := s[1..];
    assert t == x + "\"" + rest;
    assert forall j :: 0 <= j < |x| ==> t[j] == x[j];
    PlainRunIs(t, 0, |x|);
    assert t[..|x|] == x && t[|x| + 1..] == rest;
  }

  lemma RunThen(d: string, rest: string)
    requires AllDigits(d) && !StartsNumber(rest)
    ensures Run(d + rest) == |d| && (d + rest)[..|d|] == d && (d + rest)[|d|..] == rest
  {
    var s := d + rest;
    assert forall j :: 0 <= j < |d| ==> s[j] == d[j];
    RunIs(s, 0, |d|);
  }

  lemma IntegerThen(n: nat, rest: string)
    requires !StartsNumber(rest)
    ensures ReadInteger(Digits(n) + rest) == Some((Digits(n), rest))
  {
    RunThen(Digits(n), rest);
    assert (Digits(n) + rest)[0] == Digits(n)[0];
  }

  lemma FractionThen(d: string, rest: string)
    requires AllDigits(d) && d != "" && !StartsNumber(rest)
    ensures ReadFraction("." + (d + rest)) == Some((d, rest))
  {
    RunThen(d, rest);
    assert ("." + (d + rest))[1..] == d + rest;
  }

  lemma SignedThen(e: int, rest: string)
    requires !StartsNumber(rest)
    ensures ReadSigned(Print(e) + rest) == Some((e, rest))
  {
    var d := Digits(if e < 0 then -e else e);
    RunThen(d, rest);
    ValueOfDigits(if e < 0 then -e else e);
    if e < 0 {
      Assoc("-", d, rest);
      assert ("-" + (d + rest))[1..] == d + rest;
    } else {
      assert (d + rest)[0] == d[0];
    }
  }

  /** What a rendered number has behind its digits. */
  function Tail(e: int, rest: string): (r: string) {
    if e == 0 then rest else "e" + (Print(e) + rest)
  }

  lemma TailThen(e: int, rest: string)
    requires Delimited(rest)
    ensures !StartsNumber(Tail(e, rest)) && ReadFraction(Tail(e, rest)) == Some(("", Tail(e, rest)))
    ensures ReadExponent(Tail(e, rest)) == Some((e, rest))
  {
    if e != 0 {
      SignedThen(e, rest);
      assert ("e" + (Print(e) + rest))[1..] == Print(e) + rest;
    }
  }

  /** The three parts of a number, put together. */
  lemma UnsignedParts(s: string, whole: string, s1: string, fraction: string, s2: string, e: int, s3: string,
                      m: nat, x: int)
    requires ReadInteger(s) == Some((whole, s1))
    requires ReadFraction(s1) == Some((fraction, s2))
    requires ReadExponent(s2) == Some((e, s3))
    requires AllDigits(whole) && AllDigits(fraction) && m == Mantissa(whole, fraction) && x == e - |fraction|
    ensures ReadUnsigned(s) == Some(((m, x), s3))
  {
  }

  /** A rendered number without its sign. */
  lemma UnsignedThen(n: nat, e: int, rest: string)
    requires Delimited(rest)
    ensures ReadUnsigned(Digits(n) + Tail(e, rest)) == Some(((n, e), rest))
  {
    var d, tail := Digits(n), Tail(e, rest);
    TailThen(e, rest);
    IntegerThen(n, tail);
    ValueOfDigits(n);
    assert Mantissa(d, "") == n;
    UnsignedParts(d + tail, d, tail, "", tail, e, rest, n, e);
  }

  /** The sign of a number. */
  lemma SignThen(t: string, neg: bool, m: nat, e: int, rest: string)
    requires ReadUnsigned(t) == Some(((m, e), rest)) && t != "" && t[0] != '-'
    ensures ReadNumber(if neg then "-" + t else t) == Some((Num(if neg then 0 - m else m, e), rest))
  {
    assert ("-" + t)[1..] == t;
  }

  lemma StartsWithDigit(n: nat, rest: string)
    ensures var t := Digits(n) + rest; t != "" && t[0] == Digits(n)[0] && t[0] != '-'
  {
  }

  lemma RenderedNumberIs(m: int, e: int, rest: string)
    ensures RenderNumber(m, e) + rest == Print(m) + Tail(e, rest)
  {
    if e == 0 {
      assert Print(m) + "" == Print(m);
    } else {
      Assoc(Print(m), "e" + Print(e), rest);
      Assoc("e", Print(e), rest);
    }
  }

  /** Reading a rendered number gives its mantissa and its exponent. */
  lemma ReadRenderedNumber(m: int, e: int, rest: string)
    requires Delimited(rest)
    ensures ReadNumber(RenderNumber(m, e) + rest) == Some((Num(m, e), rest))
  {
    RenderedNumberIs(m, e, rest);
    var n := if m < 0 then -m else m;
    UnsignedThen(n, e, rest);
    StartsWithDigit(n, Tail(e, rest));
    SignThen(Digits(n) + Tail(e, rest), m < 0, n, e, rest);
    Assoc("-", Digits(n), Tail(e, rest));
  }

  lemma NoExponent(rest: string)
    requires Delimited(rest)
    ensures ReadExponent(rest) == Some((0, rest))
  {
  }

  lemma MantissaOf(n: nat, fraction: string)
    requires AllDigits(fraction)
    ensures Mantissa(Digits(n), fraction) == n * Pow10(|fraction|) + Decimal.Value(fraction)
  {
    ValueOfDigits(n);
  }

  /** A number with a fraction, such as the load 0.15. */
  lemma ReadDecimal(n: nat, fraction: string, rest: string)
    requires Delimited(rest) && fraction != "" && AllDigits(fraction)
    ensures ReadNumber(Digits(n) + ("." + (fraction + rest)))
         == Some((Num(n * Pow10(|fraction|) + Decimal.Value(fraction), 0 - |fraction|), rest))
  {
    var tail := "." + (fraction + rest);
    FractionThen(fraction, rest);
    IntegerThen(n, tail);
    NoExponent(rest);
    MantissaOf(n, fraction);
    StartsWithDigit(n, tail);
    DecimalThen(Digits(n) + tail, Digits(n), tail, fraction, rest,
                n * Pow10(|fraction|) + Decimal.Value(fraction));
  }

  /** A number that has an integer part and a fraction, and no sign and no exponent. */
  lemma DecimalThen(s: string, d: string, tail: string, fraction: string, rest: string, m: nat)
    requires ReadInteger(s) == Some((d, tail))
    requires ReadFraction(tail) == Some((fraction, rest))
    requires ReadExponent(rest) == Some((0, rest))
    requires AllDigits(d) && AllDigits(fraction) && m == Mantissa(d, fraction)
    requires s != "" && s[0] != '-'
    ensures ReadNumber(s) == Some((Num(m, 0 - |fraction|), rest))
  {
    UnsignedParts(s, d, tail, fraction, rest, 0, rest, m, 0 - |fraction|);
    SignThen(s, false, m, 0 - |fraction|, rest);
  }

  /** The first character of a printed value tells its kind. */
  lemma RenderStart(v: Value)
    ensures var r := Render(v);
            && r != "" && !Ws(r[0]) && r[0] != ']' && r[0] != '}'
            && (v.Str? <==> r[0] == '"') && (v.Arr? <==> r[0] == '[') && (v.Obj? <==> r[0] == '{')
            && (v.Bool? <==> r[0] == 't' || r[0] == 'f')
  {
  }

  lemma NoSkip(a: string, rest: string)
    requires a != "" && !Ws(a[0])
    ensures SkipWs(a + rest) == a + rest && (a + rest)[0] == a[0]
  {
  }

  lemma ReadRenderedBool(b: bool, rest: string)
    ensures ReadValue(Render(Bool(b)) + rest) == Some((Bool(b), rest))
  {
    var s := Render(Bool(b)) + rest;
    RenderStart(Bool(b));
    NoSkip(Render(Bool(b)), rest);
    if b {
      assert s[..4] == "true" && s[4..] == rest;
    } else {
      assert s[..5] == "false" && s[5..] == rest;
    }
  }

  /** The reader recovers every value from its printed text, and leaves what follows it. */
  lemma {:induction false} ReadRendered(v: Value, rest: string)
    requires Plain(v) && Delimited(rest)
    ensures ReadValue(Render(v) + rest) == Some((v, rest))
    decreases v, 1
  {
    RenderStart(v);
    NoSkip(Render(v), rest);
    match v
    case Str(x) => ReadQuoted(x, rest);
    case Num(m, e) => ReadRenderedNumber(m, e, rest);
    case Bool(b) => ReadRenderedBool(b, rest);
    case Arr(es) => ReadRenderedArray(es, rest);
    case Obj(ms) => ReadRenderedObject(ms, rest);
  }

  lemma {:induction false} ReadRenderedArray(es: seq<Value>, rest: string)
    requires Plain(Arr(es)) && Delimited(rest)
    ensures ReadValue(Render(Arr(es)) + rest) == Some((Arr(es), rest))
    decreases es, 1
  {
    NoSkip(Render(Arr(es)), rest);
    var s := Render(Arr(es)) + rest;
    if es == [] {
      assert s[1..] == "]" + rest;
      NoSkip("]", rest);
      assert ("]" + rest)[1..] == rest;
    } else {
      var inner := RenderElems(es);
      assert s[1..] == inner + rest;
      RenderStart(es[0]);
      assert inner[0] == Render(es[0])[0];
      NoSkip(inner, rest);
      ReadRenderedElems(es, rest);
    }
  }

  lemma {:induction false} ReadRenderedElems(es: seq<Value>, rest: string)
    requires es != [] && (forall e :: e in es ==> Plain(e)) && Delimited(rest)
    ensures ReadElems(RenderElems(es) + rest) == Some((es, rest))
    decreases es, 0
  {
    var first := Render(es[0]);
    assert es[0] in es;
    if |es| == 1 {
      Assoc(first, " ]", rest);
      ReadRendered(es[0], " ]" + rest);
      SkipBeforeBracket(rest);
      assert es == [es[0]];
    } else {
      var others := RenderElems(es[1..]);
      Assoc(first, "," + others, rest);
      Assoc(",", others, rest);
      ReadRenderedElems(es[1..], rest);
      ReadElemThen(es[0], others + rest);
      assert es == [es[0]] + es[1..];
    }
  }

  /** A printed element, a comma, and more elements. */
  lemma ReadElemThen(v: Value, more: string)
    requires Plain(v) && ReadElems(more).Some?
    ensures ReadElems(Render(v) + ("," + more)) == Some(([v] + ReadElems(more).value.0, ReadElems(more).value.1))
    decreases v, 2
  {
    ReadRendered(v, "," + more);
    BehindElem(Render(v) + ("," + more), v, more);
  }

  /** How the reader goes on behind an element that a comma follows. */
  lemma BehindElem(s: string, v: Value, more: string)
    requires ReadValue(s) == Some((v, "," + more)) && ReadElems(more).Some?
    ensures ReadElems(s) == Some(([v] + ReadElems(more).value.0, ReadElems(more).value.1))
  {
    NoSkip(",", more);
    assert ("," + more)[1..] == more;
  }

  lemma SkipBeforeBracket(rest: string)
    ensures SkipWs(" ]" + rest) == "]" + rest && ("]" + rest)[1..] == rest
  {
    assert (" ]" + rest)[1..] == "]" + rest;
    NoSkip("]", rest);
  }

  /** How the reader takes an object that has members. */
  lemma OpenBrace(inner: string, ms: seq<Member>, rest: string)
    requires inner != "" && inner[0] == '"' && ReadMembers(inner) == Some((ms, rest))
    ensures ReadValue("{" + inner) == Some((Obj(ms), rest))
  {
    NoSkip("{", inner);
    assert ("{" + inner)[1..] == inner;
    NoSkip(inner, "");
    assert inner + "" == inner;
  }

  // ----- Reading text that is not rendered -----

  /** What follows a member inside an object. */
  predicate Follows(rest: string) {
    rest != "" && (rest[0] == ',' || rest[0] == '}')
  }

  /** The reader takes the text for the value, whatever follows it, up to white space behind it. */
  ghost predicate ReadsValue(text: string, v: Value) {
    forall rest {:trigger ReadValue(text + rest)} :: Follows(rest) ==>
      var r := ReadValue(text + rest); r.Some? && r.value.0 == v && SkipWs(r.value.1) == rest
  }

  ghost predicate ReadsMember(text: string, m: Member) {
    forall rest {:trigger ReadMember(text + rest)} :: Follows(rest) ==>
      var r := ReadMember(text + rest); r.Some? && r.value.0 == m && SkipWs(r.value.1) == rest
  }

  /** One or more members and the closing brace. */
  function JoinMembers(texts: seq<string>): (r: string)
    requires texts != []
  {
    texts[0] + (if |texts| == 1 then "}" else "," + JoinMembers(texts[1..]))
  }

  lemma FollowsIsSkipped(rest: string)
    requires Follows(rest)
    ensures SkipWs(rest) == rest && Delimited(rest)
  {
  }

  lemma {:induction false} ReadRenderedObject(ms: seq<Member>, rest: string)
    requires Plain(Obj(ms)) && Delimited(rest)
    ensures ReadValue(Render(Obj(ms)) + rest) == Some((Obj(ms), rest))
    decreases ms, 1
  {
    if ms == [] {
      ReadEmptyObject(rest);
    } else {
      var texts := FieldTexts(ms);
      RenderedIsJoined(ms);
      forall i | 0 <= i < |ms| ensures ReadsMember(texts[i], ms[i]) {
        assert ms[i] in ms;
        RenderedReads(ms[i].value);
        FieldReads(ms[i].key, Render(ms[i].value), ms[i].value);
      }
      FieldStart(ms[0]);
      ReadObject(texts, ms, rest);
    }
  }

  lemma FieldStart(m: Member)
    ensures var t := Field(m.key, Render(m.value)); t != "" && t[0] == '"'
  {
  }

  lemma ReadEmptyObject(rest: string)
    ensures ReadValue("{" + "}" + rest) == Some((Obj([]), rest))
  {
    Assoc("{", "}", rest);
    NoSkip("{", "}" + rest);
    NoSkip("}", rest);
    assert ("{" + ("}" + rest))[1..] == "}" + rest && ("}" + rest)[1..] == rest;
  }

  /** Rendered values are read whatever follows them. */
  lemma {:induction false} RenderedReads(v: Value)
    requires Plain(v)
    ensures ReadsValue(Render(v), v)
    decreases v, 2
  {
    forall rest | Follows(rest)
      ensures ReadValue(Render(v) + rest) == Some((v, rest)) && SkipWs(rest) == rest
    {
      FollowsIsSkipped(rest);
      ReadRendered(v, rest);
    }
  }

  /** A field is read if its value is. */
  lemma FieldReads(key: string, text: string, v: Value)
    requires PlainText(key) && ReadsValue(text, v)
    ensures ReadsMember(Field(key, text), Member(key, v))
  {
    forall rest | Follows(rest)
      ensures var r := ReadMember(Field(key, text) + rest);
              r.Some? && r.value.0 == Member(key, v) && SkipWs(r.value.1) == rest
    {
      FieldThen(key, text + rest);
      Assoc(Quoted(key), ":" + text, rest);
      Assoc(":", text, rest);
    }
  }

  lemma FieldThen(key: string, s: string)
    requires PlainText(key) && ReadValue(s).Some?
    ensures ReadMember(Quoted(key) + (":" + s))
         == Some((Member(key, ReadValue(s).value.0), ReadValue(s).value.1))
  {
    NoSkip(Quoted(key), ":" + s);
    ReadQuoted(key, ":" + s);
    NoSkip(":", s);
    assert (":" + s)[1..] == s;
  }

  /** A member, and the closing brace or a comma and more members behind it. */
  lemma MemberThen(s: string, m: Member, next: string, rest: string)
    requires ReadMember(s).Some? && ReadMember(s).value.0 == m && SkipWs(ReadMember(s).value.1) == next
    requires next == "}" + rest || (next == "," + rest && ReadMembers(rest).Some?)
    ensures ReadMembers(s) == if next == "}" + rest then Some(([m], rest))
                              else Some(([m] + ReadMembers(rest).value.0, ReadMembers(rest).value.1))
  {
    assert ("}" + rest)[1..] == rest && ("," + rest)[1..] == rest;
  }

  lemma JoinedText(texts: seq<string>, rest: string)
    requires texts != []
    ensures JoinMembers(texts) + rest
         == texts[0] + (if |texts| == 1 then "}" + rest else "," + (JoinMembers(texts[1..]) + rest))
  {
    if |texts| == 1 {
      Assoc(texts[0], "}", rest);
    } else {
      Assoc(texts[0], "," + JoinMembers(texts[1..]), rest);
      Assoc(",", JoinMembers(texts[1..]), rest);
    }
  }

  /** If every text is read as its member, the joined texts are read as the members. */
  lemma {:induction false} ReadJoined(texts: seq<string>, ms: seq<Member>, rest: string)
    requires |texts| == |ms| > 0 && forall i :: 0 <= i < |ms| ==> ReadsMember(texts[i], ms[i])
    ensures ReadMembers(JoinMembers(texts) + rest) == Some((ms, rest))
    decreases texts
  {
    JoinedText(texts, rest);
    if |ms| == 1 {
      ReadsThen(texts[0], ms[0], "}" + rest, rest);
      assert ms == [ms[0]];
    } else {
      var more := JoinMembers(texts[1..]) + rest;
      ReadJoined(texts[1..], ms[1..], rest);
      ReadsThen(texts[0], ms[0], "," + more, more);
      assert ms == [ms[0]] + ms[1..];
    }
  }

  lemma ReadsThen(text: string, m: Member, next: string, rest: string)
    requires ReadsMember(text, m)
    requires next == "}" + rest || (next == "," + rest && ReadMembers(rest).Some?)
    ensures ReadMembers(text + next) == if next == "}" + rest then Some(([m], rest))
                                        else Some(([m] + ReadMembers(rest).value.0, ReadMembers(rest).value.1))
  {
    assert Follows(next);
    MemberThen(text + next, m, next, rest);
  }

  /** An object whose texts are read as its members is read, whatever follows it. */
  lemma ReadObject(texts: seq<string>, ms: seq<Member>, rest: string)
    requires |texts| == |ms| > 0 && forall i :: 0 <= i < |ms| ==> ReadsMember(texts[i], ms[i])
    requires texts[0] != "" && texts[0][0] == '"'
    ensures ReadValue("{" + JoinMembers(texts) + rest) == Some((Obj(ms), rest))
  {
    Assoc("{", JoinMembers(texts), rest);
    ReadJoined(texts, ms, rest);
    OpenBrace(JoinMembers(texts) + rest, ms, rest);
  }

  lemma ObjectReads(texts: seq<string>, ms: seq<Member>)
    requires |texts| == |ms| > 0 && forall i :: 0 <= i < |ms| ==> ReadsMember(texts[i], ms[i])
    requires texts[0] != "" && texts[0][0] == '"'
    ensures ReadsValue("{" + JoinMembers(texts), Obj(ms))
  {
    forall rest | Follows(rest)
      ensures ReadValue("{" + JoinMembers(texts) + rest) == Some((Obj(ms), rest)) && SkipWs(rest) == rest
    {
      ReadObject(texts, ms, rest);
      FollowsIsSkipped(rest);
    }
  }

  // ----- Rendered members are joined fields -----

  function FieldTexts(ms: seq<Member>): (r: seq<string>) {
    seq(|ms|, i requires 0 <= i < |ms| => Field(ms[i].key, Render(ms[i].value)))
  }

  lemma {:induction false} RenderedIsJoined(ms: seq<Member>)
    requires ms != []
    ensures RenderMembers(ms) == JoinMembers(FieldTexts(ms))
    decreases ms
  {
    if |ms| > 1 {
      RenderedIsJoined(ms[1..]);
      assert FieldTexts(ms)[1..] == FieldTexts(ms[1..]);
    }
  }

  lemma RenderInt(n: int)
    ensures Render(Int(n)) == Print(n)
  {
    assert Print(n) + "" == Print(n);
  }

  // ----- Looking things up -----

  /** The value of the first member of an object with this key. */
  function Get(v: Value, key: string): (r: Option<Value>) {
    if v.Obj? then FirstWith(v.members, key) else None
  }

  function FirstWith(ms: seq<Member>, key: string): (r: Option<Value>) {
    if ms == [] then None
    else if ms[0].key == key then Some(ms[0].value)
    else FirstWith(ms[1..], key)
  }

  lemma {:induction false} FirstWithIs(ms: seq<Member>, key: string, k: nat)
    requires k < |ms| && ms[k].key == key && forall j :: 0 <= j < k ==> ms[j].key != key
    ensures FirstWith(ms, key) == Some(ms[k].value)
  {
    if k > 0 {
      FirstWithIs(ms[1..], key, k - 1);
    }
  }

  lemma {:induction false} FirstWithNone(ms: seq<Member>, key: string)
    requires forall j :: 0 <= j < |ms| ==> ms[j].key != key
    ensures FirstWith(ms, key) == None
  {
    if ms != [] {
      FirstWithNone(ms[1..], key);
    }
  }
}
