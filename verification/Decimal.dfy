/** Decimal numbers as printf writes them and atoi reads them. */
module Decimal {
  import opened Wrappers

  predicate IsDigit(c: char) {
    '0' <= c <= '9'
  }

  predicate AllDigits(s: string) {
    forall i :: 0 <= i < |s| ==> IsDigit(s[i])
  }

  function Digit(d: nat): (r: char)
    requires d < 10
  {
    ('0' as int + d) as char
  }

  function Digits(n: nat): (r: string)
    ensures |r| > 0 && AllDigits(r)
    ensures r[0] == '0' ==> n == 0 && |r| == 1
  {
    if n < 10 then [Digit(n)] else Digits(n / 10) + [Digit(n % 10)]
  }

  /** %d and %lld. */
  function Print(i: int): (r: string)
    ensures |r| > 0 && (IsDigit(r[0]) || r[0] == '-')
  {
    if i < 0 then "-" + Digits(-i) else Digits(i)
  }

  function Value(s: string): (r: nat)
    requires AllDigits(s)
  {
    if s == [] then 0 else 10 * Value(s[..|s| - 1]) + (s[|s| - 1] as int - '0' as int)
  }

  lemma {:induction false} ValueOfDigits(n: nat)
    ensures Value(Digits(n)) == n
  {
    if n < 10 {
      assert Digits(n)[..0] == [];
    } else {
      ValueOfDigits(n / 10);
      assert Digits(n)[..|Digits(n)| - 1] == Digits(n / 10);
    }
  }

  /** The length of the run of digits that starts s. */
  function Run(s: string, i: nat := 0): (k: nat)
    requires i <= |s|
    ensures i <= k <= |s|
    ensures AllDigits(s[i..k])
    ensures k < |s| ==> !IsDigit(s[k])
    decreases |s| - i
  {
    if i < |s| && IsDigit(s[i]) then Run(s, i + 1) else i
  }

  predicate StartsNumber(s: string) {
    s != [] && IsDigit(s[0])
  }

  lemma {:induction false} RunIs(s: string, i: nat, k: nat)
    requires i <= k <= |s|
    requires forall j :: i <= j < k ==> IsDigit(s[j])
    requires k < |s| ==> !IsDigit(s[k])
    ensures Run(s, i) == k
    decreases k - i
  {
    if i < k {
      RunIs(s, i + 1, k);
    }
  }

  predicate Space(c: char) {
    c == ' ' || '\t' <= c <= '\r'
  }

  /** The value of the digits at the start of s, zero if there are none. */
  function Leading(s: string): (r: nat) {
    Value(s[..Run(s)])
  }

  /** atoi, for numbers that fit its result type. */
  function Atoi(s: string): (r: int)
    decreases |s|
  {
    if s == [] then 0
    else if Space(s[0]) then Atoi(s[1..])
    else if s[0] == '-' then 0 - Leading(s[1..])
    else if s[0] == '+' then Leading(s[1..])
    else Leading(s)
  }

  /** sscanf with %d: None if there is no number. */
  function ScanInt(s: string): (r: Option<int>)
    decreases |s|
  {
    if s == [] then None
    else if Space(s[0]) then ScanInt(s[1..])
    else if s[0] == '-' then if StartsNumber(s[1..]) then Some(0 - Leading(s[1..])) else None
    else if s[0] == '+' then if StartsNumber(s[1..]) then Some(Leading(s[1..])) else None
    else if StartsNumber(s) then Some(Leading(s)) else None
  }

  lemma LeadingOfDigits(n: nat, rest: string)
    requires !StartsNumber(rest)
    ensures Run(Digits(n) + rest) == |Digits(n)|
    ensures Leading(Digits(n) + rest) == n
  {
    var d := Digits(n);
    var s := d + rest;
    assert forall j :: 0 <= j < |d| ==> s[j] == d[j];
    RunIs(s, 0, |d|);
    assert s[..|d|] == d;
    ValueOfDigits(n);
  }

  lemma AtoiOfDigits(n: nat, rest: string)
    requires !StartsNumber(rest)
    ensures Atoi(Digits(n) + rest) == n
  {
    var s := Digits(n) + rest;
    assert s[0] == Digits(n)[0] && !Space(s[0]);
    LeadingOfDigits(n, rest);
  }

  /** atoi inverts printf, whatever text follows, as long as it does not go on with a digit. */
  lemma AtoiOfPrint(i: int, rest: string)
    requires !StartsNumber(rest)
    ensures Atoi(Print(i) + rest) == i
  {
    if i < 0 {
      var s := "-" + Digits(-i) + rest;
      assert s[1..] == Digits(-i) + rest && s[0] == '-';
      LeadingOfDigits(-i, rest);
      assert Print(i) + rest == s;
    } else {
      AtoiOfDigits(i, rest);
    }
  }

  lemma PrintIsDecimal()
    ensures Print(1234567890) == "1234567890" && Print(0) == "0" && Print(-42) == "-42"
  {
    assert Digits(1) == "1" && Digits(12) == "12" && Digits(123) == "123" && Digits(1234) == "1234";
    assert Digits(12345) == "12345" && Digits(123456) == "123456" && Digits(1234567) == "1234567";
    assert Digits(12345678) == "12345678" && Digits(123456789) == "123456789";
    assert Digits(4) == "4";
  }

  predicate AllSpaces(s: string) {
    forall i :: 0 <= i < |s| ==> s[i] == ' ' || '\t' <= s[i] <= '\r'
  }

  lemma {:induction false} SpacesAreSkipped(lead: string, s: string)
    requires AllSpaces(lead)
    ensures Atoi(lead + s) == Atoi(s) && ScanInt(lead + s) == ScanInt(s)
  {
    if lead == "" {
      assert lead + s == s;
    } else {
      assert (lead + s)[1..] == lead[1..] + s;
      SpacesAreSkipped(lead[1..], s);
    }
  }

  lemma DigitsStart(n: nat, rest: string)
    ensures StartsNumber(Digits(n) + rest)
  {
    assert (Digits(n) + rest)[0] == Digits(n)[0];
  }

  lemma ScanUnsigned(s: string)
    requires StartsNumber(s)
    ensures ScanInt(s) == Some(Leading(s))
  {
  }

  lemma ScanOfPrint(i: int, rest: string)
    requires !StartsNumber(rest)
    ensures ScanInt(Print(i) + rest) == Some(i)
  {
    var n := if i < 0 then -i else i;
    var digits := Digits(n) + rest;
    DigitsStart(n, rest);
    LeadingOfDigits(n, rest);
    if i < 0 {
      ScanSigned("-" + digits, '-', digits);
      assert Print(i) + rest == "-" + digits;
    } else {
      ScanUnsigned(digits);
    }
  }

  lemma ScanSigned(s: string, sign: char, digits: string)
    requires s == [sign] + digits && (sign == '-' || sign == '+') && StartsNumber(digits)
    ensures ScanInt(s) == Some(if sign == '-' then 0 - Leading(digits) else Leading(digits))
  {
    assert s[1..] == digits;
  }

  lemma PlusIsSkipped(n: nat, rest: string)
    requires !StartsNumber(rest)
    ensures var s := "+" + (Digits(n) + rest); Atoi(s) == n && ScanInt(s) == Some(n)
  {
    var s := "+" + (Digits(n) + rest);
    assert s[1..] == Digits(n) + rest && s[1] == Digits(n)[0];
    LeadingOfDigits(n, rest);
  }

  /** atoi and sscanf read a number behind blanks, and take what does not start with one for zero and for nothing. */
  lemma NumberIsRead(lead: string, i: int, rest: string)
    requires AllSpaces(lead) && !StartsNumber(rest)
    ensures Atoi(lead + (Print(i) + rest)) == i && ScanInt(lead + (Print(i) + rest)) == Some(i)
    ensures i >= 0 ==> var s := lead + ("+" + (Print(i) + rest)); Atoi(s) == i && ScanInt(s) == Some(i)
    ensures rest == "" || (!Space(rest[0]) && rest[0] != '-' && rest[0] != '+') ==>
              Atoi(lead + rest) == 0 && ScanInt(lead + rest) == None
  {
    SpacesAreSkipped(lead, Print(i) + rest);
    AtoiOfPrint(i, rest);
    ScanOfPrint(i, rest);
    if i >= 0 {
      SpacesAreSkipped(lead, "+" + (Print(i) + rest));
      PlusIsSkipped(i, rest);
    }
    SpacesAreSkipped(lead, rest);
    NothingLeads(rest);
  }

  lemma NothingLeads(s: string)
    requires !StartsNumber(s)
    ensures Leading(s) == 0
  {
    assert s[..0] == [];
  }
}
