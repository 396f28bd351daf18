// Case numbers as they are printed: a fixed lead, the first four characters of the
// organisation's id in upper case, and a zero-padded decimal counter.
module CaseNumbers {

  type OrgId = string

  function UpperChar(c: char): char {
    if 'a' <= c <= 'z' then (c as int - 32) as char else c
  }

  function Upper(s: string): (r: string)
    ensures |r| == |s|
  {
    if s == "" then "" else [UpperChar(s[0])] + Upper(s[1..])
  }

  function Tag(org: OrgId): string {
    Upper(if |org| <= 4 then org else org[..4])
  }

  predicate IsDigit(c: char) { '0' <= c <= '9' }

  function DigitChar(d: nat): (c: char)
    requires d < 10
    ensures IsDigit(c) && DigitValue(c) == d
  {
    ('0' as int + d) as char
  }

  function Decimal(n: nat): (r: string)
    ensures r != "" && forall i :: 0 <= i < |r| ==> IsDigit(r[i])
  {
    if n < 10 then [DigitChar(n)] else Decimal(n / 10) + [DigitChar(n % 10)]
  }

  function Zeros(k: nat): (r: string)
    ensures |r| == k && forall i :: 0 <= i < |r| ==> r[i] == '0'
  {
    if k == 0 then "" else ['0'] + Zeros(k - 1)
  }

  function PadStart(s: string, width: nat): string {
    if |s| >= width then s else Zeros(width - |s|) + s
  }

  function Format(org: OrgId, n: nat): string {
    "JL-" + Tag(org) + "-" + PadStart(Decimal(n), 5)
  }

  function DigitValue(c: char): nat
    requires IsDigit(c)
  {
    c as int - '0' as int
  }

  // The number a string of digits stands for, leading zeros included.
  function Value(s: string): nat
    requires forall i :: 0 <= i < |s| ==> IsDigit(s[i])
  {
    if s == "" then 0 else Value(s[..|s| - 1]) * 10 + DigitValue(s[|s| - 1])
  }

  lemma {:induction false} DecimalValue(n: nat)
    ensures Value(Decimal(n)) == n
  {
    if n >= 10 {
      DecimalValue(n / 10);
      assert Decimal(n)[..|Decimal(n)| - 1] == Decimal(n / 10);
    } else {
      assert Decimal(n)[..0] == "";
    }
  }

  lemma {:induction false} ZerosValue(k: nat, s: string)
    requires forall i :: 0 <= i < |s| ==> IsDigit(s[i])
    ensures Value(Zeros(k) + s) == Value(s)
  {
    var t := Zeros(k) + s;
    if s != "" {
      ZerosValue(k, s[..|s| - 1]);
      assert t[..|t| - 1] == Zeros(k) + s[..|s| - 1];
    } else if k > 0 {
      ZerosValue(k - 1, s);
      assert t[..k - 1] == Zeros(k - 1) + s;
    }
  }

  // Padded printing is undone by reading the digits, whatever the size of the number.
  lemma PaddedValue(n: nat, width: nat)
    ensures var r := PadStart(Decimal(n), width);
      && |r| >= width
      && (forall i :: 0 <= i < |r| ==> IsDigit(r[i]))
      && Value(r) == n
  {
    DecimalValue(n);
    if |Decimal(n)| < width {
      ZerosValue(width - |Decimal(n)|, Decimal(n));
    }
  }

  lemma SplitAtDash(a: string, d: string, b: string, e: string)
    requires forall i :: 0 <= i < |d| ==> d[i] != '-'
    requires forall i :: 0 <= i < |e| ==> e[i] != '-'
    requires a + "-" + d == b + "-" + e
    ensures a == b && d == e
  {
    var s, t := a + "-" + d, b + "-" + e;
    assert s[|a|] == '-' && t[|b|] == '-';
    forall i | |a| < i < |s| ensures s[i] != '-' { assert s[i] == d[i - |a| - 1]; }
    forall i | |b| < i < |t| ensures t[i] != '-' { assert t[i] == e[i - |b| - 1]; }
    assert |a| == |b|;
    assert s[..|a|] == a && t[..|b|] == b;
    assert s[|a| + 1..] == d && t[|b| + 1..] == e;
  }

  // Two case numbers coincide exactly when the counters do and the organisations' ids
  // agree on their first four characters, letter case aside.
  lemma SameNumberIff(o1: OrgId, n1: nat, o2: OrgId, n2: nat)
    ensures Format(o1, n1) == Format(o2, n2) <==> Tag(o1) == Tag(o2) && n1 == n2
  {
    var d, e := PadStart(Decimal(n1), 5), PadStart(Decimal(n2), 5);
    PaddedValue(n1, 5);
    PaddedValue(n2, 5);
    if Format(o1, n1) == Format(o2, n2) {
      hide Tag, PadStart, Decimal;
      SplitAtDash("JL-" + Tag(o1), d, "JL-" + Tag(o2), e);
      assert ("JL-" + Tag(o1))[3..] == Tag(o1);
      assert ("JL-" + Tag(o2))[3..] == Tag(o2);
    }
  }

  lemma {:induction false} UpperAt(s: string, i: nat)
    requires i < |s|
    ensures Upper(s)[i] == if 'a' <= s[i] <= 'z' then (s[i] as int - 32) as char else s[i]
  {
    if i > 0 {
      UpperAt(s[1..], i - 1);
    }
  }

  // What precedes the counter: as many as four characters of the id, capitals for small
  // letters.
  lemma TagIs(org: OrgId)
    ensures |Tag(org)| == if |org| < 4 then |org| else 4
    ensures forall i :: 0 <= i < |Tag(org)| ==> Tag(org)[i] == if 'a' <= org[i] <= 'z' then (org[i] as int - 32) as char else org[i]
  {
    var head := if |org| <= 4 then org else org[..4];
    forall i | 0 <= i < |head| ensures Tag(org)[i] == if 'a' <= org[i] <= 'z' then (org[i] as int - 32) as char else org[i] {
      UpperAt(head, i);
    }
  }

  lemma {:induction false} DecimalHead(n: nat)
    requires n > 0
    ensures Decimal(n)[0] != '0'
  {
    if n >= 10 {
      DecimalHead(n / 10);
    }
  }

  // The printed shape: JL, the tag and the counter between dashes; the counter in decimal
  // digits, five at least, with leading zeros only to make up five.
  lemma FormatShape(org: OrgId, n: nat)
    ensures exists digits ::
      && Format(org, n) == "JL" + "-" + Tag(org) + "-" + digits
      && |digits| >= 5 && (forall i :: 0 <= i < |digits| ==> IsDigit(digits[i])) && Value(digits) == n
      && (|digits| > 5 ==> digits[0] != '0')
  {
    var digits := PadStart(Decimal(n), 5);
    PaddedValue(n, 5);
    if |digits| > 5 {
      assert n > 0 && digits == Decimal(n);
      DecimalHead(n);
    }
    assert "JL" + "-" == "JL-";
    hide Tag, PadStart, Decimal, Value;
    assert Format(org, n) == "JL" + "-" + Tag(org) + "-" + digits;
  }
}
