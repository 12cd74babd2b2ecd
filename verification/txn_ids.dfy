/**
 * The txn_uid column: "glo-txn-" followed by the 1-based row number written
 * in decimal and left-padded with zeros to at least five characters,
 * assigned in row order.
 */
module TxnIds {
  import opened Simulation

  const TxnPrefix: string := "glo-txn-"

  /** The zfill width of the row number. */
  const Width: nat := 5

  /** A row of the written CSV, columns in file order. */
  datatype Record = Record(txnUid: string, subUid: string, celUid: string, transactionDt: nat, transactionHr: nat)

  predicate IsDigit(c: char) {
    '0' <= c <= '9'
  }

  function DigitChar(d: nat): (c: char)
    requires d < 10
    ensures IsDigit(c) && c as int - '0' as int == d
  {
    ('0' as int + d) as char
  }

  /** str(n): the decimal numeral of n, without leading zeros. */
  function Decimal(n: nat): (s: string)
    ensures |s| >= 1
    ensures forall c | c in s :: IsDigit(c)
  {
    if n < 10 then [DigitChar(n)] else Decimal(n / 10) + [DigitChar(n % 10)]
  }

  /** The number a string of decimal digits denotes. */
  function Value(s: string): nat
    requires forall c | c in s :: IsDigit(c)
  {
    if s == [] then 0
    else
      assert forall c | c in s[..|s| - 1] :: c in s;
      assert IsDigit(s[|s| - 1]);
      Value(s[..|s| - 1]) * 10 + (s[|s| - 1] as int - '0' as int)
  }

  function Zeros(n: nat): (z: string)
    ensures |z| == n && forall i | 0 <= i < n :: z[i] == '0'
  {
    if n == 0 then [] else ['0'] + Zeros(n - 1)
  }

  /** s.zfill(width) for a string without a sign: zeros on the left up to
      `width` characters; a longer string is left as it is. */
  function ZFill(s: string, width: nat): (r: string)
    ensures |r| == if |s| >= width then |s| else width
    ensures |s| >= width ==> r == s
    ensures |s| < width ==> && r[width - |s|..] == s
                            && forall i | 0 <= i < width - |s| :: r[i] == '0'
  {
    if |s| >= width then s
    else
      var r := Zeros(width - |s|) + s;
      assert r[width - |s|..] == s;
      r
  }

  /** The id of the row at (0-based) position i. */
  function TxnUid(i: nat): string {
    TxnPrefix + ZFill(Decimal(i + 1), Width)
  }

  /** The numeral of n denotes n. */
  lemma {:induction false} DecimalValue(n: nat)
    ensures Value(Decimal(n)) == n
  {
    if n >= 10 {
      DecimalValue(n / 10);
      var s := Decimal(n);
      assert s[..|s| - 1] == Decimal(n / 10);
    }
  }

  /** Like Python's str, the numeral has no leading zero unless n is 0. */
  lemma {:induction false} DecimalCanonical(n: nat)
    ensures Decimal(n)[0] == '0' <==> n == 0
  {
    if n >= 10 {
      DecimalCanonical(n / 10);
    }
  }

  /** Leading zeros do not change the number a numeral denotes. */
  lemma {:induction false} LeadingZero(s: string)
    requires forall c | c in s :: IsDigit(c)
    ensures forall c | c in ['0'] + s :: IsDigit(c)
    ensures Value(['0'] + s) == Value(s)
  {
    if s != [] {
      var t := ['0'] + s;
      assert t[..|t| - 1] == ['0'] + s[..|s| - 1];
      assert forall c | c in s[..|s| - 1] :: c in s;
      LeadingZero(s[..|s| - 1]);
    }
  }

  lemma {:induction false} ZerosValue(m: nat, s: string)
    requires forall c | c in s :: IsDigit(c)
    ensures forall c | c in Zeros(m) + s :: IsDigit(c)
    ensures Value(Zeros(m) + s) == Value(s)
  {
    if m == 0 {
      assert Zeros(m) + s == s;
    } else {
      ZerosValue(m - 1, s);
      LeadingZero(Zeros(m - 1) + s);
      assert Zeros(m) + s == ['0'] + (Zeros(m - 1) + s);
    }
  }

  /** Zero-padding keeps the number: the padded numeral of n denotes n. */
  lemma ZFillValue(n: nat, width: nat)
    ensures forall c | c in ZFill(Decimal(n), width) :: IsDigit(c)
    ensures Value(ZFill(Decimal(n), width)) == n
  {
    DecimalValue(n);
    if |Decimal(n)| < width {
      ZerosValue(width - |Decimal(n)|, Decimal(n));
    }
  }

  /** Reading an id back: it starts with "glo-txn-" and the rest denotes the
      1-based row number. */
  lemma TxnUidRoundTrip(i: nat)
    ensures |TxnUid(i)| >= |TxnPrefix| + Width
    ensures TxnUid(i)[..|TxnPrefix|] == TxnPrefix
    ensures forall c | c in TxnUid(i)[|TxnPrefix|..] :: IsDigit(c)
    ensures Value(TxnUid(i)[|TxnPrefix|..]) == i + 1
  {
    ZFillValue(i + 1, Width);
    assert TxnUid(i)[|TxnPrefix|..] == ZFill(Decimal(i + 1), Width);
  }

  /** Different rows get different ids. */
  lemma TxnUidInjective(i: nat, j: nat)
    requires i != j
    ensures TxnUid(i) != TxnUid(j)
  {
    TxnUidRoundTrip(i);
    TxnUidRoundTrip(j);
  }

  function Pow10(k: nat): (p: nat)
    ensures p >= 1
  {
    if k == 0 then 1 else 10 * Pow10(k - 1)
  }

  /** A number below 10^k has a numeral of at most k digits. */
  lemma {:induction false} DecimalLength(n: nat, k: nat)
    requires k >= 1 && n < Pow10(k)
    ensures |Decimal(n)| <= k
  {
    if n >= 10 {
      DecimalLength(n / 10, k - 1);
    }
  }

  /** Up to row 99999 every id has exactly 13 characters. */
  lemma TxnUidLength(i: nat)
    requires i + 1 < Pow10(Width)
    ensures |TxnUid(i)| == |TxnPrefix| + Width
  {
    DecimalLength(i + 1, Width);
  }

  /** Python's string order: the first differing character decides, and a
      proper prefix comes first. */
  predicate LexLess(a: string, b: string) {
    if a == [] then b != []
    else if b == [] then false
    else a[0] < b[0] || (a[0] == b[0] && LexLess(a[1..], b[1..]))
  }

  lemma {:induction false} LexLessPrefix(p: string, a: string, b: string)
    requires LexLess(a, b)
    ensures LexLess(p + a, p + b)
  {
    if p == [] {
      assert p + a == a && p + b == b;
    } else {
      LexLessPrefix(p[1..], a, b);
      assert (p + a)[1..] == p[1..] + a && (p + b)[1..] == p[1..] + b;
    }
  }

  lemma {:induction false} LexLessSnoc(a: string, b: string, x: char, y: char)
    requires |a| == |b| && LexLess(a, b)
    ensures LexLess(a + [x], b + [y])
  {
    if a[0] == b[0] {
      LexLessSnoc(a[1..], b[1..], x, y);
      assert (a + [x])[1..] == a[1..] + [x] && (b + [y])[1..] == b[1..] + [y];
    }
  }

  lemma {:induction false} LexLessLast(a: string, x: char, y: char)
    requires x < y
    ensures LexLess(a + [x], a + [y])
  {
    if a != [] {
      LexLessLast(a[1..], x, y);
      assert (a + [x])[1..] == a[1..] + [x] && (a + [y])[1..] == a[1..] + [y];
    }
  }

  /** Two numerals of the same length that denote the same number are equal. */
  lemma {:induction false} ValueInjective(a: string, b: string)
    requires |a| == |b|
    requires forall c | c in a :: IsDigit(c)
    requires forall c | c in b :: IsDigit(c)
    requires Value(a) == Value(b)
    ensures a == b
  {
    if a != [] {
      var n := |a| - 1;
      assert forall c | c in a[..n] :: c in a;
      assert forall c | c in b[..n] :: c in b;
      assert IsDigit(a[n]) && IsDigit(b[n]);
      var x, y := a[n] as int - '0' as int, b[n] as int - '0' as int;
      assert Value(a[..n]) * 10 + x == Value(b[..n]) * 10 + y;
      assert x == y && Value(a[..n]) == Value(b[..n]);
      ValueInjective(a[..n], b[..n]);
      assert a == a[..n] + [a[n]] && b == b[..n] + [b[n]];
    }
  }

  /** For numerals of the same length, string order is numeric order. */
  lemma {:induction false} ValueOrderIsLexOrder(a: string, b: string)
    requires |a| == |b|
    requires forall c | c in a :: IsDigit(c)
    requires forall c | c in b :: IsDigit(c)
    requires Value(a) < Value(b)
    ensures LexLess(a, b)
  {
    var n := |a| - 1;
    assert forall c | c in a[..n] :: c in a;
    assert forall c | c in b[..n] :: c in b;
    assert IsDigit(a[n]) && IsDigit(b[n]);
    assert a == a[..n] + [a[n]] && b == b[..n] + [b[n]];
    if Value(a[..n]) < Value(b[..n]) {
      ValueOrderIsLexOrder(a[..n], b[..n]);
      LexLessSnoc(a[..n], b[..n], a[n], b[n]);
    } else if Value(a[..n]) == Value(b[..n]) {
      ValueInjective(a[..n], b[..n]);
      LexLessLast(a[..n], a[n], b[n]);
    } else {
      assert false;
    }
  }

  /** The string order is strict: no two strings precede each other. */
  lemma {:induction false} LexLessAsym(a: string, b: string)
    requires LexLess(a, b)
    ensures !LexLess(b, a)
  {
    if a != [] && b != [] && a[0] == b[0] {
      LexLessAsym(a[1..], b[1..]);
    }
  }

  /** For numerals of the same length, a smaller string is a smaller number. */
  lemma LexOrderIsValueOrder(a: string, b: string)
    requires |a| == |b|
    requires forall c | c in a :: IsDigit(c)
    requires forall c | c in b :: IsDigit(c)
    requires LexLess(a, b)
    ensures Value(a) < Value(b)
  {
    LexLessAsym(a, b);
    if Value(b) < Value(a) {
      ValueOrderIsLexOrder(b, a);
    } else if Value(a) == Value(b) {
      ValueInjective(a, b);
    }
  }

  /** Up to row 99999, sorting the ids as strings gives back the row order. */
  lemma TxnUidOrder(i: nat, j: nat)
    requires i < j && j + 1 < Pow10(Width)
    ensures LexLess(TxnUid(i), TxnUid(j))
  {
    TxnUidRoundTrip(i);
    TxnUidRoundTrip(j);
    TxnUidLength(i);
    TxnUidLength(j);
    var a, b := TxnUid(i)[|TxnPrefix|..], TxnUid(j)[|TxnPrefix|..];
    ValueOrderIsLexOrder(a, b);
    LexLessPrefix(TxnPrefix, a, b);
    assert TxnUid(i) == TxnPrefix + a && TxnUid(j) == TxnPrefix + b;
  }

  /** fake_transactions["txn_uid"] added in row order. */
  function AssignIds(rows: seq<Txn>): (out: seq<Record>)
    ensures |out| == |rows|
    ensures forall i | 0 <= i < |out| ::
              out[i] == Record(TxnUid(i), rows[i].subUid, rows[i].celUid, rows[i].transactionDt, rows[i].transactionHr)
  {
    seq(|rows|, i requires 0 <= i < |rows| =>
      Record(TxnUid(i), rows[i].subUid, rows[i].celUid, rows[i].transactionDt, rows[i].transactionHr))
  }

  /** The ids of the output are pairwise distinct, and each one reads back as
      its row's 1-based position. */
  lemma IdsDistinct(rows: seq<Txn>)
    ensures forall i, j | 0 <= i < j < |rows| :: AssignIds(rows)[i].txnUid != AssignIds(rows)[j].txnUid
    ensures forall i | 0 <= i < |rows| :: Value(AssignIds(rows)[i].txnUid[|TxnPrefix|..]) == i + 1
  {
    forall i, j | 0 <= i < j < |rows| ensures AssignIds(rows)[i].txnUid != AssignIds(rows)[j].txnUid {
      TxnUidInjective(i, j);
    }
    forall i | 0 <= i < |rows| ensures Value(AssignIds(rows)[i].txnUid[|TxnPrefix|..]) == i + 1 {
      TxnUidRoundTrip(i);
    }
  }
}
