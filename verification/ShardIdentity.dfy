/** The text that identifies a shard, and why two different source windows never share one. */
module ShardIdentity {
  import opened Prelude

  datatype Window = Window(rowStart: int, rowStop: int, columnStart: int, columnStop: int)

  const DIGITS := "0123456789"

  predicate IsDigit(c: char) {
    '0' <= c <= '9'
  }

  function DigitValue(c: char): nat
    requires IsDigit(c)
  {
    (c - '0') as nat
  }

  // ----- writing ------------------------------------------------------------------------------------------

  function Decimal(n: nat): (s: string)
    ensures s != [] && forall i :: 0 <= i < |s| ==> IsDigit(s[i])
  {
    if n < 10 then [DIGITS[n]] else Decimal(n / 10) + [DIGITS[n % 10]]
  }

  function Zeros(k: int): (s: string)
    ensures forall i :: 0 <= i < |s| ==> s[i] == '0'
  {
    if k <= 0 then "" else "0" + Zeros(k - 1)
  }

  /** The format `{n:06d}`: the sign counts towards the width of six, zeros go between sign and digits. */
  function Padded(n: int): string {
    if n >= 0 then Zeros(6 - |Decimal(n)|) + Decimal(n)
    else "-" + Zeros(5 - |Decimal(-n)|) + Decimal(-n)
  }

  /** Labels and padded numbers, in turn. */
  function Joined(labels: seq<string>, numbers: seq<int>): string
    requires |labels| == |numbers|
  {
    if numbers == [] then "" else labels[0] + (Padded(numbers[0]) + Joined(labels[1..], numbers[1..]))
  }

  const LABELS := ["rows-", "-", "-cols-", "-"]

  function ShardId(w: Window): string {
    Joined(LABELS, [w.rowStart, w.rowStop, w.columnStart, w.columnStop])
  }

  // ----- reading -------------------------------------------------------------------------------------------

  /** The length of the leading run of digits. */
  function DigitRun(s: string): (n: nat)
    ensures n <= |s|
    ensures forall i :: 0 <= i < n ==> IsDigit(s[i])
    ensures n < |s| ==> !IsDigit(s[n])
  {
    if s == "" || !IsDigit(s[0]) then 0 else 1 + DigitRun(s[1..])
  }

  function DecimalValue(s: string): (n: int)
    requires forall i :: 0 <= i < |s| ==> IsDigit(s[i])
    ensures n >= 0
  {
    if s == "" then 0 else 10 * DecimalValue(s[..|s| - 1]) + DigitValue(s[|s| - 1])
  }

  /** An optional sign and a run of digits, and what follows. */
  function ReadNumber(s: string): (int, string) {
    if s != "" && s[0] == '-' then
      var n := DigitRun(s[1..]);
      (0 - DecimalValue(s[1..][..n]), s[1..][n..])
    else
      var n := DigitRun(s);
      (DecimalValue(s[..n]), s[n..])
  }

  function Skip(s: string, n: nat): string {
    if n <= |s| then s[n..] else ""
  }

  function ReadJoined(labels: seq<string>, s: string): (numbers: seq<int>)
    ensures |numbers| == |labels|
  {
    if labels == [] then []
    else
      var (n, rest) := ReadNumber(Skip(s, |labels[0]|));
      [n] + ReadJoined(labels[1..], rest)
  }

  function ReadShardId(s: string): Window {
    var numbers := ReadJoined(LABELS, s);
    Window(numbers[0], numbers[1], numbers[2], numbers[3])
  }

  // ----- round trip ------------------------------------------------------------------------------------------

  lemma {:induction false} DecimalRoundTrip(n: nat)
    ensures DecimalValue(Decimal(n)) == n
  {
    if n >= 10 {
      DecimalRoundTrip(n / 10);
      var s := Decimal(n);
      assert s[..|s| - 1] == Decimal(n / 10);
      DigitOf(n % 10);
    } else {
      DigitOf(n);
      assert Decimal(n)[..0] == "";
    }
  }

  lemma DigitOf(d: nat)
    requires d < 10
    ensures IsDigit(DIGITS[d]) && DigitValue(DIGITS[d]) == d
  {
  }

  lemma {:induction false} LeadingZeros(zeros: string, s: string)
    requires forall i :: 0 <= i < |zeros| ==> zeros[i] == '0'
    requires forall i :: 0 <= i < |s| ==> IsDigit(s[i])
    ensures DecimalValue(zeros + s) == DecimalValue(s)
    decreases |zeros| + |s|
  {
    if s == "" {
      if zeros != "" {
        assert (zeros + s)[..|zeros| - 1] == zeros[..|zeros| - 1] + "";
        LeadingZeros(zeros[..|zeros| - 1], "");
        assert zeros + s == zeros;
      } else {
        assert zeros + s == "";
      }
    } else {
      assert (zeros + s)[..|zeros + s| - 1] == zeros + s[..|s| - 1];
      LeadingZeros(zeros, s[..|s| - 1]);
    }
  }

  lemma {:induction false} RunOfDigits(digits: string, rest: string)
    requires forall i :: 0 <= i < |digits| ==> IsDigit(digits[i])
    requires rest != "" ==> !IsDigit(rest[0])
    ensures DigitRun(digits + rest) == |digits|
  {
    if digits == "" {
      assert digits + rest == rest;
    } else {
      assert (digits + rest)[1..] == digits[1..] + rest;
      RunOfDigits(digits[1..], rest);
    }
  }

  lemma PaddedDigits(k: int, n: nat, rest: string)
    requires rest != "" ==> !IsDigit(rest[0])
    ensures var digits := Zeros(k) + Decimal(n);
            && IsDigit(digits[0])
            && DigitRun(digits + rest) == |digits|
            && (digits + rest)[..|digits|] == digits
            && (digits + rest)[|digits|..] == rest
            && DecimalValue(digits) == n
  {
    hide DigitRun, DecimalValue, IsDigit;
    var digits := Zeros(k) + Decimal(n);
    DigitsOnly(k, n);
    RunOfDigits(digits, rest);
    LeadingZeros(Zeros(k), Decimal(n));
    DecimalRoundTrip(n);
  }

  lemma DigitsOnly(k: int, n: nat)
    ensures var digits := Zeros(k) + Decimal(n);
            digits != "" && forall i :: 0 <= i < |digits| ==> IsDigit(digits[i])
  {
    hide Decimal, Zeros;
  }

  /** Digits, perhaps after a minus sign, are read back. */
  lemma ReadDigits(digits: string, value: int, negative: bool, rest: string)
    requires digits != "" && forall i :: 0 <= i < |digits| ==> IsDigit(digits[i])
    requires DigitRun(digits + rest) == |digits| && DecimalValue(digits) == value
    ensures ReadNumber((if negative then "-" else "") + digits + rest) == (if negative then 0 - value else value, rest)
  {
    hide DigitRun, DecimalValue;
    assert (digits + rest)[..|digits|] == digits && (digits + rest)[|digits|..] == rest;
    if negative {
      assert ("-" + digits + rest)[1..] == digits + rest;
    } else {
      assert "" + digits + rest == digits + rest;
      assert IsDigit((digits + rest)[0]);
    }
  }

  /** A padded number is read back, whatever follows it, unless a digit does. */
  lemma NumberRoundTrip(n: int, rest: string)
    requires rest != "" ==> !IsDigit(rest[0])
    ensures ReadNumber(Padded(n) + rest) == (n, rest)
  {
    hide *;
    var negative := n < 0;
    var m: nat := if negative then -n else n;
    var zeros := (if negative then 5 else 6) - |Decimal(m)|;
    PaddedDigits(zeros, m, rest);
    DigitsOnly(zeros, m);
    ReadDigits(Zeros(zeros) + Decimal(m), m, negative, rest);
    assert (if negative then "-" else "") + (Zeros(zeros) + Decimal(m)) + rest == Padded(n) + rest by {
      SignAndDigits(n);
    }
  }

  lemma SignAndDigits(n: int)
    ensures n >= 0 ==> Padded(n) == "" + (Zeros(6 - |Decimal(n)|) + Decimal(n))
    ensures n < 0 ==> Padded(n) == "-" + (Zeros(5 - |Decimal(-n)|) + Decimal(-n))
  {
    hide Zeros, Decimal;
  }

  lemma Skipped(prefix: string, rest: string)
    ensures Skip(prefix + rest, |prefix|) == rest
  {
  }

  /** Numbers between labels that start with no digit are read back. */
  lemma {:induction false} JoinedRoundTrip(labels: seq<string>, numbers: seq<int>)
    requires |labels| == |numbers| && forall i :: 0 <= i < |labels| ==> labels[i] != "" && !IsDigit(labels[i][0])
    ensures ReadJoined(labels, Joined(labels, numbers)) == numbers
  {
    hide Padded, ReadNumber, Skip, IsDigit;
    if numbers != [] {
      var rest := Joined(labels[1..], numbers[1..]);
      Skipped(labels[0], Padded(numbers[0]) + rest);
      assert rest != "" ==> rest[0] == labels[1][0];
      NumberRoundTrip(numbers[0], rest);
      JoinedRoundTrip(labels[1..], numbers[1..]);
      assert numbers == [numbers[0]] + numbers[1..];
    }
  }

  /** Every source window is recovered from its shard identity: the text is injective. */
  lemma ShardIdRoundTrip(w: Window)
    ensures ReadShardId(ShardId(w)) == w
  {
    hide Joined, ReadJoined;
    JoinedRoundTrip(LABELS, [w.rowStart, w.rowStop, w.columnStart, w.columnStop]);
  }

  lemma ShardIdInjective(a: Window, b: Window)
    ensures ShardId(a) == ShardId(b) <==> a == b
  {
    ShardIdRoundTrip(a);
    ShardIdRoundTrip(b);
  }

  // ----- the form of the text ------------------------------------------------------------------------------

  /** The least number of k + 1 digits. */
  function Tens(k: nat): (n: nat)
    ensures n >= 1
  {
    if k == 0 then 1 else 10 * Tens(k - 1)
  }

  lemma {:induction false} DigitsNeeded(n: nat, k: nat)
    requires k >= 1
    ensures |Decimal(n)| <= k <==> n < Tens(k)
    ensures n > 0 ==> Decimal(n)[0] != '0'
    decreases k
  {
    assert Tens(1) == 10 * Tens(0);
    if n >= 10 {
      if k > 1 {
        DigitsNeeded(n / 10, k - 1);
        assert Tens(k) == 10 * Tens(k - 1);
      } else {
        LeadingDigit(n);
      }
    }
  }

  lemma {:induction false} LeadingDigit(n: nat)
    requires n > 0
    ensures Decimal(n)[0] != '0'
  {
    if n >= 10 {
      LeadingDigit(n / 10);
      assert Decimal(n)[0] == Decimal(n / 10)[0];
    }
  }

  lemma ZerosLength(k: int)
    ensures |Zeros(k)| == if k >= 0 then k else 0
  {
  }

  /** Numbers that fit are six characters wide, sign included; wider ones have no zeros in front. */
  lemma PaddedWidth(n: int)
    ensures |Padded(n)| >= 6
    ensures |Padded(n)| == 6 <==> -100000 < n < 1000000
    ensures |Padded(n)| > 6 ==> Padded(n)[if n < 0 then 1 else 0] != '0'
  {
    var m: nat := if n < 0 then -n else n;
    SixDigits();
    DigitsNeeded(m, 5);
    DigitsNeeded(m, 6);
    ZerosLength((if n < 0 then 5 else 6) - |Decimal(m)|);
  }

  lemma SixDigits()
    ensures Tens(5) == 100000 && Tens(6) == 1000000
  {
    assert Tens(1) == 10;
    assert Tens(2) == 100;
    assert Tens(3) == 1000;
    assert Tens(4) == 10000;
    assert Tens(5) == 100000;
  }

  lemma JoinedCons(first: string, labels: seq<string>, n: int, numbers: seq<int>)
    requires |labels| == |numbers|
    ensures Joined([first] + labels, [n] + numbers) == first + (Padded(n) + Joined(labels, numbers))
  {
    assert ([first] + labels)[1..] == labels && ([n] + numbers)[1..] == numbers;
  }

  /** The text of an identity: the rows, then the columns, each as start and stop. */
  lemma ShardIdForm(w: Window)
    ensures ShardId(w) == "rows-" + (Padded(w.rowStart) + ("-" + (Padded(w.rowStop) +
                          ("-cols-" + (Padded(w.columnStart) + ("-" + Padded(w.columnStop)))))))
  {
    hide Padded;
    JoinedCons("rows-", ["-", "-cols-", "-"], w.rowStart, [w.rowStop, w.columnStart, w.columnStop]);
    JoinedCons("-", ["-cols-", "-"], w.rowStop, [w.columnStart, w.columnStop]);
    JoinedCons("-cols-", ["-"], w.columnStart, [w.columnStop]);
    JoinedCons("-", [], w.columnStop, []);
    hide Joined;
    assert Padded(w.columnStop) + Joined([], []) == Padded(w.columnStop) by {
      NothingJoined();
    }
    assert LABELS == ["rows-"] + ["-", "-cols-", "-"];
    assert ["-", "-cols-", "-"] == ["-"] + ["-cols-", "-"];
    assert ["-cols-", "-"] == ["-cols-"] + ["-"];
    assert ["-"] + [] == ["-"];
    assert [w.rowStart, w.rowStop, w.columnStart, w.columnStop] == [w.rowStart] + [w.rowStop, w.columnStart, w.columnStop];
    assert [w.rowStop, w.columnStart, w.columnStop] == [w.rowStop] + [w.columnStart, w.columnStop];
    assert [w.columnStart, w.columnStop] == [w.columnStart] + [w.columnStop];
    assert [w.columnStop] + [] == [w.columnStop];
  }

  lemma NothingJoined()
    ensures Joined([], []) == ""
  {
  }
}
