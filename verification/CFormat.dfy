/** The printf and scanf conversions of fixed width the wire formats rely on:
    `%010lu`, `%010d`, the `{%010d}` scan with its width of ten characters, and the
    message identifiers of src/common/message.c. */
module CFormat {

  datatype Option<+T> = None | Some(value: T) {
    predicate IsFailure() { None? }

    function PropagateFailure<U>(): Option<U>
      requires None?
    {
      None
    }

    function Extract(): T
      requires Some?
    {
      value
    }
  }

  const INT_MAX: int := 0x7FFF_FFFF
  const INT_MIN: int := -0x8000_0000
  const ULONG_RANGE: int := 0x1_0000_0000_0000_0000

  function Pow10(k: nat): (p: nat)
    ensures p >= 1
  {
    if k == 0 then 1 else 10 * Pow10(k - 1)
  }

  function Digit(d: nat): char
    requires d < 10
  {
    '0' + d as char
  }

  predicate IsDigit(c: char) {
    '0' <= c <= '9'
  }

  predicate AllDigits(s: string) {
    forall i | 0 <= i < |s| :: IsDigit(s[i])
  }

  /** Shortest decimal: `%lu`. */
  function PrintNat(n: nat): (s: string)
    ensures |s| >= 1
  {
    if n < 10 then [Digit(n)] else PrintNat(n / 10) + [Digit(n % 10)]
  }

  function Zeros(k: nat): string {
    seq(k, _ => '0')
  }

  /** `%0<w>lu`: zero padded on the left, never cut. */
  function PrintPadded(w: nat, n: nat): (s: string)
    ensures |s| >= w && |s| >= 1
  {
    var p := PrintNat(n);
    if |p| < w then Zeros(w - |p|) + p else p
  }

  /** `%0<w>d`: the sign takes one of the places. */
  function PrintSigned(w: nat, n: int): string
    requires w >= 1
  {
    if n < 0 then "-" + PrintPadded(w - 1, -n) else PrintPadded(w, n)
  }

  /** The digits of n in exactly w places. */
  function FixedDigits(w: nat, n: nat): (s: string)
    ensures |s| == w
  {
    if w == 0 then "" else FixedDigits(w - 1, n / 10) + [Digit(n % 10)]
  }

  /** The value of a run of digits. */
  function ValueOf(s: string): int {
    if s == "" then 0 else 10 * ValueOf(s[..|s| - 1]) + (s[|s| - 1] as int - '0' as int)
  }

  /** The conversion of a scanned decimal to `int`. */
  function ToInt32(v: int): (r: int)
    ensures INT_MIN <= r <= INT_MAX
    ensures INT_MIN <= v <= INT_MAX <==> r == v
  {
    var m := v % 0x1_0000_0000;
    if m > INT_MAX then m - 0x1_0000_0000 else m
  }

  predicate IsSpace(c: char) {
    c == ' ' || c == '\t' || c == '\n' || c == '\r' || c == 11 as char || c == 12 as char
  }

  function SkipSpace(s: string): string {
    if s != "" && IsSpace(s[0]) then SkipSpace(s[1..]) else s
  }

  /** The longest run of at most w digits at the head of s. */
  function DigitRun(w: nat, s: string): (r: string)
    ensures |r| <= |s|
  {
    if w == 0 || s == "" || !IsDigit(s[0]) then "" else [s[0]] + DigitRun(w - 1, s[1..])
  }

  /** `%<w>d`: leading blanks are free, the sign counts against the width. */
  function ScanInt(w: nat, s: string): Option<(int, string)> {
    var t := SkipSpace(s);
    var signed := w > 0 && t != "" && (t[0] == '-' || t[0] == '+');
    var u := if signed then t[1..] else t;
    ScanRun(if signed then w - 1 else w, signed && t[0] == '-', u)
  }

  function ScanRun(w: nat, negative: bool, s: string): Option<(int, string)> {
    var run := DigitRun(w, s);
    if run == "" then None
    else
      Some((WithSign(negative, ValueOf(run)), s[|run|..]))
  }

  // ---------- Printing and reading back ----------

  lemma {:induction false} FixedIsDigits(w: nat, n: nat)
    ensures AllDigits(FixedDigits(w, n))
  {
    if w > 0 {
      FixedIsDigits(w - 1, n / 10);
    }
  }

  lemma {:induction false} FixedValue(w: nat, n: nat)
    requires n < Pow10(w)
    ensures AllDigits(FixedDigits(w, n)) && ValueOf(FixedDigits(w, n)) == n
  {
    FixedIsDigits(w, n);
    if w > 0 {
      FixedValue(w - 1, n / 10);
      var s := FixedDigits(w, n);
      assert s[..|s| - 1] == FixedDigits(w - 1, n / 10);
    }
  }

  lemma {:induction false} FixedOfZero(w: nat)
    ensures FixedDigits(w, 0) == Zeros(w)
  {
    if w > 0 {
      FixedOfZero(w - 1);
    }
  }

  /** Padding to a width that holds the number gives exactly its digits in that width. */
  lemma {:induction false} PaddedIsFixed(w: nat, n: nat)
    requires n < Pow10(w) && w >= 1
    ensures PrintPadded(w, n) == FixedDigits(w, n)
    decreases w
  {
    if n < 10 {
      FixedOfZero(w - 1);
      assert Zeros(0) + [Digit(n)] == [Digit(n)];
    } else {
      PaddedIsFixed(w - 1, n / 10);
      var s := PrintNat(n / 10);
      if |s| < w - 1 {
        assert Zeros(w - 1 - |s|) + s + [Digit(n % 10)] == Zeros(w - |PrintNat(n)|) + PrintNat(n);
      }
    }
  }

  lemma {:induction false} NatLength(n: nat, w: nat)
    requires w >= 1
    ensures |PrintNat(n)| <= w <==> n < Pow10(w)
    decreases n
  {
    if n >= 10 {
      if w > 1 { NatLength(n / 10, w - 1); } else { assert |PrintNat(n / 10)| >= 1; }
    }
  }

  lemma {:induction false} RunOfDigits(w: nat, digits: string, rest: string)
    requires |digits| >= w && AllDigits(digits)
    ensures DigitRun(w, digits + rest) == digits[..w]
  {
    var s := digits + rest;
    if w > 0 {
      assert digits[0] in digits && s[1..] == digits[1..] + rest;
      assert forall c | c in digits[1..] :: c in digits;
      RunOfDigits(w - 1, digits[1..], rest);
      assert [digits[0]] + digits[1..][..w - 1] == digits[..w];
    }
  }

  lemma {:induction false} RunStops(w: nat, digits: string, rest: string)
    requires |digits| <= w && AllDigits(digits)
    requires rest == "" || !IsDigit(rest[0])
    ensures DigitRun(w, digits + rest) == digits
  {
    var s := digits + rest;
    if digits != "" {
      assert digits[0] in digits && s[1..] == digits[1..] + rest;
      assert forall c | c in digits[1..] :: c in digits;
      RunStops(w - 1, digits[1..], rest);
    }
  }

  lemma HeadIsDigit(w: nat, s: string)
    requires s != "" && IsDigit(s[0])
    ensures ScanInt(w, s) == ScanRun(w, false, s)
  {
    assert SkipSpace(s) == s;
  }

  lemma HeadIsMinus(w: nat, d: string)
    requires w >= 1
    ensures ScanInt(w, "-" + d) == ScanRun(w - 1, true, d)
  {
    var s := "-" + d;
    assert s[1..] == d && SkipSpace(s) == s;
  }

  lemma RunIsWhole(w: nat, negative: bool, d: string, rest: string)
    requires |d| == w >= 1 && AllDigits(d)
    ensures ScanRun(w, negative, d + rest) == Some((WithSign(negative, ValueOf(d)), rest))
  {
    RunOfDigits(w, d, rest);
    assert d[..w] == d && (d + rest)[w..] == rest;
  }

  lemma ScanDigits(w: nat, d: string, rest: string)
    requires |d| == w >= 1 && AllDigits(d)
    ensures ScanInt(w, d + rest) == Some((ValueOf(d), rest))
  {
    assert d[0] in d && (d + rest)[0] == d[0];
    HeadIsDigit(w, d + rest);
    RunIsWhole(w, false, d, rest);
  }

  /** Ten digits are read back whole, whatever follows them. */
  lemma ScanTen(n: nat, rest: string)
    requires n < Pow10(10)
    ensures |PrintPadded(10, n)| == 10
    ensures ScanInt(10, PrintPadded(10, n) + rest) == Some((n as int, rest))
  {
    PaddedIsFixed(10, n);
    FixedValue(10, n);
    ScanDigits(10, FixedDigits(10, n), rest);
  }

  lemma Pow10Ten()
    ensures Pow10(9) == 1_000_000_000 && Pow10(10) == 10_000_000_000
  {
    assert Pow10(4) == 10_000;
    assert Pow10(8) == 100_000_000;
  }

  lemma {:induction false} NatIsDigits(n: nat)
    ensures AllDigits(PrintNat(n))
  {
    if n >= 10 { NatIsDigits(n / 10); }
  }

  function WithSign(negative: bool, v: int): int {
    if negative then -v else v
  }

  lemma WholeRun(w: nat, negative: bool, d: string)
    requires |d| == w >= 1 && AllDigits(d)
    ensures ScanRun(w, negative, d) == Some((WithSign(negative, ValueOf(d)), ""))
  {
    RunIsWhole(w, negative, d, "");
    assert d + "" == d;
  }

  lemma CutRun(w: nat, negative: bool, d: string)
    requires |d| > w >= 1 && AllDigits(d)
    ensures ScanRun(w, negative, d) == Some((WithSign(negative, ValueOf(d[..w])), d[w..]))
  {
    assert d == d[..w] + d[w..];
    RunIsWhole(w, negative, d[..w], d[w..]);
  }

  /** Digits that fit the width are scanned whole. */
  lemma ShortRun(w: nat, negative: bool, n: nat)
    requires w >= 1 && n < Pow10(w)
    ensures ScanRun(w, negative, PrintPadded(w, n)) == Some((WithSign(negative, n), ""))
  {
    PaddedIsFixed(w, n);
    FixedIsDigits(w, n);
    FixedValue(w, n);
    WholeRun(w, negative, FixedDigits(w, n));
  }

  /** Of longer ones the rest is left: the last, if there is one more. */
  lemma LongRun(w: nat, negative: bool, n: nat)
    requires w >= 1 && n >= Pow10(w)
    ensures var d := PrintPadded(w, n);
            && |d| > w && AllDigits(d) && d[w..] != ""
            && ScanRun(w, negative, d) == Some((WithSign(negative, ValueOf(d[..w])), d[w..]))
  {
    NatLength(n, w);
    NatIsDigits(n);
    CutRun(w, negative, PrintPadded(w, n));
  }

  lemma OneTooLong(w: nat, negative: bool, n: nat)
    requires w >= 1 && Pow10(w) <= n < Pow10(w + 1)
    ensures ScanRun(w, negative, PrintPadded(w, n)) == Some((WithSign(negative, n / 10), [Digit(n % 10)]))
  {
    AllButLast(w, n);
    LongRun(w, negative, n);
  }

  lemma PaddedStartsWithDigit(w: nat, n: nat)
    ensures IsDigit(PrintPadded(w, n)[0])
  {
    NatIsDigits(n);
  }

  /** What is read, after a minus sign, of a number with at most one digit too many. */
  function CutTo(w: nat, m: nat): (int, string) {
    if m < Pow10(w) then (WithSign(true, m), "") else (WithSign(true, m / 10), [Digit(m % 10)])
  }

  lemma NegativeRun(w: nat, m: nat)
    requires w >= 1 && m < Pow10(w + 1)
    ensures ScanRun(w, true, PrintPadded(w, m)) == Some(CutTo(w, m))
  {
    if m < Pow10(w) { ShortRun(w, true, m); } else { OneTooLong(w, true, m); }
  }

  lemma MinusReadsBack(w: nat, m: nat)
    requires w >= 2 && m < Pow10(w)
    ensures ScanInt(w, "-" + PrintPadded(w - 1, m)) == Some(CutTo(w - 1, m))
  {
    HeadIsMinus(w, PrintPadded(w - 1, m));
    NegativeRun(w - 1, m);
  }

  lemma PlainReadsBack(w: nat, n: nat)
    requires w >= 2 && n < Pow10(w)
    ensures ScanInt(w, PrintPadded(w, n)) == Some((n as int, ""))
  {
    PaddedStartsWithDigit(w, n);
    HeadIsDigit(w, PrintPadded(w, n));
    ShortRun(w, false, n);
  }

  /** At any width, a number that fits without its sign: it is read back whole exactly if it fits
      with it, and loses its last digit otherwise. */
  lemma SignedReadsBack(w: nat, n: int)
    requires w >= 2 && n < Pow10(w) && -n < Pow10(w)
    ensures ScanInt(w, PrintSigned(w, n)) == Some(if n < 0 then CutTo(w - 1, -n) else (n, ""))
  {
    if n < 0 { MinusReadsBack(w, -n); } else { PlainReadsBack(w, n); }
  }

  lemma AllButLast(w: nat, m: nat)
    requires w >= 1 && Pow10(w) <= m < Pow10(w + 1)
    ensures var d := PrintPadded(w, m);
            && |d| == w + 1 && d[w..] == [Digit(m % 10)]
            && AllDigits(d[..w]) && ValueOf(d[..w]) == m / 10
  {
    NatLength(m, w);
    NatLength(m, w + 1);
    var front := PrintNat(m / 10);
    assert PrintPadded(w, m) == front + [Digit(m % 10)] && |front| == w;
    assert PrintPadded(w, m / 10) == front;
    PaddedIsFixed(w, m / 10);
    FixedIsDigits(w, m / 10);
    FixedValue(w, m / 10);
  }

  lemma {:induction false} BlanksAreFree(blanks: string, s: string)
    requires forall i | 0 <= i < |blanks| :: blanks[i] as int == 32 || 9 <= blanks[i] as int <= 13
    ensures SkipSpace(blanks + s) == SkipSpace(s)
  {
    if blanks == "" {
      assert blanks + s == s;
    } else {
      assert (blanks + s)[1..] == blanks[1..] + s;
      BlanksAreFree(blanks[1..], s);
    }
  }

  /** What a scan of w places makes of blanks, a sign and digits: the blanks are free, the sign takes
      a place, and as many digits as there are places left are read. */
  lemma SignTakesAPlace(w: nat, blanks: string, minus: bool, d: string, rest: string)
    requires |d| == w - 1 >= 1 && AllDigits(d)
    requires forall i | 0 <= i < |blanks| :: blanks[i] as int == 32 || 9 <= blanks[i] as int <= 13
    ensures ScanInt(w, blanks + ([if minus then '-' else '+'] + (d + rest)))
         == Some((if minus then -ValueOf(d) else ValueOf(d), rest))
  {
    var s := [if minus then '-' else '+'] + (d + rest);
    BlanksAreFree(blanks, s);
    assert SkipSpace(s) == s && s[1..] == d + rest;
    RunIsWhole(w - 1, minus, d, rest);
  }

  /** A number that does not fit an int loses a multiple of 2^32. */
  lemma IntWraps(v: int)
    ensures (v - ToInt32(v)) % 0x1_0000_0000 == 0
  {
  }

  /** What the component gets of an integer result: sscanf "%010d", whatever is left of the text. */
  function ReadInt(s: string): (v: Option<int>)
    ensures v.Some? ==> INT_MIN <= v.value <= INT_MAX
  {
    var n :- ScanInt(10, s);
    Some(ToInt32(n.0))
  }

  /** The value read is the integer returned exactly when its sign and digits fit ten places;
      otherwise its last digit is lost. */
  lemma IntResultSurvives(n: int)
    requires INT_MIN <= n <= INT_MAX
    ensures ReadInt(PrintSigned(10, n)) == Some(if n > -1_000_000_000 then n else -(-n / 10))
    ensures ReadInt(PrintSigned(10, n)) == Some(n) <==> n > -1_000_000_000
    ensures ScanInt(10, PrintSigned(10, n)) == Some((n, "")) <==> n > -1_000_000_000
  {
    Pow10Ten();
    SignedReadsBack(10, n);
  }

  // ---------- Message identifiers ----------

  /** The order of strcmp. */
  predicate LexLess(a: string, b: string) {
    b != "" && (a == "" || a[0] < b[0] || (a[0] == b[0] && LexLess(a[1..], b[1..])))
  }

  lemma {:induction false} LexSnoc(a: string, b: string, x: char, y: char)
    requires |a| == |b|
    ensures LexLess(a + [x], b + [y]) <==> LexLess(a, b) || (a == b && x < y)
  {
    if a != "" {
      assert (a + [x])[1..] == a[1..] + [x] && (b + [y])[1..] == b[1..] + [y];
      LexSnoc(a[1..], b[1..], x, y);
      assert a == [a[0]] + a[1..] && b == [b[0]] + b[1..];
    } else {
      assert a + [x] == [x] && b + [y] == [y];
    }
  }

  lemma {:induction false} FixedOrder(w: nat, a: nat, b: nat)
    requires a < Pow10(w) && b < Pow10(w)
    ensures LexLess(FixedDigits(w, a), FixedDigits(w, b)) <==> a < b
    ensures FixedDigits(w, a) == FixedDigits(w, b) <==> a == b
  {
    if w > 0 {
      FixedOrder(w - 1, a / 10, b / 10);
      LexSnoc(FixedDigits(w - 1, a / 10), FixedDigits(w - 1, b / 10), Digit(a % 10), Digit(b % 10));
      var sa, sb := FixedDigits(w, a), FixedDigits(w, b);
      assert sa[..w - 1] == FixedDigits(w - 1, a / 10) && sb[..w - 1] == FixedDigits(w - 1, b / 10);
      assert sa[w - 1] == Digit(a % 10) && sb[w - 1] == Digit(b % 10);
    }
  }

  /** The identifier of the n-th call. */
  function MessageId(n: nat): string {
    PrintPadded(10, n)
  }

  class IdSource {
    var counter: nat

    constructor ()
      ensures counter == 1
    {
      counter := 1;
    }

    method GenerateId() returns (id: string)
      modifies this
      ensures id == MessageId(old(counter))
      ensures counter == (old(counter) + 1) % 0x1_0000_0000_0000_0000
    {
      id := PrintPadded(10, counter);
      counter := (counter + 1) % ULONG_RANGE;
    }
  }

  /** Identifiers come out ten characters long, in strictly increasing order, up to 10^10 - 1. */
  lemma IdsIncrease(i: nat, j: nat)
    requires i < Pow10(10) && j < Pow10(10)
    ensures |MessageId(i)| == 10
    ensures LexLess(MessageId(i), MessageId(j)) <==> i < j
    ensures MessageId(i) == MessageId(j) <==> i == j
  {
    PaddedIsFixed(10, i);
    PaddedIsFixed(10, j);
    FixedOrder(10, i, j);
  }

  lemma {:induction false} LeadingOne(k: nat)
    ensures PrintNat(Pow10(k))[0] == '1'
  {
    if k > 0 {
      LeadingOne(k - 1);
      assert Pow10(k) / 10 == Pow10(k - 1);
    }
  }

  lemma {:induction false} LeadingNine(w: nat)
    requires w >= 1
    ensures FixedDigits(w, Pow10(w) - 1)[0] == '9'
  {
    if w > 1 {
      LeadingNine(w - 1);
      assert (Pow10(w) - 1) / 10 == Pow10(w - 1) - 1;
    }
  }

  /** At any width the order breaks at the first number that does not fit it. */
  lemma OrderBreaks(w: nat)
    requires w >= 1
    ensures !LexLess(PrintPadded(w, Pow10(w) - 1), PrintPadded(w, Pow10(w)))
    ensures |PrintPadded(w, Pow10(w))| > w
  {
    NatLength(Pow10(w), w);
    LeadingOne(w);
    LeadingNine(w);
    PaddedIsFixed(w, Pow10(w) - 1);
    assert PrintPadded(w, Pow10(w) - 1)[0] == '9' && PrintPadded(w, Pow10(w))[0] == '1';
  }

  /** Among the numbers up to n, padded to a width, earlier ones are smaller exactly as long as all
      of them fit it. */
  lemma PaddedOrderIff(w: nat, n: nat)
    requires w >= 1
    ensures (forall i: nat, j: nat | i < j <= n :: LexLess(PrintPadded(w, i), PrintPadded(w, j))) <==> n < Pow10(w)
  {
    if n < Pow10(w) {
      forall i: nat, j: nat | i < j <= n ensures LexLess(PrintPadded(w, i), PrintPadded(w, j)) {
        PaddedIsFixed(w, i);
        PaddedIsFixed(w, j);
        FixedOrder(w, i, j);
      }
    } else {
      OrderBreaks(w);
      var j: nat := Pow10(w);
      var i: nat := j - 1;
      assert i < j <= n && !LexLess(PrintPadded(w, i), PrintPadded(w, j));
    }
  }

  /** The identifiers up to the n-th increase exactly as long as n < 10^10. */
  lemma IdsIncreaseIff(n: nat)
    ensures (forall i: nat, j: nat | i < j <= n :: LexLess(MessageId(i), MessageId(j))) <==> n < Pow10(10)
  {
    PaddedOrderIff(10, n);
    forall i: nat ensures MessageId(i) == PrintPadded(10, i) {
    }
  }

  /** Decimal printing is injective, so comparing printed numbers compares the numbers. */
  lemma {:induction false} PrintNatInjective(a: nat, b: nat)
    ensures PrintNat(a) == PrintNat(b) <==> a == b
    decreases a
  {
    var sa, sb := PrintNat(a), PrintNat(b);
    if a >= 10 && b >= 10 {
      PrintNatInjective(a / 10, b / 10);
      assert sa[..|sa| - 1] == PrintNat(a / 10) && sb[..|sb| - 1] == PrintNat(b / 10);
      assert sa[|sa| - 1] == Digit(a % 10) && sb[|sb| - 1] == Digit(b % 10);
    } else if a >= 10 || b >= 10 {
      var big := if a >= 10 then a else b;
      assert |PrintNat(big / 10)| >= 1;
    }
  }

  // ---------- C strings ----------

  /** What a C function sees of a buffer: everything up to the first NUL. */
  function CString(s: string): string {
    if s == "" || s[0] == '\0' then "" else [s[0]] + CString(s[1..])
  }

  /** strncpy of at most `size` characters. */
  function CopyN(s: string, size: nat): string {
    CString(if size < |s| then s[..size] else s)
  }

  predicate NoNul(s: string) {
    '\0' !in s
  }

  lemma {:induction false} CStringWhole(s: string)
    requires NoNul(s)
    ensures CString(s) == s
  {
    if s != "" {
      assert s[0] in s && forall c | c in s[1..] :: c in s;
      CStringWhole(s[1..]);
    }
  }

  lemma CopyWhole(s: string, rest: string)
    requires NoNul(s)
    ensures CopyN(s + rest, |s|) == s
  {
    CStringWhole(s);
    if rest == "" { assert s + rest == s; } else { assert (s + rest)[..|s|] == s; }
  }

  lemma {:induction false} CStringLength(s: string)
    ensures |CString(s)| <= |s|
  {
    if s != "" { CStringLength(s[1..]); }
  }
}
