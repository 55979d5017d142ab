/** The text form of a ledger key, `account|device|egress|hour`, and of the signed decimal hour in it
    (internal/account/usage.go: `keyedBuckets`, the parsing in `OpenUsage`). */
module LedgerText {
  import opened Usage

  const MAX_INT64: int := 0x7fff_ffff_ffff_ffff
  const MIN_INT64: int := -0x8000_0000_0000_0000
  const MAX_UINT64: int := 0xffff_ffff_ffff_ffff

  predicate IsInt64(v: int) { MIN_INT64 <= v <= MAX_INT64 }

  // ---- decimal integers, as strconv prints and parses them ----

  function Digit(d: nat): char
    requires d < 10
  {
    ['0', '1', '2', '3', '4', '5', '6', '7', '8', '9'][d]
  }

  predicate IsDigit(c: char) { '0' <= c <= '9' }

  function DigitValue(c: char): nat
    requires IsDigit(c)
  {
    c as int - '0' as int
  }

  function Digits(n: nat): string {
    if n < 10 then [Digit(n)] else Digits(n / 10) + [Digit(n % 10)]
  }

  function FormatInt(v: int): string {
    if v < 0 then "-" + Digits(-v) else Digits(v)
  }

  datatype Scan = Value(n: nat) | Syntax | OutOfRange

  /** The digit loop: a non-digit is a syntax error, an overflow stops the scan at once. */
  function ScanDigits(s: string, acc: nat): Scan {
    if s == [] then Value(acc)
    else if !IsDigit(s[0]) then Syntax
    else
      var n := acc * 10 + DigitValue(s[0]);
      if n > MAX_UINT64 then OutOfRange else ScanDigits(s[1..], n)
  }

  /** The value `ParseInt(s, 10, 64)` hands back, whose error the caller ignores: 0 for text that is
      no number, the nearest 64-bit value for one that does not fit. */
  function ParseInt(s: string): int {
    if s == [] then 0 else
      var neg := s[0] == '-';
      var body := if neg || s[0] == '+' then s[1..] else s;
      if body == [] then 0 else
        match ScanDigits(body, 0)
        case Syntax => 0
        case OutOfRange => if neg then MIN_INT64 else MAX_INT64
        case Value(n) =>
          var v: int := if neg then 0 - n else n;
          if v < MIN_INT64 then MIN_INT64 else if v > MAX_INT64 then MAX_INT64 else v
  }

  lemma ParsedInRange(s: string)
    ensures IsInt64(ParseInt(s))
  {
  }

  lemma {:induction false} DigitsScan(n: nat, rest: string)
    requires n <= MAX_UINT64
    ensures ScanDigits(Digits(n) + rest, 0) == ScanDigits(rest, n)
  {
    if n < 10 {
      assert (Digits(n) + rest)[1..] == rest;
    } else {
      var d := [Digit(n % 10)];
      DigitsScan(n / 10, d + rest);
      Regroup(Digits(n / 10), d, rest);
      ScanOne(n % 10, rest, n / 10);
    }
  }

  lemma Regroup(a: string, b: string, c: string)
    ensures (a + b) + c == a + (b + c)
  {
  }

  lemma ScanOne(d: nat, rest: string, acc: nat)
    requires d < 10 && acc * 10 + d <= MAX_UINT64
    ensures ScanDigits([Digit(d)] + rest, acc) == ScanDigits(rest, acc * 10 + d)
  {
    assert ([Digit(d)] + rest)[1..] == rest;
  }

  lemma {:induction false} DigitsAreDigits(n: nat)
    ensures Digits(n) != []
    ensures forall i :: 0 <= i < |Digits(n)| ==> IsDigit(Digits(n)[i])
  {
    if n >= 10 {
      DigitsAreDigits(n / 10);
    }
  }

  /** A printed 64-bit integer parses back to itself, and nothing wider does. */
  lemma IntRoundTrip(v: int)
    ensures ParseInt(FormatInt(v)) == v <==> IsInt64(v)
  {
    if IsInt64(v) {
      var n := if v < 0 then -v else v;
      DigitsAreDigits(n);
      DigitsScan(n, []);
      assert Digits(n) + [] == Digits(n);
      if v < 0 {
        assert FormatInt(v)[1..] == Digits(n);
      }
    } else {
      ParsedInRange(FormatInt(v));
    }
  }

  /** The number a text of digits spells after `acc`. */
  function Number(s: string, acc: nat): nat
    requires forall c <- s :: IsDigit(c)
  {
    if s == [] then acc else Number(s[1..], acc * 10 + DigitValue(s[0]))
  }

  lemma {:induction false} NumberGrows(s: string, acc: nat)
    requires forall c <- s :: IsDigit(c)
    ensures Number(s, acc) >= acc
  {
    if s != [] {
      NumberGrows(s[1..], acc * 10 + DigitValue(s[0]));
    }
  }

  lemma {:induction false} ScansNumber(s: string, acc: nat)
    requires (forall c <- s :: IsDigit(c)) && acc <= MAX_UINT64
    ensures ScanDigits(s, acc) == if Number(s, acc) <= MAX_UINT64 then Value(Number(s, acc)) else OutOfRange
  {
    if s != [] {
      var n := acc * 10 + DigitValue(s[0]);
      if n <= MAX_UINT64 {
        ScansNumber(s[1..], n);
      } else {
        NumberGrows(s[1..], n);
      }
    }
  }

  /** Any digits, signed or not, read as the 64-bit integer nearest to the number they spell. */
  lemma IntRead(sign: string, digits: string)
    requires sign in ["", "+", "-"] && digits != [] && forall c <- digits :: IsDigit(c)
    ensures var v: int := if sign == "-" then 0 - Number(digits, 0) else Number(digits, 0);
            ParseInt(sign + digits) == if v < MIN_INT64 then MIN_INT64 else if v > MAX_INT64 then MAX_INT64 else v
  {
    var s := sign + digits;
    ScansNumber(digits, 0);
    assert IsDigit(digits[0]);
    if sign == "" {
      assert s == digits;
    } else {
      assert s[1..] == digits;
    }
  }

  lemma {:induction false} ScanStops(digits: string, c: char, rest: string, acc: nat)
    requires (forall d <- digits :: IsDigit(d)) && Number(digits, acc) <= MAX_UINT64 && !IsDigit(c)
    ensures ScanDigits(digits + [c] + rest, acc).Syntax?
  {
    var s := digits + [c] + rest;
    if digits != [] {
      var n := acc * 10 + DigitValue(digits[0]);
      NumberGrows(digits[1..], n);
      assert s[1..] == digits[1..] + [c] + rest;
      ScanStops(digits[1..], c, rest, n);
    }
  }

  /** A text that stops being digits before it overflows reads as 0. */
  lemma IntNotRead(digits: string, c: char, rest: string)
    requires (forall d <- digits :: IsDigit(d)) && Number(digits, 0) <= MAX_UINT64
    requires !IsDigit(c) && (digits == [] ==> c != '+' && c != '-')
    ensures ParseInt(digits + [c] + rest) == 0
  {
    ScanStops(digits, c, rest, 0);
    assert digits != [] ==> IsDigit(digits[0]);
  }

  // ---- splitting at bars ----

  predicate BarFree(s: string) {
    '|' !in s
  }

  /** Everything before the first bar; all of `s` when there is none. */
  function Head(s: string): (h: string)
    ensures |h| <= |s| && h == s[..|h|] && BarFree(h)
    ensures |h| < |s| ==> s[|h|] == '|'
  {
    if s == [] || s[0] == '|' then [] else [s[0]] + Head(s[1..])
  }

  /** `strings.SplitN(s, "|", n)`. */
  function SplitN(s: string, n: nat): seq<string>
    requires n >= 1
  {
    var h := Head(s);
    if n == 1 || |h| == |s| then [s] else [h] + SplitN(s[|h| + 1..], n - 1)
  }

  lemma {:induction false} HeadOf(p: string, rest: string)
    ensures BarFree(p) ==> Head(p + "|" + rest) == p
    ensures !BarFree(p) ==> |Head(p + "|" + rest)| < |p|
  {
    var s := p + "|" + rest;
    if p != [] {
      assert s[1..] == p[1..] + "|" + rest;
      HeadOf(p[1..], rest);
    }
  }

  /** One cut of the split: a bar-free part comes off whole, any other comes off short. */
  lemma SplitCut(p: string, rest: string, n: nat)
    requires n >= 2
    ensures |SplitN(p + "|" + rest, n)| >= 1
    ensures BarFree(p) ==> SplitN(p + "|" + rest, n) == [p] + SplitN(rest, n - 1)
    ensures !BarFree(p) ==> SplitN(p + "|" + rest, n)[0] != p
  {
    HeadOf(p, rest);
    var s := p + "|" + rest;
    if BarFree(p) {
      assert s[|p| + 1..] == rest;
    }
  }

  // ---- ledger keys ----

  function PrintKey(b: Bucket): string {
    b.account + "|" + (b.device + "|" + (b.egress + "|" + FormatInt(b.hour)))
  }

  datatype Parsed = Key(bucket: Bucket) | Malformed

  function ParseKey(k: string): Parsed {
    var parts := SplitN(k, 4);
    if |parts| != 4 then Malformed
    else Key(Bucket(parts[0], parts[1], parts[2], ParseInt(parts[3])))
  }

  predicate CleanIds(b: Bucket) {
    BarFree(b.account) && BarFree(b.device) && BarFree(b.egress)
  }

  lemma SplitCleanKey(b: Bucket)
    requires CleanIds(b)
    ensures SplitN(PrintKey(b), 4) == [b.account, b.device, b.egress, FormatInt(b.hour)]
  {
    var h := FormatInt(b.hour);
    SplitCut(b.account, b.device + "|" + (b.egress + "|" + h), 4);
    SplitCut(b.device, b.egress + "|" + h, 3);
    SplitCut(b.egress, h, 2);
  }

  /** The first id with a bar comes back short. */
  lemma SplitDirtyKey(b: Bucket)
    requires !CleanIds(b)
    ensures ParseKey(PrintKey(b)) != Key(b)
  {
    var h := FormatInt(b.hour);
    var tail2 := b.egress + "|" + h;
    var tail1 := b.device + "|" + tail2;
    var parts := SplitN(PrintKey(b), 4);
    SplitCut(b.account, tail1, 4);
    if BarFree(b.account) {
      SplitCut(b.device, tail2, 3);
      assert parts[1..] == SplitN(tail1, 3);
      if BarFree(b.device) {
        SplitCut(b.egress, h, 2);
        assert parts[2..] == SplitN(tail2, 2);
        assert parts[2] == SplitN(tail2, 2)[0];
      } else {
        assert parts[1] == SplitN(tail1, 3)[0];
      }
    }
  }

  function Bars(s: string): nat {
    if s == [] then 0 else Bars(s[1..]) + if s[0] == '|' then 1 else 0
  }

  lemma {:induction false} BarsCut(s: string)
    ensures Bars(s) == if |Head(s)| == |s| then 0 else 1 + Bars(s[|Head(s)| + 1..])
  {
    if s != [] && s[0] != '|' {
      BarsCut(s[1..]);
      assert |Head(s)| < |s| ==> s[1..][|Head(s[1..])| + 1..] == s[|Head(s)| + 1..];
    }
  }

  lemma {:induction false} SplitLength(s: string, n: nat)
    requires n >= 1
    ensures |SplitN(s, n)| == if Bars(s) + 1 < n then Bars(s) + 1 else n
  {
    BarsCut(s);
    if n > 1 && |Head(s)| < |s| {
      SplitLength(s[|Head(s)| + 1..], n - 1);
    }
  }

  /** A key is read if and only if it has three bars or more: three ids before them, and whatever number the rest
      reads as. */
  lemma ReadExactly(key: string, a: string, d: string, e: string, h: string)
    ensures ParseKey(key).Malformed? <==> Bars(key) < 3
    ensures BarFree(a) && BarFree(d) && BarFree(e) && key == a + "|" + (d + "|" + (e + "|" + h)) ==>
              ParseKey(key) == Key(Bucket(a, d, e, ParseInt(h)))
  {
    SplitLength(key, 4);
    if BarFree(a) && BarFree(d) && BarFree(e) && key == a + "|" + (d + "|" + (e + "|" + h)) {
      SplitCut(a, d + "|" + (e + "|" + h), 4);
      SplitCut(d, e + "|" + h, 3);
      SplitCut(e, h, 2);
    }
  }

  /** Parsing a printed key gives the bucket back exactly when no id holds a bar and the hour is a
      64-bit integer. */
  lemma KeyRoundTrip(b: Bucket)
    ensures ParseKey(PrintKey(b)) == Key(b) <==> CleanIds(b) && IsInt64(b.hour)
  {
    if CleanIds(b) {
      SplitCleanKey(b);
      IntRoundTrip(b.hour);
    } else {
      SplitDirtyKey(b);
    }
  }

  /** Distinct buckets never share a key. */
  lemma KeysDistinct(a: Bucket, b: Bucket)
    requires CleanIds(a) && CleanIds(b) && IsInt64(a.hour) && IsInt64(b.hour)
    requires PrintKey(a) == PrintKey(b)
    ensures a == b
  {
    KeyRoundTrip(a);
    KeyRoundTrip(b);
  }
}
