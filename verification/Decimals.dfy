/** Go's base-10 strconv for 64-bit integers. */
module Decimals {
  import opened Bytes
  import opened Options

  const MIN_INT64 := -0x8000_0000_0000_0000
  const MAX_INT64 := 0x7FFF_FFFF_FFFF_FFFF

  const ZERO: byte := 48
  const MINUS: byte := 45
  const PLUS: byte := 43

  predicate IsDigit(b: byte) {
    ZERO <= b <= ZERO + 9
  }

  predicate AllDigits(s: Bytes) {
    forall i :: 0 <= i < |s| ==> IsDigit(s[i])
  }

  function Magnitude(s: Bytes): nat
    requires AllDigits(s)
  {
    if s == [] then 0 else 10 * Magnitude(s[..|s| - 1]) + (s[|s| - 1] - ZERO)
  }

  /** An optional sign and at least one digit, within the 64-bit range. */
  function ParseInt(s: Bytes): Option<int> {
    var digits := if s != [] && (s[0] == MINUS || s[0] == PLUS) then s[1..] else s;
    if digits == [] || !AllDigits(digits) then None else
      var size: int := Magnitude(digits);
      var n := if s[0] == MINUS then -size else size;
      if MIN_INT64 <= n <= MAX_INT64 then Some(n) else None
  }

  function Digits(n: nat): (s: Bytes)
    ensures s != [] && AllDigits(s)
  {
    var last: byte := ZERO + n % 10;
    if n < 10 then [last] else Digits(n / 10) + [last]
  }

  function FormatInt(n: int): Bytes {
    if n < 0 then [MINUS] + Digits(-n) else Digits(n)
  }

  lemma {:induction false} MagnitudeOfDigits(n: nat)
    ensures Magnitude(Digits(n)) == n
  {
    if n >= 10 {
      MagnitudeOfDigits(n / 10);
      assert Digits(n)[..|Digits(n)| - 1] == Digits(n / 10);
    }
  }

  /** Parsing undoes formatting, over the whole 64-bit range. */
  lemma ParseFormat(n: int)
    requires MIN_INT64 <= n <= MAX_INT64
    ensures ParseInt(FormatInt(n)) == Some(n)
  {
    if n < 0 {
      MagnitudeOfDigits(-n);
      assert FormatInt(n)[1..] == Digits(-n);
    } else {
      MagnitudeOfDigits(n);
      assert IsDigit(FormatInt(n)[0]);
    }
  }

  /** The text "9223372036854775807". */
  const LARGEST: Bytes := [57, 50, 50, 51, 51, 55, 50, 48, 51, 54, 56, 53, 52, 55, 55, 53, 56, 48, 55]

  lemma LastDigit(n: nat, d: nat, s: Bytes)
    requires n > 0 && d < 10 && Digits(n) == s
    ensures Digits(10 * n + d) == s + [ZERO + d]
  {
  }

  lemma FirstDigits()
    ensures Digits(9223) == LARGEST[..4]
  {
  }

  lemma MiddleDigits()
    ensures Digits(9223372036) == LARGEST[..10]
  {
    FirstDigits();
    hide Digits;
    LastDigit(9223, 3, LARGEST[..4]);
    LastDigit(92233, 7, LARGEST[..5]);
    LastDigit(922337, 2, LARGEST[..6]);
    LastDigit(9223372, 0, LARGEST[..7]);
    LastDigit(92233720, 3, LARGEST[..8]);
    LastDigit(922337203, 6, LARGEST[..9]);
  }

  lemma MoreDigits()
    ensures Digits(92233720368547) == LARGEST[..14]
  {
    MiddleDigits();
    hide Digits;
    LastDigit(9223372036, 8, LARGEST[..10]);
    LastDigit(92233720368, 5, LARGEST[..11]);
    LastDigit(922337203685, 4, LARGEST[..12]);
    LastDigit(9223372036854, 7, LARGEST[..13]);
  }

  lemma LargestDigits()
    ensures Digits(MAX_INT64) == LARGEST
  {
    MoreDigits();
    hide Digits;
    LastDigit(92233720368547, 7, LARGEST[..14]);
    LastDigit(922337203685477, 5, LARGEST[..15]);
    LastDigit(9223372036854775, 8, LARGEST[..16]);
    LastDigit(92233720368547758, 0, LARGEST[..17]);
    LastDigit(922337203685477580, 7, LARGEST[..18]);
  }

  lemma LargestParses()
    ensures ParseInt(LARGEST) == Some(MAX_INT64)
  {
    LargestDigits();
    ParseFormat(MAX_INT64);
  }

  // ----- which texts are integers -----

  /** A number is written with digits 0 to 9, without a leading zero, and a minus in front if it is negative. */
  lemma {:induction false} FormatShape(n: int)
    ensures n < 0 ==> FormatInt(n) == [45] + FormatInt(-n)
    ensures n >= 0 ==> FormatInt(n) != [] && forall i :: 0 <= i < |FormatInt(n)| ==> 48 <= FormatInt(n)[i] <= 57
    ensures n > 0 ==> FormatInt(n)[0] != 48
    ensures n == 0 ==> FormatInt(n) == [48]
    decreases if n < 0 then 1 - n else n
  {
    if n >= 10 {
      FormatShape(n / 10);
    }
  }

  function Zeros(k: nat): (s: Bytes)
    ensures |s| == k && forall i :: 0 <= i < k ==> s[i] == 48
  {
    seq(k, _ => 48)
  }

  /** The text is the number with any leading zeros, behind a minus, a plus or no sign. */
  ghost predicate Writes(text: Bytes, n: int) {
    exists k: nat :: WritesWith(text, n, k)
  }

  ghost predicate WritesWith(text: Bytes, n: int, k: nat) {
    || (n >= 0 && text == Zeros(k) + FormatInt(n))
    || (n >= 0 && text == [43] + (Zeros(k) + FormatInt(n)))
    || (n <= 0 && text == [45] + (Zeros(k) + FormatInt(-n)))
  }

  lemma {:induction false} ZerosAdd(k: nat, n: nat)
    ensures AllDigits(Zeros(k) + Digits(n)) && Magnitude(Zeros(k) + Digits(n)) == n
    decreases n
  {
    var s := Zeros(k) + Digits(n);
    if n < 10 {
      ZerosAreNothing(k);
      assert s[..|s| - 1] == Zeros(k);
    } else {
      ZerosAdd(k, n / 10);
      assert s[..|s| - 1] == Zeros(k) + Digits(n / 10);
    }
  }

  lemma {:induction false} ZerosAreNothing(k: nat)
    ensures AllDigits(Zeros(k)) && Magnitude(Zeros(k)) == 0
  {
    if k > 0 {
      ZerosAreNothing(k - 1);
      assert Zeros(k)[..k - 1] == Zeros(k - 1);
    }
  }

  /** Any digits are leading zeros and then the number they spell. */
  lemma {:induction false} DigitsSpell(s: Bytes) returns (k: nat)
    requires s != [] && AllDigits(s)
    ensures s == Zeros(k) + Digits(Magnitude(s))
    decreases |s|
  {
    var last := |s| - 1;
    assert IsDigit(s[last]);
    if last == 0 {
      k := 0;
      assert Magnitude(s[..0]) == 0;
    } else {
      k := DigitsSpell(s[..last]);
      if Magnitude(s[..last]) == 0 {
        assert Zeros(k) + [ZERO] == Zeros(k + 1);
        k := k + 1;
      }
    }
  }

  lemma DigitsParse(s: Bytes, n: int)
    requires s != [] && AllDigits(s) && -0x8000_0000_0000_0000 <= n <= 0x7FFF_FFFF_FFFF_FFFF
    ensures ParseInt(s) == Some(n) <==> Magnitude(s) == n
    ensures ParseInt([43] + s) == Some(n) <==> Magnitude(s) == n
    ensures ParseInt([45] + s) == Some(n) <==> Magnitude(s) == -n
  {
    assert IsDigit(s[0]);
    hide Magnitude;
    assert ([43] + s)[1..] == s && ([45] + s)[1..] == s;
  }

  lemma WritesParses(text: Bytes, n: int)
    requires Writes(text, n) && -0x8000_0000_0000_0000 <= n <= 0x7FFF_FFFF_FFFF_FFFF
    ensures ParseInt(text) == Some(n)
  {
    var k: nat :| WritesWith(text, n, k);
    hide Digits, FormatInt, Magnitude, ParseInt, Zeros, AllDigits;
    var size := if n < 0 then -n else n;
    FormatIs(size);
    ZerosAdd(k, size);
    DigitsParse(Zeros(k) + Digits(size), n);
  }

  lemma FormatIs(n: nat)
    ensures FormatInt(n) == Digits(n)
  {
    hide Digits;
  }

  lemma ParsesWrites(text: Bytes, n: int)
    requires ParseInt(text) == Some(n)
    ensures Writes(text, n)
  {
    var signed := text[0] == MINUS || text[0] == PLUS;
    var s := if signed then text[1..] else text;
    var k := DigitsSpell(s);
    hide Digits, Magnitude;
    assert signed ==> text == [text[0]] + s;
    assert WritesWith(text, n, k);
  }

  /** A text is read as an integer exactly when it writes one of the 64-bit range, and as that one. */
  lemma ParseMeans(text: Bytes, n: int)
    ensures ParseInt(text) == Some(n) <==>
      -9223372036854775808 <= n <= 9223372036854775807 && Writes(text, n)
  {
    if ParseInt(text) == Some(n) {
      ParsesWrites(text, n);
    }
    if -9223372036854775808 <= n <= 9223372036854775807 && Writes(text, n) {
      WritesParses(text, n);
    }
    hide Writes;
  }
}
