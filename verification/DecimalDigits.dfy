/** Writing a number digit by digit, from the largest power of ten down, gives its decimal notation. */
module DecimalDigits {
  import opened Bytes
  import opened Wire
  import opened Wrappers

  function Pow10(k: nat): (p: nat)
    ensures p > 0
  {
    if k == 0 then 1 else 10 * Pow10(k - 1)
  }

  /** The digit at position `k`, if no higher position is occupied. */
  function Leading(value: nat, k: nat): (digit: nat)
    requires value < Pow10(k + 1)
    ensures digit < 10
    decreases k
  {
    assert Pow10(1) == 10 * Pow10(0);
    if k == 0 then value else Leading(value / 10, k - 1)
  }

  /** What is below position `k`. */
  function Below(value: nat, k: nat): (rest: nat)
    ensures rest < Pow10(k)
    decreases k
  {
    if k == 0 then 0 else 10 * Below(value / 10, k - 1) + value % 10
  }

  /** The digits of `value` from the position `k` downwards. */
  function DigitText(value: nat, k: nat): seq<Byte>
    requires value < Pow10(k + 1)
    decreases k
  {
    [ZERO + Leading(value, k)] + if k == 0 then [] else DigitText(Below(value, k), k - 1)
  }

  ghost predicate IsText(v: nat, k: nat, text: seq<Byte>) {
    forall key {:trigger Opened(key)} :: Opened(key) ==> v < Pow10(k + 1) && DigitText(v, k) == text
  }

  ghost predicate HasRoom(v: nat, k: nat) {
    forall key {:trigger Opened(key)} :: Opened(key) ==> v < Pow10(k + 1)
  }

  ghost predicate StartsWith(v: nat, k: nat, first: Byte) {
    forall key {:trigger Opened(key)} :: Opened(key) ==> v < Pow10(k + 1) && ZERO + Leading(v, k) == first
  }

  /** The leading digit of a number, and of the number without its last digit, is the same. */
  lemma FirstDigit(v: nat, k: nat) returns (first: Byte)
    requires HasRoom(v, k + 1)
    ensures StartsWith(v, k + 1, first) && StartsWith(v / 10, k, first)
  {
    assert Opened(true);
    first := ZERO + Leading(v, k + 1);
  }

  lemma TextStep(v: nat, k: nat, first: Byte, text: seq<Byte>)
    requires StartsWith(v, k + 1, first) && IsText(Below(v, k + 1), k, text)
    ensures IsText(v, k + 1, [first] + text)
  {
    assert Opened(true);
  }

  lemma BelowStep(v: nat, k: nat)
    ensures Below(v, k + 1) == 10 * Below(v / 10, k) + v % 10 && HasRoom(Below(v, k + 1), k)
  {
  }

  lemma OneDigit(v: nat, first: Byte)
    requires StartsWith(v, 0, first)
    ensures IsText(v, 0, [first])
  {
    assert Opened(true);
  }

  lemma {:induction false} DropLast(v: nat, k: nat) returns (front: seq<Byte>)
    requires HasRoom(v, k + 1)
    ensures IsText(v / 10, k, front) && IsText(v, k + 1, front + [ZERO + v % 10])
    decreases k
  {
    var first := FirstDigit(v, k);
    var last: seq<Byte> := [ZERO + v % 10];
    BelowStep(v, k);
    if k == 0 {
      OneDigit(v / 10, first);
      assert StartsWith(v % 10, 0, ZERO + v % 10);
      OneDigit(v % 10, ZERO + v % 10);
      TextStep(v, 0, first, last);
      front := [first];
    } else {
      TensAndOnes(Below(v / 10, k), v % 10);
      var middle := DropLast(Below(v, k + 1), k - 1);
      TextStep(v, k, first, middle + last);
      TextStep(v / 10, k - 1, first, middle);
      front := [first] + middle;
      assert front + last == [first] + (middle + last);
    }
  }

  lemma DropLastDigit(v: nat, k: nat)
    requires v < Pow10(k + 2)
    ensures v / 10 < Pow10(k + 1)
    ensures DigitText(v, k + 1) == DigitText(v / 10, k) + [ZERO + v % 10]
  {
    var front := DropLast(v, k);
    assert Opened(true);
  }

  lemma TensAndOnes(tens: nat, ones: nat)
    requires ones < 10
    ensures (10 * tens + ones) / 10 == tens && (10 * tens + ones) % 10 == ones
  {
  }

  /** Started at the right power of ten, the digits are exactly the decimal notation, without leading zeros. */
  lemma {:induction false} TextIsDecimal(v: nat, k: nat)
    requires v < Pow10(k + 1) && (k == 0 || Pow10(k) <= v)
    ensures DigitText(v, k) == Decimal(v)
    decreases k
  {
    if k > 0 {
      DropLastDigit(v, k - 1);
      TextIsDecimal(v / 10, k - 1);
    }
  }

  lemma Monotone(m: nat, a: int, b: int)
    ensures a <= b ==> m * a <= m * b
  {
    if a <= b {
      assert m * b == m * a + m * (b - a);
    }
  }

  lemma DivisionIsUnique(v: nat, m: nat, q: nat, r: nat)
    requires v == m * q + r && r < m
    ensures v / m == q && v % m == r
  {
    assert v == m * (v / m) + v % m;
    Monotone(m, v / m + 1, q);
    Monotone(m, q + 1, v / m);
    assert m * (v / m + 1) == m * (v / m) + m && m * (q + 1) == m * q + m;
  }

  lemma SplitLastDigit(v: nat, d: nat)
    requires d > 0
    ensures v / (10 * d) == (v / 10) / d
    ensures v % (10 * d) == 10 * ((v / 10) % d) + v % 10
  {
    var q, r := (v / 10) / d, (v / 10) % d;
    assert v / 10 == d * q + r;
    assert (10 * d) * q == 10 * (d * q);
    DivisionIsUnique(v, 10 * d, q, 10 * r + v % 10);
  }

  /** The leading digit and the rest are the quotient and remainder that the writer computes. */
  lemma {:induction false} DigitsByDivision(v: nat, k: nat)
    requires v < Pow10(k + 1)
    ensures v / Pow10(k) == Leading(v, k) && v % Pow10(k) == Below(v, k)
    decreases k
  {
    if k > 0 {
      DigitsByDivision(v / 10, k - 1);
      SplitLastDigit(v, Pow10(k - 1));
    }
  }

  /** `text` is what the digits writer emits for `value` when it starts at `divisor`. */
  ghost predicate IsDigitText(text: seq<Byte>, value: nat, divisor: nat)
    decreases |text|
  {
    if text == [] then divisor == 0
    else divisor > 0 && text[0] == ZERO + value / divisor && IsDigitText(text[1..], value % divisor, divisor / 10)
  }

  /** Dividing by smaller and smaller powers of ten yields the digits one by one. */
  lemma {:induction false} DigitsAreEmitted(value: nat, k: nat)
    requires value < Pow10(k + 1)
    ensures IsDigitText(DigitText(value, k), value, Pow10(k))
    decreases k
  {
    DigitsByDivision(value, k);
    if k > 0 {
      DigitsAreEmitted(Below(value, k), k - 1);
    }
  }
}
