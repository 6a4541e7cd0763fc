/**
 * The `/count` service: one `usize` counter that can be incremented,
 * decremented and read back as decimal text.
 */
module Counter {
  import opened Wrappers

  const USIZE_MAX: nat := 0xFFFF_FFFF_FFFF_FFFF

  /** Rust's 64-bit `usize`. */
  type usize = n: nat | n <= USIZE_MAX

  /** POST /count/inc: one more; `usize` arithmetic forbids going past the maximum. */
  function Inc(v: usize): (r: usize)
    requires v < USIZE_MAX
    ensures r > v
  {
    v + 1
  }

  /**
   * POST /count/dec: one less. The subtraction is unchecked `usize`
   * arithmetic, which is only defined on a counter of at least 1.
   */
  function Dec(v: usize): (r: usize)
    requires v >= 1
    ensures r < v
  {
    v - 1
  }

  /**
   * The increment as a release build computes it: `usize` addition wraps
   * modulo 2^64, so a counter at the largest `usize` becomes 0.
   */
  function IncWrapping(v: usize): (r: usize)
    ensures r % (USIZE_MAX + 1) == (v + 1) % (USIZE_MAX + 1)
  {
    if v == USIZE_MAX then 0 else v + 1
  }

  /** Decrementing undoes incrementing. */
  lemma IncThenDec(v: usize)
    requires v < USIZE_MAX
    ensures Dec(Inc(v)) == v
  {
  }

  /** Incrementing undoes decrementing. */
  lemma DecThenInc(v: usize)
    requires v >= 1
    ensures Inc(Dec(v)) == v
  {
  }

  /**
   * The decrement as a release build computes it: `usize` subtraction wraps
   * modulo 2^64, so a zero counter becomes the largest `usize`.
   */
  function DecWrapping(v: usize): (r: usize)
    ensures (r + 1) % (USIZE_MAX + 1) == v
  {
    if v == 0 then USIZE_MAX else v - 1
  }

  /** A decrement of a zero counter leaves it larger than before, at its maximum. */
  lemma DecAtZeroWraps()
    ensures DecWrapping(0) > 0
    ensures DecWrapping(0) == USIZE_MAX
  {
  }

  /**
   * In a release build a wrapped decrement is undone by the wrapped
   * increment: POST /count/dec then POST /count/inc on a fresh counter
   * passes through the largest `usize` and comes back to 0.
   */
  lemma IncAfterDecWrapping(v: usize)
    ensures IncWrapping(DecWrapping(v)) == v
    ensures DecWrapping(IncWrapping(v)) == v
  {
  }

  /**
   * The decrement with the check the handler's `Option` answer has room
   * for: a zero counter is refused and left as it is.
   */
  function DecChecked(v: usize): (r: Option<usize>)
    ensures r.None? <==> v == 0
    ensures r.Some? ==> r.value + 1 == v
  {
    if v == 0 then None else Some(v - 1)
  }

  /** The checked decrement undoes an increment and never wraps. */
  lemma IncThenDecChecked(v: usize)
    requires v < USIZE_MAX
    ensures DecChecked(Inc(v)) == Some(v)
  {
  }

  /** The character of one decimal digit. */
  function DigitChar(d: nat): char
    requires d < 10
  {
    ('0' as int + d) as char
  }

  predicate IsDigit(c: char)
  {
    '0' <= c <= '9'
  }

  /** Canonical decimal text: at least one digit and no leading zero. */
  predicate IsDecimal(t: string)
  {
    && |t| >= 1
    && (forall i :: 0 <= i < |t| ==> IsDigit(t[i]))
    && (t[0] == '0' ==> |t| == 1)
  }

  /** The decimal text of `n`, most significant digit first. */
  function Digits(n: nat): (t: string)
    ensures IsDecimal(t)
    decreases n
  {
    if n < 10 then [DigitChar(n)] else Digits(n / 10) + [DigitChar(n % 10)]
  }

  /** The value of a string of decimal digits. */
  function ParseDecimal(t: string): nat
    requires forall i :: 0 <= i < |t| ==> IsDigit(t[i])
    decreases |t|
  {
    if t == [] then 0
    else
      assert IsDigit(t[|t| - 1]);
      10 * ParseDecimal(t[..|t| - 1]) + (t[|t| - 1] as int - '0' as int)
  }

  /** GET /count/: the counter's value as decimal text. */
  function CountGet(v: usize): (t: string)
    ensures IsDecimal(t)
    ensures ParseDecimal(t) == v
  {
    ParseDigits(v);
    Digits(v)
  }

  /** Reading the decimal text back gives the counter's value. */
  lemma {:induction false} ParseDigits(n: nat)
    ensures ParseDecimal(Digits(n)) == n
    decreases n
  {
    if n >= 10 {
      var t := Digits(n);
      assert t[..|t| - 1] == Digits(n / 10);
      ParseDigits(n / 10);
    }
  }

  /** After an increment, the count reads back one more than before. */
  lemma CountGetAfterInc(v: usize)
    requires v < USIZE_MAX
    ensures ParseDecimal(CountGet(Inc(v))) == v + 1
  {
    ParseDigits(v + 1);
  }
}
