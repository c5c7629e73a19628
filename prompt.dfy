/**
  The prompt builder `get_prompt` (main.py). Its only behaviour beyond a constant
  template is the randomisation ID: a number drawn with `random.randint(10000, 99999)`
  and written in decimal just before the template's closing newline.
*/
module Prompt {

  const SeedLow: int := 10000
  const SeedHigh: int := 99999

  /**
    `random.randint(a, b)`: both ends included. `draw` stands for the state of
    the random generator, which the model does not otherwise describe.
  */
  function RandInt(a: int, b: int, draw: nat): (r: int)
    requires a <= b
    ensures a <= r <= b
  {
    a + draw % (b - a + 1)
  }

  /** Every value of the closed range can be drawn. */
  lemma RandIntReachesEvery(a: int, b: int, r: int)
    requires a <= r <= b
    ensures exists draw: nat :: RandInt(a, b, draw) == r
  {
    assert RandInt(a, b, r - a) == r;
  }

  /** The randomisation ID embedded in one prompt. */
  function Seed(draw: nat): (s: int)
    ensures SeedLow <= s <= SeedHigh
  {
    RandInt(SeedLow, SeedHigh, draw)
  }

  function Pow10(k: nat): (p: nat)
    ensures p >= 1
  {
    if k == 0 then 1 else 10 * Pow10(k - 1)
  }

  predicate IsDigit(c: char) {
    '0' <= c <= '9'
  }

  /** The character of the decimal digit `d`. */
  function DigitChar(d: nat): (c: char)
    requires d < 10
    ensures IsDigit(c) && (c as int) - ('0' as int) == d
  {
    (('0' as int) + d) as char
  }

  /** Python's `str(n)` for a natural number: decimal, no leading zero. */
  function Decimal(n: nat): (s: string)
    ensures |s| >= 1 && forall k :: 0 <= k < |s| ==> IsDigit(s[k])
    ensures |s| > 1 ==> s[0] != '0'
  {
    if n < 10 then [DigitChar(n)]
    else Decimal(n / 10) + [DigitChar(n % 10)]
  }

  /** Python's `int(s)` on a string of decimal digits. */
  function DecimalValue(s: string): nat
    requires forall k :: 0 <= k < |s| ==> IsDigit(s[k])
  {
    if s == [] then 0
    else assert IsDigit(s[|s| - 1]); 10 * DecimalValue(s[..|s| - 1]) + ((s[|s| - 1] as int) - ('0' as int))
  }

  /** Reading back the decimal text gives the number that was written. */
  lemma {:induction false} DecimalRoundTrip(n: nat)
    ensures DecimalValue(Decimal(n)) == n
  {
    var s := Decimal(n);
    if n >= 10 {
      DecimalRoundTrip(n / 10);
      assert s[..|s| - 1] == Decimal(n / 10);
    }
  }

  /** A number with `k` decimal digits is written with exactly `k` characters. */
  lemma {:induction false} DecimalLength(n: nat, k: nat)
    requires k >= 1 && Pow10(k - 1) <= n < Pow10(k)
    ensures |Decimal(n)| == k
  {
    if k > 1 {
      DecimalLength(n / 10, k - 1);
    }
  }

  /** The prompt text: the fixed template followed by the randomisation ID and a newline. */
  function GetPrompt(template: string, draw: nat): string {
    template + Decimal(Seed(draw)) + "\n"
  }

  /**
    The prompt keeps the template unchanged and ends with the ID and a newline;
    the ID always takes five digits and reads back as the seed drawn.
  */
  lemma GetPromptSpec(template: string, draw: nat)
    ensures var p := GetPrompt(template, draw);
      && |p| == |template| + 6 && p[..|template|] == template && p[|p| - 1] == '\n'
      && (forall k :: |template| <= k < |template| + 5 ==> IsDigit(p[k]))
      && DecimalValue(p[|template|..|template| + 5]) == Seed(draw)
  {
    var id := Decimal(Seed(draw));
    assert Pow10(4) == 10000 && Pow10(5) == 100000;
    DecimalLength(Seed(draw), 5);
    DecimalRoundTrip(Seed(draw));
    var p := GetPrompt(template, draw);
    assert p[|template|..|template| + 5] == id;
  }
}
