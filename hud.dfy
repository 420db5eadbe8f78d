/** The HUD label's texts and the decimal rendering of a point total that the
    template literals `${playerData.points}` produce. */
module Hud {

  /** The label's text before the first round. */
  const StartPrompt: string := "Click or Tap on screen to start game"

  predicate IsDigit(c: char) { '0' <= c <= '9' }

  predicate AllDigits(s: string) { forall i :: 0 <= i < |s| ==> IsDigit(s[i]) }

  function DigitChar(d: nat): (c: char)
    requires d < 10
    ensures IsDigit(c) && c as int - '0' as int == d
  {
    "0123456789"[d]
  }

  /** Decimal numeral of n, most significant digit first, without leading zeros. */
  function DecimalText(n: nat): (s: string)
    ensures |s| >= 1 && AllDigits(s)
    ensures s[0] == '0' ==> n == 0
  {
    if n < 10 then [DigitChar(n)] else DecimalText(n / 10) + [DigitChar(n % 10)]
  }

  /** The value a string of decimal digits denotes (the reference reading). */
  function DecimalValue(s: string): nat
    requires AllDigits(s)
  {
    if s == [] then 0
    else DecimalValue(s[..|s| - 1]) * 10 + (s[|s| - 1] as int - '0' as int)
  }

  /** Reading back the rendered numeral gives the number. */
  lemma {:induction false} DecimalRoundTrip(n: nat)
    ensures DecimalValue(DecimalText(n)) == n
  {
    if n >= 10 {
      DecimalRoundTrip(n / 10);
      var s := DecimalText(n);
      assert s[..|s| - 1] == DecimalText(n / 10);
    }
  }

  /** Text shown while a round is running: `Points: N`. */
  function PointsText(points: nat): string
  {
    "Points: " + DecimalText(points)
  }

  /** Text shown when a round ends, carrying the final point total. */
  function EndGameText(points: nat): string
  {
    "End Game Points: " + DecimalText(points) + " Click or Tap on screen to start new game"
  }

  /** Distinct point totals are shown as distinct `Points: N` labels. */
  lemma PointsTextInjective(m: nat, n: nat)
    ensures PointsText(m) == PointsText(n) <==> m == n
  {
    if PointsText(m) == PointsText(n) {
      var prefix := "Points: ";
      assert DecimalText(m) == PointsText(m)[|prefix|..];
      assert DecimalText(n) == PointsText(n)[|prefix|..];
      DecimalRoundTrip(m);
      DecimalRoundTrip(n);
    }
  }

  /** A running-round label is never the end-of-round label. */
  lemma PointsTextIsNotEndGameText(m: nat, n: nat)
    ensures PointsText(m) != EndGameText(n)
  {
    assert PointsText(m)[0] == 'P';
    assert EndGameText(n)[0] == 'E';
  }
}
