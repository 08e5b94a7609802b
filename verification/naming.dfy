/**
 * Player identifiers: the f-string `f"Player {i+1}"` of `generate_players`.
 * Python formats a positive integer in decimal without leading zeros; the
 * round trip through `DigitsValue` shows the rendering loses nothing, so
 * distinct numbers give distinct names.
 */
module Naming {

  const Prefix: string := "Player "

  function DigitChar(d: nat): (c: char)
    requires d < 10
    ensures '0' <= c <= '9'
  {
    "0123456789"[d]
  }

  function DigitValue(c: char): nat
  {
    if '0' <= c <= '9' then (c - '0') as nat else 0
  }

  /** Decimal rendering of `n`, most significant digit first, no leading zero. */
  function Decimal(n: nat): (s: string)
    ensures |s| >= 1
    ensures forall k :: 0 <= k < |s| ==> '0' <= s[k] <= '9'
    ensures |s| > 1 ==> s[0] != '0'
    decreases n
  {
    if n < 10 then [DigitChar(n)] else Decimal(n / 10) + [DigitChar(n % 10)]
  }

  /** The number a string of decimal digits denotes. */
  function DigitsValue(s: string): nat
  {
    if s == [] then 0 else DigitsValue(s[..|s| - 1]) * 10 + DigitValue(s[|s| - 1])
  }

  /** Reading back a rendered number gives the number. */
  lemma {:induction false} DecimalRoundTrip(n: nat)
    ensures DigitsValue(Decimal(n)) == n
    decreases n
  {
    var s := Decimal(n);
    if n < 10 {
      assert DigitValue(DigitChar(n)) == n;
    } else {
      DecimalRoundTrip(n / 10);
      assert s[..|s| - 1] == Decimal(n / 10);
      assert DigitValue(DigitChar(n % 10)) == n % 10;
    }
  }

  /** The identifier of the player numbered `n` (1-based). */
  function PlayerName(n: nat): (name: string)
    ensures |name| > |Prefix| && name[..|Prefix|] == Prefix
    ensures name[|Prefix|..] == Decimal(n)
  {
    Prefix + Decimal(n)
  }

  /** Players with different numbers get different identifiers. */
  lemma PlayerNameInjective(m: nat, n: nat)
    ensures PlayerName(m) == PlayerName(n) <==> m == n
  {
    if PlayerName(m) == PlayerName(n) {
      assert Decimal(m) == PlayerName(m)[|Prefix|..];
      DecimalRoundTrip(m);
      DecimalRoundTrip(n);
    }
  }
}
