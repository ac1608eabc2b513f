/**
 * util/CardNumberUtils.java: generating, validating and masking card numbers.
 * The static `Random` is a stream of digits supplied by the caller: `draws(i)`
 * is what the i-th call of `random.nextInt(10)` returns.
 */
module CardNumberUtils {
  import opened Wrappers
  import opened Constants
  import opened Entities

  /** A value `random.nextInt(10)` can return. */
  type Digit = d: int | 0 <= d < 10

  type DigitStream = nat -> Digit

  predicate IsDigit(c: char)
  {
    '0' <= c <= '9'
  }

  predicate AllDigits(s: string)
  {
    forall i :: 0 <= i < |s| ==> IsDigit(s[i])
  }

  /** `s.matches("\\d{n}")`: the whole string is exactly `n` ASCII digits. */
  predicate MatchesDigits(s: string, n: nat)
  {
    |s| == n && AllDigits(s)
  }

  /** The one character `StringBuilder.append(int)` adds for a digit. */
  function DigitChar(d: Digit): (c: char)
    ensures IsDigit(c)
  {
    (('0' as int) + d) as char
  }

  /** The text appended by `n` calls of `nextInt(10)`, starting with call number `from`. */
  function Drawn(draws: DigitStream, from: nat, n: nat): (s: string)
    ensures |s| == n && AllDigits(s)
  {
    var s := seq(n, i requires 0 <= i < n => DigitChar(draws(from + i)));
    assert forall i :: 0 <= i < n ==> s[i] == DigitChar(draws(from + i));
    s
  }

  lemma DrawnStep(draws: DigitStream, from: nat, n: nat)
    ensures Drawn(draws, from, n + 1) == Drawn(draws, from, n) + [DigitChar(draws(from + n))]
  {
    assert Drawn(draws, from, n + 1)[..n] == Drawn(draws, from, n);
  }

  /** generateCardNumber(): sixteen random digits. */
  method GenerateCardNumber(draws: DigitStream) returns (number: string)
    ensures number == Drawn(draws, 0, CARD_NUMBER_LENGTH)
    ensures |number| == CARD_NUMBER_LENGTH && AllDigits(number)
    ensures ValidateCardNumber(Some(number))
  {
    var builder := "";
    for i := 0 to CARD_NUMBER_LENGTH
      invariant builder == Drawn(draws, 0, i)
    {
      DrawnStep(draws, 0, i);
      builder := builder + [DigitChar(draws(i))];
    }
    number := builder;
  }

  /**
   * generateCardNumber(bin): a valid six-digit BIN followed by ten random
   * digits; any other (or a null) BIN falls back to sixteen random digits.
   */
  method GenerateCardNumberWithBin(bin: Option<string>, draws: DigitStream) returns (number: string)
    ensures bin.Some? && MatchesDigits(bin.value, 6) ==>
              number == bin.value + Drawn(draws, 0, CARD_NUMBER_LENGTH - 6)
    ensures !(bin.Some? && MatchesDigits(bin.value, 6)) ==>
              number == Drawn(draws, 0, CARD_NUMBER_LENGTH)
    ensures |number| == CARD_NUMBER_LENGTH && AllDigits(number)
    ensures bin.Some? && MatchesDigits(bin.value, 6) ==> number[..6] == bin.value
    ensures ValidateCardNumber(Some(number))
  {
    if bin.Some? && MatchesDigits(bin.value, 6) {
      var builder := bin.value;
      while |builder| < CARD_NUMBER_LENGTH
        invariant 6 <= |builder| <= CARD_NUMBER_LENGTH
        invariant builder == bin.value + Drawn(draws, 0, |builder| - 6)
        decreases CARD_NUMBER_LENGTH - |builder|
      {
        DrawnStep(draws, 0, |builder| - 6);
        builder := builder + [DigitChar(draws(|builder| - 6))];
      }
      number := builder;
      assert number[..6] == bin.value;
    } else {
      number := GenerateCardNumber(draws);
    }
  }

  /** validateCardNumber: non-null and exactly sixteen digits. */
  function ValidateCardNumber(cardNumber: Option<string>): (valid: bool)
    ensures valid <==> cardNumber.Some? && |cardNumber.value| == CARD_NUMBER_LENGTH
                       && forall i :: 0 <= i < |cardNumber.value| ==> '0' <= cardNumber.value[i] <= '9'
  {
    cardNumber.Some? && MatchesDigits(cardNumber.value, CARD_NUMBER_LENGTH)
  }

  /** getMaskedCardNumber: the fixed mask followed by the stored last four digits. */
  function GetMaskedCardNumber(card: Card): (masked: string)
    ensures |masked| == |CARD_MASK| + |card.lastFourDigits|
    ensures masked[|CARD_MASK|..] == card.lastFourDigits
    ensures !ValidateCardNumber(Some(masked))
  {
    var masked := "**** **** **** " + card.lastFourDigits;
    assert !IsDigit(masked[0]);
    masked
  }

  /** The masked number shows the mask, then exactly the last four digits, and nothing else. */
  lemma MaskedCardNumberShape(card: Card)
    ensures |GetMaskedCardNumber(card)| == |CARD_MASK| + |card.lastFourDigits|
    ensures GetMaskedCardNumber(card)[..|CARD_MASK|] == CARD_MASK
    ensures GetMaskedCardNumber(card)[|CARD_MASK|..] == card.lastFourDigits
  {
  }

  /** validateCardNumber on a few inputs: null, a plain number, a spaced one and a short one. */
  lemma ValidateCardNumberExamples()
    ensures !ValidateCardNumber(None)
    ensures ValidateCardNumber(Some("4000123456789010"))
    ensures !ValidateCardNumber(Some("4000 1234 5678 9010"))
    ensures !ValidateCardNumber(Some("400012345678901"))
    ensures !ValidateCardNumber(Some("400012345678901x"))
  {
    assert !IsDigit("400012345678901x"[15]);
  }

  /** The stored (encrypted) number plays no part in the masked one. */
  lemma MaskedCardNumberIgnoresStoredNumber(card: Card, stored: string)
    ensures GetMaskedCardNumber(card.(cardNumber := stored)) == GetMaskedCardNumber(card)
  {
  }
}
