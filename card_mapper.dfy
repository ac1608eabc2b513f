/** util/mappers/CardMapper.java: the card views returned to clients. */
module CardMapper {
  import opened Wrappers
  import opened Constants
  import opened Entities
  import CardNumberUtils

  /** dto/card/CardDto.java. */
  datatype CardDto = CardDto(
    cardNumber: string,
    lastFourDigits: string,
    cardOwner: string,
    expiryDate: Date,
    status: CardStatus,
    balance: Amount)

  /** The default method mapToCardResponse: masked number, other fields copied. */
  function MapToCardResponse(card: Card): (dto: CardDto)
    ensures dto.cardNumber == CardNumberUtils.GetMaskedCardNumber(card)
    ensures !CardNumberUtils.ValidateCardNumber(Some(dto.cardNumber))
    ensures dto.lastFourDigits == card.lastFourDigits && dto.cardOwner == card.cardOwner
    ensures dto.expiryDate == card.expiryDate && dto.status == card.status && dto.balance == card.balance
  {
    CardDto(
      CARD_MASK + card.lastFourDigits,
      card.lastFourDigits,
      card.cardOwner,
      card.expiryDate,
      card.status,
      card.balance)
  }

  /**
   * The generated cardToCardDto, taken as the plain field copy it is declared
   * to be: unlike mapToCardResponse it copies the stored (encrypted) number.
   */
  function CardToCardDto(card: Card): (dto: CardDto)
    ensures dto.cardNumber == card.cardNumber
    ensures dto.lastFourDigits == card.lastFourDigits && dto.cardOwner == card.cardOwner
    ensures dto.expiryDate == card.expiryDate && dto.status == card.status && dto.balance == card.balance
  {
    CardDto(
      card.cardNumber,
      card.lastFourDigits,
      card.cardOwner,
      card.expiryDate,
      card.status,
      card.balance)
  }

  /** What mapToCardResponse shows: the mask, then the last four digits; the rest copied. */
  lemma MapToCardResponseFields(card: Card)
    ensures var dto := MapToCardResponse(card);
      && dto.cardNumber[..|CARD_MASK|] == CARD_MASK
      && dto.cardNumber[|CARD_MASK|..] == card.lastFourDigits
      && dto.lastFourDigits == card.lastFourDigits
      && dto.cardOwner == card.cardOwner
      && dto.expiryDate == card.expiryDate
      && dto.status == card.status
      && dto.balance == card.balance
  {
  }

  /** The response never depends on the stored, encrypted card number. */
  lemma MapToCardResponseIgnoresStoredNumber(card: Card, stored: string)
    ensures MapToCardResponse(card.(cardNumber := stored)) == MapToCardResponse(card)
  {
  }

  /** The two views of a card differ only in the number: the masked one against the stored one. */
  lemma CardViewsDifferOnlyInNumber(card: Card)
    ensures MapToCardResponse(card) == CardToCardDto(card).(cardNumber := CardNumberUtils.GetMaskedCardNumber(card))
  {
  }

  /** The mapper's masked number is the one CardNumberUtils.getMaskedCardNumber builds. */
  lemma MaskAgreesWithUtils(card: Card)
    ensures MapToCardResponse(card).cardNumber == CardNumberUtils.GetMaskedCardNumber(card)
  {
  }
}
