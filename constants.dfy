/** The constants of util/Constants.java that the core uses. */
module Constants {

  const BEARER_TOKEN := "Bearer"

  const USER_ALREADY_EXISTS := "User with this email already exists"
  const REFRESH_TOKEN_MISSING := "Refresh token missing"
  const INVALID_REFRESH_TOKEN_MSG := "Refresh token invalid"
  const CARD_ALREADY_BLOCKED := "Card is already blocked"
  const CANNOT_BLOCK_EXPIRED_CARD := "Cannot block expired card"
  const CARD_ALREADY_ACTIVE := "Card is already active"
  const CANNOT_ACTIVE_EXPIRED_CARD := "Cannot activate expired card"
  const SOURCE_CARD_NOT_ACTIVE := "Source card is not active"
  const DESTINATION_CARD_NOT_ACTIVE := "Destination card is not active"
  const NEGATIVE_AMOUNT := "Amount must be positive"
  const INSUFFICIENT_FUNDS := "Insufficient funds"
  const SAME_CARD_TRANSFER_MSG := "Cannot transfer to the same card"
  const BUSY_EMAIL_MSG := "already is busy"
  const CANNOT_UPDATE_INACTIVE_CARD_BALANCE := "You cannot change the balance of an inactive card"

  const USER_RESOURCE := "User"
  const CARD_RESOURCE := "Card"

  const CARD_NUMBER_LENGTH := 16
  const CARD_MASK := "**** **** **** "
}
