/**
 * The persistent entities (Card, User, Token) as values, and the exceptions
 * the services throw. `UUID` identifiers are natural numbers; a `LocalDate`
 * or an `Instant` is an integer (days, milliseconds) that the model never
 * interprets beyond comparison.
 */
module Entities {
  import opened Wrappers

  type CardId = nat
  type UserId = nat

  /** A `LocalDate`. */
  type Date = int

  /** An `Instant`, in milliseconds. */
  type Instant = int

  /** A `BigDecimal` amount; exact, as BigDecimal addition and subtraction are. */
  type Amount = real

  datatype CardStatus = Active | Blocked | Expired

  /**
   * entity/Card.java. `cardNumber` is the ciphertext of the full number,
   * `lastFourDigits` its plaintext tail, `user` the owning user's id.
   */
  datatype Card = Card(
    id: CardId,
    cardNumber: string,
    lastFourDigits: string,
    cardOwner: string,
    expiryDate: Date,
    status: CardStatus,
    balance: Amount,
    user: UserId)

  datatype Role = RoleUser | RoleAdmin

  /** The user entity; `password` holds the encoded password. */
  datatype User = User(
    id: UserId,
    email: string,
    firstName: string,
    lastName: string,
    patronymic: Option<string>,
    password: string,
    role: Role,
    enabled: bool,
    accountNonLocked: bool)

  /** The only token type the services persist. */
  datatype TokenType = Refresh

  /** entity/Token.java: a stored refresh token, keyed by its `token` string. */
  datatype Token = Token(
    token: string,
    tokenType: TokenType,
    revoked: bool,
    expired: bool,
    expiresAt: Instant,
    user: UserId)

  /** The exceptions thrown by the services, each with the message it carries. */
  datatype Error =
    | ResourceNotFound(resource: string)        // ResourceNotFoundException
    | InvalidCardOperation(message: string)     // InvalidCardOperationException
    | UserAlreadyExists(message: string)        // UserAlreadyExistsException
    | RefreshTokenMissing(message: string)      // RefreshTokenMissingException
    | IllegalArgument(message: string)          // IllegalArgumentException
    | AuthenticationFailed                      // thrown by the AuthenticationManager
    | DuplicateTokenValue                       // the unique constraint on Token.token
}
