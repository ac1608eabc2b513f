# Bank cards service: a Dafny model of its core

The system is a Spring Boot back end for bank cards. Users register and sign in
with email and password, and receive a JWT access token plus a refresh token
kept in a cookie. A user sees their own cards with masked numbers, searches
them, blocks or re-activates them, deletes them, and moves money between two of
their own cards. An administrator issues cards, sets balances and manages users.

This project models the service layer that carries those rules:

- `TransactionService` models `transferBetweenOwnCards` and its validation.
- `CardService` models card issue, status changes, lookups, search and the balance summary.
- `AuthService` models register, sign-in, refresh-token rotation and logout.
- `AdminService` models the administrator's writes.
- `CardNumberUtils` models card-number generation, validation and masking.
- `CardMapper` models the masking response mapper.

Supporting modules:

- `Entities` holds the three JPA entities (`Card`, `User`, `Token`) as datatypes.
- `Repositories` holds the stores as classes over a `map`, each with an invariant.
- `Constants` holds the exact message strings.

Modelling choices:

- Operations that change a store are modelled as imperative Dafny `method`s.
  They update repository fields, and each is tied by its `ensures` to a pure
  specification function. The properties are proved as lemmas about those
  functions. The read-only operations `getCardById`, `getCardBalance` and
  `getUserCards` are functions over the stores. `getUserBalance` keeps its
  loop as a method.
- A thrown exception is a `Failure`/`Fail` result.
- Which calls are atomic follows the source's `@Transactional` annotations:
  - Transactional: `transferBetweenOwnCards`; `blockCard`, `activateCard`,
    `deleteCard`, `getCardBalance` and `getUserBalance`; every method of
    `AdminServiceImpl`, which is annotated at class level. A failing call of
    these leaves the stores unchanged. That includes `updateUser`, whose
    email conflict undoes the setters applied before it.
  - `createCard` has no annotation, but it writes once, after its only check.
  - `AuthServiceImpl` has no annotation, so register and refresh are not
    atomic. `register` saves the new user before signing in, and the user
    stays when the sign-in then fails. `refreshToken` revokes and saves the
    old record before it inserts the new one. If that insert fails on the
    unique `token` column (entity/Token.java:26), the old record stays revoked.
- Money is `real`: `BigDecimal`'s add, subtract and compare are exact.
- Randomness, the clock, the JWT service, the password encoder, the text
  encryptor and the authentication manager are parameters of the operations.
  - `random.nextInt(10)` becomes a stream of digits.
  - `Instant.now().plusMillis(...)` becomes a given `Instant`.
  - JWT issue becomes a given pair of token strings, and `isTokenExpired` a given predicate.
  - `passwordEncoder.encode` becomes a given string.
  - `textEncryptor.encrypt` becomes a given function.
  - `authManager.authenticate` becomes a given boolean.
  - A UUID chosen by the database becomes a fresh key passed in.

Behaviours worth noting:

- A transfer from a card to itself is rejected only after the status, amount
  and funds checks. So a same-card transfer larger than the balance reports
  insufficient funds, not the same-card message.
- `refreshToken` answers without a token type: see "## Findings". The model
  of `refreshToken` (`AuthService.RefreshStep`, `AuthService.RefreshToken`)
  is the code as written. `AuthService.RefreshStepIntended` is the corrected
  step, which differs only in that field.

## Model

| member | source | states |
|---|---|---|
| Repositories.FindByIdAndUser | src/main/java/com/example/bankcards/service/impl/TransactionServiceImpl.java:40-44 | the owner-scoped lookup finds a card exactly when the id is stored and belongs to that user, and returns the stored card |
| Repositories.FindByEmail | src/main/java/com/example/bankcards/service/impl/AuthServiceImpl.java:92-93 | a user is found exactly when some stored user has that email, and the one found has it |
| TransactionService.ValidateTransfer | src/main/java/com/example/bankcards/service/impl/TransactionServiceImpl.java:57-77 | passes exactly when both cards are ACTIVE, the amount is positive, the source covers it and the cards differ; each failure carries the message of the first check that fails, in source order |
| TransactionService.CheckTransfer | src/main/java/com/example/bankcards/service/impl/TransactionServiceImpl.java:40-46 | an id that is not one of the user's cards fails with NotFound("Card"); a pass means both cards are the user's and validateTransfer allows the transfer |
| TransactionService.ApplyTransfer | src/main/java/com/example/bankcards/service/impl/TransactionServiceImpl.java:48-52 | debits the source and credits the destination by the amount; no key is added or removed and every other card is unchanged |
| TransactionService.TransferBetweenOwnCards | src/main/java/com/example/bankcards/service/impl/TransactionServiceImpl.java:36-55 | returns the outcome of the two owner-scoped lookups followed by validation; on failure the store is unchanged, on success it is the applied transfer |
| TransactionService.TransferNotFoundIff | src/main/java/com/example/bankcards/service/impl/TransactionServiceImpl.java:40-44 | the transfer fails with NotFound("Card") exactly when either card is missing or belongs to another user |
| TransactionService.TransferSucceedsIff | src/main/java/com/example/bankcards/service/impl/TransactionServiceImpl.java:40-76 | the transfer succeeds exactly when both cards are the user's, both are ACTIVE, 0 < amount <= source balance and the ids differ |
| TransactionService.SameCardInsufficientFundsReportsInsufficientFunds | src/main/java/com/example/bankcards/service/impl/TransactionServiceImpl.java:70-76 | a same-card transfer larger than the balance reports insufficient funds, not the same-card message, because the funds check comes first |
| TransactionService.TransferConservesPairSum | src/main/java/com/example/bankcards/service/impl/TransactionServiceImpl.java:48-49 | the two balances sum to the same amount before and after a transfer |
| TransactionService.TransferLeavesSourceNonNegative | src/main/java/com/example/bankcards/service/impl/TransactionServiceImpl.java:70-72 | after a successful transfer the source balance is non-negative |
| TransactionService.TransferPreservesNonNegativeBalances | src/main/java/com/example/bankcards/service/impl/TransactionServiceImpl.java:66-72 | if every balance is non-negative before a successful transfer, every balance is non-negative after it |
| TransactionService.TotalBalanceSplit | src/main/java/com/example/bankcards/service/impl/TransactionServiceImpl.java:48-52 | the total of all balances is any one card's balance plus the total of the rest |
| TransactionService.TotalBalanceUpdate | src/main/java/com/example/bankcards/service/impl/TransactionServiceImpl.java:48-52 | replacing one card changes the total by exactly the change in its balance |
| TransactionService.TransferConservesTotalBalance | src/main/java/com/example/bankcards/service/impl/TransactionServiceImpl.java:48-52 | a successful transfer leaves the total of all balances unchanged: money is moved, never created or lost |
| TransactionService.TransferScenario | src/main/java/com/example/bankcards/service/impl/TransactionServiceImpl.java:36-77 | on two ACTIVE cards holding 100.00 and 0.00, transferring 40 leaves 60 and 40, and a following transfer of 1000 fails with insufficient funds |
| CardNumberUtils.DigitChar | src/main/java/com/example/bankcards/util/CardNumberUtils.java:16 | appending an int in 0..9 appends a single decimal digit character |
| CardNumberUtils.Drawn | src/main/java/com/example/bankcards/util/CardNumberUtils.java:15-17 | n draws of nextInt(10) give a string of exactly n decimal digits |
| CardNumberUtils.DrawnStep | src/main/java/com/example/bankcards/util/CardNumberUtils.java:28-30 | drawing one more digit appends it to the digits drawn so far |
| CardNumberUtils.GenerateCardNumber | src/main/java/com/example/bankcards/util/CardNumberUtils.java:12-20 | the result is the first 16 draws as digits, so it is 16 digits long and passes validateCardNumber |
| CardNumberUtils.GenerateCardNumberWithBin | src/main/java/com/example/bankcards/util/CardNumberUtils.java:22-35 | with a six-digit BIN the result starts with the BIN followed by 10 drawn digits; with a null or malformed BIN it is the plain 16-digit number; either way it is valid |
| CardNumberUtils.ValidateCardNumber | src/main/java/com/example/bankcards/util/CardNumberUtils.java:37-39 | a number is valid exactly when it is present, 16 characters long and every character is a decimal digit |
| CardNumberUtils.ValidateCardNumberExamples | src/main/java/com/example/bankcards/util/CardNumberUtils.java:37-39 | null, a spaced number, a 15-digit number and one with a letter are rejected; a plain 16-digit number is accepted |
| CardNumberUtils.GetMaskedCardNumber | src/main/java/com/example/bankcards/util/CardNumberUtils.java:41-43 | the masked number ends with the stored last four digits after the mask, and never passes validateCardNumber |
| CardNumberUtils.MaskedCardNumberShape | src/main/java/com/example/bankcards/util/CardNumberUtils.java:41-43 | the masked number is the fixed "**** **** **** " prefix followed by the stored last four digits |
| CardNumberUtils.MaskedCardNumberIgnoresStoredNumber | src/main/java/com/example/bankcards/util/CardNumberUtils.java:41-43 | the masked number does not depend on the stored (encrypted) full number |
| CardMapper.MapToCardResponseFields | src/main/java/com/example/bankcards/util/mappers/CardMapper.java:20-29 | the response shows only the mask plus the last four digits as card number; owner, expiry, status, balance and last four are copied |
| CardMapper.MapToCardResponseIgnoresStoredNumber | src/main/java/com/example/bankcards/util/mappers/CardMapper.java:20-29 | changing the stored full number does not change the response: the full number never reaches it |
| CardMapper.MaskAgreesWithUtils | src/main/java/com/example/bankcards/util/mappers/CardMapper.java:22 | the mapper's masked number equals getMaskedCardNumber of the same card |
| CardMapper.MapToCardResponse | src/main/java/com/example/bankcards/util/mappers/CardMapper.java:20-29 | the response's number is the masked number, never a valid card number; last four, owner, expiry, status and balance are the card's |
| CardMapper.CardToCardDto | src/main/java/com/example/bankcards/util/mappers/CardMapper.java:16 | the full-copy view carries the stored number and the card's other fields unchanged |
| CardMapper.CardViewsDifferOnlyInNumber | src/main/java/com/example/bankcards/util/mappers/CardMapper.java:16-29 | the masked response and the full copy of a card agree on every field except the card number |
| CardService.IssuedCard | src/main/java/com/example/bankcards/service/impl/CardServiceImpl.java:50-64 | a new card is ACTIVE with balance zero, belongs to the requested user, stores the encrypted number and keeps the plain last four digits |
| CardService.CreateCard | src/main/java/com/example/bankcards/service/impl/CardServiceImpl.java:46-67 | an unknown user gives NotFound("User") and no change; otherwise exactly one card is added, built from a freshly generated 16-digit number |
| CardService.IssuedCardNumberRoundTrip | src/main/java/com/example/bankcards/service/impl/CardServiceImpl.java:50-59 | when decryption inverts encryption, decrypting the stored number gives back a valid 16-digit number whose last four are the stored last four |
| CardService.BlockStatus | src/main/java/com/example/bankcards/service/impl/CardServiceImpl.java:113-121 | blocking succeeds exactly for an ACTIVE card and yields BLOCKED; BLOCKED and EXPIRED fail with their own messages |
| CardService.ActivateStatus | src/main/java/com/example/bankcards/service/impl/CardServiceImpl.java:136-144 | activating succeeds exactly for a BLOCKED card and yields ACTIVE; ACTIVE and EXPIRED fail with their own messages |
| CardService.StatusMachine | src/main/java/com/example/bankcards/service/impl/CardServiceImpl.java:113-144 | block and activate undo each other, EXPIRED is terminal for both, and neither ever produces EXPIRED |
| CardService.BlockedCard | src/main/java/com/example/bankcards/service/impl/CardServiceImpl.java:109-121 | the card blockCard saves: NotFound unless the user owns it; on success it is the stored card with only its status set to BLOCKED |
| CardService.ActivatedCard | src/main/java/com/example/bankcards/service/impl/CardServiceImpl.java:132-144 | the card activateCard saves: NotFound unless the user owns it; on success it is the stored card with only its status set to ACTIVE |
| CardService.BlockCard | src/main/java/com/example/bankcards/service/impl/CardServiceImpl.java:106-123 | the store changes only on success, where exactly that card is replaced by its blocked form |
| CardService.ActivateCard | src/main/java/com/example/bankcards/service/impl/CardServiceImpl.java:129-146 | the store changes only on success, where exactly that card is replaced by its activated form |
| CardService.DeleteCard | src/main/java/com/example/bankcards/service/impl/CardServiceImpl.java:152-159 | fails with NotFound exactly when the user does not own the card; otherwise only that card is removed |
| CardService.GetCardById | src/main/java/com/example/bankcards/service/impl/CardServiceImpl.java:96-100 | fails with NotFound exactly when the user does not own the card; otherwise returns its masked response |
| CardService.GetCardBalance | src/main/java/com/example/bankcards/service/impl/CardServiceImpl.java:175-183 | fails with NotFound exactly when the user does not own the card; otherwise returns its balance |
| CardService.TrimStart | src/main/java/com/example/bankcards/service/impl/CardServiceImpl.java:77-78 | removes the leading run of characters <= ' ' and leaves a first character above ' ' |
| CardService.TrimEnd | src/main/java/com/example/bankcards/service/impl/CardServiceImpl.java:77-78 | removes a trailing run of characters <= ' ' and leaves a last character above ' ' |
| CardService.TrimBlank | src/main/java/com/example/bankcards/service/impl/CardServiceImpl.java:77 | a search made only of blanks trims to empty |
| CardService.TrimKeeps | src/main/java/com/example/bankcards/service/impl/CardServiceImpl.java:78 | a term that neither starts nor ends with a blank is unchanged by trim |
| CardService.TrimEndsKept | src/main/java/com/example/bankcards/service/impl/CardServiceImpl.java:78 | a non-empty trimmed term starts and ends with a character above ' ' |
| CardService.Trim | src/main/java/com/example/bankcards/service/impl/CardServiceImpl.java:77-78 | trim never lengthens the term, and it yields the empty string exactly when every character is <= ' ', the case `isEmpty()` treats as no search |
| CardService.SearchDispatch | src/main/java/com/example/bankcards/service/impl/CardServiceImpl.java:77-87 | a missing or blank search lists all the user's cards; a trimmed term of four digits searches last four digits; any other non-blank term searches the owner name |
| CardService.SearchQuery | src/main/java/com/example/bankcards/service/impl/CardServiceImpl.java:77-87 | all cards are listed exactly when the search is null or blank; a last-four search uses the trimmed term, four digits; an owner search uses the trimmed, non-empty term that is not four digits |
| CardService.UpperAsciiString | src/main/java/com/example/bankcards/service/impl/CardServiceImpl.java:83 | case folding keeps the length, folds each character on its own and leaves no lower-case ASCII letter |
| CardService.ContainsIgnoreCase | src/main/java/com/example/bankcards/service/impl/CardServiceImpl.java:83 | an empty fragment is found in any name; a found fragment is no longer than the name |
| CardService.UpperAsciiStringIdempotent | src/main/java/com/example/bankcards/service/impl/CardServiceImpl.java:83 | upper-casing an already upper-cased text changes nothing |
| CardService.ContainsIgnoreCaseIgnoresCase | src/main/java/com/example/bankcards/service/impl/CardServiceImpl.java:83 | the owner search gives the same answer when either the owner name or the term is upper-cased first |
| CardService.OwnerSearchExample | src/main/java/com/example/bankcards/service/impl/CardServiceImpl.java:83 | the terms "ivan" and "Petrov" both match the owner "IVAN PETROV" |
| CardService.SelectCards | src/main/java/com/example/bankcards/service/impl/CardServiceImpl.java:76-86 | a card is selected exactly when it is in the listing, belongs to the user and matches the query; the result is never longer than the listing |
| CardService.SelectCardsAppend | src/main/java/com/example/bankcards/service/impl/CardServiceImpl.java:76-88 | selection distributes over concatenation, so the page keeps the repository's order and any repeated card |
| CardService.SelectCardsSingle | src/main/java/com/example/bankcards/service/impl/CardServiceImpl.java:76-86 | a one-card listing yields that card exactly when it is the user's and matches the query, and nothing otherwise |
| CardService.GetUserCards | src/main/java/com/example/bankcards/service/impl/CardServiceImpl.java:73-90 | the page is the selected cards, in order, each mapped to its masked response |
| CardService.LastFourDigitsSearch | src/main/java/com/example/bankcards/service/impl/CardServiceImpl.java:80-81 | a four-digit search returns exactly the user's cards whose last four digits equal it |
| CardService.ToInt32 | src/main/java/com/example/bankcards/service/impl/CardServiceImpl.java:211 | the (int) cast lands in the 32-bit range, is the identity inside it and agrees with the value modulo 2^32 |
| CardService.ActiveCount | src/main/java/com/example/bankcards/service/impl/CardServiceImpl.java:203-205 | the number of ACTIVE cards never exceeds the number of cards on the page |
| CardService.PageTotal | src/main/java/com/example/bankcards/service/impl/CardServiceImpl.java:201 | the total of a page whose balances are all non-negative is non-negative |
| CardService.BalancesById | src/main/java/com/example/bankcards/service/impl/CardServiceImpl.java:200 | the balance map has exactly the ids of the page's cards as keys |
| CardService.BalancesByIdDistinct | src/main/java/com/example/bankcards/service/impl/CardServiceImpl.java:200 | when ids are distinct, every card's entry is its own balance |
| CardService.GetUserBalance | src/main/java/com/example/bankcards/service/impl/CardServiceImpl.java:190-217 | the summary's total is the page's balance sum, its map is id to balance, its active count counts ACTIVE cards and its card count is the (int) of the total elements |
| AuthService.NewRefreshToken | src/main/java/com/example/bankcards/service/impl/AuthServiceImpl.java:99-106 | a new record is a REFRESH token of that user, neither revoked nor expired, with the given expiry |
| AuthService.Revoked | src/main/java/com/example/bankcards/service/impl/AuthServiceImpl.java:142-143 | revoking sets both the revoked and expired flags and changes nothing else |
| AuthService.RegisteredUser | src/main/java/com/example/bankcards/service/impl/AuthServiceImpl.java:64-73 | a registered user has the request's email, first name, last name and patronymic, the encoded password, ROLE_USER, and is enabled and unlocked |
| AuthService.FindByEmailUnique | src/main/java/com/example/bankcards/service/impl/AuthServiceImpl.java:92-93 | with unique emails, the user found by email is the stored user with that email |
| AuthService.SignIn | src/main/java/com/example/bankcards/service/impl/AuthServiceImpl.java:87-116 | a failed sign-in leaves the token store unchanged; a successful one needs valid credentials, a known email and a new token value, adds exactly that one key and reports "Bearer" |
| AuthService.RefreshCheck | src/main/java/com/example/bankcards/service/impl/AuthServiceImpl.java:124-136 | the presented cookie passes exactly when it is present, stored, neither revoked nor expired and not past its JWT expiry |
| AuthService.RefreshResponseAsWritten | src/main/java/com/example/bankcards/service/impl/AuthServiceImpl.java:161-164 | the refresh body as built has the new access token and the user, and no token type |
| AuthService.RefreshResponse | src/main/java/com/example/bankcards/service/impl/AuthServiceImpl.java:111-115 | the corrected refresh body has the new access token, the user and the "Bearer" type that sign-in reports |
| AuthService.Rotate | src/main/java/com/example/bankcards/service/impl/AuthServiceImpl.java:122-157 | a failed check returns its error with the store unchanged; a success answers for the user who owns the presented stored token, with the new refresh token as cookie |
| AuthService.RefreshStep | src/main/java/com/example/bankcards/service/impl/AuthServiceImpl.java:122-165 | refreshToken as written; a success sets the cookie to the newly issued refresh token |
| AuthService.RefreshStepIntended | src/main/java/com/example/bankcards/service/impl/AuthServiceImpl.java:122-165 | refreshToken as corrected; a success sets the cookie to the newly issued refresh token |
| AuthService.LogoutStore | src/main/java/com/example/bankcards/service/impl/AuthServiceImpl.java:175-181 | logout keeps every key of the store, and each record is either unchanged or revoked |
| AuthService.AuthenticateInternal | src/main/java/com/example/bankcards/service/impl/AuthServiceImpl.java:87-116 | performs the sign-in step on the stores: its result and new token store are those of the sign-in specification |
| AuthService.Register | src/main/java/com/example/bankcards/service/impl/AuthServiceImpl.java:58-78 | a taken email gives a conflict and no change; otherwise the registered user is added and sign-in runs against the new user store |
| AuthService.RefreshToken | src/main/java/com/example/bankcards/service/impl/AuthServiceImpl.java:122-165 | performs the refresh step as written on the token store: its result, including the missing token type, and its new store are those of RefreshStep |
| AuthService.Logout | src/main/java/com/example/bankcards/service/impl/AuthServiceImpl.java:171-183 | revokes the presented stored record, if any, and changes nothing else |
| AuthService.SignInAddsOneRefreshToken | src/main/java/com/example/bankcards/service/impl/AuthServiceImpl.java:90-116 | a successful sign-in adds exactly one usable REFRESH record for the signed-in user, keeps all others, returns that token as cookie and reports "Bearer"; a failed one changes nothing |
| AuthService.SignInFailures | src/main/java/com/example/bankcards/service/impl/AuthServiceImpl.java:90-93 | bad credentials fail authentication, and an unknown email fails with NotFound("User"), both without touching the store |
| AuthService.RefreshMissing | src/main/java/com/example/bankcards/service/impl/AuthServiceImpl.java:126-131 | no cookie, or an unknown one, fails as "missing" and changes nothing |
| AuthService.RefreshInvalid | src/main/java/com/example/bankcards/service/impl/AuthServiceImpl.java:134-136 | a revoked, expired or JWT-expired token fails as "invalid" and changes nothing |
| AuthService.RefreshRotates | src/main/java/com/example/bankcards/service/impl/AuthServiceImpl.java:142-157 | a successful refresh revokes the old record, adds one usable record for the same user under the new value and keeps every other record |
| AuthService.RefreshAlwaysRetiresOldToken | src/main/java/com/example/bankcards/service/impl/AuthServiceImpl.java:142-157 | once the checks pass, the presented record is left unusable even when saving the new record fails; on either path every other record is kept and at most the new key is added |
| AuthService.RefreshTokenSingleUse | src/main/java/com/example/bankcards/service/impl/AuthServiceImpl.java:134-144 | after a successful refresh, presenting the same token again fails as "invalid" and changes nothing |
| AuthService.LogoutEffect | src/main/java/com/example/bankcards/service/impl/AuthServiceImpl.java:175-181 | logout revokes exactly the presented stored record; with no cookie or an unknown one the store is unchanged |
| AuthService.LogoutIdempotent | src/main/java/com/example/bankcards/service/impl/AuthServiceImpl.java:175-181 | logging out twice leaves the same store as logging out once |
| AuthService.LogoutThenRefreshFails | src/main/java/com/example/bankcards/service/impl/AuthServiceImpl.java:126-136 | after logout, refreshing with that token fails as "invalid" and refreshing without a cookie fails as "missing" |
| AuthService.RefreshResponseAsWrittenLacksTokenType | src/main/java/com/example/bankcards/service/impl/AuthServiceImpl.java:161-164 | every successful refresh as written answers with no token type, so never with the "Bearer" every successful sign-in reports |
| AuthService.RefreshAsWrittenExample | src/main/java/com/example/bankcards/service/impl/AuthServiceImpl.java:130-164 | the stored usable token "r1" rotates to "r2": "r1" revoked, "r2" stored, and the answer has access token "a2" and no token type |
| AuthService.RefreshResponseReportsBearer | src/main/java/com/example/bankcards/service/impl/AuthServiceImpl.java:111-115 | with the corrected step, every successful refresh reports the "Bearer" token type, as sign-in does |
| AuthService.RefreshIntendedDiffersOnlyInTokenType | src/main/java/com/example/bankcards/service/impl/AuthServiceImpl.java:122-165 | the corrected step leaves the same store and the same success or error as the written one; on success only the token type differs |
| AdminService.BalanceSetCard | src/main/java/com/example/bankcards/service/impl/AdminServiceImpl.java:69-76 | any user's card is found by id; an unknown card is NotFound, a non-ACTIVE one is rejected; on success only the balance changes and it becomes exactly the amount |
| AdminService.UpdateCardBalance | src/main/java/com/example/bankcards/service/impl/AdminServiceImpl.java:66-84 | on failure the store is unchanged; on success exactly that card is replaced and its masked response is returned |
| AdminService.BalanceSetNonNegative | src/main/java/com/example/bankcards/service/impl/AdminServiceImpl.java:76 | the new balance is non-negative exactly when the requested amount is: the service itself does not check the sign |
| AdminService.CreateUser | src/main/java/com/example/bankcards/service/impl/AdminServiceImpl.java:89-107 | a taken email is a conflict with no change; otherwise one enabled, unlocked ROLE_USER user with the encoded password is added |
| AdminService.UpdateUserStatus | src/main/java/com/example/bankcards/service/impl/AdminServiceImpl.java:136-144 | an unknown user is NotFound; otherwise only that user's enabled flag changes |
| AdminService.UpdateUserLockStatus | src/main/java/com/example/bankcards/service/impl/AdminServiceImpl.java:150-158 | an unknown user is NotFound; otherwise only that user's accountNonLocked flag changes |
| AdminService.DeleteUser | src/main/java/com/example/bankcards/service/impl/AdminServiceImpl.java:201-208 | fails with NotFound exactly for an unknown user; otherwise only that user is removed |
| AdminService.UpdateUser | src/main/java/com/example/bankcards/service/impl/AdminServiceImpl.java:164-195 | the result is the update specification's; the store changes only on success, where exactly that user is replaced |
| AdminService.ApplyUserUpdate | src/main/java/com/example/bankcards/service/impl/AdminServiceImpl.java:170-191 | the update never changes the id, the password or the two flags, and an all-null request changes nothing |
| AdminService.UserUpdate | src/main/java/com/example/bankcards/service/impl/AdminServiceImpl.java:167-193 | an unknown user is NotFound; for a known user it fails exactly when a different email is requested that some user has, with the busy-email message; a success is the field update of that user |
| AdminService.ApplyUserUpdateFields | src/main/java/com/example/bankcards/service/impl/AdminServiceImpl.java:172-191 | each null field keeps its value and each present one overwrites it; id, password and both flags never change |
| AdminService.UserUpdateKeepsPassword | src/main/java/com/example/bankcards/service/impl/AdminServiceImpl.java:170-191 | a successful update never changes the password hash |
| AdminService.UserUpdateConflictIff | src/main/java/com/example/bankcards/service/impl/AdminServiceImpl.java:181-184 | the busy-email conflict arises exactly when a different email is requested and some user already has it |
| AdminService.UserUpdateSameEmailAccepted | src/main/java/com/example/bankcards/service/impl/AdminServiceImpl.java:181 | resubmitting the user's own email is accepted |
| AdminService.UserUpdateKeepsStoreValid | src/main/java/com/example/bankcards/service/impl/AdminServiceImpl.java:181-193 | a successful update keeps user ids and emails unique in the store |

## Left out

- Pagination: `Pageable`, `Page` and the page slicing of the derived queries are not modelled. A listing is the full sequence of stored cards, and `getUserBalance` takes the page and its total element count as inputs.
- `getAllCards`, `getAllUsers`, `getUserById` and `login` are plain reads or pass-throughs outside the modelled core. `login` is `AuthenticateInternal` itself.
- JWT, AES and password hashing are outside the model. Their results are parameters: issued token strings, an expiry predicate, an encrypt function and an encoded password.
- CardService.IssuedCardNumberRoundTrip: the encryptor is a deterministic function here. The real `TextEncryptor` may be randomised; the lemma assumes only that decryption inverts it.
- `getDecryptedCardNumber` is a private helper that nothing in the core calls. It is not modelled.
- Cookie and HTTP handling are not modelled: `CookieUtil`, the max-age cast and the cleared cookie. The presented cookie is an `Option<string>`.
- `UserDto` and the MapStruct mappers `userToUserDto` and `cardToCardDto` are generated code. Responses carry the user's id, or the `User` entity itself; `cardToCardDto` is a plain field copy.
- Concurrency is not modelled: no two service calls interleave. The effect of a failing call follows the source's `@Transactional` annotations, as described above (so `register` and `refreshToken` can leave a partial effect). A `save` that fails on a duplicate unique token value is a `DuplicateTokenValue` failure.
- Money is an exact `real`, so BigDecimal's scale is not modelled: `60.00` and `60` are the same value here, though `BigDecimal.equals` tells them apart. The service compares amounts only with `compareTo`, which ignores scale; but scale shows in the responses and in equality on the DTOs.
- Database-generated UUIDs become fresh keys passed in, with a precondition that the key is not yet stored.
- AdminService.DeleteUser: removes only the user record. Whether deleting a user also removes their cards and tokens depends on the `User` entity's mapping, which is not part of this model.
- CardService.ContainsIgnoreCase: case-insensitive matching folds ASCII letters only. Java's full Unicode case folding is not modelled.
- Bean-validation annotations on request DTOs (`@DecimalMin`, `@NotBlank`, `@NotNull`, ...) run only where the controller marks the request body `@Valid`. Two routes do not: `createUser` (src/main/java/com/example/bankcards/controller/AdminController.java:97) and the transfer route (src/main/java/com/example/bankcards/controller/UserController.java:58). The model applies none of these checks. It accepts any string and any amount, so it covers the validated and the unvalidated routes alike on non-null input. `@PreAuthorize` role guards are not modelled either. This is why `BalanceSetNonNegative` is an if-and-only-if on the amount.
- Null request fields are not modelled: every field of a request is present here, except those the source treats as optional (`Option`). On the routes without `@Valid`, a null can reach the service, with effects the model does not capture. A null transfer `amount` throws a NullPointerException at `amount.compareTo` (src/main/java/com/example/bankcards/service/impl/TransactionServiceImpl.java:66) instead of an application error. A null `createUser` password reaches `passwordEncoder.encode` (src/main/java/com/example/bankcards/service/impl/AdminServiceImpl.java:100).

## Findings

| source | as written | input that shows it | evidently intended | confidence | as-written member | corrected member |
|---|---|---|---|---|---|---|
| src/main/java/com/example/bankcards/service/impl/AuthServiceImpl.java:161-164 | the refresh response is built with Lombok's `@Builder` without `tokenType`; the field initialiser `= "Bearer"` is ignored by the builder without `@Builder.Default`, so `tokenType` is null | any successful refresh, e.g. a stored usable token "r1" presented as the cookie | the refresh response reports the "Bearer" token type, like the sign-in response at lines 111-115 | not executed | AuthService.RefreshResponseAsWrittenLacksTokenType | AuthService.RefreshResponseReportsBearer |
