/**
 * service/impl/AdminServiceImpl.java: the administrator's writes. The class is
 * @Transactional, so an exception thrown part-way leaves the stores unchanged.
 */
module AdminService {
  import opened Wrappers
  import opened Constants
  import opened Entities
  import opened Repositories
  import opened CardMapper
  import opened AuthService

  /** dto/card/BalanceUpdateRequest.java. */
  datatype BalanceUpdateRequest = BalanceUpdateRequest(cardId: CardId, amount: Amount)

  /** dto/user/UserUpdateRequest.java: `None` is a field the request leaves null. */
  datatype UserUpdateRequest = UserUpdateRequest(
    firstName: Option<string>,
    lastName: Option<string>,
    patronymic: Option<string>,
    email: Option<string>,
    role: Option<Role>)

  // ---------------------------------------------------------------------------
  // updateCardBalance

  /** The card updateCardBalance saves: any card by id, only if ACTIVE, its balance set to the amount. */
  function BalanceSetCard(cards: map<CardId, Card>, request: BalanceUpdateRequest): (r: Result<Card, Error>)
    ensures request.cardId !in cards ==> r == Failure(ResourceNotFound(CARD_RESOURCE))
    ensures request.cardId in cards && cards[request.cardId].status != Active ==>
              r == Failure(InvalidCardOperation(CANNOT_UPDATE_INACTIVE_CARD_BALANCE))
    ensures r.Success? <==> request.cardId in cards && cards[request.cardId].status == Active
    ensures r.Success? ==> r.value == cards[request.cardId].(balance := request.amount)
  {
    if request.cardId !in cards then Failure(ResourceNotFound(CARD_RESOURCE))
    else
      var card := cards[request.cardId];
      if card.status != Active then Failure(InvalidCardOperation(CANNOT_UPDATE_INACTIVE_CARD_BALANCE))
      else Success(card.(balance := request.amount))
  }

  /** updateCardBalance: sets (does not add to) the balance of an ACTIVE card. */
  method UpdateCardBalance(cardRepository: CardRepository, request: BalanceUpdateRequest)
    returns (r: Result<CardDto, Error>)
    requires cardRepository.Valid()
    modifies cardRepository
    ensures cardRepository.Valid()
    ensures var saved := BalanceSetCard(old(cardRepository.cards), request);
            && (saved.Failure? ==> r == Failure(saved.error) && cardRepository.cards == old(cardRepository.cards))
            && (saved.Success? ==> r == Success(MapToCardResponse(saved.value))
                                   && cardRepository.cards == old(cardRepository.cards)[request.cardId := saved.value])
  {
    if request.cardId !in cardRepository.cards {
      return Failure(ResourceNotFound(CARD_RESOURCE));
    }
    var card := cardRepository.cards[request.cardId];
    if card.status != Active {
      return Failure(InvalidCardOperation(CANNOT_UPDATE_INACTIVE_CARD_BALANCE));
    }
    card := card.(balance := request.amount);
    cardRepository.cards := cardRepository.cards[request.cardId := card];
    r := Success(MapToCardResponse(card));
  }

  /**
   * The service itself does not check the sign of the amount: a balance-set keeps
   * every balance non-negative exactly when the amount is (the request DTO's
   * @DecimalMin guard is what rejects a negative amount).
   */
  lemma BalanceSetNonNegative(cards: map<CardId, Card>, request: BalanceUpdateRequest)
    requires BalanceSetCard(cards, request).Success?
    ensures BalanceSetCard(cards, request).value.balance >= 0.0 <==> request.amount >= 0.0
  {
  }

  // ---------------------------------------------------------------------------
  // createUser

  /** createUser: refuses a taken email; otherwise saves an enabled, unlocked ROLE_USER user. */
  method CreateUser(userRepository: UserRepository, request: RegisterRequest, encodedPassword: string,
                    newUserId: UserId) returns (r: Result<User, Error>)
    requires userRepository.Valid() && newUserId !in userRepository.users
    modifies userRepository
    ensures userRepository.Valid()
    ensures ExistsByEmail(old(userRepository.users), request.email) ==>
              r == Failure(UserAlreadyExists(USER_ALREADY_EXISTS)) && userRepository.users == old(userRepository.users)
    ensures !ExistsByEmail(old(userRepository.users), request.email) ==>
              && r == Success(RegisteredUser(request, encodedPassword, newUserId))
              && userRepository.users == old(userRepository.users)[newUserId := r.value]
  {
    if ExistsByEmail(userRepository.users, request.email) {
      return Failure(UserAlreadyExists(USER_ALREADY_EXISTS));
    }
    var user := RegisteredUser(request, encodedPassword, newUserId);
    userRepository.users := userRepository.users[newUserId := user];
    r := Success(user);
  }

  // ---------------------------------------------------------------------------
  // updateUserStatus, updateUserLockStatus, deleteUser

  /** updateUserStatus: changes `enabled` and nothing else. */
  method UpdateUserStatus(userRepository: UserRepository, userId: UserId, enabled: bool)
    returns (r: Result<User, Error>)
    requires userRepository.Valid()
    modifies userRepository
    ensures userRepository.Valid()
    ensures userId !in old(userRepository.users) ==>
              r == Failure(ResourceNotFound(USER_RESOURCE)) && userRepository.users == old(userRepository.users)
    ensures userId in old(userRepository.users) ==>
              && r == Success(old(userRepository.users)[userId].(enabled := enabled))
              && userRepository.users == old(userRepository.users)[userId := r.value]
  {
    if userId !in userRepository.users {
      return Failure(ResourceNotFound(USER_RESOURCE));
    }
    var user := userRepository.users[userId];
    user := user.(enabled := enabled);
    userRepository.users := userRepository.users[userId := user];
    r := Success(user);
  }

  /** updateUserLockStatus: changes `accountNonLocked` and nothing else. */
  method UpdateUserLockStatus(userRepository: UserRepository, userId: UserId, accountNonLocked: bool)
    returns (r: Result<User, Error>)
    requires userRepository.Valid()
    modifies userRepository
    ensures userRepository.Valid()
    ensures userId !in old(userRepository.users) ==>
              r == Failure(ResourceNotFound(USER_RESOURCE)) && userRepository.users == old(userRepository.users)
    ensures userId in old(userRepository.users) ==>
              && r == Success(old(userRepository.users)[userId].(accountNonLocked := accountNonLocked))
              && userRepository.users == old(userRepository.users)[userId := r.value]
  {
    if userId !in userRepository.users {
      return Failure(ResourceNotFound(USER_RESOURCE));
    }
    var user := userRepository.users[userId];
    user := user.(accountNonLocked := accountNonLocked);
    userRepository.users := userRepository.users[userId := user];
    r := Success(user);
  }

  /** deleteUser: removes exactly that user, or fails with NotFound. */
  method DeleteUser(userRepository: UserRepository, userId: UserId) returns (r: Outcome<Error>)
    requires userRepository.Valid()
    modifies userRepository
    ensures userRepository.Valid()
    ensures r.Fail? <==> userId !in old(userRepository.users)
    ensures r.Fail? ==> r.error == ResourceNotFound(USER_RESOURCE) && userRepository.users == old(userRepository.users)
    ensures r.Pass? ==> userRepository.users == old(userRepository.users) - {userId}
  {
    if userId !in userRepository.users {
      return Fail(ResourceNotFound(USER_RESOURCE));
    }
    userRepository.users := userRepository.users - {userId};
    r := Pass;
  }

  // ---------------------------------------------------------------------------
  // updateUser

  /** A null request field keeps the old value; a present one replaces it. */
  function Keep<T>(requested: Option<T>, current: T): T
  {
    if requested.Some? then requested.value else current
  }

  /** The new email is checked only when it is present and differs from the current one. */
  predicate EmailChanges(user: User, request: UserUpdateRequest)
  {
    request.email.Some? && request.email.value != user.email
  }

  /** The field-by-field update of updateUser, the password then put back as it was. */
  function ApplyUserUpdate(user: User, request: UserUpdateRequest): (r: User)
    ensures r.id == user.id && r.password == user.password
    ensures r.enabled == user.enabled && r.accountNonLocked == user.accountNonLocked
    ensures request == UserUpdateRequest(None, None, None, None, None) ==> r == user
  {
    var updated := user.(
      firstName := Keep(request.firstName, user.firstName),
      lastName := Keep(request.lastName, user.lastName),
      patronymic := if request.patronymic.Some? then request.patronymic else user.patronymic,
      email := if EmailChanges(user, request) then request.email.value else user.email,
      role := Keep(request.role, user.role));
    updated.(password := user.password)
  }

  /** The user updateUser saves, or the exception it throws. */
  function UserUpdate(users: map<UserId, User>, userId: UserId, request: UserUpdateRequest): (r: Result<User, Error>)
    ensures userId !in users ==> r == Failure(ResourceNotFound(USER_RESOURCE))
    ensures userId in users ==>
              (r.Failure? <==> EmailChanges(users[userId], request) && ExistsByEmail(users, request.email.value))
    ensures r.Failure? && userId in users ==> r.error == UserAlreadyExists(BUSY_EMAIL_MSG)
    ensures r.Success? ==> userId in users && r.value == ApplyUserUpdate(users[userId], request)
  {
    if userId !in users then Failure(ResourceNotFound(USER_RESOURCE))
    else if EmailChanges(users[userId], request) && ExistsByEmail(users, request.email.value) then
      Failure(UserAlreadyExists(BUSY_EMAIL_MSG))
    else Success(ApplyUserUpdate(users[userId], request))
  }

  /** updateUser. */
  method UpdateUser(userRepository: UserRepository, userId: UserId, request: UserUpdateRequest)
    returns (r: Result<User, Error>)
    requires userRepository.Valid()
    modifies userRepository
    ensures userRepository.Valid()
    ensures r == UserUpdate(old(userRepository.users), userId, request)
    ensures r.Failure? ==> userRepository.users == old(userRepository.users)
    ensures r.Success? ==> userRepository.users == old(userRepository.users)[userId := r.value]
  {
    if userId !in userRepository.users {
      return Failure(ResourceNotFound(USER_RESOURCE));
    }
    var existedUser := userRepository.users[userId];
    var currentPassword := existedUser.password;

    if request.firstName.Some? {
      existedUser := existedUser.(firstName := request.firstName.value);
    }
    if request.lastName.Some? {
      existedUser := existedUser.(lastName := request.lastName.value);
    }
    if request.patronymic.Some? {
      existedUser := existedUser.(patronymic := request.patronymic);
    }
    if request.email.Some? && request.email.value != existedUser.email {
      if ExistsByEmail(userRepository.users, request.email.value) {
        return Failure(UserAlreadyExists(BUSY_EMAIL_MSG));
      }
      existedUser := existedUser.(email := request.email.value);
    }
    if request.role.Some? {
      existedUser := existedUser.(role := request.role.value);
    }

    existedUser := existedUser.(password := currentPassword);
    assert existedUser == ApplyUserUpdate(userRepository.users[userId], request);

    UserUpdateKeepsStoreValid(userRepository.users, userId, request);
    userRepository.users := userRepository.users[userId := existedUser];
    r := Success(existedUser);
  }

  // ---------------------------------------------------------------------------
  // Properties of updateUser

  /** Each null field keeps its value, each present one overwrites it; id, password and flags never change. */
  lemma ApplyUserUpdateFields(user: User, request: UserUpdateRequest)
    ensures var r := ApplyUserUpdate(user, request);
      && (request.firstName.None? ==> r.firstName == user.firstName)
      && (request.firstName.Some? ==> r.firstName == request.firstName.value)
      && (request.lastName.None? ==> r.lastName == user.lastName)
      && (request.lastName.Some? ==> r.lastName == request.lastName.value)
      && (request.patronymic.None? ==> r.patronymic == user.patronymic)
      && (request.patronymic.Some? ==> r.patronymic == request.patronymic)
      && (request.email.None? ==> r.email == user.email)
      && (request.email.Some? ==> r.email == request.email.value)
      && (request.role.None? ==> r.role == user.role)
      && (request.role.Some? ==> r.role == request.role.value)
      && r.id == user.id && r.password == user.password
      && r.enabled == user.enabled && r.accountNonLocked == user.accountNonLocked
  {
  }

  /** updateUser never changes the password hash, whatever the request. */
  lemma UserUpdateKeepsPassword(users: map<UserId, User>, userId: UserId, request: UserUpdateRequest)
    requires UserUpdate(users, userId, request).Success?
    ensures userId in users && UserUpdate(users, userId, request).value.password == users[userId].password
  {
  }

  /** A conflict is raised exactly when a different email is requested and some user already has it. */
  lemma UserUpdateConflictIff(users: map<UserId, User>, userId: UserId, request: UserUpdateRequest)
    requires userId in users
    ensures UserUpdate(users, userId, request) == Failure(UserAlreadyExists(BUSY_EMAIL_MSG)) <==>
            request.email.Some? && request.email.value != users[userId].email
            && exists other :: other in users && users[other].email == request.email.value
  {
  }

  /** Resubmitting the user's own email is accepted. */
  lemma UserUpdateSameEmailAccepted(users: map<UserId, User>, userId: UserId, request: UserUpdateRequest)
    requires userId in users && request.email == Some(users[userId].email)
    ensures UserUpdate(users, userId, request).Success?
  {
  }

  /** A successful updateUser keeps the store's ids and emails unique. */
  lemma UserUpdateKeepsStoreValid(users: map<UserId, User>, userId: UserId, request: UserUpdateRequest)
    requires UsersKeyed(users) && UniqueEmails(users)
    ensures UserUpdate(users, userId, request).Success? ==>
              var after := users[userId := UserUpdate(users, userId, request).value];
              UsersKeyed(after) && UniqueEmails(after)
  {
    if UserUpdate(users, userId, request).Success? {
      var updated := UserUpdate(users, userId, request).value;
      var after := users[userId := updated];
      forall a, b | a in after && b in after && after[a].email == after[b].email
        ensures a == b
      {
        if a == userId && b != userId {
          assert users[b].email == updated.email;
          assert updated.email != users[userId].email ==> ExistsByEmail(users, updated.email);
        } else if b == userId && a != userId {
          assert users[a].email == updated.email;
          assert updated.email != users[userId].email ==> ExistsByEmail(users, updated.email);
        }
      }
    }
  }
}
