/**
 * The three Spring Data repositories as in-memory stores. Each is an object
 * whose one field is the map the services read and reassign; `save` of a
 * fetched entity is a map update at its key and `delete` removes the key.
 */
module Repositories {
  import opened Wrappers
  import opened Entities

  /** Every card is stored under its own id. */
  ghost predicate CardsKeyed(cards: map<CardId, Card>)
  {
    forall id :: id in cards ==> cards[id].id == id
  }

  /** Every user is stored under its own id. */
  ghost predicate UsersKeyed(users: map<UserId, User>)
  {
    forall id :: id in users ==> users[id].id == id
  }

  /** No two users share an email (the checks of register, createUser and updateUser maintain it). */
  ghost predicate UniqueEmails(users: map<UserId, User>)
  {
    forall a, b :: a in users && b in users && users[a].email == users[b].email ==> a == b
  }

  /** Every token record is stored under its own token string. */
  ghost predicate TokensKeyed(tokens: map<string, Token>)
  {
    forall t :: t in tokens ==> tokens[t].token == t
  }

  /** CardRepository.findByIdAndUser: the card with that id, if the given user owns it. */
  function FindByIdAndUser(cards: map<CardId, Card>, id: CardId, user: UserId): (r: Option<Card>)
    ensures r.Some? <==> id in cards && cards[id].user == user
    ensures r.Some? ==> r.value == cards[id]
  {
    if id in cards && cards[id].user == user then Some(cards[id]) else None
  }

  /** UserRepository.existsByEmail: exact, case-sensitive comparison. */
  predicate ExistsByEmail(users: map<UserId, User>, email: string)
  {
    exists id :: id in users && users[id].email == email
  }

  /** UserRepository.findByEmail, over a store whose emails are unique. */
  ghost function FindByEmail(users: map<UserId, User>, email: string): (r: Option<User>)
    ensures r.Some? <==> ExistsByEmail(users, email)
    ensures r.Some? ==> r.value in users.Values && r.value.email == email
  {
    if ExistsByEmail(users, email) then
      var id :| id in users && users[id].email == email; Some(users[id])
    else None
  }

  class CardRepository {
    var cards: map<CardId, Card>

    ghost predicate Valid()
      reads this
    {
      CardsKeyed(cards)
    }

    constructor ()
      ensures Valid() && cards == map[]
    {
      cards := map[];
    }
  }

  class UserRepository {
    var users: map<UserId, User>

    ghost predicate Valid()
      reads this
    {
      UsersKeyed(users) && UniqueEmails(users)
    }

    constructor ()
      ensures Valid() && users == map[]
    {
      users := map[];
    }
  }

  class TokenRepository {
    var tokens: map<string, Token>

    ghost predicate Valid()
      reads this
    {
      TokensKeyed(tokens)
    }

    constructor ()
      ensures Valid() && tokens == map[]
    {
      tokens := map[];
    }
  }
}
