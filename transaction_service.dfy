/**
 * service/impl/TransactionServiceImpl.java: transfers between two cards of
 * the acting user. Both cards are looked up first, then validateTransfer runs
 * its guards in a fixed order, and only then are the two balances written.
 */
module TransactionService {
  import opened Wrappers
  import opened Constants
  import opened Entities
  import opened Repositories

  /** Everything validateTransfer demands of a transfer. */
  predicate TransferAllowed(fromCard: Card, toCard: Card, amount: Amount)
  {
    && fromCard.status == Active
    && toCard.status == Active
    && amount > 0.0
    && fromCard.balance >= amount
    && fromCard.id != toCard.id
  }

  /** validateTransfer: five guards, in source order; the first that fails decides the exception. */
  function ValidateTransfer(fromCard: Card, toCard: Card, amount: Amount): (r: Outcome<Error>)
    ensures r == Pass <==> TransferAllowed(fromCard, toCard, amount)
    ensures r == Fail(InvalidCardOperation(SOURCE_CARD_NOT_ACTIVE)) <==> fromCard.status != Active
    ensures r == Fail(InvalidCardOperation(DESTINATION_CARD_NOT_ACTIVE)) <==>
              fromCard.status == Active && toCard.status != Active
    ensures r == Fail(InvalidCardOperation(NEGATIVE_AMOUNT)) <==>
              fromCard.status == Active && toCard.status == Active && amount <= 0.0
    ensures r == Fail(InvalidCardOperation(INSUFFICIENT_FUNDS)) <==>
              fromCard.status == Active && toCard.status == Active && amount > 0.0 && fromCard.balance < amount
    ensures r == Fail(InvalidCardOperation(SAME_CARD_TRANSFER_MSG)) <==>
              fromCard.status == Active && toCard.status == Active && amount > 0.0 && fromCard.balance >= amount
              && fromCard.id == toCard.id
  {
    if fromCard.status != Active then Fail(InvalidCardOperation(SOURCE_CARD_NOT_ACTIVE))
    else if toCard.status != Active then Fail(InvalidCardOperation(DESTINATION_CARD_NOT_ACTIVE))
    else if amount <= 0.0 then Fail(InvalidCardOperation(NEGATIVE_AMOUNT))
    else if fromCard.balance < amount then Fail(InvalidCardOperation(INSUFFICIENT_FUNDS))
    else if fromCard.id == toCard.id then Fail(InvalidCardOperation(SAME_CARD_TRANSFER_MSG))
    else Pass
  }

  /** Everything transferBetweenOwnCards checks before it writes: the two lookups, then validateTransfer. */
  function CheckTransfer(cards: map<CardId, Card>, fromCardId: CardId, toCardId: CardId,
                         amount: Amount, user: UserId): (r: Outcome<Error>)
    ensures FindByIdAndUser(cards, fromCardId, user).None? || FindByIdAndUser(cards, toCardId, user).None? ==>
              r == Fail(ResourceNotFound(CARD_RESOURCE))
    ensures r == Pass ==>
              && fromCardId in cards && cards[fromCardId].user == user
              && toCardId in cards && cards[toCardId].user == user
              && TransferAllowed(cards[fromCardId], cards[toCardId], amount)
  {
    match FindByIdAndUser(cards, fromCardId, user)
    case None => Fail(ResourceNotFound(CARD_RESOURCE))
    case Some(fromCard) =>
      match FindByIdAndUser(cards, toCardId, user)
      case None => Fail(ResourceNotFound(CARD_RESOURCE))
      case Some(toCard) => ValidateTransfer(fromCard, toCard, amount)
  }

  /** The two writes: debit the source, credit the destination; every other card untouched. */
  function ApplyTransfer(cards: map<CardId, Card>, fromCardId: CardId, toCardId: CardId,
                         amount: Amount): (r: map<CardId, Card>)
    requires fromCardId in cards && toCardId in cards && fromCardId != toCardId
    ensures r.Keys == cards.Keys
    ensures r[fromCardId] == cards[fromCardId].(balance := cards[fromCardId].balance - amount)
    ensures r[toCardId] == cards[toCardId].(balance := cards[toCardId].balance + amount)
    ensures forall id :: id in cards && id != fromCardId && id != toCardId ==> r[id] == cards[id]
  {
    var fromCard := cards[fromCardId];
    var toCard := cards[toCardId];
    cards[fromCardId := fromCard.(balance := fromCard.balance - amount)]
         [toCardId := toCard.(balance := toCard.balance + amount)]
  }

  /** transferBetweenOwnCards. */
  method TransferBetweenOwnCards(cardRepository: CardRepository, fromCardId: CardId, toCardId: CardId,
                                 amount: Amount, user: UserId) returns (r: Outcome<Error>)
    requires cardRepository.Valid()
    modifies cardRepository
    ensures cardRepository.Valid()
    ensures r == CheckTransfer(old(cardRepository.cards), fromCardId, toCardId, amount, user)
    ensures r.Fail? ==> cardRepository.cards == old(cardRepository.cards)
    ensures r.Pass? ==> fromCardId in old(cardRepository.cards) && toCardId in old(cardRepository.cards)
                        && fromCardId != toCardId
                        && cardRepository.cards == ApplyTransfer(old(cardRepository.cards), fromCardId, toCardId, amount)
  {
    var fromOpt := FindByIdAndUser(cardRepository.cards, fromCardId, user);
    if fromOpt.None? {
      return Fail(ResourceNotFound(CARD_RESOURCE));
    }
    var toOpt := FindByIdAndUser(cardRepository.cards, toCardId, user);
    if toOpt.None? {
      return Fail(ResourceNotFound(CARD_RESOURCE));
    }
    var fromCard, toCard := fromOpt.value, toOpt.value;

    r := ValidateTransfer(fromCard, toCard, amount);
    if r.Fail? {
      return;
    }

    fromCard := fromCard.(balance := fromCard.balance - amount);
    toCard := toCard.(balance := toCard.balance + amount);

    cardRepository.cards := cardRepository.cards[fromCardId := fromCard];
    cardRepository.cards := cardRepository.cards[toCardId := toCard];
  }

  // ---------------------------------------------------------------------------
  // Properties of the transfer

  /** A transfer fails with NotFound exactly when one of the two ids is not a card of the user. */
  lemma TransferNotFoundIff(cards: map<CardId, Card>, fromCardId: CardId, toCardId: CardId,
                            amount: Amount, user: UserId)
    ensures CheckTransfer(cards, fromCardId, toCardId, amount, user) == Fail(ResourceNotFound(CARD_RESOURCE))
            <==> FindByIdAndUser(cards, fromCardId, user).None? || FindByIdAndUser(cards, toCardId, user).None?
  {
  }

  /** A transfer goes through exactly when both cards are the user's and validateTransfer passes. */
  lemma TransferSucceedsIff(cards: map<CardId, Card>, fromCardId: CardId, toCardId: CardId,
                            amount: Amount, user: UserId)
    requires CardsKeyed(cards)
    ensures CheckTransfer(cards, fromCardId, toCardId, amount, user) == Pass <==>
            && fromCardId in cards && cards[fromCardId].user == user
            && toCardId in cards && cards[toCardId].user == user
            && cards[fromCardId].status == Active && cards[toCardId].status == Active
            && amount > 0.0 && cards[fromCardId].balance >= amount
            && fromCardId != toCardId
  {
  }

  /** The insufficient-funds check runs before the same-card check. */
  lemma SameCardInsufficientFundsReportsInsufficientFunds(cards: map<CardId, Card>, id: CardId,
                                                          amount: Amount, user: UserId)
    requires id in cards && cards[id].user == user && cards[id].status == Active
    requires 0.0 < amount && cards[id].balance < amount
    ensures CheckTransfer(cards, id, id, amount, user) == Fail(InvalidCardOperation(INSUFFICIENT_FUNDS))
  {
  }

  /** The sum of the two balances is the same before and after a transfer. */
  lemma TransferConservesPairSum(cards: map<CardId, Card>, fromCardId: CardId, toCardId: CardId, amount: Amount)
    requires fromCardId in cards && toCardId in cards && fromCardId != toCardId
    ensures var after := ApplyTransfer(cards, fromCardId, toCardId, amount);
            after[fromCardId].balance + after[toCardId].balance
            == cards[fromCardId].balance + cards[toCardId].balance
  {
  }

  /** A successful transfer never leaves the source card overdrawn. */
  lemma TransferLeavesSourceNonNegative(cards: map<CardId, Card>, fromCardId: CardId, toCardId: CardId,
                                        amount: Amount, user: UserId)
    requires CardsKeyed(cards)
    requires CheckTransfer(cards, fromCardId, toCardId, amount, user) == Pass
    ensures fromCardId in cards && toCardId in cards && fromCardId != toCardId
    ensures ApplyTransfer(cards, fromCardId, toCardId, amount)[fromCardId].balance >= 0.0
  {
    TransferSucceedsIff(cards, fromCardId, toCardId, amount, user);
  }

  /** Every card's balance is non-negative. */
  ghost predicate NonNegativeBalances(cards: map<CardId, Card>)
  {
    forall id :: id in cards ==> cards[id].balance >= 0.0
  }

  /** A successful transfer keeps every balance of the store non-negative. */
  lemma TransferPreservesNonNegativeBalances(cards: map<CardId, Card>, fromCardId: CardId, toCardId: CardId,
                                             amount: Amount, user: UserId)
    requires CardsKeyed(cards) && NonNegativeBalances(cards)
    requires CheckTransfer(cards, fromCardId, toCardId, amount, user) == Pass
    ensures fromCardId in cards && toCardId in cards && fromCardId != toCardId
    ensures NonNegativeBalances(ApplyTransfer(cards, fromCardId, toCardId, amount))
  {
    TransferSucceedsIff(cards, fromCardId, toCardId, amount, user);
  }

  /** Some key of a non-empty store. */
  ghost function SomeId(cards: map<CardId, Card>): (id: CardId)
    requires cards != map[]
    ensures id in cards
  {
    var id :| id in cards; id
  }

  /** The money held by all cards of the store together. */
  ghost function TotalBalance(cards: map<CardId, Card>): Amount
    decreases |cards|
  {
    if cards == map[] then 0.0
    else
      var id := SomeId(cards);
      cards[id].balance + TotalBalance(cards - {id})
  }

  /** The total can be split at any card, not only at the one TotalBalance picks. */
  lemma {:induction false} TotalBalanceSplit(cards: map<CardId, Card>, id: CardId)
    requires id in cards
    ensures TotalBalance(cards) == cards[id].balance + TotalBalance(cards - {id})
    decreases |cards|
  {
    var picked := SomeId(cards);
    if picked != id {
      var rest := cards - {picked};
      assert |rest| < |cards| by { assert picked in cards && rest.Keys == cards.Keys - {picked}; }
      TotalBalanceSplit(rest, id);
      var restBoth := rest - {id};
      assert restBoth == (cards - {id}) - {picked};
      assert |cards - {id}| < |cards| by { assert (cards - {id}).Keys == cards.Keys - {id}; }
      TotalBalanceSplit(cards - {id}, picked);
    }
  }

  /** Replacing one card's record changes the total by the difference in its balance. */
  lemma TotalBalanceUpdate(cards: map<CardId, Card>, id: CardId, card: Card)
    requires id in cards
    ensures TotalBalance(cards[id := card]) == TotalBalance(cards) - cards[id].balance + card.balance
  {
    TotalBalanceSplit(cards, id);
    TotalBalanceSplit(cards[id := card], id);
    assert cards[id := card] - {id} == cards - {id};
  }

  /** A transfer creates and destroys no money: the store's total balance is unchanged. */
  lemma TransferConservesTotalBalance(cards: map<CardId, Card>, fromCardId: CardId, toCardId: CardId, amount: Amount)
    requires fromCardId in cards && toCardId in cards && fromCardId != toCardId
    ensures TotalBalance(ApplyTransfer(cards, fromCardId, toCardId, amount)) == TotalBalance(cards)
  {
    var fromCard := cards[fromCardId];
    var toCard := cards[toCardId];
    var newFrom := fromCard.(balance := fromCard.balance - amount);
    var newTo := toCard.(balance := toCard.balance + amount);
    var debited := cards[fromCardId := newFrom];
    assert ApplyTransfer(cards, fromCardId, toCardId, amount) == debited[toCardId := newTo];
    TotalBalanceUpdate(cards, fromCardId, newFrom);
    assert debited[toCardId] == toCard;
    TotalBalanceUpdate(debited, toCardId, newTo);
  }

  /** Cards X (100.00) and Y (0.00) of user A, both ACTIVE, for the worked example. */
  function ScenarioCards(): map<CardId, Card>
  {
    map[10 := Card(10, "enc-x", "1111", "A", 0, Active, 100.00, 1),
        20 := Card(20, "enc-y", "2222", "A", 0, Active, 0.00, 1)]
  }

  /**
   * The worked example: transferring 40.00 from X to Y leaves 60.00 and 40.00;
   * then asking for 1000.00 fails with "Insufficient funds" and changes nothing.
   */
  lemma TransferScenario()
    ensures CheckTransfer(ScenarioCards(), 10, 20, 40.00, 1) == Pass
    ensures ApplyTransfer(ScenarioCards(), 10, 20, 40.00)[10].balance == 60.00
    ensures ApplyTransfer(ScenarioCards(), 10, 20, 40.00)[20].balance == 40.00
    ensures CheckTransfer(ApplyTransfer(ScenarioCards(), 10, 20, 40.00), 10, 20, 1000.00, 1)
            == Fail(InvalidCardOperation(INSUFFICIENT_FUNDS))
  {
  }
}
