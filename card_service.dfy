/**
 * service/impl/CardServiceImpl.java: card creation, the ACTIVE/BLOCKED status
 * machine, lookups and deletes scoped to the owning user, the card search and
 * the balance summary.
 */
module CardService {
  import opened Wrappers
  import opened Constants
  import opened Entities
  import opened Repositories
  import opened CardNumberUtils
  import opened CardMapper

  /** dto/card/CardCreateRequest.java. */
  datatype CardCreateRequest = CardCreateRequest(
    cardOwner: string,
    expiryDate: Date,
    userId: UserId,
    bin: Option<string>)

  // ---------------------------------------------------------------------------
  // createCard

  /**
   * The card createCard builds from a generated plain number: the stored number
   * is its encryption, the last four digits are kept in the clear, the card
   * starts ACTIVE with a zero balance. The request's BIN plays no part.
   */
  function IssuedCard(request: CardCreateRequest, number: string, encrypt: string -> string, id: CardId): (card: Card)
    requires |number| >= 4
    ensures card.id == id && card.user == request.userId
    ensures card.status == Active && card.balance == 0.0
    ensures card.cardNumber == encrypt(number)
    ensures card.lastFourDigits == number[|number| - 4..]
    ensures card.cardOwner == request.cardOwner && card.expiryDate == request.expiryDate
  {
    Card(id, encrypt(number), number[|number| - 4..], request.cardOwner, request.expiryDate,
         Active, 0.0, request.userId)
  }

  /**
   * createCard. The generated id arrives as `newId`; the generator promises it is
   * fresh. The no-argument generator is called, so `request.bin` is not used.
   */
  method CreateCard(cardRepository: CardRepository, userRepository: UserRepository,
                    request: CardCreateRequest, draws: DigitStream, encrypt: string -> string,
                    newId: CardId) returns (r: Result<CardDto, Error>)
    requires cardRepository.Valid() && newId !in cardRepository.cards
    modifies cardRepository
    ensures cardRepository.Valid()
    ensures request.userId !in userRepository.users ==>
              r == Failure(ResourceNotFound(USER_RESOURCE)) && cardRepository.cards == old(cardRepository.cards)
    ensures request.userId in userRepository.users ==>
              var card := IssuedCard(request, Drawn(draws, 0, CARD_NUMBER_LENGTH), encrypt, newId);
              && cardRepository.cards == old(cardRepository.cards)[newId := card]
              && r == Success(CardToCardDto(card))
  {
    if request.userId !in userRepository.users {
      return Failure(ResourceNotFound(USER_RESOURCE));
    }
    var cardNumber := GenerateCardNumber(draws);
    var lastFourDigits := cardNumber[|cardNumber| - 4..];
    var encryptedNumber := encrypt(cardNumber);
    var card := Card(newId, encryptedNumber, lastFourDigits, request.cardOwner, request.expiryDate,
                     Active, 0.0, request.userId);
    cardRepository.cards := cardRepository.cards[newId := card];
    r := Success(CardToCardDto(card));
  }

  /** A created card's stored number decrypts to sixteen digits whose tail is the kept last four digits. */
  lemma IssuedCardNumberRoundTrip(request: CardCreateRequest, draws: DigitStream,
                                  encrypt: string -> string, decrypt: string -> string, id: CardId)
    requires forall s :: decrypt(encrypt(s)) == s
    ensures var card := IssuedCard(request, Drawn(draws, 0, CARD_NUMBER_LENGTH), encrypt, id);
            && ValidateCardNumber(Some(decrypt(card.cardNumber)))
            && decrypt(card.cardNumber)[CARD_NUMBER_LENGTH - 4..] == card.lastFourDigits
            && MatchesDigits(card.lastFourDigits, 4)
  {
    var number := Drawn(draws, 0, CARD_NUMBER_LENGTH);
    assert decrypt(encrypt(number)) == number;
    var tail := number[CARD_NUMBER_LENGTH - 4..];
    assert forall i :: 0 <= i < 4 ==> tail[i] == number[CARD_NUMBER_LENGTH - 4 + i];
  }

  // ---------------------------------------------------------------------------
  // The card status machine: ACTIVE <-> BLOCKED, EXPIRED terminal

  /** The status checks of blockCard, in source order. */
  function BlockStatus(status: CardStatus): (r: Result<CardStatus, Error>)
    ensures r.Success? <==> status == Active
    ensures r.Success? ==> r.value == Blocked
    ensures status == Blocked ==> r == Failure(InvalidCardOperation(CARD_ALREADY_BLOCKED))
    ensures status == Expired ==> r == Failure(InvalidCardOperation(CANNOT_BLOCK_EXPIRED_CARD))
  {
    if status.Blocked? then Failure(InvalidCardOperation(CARD_ALREADY_BLOCKED))
    else if status.Expired? then Failure(InvalidCardOperation(CANNOT_BLOCK_EXPIRED_CARD))
    else Success(Blocked)
  }

  /** The status checks of activateCard, in source order. */
  function ActivateStatus(status: CardStatus): (r: Result<CardStatus, Error>)
    ensures r.Success? <==> status == Blocked
    ensures r.Success? ==> r.value == Active
    ensures status == Active ==> r == Failure(InvalidCardOperation(CARD_ALREADY_ACTIVE))
    ensures status == Expired ==> r == Failure(InvalidCardOperation(CANNOT_ACTIVE_EXPIRED_CARD))
  {
    if status.Active? then Failure(InvalidCardOperation(CARD_ALREADY_ACTIVE))
    else if status.Expired? then Failure(InvalidCardOperation(CANNOT_ACTIVE_EXPIRED_CARD))
    else Success(Active)
  }

  /** Blocking and activating undo each other, and no operation enters or leaves EXPIRED. */
  lemma StatusMachine(status: CardStatus)
    ensures BlockStatus(status).Success? ==> ActivateStatus(BlockStatus(status).value) == Success(status)
    ensures ActivateStatus(status).Success? ==> BlockStatus(ActivateStatus(status).value) == Success(status)
    ensures status == Expired ==> BlockStatus(status).Failure? && ActivateStatus(status).Failure?
    ensures BlockStatus(status).Success? ==> BlockStatus(status).value != Expired
    ensures ActivateStatus(status).Success? ==> ActivateStatus(status).value != Expired
  {
  }

  /** The card blockCard saves: the user's card with status BLOCKED and every other field unchanged. */
  function BlockedCard(cards: map<CardId, Card>, cardId: CardId, user: UserId): (r: Result<Card, Error>)
    ensures FindByIdAndUser(cards, cardId, user).None? ==> r == Failure(ResourceNotFound(CARD_RESOURCE))
    ensures r.Success? <==> cardId in cards && cards[cardId].user == user && cards[cardId].status == Active
    ensures r.Success? ==> r.value == cards[cardId].(status := Blocked)
    ensures cardId in cards && cards[cardId].user == user && cards[cardId].status != Active ==>
              r == Failure(BlockStatus(cards[cardId].status).error)
  {
    match FindByIdAndUser(cards, cardId, user)
    case None => Failure(ResourceNotFound(CARD_RESOURCE))
    case Some(card) =>
      match BlockStatus(card.status)
      case Failure(e) => Failure(e)
      case Success(status) => Success(card.(status := status))
  }

  /** The card activateCard saves: the user's card with status ACTIVE and every other field unchanged. */
  function ActivatedCard(cards: map<CardId, Card>, cardId: CardId, user: UserId): (r: Result<Card, Error>)
    ensures FindByIdAndUser(cards, cardId, user).None? ==> r == Failure(ResourceNotFound(CARD_RESOURCE))
    ensures r.Success? <==> cardId in cards && cards[cardId].user == user && cards[cardId].status == Blocked
    ensures r.Success? ==> r.value == cards[cardId].(status := Active)
    ensures cardId in cards && cards[cardId].user == user && cards[cardId].status != Blocked ==>
              r == Failure(ActivateStatus(cards[cardId].status).error)
  {
    match FindByIdAndUser(cards, cardId, user)
    case None => Failure(ResourceNotFound(CARD_RESOURCE))
    case Some(card) =>
      match ActivateStatus(card.status)
      case Failure(e) => Failure(e)
      case Success(status) => Success(card.(status := status))
  }

  /** blockCard. */
  method BlockCard(cardRepository: CardRepository, cardId: CardId, user: UserId) returns (r: Result<CardDto, Error>)
    requires cardRepository.Valid()
    modifies cardRepository
    ensures cardRepository.Valid()
    ensures var saved := BlockedCard(old(cardRepository.cards), cardId, user);
            && (saved.Failure? ==> r == Failure(saved.error) && cardRepository.cards == old(cardRepository.cards))
            && (saved.Success? ==> r == Success(CardToCardDto(saved.value))
                                   && cardRepository.cards == old(cardRepository.cards)[cardId := saved.value])
  {
    var found := FindByIdAndUser(cardRepository.cards, cardId, user);
    if found.None? {
      return Failure(ResourceNotFound(CARD_RESOURCE));
    }
    var card := found.value;
    if card.status == Blocked {
      return Failure(InvalidCardOperation(CARD_ALREADY_BLOCKED));
    }
    if card.status == Expired {
      return Failure(InvalidCardOperation(CANNOT_BLOCK_EXPIRED_CARD));
    }
    card := card.(status := Blocked);
    cardRepository.cards := cardRepository.cards[cardId := card];
    r := Success(CardToCardDto(card));
  }

  /** activateCard. */
  method ActivateCard(cardRepository: CardRepository, cardId: CardId, user: UserId) returns (r: Result<CardDto, Error>)
    requires cardRepository.Valid()
    modifies cardRepository
    ensures cardRepository.Valid()
    ensures var saved := ActivatedCard(old(cardRepository.cards), cardId, user);
            && (saved.Failure? ==> r == Failure(saved.error) && cardRepository.cards == old(cardRepository.cards))
            && (saved.Success? ==> r == Success(CardToCardDto(saved.value))
                                   && cardRepository.cards == old(cardRepository.cards)[cardId := saved.value])
  {
    var found := FindByIdAndUser(cardRepository.cards, cardId, user);
    if found.None? {
      return Failure(ResourceNotFound(CARD_RESOURCE));
    }
    var card := found.value;
    if card.status == Active {
      return Failure(InvalidCardOperation(CARD_ALREADY_ACTIVE));
    }
    if card.status == Expired {
      return Failure(InvalidCardOperation(CANNOT_ACTIVE_EXPIRED_CARD));
    }
    card := card.(status := Active);
    cardRepository.cards := cardRepository.cards[cardId := card];
    r := Success(CardToCardDto(card));
  }

  /** deleteCard: removes exactly the user's card, or fails with NotFound and removes nothing. */
  method DeleteCard(cardRepository: CardRepository, cardId: CardId, user: UserId) returns (r: Outcome<Error>)
    requires cardRepository.Valid()
    modifies cardRepository
    ensures cardRepository.Valid()
    ensures r.Fail? <==> FindByIdAndUser(old(cardRepository.cards), cardId, user).None?
    ensures r.Fail? ==> r.error == ResourceNotFound(CARD_RESOURCE) && cardRepository.cards == old(cardRepository.cards)
    ensures r.Pass? ==> cardRepository.cards == old(cardRepository.cards) - {cardId}
  {
    var found := FindByIdAndUser(cardRepository.cards, cardId, user);
    if found.None? {
      return Fail(ResourceNotFound(CARD_RESOURCE));
    }
    cardRepository.cards := cardRepository.cards - {found.value.id};
    r := Pass;
  }

  // ---------------------------------------------------------------------------
  // Lookups

  /** getCardById: the masked view of the user's card. */
  function GetCardById(cards: map<CardId, Card>, cardId: CardId, user: UserId): (r: Result<CardDto, Error>)
    ensures r.Failure? <==> !(cardId in cards && cards[cardId].user == user)
    ensures r.Failure? ==> r.error == ResourceNotFound(CARD_RESOURCE)
    ensures r.Success? ==> r.value == MapToCardResponse(cards[cardId])
  {
    match FindByIdAndUser(cards, cardId, user)
    case None => Failure(ResourceNotFound(CARD_RESOURCE))
    case Some(card) => Success(MapToCardResponse(card))
  }

  /** getCardBalance: the balance of the user's card. */
  function GetCardBalance(cards: map<CardId, Card>, cardId: CardId, user: UserId): (r: Result<Amount, Error>)
    ensures r.Failure? <==> !(cardId in cards && cards[cardId].user == user)
    ensures r.Failure? ==> r.error == ResourceNotFound(CARD_RESOURCE)
    ensures r.Success? ==> r.value == cards[cardId].balance
  {
    match FindByIdAndUser(cards, cardId, user)
    case None => Failure(ResourceNotFound(CARD_RESOURCE))
    case Some(card) => Success(card.balance)
  }

  // ---------------------------------------------------------------------------
  // The search of getUserCards

  /** A character String.trim strips: any code point up to the space. */
  predicate IsTrimmed(c: char)
  {
    c <= ' '
  }

  /** The text after the leading trimmed characters. */
  function TrimStart(s: string): (r: string)
    ensures |r| <= |s| && r == s[|s| - |r|..]
    ensures forall i :: 0 <= i < |s| - |r| ==> IsTrimmed(s[i])
    ensures r != [] ==> !IsTrimmed(r[0])
    decreases |s|
  {
    if s != [] && IsTrimmed(s[0]) then TrimStart(s[1..]) else s
  }

  /** The text before the trailing trimmed characters. */
  function TrimEnd(s: string): (r: string)
    ensures |r| <= |s| && r == s[..|r|]
    ensures forall i :: |r| <= i < |s| ==> IsTrimmed(s[i])
    ensures r != [] ==> !IsTrimmed(r[|r| - 1])
    decreases |s|
  {
    if s != [] && IsTrimmed(s[|s| - 1]) then TrimEnd(s[..|s| - 1]) else s
  }

  /** String.trim. */
  function Trim(s: string): (r: string)
    ensures |r| <= |s|
    ensures r == [] <==> forall i :: 0 <= i < |s| ==> IsTrimmed(s[i])
  {
    var t := TrimStart(s);
    assert t != [] ==> t[0] == s[|s| - |t|];
    TrimEnd(t)
  }

  /** A term made only of trimmed characters trims to the empty string, the case `isEmpty()` rejects. */
  lemma TrimBlank(s: string)
    requires forall i :: 0 <= i < |s| ==> IsTrimmed(s[i])
    ensures Trim(s) == []
  {
  }

  /** A term that starts and ends with a kept character is left as it is. */
  lemma TrimKeeps(s: string)
    requires s != [] && !IsTrimmed(s[0]) && !IsTrimmed(s[|s| - 1])
    ensures Trim(s) == s
  {
  }

  /** The trimmed text starts and ends with kept characters. */
  lemma TrimEndsKept(s: string)
    ensures Trim(s) != [] ==> !IsTrimmed(Trim(s)[0]) && !IsTrimmed(Trim(s)[|Trim(s)| - 1])
  {
    var t := TrimStart(s);
    var r := TrimEnd(t);
    if r != [] {
      assert r[0] == t[0];
    }
  }

  /** Which repository query getUserCards runs. */
  datatype CardQuery =
    | AllOfUser                          // findByUser
    | ByLastFourDigits(digits: string)   // findByUserAndLastFourDigits
    | ByCardOwner(fragment: string)      // findByUserAndCardOwnerContainingIgnoreCase

  /** The branch selection of getUserCards. */
  function SearchQuery(search: Option<string>): (query: CardQuery)
    ensures query.AllOfUser? <==> search.None? || Trim(search.value) == []
    ensures query.ByLastFourDigits? ==> MatchesDigits(query.digits, 4) && query.digits == Trim(search.value)
    ensures query.ByCardOwner? ==> query.fragment != [] && !MatchesDigits(query.fragment, 4)
                                   && query.fragment == Trim(search.value)
  {
    if search.Some? && Trim(search.value) != [] then
      var term := Trim(search.value);
      if MatchesDigits(term, 4) then ByLastFourDigits(term) else ByCardOwner(term)
    else AllOfUser
  }

  /** A null or blank term lists every card; exactly four digits (after trimming) select by last four digits; anything else searches the owner name. */
  lemma SearchDispatch(search: Option<string>)
    ensures search.None? ==> SearchQuery(search) == AllOfUser
    ensures search.Some? && (forall i :: 0 <= i < |search.value| ==> IsTrimmed(search.value[i])) ==>
              SearchQuery(search) == AllOfUser
    ensures search.Some? && MatchesDigits(Trim(search.value), 4) ==>
              SearchQuery(search) == ByLastFourDigits(Trim(search.value))
    ensures search.Some? && Trim(search.value) != [] && !MatchesDigits(Trim(search.value), 4) ==>
              SearchQuery(search) == ByCardOwner(Trim(search.value))
  {
    if search.Some? && (forall i :: 0 <= i < |search.value| ==> IsTrimmed(search.value[i])) {
      TrimBlank(search.value);
    }
  }

  /** ASCII upper-casing, the case folding the model gives to IgnoreCase. */
  function UpperAscii(c: char): char
  {
    if 'a' <= c <= 'z' then (c as int - 32) as char else c
  }

  function UpperAsciiString(s: string): (r: string)
    ensures |r| == |s|
    ensures forall i :: 0 <= i < |s| ==> r[i] == UpperAscii(s[i])
    ensures forall i :: 0 <= i < |s| ==> !('a' <= r[i] <= 'z')
  {
    seq(|s|, i requires 0 <= i < |s| => UpperAscii(s[i]))
  }

  /** `fragment` occurs in `text` starting at position `i`. */
  predicate OccursAt(text: string, fragment: string, i: int)
  {
    0 <= i && i + |fragment| <= |text| && text[i..i + |fragment|] == fragment
  }

  /** `fragment` occurs in `text`. */
  predicate Contains(text: string, fragment: string)
  {
    exists i :: 0 <= i <= |text| - |fragment| && OccursAt(text, fragment, i)
  }

  /** ContainingIgnoreCase. */
  function ContainsIgnoreCase(text: string, fragment: string): (found: bool)
    ensures fragment == [] ==> found
    ensures found ==> |fragment| <= |text|
  {
    assert OccursAt(UpperAsciiString(text), UpperAsciiString(fragment), 0) ==> Contains(UpperAsciiString(text), UpperAsciiString(fragment));
    Contains(UpperAsciiString(text), UpperAsciiString(fragment))
  }

  /** Upper-casing twice is upper-casing once. */
  lemma UpperAsciiStringIdempotent(s: string)
    ensures UpperAsciiString(UpperAsciiString(s)) == UpperAsciiString(s)
  {
  }

  /** The owner-name search ignores the case of both the owner name and the search term. */
  lemma ContainsIgnoreCaseIgnoresCase(text: string, fragment: string)
    ensures ContainsIgnoreCase(UpperAsciiString(text), fragment) == ContainsIgnoreCase(text, fragment)
    ensures ContainsIgnoreCase(text, UpperAsciiString(fragment)) == ContainsIgnoreCase(text, fragment)
  {
    UpperAsciiStringIdempotent(text);
    UpperAsciiStringIdempotent(fragment);
  }

  /** A concrete owner search: "ivan" and "Petrov" both find the owner "IVAN PETROV". */
  lemma OwnerSearchExample()
    ensures ContainsIgnoreCase("IVAN PETROV", "ivan")
    ensures ContainsIgnoreCase("IVAN PETROV", "Petrov")
  {
    assert OccursAt(UpperAsciiString("IVAN PETROV"), UpperAsciiString("ivan"), 0);
    assert OccursAt(UpperAsciiString("IVAN PETROV"), UpperAsciiString("Petrov"), 5);
  }

  predicate QueryMatches(query: CardQuery, card: Card)
  {
    match query
    case AllOfUser => true
    case ByLastFourDigits(digits) => card.lastFourDigits == digits
    case ByCardOwner(fragment) => ContainsIgnoreCase(card.cardOwner, fragment)
  }

  /** The cards a query returns, in the repository's order. */
  function SelectCards(listing: seq<Card>, user: UserId, query: CardQuery): (r: seq<Card>)
    ensures |r| <= |listing|
    ensures forall c :: c in r <==> c in listing && c.user == user && QueryMatches(query, c)
  {
    if listing == [] then []
    else
      var rest := SelectCards(listing[1..], user, query);
      if listing[0].user == user && QueryMatches(query, listing[0]) then [listing[0]] + rest else rest
  }

  /**
   * Selection is a filter: selecting from two listings in a row gives the
   * selection from the first followed by the selection from the second, so the
   * result keeps the listing's order (and any repeated card).
   */
  lemma {:induction false} SelectCardsAppend(a: seq<Card>, b: seq<Card>, user: UserId, query: CardQuery)
    ensures SelectCards(a + b, user, query) == SelectCards(a, user, query) + SelectCards(b, user, query)
    decreases |a|
  {
    if a == [] {
      assert a + b == b;
    } else {
      assert (a + b)[0] == a[0];
      assert (a + b)[1..] == a[1..] + b;
      SelectCardsAppend(a[1..], b, user, query);
    }
  }

  /** A single card is selected exactly when it is the user's and matches. */
  lemma SelectCardsSingle(c: Card, user: UserId, query: CardQuery)
    ensures SelectCards([c], user, query) == if c.user == user && QueryMatches(query, c) then [c] else []
  {
    assert [c][1..] == [];
  }

  /**
   * getUserCards, over `listing`, the cards of the store in the repository's
   * order; each selected card is shown through mapToCardResponse.
   */
  function GetUserCards(listing: seq<Card>, user: UserId, search: Option<string>): (r: seq<CardDto>)
    ensures |r| == |SelectCards(listing, user, SearchQuery(search))|
    ensures forall i :: 0 <= i < |r| ==> r[i] == MapToCardResponse(SelectCards(listing, user, SearchQuery(search))[i])
  {
    var selected := SelectCards(listing, user, SearchQuery(search));
    seq(|selected|, i requires 0 <= i < |selected| => MapToCardResponse(selected[i]))
  }

  /** A four-digit search returns exactly the user's cards with those last four digits. */
  lemma LastFourDigitsSearch(listing: seq<Card>, user: UserId, digits: string, c: Card)
    requires MatchesDigits(digits, 4)
    ensures c in SelectCards(listing, user, SearchQuery(Some(digits))) <==>
            c in listing && c.user == user && c.lastFourDigits == digits
  {
    assert !IsTrimmed(digits[0]) && !IsTrimmed(digits[3]);
    TrimKeeps(digits);
  }

  // ---------------------------------------------------------------------------
  // getUserBalance

  /** dto/card/BalanceResponse.java. */
  datatype BalanceResponse = BalanceResponse(
    totalBalance: Amount,
    cardBalances: map<CardId, Amount>,
    totalCards: int,
    activeCards: nat)

  /** Java's `(int)` narrowing of a `long`: the low 32 bits, read as two's complement. */
  function ToInt32(x: int): (r: int)
    ensures -0x8000_0000 <= r < 0x8000_0000
    ensures -0x8000_0000 <= x < 0x8000_0000 ==> r == x
    ensures (r - x) % 0x1_0000_0000 == 0
  {
    (x + 0x8000_0000) % 0x1_0000_0000 - 0x8000_0000
  }

  /** The sum of the balances of the page, added left to right. */
  function PageTotal(page: seq<Card>): (total: Amount)
    ensures (forall i :: 0 <= i < |page| ==> page[i].balance >= 0.0) ==> total >= 0.0
  {
    if page == [] then 0.0 else PageTotal(page[..|page| - 1]) + page[|page| - 1].balance
  }

  /** The number of ACTIVE cards on the page. */
  function ActiveCount(page: seq<Card>): (n: nat)
    ensures n <= |page|
  {
    if page == [] then 0
    else ActiveCount(page[..|page| - 1]) + (if page[|page| - 1].status == Active then 1 else 0)
  }

  /** The map the loop fills: each card's id to its balance, a later card overwriting an earlier one. */
  function BalancesById(page: seq<Card>): (m: map<CardId, Amount>)
    ensures m.Keys == set c | c in page :: c.id
    ensures forall i :: 0 <= i < |page| ==> page[i].id in m
  {
    if page == [] then map[]
    else
      var prefix := page[..|page| - 1];
      var last := page[|page| - 1];
      var m := BalancesById(prefix);
      assert (set c | c in page :: c.id) == (set c | c in prefix :: c.id) + {last.id} by {
        assert page == prefix + [last];
      }
      m[last.id := last.balance]
  }

  /** No two cards of the page share an id. */
  predicate DistinctIds(page: seq<Card>)
  {
    forall i, j :: 0 <= i < j < |page| ==> page[i].id != page[j].id
  }

  /** When the ids are distinct, the map holds every card's own balance. */
  lemma {:induction false} BalancesByIdDistinct(page: seq<Card>)
    requires DistinctIds(page)
    ensures forall i :: 0 <= i < |page| ==> BalancesById(page)[page[i].id] == page[i].balance
  {
    if page != [] {
      var prefix := page[..|page| - 1];
      var last := page[|page| - 1];
      assert DistinctIds(prefix);
      BalancesByIdDistinct(prefix);
      assert BalancesById(page) == BalancesById(prefix)[last.id := last.balance];
      forall i | 0 <= i < |page| - 1
        ensures BalancesById(page)[page[i].id] == page[i].balance
      {
        assert page[i] == prefix[i] && page[i].id != last.id;
      }
    }
  }

  /**
   * getUserBalance over one page of the user's cards. `totalElements` is the
   * repository's count of all the user's cards, narrowed to `int` as in the source.
   */
  method GetUserBalance(page: seq<Card>, totalElements: nat) returns (response: BalanceResponse)
    ensures response.totalBalance == PageTotal(page)
    ensures response.activeCards == ActiveCount(page) && response.activeCards <= |page|
    ensures response.cardBalances == BalancesById(page)
    ensures response.cardBalances.Keys == set c | c in page :: c.id
    ensures response.totalCards == ToInt32(totalElements)
  {
    var totalBalance := 0.0;
    var cardBalances: map<CardId, Amount> := map[];
    var activeCardsCount := 0;
    for i := 0 to |page|
      invariant totalBalance == PageTotal(page[..i])
      invariant cardBalances == BalancesById(page[..i])
      invariant activeCardsCount == ActiveCount(page[..i])
    {
      var card := page[i];
      assert page[..i + 1][..i] == page[..i];
      cardBalances := cardBalances[card.id := card.balance];
      totalBalance := totalBalance + card.balance;
      if card.status == Active {
        activeCardsCount := activeCardsCount + 1;
      }
    }
    assert page[..|page|] == page;
    response := BalanceResponse(totalBalance, cardBalances, ToInt32(totalElements), activeCardsCount);
  }
}
