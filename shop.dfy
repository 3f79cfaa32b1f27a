/**
 * POST /api/shop/buy (src/app/api/shop/buy/route.ts): a guarded purchase.
 * The checks run in order (session, body, item, user, level, coin); the
 * first that fails answers with no change; when all pass the price is
 * debited and the item's inventory row is incremented or created.
 */
module ShopBuy {
  import opened Wrappers
  import opened Json
  import opened Store
  import Validations

  /** A row of the shop-item table. */
  datatype ShopItem = ShopItem(id: int, namaItem: string, hargaCoin: int, levelMinimal: int)

  datatype BuyResponse =
    | Unauthorized                              // 401
    | BadRequest(issue: Validations.Issue)      // 400 with the first schema issue
    | ItemNotFound                              // 404 "Item tidak ditemukan"
    | UserNotFound                              // 404 "User tidak ditemukan"
    | LevelTooLow(item: ShopItem)               // 400, names the item and its minimum level
    | NotEnoughCoin(item: ShopItem)             // 400, names the item and its price
    | Bought(item: ShopItem, newBalance: int)

  /** The body passes `buyItemSchema`. */
  predicate ValidBody(body: Value)
  {
    Validations.SafeParse(Validations.BuyItemSchema, body).Valid?
  }

  /** The item id of a body that passed the schema. */
  function ItemIdOf(body: Value): int
    requires ValidBody(body)
  {
    Validations.BuyItemAccepts(body);
    Get(body, "itemId").n
  }

  /**
   * The POST handler. `authenticated` stands for a valid session, `items` for
   * the shop-item table keyed by id, `user` for the session's row (null when
   * it is missing).
   */
  method BuyItem(authenticated: bool, body: Value, items: map<int, ShopItem>, user: User?)
    returns (resp: BuyResponse)
    modifies user
    // the checks, in order
    ensures !authenticated ==> resp == Unauthorized
    ensures authenticated && !ValidBody(body) ==>
      resp == BadRequest(Validations.SafeParse(Validations.BuyItemSchema, body).issues[0])
    ensures authenticated && ValidBody(body) && ItemIdOf(body) !in items ==> resp == ItemNotFound
    ensures authenticated && ValidBody(body) && ItemIdOf(body) in items && user == null ==> resp == UserNotFound
    ensures authenticated && ValidBody(body) && ItemIdOf(body) in items && user != null ==>
      var item := items[ItemIdOf(body)];
      && (old(user.level) < item.levelMinimal ==> resp == LevelTooLow(item))
      && (old(user.level) >= item.levelMinimal && old(user.coin) < item.hargaCoin ==> resp == NotEnoughCoin(item))
      && (old(user.level) >= item.levelMinimal && old(user.coin) >= item.hargaCoin ==> resp.Bought?)
    // a rejection changes nothing
    ensures !resp.Bought? && user != null ==> unchanged(user)
    // a purchase debits the price and adds one to the item's inventory row
    ensures resp.Bought? ==>
      var id := ItemIdOf(body);
      && authenticated && id in items && user != null
      && resp.item == items[id]
      && user.coin == old(user.coin) - resp.item.hargaCoin >= 0
      && resp.newBalance == user.coin
      && id in user.inventory
      && user.inventory[id] == (if id in old(user.inventory) then old(user.inventory)[id] + 1 else 1)
      && (forall k :: k != id ==> (k in user.inventory <==> k in old(user.inventory)))
      && (forall k :: k != id && k in old(user.inventory) ==> user.inventory[k] == old(user.inventory)[k])
      && user.level == old(user.level) && user.xp == old(user.xp) && user.xpNext == old(user.xpNext)
      && user.lastChallengeDate == old(user.lastChallengeDate)
      && user.challengeScores == old(user.challengeScores)
  {
    if !authenticated {
      return Unauthorized;
    }
    var parsed := Validations.SafeParse(Validations.BuyItemSchema, body);
    if parsed.Invalid? {
      return BadRequest(parsed.issues[0]);
    }
    var itemId := ItemIdOf(body);
    if itemId !in items {
      return ItemNotFound;
    }
    var item := items[itemId];
    if user == null {
      return UserNotFound;
    }
    if user.level < item.levelMinimal {
      return LevelTooLow(item);
    }
    if user.coin < item.hargaCoin {
      return NotEnoughCoin(item);
    }
    var oldCoin := user.coin;
    user.coin := user.coin - item.hargaCoin;
    if itemId in user.inventory {
      user.inventory := user.inventory[itemId := user.inventory[itemId] + 1];
    } else {
      user.inventory := user.inventory[itemId := 1];
    }
    resp := Bought(item, oldCoin - item.hargaCoin);
  }
}
