/**
 * The two purchase handlers of the user controller: `HandleBoughtMods` buys catalog mods
 * onto one of the buyer's servers, `BuyPremium` buys a developer's subscription bundle into
 * the buyer's personal stock. Both pay developers through the ledger's transfer and then
 * debit the buyer's tracked account.
 */
module Purchases {
  import opened Wrappers
  import opened Text
  import opened Records
  import opened Store
  import opened IdLists
  import opened ClaimCodec
  import opened Ledger

  // ------------------------------------------------------------------ buying mods

  datatype BuyError =
    | ServerNotFound        // "Server was not found"
    | UserNotFound          // "User not found"
    | NotOwner              // the server belongs to someone else
    | ModsNotFound          // no requested id is in the catalog
    | NotEnoughMoney        // "Not enought money"
    | ServerListUnreadable  // `int.Parse` throws on the server's list

  /** `Mods.Where(m => requested.Contains(m.Id))`: the catalog rows asked for, in table order. */
  function Requested(mods: seq<Mod>, requested: seq<int>): (r: seq<Mod>)
    ensures |r| <= |mods|
  {
    if |mods| == 0 then []
    else
      var p := Requested(mods[..|mods| - 1], requested);
      var m := mods[|mods| - 1];
      if m.id in requested then p + [m] else p
  }

  /** A row is requested exactly when it is in the catalog and its id was asked for. */
  lemma {:induction false} RequestedMembers(mods: seq<Mod>, requested: seq<int>, m: Mod)
    ensures m in Requested(mods, requested) <==> m in mods && m.id in requested
  {
    if |mods| > 0 {
      RequestedMembers(mods[..|mods| - 1], requested, m);
      assert mods == mods[..|mods| - 1] + [mods[|mods| - 1]];
    }
  }

  /** The summed price of some catalog rows. */
  function PriceSum(mods: seq<Mod>): int {
    if |mods| == 0 then 0 else PriceSum(mods[..|mods| - 1]) + mods[|mods| - 1].price
  }

  function IdsOf(mods: seq<Mod>): (ids: seq<int>)
    ensures |ids| == |mods| && forall i :: 0 <= i < |mods| ==> ids[i] == mods[i].id
  {
    seq(|mods|, i requires 0 <= i < |mods| => mods[i].id)
  }

  /**
   * The reference for what is actually bought: walking the requested rows in order, a row
   * is new when its id is neither on the server list nor the id of an earlier new row.
   */
  function Fresh(known: seq<int>, mods: seq<Mod>): (r: seq<Mod>)
    ensures |r| <= |mods|
  {
    if |mods| == 0 then []
    else
      var p := Fresh(known, mods[..|mods| - 1]);
      var m := mods[|mods| - 1];
      if m.id in known || m.id in IdsOf(p) then p else p + [m]
  }

  /** The purchase rows created for the new mods: auto-renew on, expiring 30 days on. */
  function PurchasesOf(buyer: int, serverId: int, mods: seq<Mod>, today: int): (r: seq<Purchase>)
    ensures |r| == |mods|
  {
    seq(|mods|, i requires 0 <= i < |mods| =>
      Purchase(buyer, mods[i].id, serverId, today, true, today + 30))
  }

  /** The loop state of `HandleBoughtMods`: the tables, `ServerModsIds` and `price`. */
  datatype Cart = Cart(t: Tables, ids: seq<int>, price: int)

  /**
   * One turn of the purchase loop. A mod already on the list only lowers the running price;
   * a new one is appended and paid for.
   */
  function BuyStep(c: Cart, buyer: int, serverId: int, mod: Mod, today: int): (r: Cart)
    ensures r.t == c.t.(users := r.t.users, profit := r.t.profit, purchases := r.t.purchases)
    ensures |r.t.users| == |c.t.users|
  {
    if mod.id in c.ids then c.(price := c.price - mod.price)
    else Cart(Pay(c.t, buyer, serverId, mod, today), c.ids + [mod.id], c.price)
  }

  /**
   * A new mod: its developer (found by group) is paid the mod's price through the ledger
   * when the price is positive, and a purchase row is added.
   */
  function Pay(t: Tables, buyer: int, serverId: int, mod: Mod, today: int): (r: Tables)
    ensures r == t.(users := r.users, profit := r.profit, purchases := r.purchases)
    ensures |r.users| == |t.users|
  {
    var d := DeveloperByGroup(t.developers, mod.modsby);
    var t1 := if d.Some? && mod.price > 0
      then Transfer(t, buyer, t.developers[d.value].nameOfMod, mod.price as real, IntToString(mod.id), today).value
      else t;
    t1.(purchases := t1.purchases + [Purchase(buyer, mod.id, serverId, today, true, today + 30)])
  }

  /** The whole purchase loop over the requested rows. */
  function BuyAll(c: Cart, buyer: int, serverId: int, mods: seq<Mod>, today: int): (r: Cart)
    ensures r.t == c.t.(users := r.t.users, profit := r.t.profit, purchases := r.t.purchases)
    ensures |r.t.users| == |c.t.users|
  {
    if |mods| == 0 then c
    else BuyStep(BuyAll(c, buyer, serverId, mods[..|mods| - 1], today), buyer, serverId, mods[|mods| - 1], today)
  }

  /** The handler on the tables; `today` stands for `DateTime.Now`. */
  function BuyMods(t: Tables, requested: seq<int>, serverIp: string, username: string, today: int)
    : (r: Result<Tables, BuyError>)
    ensures r.Success? ==> r.value == t.(users := r.value.users, profit := r.value.profit,
                                         purchases := r.value.purchases, servers := r.value.servers)
    ensures r.Success? ==> |r.value.users| == |t.users| && |r.value.servers| == |t.servers|
  {
    match ServerByIp(t.servers, serverIp)
    case None => Failure(ServerNotFound)
    case Some(s) =>
      match UserByLogin(t.users, username)
      case None => Failure(UserNotFound)
      case Some(u) =>
        if t.servers[s].ownerId != t.users[u].id then Failure(NotOwner)
        else
          var mods := Requested(t.mods, requested);
          if |mods| == 0 then Failure(ModsNotFound)
          else
            var price := PriceSum(mods);
            if !(price >= 0 && price as real <= t.users[u].balance) then Failure(NotEnoughMoney)
            else
              match ParseIds(t.servers[s].mods)
              case None => Failure(ServerListUnreadable)
              case Some(serverIds) => Success(Checkout(t, u, s, serverIds, mods, today))
  }

  /** The accepted purchase: the loop, then the buyer's debit and the sorted server list. */
  function Checkout(t: Tables, u: nat, s: nat, serverIds: seq<int>, mods: seq<Mod>, today: int): (r: Tables)
    requires u < |t.users| && s < |t.servers|
    ensures r == t.(users := r.users, profit := r.profit, purchases := r.purchases, servers := r.servers)
    ensures |r.users| == |t.users| && |r.servers| == |t.servers|
  {
    Finish(BuyAll(Cart(t, serverIds, PriceSum(mods)), t.users[u].id, t.servers[s].id, mods, today), u, s)
  }

  /** After the loop: the buyer's tracked account pays the running price, the list is stored sorted. */
  function Finish(c: Cart, u: nat, s: nat): Tables
    requires u < |c.t.users| && s < |c.t.servers|
  {
    var buyer := c.t.users[u];
    c.t.(users := c.t.users[u := buyer.(balance := buyer.balance - c.price as real)],
         servers := c.t.servers[s := c.t.servers[s].(mods := JoinIds(Sort(c.ids)))])
  }

  /** The debit lowers the total of all balances by the running price. */
  lemma FinishTotal(c: Cart, u: nat, s: nat)
    requires u < |c.t.users| && s < |c.t.servers|
    ensures TotalBalance(Finish(c, u, s).users) == TotalBalance(c.t.users) - c.price as real
    ensures Finish(c, u, s).profit == c.t.profit
  {
    DebitTotal(c.t.users, u, c.price as real, Finish(c, u, s).users);
  }

  /** The loop appends exactly the fresh ids, and the running price ends as the price of
      the fresh rows alone. */
  lemma {:induction false} BuyAllIds(c0: Cart, buyer: int, serverId: int, mods: seq<Mod>, today: int)
    ensures var c := BuyAll(c0, buyer, serverId, mods, today);
      var f := Fresh(c0.ids, mods);
      c.ids == c0.ids + IdsOf(f) && c.price == c0.price - PriceSum(mods) + PriceSum(f)
  {
    if |mods| > 0 {
      var init := mods[..|mods| - 1];
      var m := mods[|mods| - 1];
      BuyAllIds(c0, buyer, serverId, init, today);
      var f1 := Fresh(c0.ids, init);
      assert IdsOf(f1 + [m]) == IdsOf(f1) + [m.id];
      assert (f1 + [m])[..|f1|] == f1;
    }
  }

  /** The loop appends one purchase row per fresh row, in order. */
  lemma {:induction false} BuyAllPurchases(c0: Cart, buyer: int, serverId: int, mods: seq<Mod>, today: int)
    ensures BuyAll(c0, buyer, serverId, mods, today).t.purchases ==
      c0.t.purchases + PurchasesOf(buyer, serverId, Fresh(c0.ids, mods), today)
  {
    if |mods| > 0 {
      var init := mods[..|mods| - 1];
      var m := mods[|mods| - 1];
      BuyAllPurchases(c0, buyer, serverId, init, today);
      BuyAllIds(c0, buyer, serverId, init, today);
      var c1 := BuyAll(c0, buyer, serverId, init, today);
      var f1 := Fresh(c0.ids, init);
      assert m.id in c1.ids <==> m.id in c0.ids || m.id in IdsOf(f1);
      if m.id !in c1.ids {
        assert PurchasesOf(buyer, serverId, f1 + [m], today) ==
          PurchasesOf(buyer, serverId, f1, today) + [Purchase(buyer, m.id, serverId, today, true, today + 30)];
        PayPurchases(c1.t, buyer, serverId, m, today);
      }
    }
  }

  lemma PayPurchases(t: Tables, buyer: int, serverId: int, mod: Mod, today: int)
    ensures Pay(t, buyer, serverId, mod, today).purchases ==
      t.purchases + [Purchase(buyer, mod.id, serverId, today, true, today + 30)]
  {
  }

  /** Paying for one mod raises the balances by exactly what its new profit rows record. */
  lemma PayConserves(t: Tables, buyer: int, serverId: int, mod: Mod, today: int)
    ensures var t1 := Pay(t, buyer, serverId, mod, today);
      t.profit <= t1.profit &&
      TotalBalance(t1.users) == TotalBalance(t.users) + RowsAmount(t1.profit[|t.profit|..])
  {
    var d := DeveloperByGroup(t.developers, mod.modsby);
    if d.Some? && mod.price > 0 {
      TransferConserves(t, buyer, t.developers[d.value].nameOfMod, mod.price as real, IntToString(mod.id), today);
    } else {
      assert Pay(t, buyer, serverId, mod, today).profit[|t.profit|..] == [];
    }
  }

  /** The loop raises the balances by exactly what the new profit rows record. */
  lemma {:induction false} BuyAllConserves(c0: Cart, buyer: int, serverId: int, mods: seq<Mod>, today: int)
    ensures var c := BuyAll(c0, buyer, serverId, mods, today);
      c0.t.profit <= c.t.profit &&
      TotalBalance(c.t.users) == TotalBalance(c0.t.users) + RowsAmount(c.t.profit[|c0.t.profit|..])
  {
    if |mods| > 0 {
      var init := mods[..|mods| - 1];
      var m := mods[|mods| - 1];
      BuyAllConserves(c0, buyer, serverId, init, today);
      var c1 := BuyAll(c0, buyer, serverId, init, today);
      if m.id !in c1.ids {
        var t1 := Pay(c1.t, buyer, serverId, m, today);
        PayConserves(c1.t, buyer, serverId, m, today);
        assert t1.profit[|c0.t.profit|..] == c1.t.profit[|c0.t.profit|..] + t1.profit[|c1.t.profit|..];
        RowsAmountAppend(c1.t.profit[|c0.t.profit|..], t1.profit[|c1.t.profit|..]);
      }
    } else {
      assert c0.t.profit[|c0.t.profit|..] == [];
    }
  }

  /**
   * When no developer row pays out to the buyer's login, the loop leaves the buyer's account
   * untouched.
   */
  lemma {:induction false} BuyAllKeepsBuyer(c0: Cart, buyer: int, serverId: int, mods: seq<Mod>,
                                            today: int, u: nat)
    requires u < |c0.t.users|
    requires forall i :: 0 <= i < |c0.t.developers| ==> c0.t.developers[i].nameOfMod != c0.t.users[u].login
    ensures BuyAll(c0, buyer, serverId, mods, today).t.users[u] == c0.t.users[u]
  {
    if |mods| > 0 {
      var init := mods[..|mods| - 1];
      var m := mods[|mods| - 1];
      BuyAllKeepsBuyer(c0, buyer, serverId, init, today, u);
      var c1 := BuyAll(c0, buyer, serverId, init, today);
      var t := c1.t;
      var d := DeveloperByGroup(t.developers, m.modsby);
      if m.id !in c1.ids && d.Some? && m.price > 0 {
        assert BuyAll(c0, buyer, serverId, mods, today).t == Pay(t, buyer, serverId, m, today);
        var nm := t.developers[d.value].nameOfMod;
        assert nm != t.users[u].login;
        var p := UserByLogin(t.users, nm);
        if p.Some? {
          TransferCredits(t, buyer, nm, m.price as real, IntToString(m.id), today);
        } else {
          TransferWithoutPayee(t, buyer, nm, m.price as real, IntToString(m.id), today);
        }
      }
    }
  }

  /**
   * A purchase is accepted exactly when the server and the user exist, the user owns the
   * server, some requested id is in the catalog, the summed price of all found rows is
   * between 0 and the balance, and the server's list reads; it is then `Checkout`.
   */
  lemma BuyModsAccepted(t: Tables, requested: seq<int>, serverIp: string, username: string, today: int)
    ensures var r := BuyMods(t, requested, serverIp, username, today);
      var s := ServerByIp(t.servers, serverIp);
      var u := UserByLogin(t.users, username);
      var mods := Requested(t.mods, requested);
      r.Success? <==>
        s.Some? && u.Some? && t.servers[s.value].ownerId == t.users[u.value].id && |mods| > 0 &&
        0 <= PriceSum(mods) && PriceSum(mods) as real <= t.users[u.value].balance &&
        ParseIds(t.servers[s.value].mods).Some?
    ensures var r := BuyMods(t, requested, serverIp, username, today);
      r.Success? ==>
        var s := ServerByIp(t.servers, serverIp).value;
        var u := UserByLogin(t.users, username).value;
        r.value == Checkout(t, u, s, ParseIds(t.servers[s].mods).value, Requested(t.mods, requested), today)
  {
  }

  /**
   * An accepted purchase: the server list becomes the sorted old list plus the fresh ids,
   * and one purchase row per fresh row is appended.
   */
  lemma CheckoutLists(t: Tables, u: nat, s: nat, serverIds: seq<int>, mods: seq<Mod>, today: int)
    requires u < |t.users| && s < |t.servers|
    ensures var t2 := Checkout(t, u, s, serverIds, mods, today);
      var f := Fresh(serverIds, mods);
      var list := Sort(serverIds + IdsOf(f));
      t2.servers == t.servers[s := t.servers[s].(mods := JoinIds(list))] &&
      Sorted(list) && multiset(list) == multiset(serverIds + IdsOf(f)) &&
      t2.purchases == t.purchases + PurchasesOf(t.users[u].id, t.servers[s].id, f, today)
  {
    var c0 := Cart(t, serverIds, PriceSum(mods));
    BuyAllIds(c0, t.users[u].id, t.servers[s].id, mods, today);
    BuyAllPurchases(c0, t.users[u].id, t.servers[s].id, mods, today);
  }

  /**
   * The balances change by what the new profit rows record minus what the buyer pays,
   * which is the price of the fresh rows only.
   */
  lemma CheckoutConserves(t: Tables, u: nat, s: nat, serverIds: seq<int>, mods: seq<Mod>, today: int)
    requires u < |t.users| && s < |t.servers|
    ensures var t2 := Checkout(t, u, s, serverIds, mods, today);
      t.profit <= t2.profit &&
      TotalBalance(t2.users) ==
        TotalBalance(t.users) + RowsAmount(t2.profit[|t.profit|..]) - PriceSum(Fresh(serverIds, mods)) as real
  {
    var c0 := Cart(t, serverIds, PriceSum(mods));
    var c := BuyAll(c0, t.users[u].id, t.servers[s].id, mods, today);
    BuyAllIds(c0, t.users[u].id, t.servers[s].id, mods, today);
    BuyAllConserves(c0, t.users[u].id, t.servers[s].id, mods, today);
    FinishTotal(c, u, s);
  }

  /** A buyer who is no developer's payee loses exactly the price of the fresh rows. */
  lemma CheckoutBuyer(t: Tables, u: nat, s: nat, serverIds: seq<int>, mods: seq<Mod>, today: int)
    requires u < |t.users| && s < |t.servers|
    requires forall i :: 0 <= i < |t.developers| ==> t.developers[i].nameOfMod != t.users[u].login
    ensures var t2 := Checkout(t, u, s, serverIds, mods, today);
      t2.users[u] == t.users[u].(balance := t.users[u].balance - PriceSum(Fresh(serverIds, mods)) as real)
  {
    var c0 := Cart(t, serverIds, PriceSum(mods));
    BuyAllIds(c0, t.users[u].id, t.servers[s].id, mods, today);
    BuyAllKeepsBuyer(c0, t.users[u].id, t.servers[s].id, mods, today, u);
  }

  /** The stored list reads back as the sorted ids when every catalog id fits in 32 bits. */
  lemma StoredListReads(serverIds: seq<int>, mods: seq<Mod>)
    requires AllInt32(serverIds) && AllInt32(IdsOf(mods))
    ensures var list := Sort(serverIds + IdsOf(Fresh(serverIds, mods)));
      |serverIds| >= 1 ==> ParseIds(JoinIds(list)) == Some(list)
  {
    var added := IdsOf(Fresh(serverIds, mods));
    FreshInt32(serverIds, mods);
    var all := serverIds + added;
    assert AllInt32(all) by {
      forall i | 0 <= i < |all| ensures IsInt32(all[i]) {
        if i >= |serverIds| { assert all[i] == added[i - |serverIds|]; }
      }
    }
    SortInt32(all);
    if |serverIds| >= 1 {
      ParseJoinIds(Sort(all));
    }
  }

  /** The ids of the fresh rows fit in 32 bits when every requested id does. */
  lemma FreshInt32(known: seq<int>, mods: seq<Mod>)
    requires AllInt32(IdsOf(mods))
    ensures AllInt32(IdsOf(Fresh(known, mods)))
  {
    var f := Fresh(known, mods);
    FreshFromMods(known, mods);
    forall i | 0 <= i < |f| ensures IsInt32(IdsOf(f)[i]) {
      assert f[i] in mods;
      var k :| 0 <= k < |mods| && mods[k] == f[i];
      assert IdsOf(mods)[k] == f[i].id;
    }
  }

  /** Every fresh row is one of the requested rows. */
  lemma {:induction false} FreshFromMods(known: seq<int>, mods: seq<Mod>)
    ensures forall m :: m in Fresh(known, mods) ==> m in mods
  {
    if |mods| > 0 {
      FreshFromMods(known, mods[..|mods| - 1]);
      assert forall m :: m in mods[..|mods| - 1] ==> m in mods;
    }
  }

  /** The body of the purchase loop for a new mod, on the database. */
  method PayMod(db: Database, buyer: int, serverId: int, mod: Mod, today: int)
    modifies db`users, db`profit, db`purchases
    ensures db.Snap() == Pay(old(db.Snap()), buyer, serverId, mod, today)
  {
    var purchase := Purchase(buyer, mod.id, serverId, today, true, today + 30);
    var d := DeveloperByGroup(db.developers, mod.modsby);
    if d.Some? && mod.price > 0 {
      var paid := ProcessTransactionAsync(db, buyer, db.developers[d.value].nameOfMod,
                                          mod.price as real, IntToString(mod.id), today);
    }
    db.purchases := db.purchases + [purchase];
  }

  /** The first loop of `HandleBoughtMods`: the sum of the found rows' prices. */
  method TotalPrice(mods: seq<Mod>) returns (price: int)
    ensures price == PriceSum(mods)
  {
    price := 0;
    var i := 0;
    while i < |mods|
      invariant 0 <= i <= |mods|
      invariant price == PriceSum(mods[..i])
    {
      assert mods[..i + 1][..i] == mods[..i];
      price := price + mods[i].price;
      i := i + 1;
    }
    assert mods[..i] == mods;
  }

  /** The handler on the database, with the source's two loops over the found rows. */
  method HandleBoughtMods(db: Database, requested: seq<int>, serverIp: string, username: string, today: int)
    returns (r: Outcome<BuyError>)
    modifies db`users, db`profit, db`purchases, db`servers
    ensures match BuyMods(old(db.Snap()), requested, serverIp, username, today)
      case Failure(e) => r == Fail(e) && db.Snap() == old(db.Snap())
      case Success(t) => r == Pass && db.Snap() == t
  {
    var s := ServerByIp(db.servers, serverIp);
    if s.None? { return Fail(ServerNotFound); }
    var u := UserByLogin(db.users, username);
    if u.None? { return Fail(UserNotFound); }
    if db.servers[s.value].ownerId != db.users[u.value].id { return Fail(NotOwner); }
    var mods := Requested(db.mods, requested);
    if |mods| == 0 { return Fail(ModsNotFound); }

    var price := TotalPrice(mods);
    if !(price >= 0 && price as real <= db.users[u.value].balance) { return Fail(NotEnoughMoney); }
    var parsed := ParseIds(db.servers[s.value].mods);
    if parsed.None? { return Fail(ServerListUnreadable); }

    PayAndStore(db, u.value, s.value, parsed.value, mods, price, today);
    return Pass;
  }

  /** One turn of the second loop of `HandleBoughtMods`, on the database. */
  method BuyOne(db: Database, ids: seq<int>, price: int, buyer: int, serverId: int, mod: Mod, today: int)
    returns (ids': seq<int>, price': int)
    modifies db`users, db`profit, db`purchases
    ensures Cart(db.Snap(), ids', price') == BuyStep(Cart(old(db.Snap()), ids, price), buyer, serverId, mod, today)
  {
    if mod.id !in ids {
      ids', price' := ids + [mod.id], price;
      PayMod(db, buyer, serverId, mod, today);
    } else {
      ids', price' := ids, price - mod.price;
    }
  }

  /** The second loop of `HandleBoughtMods`: every found row in turn, from the parsed list and the summed price. */
  method BuyLoop(db: Database, ids0: seq<int>, price0: int, buyer: int, serverId: int, mods: seq<Mod>, today: int)
    returns (ids: seq<int>, price: int)
    modifies db`users, db`profit, db`purchases
    ensures Cart(db.Snap(), ids, price) == BuyAll(Cart(old(db.Snap()), ids0, price0), buyer, serverId, mods, today)
  {
    ghost var c0 := Cart(db.Snap(), ids0, price0);
    ids, price := ids0, price0;
    var i := 0;
    while i < |mods|
      invariant 0 <= i <= |mods|
      invariant Cart(db.Snap(), ids, price) == BuyAll(c0, buyer, serverId, mods[..i], today)
    {
      assert mods[..i + 1][..i] == mods[..i];
      ids, price := BuyOne(db, ids, price, buyer, serverId, mods[i], today);
      i := i + 1;
    }
    assert mods[..i] == mods;
  }

  /** The second loop of `HandleBoughtMods` and the final writes, from the summed price. */
  method PayAndStore(db: Database, u: nat, s: nat, serverIds: seq<int>, mods: seq<Mod>,
                     price0: int, today: int)
    requires u < |db.users| && s < |db.servers| && price0 == PriceSum(mods)
    modifies db`users, db`profit, db`purchases, db`servers
    ensures db.Snap() == Checkout(old(db.Snap()), u, s, serverIds, mods, today)
  {
    ghost var t0 := db.Snap();
    var buyer, serverId := db.users[u].id, db.servers[s].id;
    ghost var c := BuyAll(Cart(t0, serverIds, price0), buyer, serverId, mods, today);
    assert Checkout(t0, u, s, serverIds, mods, today) == Finish(c, u, s);
    var serverModsIds, price := BuyLoop(db, serverIds, price0, buyer, serverId, mods, today);
    assert c == Cart(db.Snap(), serverModsIds, price);
    Settle(db, u, s, serverModsIds, price);
  }

  /** The writes after the loop: the debit of the running price and the sorted list. */
  method Settle(db: Database, u: nat, s: nat, ids: seq<int>, price: int)
    requires u < |db.users| && s < |db.servers|
    modifies db`users, db`servers
    ensures db.Snap() == Finish(Cart(old(db.Snap()), ids, price), u, s)
  {
    var user := db.users[u];
    db.users := db.users[u := user.(balance := user.balance - price as real)];
    var server := db.servers[s];
    db.servers := db.servers[s := server.(mods := JoinIds(Sort(ids)))];
  }

  // ------------------------------------------------------------------ buying a subscription

  datatype PremError =
    | PremUserNotFound      // "User not found"
    | DeveloperNotFound     // "Developer was not found"
    | NoBundle              // "You don't have any subscriptions"
    | PremNotEnoughMoney    // "Not enough money"

  /** The bundle's ids that parse and are in the catalog, one per occurrence, in order. */
  function BundleIds(bundleMods: string, mods: seq<Mod>): seq<int> {
    Among(ParseBatch(bundleMods), CatalogIds(mods))
  }

  /**
   * `BuyPremium`: the developer is found by payable login, the bundle by the developer's
   * group; with `0 < premPrice <= balance` the subscription is written from the account,
   * the developer is paid, the buyer's tracked account is debited, and each bundle id gains
   * one slot in the buyer's stock.
   */
  function BuyPremium(t: Tables, username: string, developerName: string, today: int)
    : (r: Result<Tables, PremError>)
    ensures r.Success? ==> r.value == t.(users := r.value.users, profit := r.value.profit,
                                         subscriptions := r.value.subscriptions)
    ensures r.Success? ==> |r.value.users| == |t.users|
  {
    match UserByLogin(t.users, username)
    case None => Failure(PremUserNotFound)
    case Some(u) =>
      match DeveloperByName(t.developers, developerName)
      case None => Failure(DeveloperNotFound)
      case Some(d) =>
        match BundleByGroup(t.bundles, t.developers[d].modsby)
        case None => Failure(NoBundle)
        case Some(b) =>
          var price := t.bundles[b].premPrice;
          if !(price > 0 && price as real <= t.users[u].balance) then Failure(PremNotEnoughMoney)
          else Success(Subscribe(t, u, t.developers[d].nameOfMod, t.bundles[b], today))
  }

  /** The accepted subscription purchase. */
  function Subscribe(t: Tables, u: nat, payee: string, bundle: Bundle, today: int): (r: Tables)
    requires u < |t.users| && bundle.premPrice >= 0
    ensures r == t.(users := r.users, profit := r.profit, subscriptions := r.subscriptions)
    ensures |r.users| == |t.users|
  {
    var user := t.users[u];
    var sub := Subscription(user.login, user.steamId, bundle.mods, true, true, today, today + 30);
    var t1 := Transfer(t, user.id, payee, bundle.premPrice as real, bundle.mods, today).value;
    Grant(t1, u, bundle.premPrice, BundleIds(bundle.mods, t.mods), sub)
  }

  /** After the payment: the buyer's tracked account is debited, each id gains a slot in its
      stock, and the subscription is stored. */
  function Grant(t: Tables, u: nat, price: int, modIds: seq<int>, sub: Subscription): Tables
    requires u < |t.users|
  {
    var buyer := t.users[u];
    var claims := IncAll(Decode(buyer.claimedMods), modIds);
    t.(users := t.users[u := buyer.(balance := buyer.balance - price as real, claimedMods := Encode(claims))],
       subscriptions := t.subscriptions + [sub])
  }

  /** A subscription purchase succeeds exactly when the account, the developer and the bundle
      exist and `0 < premPrice <= balance`. */
  lemma BuyPremiumAccepted(t: Tables, username: string, developerName: string, today: int)
    ensures var r := BuyPremium(t, username, developerName, today);
      var u := UserByLogin(t.users, username);
      var d := DeveloperByName(t.developers, developerName);
      r.Success? <==>
        u.Some? && d.Some? && BundleByGroup(t.bundles, t.developers[d.value].modsby).Some? &&
        0 < t.bundles[BundleByGroup(t.bundles, t.developers[d.value].modsby).value].premPrice &&
        t.bundles[BundleByGroup(t.bundles, t.developers[d.value].modsby).value].premPrice as real
          <= t.users[u.value].balance
  {
  }

  /** An accepted subscription purchase appends one active, auto-renewing subscription for
      the bundle, bought today and expiring in 30 days. */
  lemma SubscribeAppends(t: Tables, u: nat, payee: string, bundle: Bundle, today: int)
    requires u < |t.users| && bundle.premPrice >= 0
    ensures var user := t.users[u];
      Subscribe(t, u, payee, bundle, today).subscriptions == t.subscriptions +
        [Subscription(user.login, user.steamId, bundle.mods, true, true, today, today + 30)]
  {
  }

  /** The balances change by what the new profit rows record minus the price. */
  lemma SubscribeConserves(t: Tables, u: nat, payee: string, bundle: Bundle, today: int)
    requires u < |t.users| && bundle.premPrice >= 0
    ensures var t2 := Subscribe(t, u, payee, bundle, today);
      t.profit <= t2.profit &&
      TotalBalance(t2.users) ==
        TotalBalance(t.users) + RowsAmount(t2.profit[|t.profit|..]) - bundle.premPrice as real
  {
    var user := t.users[u];
    var amount := bundle.premPrice as real;
    TransferConserves(t, user.id, payee, amount, bundle.mods, today);
    var t1 := Transfer(t, user.id, payee, amount, bundle.mods, today).value;
    var buyer := t1.users[u];
    var claims := IncAll(Decode(buyer.claimedMods), BundleIds(bundle.mods, t.mods));
    TotalBalanceUpdate(t1.users, u, buyer.(balance := buyer.balance - amount, claimedMods := Encode(claims)));
  }

  /** A buyer who is not the payee loses exactly the price and keeps every field but the stock. */
  lemma SubscribeBuyer(t: Tables, u: nat, payee: string, bundle: Bundle, today: int)
    requires u < |t.users| && bundle.premPrice >= 0
    requires t.users[u].login != payee
    ensures var t2 := Subscribe(t, u, payee, bundle, today);
      t2.users[u] == t.users[u].(balance := t.users[u].balance - bundle.premPrice as real,
                                 claimedMods := t2.users[u].claimedMods)
  {
    var amount := bundle.premPrice as real;
    if DeveloperByName(t.developers, payee).Some? && UserByLogin(t.users, payee).Some? {
      TransferCredits(t, t.users[u].id, payee, amount, bundle.mods, today);
    } else {
      TransferWithoutPayee(t, t.users[u].id, payee, amount, bundle.mods, today);
    }
  }

  /**
   * The buyer's stock, read back, holds one more slot of each bundle id per occurrence in
   * the bundle (ids that parse and are in the catalog), and every other count as before.
   */
  lemma SubscribeClaims(t: Tables, u: nat, payee: string, bundle: Bundle, today: int, k: int)
    requires u < |t.users| && bundle.premPrice >= 0
    requires InInt32Range(IncAll(Decode(t.users[u].claimedMods), BundleIds(bundle.mods, t.mods)))
    ensures var t2 := Subscribe(t, u, payee, bundle, today);
      Count(Decode(t2.users[u].claimedMods), k) ==
        Count(Decode(t.users[u].claimedMods), k) + multiset(BundleIds(bundle.mods, t.mods))[k]
  {
    var t1 := Transfer(t, t.users[u].id, payee, bundle.premPrice as real, bundle.mods, today).value;
    assert t1.users[u].claimedMods == t.users[u].claimedMods by {
      if UserByLogin(t.users, payee).Some? && DeveloperByName(t.developers, payee).Some? {
        TransferCredits(t, t.users[u].id, payee, bundle.premPrice as real, bundle.mods, today);
      } else {
        TransferWithoutPayee(t, t.users[u].id, payee, bundle.premPrice as real, bundle.mods, today);
      }
    }
    var m := IncAll(Decode(t.users[u].claimedMods), BundleIds(bundle.mods, t.mods));
    DecodeEncode(m);
    IncAllCount(Decode(t.users[u].claimedMods), BundleIds(bundle.mods, t.mods), k);
  }

  /** Adds one slot per id, in order: the source's increment loop. */
  method AddSlots(claims0: Claims, ids: seq<int>) returns (claims: Claims)
    ensures claims == IncAll(claims0, ids)
  {
    claims := claims0;
    var i := 0;
    while i < |ids|
      invariant 0 <= i <= |ids|
      invariant claims == IncAll(claims0, ids[..i])
    {
      var modId := ids[i];
      assert ids[..i + 1][..i] == ids[..i];
      claims := claims[modId := if modId in claims then claims[modId] + 1 else 1];
      i := i + 1;
    }
    assert ids[..i] == ids;
  }

  /** The subscription handler on the database. */
  method HandleBuyPremium(db: Database, username: string, developerName: string, today: int)
    returns (r: Outcome<PremError>)
    modifies db`users, db`profit, db`subscriptions
    ensures match BuyPremium(old(db.Snap()), username, developerName, today)
      case Failure(e) => r == Fail(e) && db.Snap() == old(db.Snap())
      case Success(t) => r == Pass && db.Snap() == t
  {
    var u := UserByLogin(db.users, username);
    if u.None? { return Fail(PremUserNotFound); }
    var d := DeveloperByName(db.developers, developerName);
    if d.None? { return Fail(DeveloperNotFound); }
    var developer := db.developers[d.value];
    var b := BundleByGroup(db.bundles, developer.modsby);
    if b.None? { return Fail(NoBundle); }
    var bundle := db.bundles[b.value];
    var price := bundle.premPrice;
    if !(price > 0 && price as real <= db.users[u.value].balance) { return Fail(PremNotEnoughMoney); }

    Enroll(db, u.value, developer.nameOfMod, bundle, today);
    return Pass;
  }

  /** The accepted subscription purchase on the database: the payment, then the grant. */
  method Enroll(db: Database, u: nat, payee: string, bundle: Bundle, today: int)
    requires u < |db.users| && bundle.premPrice >= 0
    modifies db`users, db`profit, db`subscriptions
    ensures db.Snap() == Subscribe(old(db.Snap()), u, payee, bundle, today)
  {
    var user := db.users[u];
    var price := bundle.premPrice;
    var subscription := Subscription(user.login, user.steamId, bundle.mods, true, true, today, today + 30);
    var modIds := BundleIds(bundle.mods, db.mods);
    var paid := ProcessTransactionAsync(db, user.id, payee, price as real, bundle.mods, today);
    Credit(db, u, price, modIds, subscription);
  }

  /** `Grant` on the database, with the source's two loops over the stock. */
  method Credit(db: Database, u: nat, price: int, modIds: seq<int>, sub: Subscription)
    requires u < |db.users|
    modifies db`users, db`subscriptions
    ensures db.Snap() == Grant(old(db.Snap()), u, price, modIds, sub)
  {
    var user := db.users[u];
    user := user.(balance := user.balance - price as real);
    var claims := ParseClaimedMods(user.claimedMods);
    claims := AddSlots(claims, modIds);
    db.users := db.users[u := user.(claimedMods := Encode(claims))];
    db.subscriptions := db.subscriptions + [sub];
  }
}
