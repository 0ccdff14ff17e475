/**
 * One run of the daily reconciliation: the subscription sweep, then the purchase sweep.
 * Expired rows are renewed (and paid for through the ledger), lapsed, taken off their
 * server or released from the buyer's stock. `today` stands for `DateTime.UtcNow.Date`.
 *
 * An exception (the ledger refusing a negative price, `int.Parse` failing on a server's
 * list) ends the run at that row: the run's changes up to that row stay, and the purchase
 * sweep does not run after a failed subscription sweep.
 */
module Refresher {
  import opened Wrappers
  import opened Text
  import opened Records
  import opened Store
  import opened IdLists
  import opened ClaimCodec
  import opened Ledger

  datatype TickError =
    | NegativePrice          // `ProcessTransactionAsync` throws on a negative amount
    | ServerListUnreadable   // `int.Parse` throws on a server's list

  /** The tables after some rows, and the exception that ended the sweep, if one did. */
  datatype Sweep = Sweep(t: Tables, stopped: Option<TickError>)

  // ------------------------------------------------------------------ lookups

  /** `GetModPrice`: the price of the first catalog row with that id, 0 without one. */
  function ModPrice(mods: seq<Mod>, modId: int): int {
    match ModById(mods, modId)
    case None => 0
    case Some(k) => mods[k].price
  }

  /** `GetNameOfMod`: the payable login of the mod's developer group, "" when the mod or the
      group's developer row is missing. */
  function PayeeOf(mods: seq<Mod>, developers: seq<Developer>, modId: int): string {
    match ModById(mods, modId)
    case None => ""
    case Some(k) =>
      match DeveloperByGroup(developers, mods[k].modsby)
      case None => ""
      case Some(d) => developers[d].nameOfMod
  }

  /** A mod missing from the catalog costs nothing and pays nobody; a mod whose group has no
      developer row pays nobody. */
  lemma MissingModFree(mods: seq<Mod>, developers: seq<Developer>, modId: int)
    ensures (forall k :: 0 <= k < |mods| ==> mods[k].id != modId) ==>
      ModPrice(mods, modId) == 0 && PayeeOf(mods, developers, modId) == ""
    ensures (forall k, d :: 0 <= k < |mods| && mods[k].id == modId && 0 <= d < |developers| ==>
               developers[d].modsby != mods[k].modsby) ==>
      PayeeOf(mods, developers, modId) == ""
  {
    var k := ModById(mods, modId);
    if k.Some? {
      assert mods[k.value].id == modId;
      var d := DeveloperByGroup(developers, mods[k.value].modsby);
      if d.Some? {
        assert developers[d.value].modsby == mods[k.value].modsby;
      }
    }
  }

  // ------------------------------------------------------------------ subscriptions

  /**
   * One subscription row of `HandleSubscription`. Only active rows are looked at; an
   * expired auto-renewing row is renewed when its account and its price row (the bundle
   * with the identical mods string) exist; an expired row without auto-renew lapses.
   */
  function SubStep(t: Tables, i: nat, today: int): (r: Sweep)
    requires i < |t.subscriptions|
    ensures r.t == t.(users := r.t.users, profit := r.t.profit, subscriptions := r.t.subscriptions)
    ensures |r.t.users| == |t.users|
    ensures r.stopped.Some? ==> r.t == t
    ensures r.t.subscriptions == t.subscriptions ||
            r.t.subscriptions == t.subscriptions[i := t.subscriptions[i].(expireData := today + 30)] ||
            r.t.subscriptions == t.subscriptions[i := t.subscriptions[i].(subActive := false)]
  {
    var sub := t.subscriptions[i];
    if !sub.subActive then Sweep(t, None)
    else if sub.buyWhenExpires && sub.expireData < today then
      match UserByLogin(t.users, sub.login)
      case None => Sweep(t, None)
      case Some(u) =>
        match BundleByMods(t.bundles, sub.subscriptionMods)
        case None => Sweep(t, None)
        case Some(b) => RenewSubscription(t, i, u, t.bundles[b], today)
    else if sub.expireData < today then
      Sweep(t.(subscriptions := t.subscriptions[i := sub.(subActive := false)]), None)
    else Sweep(t, None)
  }

  /**
   * The renewal: the bundle's developer, when there is one, is paid the bundle price; the
   * tracked account is then charged that price with no balance check, and the row's expiry
   * moves 30 days on.
   */
  function RenewSubscription(t: Tables, i: nat, u: nat, bundle: Bundle, today: int): (r: Sweep)
    requires i < |t.subscriptions| && u < |t.users|
    ensures r.t == t.(users := r.t.users, profit := r.t.profit, subscriptions := r.t.subscriptions)
    ensures |r.t.users| == |t.users|
    ensures r.stopped.Some? ==> r.t == t
    ensures r.stopped.None? ==>
      r.t.subscriptions == t.subscriptions[i := t.subscriptions[i].(expireData := today + 30)]
  {
    var d := DeveloperByGroup(t.developers, bundle.modsby);
    var paid := if d.Some?
      then Transfer(t, t.users[u].id, t.developers[d.value].nameOfMod, bundle.premPrice as real, bundle.mods, today)
      else Success(t);
    match paid
    case Failure(_) => Sweep(t, Some(NegativePrice))
    case Success(t1) => Sweep(ChargeSubscription(t1, i, u, bundle.premPrice, today), None)
  }

  /** After the payment: the tracked account is charged the price and the row's expiry moves
      30 days on. */
  function ChargeSubscription(t: Tables, i: nat, u: nat, price: int, today: int): Tables
    requires i < |t.subscriptions| && u < |t.users|
  {
    var user := t.users[u];
    t.(users := t.users[u := user.(balance := user.balance - price as real)],
       subscriptions := t.subscriptions[i := t.subscriptions[i].(expireData := today + 30)])
  }

  /** The charge lowers the sum of all balances by the price and adds no profit row. */
  lemma ChargeSubscriptionTotal(t: Tables, i: nat, u: nat, price: int, today: int)
    requires i < |t.subscriptions| && u < |t.users|
    ensures var r := ChargeSubscription(t, i, u, price, today);
      TotalBalance(r.users) == TotalBalance(t.users) - price as real && r.profit == t.profit
  {
    DebitTotal(t.users, u, price as real, ChargeSubscription(t, i, u, price, today).users);
  }

  /** The subscription sweep from row `i` on, in table order; a row that throws ends it with
      the tables as they were before that row. */
  function SubSweep(t: Tables, today: int, i: nat): (r: Sweep)
    requires i <= |t.subscriptions|
    ensures r.t == t.(users := r.t.users, profit := r.t.profit, subscriptions := r.t.subscriptions)
    ensures |r.t.users| == |t.users| && |r.t.subscriptions| == |t.subscriptions|
    decreases |t.subscriptions| - i
  {
    if i == |t.subscriptions| then Sweep(t, None)
    else
      var a := SubStep(t, i, today);
      if a.stopped.Some? then a else SubSweep(a.t, today, i + 1)
  }

  /** A row that is inactive, or whose expiry is not before today, is left alone. */
  lemma SubStepIdle(t: Tables, i: nat, today: int)
    requires i < |t.subscriptions|
    requires !t.subscriptions[i].subActive || t.subscriptions[i].expireData >= today
    ensures SubStep(t, i, today) == Sweep(t, None)
  {
  }

  /** An expired auto-renewing row whose account or price row is missing stays as it is:
      active and expired. */
  lemma SubStepMissing(t: Tables, i: nat, today: int)
    requires i < |t.subscriptions|
    requires var sub := t.subscriptions[i];
      sub.subActive && sub.buyWhenExpires && sub.expireData < today
    requires UserByLogin(t.users, t.subscriptions[i].login).None? ||
             BundleByMods(t.bundles, t.subscriptions[i].subscriptionMods).None?
    ensures SubStep(t, i, today) == Sweep(t, None)
  {
  }

  /** An expired row without auto-renew is deactivated and kept; no balance changes. */
  lemma SubStepLapses(t: Tables, i: nat, today: int)
    requires i < |t.subscriptions|
    requires var sub := t.subscriptions[i];
      sub.subActive && !sub.buyWhenExpires && sub.expireData < today
    ensures SubStep(t, i, today) ==
      Sweep(t.(subscriptions := t.subscriptions[i := t.subscriptions[i].(subActive := false)]), None)
  {
  }

  /**
   * An expired auto-renewing row whose account and price row exist is renewed whatever the
   * balance: expiry today + 30, and the balances change by what the new profit rows record
   * minus the bundle price. Account by account, the payee gains the price, the subscriber
   * loses it, and every other account is unchanged. Only a negative price with a developer
   * row present stops the sweep.
   */
  lemma SubStepRenews(t: Tables, i: nat, today: int)
    requires i < |t.subscriptions|
    requires var sub := t.subscriptions[i];
      sub.subActive && sub.buyWhenExpires && sub.expireData < today
    requires UserByLogin(t.users, t.subscriptions[i].login).Some?
    requires BundleByMods(t.bundles, t.subscriptions[i].subscriptionMods).Some?
    ensures var sub := t.subscriptions[i];
      var u := UserByLogin(t.users, sub.login).value;
      var bundle := t.bundles[BundleByMods(t.bundles, sub.subscriptionMods).value];
      var r := SubStep(t, i, today);
      (r.stopped.Some? <==> bundle.premPrice < 0 && DeveloperByGroup(t.developers, bundle.modsby).Some?) &&
      (r.stopped.None? ==>
        r.t.subscriptions == t.subscriptions[i := sub.(expireData := today + 30)] &&
        t.profit <= r.t.profit &&
        TotalBalance(r.t.users) ==
          TotalBalance(t.users) + RowsAmount(r.t.profit[|t.profit|..]) - bundle.premPrice as real) &&
      (r.stopped.None? ==>
        forall v :: 0 <= v < |t.users| ==>
          r.t.users[v] == t.users[v].(balance := t.users[v].balance
                                                 + (if BundlePayee(t, bundle) == Some(v) then bundle.premPrice as real else 0.0)
                                                 - (if v == u then bundle.premPrice as real else 0.0)))
  {
    var sub := t.subscriptions[i];
    var u := UserByLogin(t.users, sub.login).value;
    var bundle := t.bundles[BundleByMods(t.bundles, sub.subscriptionMods).value];
    assert SubStep(t, i, today) == RenewSubscription(t, i, u, bundle, today);
    RenewConserves(t, i, u, bundle, today);
    RenewSubscriptionAccounts(t, i, u, bundle, today);
  }

  lemma RenewConserves(t: Tables, i: nat, u: nat, bundle: Bundle, today: int)
    requires i < |t.subscriptions| && u < |t.users|
    ensures var r := RenewSubscription(t, i, u, bundle, today);
      (r.stopped.Some? <==> bundle.premPrice < 0 && DeveloperByGroup(t.developers, bundle.modsby).Some?) &&
      (r.stopped.None? ==>
        t.profit <= r.t.profit &&
        TotalBalance(r.t.users) ==
          TotalBalance(t.users) + RowsAmount(r.t.profit[|t.profit|..]) - bundle.premPrice as real)
  {
    var d := DeveloperByGroup(t.developers, bundle.modsby);
    var r := RenewSubscription(t, i, u, bundle, today);
    if r.stopped.None? {
      var t1 := if d.Some?
        then Transfer(t, t.users[u].id, t.developers[d.value].nameOfMod, bundle.premPrice as real, bundle.mods, today).value
        else t;
      if d.Some? {
        TransferConserves(t, t.users[u].id, t.developers[d.value].nameOfMod, bundle.premPrice as real, bundle.mods, today);
      } else {
        assert t1.profit[|t.profit|..] == [];
      }
      assert r.t == ChargeSubscription(t1, i, u, bundle.premPrice, today);
      ChargeSubscriptionTotal(t1, i, u, bundle.premPrice, today);
    }
  }

  /** The account a subscription renewal pays: that of the bundle's developer, if any. */
  function BundlePayee(t: Tables, bundle: Bundle): Option<nat> {
    match DeveloperByGroup(t.developers, bundle.modsby)
    case None => None
    case Some(d) => PayeeAccount(t, t.developers[d].nameOfMod)
  }

  /** Account by account, a renewal that does not throw credits the payee the bundle price,
      charges the tracked account the same price, and leaves every other account alone. */
  lemma RenewSubscriptionAccounts(t: Tables, i: nat, u: nat, bundle: Bundle, today: int)
    requires i < |t.subscriptions| && u < |t.users|
    ensures var r := RenewSubscription(t, i, u, bundle, today);
      var price := bundle.premPrice as real;
      var payee := BundlePayee(t, bundle);
      r.stopped.None? ==>
        forall v :: 0 <= v < |t.users| ==>
          r.t.users[v] == t.users[v].(balance := t.users[v].balance
                                                 + (if payee == Some(v) then price else 0.0)
                                                 - (if v == u then price else 0.0))
  {
    var d := DeveloperByGroup(t.developers, bundle.modsby);
    var r := RenewSubscription(t, i, u, bundle, today);
    if r.stopped.None? && d.Some? {
      TransferAccounts(t, t.users[u].id, t.developers[d.value].nameOfMod, bundle.premPrice as real,
                       bundle.mods, today);
    }
  }

  /** A subscriber whose login names no developer pays exactly the bundle price when the
      renewal does not throw. */
  lemma RenewDebitsSubscriber(t: Tables, i: nat, u: nat, bundle: Bundle, today: int)
    requires i < |t.subscriptions| && u < |t.users|
    requires forall d :: 0 <= d < |t.developers| ==> t.developers[d].nameOfMod != t.users[u].login
    ensures var r := RenewSubscription(t, i, u, bundle, today);
      r.stopped.None? ==> r.t.users[u].balance == t.users[u].balance - bundle.premPrice as real
  {
    RenewSubscriptionAccounts(t, i, u, bundle, today);
    assert BundlePayee(t, bundle) != Some(u);
  }

  /** A renewed row is not expired any more, so a second sweep on the same day skips it. */
  lemma RenewedRowRests(t: Tables, i: nat, today: int)
    requires i < |t.subscriptions|
    requires t.subscriptions[i].expireData == today + 30
    ensures SubStep(t, i, today) == Sweep(t, None)
  {
  }

  /** The sweep changes no row that is inactive or not yet expired. */
  lemma {:induction false} SubSweepKeeps(t: Tables, today: int, i: nat, j: nat)
    requires i <= |t.subscriptions| && j < |t.subscriptions|
    requires !t.subscriptions[j].subActive || t.subscriptions[j].expireData >= today
    ensures SubSweep(t, today, i).t.subscriptions[j] == t.subscriptions[j]
    decreases |t.subscriptions| - i
  {
    if i < |t.subscriptions| {
      if i == j {
        SubStepIdle(t, j, today);
      }
      var a := SubStep(t, i, today);
      assert a.t.subscriptions[j] == t.subscriptions[j];
      if a.stopped.None? {
        SubSweepKeeps(a.t, today, i + 1, j);
      }
    }
  }

  /** A row renewed today keeps its renewal through a second sweep on the same day: the
      second tick charges nothing for it. */
  lemma SecondSweepKeepsRenewed(t: Tables, today: int, j: nat)
    requires j < |t.subscriptions| && t.subscriptions[j].expireData == today + 30
    ensures SubSweep(t, today, 0).t.subscriptions[j] == t.subscriptions[j]
  {
    SubSweepKeeps(t, today, 0, j);
  }

  // ------------------------------------------------------------------ purchases

  /**
   * One purchase row of `HandleMods`. Rows whose expiry is not before today are left alone.
   * An expired row on a server is renewed when it auto-renews and its buyer exists;
   * otherwise its mod is taken off the server. An expired unassigned row is renewed when it
   * auto-renews, and otherwise gives back one slot of the buyer's stock.
   */
  function ModStep(t: Tables, i: nat, today: int): (r: Sweep)
    requires i < |t.purchases|
    ensures r.t == t.(users := r.t.users, profit := r.t.profit, purchases := r.t.purchases,
                      servers := r.t.servers)
    ensures |r.t.users| == |t.users| && |r.t.servers| == |t.servers|
    ensures r.stopped.Some? ==> r.t == t
    ensures r.t.purchases == t.purchases ||
            r.t.purchases == t.purchases[i := t.purchases[i].(expiresDate := today + 30)]
  {
    var p := t.purchases[i];
    if !(p.expiresDate < today) then Sweep(t, None)
    else if p.serverId != Unassigned then
      var u := UserById(t.users, p.whoBuyed);
      if p.buyWhenExpires && u.Some? then RenewPurchase(t, i, u.value, today)
      else
        match ServerById(t.servers, p.serverId)
        case None => Sweep(t, None)
        case Some(s) => RemoveFromServer(t, s, p.modId)
    else
      match UserById(t.users, p.whoBuyed)
      case None => Sweep(t, None)
      case Some(u) =>
        if p.buyWhenExpires then RenewPurchase(t, i, u, today)
        else Sweep(ReleaseClaim(t, u, p.modId), None)
  }

  /**
   * The renewal of a purchase: only when the balance covers the mod's price; the payee is
   * paid, the tracked account is charged, and the expiry moves 30 days on.
   */
  function RenewPurchase(t: Tables, i: nat, u: nat, today: int): (r: Sweep)
    requires i < |t.purchases| && u < |t.users|
    ensures r.t == t.(users := r.t.users, profit := r.t.profit, purchases := r.t.purchases)
    ensures |r.t.users| == |t.users|
    ensures r.stopped.Some? ==> r.t == t
    ensures r.t.purchases == t.purchases ||
            r.t.purchases == t.purchases[i := t.purchases[i].(expiresDate := today + 30)]
  {
    var p := t.purchases[i];
    var price := ModPrice(t.mods, p.modId);
    if !(t.users[u].balance >= price as real) then Sweep(t, None)
    else
      match Transfer(t, t.users[u].id, PayeeOf(t.mods, t.developers, p.modId), price as real,
                     IntToString(p.modId), today)
      case Failure(_) => Sweep(t, Some(NegativePrice))
      case Success(t1) => Sweep(ChargePurchase(t1, i, u, price, today), None)
  }

  /** After the payment: the tracked account is charged the price and the row's expiry moves
      30 days on. */
  function ChargePurchase(t: Tables, i: nat, u: nat, price: int, today: int): Tables
    requires i < |t.purchases| && u < |t.users|
  {
    var user := t.users[u];
    t.(users := t.users[u := user.(balance := user.balance - price as real)],
       purchases := t.purchases[i := t.purchases[i].(expiresDate := today + 30)])
  }

  /** The charge lowers the sum of all balances by the price and adds no profit row. */
  lemma ChargePurchaseTotal(t: Tables, i: nat, u: nat, price: int, today: int)
    requires i < |t.purchases| && u < |t.users|
    ensures var r := ChargePurchase(t, i, u, price, today);
      TotalBalance(r.users) == TotalBalance(t.users) - price as real && r.profit == t.profit
  {
    DebitTotal(t.users, u, price as real, ChargePurchase(t, i, u, price, today).users);
  }

  /** `serverModsIds.Remove(modId)`: the list is rewritten only when the id was on it. */
  function RemoveFromServer(t: Tables, s: nat, modId: int): (r: Sweep)
    requires s < |t.servers|
    ensures r.t == t.(servers := r.t.servers) && |r.t.servers| == |t.servers|
    ensures r.stopped.Some? ==> r.t == t
  {
    match ParseIds(t.servers[s].mods)
    case None => Sweep(t, Some(ServerListUnreadable))
    case Some(ids) =>
      if modId in ids
      then Sweep(t.(servers := t.servers[s := t.servers[s].(mods := JoinIds(RemoveFirst(ids, modId)))]), None)
      else Sweep(t, None)
  }

  /** One slot of `modId` goes back from the buyer's stock; the stock is rewritten only when
      the id was in it. */
  function ReleaseClaim(t: Tables, u: nat, modId: int): (r: Tables)
    requires u < |t.users|
    ensures r == t.(users := r.users) && |r.users| == |t.users|
    ensures r.users == t.users[u := t.users[u].(claimedMods := r.users[u].claimedMods)]
  {
    var m := Decode(t.users[u].claimedMods);
    if modId in m then t.(users := t.users[u := t.users[u].(claimedMods := Encode(Dec(m, modId)))])
    else t
  }

  /** The purchase sweep from row `i` on, in table order; a row that throws ends it with the
      tables as they were before that row. */
  function ModSweep(t: Tables, today: int, i: nat): (r: Sweep)
    requires i <= |t.purchases|
    ensures r.t == t.(users := r.t.users, profit := r.t.profit, purchases := r.t.purchases,
                      servers := r.t.servers)
    ensures |r.t.users| == |t.users| && |r.t.purchases| == |t.purchases| && |r.t.servers| == |t.servers|
    decreases |t.purchases| - i
  {
    if i == |t.purchases| then Sweep(t, None)
    else
      var a := ModStep(t, i, today);
      if a.stopped.Some? then a else ModSweep(a.t, today, i + 1)
  }

  /** One run of the refresher: subscriptions, then purchases unless the first sweep threw. */
  function Tick(t: Tables, today: int): (r: Sweep)
    ensures r.t == t.(users := r.t.users, profit := r.t.profit, subscriptions := r.t.subscriptions,
                      purchases := r.t.purchases, servers := r.t.servers)
  {
    var a := SubSweep(t, today, 0);
    if a.stopped.Some? then a else ModSweep(a.t, today, 0)
  }

  /** A purchase row whose expiry is not before today is left alone. */
  lemma ModStepIdle(t: Tables, i: nat, today: int)
    requires i < |t.purchases| && t.purchases[i].expiresDate >= today
    ensures ModStep(t, i, today) == Sweep(t, None)
  {
  }

  /** The purchase sweep changes no row that has not expired, and no row's buyer, mod,
      server or renewal flag. */
  lemma {:induction false} ModSweepKeeps(t: Tables, today: int, i: nat, j: nat)
    requires i <= |t.purchases| && j < |t.purchases|
    ensures var q := ModSweep(t, today, i).t.purchases[j];
      q == t.purchases[j].(expiresDate := q.expiresDate)
    ensures t.purchases[j].expiresDate >= today ==> ModSweep(t, today, i).t.purchases[j] == t.purchases[j]
    decreases |t.purchases| - i
  {
    if i < |t.purchases| {
      if i == j && t.purchases[j].expiresDate >= today {
        ModStepIdle(t, j, today);
      }
      var a := ModStep(t, i, today);
      assert a.t.purchases[j] == t.purchases[j].(expiresDate := a.t.purchases[j].expiresDate);
      assert t.purchases[j].expiresDate >= today ==> a.t.purchases[j] == t.purchases[j];
      if a.stopped.None? {
        ModSweepKeeps(a.t, today, i + 1, j);
        assert ModSweep(t, today, i) == ModSweep(a.t, today, i + 1);
      } else {
        assert ModSweep(t, today, i) == a && a.t == t;
      }
    }
  }

  /**
   * An expired auto-renewing purchase whose buyer exists: when the balance is below the
   * mod's price nothing changes; a covered negative price throws; otherwise it is renewed
   * to today + 30 and the balances change by what the new profit rows record minus the price.
   */
  lemma RenewPurchaseOutcome(t: Tables, i: nat, u: nat, today: int)
    requires i < |t.purchases| && u < |t.users|
    ensures var price := ModPrice(t.mods, t.purchases[i].modId);
      var r := RenewPurchase(t, i, u, today);
      (t.users[u].balance < price as real ==> r == Sweep(t, None)) &&
      (t.users[u].balance >= price as real && price < 0 ==> r == Sweep(t, Some(NegativePrice))) &&
      (t.users[u].balance >= price as real && price >= 0 ==>
        r.stopped.None? &&
        r.t.purchases == t.purchases[i := t.purchases[i].(expiresDate := today + 30)] &&
        t.profit <= r.t.profit &&
        TotalBalance(r.t.users) == TotalBalance(t.users) + RowsAmount(r.t.profit[|t.profit|..]) - price as real)
  {
    var price := ModPrice(t.mods, t.purchases[i].modId);
    if t.users[u].balance >= price as real && price >= 0 {
      RenewPurchaseCharges(t, i, u, today);
    }
  }

  /** A covered renewal at a price of at least 0: the payment cannot throw, the row is
      renewed, and the balances change by the new profit rows minus the price. */
  lemma RenewPurchaseCharges(t: Tables, i: nat, u: nat, today: int)
    requires i < |t.purchases| && u < |t.users|
    requires var price := ModPrice(t.mods, t.purchases[i].modId);
      t.users[u].balance >= price as real && price >= 0
    ensures var price := ModPrice(t.mods, t.purchases[i].modId);
      var r := RenewPurchase(t, i, u, today);
      r.stopped.None? &&
      r.t.purchases == t.purchases[i := t.purchases[i].(expiresDate := today + 30)] &&
      t.profit <= r.t.profit &&
      TotalBalance(r.t.users) == TotalBalance(t.users) + RowsAmount(r.t.profit[|t.profit|..]) - price as real
  {
    var p := t.purchases[i];
    var price := ModPrice(t.mods, p.modId);
    var nm := PayeeOf(t.mods, t.developers, p.modId);
    TransferConserves(t, t.users[u].id, nm, price as real, IntToString(p.modId), today);
    var t1 := Transfer(t, t.users[u].id, nm, price as real, IntToString(p.modId), today).value;
    assert RenewPurchase(t, i, u, today) == Sweep(ChargePurchase(t1, i, u, price, today), None);
    ChargePurchaseTotal(t1, i, u, price, today);
  }

  /** Account by account, a purchase renewal that does not throw, when the balance covers
      the price, credits the payee the price, charges the buyer the same price, and leaves
      every other account alone; when it does not cover it, no account changes. */
  lemma RenewPurchaseAccounts(t: Tables, i: nat, u: nat, today: int)
    requires i < |t.purchases| && u < |t.users|
    ensures var p := t.purchases[i];
      var price := ModPrice(t.mods, p.modId) as real;
      var payee := PayeeAccount(t, PayeeOf(t.mods, t.developers, p.modId));
      var charged := t.users[u].balance >= price;
      var r := RenewPurchase(t, i, u, today);
      r.stopped.None? ==>
        forall v :: 0 <= v < |t.users| ==>
          r.t.users[v] == t.users[v].(balance := t.users[v].balance
                                                 + (if charged && payee == Some(v) then price else 0.0)
                                                 - (if charged && v == u then price else 0.0))
  {
    var p := t.purchases[i];
    var price := ModPrice(t.mods, p.modId);
    var r := RenewPurchase(t, i, u, today);
    if r.stopped.None? && t.users[u].balance >= price as real {
      TransferAccounts(t, t.users[u].id, PayeeOf(t.mods, t.developers, p.modId), price as real,
                       IntToString(p.modId), today);
    }
  }

  /** A buyer whose login names no developer pays exactly the mod's price for a covered
      renewal that does not throw. */
  lemma RenewPurchaseDebitsBuyer(t: Tables, i: nat, u: nat, today: int)
    requires i < |t.purchases| && u < |t.users|
    requires forall d :: 0 <= d < |t.developers| ==> t.developers[d].nameOfMod != t.users[u].login
    ensures var price := ModPrice(t.mods, t.purchases[i].modId) as real;
      var r := RenewPurchase(t, i, u, today);
      r.stopped.None? && t.users[u].balance >= price ==> r.t.users[u].balance == t.users[u].balance - price
  {
    RenewPurchaseAccounts(t, i, u, today);
    assert PayeeAccount(t, PayeeOf(t.mods, t.developers, t.purchases[i].modId)) != Some(u);
  }

  /**
   * An expired auto-renewing purchase whose buyer exists is renewed whether or not it is on
   * a server; it ends up expiring today + 30 exactly when the buyer's balance covers a price
   * of at least 0, and the sweep stops exactly when the covered price is negative.
   */
  lemma ModStepRenews(t: Tables, i: nat, today: int)
    requires i < |t.purchases|
    requires t.purchases[i].expiresDate < today && t.purchases[i].buyWhenExpires
    requires UserById(t.users, t.purchases[i].whoBuyed).Some?
    ensures var u := UserById(t.users, t.purchases[i].whoBuyed).value;
      var price := ModPrice(t.mods, t.purchases[i].modId);
      var r := ModStep(t, i, today);
      r == RenewPurchase(t, i, u, today) &&
      (r.t.purchases[i].expiresDate == today + 30 <==> t.users[u].balance >= price as real && price >= 0) &&
      (r.stopped.Some? <==> t.users[u].balance >= price as real && price < 0)
  {
    var u := UserById(t.users, t.purchases[i].whoBuyed).value;
    assert ModStep(t, i, today) == RenewPurchase(t, i, u, today);
    RenewPurchaseOutcome(t, i, u, today);
  }

  /**
   * Taking a mod off a server whose list reads as `ids`: only the first occurrence goes,
   * the rest keeps its order, and the list is rewritten only when the id was on it.
   */
  lemma RemoveFromServerEffect(t: Tables, s: nat, modId: int, ids: seq<int>)
    requires s < |t.servers| && ParseIds(t.servers[s].mods) == Some(ids)
    ensures var r := RemoveFromServer(t, s, modId);
      r.stopped.None? &&
      (modId !in ids ==> r.t == t) &&
      (modId in ids ==>
        r.t.servers == t.servers[s := t.servers[s].(mods := JoinIds(ids[..IndexOf(ids, modId)] + ids[IndexOf(ids, modId) + 1..]))])
  {
    RemoveFirstAt(ids, modId);
  }

  /**
   * The list left after taking away the server's last mod is written as "", which
   * `int.Parse` rejects: from then on, every later run that reaches an expired purchase for
   * that server which is not renewed stops there.
   */
  lemma EmptiedListStopsLaterTicks(t: Tables, s: nat, modId: int, i: nat, later: int)
    requires s < |t.servers| && ParseIds(t.servers[s].mods) == Some([modId])
    requires var t1 := RemoveFromServer(t, s, modId).t;
      i < |t1.purchases| && t1.purchases[i].serverId == t1.servers[s].id &&
      ServerById(t1.servers, t1.servers[s].id) == Some(s) &&
      t1.purchases[i].expiresDate < later && !t1.purchases[i].buyWhenExpires
    ensures var t1 := RemoveFromServer(t, s, modId).t;
      t1.servers[s].mods == "" &&
      (t1.servers[s].id != Unassigned ==> ModStep(t1, i, later) == Sweep(t1, Some(ServerListUnreadable)))
  {
    assert RemoveFirst([modId], modId) == [];
    EmptyListUnreadable();
  }

  /**
   * An expired unassigned purchase without auto-renew, with an existing buyer: when the
   * stock holds the id, its count read back goes down by one (the id leaves at 1);
   * otherwise nothing changes. The purchase row itself stays expired, so every later run
   * takes another slot.
   */
  lemma ReleaseClaimEffect(t: Tables, i: nat, u: nat, today: int)
    requires i < |t.purchases| && u < |t.users|
    requires var p := t.purchases[i];
      p.expiresDate < today && p.serverId == Unassigned && !p.buyWhenExpires &&
      UserById(t.users, p.whoBuyed) == Some(u)
    ensures var p := t.purchases[i];
      var m := Decode(t.users[u].claimedMods);
      var r := ModStep(t, i, today);
      r.stopped.None? && r.t.purchases == t.purchases &&
      r.t.users == t.users[u := t.users[u].(claimedMods := r.t.users[u].claimedMods)] &&
      (p.modId !in m ==> r.t == t) &&
      (Positive(m) ==>
        forall k :: Count(Decode(r.t.users[u].claimedMods), k) ==
          if k == p.modId && Count(m, k) > 0 then Count(m, k) - 1 else Count(m, k))
  {
    var p := t.purchases[i];
    var m := Decode(t.users[u].claimedMods);
    DecodeInt32(t.users[u].claimedMods);
    if p.modId in m {
      var m2 := Dec(m, p.modId);
      assert InInt32Range(m2);
      DecodeEncode(m2);
      if Positive(m) {
        DecCount(m, p.modId);
      }
    }
  }

  /** A purchase whose buyer no longer exists is renewed by nobody and released by nobody. */
  lemma UnassignedWithoutBuyer(t: Tables, i: nat, today: int)
    requires i < |t.purchases|
    requires t.purchases[i].serverId == Unassigned && UserById(t.users, t.purchases[i].whoBuyed).None?
    ensures ModStep(t, i, today) == Sweep(t, None)
  {
  }

  // ------------------------------------------------------------------ on the database

  /** One row of the subscription loop on the database. */
  method SubscriptionRow(db: Database, i: nat, today: int) returns (stopped: Option<TickError>)
    requires i < |db.subscriptions|
    modifies db`users, db`profit, db`subscriptions
    ensures db.Snap() == SubStep(old(db.Snap()), i, today).t
    ensures stopped == SubStep(old(db.Snap()), i, today).stopped
  {
    var sub := db.subscriptions[i];
    if !sub.subActive { return None; }
    if sub.buyWhenExpires && sub.expireData < today {
      var u := UserByLogin(db.users, sub.login);
      if u.None? { return None; }
      var b := BundleByMods(db.bundles, sub.subscriptionMods);
      if b.None? { return None; }
      stopped := RenewSubscriptionRow(db, i, u.value, db.bundles[b.value], today);
    } else if sub.expireData < today {
      db.subscriptions := db.subscriptions[i := sub.(subActive := false)];
      stopped := None;
    } else {
      stopped := None;
    }
  }

  method RenewSubscriptionRow(db: Database, i: nat, u: nat, bundle: Bundle, today: int)
    returns (stopped: Option<TickError>)
    requires i < |db.subscriptions| && u < |db.users|
    modifies db`users, db`profit, db`subscriptions
    ensures db.Snap() == RenewSubscription(old(db.Snap()), i, u, bundle, today).t
    ensures stopped == RenewSubscription(old(db.Snap()), i, u, bundle, today).stopped
  {
    var d := DeveloperByGroup(db.developers, bundle.modsby);
    if d.Some? {
      var paid := ProcessTransactionAsync(db, db.users[u].id, db.developers[d.value].nameOfMod,
                                          bundle.premPrice as real, bundle.mods, today);
      if paid.Fail? { return Some(NegativePrice); }
    }
    ChargeSubscriptionRow(db, i, u, bundle.premPrice, today);
    return None;
  }

  method ChargeSubscriptionRow(db: Database, i: nat, u: nat, price: int, today: int)
    requires i < |db.subscriptions| && u < |db.users|
    modifies db`users, db`subscriptions
    ensures db.Snap() == ChargeSubscription(old(db.Snap()), i, u, price, today)
  {
    var user := db.users[u];
    db.users := db.users[u := user.(balance := user.balance - price as real)];
    db.subscriptions := db.subscriptions[i := db.subscriptions[i].(expireData := today + 30)];
  }

  /** One row of the loop on the database, read as a step of the sweep: a row that throws
      ends it, and otherwise the sweep goes on from the next row. */
  method SubSweepRow(db: Database, i: nat, today: int) returns (stopped: Option<TickError>)
    requires i < |db.subscriptions|
    modifies db`users, db`profit, db`subscriptions
    ensures |db.subscriptions| == |old(db.subscriptions)|
    ensures stopped.Some? ==> SubSweep(old(db.Snap()), today, i) == Sweep(db.Snap(), stopped)
    ensures stopped.None? ==> SubSweep(old(db.Snap()), today, i) == SubSweep(db.Snap(), today, i + 1)
  {
    stopped := SubscriptionRow(db, i, today);
  }

  /** `HandleSubscription`: the loop over the active subscriptions. */
  method HandleSubscription(db: Database, today: int) returns (stopped: Option<TickError>)
    modifies db`users, db`profit, db`subscriptions
    ensures db.Snap() == SubSweep(old(db.Snap()), today, 0).t
    ensures stopped == SubSweep(old(db.Snap()), today, 0).stopped
  {
    ghost var r := SubSweep(db.Snap(), today, 0);
    var n := |db.subscriptions|;
    var i := 0;
    stopped := None;
    while i < n && stopped.None?
      invariant 0 <= i <= n && |db.subscriptions| == n
      invariant stopped.None? ==> SubSweep(db.Snap(), today, i) == r
      invariant stopped.Some? ==> Sweep(db.Snap(), stopped) == r
    {
      stopped := SubSweepRow(db, i, today);
      i := i + 1;
    }
  }

  /** One row of the purchase loop on the database. */
  method PurchaseRow(db: Database, i: nat, today: int) returns (stopped: Option<TickError>)
    requires i < |db.purchases|
    modifies db`users, db`profit, db`purchases, db`servers
    ensures db.Snap() == ModStep(old(db.Snap()), i, today).t
    ensures stopped == ModStep(old(db.Snap()), i, today).stopped
  {
    var p := db.purchases[i];
    if !(p.expiresDate < today) { return None; }
    if p.serverId != Unassigned {
      var s := ServerById(db.servers, p.serverId);
      var u := UserById(db.users, p.whoBuyed);
      if p.buyWhenExpires && u.Some? {
        stopped := RenewPurchaseRow(db, i, u.value, today);
      } else if s.Some? {
        stopped := RemoveFromServerRow(db, s.value, p.modId);
      } else {
        stopped := None;
      }
    } else {
      var u := UserById(db.users, p.whoBuyed);
      if u.None? { return None; }
      if p.buyWhenExpires {
        stopped := RenewPurchaseRow(db, i, u.value, today);
      } else {
        ReleaseClaimRow(db, u.value, p.modId);
        stopped := None;
      }
    }
  }

  method RenewPurchaseRow(db: Database, i: nat, u: nat, today: int) returns (stopped: Option<TickError>)
    requires i < |db.purchases| && u < |db.users|
    modifies db`users, db`profit, db`purchases
    ensures db.Snap() == RenewPurchase(old(db.Snap()), i, u, today).t
    ensures stopped == RenewPurchase(old(db.Snap()), i, u, today).stopped
  {
    var p := db.purchases[i];
    var modPrice := ModPrice(db.mods, p.modId);
    if !(db.users[u].balance >= modPrice as real) { return None; }
    var paid := ProcessTransactionAsync(db, db.users[u].id, PayeeOf(db.mods, db.developers, p.modId),
                                        modPrice as real, IntToString(p.modId), today);
    if paid.Fail? { return Some(NegativePrice); }
    ChargePurchaseRow(db, i, u, modPrice, today);
    return None;
  }

  method ChargePurchaseRow(db: Database, i: nat, u: nat, price: int, today: int)
    requires i < |db.purchases| && u < |db.users|
    modifies db`users, db`purchases
    ensures db.Snap() == ChargePurchase(old(db.Snap()), i, u, price, today)
  {
    var user := db.users[u];
    db.users := db.users[u := user.(balance := user.balance - price as real)];
    db.purchases := db.purchases[i := db.purchases[i].(expiresDate := today + 30)];
  }

  method RemoveFromServerRow(db: Database, s: nat, modId: int) returns (stopped: Option<TickError>)
    requires s < |db.servers|
    modifies db`servers
    ensures db.Snap() == RemoveFromServer(old(db.Snap()), s, modId).t
    ensures stopped == RemoveFromServer(old(db.Snap()), s, modId).stopped
  {
    var server := db.servers[s];
    var parsed := ParseIds(server.mods);
    if parsed.None? { return Some(ServerListUnreadable); }
    var serverModsIds := parsed.value;
    if modId in serverModsIds {
      serverModsIds := RemoveFirst(serverModsIds, modId);
      db.servers := db.servers[s := server.(mods := JoinIds(serverModsIds))];
    }
    return None;
  }

  method ReleaseClaimRow(db: Database, u: nat, modId: int)
    requires u < |db.users|
    modifies db`users
    ensures db.Snap() == ReleaseClaim(old(db.Snap()), u, modId)
  {
    var user := db.users[u];
    var claims := ParseClaimedMods(user.claimedMods);
    if modId in claims {
      if claims[modId] > 1 {
        claims := claims[modId := claims[modId] - 1];
      } else {
        claims := claims - {modId};
      }
      db.users := db.users[u := user.(claimedMods := Encode(claims))];
    }
  }

  /** One row of the loop on the database, read as a step of the sweep: a row that throws
      ends it, and otherwise the sweep goes on from the next row. */
  method ModSweepRow(db: Database, i: nat, today: int) returns (stopped: Option<TickError>)
    requires i < |db.purchases|
    modifies db`users, db`profit, db`purchases, db`servers
    ensures |db.purchases| == |old(db.purchases)|
    ensures stopped.Some? ==> ModSweep(old(db.Snap()), today, i) == Sweep(db.Snap(), stopped)
    ensures stopped.None? ==> ModSweep(old(db.Snap()), today, i) == ModSweep(db.Snap(), today, i + 1)
  {
    stopped := PurchaseRow(db, i, today);
  }

  /** `HandleMods`: the loop over all purchase rows. */
  method HandleMods(db: Database, today: int) returns (stopped: Option<TickError>)
    modifies db`users, db`profit, db`purchases, db`servers
    ensures db.Snap() == ModSweep(old(db.Snap()), today, 0).t
    ensures stopped == ModSweep(old(db.Snap()), today, 0).stopped
  {
    ghost var r := ModSweep(db.Snap(), today, 0);
    var n := |db.purchases|;
    var i := 0;
    stopped := None;
    while i < n && stopped.None?
      invariant 0 <= i <= n && |db.purchases| == n
      invariant stopped.None? ==> ModSweep(db.Snap(), today, i) == r
      invariant stopped.Some? ==> Sweep(db.Snap(), stopped) == r
    {
      stopped := ModSweepRow(db, i, today);
      i := i + 1;
    }
  }

  /** One run of the refresher on the database. */
  method RefreshOnce(db: Database, today: int) returns (stopped: Option<TickError>)
    modifies db`users, db`profit, db`subscriptions, db`purchases, db`servers
    ensures db.Snap() == Tick(old(db.Snap()), today).t
    ensures stopped == Tick(old(db.Snap()), today).stopped
  {
    stopped := HandleSubscription(db, today);
    if stopped.Some? { return; }
    stopped := HandleMods(db, today);
  }
}
