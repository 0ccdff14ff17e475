/**
 * The balance handler: the purchase transfer that credits a developer's account, and the
 * deposit that takes a 15% commission. Each successful call appends one profit row.
 */
module Ledger {
  import opened Wrappers
  import opened Records
  import opened Store

  /** The platform's share of a deposit. */
  const CommissionRate: real := 0.15

  datatype LedgerError =
    | NegativeAmount   // the amount is below zero (an `ArgumentException`)
    | UnknownUser      // the depositing user does not exist

  /** The sum of all account balances. */
  function TotalBalance(users: seq<User>): real {
    if |users| == 0 then 0.0 else TotalBalance(users[..|users| - 1]) + users[|users| - 1].balance
  }

  /** Changing one account's balance changes the total by the same amount. */
  lemma {:induction false} TotalBalanceUpdate(users: seq<User>, i: nat, u: User)
    requires i < |users|
    ensures TotalBalance(users[i := u]) == TotalBalance(users) - users[i].balance + u.balance
  {
    var n := |users| - 1;
    var after := users[i := u];
    if i < n {
      assert after[..n] == users[..n][i := u];
      TotalBalanceUpdate(users[..n], i, u);
    } else {
      assert after[..n] == users[..n];
    }
  }

  /** Debiting one account lowers the total by the amount. */
  lemma DebitTotal(users: seq<User>, i: nat, amount: real, after: seq<User>)
    requires i < |users| && after == users[i := users[i].(balance := users[i].balance - amount)]
    ensures TotalBalance(after) == TotalBalance(users) - amount
  {
    TotalBalanceUpdate(users, i, users[i].(balance := users[i].balance - amount));
  }

  /** The sum of the `Amount` column of some profit rows. */
  function RowsAmount(rows: seq<ProfitRow>): real {
    if |rows| == 0 then 0.0 else RowsAmount(rows[..|rows| - 1]) + rows[|rows| - 1].amount
  }

  lemma {:induction false} RowsAmountAppend(a: seq<ProfitRow>, b: seq<ProfitRow>)
    ensures RowsAmount(a + b) == RowsAmount(a) + RowsAmount(b)
    decreases |b|
  {
    if |b| > 0 {
      var n := |b| - 1;
      RowsAmountAppend(a, b[..n]);
      assert (a + b)[..|a + b| - 1] == a + b[..n];
    } else {
      assert a + b == a;
    }
  }

  /**
   * `ProcessTransactionAsync(buyerId, modderName, amount, item)`: the developer row whose
   * payable login is `modderName` and the account with that login are looked up; when both
   * exist the account is credited the whole amount and a row with profit 0 is appended.
   */
  function Transfer(b: Tables, buyerId: int, modderName: string, amount: real, item: string,
                    today: int): (r: Result<Tables, LedgerError>)
    ensures r.Failure? <==> amount < 0.0
    ensures r.Failure? ==> r.error == NegativeAmount
    ensures r.Success? ==> r.value == b.(users := r.value.users, profit := r.value.profit)
    ensures r.Success? ==> |r.value.users| == |b.users| && b.profit <= r.value.profit
    ensures r.Success? ==> |r.value.profit| <= |b.profit| + 1
  {
    if amount < 0.0 then Failure(NegativeAmount)
    else
      match DeveloperByName(b.developers, modderName)
      case None => Success(b)
      case Some(d) =>
        match UserByLogin(b.users, b.developers[d].nameOfMod)
        case None => Success(b)
        case Some(u) =>
          var payee := b.users[u];
          var row := ProfitRow(buyerId, item, amount, payee.id, 0.0, today, false);
          Success(b.(users := b.users[u := payee.(balance := payee.balance + amount)], profit := b.profit + [row]))
  }

  /** Without a developer row for the name, or without an account of that login, nothing changes. */
  lemma TransferWithoutPayee(b: Tables, buyerId: int, modderName: string,
                             amount: real, item: string, today: int)
    requires amount >= 0.0
    requires DeveloperByName(b.developers, modderName).None? ||
             UserByLogin(b.users, modderName).None?
    ensures Transfer(b, buyerId, modderName, amount, item, today) == Success(b)
  {
    var d := DeveloperByName(b.developers, modderName);
    if d.Some? {
      assert b.developers[d.value].nameOfMod == modderName;
    }
  }

  /**
   * With a payee, exactly the payee's balance rises by the full amount (the buyer is not
   * debited here), and exactly one row is appended naming buyer, item, amount and payee, with
   * profit 0 and not cashed out.
   */
  lemma TransferCredits(b: Tables, buyerId: int, modderName: string,
                        amount: real, item: string, today: int)
    requires amount >= 0.0
    requires DeveloperByName(b.developers, modderName).Some?
    requires UserByLogin(b.users, modderName).Some?
    ensures var u := UserByLogin(b.users, modderName).value;
      var r := Transfer(b, buyerId, modderName, amount, item, today);
      r.Success? &&
      r.value.users == b.users[u := b.users[u].(balance := b.users[u].balance + amount)] &&
      r.value.profit == b.profit + [ProfitRow(buyerId, item, amount, b.users[u].id, 0.0, today, false)]
  {
    var d := DeveloperByName(b.developers, modderName).value;
    assert b.developers[d].nameOfMod == modderName;
  }

  /** The account a transfer to `name` credits: the account with that login, when a developer
      row carries that name and the account exists. */
  function PayeeAccount(b: Tables, name: string): (r: Option<nat>)
    ensures r.Some? ==> r.value < |b.users| && b.users[r.value].login == name
    ensures r.Some? ==> exists d :: 0 <= d < |b.developers| && b.developers[d].nameOfMod == name
  {
    match DeveloperByName(b.developers, name)
    case None => None
    case Some(d) => UserByLogin(b.users, name)
  }

  /** Account by account, a transfer of a non-negative amount credits the payee and leaves
      every other account as it was. */
  lemma TransferAccounts(b: Tables, buyerId: int, modderName: string,
                         amount: real, item: string, today: int)
    requires amount >= 0.0
    ensures var r := Transfer(b, buyerId, modderName, amount, item, today);
      var payee := PayeeAccount(b, modderName);
      r.Success? &&
      forall v :: 0 <= v < |b.users| ==>
        r.value.users[v] == if payee == Some(v) then b.users[v].(balance := b.users[v].balance + amount)
                            else b.users[v]
  {
    if PayeeAccount(b, modderName).Some? {
      TransferCredits(b, buyerId, modderName, amount, item, today);
    } else {
      TransferWithoutPayee(b, buyerId, modderName, amount, item, today);
    }
  }

  /** A transfer raises the total of all balances by exactly the amount recorded in the new rows. */
  lemma TransferConserves(b: Tables, buyerId: int, modderName: string,
                          amount: real, item: string, today: int)
    requires Transfer(b, buyerId, modderName, amount, item, today).Success?
    ensures var nb := Transfer(b, buyerId, modderName, amount, item, today).value;
      TotalBalance(nb.users) == TotalBalance(b.users) + RowsAmount(nb.profit[|b.profit|..])
  {
    var nb := Transfer(b, buyerId, modderName, amount, item, today).value;
    var d := DeveloperByName(b.developers, modderName);
    if d.Some? {
      var u := UserByLogin(b.users, b.developers[d.value].nameOfMod);
      if u.Some? {
        var payee := b.users[u.value];
        TotalBalanceUpdate(b.users, u.value, payee.(balance := payee.balance + amount));
        assert nb.profit[|b.profit|..] == [nb.profit[|b.profit|]];
        assert RowsAmount([nb.profit[|b.profit|]]) == amount;
      } else {
        assert nb.profit[|b.profit|..] == [];
      }
    } else {
      assert nb.profit[|b.profit|..] == [];
    }
  }

  /** The row tag of a deposit. */
  function DepositTag(setMode: bool): string {
    if setMode then "Deposit (SET)" else "Deposit (ADD)"
  }

  /**
   * `ProcessDepositAsync(userId, amount, mode)`: the commission is 15% of the amount and the
   * net is the rest; the row records the net as `Amount` and the commission as `Profit`.
   * In SET mode the balance becomes the amount, in ADD mode it grows by the net.
   */
  function Deposit(b: Tables, userId: int, amount: real, setMode: bool, today: int): (r: Result<Tables, LedgerError>)
    ensures amount < 0.0 ==> r == Failure(NegativeAmount)
    ensures amount >= 0.0 ==> (r.Failure? <==> UserById(b.users, userId).None?)
    ensures r.Failure? ==> amount < 0.0 || r.error == UnknownUser
    ensures r.Success? ==> r.value == b.(users := r.value.users, profit := r.value.profit)
    ensures r.Success? ==> |r.value.users| == |b.users| && b.profit <= r.value.profit
    ensures r.Success? ==> |r.value.profit| == |b.profit| + 1
  {
    if amount < 0.0 then Failure(NegativeAmount)
    else
      match UserById(b.users, userId)
      case None => Failure(UnknownUser)
      case Some(u) =>
        var user := b.users[u];
        var commission := amount * CommissionRate;
        var total := amount - commission;
        var row := ProfitRow(user.id, DepositTag(setMode), total, user.id, commission, today, false);
        var balance := if setMode then amount else user.balance + total;
        Success(b.(users := b.users[u := user.(balance := balance)], profit := b.profit + [row]))
  }

  /**
   * A successful deposit changes only the depositor's balance (SET: to the amount; ADD: by
   * the net), and its row names the depositor twice and splits the amount into net plus
   * commission: `Amount + Profit == amount`, `Profit == 0.15 * amount`.
   */
  lemma DepositEffect(b: Tables, userId: int, amount: real, setMode: bool, today: int)
    requires amount >= 0.0 && UserById(b.users, userId).Some?
    ensures var u := UserById(b.users, userId).value;
      var nb := Deposit(b, userId, amount, setMode, today).value;
      var row := nb.profit[|b.profit|];
      (forall i :: 0 <= i < |b.users| && i != u ==> nb.users[i] == b.users[i]) &&
      nb.users[u].id == userId &&
      nb.users[u] == b.users[u].(balance := nb.users[u].balance) &&
      (setMode ==> nb.users[u].balance == amount) &&
      (!setMode ==> nb.users[u].balance == b.users[u].balance + row.amount) &&
      row.whoBought == userId && row.whoEarn == userId &&
      row.amount + row.profit == amount && row.profit == amount * CommissionRate &&
      row.whatBought == DepositTag(setMode) && !row.cashedOut
  {
  }

  /** An ADD deposit raises the total of all balances by exactly the net recorded in its row. */
  lemma DepositAddConserves(b: Tables, userId: int, amount: real, today: int)
    requires Deposit(b, userId, amount, false, today).Success?
    ensures var nb := Deposit(b, userId, amount, false, today).value;
      TotalBalance(nb.users) == TotalBalance(b.users) + RowsAmount(nb.profit[|b.profit|..])
  {
    var nb := Deposit(b, userId, amount, false, today).value;
    var u := UserById(b.users, userId).value;
    var user := b.users[u];
    TotalBalanceUpdate(b.users, u, user.(balance := user.balance + (amount - amount * CommissionRate)));
    assert nb.profit[|b.profit|..] == [nb.profit[|b.profit|]];
  }

  // ------------------------------------------------------------------ on the database

  /** The balance handler's transfer, changing the tracked tables in place. */
  method ProcessTransactionAsync(db: Database, buyerId: int, modderName: string, amount: real,
                                 item: string, today: int) returns (outcome: Outcome<LedgerError>)
    modifies db`users, db`profit
    ensures match Transfer(old(db.Snap()), buyerId, modderName, amount, item, today)
      case Failure(e) => outcome == Fail(e) && db.Snap() == old(db.Snap())
      case Success(t) => outcome == Pass && db.Snap() == t
  {
    if amount < 0.0 {
      return Fail(NegativeAmount);
    }
    var d := DeveloperByName(db.developers, modderName);
    if d.None? {
      return Pass;
    }
    var u := UserByLogin(db.users, db.developers[d.value].nameOfMod);
    if u.None? {
      return Pass;
    }
    var payee := db.users[u.value];
    var row := ProfitRow(buyerId, item, amount, payee.id, 0.0, today, false);
    db.users := db.users[u.value := payee.(balance := payee.balance + amount)];
    db.profit := db.profit + [row];
    return Pass;
  }

  /** The balance handler's deposit, changing the tracked tables in place. */
  method ProcessDepositAsync(db: Database, userId: int, amount: real, setMode: bool, today: int)
    returns (outcome: Outcome<LedgerError>)
    modifies db`users, db`profit
    ensures match Deposit(old(db.Snap()), userId, amount, setMode, today)
      case Failure(e) => outcome == Fail(e) && db.Snap() == old(db.Snap())
      case Success(t) => outcome == Pass && db.Snap() == t
  {
    if amount < 0.0 {
      return Fail(NegativeAmount);
    }
    var u := UserById(db.users, userId);
    if u.None? {
      return Fail(UnknownUser);
    }
    var user := db.users[u.value];
    var commission := amount * CommissionRate;
    var total := amount - commission;
    var row := ProfitRow(user.id, "Deposit", total, user.id, commission, today, false);
    var balance := user.balance;
    if setMode {
      row := row.(whatBought := "Deposit (SET)");
      balance := amount;
    } else {
      row := row.(whatBought := "Deposit (ADD)");
      balance := balance + total;
    }
    db.users := db.users[u.value := user.(balance := balance)];
    db.profit := db.profit + [row];
    return Pass;
  }
}
