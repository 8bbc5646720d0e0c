/** The economy cog: one account document per user (`cash`, `bank`, `debt`, `inv`) and one
    shop document per item (`price`, `stock`, `role`). Each command reads the documents it
    needs, checks a condition and writes new values; here each command is a function from
    the documents (and the random draws it makes) to the new documents or a refusal. A
    refusal, whether the bot replies with a message or the command dies on an exception,
    writes nothing. */
module Ledger {
  import opened Outcomes
  import opened Text

  type UserId = int

  datatype Account = Account(cash: int, bank: int, debt: int, inv: map<string, int>)

  /** `stock == None` means the item never runs out. */
  datatype ShopItem = ShopItem(price: int, stock: Option<int>, role: Option<string>)

  /** The economy collection, keyed by the `user` field. */
  type Accounts = map<UserId, Account>

  /** The store collection, keyed by the `name` field. */
  type Shop = map<string, ShopItem>

  datatype Reject =
    | UnknownUser         // no account document: the command fails on `None[...]`
    | UnrecognisedAmount  // an amount that is neither an integer nor "all": no reply, no change
    | InsufficientBank
    | InsufficientCash
    | LoanRefused         // loan too large, or a loan is already outstanding
    | NoDebt
    | CannotRepay
    | ItemNotFound        // no shop document under the capitalised name
    | OutOfStock
    | ItemNotHeld         // the inventory has no entry for the item (KeyError)
    | NotEnoughItems      // selling more than is held
    | NegativeAmount
    | RobRefused          // no heist tools, or the victim holds 10 cash or less

  /** The amount argument of withdraw and deposit: either `int(amount)` succeeded, or it
      raised ValueError and the text is kept. */
  datatype AmountArg = Number(n: int) | Word(text: string)

  const HeistTools: string := "heist tools"

  function NetWorth(a: Account): int {
    a.cash + a.bank - a.debt
  }

  /** Count of an item in the inventory, absent entries counting as none. */
  function Held(a: Account, key: string): int {
    if key in a.inv then a.inv[key] else 0
  }

  /** `int(x * (p / 100))`: the exact percentage truncated toward zero. */
  function PercentOf(x: int, p: nat): (r: int)
    ensures x >= 0 ==> 0 <= r && r * 100 <= x * p < (r + 1) * 100
    ensures x < 0 ==> r <= 0 && -r * 100 <= -x * p < (-r + 1) * 100
  {
    if x >= 0 then x * p / 100 else -((-x) * p / 100)
  }

  /** Only cash and bank changed, and their sum did not. */
  predicate MovedBetweenCashAndBank(a: Account, b: Account) {
    b.cash + b.bank == a.cash + a.bank && b.debt == a.debt && b.inv == a.inv
  }

  // ---------------------------------------------------------------- accounts in the store

  /** Reads the author's document, applies a one-account command, and writes the result
      back; every other document stays as it was. */
  function RunCommand(accounts: Accounts, user: UserId, step: Account -> Result<Account, Reject>)
    : (r: Result<Accounts, Reject>)
    ensures user !in accounts ==> r == Err(UnknownUser)
    ensures user in accounts ==> (r.Ok? <==> step(accounts[user]).Ok?)
    ensures user in accounts && step(accounts[user]).Err? ==> r == Err(step(accounts[user]).error)
    ensures r.Ok? ==> && r.value.Keys == accounts.Keys
                      && r.value[user] == step(accounts[user]).value
                      && forall v :: v in accounts && v != user ==> r.value[v] == accounts[v]
  {
    if user !in accounts then Err(UnknownUser)
    else
      match step(accounts[user])
      case Err(e) => Err(e)
      case Ok(a) => Ok(accounts[user := a])
  }

  /** `update_one({'user': id}, {"$inc": {'cash': delta}})`: no document matches a missing
      user, so nothing happens then. */
  function AddCash(accounts: Accounts, user: UserId, delta: int): (r: Accounts)
    ensures r.Keys == accounts.Keys
    ensures user in accounts ==> r[user] == accounts[user].(cash := accounts[user].cash + delta)
    ensures forall v :: v in accounts && v != user ==> r[v] == accounts[v]
  {
    if user in accounts then accounts[user := accounts[user].(cash := accounts[user].cash + delta)] else accounts
  }

  // ---------------------------------------------------------------- withdraw and deposit

  /** Moves `amount` (or the whole bank balance for "all") from bank to cash. */
  function Withdraw(a: Account, amount: AmountArg): (r: Result<Account, Reject>)
    ensures amount.Number? ==> (r.Ok? <==> a.bank >= amount.n)
    ensures amount.Word? ==> (r.Ok? <==> Lower(amount.text) == "all")
    ensures r.Err? ==> r.error == if amount.Number? then InsufficientBank else UnrecognisedAmount
    ensures r.Ok? ==> MovedBetweenCashAndBank(a, r.value)
    ensures r.Ok? && amount.Number? ==> r.value.bank == a.bank - amount.n
    ensures r.Ok? && amount.Word? ==> r.value.bank == 0
  {
    match amount
    case Number(n) =>
      if a.bank >= n then Ok(a.(bank := a.bank - n, cash := a.cash + n)) else Err(InsufficientBank)
    case Word(w) =>
      if Lower(w) == "all" then Ok(a.(bank := 0, cash := a.cash + a.bank)) else Err(UnrecognisedAmount)
  }

  /** Moves `amount` (or all cash for "all") from cash to bank. */
  function Deposit(a: Account, amount: AmountArg): (r: Result<Account, Reject>)
    ensures amount.Number? ==> (r.Ok? <==> a.cash >= amount.n)
    ensures amount.Word? ==> (r.Ok? <==> Lower(amount.text) == "all")
    ensures r.Err? ==> r.error == if amount.Number? then InsufficientCash else UnrecognisedAmount
    ensures r.Ok? ==> MovedBetweenCashAndBank(a, r.value)
    ensures r.Ok? && amount.Number? ==> r.value.cash == a.cash - amount.n
    ensures r.Ok? && amount.Word? ==> r.value.cash == 0
  {
    match amount
    case Number(n) =>
      if a.cash >= n then Ok(a.(cash := a.cash - n, bank := a.bank + n)) else Err(InsufficientCash)
    case Word(w) =>
      if Lower(w) == "all" then Ok(a.(cash := 0, bank := a.bank + a.cash)) else Err(UnrecognisedAmount)
  }

  /** Depositing what was just withdrawn restores the account, provided cash was not
      negative to begin with. */
  lemma WithdrawThenDeposit(a: Account, n: int)
    requires a.cash >= 0 && Withdraw(a, Number(n)).Ok?
    ensures Deposit(Withdraw(a, Number(n)).value, Number(n)) == Ok(a)
  {
  }

  /** Cash {100}, bank {50}: withdraw 30 gives 130/20; then deposit "all" gives 0/150. */
  lemma WithdrawDepositScenario()
    ensures Withdraw(Account(100, 50, 0, map[]), Number(30)) == Ok(Account(130, 20, 0, map[]))
    ensures Deposit(Account(130, 20, 0, map[]), Word("ALL")) == Ok(Account(0, 150, 0, map[]))
  {
    assert Lower("ALL") == "all";
  }

  // ---------------------------------------------------------------- balance

  /** The four lines of the balance reply; debt is shown negated. */
  datatype Statement = Statement(cash: int, bank: int, shownDebt: int, netWorth: int)

  function Balance(accounts: Accounts, user: UserId): (r: Result<Statement, Reject>)
    ensures r.Ok? <==> user in accounts
    ensures r.Err? ==> r.error == UnknownUser
    ensures r.Ok? ==> && r.value.cash == accounts[user].cash && r.value.bank == accounts[user].bank
                      && r.value.shownDebt == -accounts[user].debt
                      && r.value.netWorth == r.value.cash + r.value.bank + r.value.shownDebt
  {
    if user !in accounts then Err(UnknownUser)
    else
      var a := accounts[user];
      Ok(Statement(a.cash, a.bank, -a.debt, NetWorth(a)))
  }

  /** Moving money between cash and bank leaves the net worth alone. */
  lemma TransfersKeepNetWorth(a: Account, amount: AmountArg)
    ensures Withdraw(a, amount).Ok? ==> NetWorth(Withdraw(a, amount).value) == NetWorth(a)
    ensures Deposit(a, amount).Ok? ==> NetWorth(Deposit(a, amount).value) == NetWorth(a)
  {
  }

  // ---------------------------------------------------------------- earning and wagers

  /** `work`: a draw from [50, 200] is added to the author's cash. */
  function Work(accounts: Accounts, user: UserId, earned: int): (r: Accounts)
    requires 50 <= earned <= 200
    ensures r.Keys == accounts.Keys
    ensures user in accounts ==> && r[user] == accounts[user].(cash := accounts[user].cash + earned)
                                 && accounts[user].cash + 50 <= r[user].cash <= accounts[user].cash + 200
    ensures forall v :: v in accounts && v != user ==> r[v] == accounts[v]
  {
    AddCash(accounts, user, earned)
  }

  /** A roll of 1..10 wins when it is at most `winningRolls`; the stake is added on a win and
      taken away otherwise, with no floor at zero. */
  function Wager(accounts: Accounts, user: UserId, roll: int, winningRolls: int, stake: int): (r: Accounts)
    ensures r.Keys == accounts.Keys
    ensures user in accounts ==>
              r[user] == accounts[user].(cash := accounts[user].cash + (if 1 <= roll <= winningRolls then stake else -stake))
    ensures forall v :: v in accounts && v != user ==> r[v] == accounts[v]
  {
    AddCash(accounts, user, if 1 <= roll <= winningRolls then stake else -stake)
  }

  /** `slut`: rolls 1..6 of 10 win, and the stake is drawn from [60, 200] either way. */
  function Slut(accounts: Accounts, user: UserId, roll: int, stake: int): (r: Accounts)
    requires 1 <= roll <= 10 && 60 <= stake <= 200
    ensures r.Keys == accounts.Keys
    ensures user in accounts ==>
              r[user] == accounts[user].(cash := accounts[user].cash + (if roll <= 6 then stake else -stake))
    ensures user in accounts && roll <= 6 ==> accounts[user].cash + 60 <= r[user].cash <= accounts[user].cash + 200
    ensures user in accounts && roll > 6 ==> accounts[user].cash - 200 <= r[user].cash <= accounts[user].cash - 60
    ensures forall v :: v in accounts && v != user ==> r[v] == accounts[v]
  {
    Wager(accounts, user, roll, 6, stake)
  }

  /** `crime`: rolls 1..4 of 10 win a draw from [150, 400]; a loss costs a draw from [150, 250]. */
  function Crime(accounts: Accounts, user: UserId, roll: int, stake: int): (r: Accounts)
    requires 1 <= roll <= 10
    requires roll <= 4 ==> 150 <= stake <= 400
    requires roll > 4 ==> 150 <= stake <= 250
    ensures r.Keys == accounts.Keys
    ensures user in accounts ==>
              r[user] == accounts[user].(cash := accounts[user].cash + (if roll <= 4 then stake else -stake))
    ensures user in accounts && roll <= 4 ==> accounts[user].cash + 150 <= r[user].cash <= accounts[user].cash + 400
    ensures user in accounts && roll > 4 ==> accounts[user].cash - 250 <= r[user].cash <= accounts[user].cash - 150
    ensures forall v :: v in accounts && v != user ==> r[v] == accounts[v]
  {
    Wager(accounts, user, roll, 4, stake)
  }

  /** What `bal` shows after `work`: the cash line and the net worth rise by the amount
      earned, and every other user's statement is as before. */
  lemma WorkShowsInBalance(accounts: Accounts, user: UserId, earned: int)
    requires 50 <= earned <= 200 && user in accounts
    ensures var before, after := Balance(accounts, user).value, Balance(Work(accounts, user, earned), user).value;
            && after.cash == before.cash + earned && after.bank == before.bank
            && after.shownDebt == before.shownDebt && after.netWorth == before.netWorth + earned
    ensures forall v :: v != user ==> Balance(Work(accounts, user, earned), v) == Balance(accounts, v)
  {
  }

  /** What `bal` shows after a wager: the net worth moves by exactly the stake, up on a
      winning roll and down otherwise, and every other user's statement is as before. */
  lemma WagerShowsInBalance(accounts: Accounts, user: UserId, roll: int, winningRolls: int, stake: int)
    requires user in accounts
    ensures var before, after := Balance(accounts, user).value, Balance(Wager(accounts, user, roll, winningRolls, stake), user).value;
            && after.bank == before.bank && after.shownDebt == before.shownDebt
            && after.netWorth == before.netWorth + (if 1 <= roll <= winningRolls then stake else -stake)
    ensures forall v :: v != user ==> Balance(Wager(accounts, user, roll, winningRolls, stake), v) == Balance(accounts, v)
  {
  }

  // ---------------------------------------------------------------- loans

  /** `get-loan`: granted only below twice the bank balance and with no debt outstanding;
      the loan is paid into the bank and owed back with a 5% fee. */
  function GetLoan(a: Account, loan: int): (r: Result<Account, Reject>)
    ensures r.Ok? <==> loan < 2 * a.bank && a.debt == 0
    ensures r.Err? ==> r.error == LoanRefused
    ensures r.Ok? ==> && r.value.bank == a.bank + loan
                      && r.value.debt == loan + PercentOf(loan, 5)
                      && r.value.cash == a.cash && r.value.inv == a.inv
    ensures r.Ok? && loan >= 0 ==> loan <= r.value.debt && r.value.debt * 100 <= loan * 105
  {
    if loan < a.bank * 2 && a.debt == 0 then
      Ok(a.(debt := a.debt + loan + PercentOf(loan, 5), bank := a.bank + loan))
    else
      Err(LoanRefused)
  }

  /** `repay-loan`: the whole debt is paid from cash, or nothing happens. */
  function RepayLoan(a: Account): (r: Result<Account, Reject>)
    ensures a.debt <= 0 ==> r == Err(NoDebt)
    ensures a.debt > 0 && a.cash < a.debt ==> r == Err(CannotRepay)
    ensures r.Ok? <==> a.debt > 0 && a.cash >= a.debt
    ensures r.Ok? ==> && r.value.debt == 0 && r.value.cash == a.cash - a.debt
                      && r.value.bank == a.bank && r.value.inv == a.inv
                      && r.value.cash >= 0
  {
    if a.debt > 0 then
      if a.cash >= a.debt then Ok(a.(cash := a.cash - a.debt, debt := 0)) else Err(CannotRepay)
    else
      Err(NoDebt)
  }

  /** Repaying changes the split of the net worth but not the net worth itself. */
  lemma RepayKeepsNetWorth(a: Account)
    requires RepayLoan(a).Ok?
    ensures NetWorth(RepayLoan(a).value) == NetWorth(a)
  {
  }

  /** `bal` shows the same net worth before and after a withdraw, a deposit or a
      repayment by the user, and the same statement for everyone else. */
  lemma BalanceNetWorthKept(accounts: Accounts, user: UserId, amount: AmountArg)
    ensures var w := RunCommand(accounts, user, a => Withdraw(a, amount));
            w.Ok? ==> && Balance(w.value, user).Ok?
                      && Balance(w.value, user).value.netWorth == Balance(accounts, user).value.netWorth
                      && forall v :: v != user ==> Balance(w.value, v) == Balance(accounts, v)
    ensures var d := RunCommand(accounts, user, a => Deposit(a, amount));
            d.Ok? ==> && Balance(d.value, user).Ok?
                      && Balance(d.value, user).value.netWorth == Balance(accounts, user).value.netWorth
                      && forall v :: v != user ==> Balance(d.value, v) == Balance(accounts, v)
    ensures var p := RunCommand(accounts, user, RepayLoan);
            p.Ok? ==> && Balance(p.value, user).Ok?
                      && Balance(p.value, user).value.netWorth == Balance(accounts, user).value.netWorth
                      && forall v :: v != user ==> Balance(p.value, v) == Balance(accounts, v)
  {
    if user in accounts {
      TransfersKeepNetWorth(accounts[user], amount);
      if RepayLoan(accounts[user]).Ok? {
        RepayKeepsNetWorth(accounts[user]);
      }
    }
  }

  /** What the two delayed checks after a loan do. */
  datatype FollowUp = FollowUp(reminded: bool, penalised: Option<Account>)

  /** The checks 18 hours and 24 hours after a loan of `loan`, given the account as it is
      read back at each moment. A debt cleared by the first check ends the follow-up; a debt
      still there at the second is cancelled and `loan` plus 10% is taken from cash. */
  function LoanFollowUp(loan: int, atReminder: Account, atDefault: Account): (r: FollowUp)
    ensures r.reminded <==> atReminder.debt != 0
    ensures r.penalised.Some? <==> atReminder.debt != 0 && atDefault.debt != 0
    ensures r.penalised.Some? ==>
              && r.penalised.value.debt == 0
              && r.penalised.value.cash == atDefault.cash - loan - PercentOf(loan, 10)
              && r.penalised.value.bank == atDefault.bank && r.penalised.value.inv == atDefault.inv
  {
    if atReminder.debt == 0 then FollowUp(false, None)
    else if atDefault.debt == 0 then FollowUp(true, None)
    else FollowUp(true, Some(atDefault.(debt := 0, cash := atDefault.cash - (loan + PercentOf(loan, 10)))))
  }

  /** For a loan left untouched, defaulting costs 10% of the loan in net worth while
      repaying costs the 5% fee, so defaulting is never cheaper. */
  lemma {:induction false} DefaultCostsMoreThanRepaying(a: Account, loan: int)
    requires loan > 0 && GetLoan(a, loan).Ok?
    ensures var taken := GetLoan(a, loan).value;
            && NetWorth(taken) == NetWorth(a) - PercentOf(loan, 5)
            && LoanFollowUp(loan, taken, taken).penalised.Some?
            && NetWorth(LoanFollowUp(loan, taken, taken).penalised.value) == NetWorth(a) - PercentOf(loan, 10)
            && PercentOf(loan, 10) >= PercentOf(loan, 5)
  {
    var taken := GetLoan(a, loan).value;
    assert taken.debt == loan + PercentOf(loan, 5);
    assert PercentOf(loan, 5) >= 0;
    assert loan * 10 >= loan * 5;
    assert loan * 10 / 100 >= loan * 5 / 100;
  }

  // ---------------------------------------------------------------- shop

  /** The account and shop documents after a purchase. */
  datatype Purchase = Purchase(buyer: Account, shop: Shop)

  /** The name of the shop document an item argument refers to: `item.lower().capitalize()`.
      The inventory entry is keyed by `Lower(item)`. */
  function ShopName(item: string): string {
    Capitalize(Lower(item))
  }

  /** `buy` once the two keys are fixed: `name` is the shop document, `key` the inventory
      entry. Cash must cover `n * price`; a finite stock must hold `n` and loses it, an
      unlimited stock is left as it is. */
  function BuyEntry(a: Account, shop: Shop, n: int, name: string, key: string): (r: Result<Purchase, Reject>)
    ensures name !in shop ==> r == Err(ItemNotFound)
    ensures name in shop && a.cash < n * shop[name].price ==> r == Err(InsufficientCash)
    ensures r.Ok? <==>
              && name in shop
              && a.cash >= n * shop[name].price
              && (shop[name].stock.Some? ==> shop[name].stock.value >= n)
    ensures r.Ok? ==> r.value.buyer == a.(cash := a.cash - n * shop[name].price, inv := a.inv[key := Held(a, key) + n])
    ensures r.Ok? ==> r.value.shop.Keys == shop.Keys
    ensures r.Ok? ==> forall k :: k in shop && k != name ==> r.value.shop[k] == shop[k]
    ensures r.Ok? ==> r.value.shop[name] == shop[name].(stock := if shop[name].stock.None? then None
                                                                else Some(shop[name].stock.value - n))
  {
    if name !in shop then Err(ItemNotFound)
    else
      var entry := shop[name];
      var cost := n * entry.price;
      var buyer := a.(cash := a.cash - cost, inv := a.inv[key := Held(a, key) + n]);
      if a.cash < cost then Err(InsufficientCash)
      else
        match entry.stock
        case None => Ok(Purchase(buyer, shop))
        case Some(s) =>
          if s >= n then Ok(Purchase(buyer, shop[name := entry.(stock := Some(s - n))]))
          else Err(OutOfStock)
  }

  /** `buy`: the shop document is looked up by `ShopName(item)` and the inventory entry by
      `Lower(item)`. */
  function Buy(a: Account, shop: Shop, n: int, item: string): Result<Purchase, Reject> {
    BuyEntry(a, shop, n, ShopName(item), Lower(item))
  }

  /** `sell` as the source writes it, once the two keys are fixed: the held count is reduced
      by `n` without being checked, so it can go negative. A missing inventory entry fails
      before the shop document is read. */
  function SellEntryAsWritten(a: Account, shop: Shop, n: int, name: string, key: string): (r: Result<Account, Reject>)
    ensures key !in a.inv ==> r == Err(ItemNotHeld)
    ensures r.Ok? <==> key in a.inv && name in shop
    ensures r.Ok? ==> r.value == a.(inv := a.inv[key := a.inv[key] - n], cash := a.cash + shop[name].price * n)
  {
    if key !in a.inv then Err(ItemNotHeld)
    else if name !in shop then Err(ItemNotFound)
    else Ok(a.(inv := a.inv[key := a.inv[key] - n], cash := a.cash + shop[name].price * n))
  }

  function SellAsWritten(a: Account, shop: Shop, n: int, item: string): Result<Account, Reject> {
    SellEntryAsWritten(a, shop, n, ShopName(item), Lower(item))
  }

  /** Whoever holds fewer of an item than they sell is still paid for all of it, and is left
      holding a negative count: e.g. one set of heist tools, sold five times, leaves -4. */
  lemma SellOversells(a: Account, shop: Shop, n: int, item: string)
    requires Lower(item) in a.inv && ShopName(item) in shop
    requires a.inv[Lower(item)] < n
    ensures SellAsWritten(a, shop, n, item).Ok?
    ensures SellAsWritten(a, shop, n, item).value.inv[Lower(item)] < 0
    ensures SellAsWritten(a, shop, n, item).value.cash == a.cash + shop[ShopName(item)].price * n
  {
  }

  /** The inventory key and the shop name of heist tools. */
  lemma HeistToolsNames()
    ensures Lower(HeistTools) == HeistTools
    ensures ShopName(HeistTools) == "Heist tools"
  {
    HeistToolsLower();
    HeistToolsCapitalized();
  }

  lemma HeistToolsLower()
    ensures Lower(HeistTools) == HeistTools
  {
    var s := HeistTools;
    assert |s| == 11;
    forall i | 0 <= i < |s|
      ensures LowerChar(s[i]) == s[i]
    {
    }
    assert Lower(s) == s;
  }

  lemma HeistToolsCapitalized()
    ensures Capitalize(HeistTools) == "Heist tools"
  {
    var t := HeistTools[1..];
    assert t == "eist tools";
    LowerOfLowercase(t);
    assert UpperChar('h') == 'H';
    assert "Heist tools" == ['H'] + t;
  }

  /** `sell` with the missing check: selling more than is held is refused and writes
      nothing. */
  function SellEntry(a: Account, shop: Shop, n: int, name: string, key: string): (r: Result<Account, Reject>)
    ensures r.Ok? <==> key in a.inv && name in shop && a.inv[key] >= n
    ensures key in a.inv && name in shop && a.inv[key] < n ==> r == Err(NotEnoughItems)
    ensures r.Ok? ==> key in r.value.inv && r.value.inv[key] >= 0
    ensures r.Ok? ==> r == SellEntryAsWritten(a, shop, n, name, key)
  {
    if key !in a.inv then Err(ItemNotHeld)
    else if name !in shop then Err(ItemNotFound)
    else if a.inv[key] < n then Err(NotEnoughItems)
    else SellEntryAsWritten(a, shop, n, name, key)
  }

  function Sell(a: Account, shop: Shop, n: int, item: string): Result<Account, Reject> {
    SellEntry(a, shop, n, ShopName(item), Lower(item))
  }

  /** Selling back what was just bought, at the unchanged price, returns the cash and leaves
      the item's count where it was (zero if it was absent). */
  lemma BuyThenSellEntry(a: Account, shop: Shop, n: int, name: string, key: string, p: Purchase)
    requires BuyEntry(a, shop, n, name, key) == Ok(p)
    requires Held(a, key) >= 0
    ensures SellEntry(p.buyer, p.shop, n, name, key) == Ok(a.(inv := a.inv[key := Held(a, key)]))
  {
    var price := shop[name].price;
    var held := Held(a, key);
    assert p.buyer == a.(cash := a.cash - n * price, inv := a.inv[key := held + n]);
    assert name in p.shop && p.shop[name].price == price;
    assert key in p.buyer.inv && p.buyer.inv[key] == held + n;
    var sold := SellEntry(p.buyer, p.shop, n, name, key);
    assert sold.Ok?;
    var after := sold.value;
    assert after.inv == a.inv[key := held] by {
      assert after.inv == a.inv[key := held + n][key := held + n - n];
    }
    assert after.cash == a.cash by {
      assert after.cash == a.cash - n * price + price * n;
      assert n * price == price * n;
    }
    assert after.bank == a.bank && after.debt == a.debt;
  }

  /** `BuyThenSellEntry` for the item argument the user types. */
  lemma BuyThenSell(a: Account, shop: Shop, n: int, item: string, p: Purchase)
    requires Buy(a, shop, n, item) == Ok(p)
    requires Held(a, Lower(item)) >= 0
    ensures Sell(p.buyer, p.shop, n, item) == Ok(a.(inv := a.inv[Lower(item) := Held(a, Lower(item))]))
  {
    BuyThenSellEntry(a, shop, n, ShopName(item), Lower(item), p);
  }

  /** Buying and selling ignore the case of the item argument. */
  lemma ShopIgnoresCase(item: string)
    ensures Lower(Lower(item)) == Lower(item)
    ensures ShopName(Lower(item)) == ShopName(item)
  {
    LowerIdempotent(item);
  }

  // ---------------------------------------------------------------- transfers

  /** `givemoney` as the source writes it: both documents are read first and then both
      written back, the receiver's last. When sender and receiver are the same user the
      second write wins, so the user ends with `amount` more cash. */
  function GiveMoneyAsWritten(accounts: Accounts, sender: UserId, receiver: UserId, amount: int): (r: Result<Accounts, Reject>)
    ensures amount < 0 ==> r == Err(NegativeAmount)
    ensures r.Ok? <==> amount >= 0 && sender in accounts && receiver in accounts && accounts[sender].cash >= amount
    ensures amount >= 0 && sender in accounts && accounts[sender].cash < amount ==> r == Err(InsufficientCash)
    ensures r.Ok? ==> && r.value.Keys == accounts.Keys
                      && forall v :: v in accounts && v != sender && v != receiver ==> r.value[v] == accounts[v]
    ensures r.Ok? && sender != receiver ==>
              && r.value[sender] == accounts[sender].(cash := accounts[sender].cash - amount)
              && r.value[receiver] == accounts[receiver].(cash := accounts[receiver].cash + amount)
  {
    if amount < 0 then Err(NegativeAmount)
    else if sender !in accounts then Err(UnknownUser)
    else if accounts[sender].cash < amount then Err(InsufficientCash)
    else if receiver !in accounts then Err(UnknownUser)
    else
      var debited := accounts[sender].(cash := accounts[sender].cash - amount);
      var credited := accounts[receiver].(cash := accounts[receiver].cash + amount);
      Ok(accounts[sender := debited][receiver := credited])
  }

  /** Giving money to oneself creates it: the user ends with `amount` more cash than before. */
  lemma SelfTransferMintsCash(accounts: Accounts, user: UserId, amount: int)
    requires GiveMoneyAsWritten(accounts, user, user, amount).Ok?
    ensures GiveMoneyAsWritten(accounts, user, user, amount).value[user].cash == accounts[user].cash + amount
  {
  }

  /** `givemoney` with the receiver's document read after the sender's write, so that a
      transfer to oneself changes nothing. */
  function GiveMoney(accounts: Accounts, sender: UserId, receiver: UserId, amount: int): (r: Result<Accounts, Reject>)
    ensures r.Ok? <==> amount >= 0 && sender in accounts && receiver in accounts && accounts[sender].cash >= amount
    ensures r.Err? ==> r == GiveMoneyAsWritten(accounts, sender, receiver, amount)
    ensures r.Ok? ==> && r.value.Keys == accounts.Keys
                      && forall v :: v in accounts && v != sender && v != receiver ==> r.value[v] == accounts[v]
    ensures r.Ok? && sender != receiver ==> r == GiveMoneyAsWritten(accounts, sender, receiver, amount)
    ensures r.Ok? && sender == receiver ==> r.value == accounts
  {
    if amount < 0 || sender !in accounts || accounts[sender].cash < amount || receiver !in accounts then
      GiveMoneyAsWritten(accounts, sender, receiver, amount)
    else
      var debited := accounts[sender := accounts[sender].(cash := accounts[sender].cash - amount)];
      Ok(debited[receiver := debited[receiver].(cash := debited[receiver].cash + amount)])
  }

  /** A transfer neither creates nor destroys cash, whoever the two parties are. */
  lemma GiveMoneyKeepsCash(accounts: Accounts, sender: UserId, receiver: UserId, amount: int)
    requires GiveMoney(accounts, sender, receiver, amount).Ok?
    ensures var after := GiveMoney(accounts, sender, receiver, amount).value;
            if sender == receiver then after[sender].cash == accounts[sender].cash
            else after[sender].cash + after[receiver].cash == accounts[sender].cash + accounts[receiver].cash
  {
  }

  // ---------------------------------------------------------------- rob

  /** The random draws of one robbery: the 3-in-4 outcome, the share in percent, the fine. */
  datatype RobDraw = RobDraw(success: bool, percent: nat, fine: int)

  predicate DrawInRange(d: RobDraw) {
    50 <= d.percent <= 80 && 75 <= d.fine <= 200
  }

  /** `rob`: needs a set of heist tools and a victim holding more than 10 cash, and uses up
      one set. On success a share of the victim's cash moves to the robber (robber written
      first, victim second); on failure only the robber is fined. Robbing oneself
      successfully writes the victim's copy last, so the share is lost and the tools kept. */
  function Rob(accounts: Accounts, robber: UserId, victim: UserId, draw: RobDraw): (r: Result<Accounts, Reject>)
    requires DrawInRange(draw)
    ensures r.Ok? <==> && robber in accounts && HeistTools in accounts[robber].inv
                       && accounts[robber].inv[HeistTools] > 0
                       && victim in accounts && accounts[victim].cash > 10
    ensures robber in accounts && HeistTools in accounts[robber].inv && accounts[robber].inv[HeistTools] <= 0
            ==> r == Err(RobRefused)
    ensures r.Ok? ==> && r.value.Keys == accounts.Keys
                      && forall v :: v in accounts && v != robber && v != victim ==> r.value[v] == accounts[v]
    ensures r.Ok? && (robber != victim || !draw.success) ==>
              r.value[robber].inv == accounts[robber].inv[HeistTools := accounts[robber].inv[HeistTools] - 1]
    ensures r.Ok? ==> r.value[robber].bank == accounts[robber].bank && r.value[robber].debt == accounts[robber].debt
    ensures r.Ok? && draw.success && robber != victim ==>
              var win := r.value[robber].cash - accounts[robber].cash;
              && win == PercentOf(accounts[victim].cash, draw.percent)
              && r.value[victim] == accounts[victim].(cash := accounts[victim].cash - win)
              && r.value[robber].cash + r.value[victim].cash == accounts[robber].cash + accounts[victim].cash
    ensures r.Ok? && draw.success && robber == victim ==>
              r.value[robber] == accounts[robber].(cash := accounts[robber].cash - PercentOf(accounts[robber].cash, draw.percent))
    ensures r.Ok? && !draw.success ==>
              && r.value[robber].cash == accounts[robber].cash - draw.fine
              && (robber != victim ==> r.value[victim] == accounts[victim])
  {
    if robber !in accounts then Err(UnknownUser)
    else
      var thief := accounts[robber];
      if HeistTools !in thief.inv then Err(ItemNotHeld)
      else if thief.inv[HeistTools] <= 0 then Err(RobRefused)
      else if victim !in accounts then Err(UnknownUser)
      else if accounts[victim].cash <= 10 then Err(RobRefused)
      else
        var target := accounts[victim];
        var equipped := thief.(inv := thief.inv[HeistTools := thief.inv[HeistTools] - 1]);
        if draw.success then
          var win := PercentOf(target.cash, draw.percent);
          Ok(accounts[robber := equipped.(cash := equipped.cash + win)][victim := target.(cash := target.cash - win)])
        else
          Ok(accounts[robber := equipped.(cash := equipped.cash - draw.fine)])
  }

  /** A successful robbery takes between half and four fifths of the victim's cash, so the
      victim is never left with nothing. */
  lemma RobShare(accounts: Accounts, robber: UserId, victim: UserId, draw: RobDraw)
    requires DrawInRange(draw) && draw.success && robber != victim
    requires Rob(accounts, robber, victim, draw).Ok?
    ensures var after := Rob(accounts, robber, victim, draw).value;
            var win := accounts[victim].cash - after[victim].cash;
            && win * 100 <= accounts[victim].cash * 80
            && accounts[victim].cash * 50 < (win + 1) * 100
            && 0 < after[victim].cash < accounts[victim].cash
  {
    var c := accounts[victim].cash;
    var win := PercentOf(c, draw.percent);
    assert win * 100 <= c * draw.percent < (win + 1) * 100;
    ScaleMonotone(c, draw.percent, 80);
    ScaleMonotone(c, 50, draw.percent);
  }

  lemma ScaleMonotone(c: int, lo: int, hi: int)
    requires c >= 0 && lo <= hi
    ensures c * lo <= c * hi
  {
    assert c * hi - c * lo == c * (hi - lo);
  }
}
