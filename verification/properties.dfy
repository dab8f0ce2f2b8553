/** Properties that relate several `Database` calls: idempotence, value
    conservation and the ledger invariant over whole runs of calls. */
module Properties {
  import opened Common
  import opened Ledger
  import opened Database

  /** Creating an account twice is the same as creating it once. */
  lemma EnsureAccountIdempotent(db: Ledger, g: GuildId, u: UserId)
    ensures EnsureAccount(EnsureAccount(db, g, u), g, u) == EnsureAccount(db, g, u)
    ensures AccountKey(g, u) in db.accounts ==> EnsureAccount(db, g, u) == db
  {
  }

  /** The `ensure_account` + `add_balance` pair the commands issue credits the
      wallet by exactly `amount` whenever the result is not negative. */
  lemma EnsureThenAddBalance(db: Ledger, g: GuildId, u: UserId, amount: int)
    requires Wallet(db, g, u) + amount >= 0
    ensures var r := AddBalance(EnsureAccount(db, g, u), g, u, amount);
            r.ok && Wallet(r.next, g, u) == Wallet(db, g, u) + amount
  {
  }

  // ---------------------------------------------------------------------
  // Conservation of the guild's total silver
  // ---------------------------------------------------------------------

  /** Creating an account adds a zero wallet and leaves every total alone. */
  lemma EnsureAccountKeepsTotal(db: Ledger, g: GuildId, u: UserId, h: GuildId)
    ensures TotalSilver(EnsureAccount(db, g, u), h) == TotalSilver(db, h)
  {
    var k := AccountKey(g, u);
    if k !in db.accounts {
      SumUpdate(db.accounts, h, k, 0);
    }
  }

  /** A transfer moves silver between two wallets of one guild: no guild's
      total changes, whether it succeeds or not. */
  lemma {:induction false} TransferKeepsTotal(db: Ledger, g: GuildId, s: UserId, r: UserId, amount: int, h: GuildId)
    ensures TotalSilver(TransferBalance(db, g, s, r, amount).next, h) == TotalSilver(db, h)
  {
    var step := TransferBalance(db, g, s, r, amount);
    if step.ok {
      var db1 := EnsureAccount(db, g, s);
      var db2 := EnsureAccount(db1, g, r);
      var ks := AccountKey(g, s);
      var kr := AccountKey(g, r);
      var m := db2.accounts;
      assert step.next.accounts == m[ks := m[ks] - amount][kr := m[ks := m[ks] - amount][kr] + amount];
      assert SumWallets(step.next.accounts, h) == SumWallets(m, h) by {
        MoveKeepsSum(m, h, ks, kr, amount);
      }
      assert SumWallets(m, h) == SumWallets(db.accounts, h) by {
        EnsureAccountKeepsTotal(db1, g, r, h);
        EnsureAccountKeepsTotal(db, g, s, h);
      }
    }
  }

  /** Debiting one wallet and crediting another of the same guild by the same
      amount leaves every guild's sum unchanged. */
  lemma MoveKeepsSum(m: map<AccountKey, int>, h: GuildId, ks: AccountKey, kr: AccountKey, amount: int)
    requires ks in m && kr in m && ks.guild == kr.guild
    ensures var debited := m[ks := m[ks] - amount];
            SumWallets(debited[kr := debited[kr] + amount], h) == SumWallets(m, h)
  {
    var debited := m[ks := m[ks] - amount];
    SumUpdate(debited, h, kr, debited[kr] + amount);
    SumUpdate(m, h, ks, m[ks] - amount);
  }

  /** A successful `deduct_balance` lowers the guild's total by `amount`. */
  lemma {:induction false} DeductLowersTotal(db: Ledger, g: GuildId, u: UserId, amount: int)
    ensures var step := DeductBalance(db, g, u, amount);
            TotalSilver(step.next, g) == TotalSilver(db, g) - (if step.ok then amount else 0)
  {
    var step := DeductBalance(db, g, u, amount);
    if step.ok {
      var db1 := EnsureAccount(db, g, u);
      var k := AccountKey(g, u);
      var m := db1.accounts;
      assert step.next.accounts == m[k := m[k] - amount];
      assert SumWallets(m, g) == SumWallets(db.accounts, g) by {
        EnsureAccountKeepsTotal(db, g, u, g);
      }
      assert SumWallets(m[k := m[k] - amount], g) == SumWallets(m, g) - amount by {
        SetWalletChangesSum(m, g, k, m[k] - amount);
      }
    }
  }

  /** Overwriting an existing wallet of guild `g` shifts the guild's sum by
      the difference. */
  lemma SetWalletChangesSum(m: map<AccountKey, int>, g: GuildId, k: AccountKey, v: int)
    requires k in m && k.guild == g
    ensures SumWallets(m[k := v], g) == SumWallets(m, g) - m[k] + v
  {
    SumUpdate(m, g, k, v);
  }

  /** A successful `add_balance` on an existing account raises the guild's
      total by `amount`. */
  lemma {:induction false} AddBalanceRaisesTotal(db: Ledger, g: GuildId, u: UserId, amount: int)
    requires AccountKey(g, u) in db.accounts
    ensures var step := AddBalance(db, g, u, amount);
            TotalSilver(step.next, g) == TotalSilver(db, g) + (if step.ok then amount else 0)
  {
    var step := AddBalance(db, g, u, amount);
    if step.ok {
      var k := AccountKey(g, u);
      assert step.next.accounts == db.accounts[k := db.accounts[k] + amount];
      SetWalletChangesSum(db.accounts, g, k, db.accounts[k] + amount);
    }
  }

  /** Paying out of the treasury moves silver, it never creates or destroys
      it: wallets plus treasury of the guild stay the same. */
  lemma {:induction false} TreasuryPayoutKeepsHoldings(db: Ledger, g: GuildId, u: UserId, amount: int)
    ensures var step := TransferTreasuryToUser(db, g, u, amount);
            TotalSilver(step.next, g) + Treasury(step.next, g) == TotalSilver(db, g) + Treasury(db, g)
  {
    var step := TransferTreasuryToUser(db, g, u, amount);
    if step.ok {
      var db1 := EnsureTreasury(db, g);
      var db2 := EnsureAccount(db1, g, u);
      var k := AccountKey(g, u);
      var m := db2.accounts;
      assert step.next.accounts == m[k := m[k] + amount];
      assert SumWallets(m, g) == SumWallets(db.accounts, g) by {
        EnsureAccountKeepsTotal(db1, g, u, g);
      }
      assert SumWallets(m[k := m[k] + amount], g) == SumWallets(m, g) + amount by {
        SetWalletChangesSum(m, g, k, m[k] + amount);
      }
    }
  }

  // ---------------------------------------------------------------------
  // The invariant over every call the commands make
  // ---------------------------------------------------------------------

  /** One call into the `Database` class. */
  datatype Call =
    | EnsureAccountCall(g: GuildId, u: UserId)
    | AddBalanceCall(g: GuildId, u: UserId, amount: int)
    | TransferBalanceCall(g: GuildId, sender: UserId, receiver: UserId, amount: int)
    | DeductBalanceCall(g: GuildId, u: UserId, amount: int)
    | AddTreasuryCall(g: GuildId, amount: int)
    | DeductTreasuryCall(g: GuildId, amount: int)
    | TransferTreasuryCall(g: GuildId, u: UserId, amount: int)
    | LogTransferCall(g: GuildId, sender: UserId, receiver: UserId, amount: int)
    | LogTreasuryCall(g: GuildId, initiator: UserId, action: string, amount: int, recipient: Option<UserId>)
    | LogLootSplitCall(g: GuildId, entry: LootSplitEntry)

  function Apply(db: Ledger, c: Call): Step
  {
    match c
    case EnsureAccountCall(g, u) => Step(true, EnsureAccount(db, g, u))
    case AddBalanceCall(g, u, a) => AddBalance(db, g, u, a)
    case TransferBalanceCall(g, s, r, a) => TransferBalance(db, g, s, r, a)
    case DeductBalanceCall(g, u, a) => DeductBalance(db, g, u, a)
    case AddTreasuryCall(g, a) => Step(true, AddTreasury(db, g, a))
    case DeductTreasuryCall(g, a) => DeductTreasury(db, g, a)
    case TransferTreasuryCall(g, u, a) => TransferTreasuryToUser(db, g, u, a)
    case LogTransferCall(g, s, r, a) => Step(true, LogTransfer(db, g, s, r, a))
    case LogTreasuryCall(g, i, act, a, rcp) => Step(true, LogTreasury(db, g, i, act, a, rcp))
    case LogLootSplitCall(g, e) => LogLootSplit(db, g, e)
  }

  /** The three methods that write without a balance check on the credited
      side rely on their callers for a non-negative amount; every command
      passes a positive one. */
  predicate Admissible(c: Call)
  {
    match c
    case TransferBalanceCall(_, _, _, a) => a >= 0
    case AddTreasuryCall(_, a) => a >= 0
    case TransferTreasuryCall(_, _, a) => a >= 0
    case _ => true
  }

  /** Every admissible call keeps wallets and treasuries non-negative and the
      logs well formed. */
  lemma CallKeepsValid(db: Ledger, c: Call)
    requires Valid(db) && Admissible(c)
    ensures Valid(Apply(db, c).next)
  {
  }

  /** Run a sequence of calls, each on the ledger the previous one left. */
  function Run(db: Ledger, calls: seq<Call>): Ledger
    decreases |calls|
  {
    if |calls| == 0 then db else Run(Apply(db, calls[0]).next, calls[1..])
  }

  /** Starting from any valid ledger (the empty database among them), a run
      of admissible calls never leaves a negative wallet or treasury. */
  lemma {:induction false} RunKeepsValid(db: Ledger, calls: seq<Call>)
    requires Valid(db)
    requires forall i :: 0 <= i < |calls| ==> Admissible(calls[i])
    ensures Valid(Run(db, calls))
    ensures forall k :: k in Run(db, calls).accounts ==> Run(db, calls).accounts[k] >= 0
    decreases |calls|
  {
    if |calls| > 0 {
      CallKeepsValid(db, calls[0]);
      RunKeepsValid(Apply(db, calls[0]).next, calls[1..]);
    }
  }

  /** The admissibility condition is needed: a transfer of a negative amount
      drives the receiver's wallet below zero. */
  lemma NegativeTransferBreaksValid()
    ensures Valid(Empty())
    ensures var step := TransferBalance(Empty(), 1, 1, 2, -5);
            step.ok && Wallet(step.next, 1, 2) == -5 && !Valid(step.next)
  {
  }
}
