/** The stored state of the ledger: the `accounts` and `treasury` tables as
    maps, the three audit tables as append-only logs, and the
    `lootsplit_recipients` membership relation. */
module Ledger {
  import opened Common
  import opened AuditLog

  /** Primary key of `accounts`. */
  datatype AccountKey = AccountKey(guild: GuildId, user: UserId)

  /** A row of `transfer_logs`. */
  datatype Transfer = Transfer(sender: UserId, receiver: UserId, amount: int)

  /** A row of `treasury_logs`; the commands write the actions "add", "take"
      and "transfer", the last one with a recipient. */
  datatype TreasuryAction = TreasuryAction(initiator: UserId, action: string, amount: int, recipient: Option<UserId>)

  /** A row of `lootsplit_logs`, with the comma-joined recipient text as stored. */
  datatype LootSplitEntry = LootSplitEntry(
    initiator: UserId,
    total: int,
    taxPercent: int,
    taxAmount: int,
    remaining: int,
    share: int,
    recipientCount: int,
    recipientIds: string)

  datatype Ledger = Ledger(
    accounts: map<AccountKey, int>,
    treasury: map<GuildId, int>,
    transferLog: Log<Transfer>,
    treasuryLog: Log<TreasuryAction>,
    lootLog: Log<LootSplitEntry>,
    /** `lootsplit_recipients`: (lootsplit id, recipient id) pairs. */
    lootRecipients: set<(nat, UserId)>)

  /** The database right after `init_schema`: every table empty. */
  function Empty(): (db: Ledger)
    ensures Valid(db)
    ensures forall g, u :: Wallet(db, g, u) == 0
    ensures forall g :: Treasury(db, g) == 0
  {
    Ledger(map[], map[], EmptyLog(), EmptyLog(), EmptyLog(), {})
  }

  /** `_get_wallet` / `get_balance`: the stored wallet, 0 when there is no row. */
  function Wallet(db: Ledger, g: GuildId, u: UserId): int
  {
    var k := AccountKey(g, u);
    if k in db.accounts then db.accounts[k] else 0
  }

  /** `get_treasury`: the stored balance, 0 when there is no row. */
  function Treasury(db: Ledger, g: GuildId): int
  {
    if g in db.treasury then db.treasury[g] else 0
  }

  /** What holds after every committed operation (the commands only ever pass
      positive amounts): wallets and treasuries are never negative, log ids
      are ordered and membership rows refer to split ids already handed out. */
  predicate Valid(db: Ledger)
  {
    && (forall k :: k in db.accounts ==> db.accounts[k] >= 0)
    && (forall g :: g in db.treasury ==> db.treasury[g] >= 0)
    && WellFormed(db.transferLog)
    && WellFormed(db.treasuryLog)
    && WellFormed(db.lootLog)
    && (forall p :: p in db.lootRecipients ==> p.0 < db.lootLog.nextId)
  }

  /** The two ledgers differ at most in the wallets of `keys`. */
  ghost predicate AccountsAgreeExcept(a: map<AccountKey, int>, b: map<AccountKey, int>, keys: set<AccountKey>)
  {
    forall k :: k !in keys ==> (k in a <==> k in b) && (k in a ==> a[k] == b[k])
  }

  /** The audit tables are untouched. */
  predicate SameLogs(a: Ledger, b: Ledger)
  {
    && a.transferLog == b.transferLog
    && a.treasuryLog == b.treasuryLog
    && a.lootLog == b.lootLog
    && a.lootRecipients == b.lootRecipients
  }

  /** The user ids of the membership rows of split `id`. */
  function MembersOf(db: Ledger, id: nat): set<UserId>
  {
    set p | p in db.lootRecipients && p.0 == id :: p.1
  }

  // ---------------------------------------------------------------------
  // Sum of the wallets of one guild (`get_total_silver`).
  // ---------------------------------------------------------------------

  function Contribution(m: map<AccountKey, int>, k: AccountKey, g: GuildId): int
    requires k in m
  {
    if k.guild == g then m[k] else 0
  }

  /** Some key of a non-empty map. */
  ghost function AnyKey(m: map<AccountKey, int>): (k: AccountKey)
    requires m.Keys != {}
    ensures k in m
  {
    var k :| k in m;
    k
  }

  /** `SUM(wallet) ... WHERE guild_id = g`, 0 for an empty selection. */
  ghost function SumWallets(m: map<AccountKey, int>, g: GuildId): int
    decreases m.Keys
  {
    if m.Keys == {} then 0
    else
      var k := AnyKey(m);
      Contribution(m, k, g) + SumWallets(m - {k}, g)
  }

  ghost function TotalSilver(db: Ledger, g: GuildId): int
  {
    SumWallets(db.accounts, g)
  }

  /** The sum does not depend on which key is taken out first. */
  lemma {:induction false} SumRemove(m: map<AccountKey, int>, g: GuildId, k: AccountKey)
    requires k in m
    ensures SumWallets(m, g) == Contribution(m, k, g) + SumWallets(m - {k}, g)
    decreases m.Keys
  {
    var x := AnyKey(m);
    if x != k {
      var mx := m - {x};
      var mk := m - {k};
      assert (mk).Keys == m.Keys - {k};
      SumRemove(mx, g, k);
      SumRemove(mk, g, x);
      assert mx - {k} == mk - {x};
    }
  }

  /** Overwriting (or inserting) one wallet changes the guild's sum by the
      difference at that key. */
  lemma {:induction false} SumUpdate(m: map<AccountKey, int>, g: GuildId, k: AccountKey, v: int)
    ensures SumWallets(m[k := v], g)
         == SumWallets(m, g) - (if k in m then Contribution(m, k, g) else 0) + (if k.guild == g then v else 0)
  {
    var m' := m[k := v];
    SumRemove(m', g, k);
    assert Contribution(m', k, g) == (if k.guild == g then v else 0);
    assert m' - {k} == m - {k};
    if k in m {
      SumRemove(m, g, k);
    } else {
      assert m - {k} == m;
    }
  }

  /** A guild's total is never negative while no wallet is. */
  lemma {:induction false} SumNonNegative(m: map<AccountKey, int>, g: GuildId)
    requires forall k :: k in m ==> m[k] >= 0
    ensures SumWallets(m, g) >= 0
    decreases m.Keys
  {
    if m.Keys != {} {
      var k := AnyKey(m);
      SumNonNegative(m - {k}, g);
    }
  }

  /** `get_total_silver`: adds the wallets of the guild one row at a time. */
  method GetTotalSilver(db: Ledger, g: GuildId) returns (total: int)
    ensures total == TotalSilver(db, g)
    ensures Valid(db) ==> total >= 0
  {
    var m := db.accounts;
    total := 0;
    while m.Keys != {}
      invariant total + SumWallets(m, g) == SumWallets(db.accounts, g)
      decreases m.Keys
    {
      var k :| k in m;
      SumRemove(m, g, k);
      if k.guild == g {
        total := total + m[k];
      }
      m := m - {k};
    }
    if Valid(db) {
      SumNonNegative(db.accounts, g);
    }
  }
}
