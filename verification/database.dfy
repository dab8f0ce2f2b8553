/** The `Database` class: every method is one atomic step from a ledger to a
    ledger. Methods that run `BEGIN ... ROLLBACK/COMMIT` either apply all of
    their writes or return the ledger they were given. */
module Database {
  import opened Common
  import opened Paging
  import opened AuditLog
  import opened RecipientIds
  import opened Ledger

  /** What a `-> bool` method returns, with the ledger it leaves behind. */
  datatype Step = Step(ok: bool, next: Ledger)

  // ---------------------------------------------------------------------
  // Accounts
  // ---------------------------------------------------------------------

  /** `_ensure_account` / `ensure_account`: `INSERT OR IGNORE` a zero wallet. */
  function EnsureAccount(db: Ledger, g: GuildId, u: UserId): (r: Ledger)
    ensures AccountKey(g, u) in r.accounts
    ensures Wallet(r, g, u) == Wallet(db, g, u)
    ensures AccountKey(g, u) !in db.accounts ==> r.accounts[AccountKey(g, u)] == 0
    ensures r.accounts.Keys == db.accounts.Keys + {AccountKey(g, u)}
    ensures AccountsAgreeExcept(db.accounts, r.accounts, {AccountKey(g, u)})
    ensures r.treasury == db.treasury && SameLogs(db, r)
    ensures Valid(db) ==> Valid(r)
  {
    var k := AccountKey(g, u);
    if k in db.accounts then db else db.(accounts := db.accounts[k := 0])
  }

  /** `get_balance`: a pure read, 0 for a user without a row. */
  function GetBalance(db: Ledger, g: GuildId, u: UserId): (w: int)
    ensures AccountKey(g, u) !in db.accounts ==> w == 0
    ensures AccountKey(g, u) in db.accounts ==> w == db.accounts[AccountKey(g, u)]
    ensures Valid(db) ==> w >= 0
  {
    Wallet(db, g, u)
  }

  /** `add_balance`: reads the wallet, refuses a result below zero, otherwise
      overwrites it. The `UPDATE` matches no row when the account does not
      exist, so then nothing changes although the call reports success. */
  function AddBalance(db: Ledger, g: GuildId, u: UserId, amount: int): (r: Step)
    ensures r.ok <==> Wallet(db, g, u) + amount >= 0
    ensures !r.ok ==> r.next == db
    ensures AccountKey(g, u) !in db.accounts ==> r.next == db
    ensures r.ok && AccountKey(g, u) in db.accounts ==> Wallet(r.next, g, u) == Wallet(db, g, u) + amount
    ensures Wallet(r.next, g, u) >= 0 || r.next == db
    ensures r.next.accounts.Keys == db.accounts.Keys
    ensures AccountsAgreeExcept(db.accounts, r.next.accounts, {AccountKey(g, u)})
    ensures r.next.treasury == db.treasury && SameLogs(db, r.next)
    ensures Valid(db) ==> Valid(r.next)
  {
    var k := AccountKey(g, u);
    var newBalance := Wallet(db, g, u) + amount;
    if newBalance < 0 then Step(false, db)
    else if k in db.accounts then Step(true, db.(accounts := db.accounts[k := newBalance]))
    else Step(true, db)
  }

  /** `transfer_balance`: creates both accounts, then moves `amount` from the
      sender to the receiver unless the sender holds less than `amount`. */
  function TransferBalance(db: Ledger, g: GuildId, sender: UserId, receiver: UserId, amount: int): (r: Step)
    ensures r.ok <==> Wallet(db, g, sender) >= amount
    ensures !r.ok ==> r.next == db
    ensures r.ok ==> AccountKey(g, sender) in r.next.accounts && AccountKey(g, receiver) in r.next.accounts
    ensures r.ok && sender != receiver ==>
              && Wallet(r.next, g, sender) == Wallet(db, g, sender) - amount
              && Wallet(r.next, g, receiver) == Wallet(db, g, receiver) + amount
    ensures r.ok && sender == receiver ==> Wallet(r.next, g, sender) == Wallet(db, g, sender)
    ensures Wallet(r.next, g, sender) + Wallet(r.next, g, receiver) == Wallet(db, g, sender) + Wallet(db, g, receiver)
    ensures r.ok && sender != receiver ==> Wallet(r.next, g, sender) >= 0
    ensures AccountsAgreeExcept(db.accounts, r.next.accounts, {AccountKey(g, sender), AccountKey(g, receiver)})
    ensures r.next.treasury == db.treasury && SameLogs(db, r.next)
    ensures Valid(db) && amount >= 0 ==> Valid(r.next)
  {
    var withAccounts := EnsureAccount(EnsureAccount(db, g, sender), g, receiver);
    var current := Wallet(withAccounts, g, sender);
    if current < amount then Step(false, db)
    else
      var ks := AccountKey(g, sender);
      var kr := AccountKey(g, receiver);
      var debited := withAccounts.accounts[ks := withAccounts.accounts[ks] - amount];
      var credited := debited[kr := debited[kr] + amount];
      Step(true, withAccounts.(accounts := credited))
  }

  /** `deduct_balance`: creates the account, then subtracts `amount` unless the
      wallet holds less. */
  function DeductBalance(db: Ledger, g: GuildId, u: UserId, amount: int): (r: Step)
    ensures r.ok <==> Wallet(db, g, u) >= amount
    ensures !r.ok ==> r.next == db
    ensures r.ok ==> AccountKey(g, u) in r.next.accounts && Wallet(r.next, g, u) == Wallet(db, g, u) - amount
    ensures Wallet(r.next, g, u) >= 0 || r.next == db
    ensures AccountsAgreeExcept(db.accounts, r.next.accounts, {AccountKey(g, u)})
    ensures r.next.treasury == db.treasury && SameLogs(db, r.next)
    ensures Valid(db) ==> Valid(r.next)
  {
    var withAccount := EnsureAccount(db, g, u);
    var current := Wallet(withAccount, g, u);
    if current < amount then Step(false, db)
    else
      var k := AccountKey(g, u);
      Step(true, withAccount.(accounts := withAccount.accounts[k := current - amount]))
  }

  // ---------------------------------------------------------------------
  // Treasury
  // ---------------------------------------------------------------------

  /** `_ensure_treasury`: `INSERT OR IGNORE` a zero treasury. */
  function EnsureTreasury(db: Ledger, g: GuildId): (r: Ledger)
    ensures g in r.treasury && Treasury(r, g) == Treasury(db, g)
    ensures forall h :: h != g ==> (h in r.treasury <==> h in db.treasury) && Treasury(r, h) == Treasury(db, h)
    ensures r.accounts == db.accounts && SameLogs(db, r)
    ensures Valid(db) ==> Valid(r)
  {
    if g in db.treasury then db else db.(treasury := db.treasury[g := 0])
  }

  /** `get_treasury`: a pure read, 0 for a guild without a row. */
  function GetTreasury(db: Ledger, g: GuildId): (b: int)
    ensures g !in db.treasury ==> b == 0
    ensures g in db.treasury ==> b == db.treasury[g]
    ensures Valid(db) ==> b >= 0
  {
    Treasury(db, g)
  }

  /** `add_treasury`: an upsert that adds `amount` to the balance, or stores
      `amount` when the guild has no row yet. Nothing is checked. */
  function AddTreasury(db: Ledger, g: GuildId, amount: int): (r: Ledger)
    ensures g in r.treasury && Treasury(r, g) == Treasury(db, g) + amount
    ensures forall h :: h != g ==> (h in r.treasury <==> h in db.treasury) && Treasury(r, h) == Treasury(db, h)
    ensures r.accounts == db.accounts && SameLogs(db, r)
    ensures Valid(db) && amount >= 0 ==> Valid(r)
  {
    if g in db.treasury then db.(treasury := db.treasury[g := db.treasury[g] + amount])
    else db.(treasury := db.treasury[g := amount])
  }

  /** `deduct_treasury`: subtracts `amount` unless the treasury holds less. */
  function DeductTreasury(db: Ledger, g: GuildId, amount: int): (r: Step)
    ensures r.ok <==> Treasury(db, g) >= amount
    ensures !r.ok ==> r.next == db
    ensures r.ok ==> g in r.next.treasury && Treasury(r.next, g) == Treasury(db, g) - amount
    ensures Treasury(r.next, g) >= 0 || r.next == db
    ensures forall h :: h != g ==> (h in r.next.treasury <==> h in db.treasury) && Treasury(r.next, h) == Treasury(db, h)
    ensures r.next.accounts == db.accounts && SameLogs(db, r.next)
    ensures Valid(db) ==> Valid(r.next)
  {
    var withRow := EnsureTreasury(db, g);
    var current := Treasury(withRow, g);
    if current < amount then Step(false, db)
    else Step(true, withRow.(treasury := withRow.treasury[g := current - amount]))
  }

  /** `transfer_treasury_to_user`: creates the treasury row and the account,
      then moves `amount` from the treasury into the wallet unless the
      treasury holds less. */
  function TransferTreasuryToUser(db: Ledger, g: GuildId, u: UserId, amount: int): (r: Step)
    ensures r.ok <==> Treasury(db, g) >= amount
    ensures !r.ok ==> r.next == db
    ensures r.ok ==>
              && g in r.next.treasury && AccountKey(g, u) in r.next.accounts
              && Treasury(r.next, g) == Treasury(db, g) - amount
              && Wallet(r.next, g, u) == Wallet(db, g, u) + amount
    ensures Treasury(r.next, g) + Wallet(r.next, g, u) == Treasury(db, g) + Wallet(db, g, u)
    ensures Treasury(r.next, g) >= 0 || r.next == db
    ensures forall h :: h != g ==> (h in r.next.treasury <==> h in db.treasury) && Treasury(r.next, h) == Treasury(db, h)
    ensures AccountsAgreeExcept(db.accounts, r.next.accounts, {AccountKey(g, u)})
    ensures SameLogs(db, r.next)
    ensures Valid(db) && amount >= 0 ==> Valid(r.next)
  {
    var withRows := EnsureAccount(EnsureTreasury(db, g), g, u);
    var current := Treasury(withRows, g);
    if current < amount then Step(false, db)
    else
      var k := AccountKey(g, u);
      Step(true, withRows.(treasury := withRows.treasury[g := current - amount],
                           accounts := withRows.accounts[k := withRows.accounts[k] + amount]))
  }

  // ---------------------------------------------------------------------
  // Audit log writers
  // ---------------------------------------------------------------------

  /** `log_transfer`: one new `transfer_logs` row. */
  function LogTransfer(db: Ledger, g: GuildId, sender: UserId, receiver: UserId, amount: int): (r: Ledger)
    ensures |r.transferLog.rows| == |db.transferLog.rows| + 1
    ensures r.transferLog.rows[..|db.transferLog.rows|] == db.transferLog.rows
    ensures var row := r.transferLog.rows[|db.transferLog.rows|];
            row.guild == g && row.entry == Transfer(sender, receiver, amount)
    ensures Valid(db) ==> Valid(r)
    ensures r.accounts == db.accounts && r.treasury == db.treasury
    ensures r.treasuryLog == db.treasuryLog && r.lootLog == db.lootLog && r.lootRecipients == db.lootRecipients
  {
    db.(transferLog := Append(db.transferLog, g, Transfer(sender, receiver, amount)))
  }

  /** `log_treasury`: one new `treasury_logs` row; `recipient` is NULL unless given. */
  function LogTreasury(db: Ledger, g: GuildId, initiator: UserId, action: string, amount: int, recipient: Option<UserId>): (r: Ledger)
    ensures |r.treasuryLog.rows| == |db.treasuryLog.rows| + 1
    ensures r.treasuryLog.rows[..|db.treasuryLog.rows|] == db.treasuryLog.rows
    ensures var row := r.treasuryLog.rows[|db.treasuryLog.rows|];
            row.guild == g && row.entry == TreasuryAction(initiator, action, amount, recipient)
    ensures Valid(db) ==> Valid(r)
    ensures r.accounts == db.accounts && r.treasury == db.treasury
    ensures r.transferLog == db.transferLog && r.lootLog == db.lootLog && r.lootRecipients == db.lootRecipients
  {
    db.(treasuryLog := Append(db.treasuryLog, g, TreasuryAction(initiator, action, amount, recipient)))
  }

  /** `log_lootsplit`: one new `lootsplit_logs` row and, when the recipient
      text is not empty, one `lootsplit_recipients` row per distinct id in it.
      A malformed id makes `int()` raise, and the whole insert is rolled back. */
  function LogLootSplit(db: Ledger, g: GuildId, e: LootSplitEntry): (r: Step)
    ensures r.ok <==> ParseIds(e.recipientIds).Some?
    ensures !r.ok ==> r.next == db
    ensures r.ok ==>
              && |r.next.lootLog.rows| == |db.lootLog.rows| + 1
              && r.next.lootLog.rows[..|db.lootLog.rows|] == db.lootLog.rows
              && r.next.lootLog.rows[|db.lootLog.rows|] == Row(db.lootLog.nextId, g, e)
    ensures r.ok && Valid(db) ==>
              forall u :: u in MembersOf(r.next, db.lootLog.nextId) <==> u in ParseIds(e.recipientIds).value
    ensures r.ok ==> forall id: nat :: id < db.lootLog.nextId ==> MembersOf(r.next, id) == MembersOf(db, id)
    ensures Valid(db) ==> Valid(r.next)
    ensures r.next.accounts == db.accounts && r.next.treasury == db.treasury
    ensures r.next.transferLog == db.transferLog && r.next.treasuryLog == db.treasuryLog
  {
    match ParseIds(e.recipientIds)
    case None => Step(false, db)
    case Some(ids) =>
      var id := db.lootLog.nextId;
      var members := set u | u in ids :: (id, u);
      Step(true, db.(lootLog := Append(db.lootLog, g, e), lootRecipients := db.lootRecipients + members))
  }

  // ---------------------------------------------------------------------
  // History readers
  // ---------------------------------------------------------------------

  /** `get_transfer_history`: the guild's transfers, newest first, paged. */
  function GetTransferHistory(db: Ledger, g: GuildId, limit: int, offset: int): (r: seq<Row<Transfer>>)
    ensures forall x :: x in r ==> x in db.transferLog.rows && x.guild == g
    ensures |r| == PageLength(|NewestFirst(db.transferLog.rows, g)|, limit, offset)
    ensures forall k :: 0 <= k < |r| ==>
              && EffectiveOffset(offset) + k < |NewestFirst(db.transferLog.rows, g)|
              && r[k] == NewestFirst(db.transferLog.rows, g)[EffectiveOffset(offset) + k]
    ensures Valid(db) ==> IdsDescending(r)
  {
    History(db.transferLog, g, limit, offset)
  }

  /** `get_treasury_history`: without a limit every row of the guild comes
      back and the offset is ignored. */
  function GetTreasuryHistory(db: Ledger, g: GuildId, limit: Option<int>, offset: int): (r: seq<Row<TreasuryAction>>)
    ensures forall x :: x in r ==> x in db.treasuryLog.rows && x.guild == g
    ensures limit.None? ==> forall x :: x in db.treasuryLog.rows && x.guild == g ==> x in r
    ensures limit.None? ==> r == NewestFirst(db.treasuryLog.rows, g)
    ensures limit.Some? ==> |r| == PageLength(|NewestFirst(db.treasuryLog.rows, g)|, limit.value, offset)
    ensures limit.Some? ==> forall k :: 0 <= k < |r| ==>
              && EffectiveOffset(offset) + k < |NewestFirst(db.treasuryLog.rows, g)|
              && r[k] == NewestFirst(db.treasuryLog.rows, g)[EffectiveOffset(offset) + k]
    ensures Valid(db) ==> IdsDescending(r)
  {
    match limit
    case None => History(db.treasuryLog, g, -1, 0)
    case Some(l) => History(db.treasuryLog, g, l, offset)
  }

  /** Where the recipients column of a split history line comes from: the
      membership rows when there are any (`GROUP_CONCAT`, order unspecified),
      otherwise the text stored with the split. */
  datatype Recipients = Members(ids: set<UserId>) | Stored(text: string)

  datatype LootSplitView = LootSplitView(row: Row<LootSplitEntry>, recipients: Recipients)

  function RecipientsOf(db: Ledger, row: Row<LootSplitEntry>): (r: Recipients)
    ensures r.Members? <==> MembersOf(db, row.id) != {}
    ensures r.Members? ==> r.ids == MembersOf(db, row.id)
    ensures r.Stored? ==> r.text == row.entry.recipientIds
  {
    var members := MembersOf(db, row.id);
    if members != {} then Members(members) else Stored(row.entry.recipientIds)
  }

  /** `get_lootsplit_history`: the guild's splits, newest first, paged, each
      with its recipients. */
  function GetLootSplitHistory(db: Ledger, g: GuildId, limit: int, offset: int): (r: seq<LootSplitView>)
    ensures forall i :: 0 <= i < |r| ==> r[i].row in db.lootLog.rows && r[i].row.guild == g
    ensures |r| == PageLength(|NewestFirst(db.lootLog.rows, g)|, limit, offset)
    ensures forall k :: 0 <= k < |r| ==>
              && EffectiveOffset(offset) + k < |NewestFirst(db.lootLog.rows, g)|
              && r[k].row == NewestFirst(db.lootLog.rows, g)[EffectiveOffset(offset) + k]
    ensures Valid(db) ==> forall i, j :: 0 <= i < j < |r| ==> r[i].row.id > r[j].row.id
    ensures forall i :: 0 <= i < |r| ==> r[i].recipients == RecipientsOf(db, r[i].row)
  {
    WithRecipients(db, History(db.lootLog, g, limit, offset))
  }

  /** Each split row paired with its recipients, in the same order. */
  function WithRecipients(db: Ledger, rows: seq<Row<LootSplitEntry>>): (r: seq<LootSplitView>)
    ensures |r| == |rows|
    ensures forall k :: 0 <= k < |r| ==> r[k].row == rows[k] && r[k].recipients == RecipientsOf(db, rows[k])
  {
    seq(|rows|, i requires 0 <= i < |rows| => LootSplitView(rows[i], RecipientsOf(db, rows[i])))
  }
}
