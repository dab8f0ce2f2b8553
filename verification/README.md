# Silver ledger of the guild bot, in Dafny

The bot keeps a per-guild silver economy in SQLite. Each Discord guild has
user wallets (`accounts`) and one treasury. Three append-only audit tables
record transfers, treasury actions and loot splits. A membership table lists
who received each split. All of it goes through the `Database` class in
`bot.py`, plus two helpers the history commands use (`clamp_limit`,
`clamp_page`) and the loot-split arithmetic of the `lootsplit` command.

The model represents the whole database as one immutable value, `Ledger.Ledger`.
Every `Database` method becomes a pure function from a ledger to a ledger:

- A method that returns a `bool` returns a `Database.Step`, which pairs the
  answer with the next ledger.
- A method that runs `BEGIN … ROLLBACK` returns the ledger it was given on the
  failure path. The accounts or treasury rows it inserted are rolled back too.
- Reads are functions of the ledger. `get_total_silver` and `get_leaderboard`
  are methods with loops, checked against ghost reference definitions.

Modules:

| file | module | what it holds |
|---|---|---|
| `common.dfy` | `Common` | id types, `Option`, `Result`, `Min`/`Max` |
| `paging.dfy` | `Paging` | `clamp_limit`, `clamp_page`, the LIMIT/OFFSET window |
| `auditlog.dfy` | `AuditLog` | AUTOINCREMENT log tables, newest-first listing |
| `recipients.dfy` | `RecipientIds` | the comma-joined `recipient_ids` text and `int()` on its pieces |
| `ledger.dfy` | `Ledger` | the stored state, its invariant, the guild's silver total |
| `database.dfy` | `Database` | every `Database` method |
| `properties.dfy` | `Properties` | conservation, idempotence, the invariant over runs of calls |
| `leaderboard.dfy` | `Leaderboard` | the ranked leaderboard and its count |
| `lootsplit.dfy` | `LootSplit` | split arithmetic and the writes a split makes |

Three behaviours of the code that are easy to miss, modelled as written:

- The split has no flat fee. Only the tax percentage comes off the total.
- The `Database` methods do not check that an amount is positive; only the
  slash commands do. So the model accepts any amount. The ledger invariant
  (no negative wallet or treasury) is proved for the non-negative amounts the
  commands pass, and `NegativeTransferBreaksValid` shows why the condition is
  needed.
- `add_balance` with a non-negative amount on a user with no account row
  reports success but changes nothing, because its `UPDATE` matches no row.
  A negative amount there is refused, as the missing wallet reads 0. The commands always call
  `ensure_account` first.

## Model

| member | source | states |
|---|---|---|
| Paging.ClampLimit | bot.py:423-424 | the result lies in [1, max_limit]; a limit already in range is kept; too small gives 1, too large gives max_limit |
| Paging.ClampPage | bot.py:427-428 | the page is at least 1 and a valid page is kept |
| Paging.PageWindow | bot.py:691-693 | the window's limit is `clamp_limit(limit)` with the default bound 10, and the offset is a whole number of pages: offset / limit is `clamp_page(page)` − 1 |
| Paging.PageLength | bot.py:379-387 | a LIMIT/OFFSET window never returns more rows than exist, nor more than a non-negative limit |
| Paging.Page | bot.py:379-387 | the window holds exactly the rows from the effective offset on, in order, with the length the LIMIT allows |
| Paging.RowOnItsPage | bot.py:718-721 | every row of an ordered history is shown on page i / L + 1 at slot i % L, where L is the clamped page size |
| Paging.MultipleDivMod | bot.py:693 | (page − 1) · limit divided by limit gives back page − 1 with no remainder |
| AuditLog.EmptyLog | bot.py:74-133 | a freshly created log table is empty and well formed, and hands out id 1 first |
| AuditLog.Append | bot.py:353-358 | an INSERT keeps the earlier rows, adds one row for the guild, and gives it an id above every earlier id, so the table stays well formed |
| AuditLog.NewestFirst | bot.py:383-385 | `WHERE guild_id = ? ORDER BY id DESC` keeps exactly the guild's rows |
| AuditLog.NewestFirstDescending | bot.py:383-385 | when ids ascend in insertion order, the guild's listing has strictly descending ids |
| AuditLog.LastIsNewest | bot.py:385 | in a table with ascending ids, every earlier row has a smaller id than the last one |
| AuditLog.ConsDescending | bot.py:385 | a row newer than all rows of a descending listing can go in front of it |
| AuditLog.History | bot.py:379-387 | row k of a history page is row offset + k of the guild's newest-first listing (negative offset read as 0), the page has the window's length, and its ids are strictly descending |
| AuditLog.NewestFirstReverses | bot.py:383-385 | for a table whose rows all belong to the guild, `ORDER BY id DESC` lists them in exactly reversed insertion order |
| AuditLog.OldestPage | bot.py:379-387 | in a one-guild table of n rows, LIMIT k OFFSET n − k returns the k oldest rows, newest of them first |
| AuditLog.AppendShowsFirst | bot.py:353-358 | a row just logged is first in its guild's history, with the older history behind it; other guilds' histories are unchanged |
| RecipientIds.NatToString | bot.py:565 | `str(id)` is a non-empty run of decimal digits with no comma |
| RecipientIds.DigitsValue | bot.py:347 | `int()` of a digit string is zero exactly when every digit is `0` |
| RecipientIds.LeadingZero | bot.py:347 | a leading zero does not change the value `int()` gives a digit string; with the round trip this fixes the value of every digit string |
| RecipientIds.JoinIds | bot.py:565 | the stored recipient text is empty exactly when there are no recipients, and holds only digits and commas |
| RecipientIds.DigitsRoundTrip | bot.py:347 | `int(str(id)) == id` |
| RecipientIds.SplitComma | bot.py:347 | `split(",")` always returns at least one piece, and no piece contains a comma |
| RecipientIds.SplitWithoutComma | bot.py:347 | a text without a comma splits into itself |
| RecipientIds.SplitAfterPiece | bot.py:347 | splitting "p,t" gives p followed by the pieces of t |
| RecipientIds.ParseId | bot.py:347 | `int(piece)` succeeds exactly on a non-empty run of digits |
| RecipientIds.ParsePieces | bot.py:347 | the id list exists exactly when every non-empty piece is digits, and has at most one id per piece |
| RecipientIds.ParseEmptyFront | bot.py:347 | an empty piece contributes no id: the list parsed after it is the list of the remaining pieces |
| RecipientIds.ParseIds | bot.py:346-347 | an empty `recipient_ids` text gives no ids and no error |
| RecipientIds.PiecesRoundTrip | bot.py:346-347 | splitting the joined ids and parsing each piece gives back every id, in order |
| RecipientIds.ParseFront | bot.py:347 | a well-formed first piece puts its value in front of the parsed rest |
| RecipientIds.JoinParseRoundTrip | bot.py:346-347 | the stored recipient text of a split parses back to exactly the recipients the command joined |
| Ledger.Empty | bot.py:74-133 | right after schema creation the ledger satisfies the invariant, and every wallet and treasury reads 0 |
| Ledger.SumRemove | bot.py:400-407 | the guild's SUM(wallet) does not depend on the order in which rows are added |
| Ledger.SumUpdate | bot.py:400-407 | writing one wallet changes the guild's sum by exactly that wallet's difference, and other guilds' sums not at all |
| Ledger.SumNonNegative | bot.py:400-407 | with no negative wallet the guild's total is not negative |
| Ledger.GetTotalSilver | bot.py:400-407 | the row-by-row loop returns the guild's SUM(wallet), 0 for no rows, and never a negative total on a valid ledger |
| Database.EnsureAccount | bot.py:52-57 | after the call the account exists, its wallet is unchanged (a new one holds 0), and nothing else changes |
| Database.GetBalance | bot.py:66-72 | a missing account reads 0; a stored wallet is returned as is, and is never negative on a valid ledger |
| Database.AddBalance | bot.py:247-258 | succeeds exactly when the new balance is not negative; a refusal or a missing row changes nothing; otherwise only this wallet moves, by `amount` |
| Database.TransferBalance | bot.py:260-285 | succeeds exactly when the sender holds at least `amount`; a refusal leaves the ledger as it was; otherwise the sender loses and the receiver gains `amount`, both accounts exist, and no other wallet moves |
| Database.DeductBalance | bot.py:287-307 | succeeds exactly when the wallet holds at least `amount`; a refusal changes nothing; otherwise the wallet drops by `amount` and stays non-negative |
| Database.EnsureTreasury | bot.py:59-64 | the treasury row exists afterwards with its balance unchanged; no other guild and no wallet changes |
| Database.GetTreasury | bot.py:207-214 | a missing treasury reads 0; a stored balance is returned, never negative on a valid ledger |
| Database.AddTreasury | bot.py:145-152 | the upsert raises the treasury by `amount`, whether or not the row existed; nothing else changes |
| Database.DeductTreasury | bot.py:154-176 | succeeds exactly when the treasury holds at least `amount`; a refusal changes nothing; otherwise the treasury drops by `amount` and stays non-negative |
| Database.TransferTreasuryToUser | bot.py:178-205 | succeeds exactly when the treasury holds at least `amount`; then the treasury loses what the wallet gains, and treasury plus wallet is conserved; a refusal changes nothing |
| Database.LogTransfer | bot.py:353-358 | one new transfer row for the guild, after the old rows; balances untouched |
| Database.LogTreasury | bot.py:216-228 | one new treasury row for the guild, after the old rows; balances untouched |
| Database.LogLootSplit | bot.py:309-351 | succeeds exactly when every non-empty piece of the recipient text is an integer; then one row is added, its membership rows are exactly the parsed ids, and older splits' members are unchanged; a failure rolls back everything |
| Database.GetTransferHistory | bot.py:379-387 | row k is row offset + k of the guild's transfers listed newest first; the page has the window's length and descending ids |
| Database.GetTreasuryHistory | bot.py:230-245 | with no limit the result is the guild's whole newest-first listing and the offset is ignored; with a limit, row k is row offset + k of that listing, with the window's length |
| Database.RecipientsOf | bot.py:364-368 | a split's recipients come from its membership rows when there are any, otherwise from the stored text |
| Database.GetLootSplitHistory | bot.py:360-377 | line k shows row offset + k of the guild's splits listed newest first, with the window's length, and each line carries that split's recipients |
| Database.WithRecipients | bot.py:368-374 | every split row keeps its place and is paired with its own recipients (`LEFT JOIN … GROUP BY l.id`) |
| Properties.EnsureAccountIdempotent | bot.py:135-138 | ensuring an account twice is the same as once, and a no-op when it exists |
| Properties.EnsureThenAddBalance | bot.py:565-567 | the `ensure_account` then `add_balance` pair credits the wallet by exactly `amount` when the result is not negative |
| Properties.EnsureAccountKeepsTotal | bot.py:52-57 | creating an account changes no guild's total |
| Properties.TransferKeepsTotal | bot.py:260-285 | a transfer, successful or not, changes no guild's total silver |
| Properties.MoveKeepsSum | bot.py:274-281 | debiting one wallet and crediting another of the same guild keeps every guild's sum |
| Properties.DeductLowersTotal | bot.py:287-307 | a successful deduction lowers the guild's total by `amount`; a refusal changes it not at all |
| Properties.SetWalletChangesSum | bot.py:254-257 | overwriting an existing wallet shifts its guild's sum by the difference |
| Properties.AddBalanceRaisesTotal | bot.py:247-258 | on an existing account a successful `add_balance` raises the guild's total by `amount` |
| Properties.TreasuryPayoutKeepsHoldings | bot.py:178-205 | a treasury payout never creates or destroys silver: wallets plus treasury of the guild stay equal |
| Properties.CallKeepsValid | bot.py:135-358 | every `Database` write with the non-negative amounts the commands pass keeps wallets and treasuries non-negative and the logs well formed |
| Properties.RunKeepsValid | bot.py:135-358 | any sequence of such writes keeps the invariant, so no wallet ever goes negative |
| Properties.NegativeTransferBreaksValid | bot.py:260-285 | the store itself does not refuse a negative transfer: it drives the receiver below zero |
| Leaderboard.Holders | bot.py:389-398 | the users listed are exactly those of the guild with a positive wallet |
| Leaderboard.LeaderboardCount | bot.py:409-418 | the count is 0 exactly when no account of the guild holds silver |
| Leaderboard.DistinctLength | bot.py:394-396 | a ranked listing has no repeats, so it has one entry per holder |
| Leaderboard.Top | bot.py:395 | the chosen user is a candidate and comes before every other candidate in wallet-desc, user-asc order |
| Leaderboard.GetLeaderboard | bot.py:389-398 | the rows are the window of the full ranking of positive wallets, ordered by wallet descending then user ascending; each row carries that user's wallet; the ranking's length is the count |
| LootSplit.Split | bot.py:501-563 | the command's checks fail in its order; tax is total·tax/100 rounded down; remaining is total minus tax; the share is positive and n shares fit into remaining with less than n left over; success exactly when total·(100−tax) > 100·(n−1) |
| LootSplit.SplitArithmetic | bot.py:558-563 | floor division facts behind the split: the tax lies in [0, total] and the share is positive exactly when the remaining silver covers n |
| LootSplit.RoundingLossBounds | bot.py:560 | the silver a split leaves undistributed is in [0, n) |
| LootSplit.SplitExamples | bot.py:558-563 | 1000 at 10% among 3 gives 300 each; among 7 gives 128 each and loses 4; 50 at 100% has nothing to share |
| LootSplit.CreditAll | bot.py:566-568 | after the credit loop every recipient has an account, no account was removed, wallets of other guilds are unchanged, and the treasury and all logs are untouched |
| LootSplit.CreditOneFrame | bot.py:566-567 | one pass of the credit loop keeps the invariant and touches only the recipient's wallet |
| LootSplit.CreditOne | bot.py:566-567 | one pass credits the recipient and the guild's total by the share |
| LootSplit.CreditAllFrame | bot.py:565-567 | the credit loop keeps the invariant and leaves treasury, logs and other guilds alone |
| LootSplit.CreditAllWallets | bot.py:565-567 | each user is credited the share once per time listed; users not listed keep their wallet |
| LootSplit.CreditAllTotal | bot.py:565-567 | the guild's total rises by the share times the number of listed recipients |
| LootSplit.SplitRecord | bot.py:565-583 | the record's recipient count is the number of recipients, and its recipient text parses back to exactly those recipients, in order |
| LootSplit.Settle | bot.py:565-583 | the writes of a split give every recipient an account, leave other guilds' wallets and treasuries alone, and do not touch the transfer or treasury logs |
| LootSplit.ApplyLootSplit | bot.py:558-583 | a split is refused exactly when the arithmetic refuses it, with the same error, and otherwise uses the arithmetic's plan; an accepted split leaves other guilds' wallets and treasuries and the transfer and treasury logs unchanged |
| LootSplit.SettleWrites | bot.py:565-571 | paying the tax and logging the split leave the wallets as the credit loop left them, and raise the treasury by the tax |
| LootSplit.SettleBalances | bot.py:565-583 | the writes of a split credit the listed users, raise the treasury by the tax and the total by n shares, and keep the invariant |
| LootSplit.SettleRecord | bot.py:573-583 | the writes add one split row holding the record, and its membership rows name exactly the recipients |
| LootSplit.LoggedSplitShowsRecipients | bot.py:345-351 | right after a split is logged, its history line lists exactly the parsed ids from the membership rows |
| LootSplit.ApplyLootSplitBalances | bot.py:558-571 | after a split, wallets plus treasury of the guild grew by exactly the total minus the rounding loss; each recipient got its share per listing; the treasury got the tax |
| LootSplit.ApplyLootSplitRecord | bot.py:573-583 | a split appends one row after the existing ones, with the next id, the guild and the record built from the plan; its tax and remaining add up to the total, its shares fit into the remaining silver, and its history shows exactly the recipients |

## Left out

- The Discord layer is not modelled: slash-command handlers, permission checks, message formatting and `send_error`. It is I/O. The commands' own argument checks (amount > 0) appear only as the admissibility condition on calls.
- Recipient resolution in `lootsplit` is not modelled: mention and id regexes, `get_member_named` and `fetch_member`. The model starts from the resolved list of user ids; duplicates in it are allowed, as the name lookup can produce them.
- SQL text, connections, `sqlite3.Error` re-raise paths and the `connect`/`__init__` plumbing are not modelled. Storage faults are outside the model; a transaction either commits in full or returns the original ledger.
- Concurrency is not modelled. Each call is one atomic step.
- `created_at` timestamps are not modelled. They are wall-clock values.
- `load_env`, `format_silver` and the bot start-up code are left out. They are configuration or presentation only.
- `init_schema` is only represented by `Ledger.Empty`, the state it creates. The DDL text is not modelled.
- RecipientIds.ParseId: accepts only plain ASCII digits. Python's `int()` also takes signs, surrounding whitespace, underscores and other Unicode digits. The bot only ever stores ids it wrote with `str()`, which the round-trip lemma covers.
- Database.GetLootSplitHistory: gives the membership-row recipients as a set, because `GROUP_CONCAT` order is unspecified. The exact text SQLite would produce is not modelled.
- Leaderboard.GetLeaderboard: the `total_pages` computation and the "page out of range" reply of the leaderboard command are left out. They are UI text.
- Properties.CallKeepsValid: proved only for non-negative amounts on `transfer_balance`, `add_treasury` and `transfer_treasury_to_user`. Those methods do not check the sign, and a negative amount breaks the invariant (`NegativeTransferBreaksValid`).
- Ids are unbounded naturals, not 64-bit SQLite integers, and wallets are unbounded integers. SQLite's 64-bit overflow error is not modelled.
