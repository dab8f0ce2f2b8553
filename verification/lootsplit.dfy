/** The loot-split arithmetic of the `lootsplit` command and the sequence of
    ledger calls that applies a split: credit every recipient, pay the tax
    into the treasury, record the split. */
module LootSplit {
  import opened Common
  import opened AuditLog
  import opened RecipientIds
  import opened Ledger
  import opened Database
  import opened Properties

  /** Why the command refuses a split, in the order it checks. */
  datatype SplitError =
    | TotalNotPositive   // the total is zero or negative
    | TaxOutOfRange      // the tax percentage lies outside 0 to 100
    | NoRecipients       // no mentioned user could be resolved
    | NotEnoughToSplit   // after tax, less than one silver per recipient

  datatype SplitPlan = SplitPlan(taxAmount: int, remaining: int, share: int)

  /** `t` is the tax on `total` at `tax` percent, rounded down. */
  ghost predicate IsTaxOf(total: int, tax: int, t: int)
  {
    t * 100 <= total * tax < t * 100 + 100
  }

  /** The checks and arithmetic of the `lootsplit` command, in its order:
      `total` positive, `tax` within 0..100, at least one recipient, then
      `tax_amount = total * tax // 100`, `remaining = total - tax_amount`,
      `share = remaining // n`, refused unless `share` is positive. The
      operands are non-negative here, so floor and Euclidean division agree. */
  function Split(total: int, tax: int, n: nat): (r: Result<SplitPlan, SplitError>)
    ensures r == Err(TotalNotPositive) <==> total <= 0
    ensures r == Err(TaxOutOfRange) <==> total > 0 && !(0 <= tax <= 100)
    ensures r == Err(NoRecipients) <==> total > 0 && 0 <= tax <= 100 && n == 0
    ensures r.Ok? <==> total > 0 && 0 <= tax <= 100 && n > 0 && total * (100 - tax) > 100 * (n - 1)
    ensures r.Ok? ==>
              && IsTaxOf(total, tax, r.value.taxAmount)
              && 0 <= r.value.taxAmount <= total
              && r.value.taxAmount + r.value.remaining == total
              && r.value.share >= 1
              && r.value.share * n <= r.value.remaining < r.value.share * n + n
  {
    if total <= 0 then Err(TotalNotPositive)
    else if !(0 <= tax <= 100) then Err(TaxOutOfRange)
    else if n == 0 then Err(NoRecipients)
    else
      var taxAmount := (total * tax) / 100;
      var remaining := total - taxAmount;
      var share := remaining / n;
      SplitArithmetic(total, tax, n, taxAmount, remaining, share);
      if share <= 0 then Err(NotEnoughToSplit)
      else Ok(SplitPlan(taxAmount, remaining, share))
  }

  lemma SplitArithmetic(total: int, tax: int, n: nat, taxAmount: int, remaining: int, share: int)
    requires total > 0 && 0 <= tax <= 100 && n > 0
    requires taxAmount == (total * tax) / 100
    requires remaining == total - taxAmount
    requires share == remaining / n
    ensures IsTaxOf(total, tax, taxAmount)
    ensures 0 <= taxAmount <= total
    ensures share * n <= remaining < share * n + n
    ensures share >= 1 <==> total * (100 - tax) > 100 * (n - 1)
  {
  }

  /** Silver that a valid split leaves undistributed: the rounding remainder
      of `remaining` over the recipients, credited to nobody. */
  function RoundingLoss(plan: SplitPlan, n: nat): int
  {
    plan.remaining - plan.share * n
  }

  /** The loss is never negative and is less than one silver per recipient. */
  lemma RoundingLossBounds(total: int, tax: int, n: nat)
    requires Split(total, tax, n).Ok?
    ensures 0 <= RoundingLoss(Split(total, tax, n).value, n) < n
  {
  }

  /** Worked examples: 1000 silver at 10% among 3 splits exactly; among 7
      it leaves 4 silver undistributed; 50 silver at 100% tax leaves nothing
      to share. */
  lemma SplitExamples()
    ensures Split(1000, 10, 3) == Ok(SplitPlan(100, 900, 300))
    ensures Split(1000, 10, 7) == Ok(SplitPlan(100, 900, 128)) && RoundingLoss(SplitPlan(100, 900, 128), 7) == 4
    ensures Split(50, 100, 2) == Err(NotEnoughToSplit)
    ensures Split(0, 10, 2) == Err(TotalNotPositive)
  {
  }

  // ---------------------------------------------------------------------
  // Applying a split to the ledger
  // ---------------------------------------------------------------------

  /** Every listed user of guild `g` has an account. */
  ghost predicate HasAccounts(l: Ledger, g: GuildId, rs: seq<UserId>)
  {
    forall u :: u in rs ==> AccountKey(g, u) in l.accounts
  }

  /** No wallet outside guild `g` changed. */
  ghost predicate OtherWalletsKept(before: Ledger, after: Ledger, g: GuildId)
  {
    forall h, v :: h != g ==> Wallet(after, h, v) == Wallet(before, h, v)
  }

  /** No treasury outside guild `g` changed. */
  ghost predicate OtherTreasuriesKept(before: Ledger, after: Ledger, g: GuildId)
  {
    forall h :: h != g ==> Treasury(after, h) == Treasury(before, h)
  }

  /** The command's loop: `ensure_account` then `add_balance(share)` for each
      recipient in turn. */
  function CreditAll(db: Ledger, g: GuildId, rs: seq<UserId>, share: int): (r: Ledger)
    ensures HasAccounts(r, g, rs)
    ensures db.accounts.Keys <= r.accounts.Keys
    ensures OtherWalletsKept(db, r, g)
    ensures r.treasury == db.treasury && SameLogs(db, r)
    decreases |rs|
  {
    if |rs| == 0 then db
    else CreditAll(AddBalance(EnsureAccount(db, g, rs[0]), g, rs[0], share).next, g, rs[1..], share)
  }

  /** One pass of the loop keeps the ledger valid and touches one wallet only. */
  lemma CreditOneFrame(db: Ledger, g: GuildId, u: UserId, share: int)
    requires Valid(db) && share >= 0
    ensures var next := AddBalance(EnsureAccount(db, g, u), g, u, share).next;
            && Valid(next)
            && (forall h, v :: h != g || v != u ==> Wallet(next, h, v) == Wallet(db, h, v))
            && next.treasury == db.treasury && SameLogs(db, next)
  {
  }

  /** One pass of the loop credits the recipient, and the guild's total, by `share`. */
  lemma CreditOne(db: Ledger, g: GuildId, u: UserId, share: int)
    requires Valid(db) && share >= 0
    ensures var next := AddBalance(EnsureAccount(db, g, u), g, u, share).next;
            && Wallet(next, g, u) == Wallet(db, g, u) + share
            && TotalSilver(next, g) == TotalSilver(db, g) + share
  {
    var db1 := EnsureAccount(db, g, u);
    EnsureAccountKeepsTotal(db, g, u, g);
    AddBalanceRaisesTotal(db1, g, u, share);
  }

  lemma MulStep(n: nat, s: int)
    requires n > 0
    ensures n * s == s + (n - 1) * s
  {
  }

  /** Crediting keeps the ledger valid and leaves the treasury, the logs and
      the wallets of other guilds alone. */
  lemma {:induction false} CreditAllFrame(db: Ledger, g: GuildId, rs: seq<UserId>, share: int)
    requires Valid(db) && share >= 0
    ensures var next := CreditAll(db, g, rs, share);
            && Valid(next)
            && (forall h, v :: h != g ==> Wallet(next, h, v) == Wallet(db, h, v))
            && next.treasury == db.treasury && SameLogs(db, next)
    decreases |rs|
  {
    if |rs| > 0 {
      var db1 := AddBalance(EnsureAccount(db, g, rs[0]), g, rs[0], share).next;
      CreditOneFrame(db, g, rs[0], share);
      CreditAllFrame(db1, g, rs[1..], share);
    }
  }

  /** Every wallet of guild `g` went up by `share` once per listing in `rs`;
      wallets not listed kept their balance. */
  ghost predicate CreditedBy(before: Ledger, after: Ledger, g: GuildId, rs: seq<UserId>, share: int)
  {
    forall u :: Wallet(after, g, u) == Wallet(before, g, u) + multiset(rs)[u] * share
  }

  /** Every recipient is credited `share` once per time they are listed, and
      every other wallet of the guild keeps its balance. */
  lemma {:induction false} CreditAllWallets(db: Ledger, g: GuildId, rs: seq<UserId>, share: int)
    requires Valid(db) && share >= 0
    ensures CreditedBy(db, CreditAll(db, g, rs, share), g, rs, share)
    decreases |rs|
  {
    if |rs| > 0 {
      var u := rs[0];
      var db1 := AddBalance(EnsureAccount(db, g, u), g, u, share).next;
      assert Valid(db1) && forall v :: v != u ==> Wallet(db1, g, v) == Wallet(db, g, v) by {
        CreditOneFrame(db, g, u, share);
      }
      assert Wallet(db1, g, u) == Wallet(db, g, u) + share by {
        CreditOne(db, g, u, share);
      }
      CreditAllWallets(db1, g, rs[1..], share);
      assert rs == [u] + rs[1..];
      assert multiset(rs) == multiset([u]) + multiset(rs[1..]);
      var next := CreditAll(db, g, rs, share);
      forall v
        ensures Wallet(next, g, v) == Wallet(db, g, v) + multiset(rs)[v] * share
      {
        if v == u {
          assert multiset(rs)[v] == 1 + multiset(rs[1..])[v];
          MulStep(multiset(rs)[v], share);
        } else {
          assert multiset(rs)[v] == multiset(rs[1..])[v];
        }
      }
    }
  }

  /** The guild's total silver grows by `share` per listed recipient. */
  lemma {:induction false} CreditAllTotal(db: Ledger, g: GuildId, rs: seq<UserId>, share: int)
    requires Valid(db) && share >= 0
    ensures TotalSilver(CreditAll(db, g, rs, share), g) == TotalSilver(db, g) + |rs| * share
    decreases |rs|
  {
    if |rs| > 0 {
      var u := rs[0];
      var db1 := AddBalance(EnsureAccount(db, g, u), g, u, share).next;
      assert Valid(db1) by {
        CreditOneFrame(db, g, u, share);
      }
      assert TotalSilver(db1, g) == TotalSilver(db, g) + share by {
        CreditOne(db, g, u, share);
      }
      CreditAllTotal(db1, g, rs[1..], share);
      MulStep(|rs|, share);
    }
  }

  /** What a successful split leaves: the plan and the new ledger. */
  datatype Applied = Applied(plan: SplitPlan, next: Ledger)

  /** The `lootsplit_logs` row the command writes for a plan. */
  function SplitRecord(initiator: UserId, total: int, tax: int, plan: SplitPlan, recipients: seq<UserId>): (e: LootSplitEntry)
    ensures e.recipientCount == |recipients|
    ensures ParseIds(e.recipientIds) == Some(recipients)
  {
    JoinParseRoundTrip(recipients);
    LootSplitEntry(initiator, total, tax, plan.taxAmount, plan.remaining, plan.share,
                   |recipients|, JoinIds(recipients))
  }

  /** The writes of an accepted split: credit each recipient, add the tax to
      the treasury when it is positive, and record the split. */
  function Settle(db: Ledger, g: GuildId, recipients: seq<UserId>, plan: SplitPlan, entry: LootSplitEntry): (r: Ledger)
    ensures HasAccounts(r, g, recipients)
    ensures OtherWalletsKept(db, r, g) && OtherTreasuriesKept(db, r, g)
    ensures r.transferLog == db.transferLog && r.treasuryLog == db.treasuryLog
  {
    var credited := CreditAll(db, g, recipients, plan.share);
    var taxed := if plan.taxAmount > 0 then AddTreasury(credited, g, plan.taxAmount) else credited;
    LogLootSplit(taxed, g, entry).next
  }

  /** The `lootsplit` command's ledger effect for resolved recipients: the
      arithmetic decides, then the writes are made with the comma-joined
      recipient ids as the record. */
  function ApplyLootSplit(db: Ledger, g: GuildId, initiator: UserId, total: int, tax: int, recipients: seq<UserId>)
    : (r: Result<Applied, SplitError>)
    ensures r.Err? <==> Split(total, tax, |recipients|).Err?
    ensures r.Err? ==> r.error == Split(total, tax, |recipients|).error
    ensures r.Ok? ==> r.value.plan == Split(total, tax, |recipients|).value
    ensures r.Ok? ==>
              && OtherWalletsKept(db, r.value.next, g) && OtherTreasuriesKept(db, r.value.next, g)
              && r.value.next.transferLog == db.transferLog && r.value.next.treasuryLog == db.treasuryLog
  {
    match Split(total, tax, |recipients|)
    case Err(e) => Err(e)
    case Ok(plan) =>
      Ok(Applied(plan, Settle(db, g, recipients, plan, SplitRecord(initiator, total, tax, plan, recipients))))
  }

  /** The tax and the record leave the wallets as the crediting left them. */
  lemma SettleWrites(db: Ledger, g: GuildId, recipients: seq<UserId>, plan: SplitPlan, entry: LootSplitEntry)
    requires Valid(db) && plan.share >= 0 && plan.taxAmount >= 0
    ensures var next := Settle(db, g, recipients, plan, entry);
            && next.accounts == CreditAll(db, g, recipients, plan.share).accounts
            && Treasury(next, g) == Treasury(db, g) + plan.taxAmount
            && Valid(next)
  {
    var credited := CreditAll(db, g, recipients, plan.share);
    assert Valid(credited) && credited.treasury == db.treasury by {
      CreditAllFrame(db, g, recipients, plan.share);
    }
  }

  /** The writes credit every recipient `share` per listing, raise the
      treasury by the tax and keep the ledger valid. */
  lemma SettleBalances(db: Ledger, g: GuildId, recipients: seq<UserId>, plan: SplitPlan, entry: LootSplitEntry)
    requires Valid(db) && plan.share >= 0 && plan.taxAmount >= 0
    ensures var next := Settle(db, g, recipients, plan, entry);
            && Valid(next)
            && CreditedBy(db, next, g, recipients, plan.share)
            && Treasury(next, g) == Treasury(db, g) + plan.taxAmount
            && TotalSilver(next, g) == TotalSilver(db, g) + |recipients| * plan.share
  {
    var credited := CreditAll(db, g, recipients, plan.share);
    var next := Settle(db, g, recipients, plan, entry);
    SettleWrites(db, g, recipients, plan, entry);
    assert CreditedBy(db, next, g, recipients, plan.share) by {
      CreditAllWallets(db, g, recipients, plan.share);
      assert forall u :: Wallet(next, g, u) == Wallet(credited, g, u);
    }
    assert TotalSilver(next, g) == TotalSilver(db, g) + |recipients| * plan.share by {
      CreditAllTotal(db, g, recipients, plan.share);
    }
  }

  /** The writes append one `lootsplit_logs` row holding the record, and the
      membership rows name exactly the recipients. */
  lemma SettleRecord(db: Ledger, g: GuildId, recipients: seq<UserId>, plan: SplitPlan, entry: LootSplitEntry)
    requires Valid(db) && plan.share >= 0 && |recipients| > 0
    requires entry.recipientIds == JoinIds(recipients)
    ensures var next := Settle(db, g, recipients, plan, entry);
            && |next.lootLog.rows| == |db.lootLog.rows| + 1
            && next.lootLog.rows[|db.lootLog.rows|] == Row(db.lootLog.nextId, g, entry)
            && RecipientsOf(next, next.lootLog.rows[|db.lootLog.rows|]) == Members(set u | u in recipients)
  {
    var credited := CreditAll(db, g, recipients, plan.share);
    var taxed := if plan.taxAmount > 0 then AddTreasury(credited, g, plan.taxAmount) else credited;
    assert taxed.lootLog == db.lootLog && Valid(taxed) by {
      CreditAllFrame(db, g, recipients, plan.share);
    }
    assert ParseIds(entry.recipientIds) == Some(recipients) by {
      JoinParseRoundTrip(recipients);
    }
    LoggedSplitShowsRecipients(taxed, g, entry, recipients);
  }

  /** Right after `log_lootsplit` succeeds, the new row's recipients come from
      its membership rows and are exactly the parsed ids. */
  lemma LoggedSplitShowsRecipients(db: Ledger, g: GuildId, e: LootSplitEntry, ids: seq<UserId>)
    requires Valid(db) && ParseIds(e.recipientIds) == Some(ids) && |ids| > 0
    ensures var next := LogLootSplit(db, g, e).next;
            RecipientsOf(next, Row(db.lootLog.nextId, g, e)) == Members(set u | u in ids)
  {
    var next := LogLootSplit(db, g, e).next;
    var members := MembersOf(next, db.lootLog.nextId);
    assert forall u :: u in members <==> u in ids;
    assert members == set u | u in ids;
    assert ids[0] in members;
  }

  /** A split credits each recipient its share, pays the tax into the
      treasury, and moves into wallets and treasury together exactly the
      total minus the rounding loss; the ledger stays valid. */
  lemma ApplyLootSplitBalances(db: Ledger, g: GuildId, initiator: UserId, total: int, tax: int, recipients: seq<UserId>)
    requires Valid(db)
    requires ApplyLootSplit(db, g, initiator, total, tax, recipients).Ok?
    ensures var a := ApplyLootSplit(db, g, initiator, total, tax, recipients).value;
            && Valid(a.next)
            && CreditedBy(db, a.next, g, recipients, a.plan.share)
            && Treasury(a.next, g) == Treasury(db, g) + a.plan.taxAmount
            && TotalSilver(a.next, g) + Treasury(a.next, g)
               == TotalSilver(db, g) + Treasury(db, g) + total - RoundingLoss(a.plan, |recipients|)
  {
    var plan := Split(total, tax, |recipients|).value;
    var entry := SplitRecord(initiator, total, tax, plan, recipients);
    SettleBalances(db, g, recipients, plan, entry);
    MulCommutes(|recipients|, plan.share);
  }

  lemma MulCommutes(n: nat, s: int)
    ensures n * s == s * n
  {
  }

  /** A split records one `lootsplit_logs` row, and the history shows its
      recipients from the membership rows, which name exactly the recipients. */
  lemma ApplyLootSplitRecord(db: Ledger, g: GuildId, initiator: UserId, total: int, tax: int, recipients: seq<UserId>)
    requires Valid(db)
    requires ApplyLootSplit(db, g, initiator, total, tax, recipients).Ok?
    ensures var a := ApplyLootSplit(db, g, initiator, total, tax, recipients).value;
            && |a.next.lootLog.rows| == |db.lootLog.rows| + 1
            && a.next.lootLog.rows[..|db.lootLog.rows|] == db.lootLog.rows
            && var row := a.next.lootLog.rows[|db.lootLog.rows|];
               && row == Row(db.lootLog.nextId, g, SplitRecord(initiator, total, tax, a.plan, recipients))
               && row.entry.total == total && row.entry.taxPercent == tax
               && row.entry.taxAmount + row.entry.remaining == total
               && row.entry.recipientCount == |recipients|
               && row.entry.share * row.entry.recipientCount <= row.entry.remaining
               && RecipientsOf(a.next, row) == Members(set u | u in recipients)
  {
    var plan := Split(total, tax, |recipients|).value;
    var entry := SplitRecord(initiator, total, tax, plan, recipients);
    SettleRecord(db, g, recipients, plan, entry);
  }
}
