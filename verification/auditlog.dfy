/** The append-only audit tables (`transfer_logs`, `treasury_logs`,
    `lootsplit_logs`): rows tagged with an AUTOINCREMENT id, read back
    newest-first for one guild and cut to a LIMIT/OFFSET window. */
module AuditLog {
  import opened Common
  import opened Paging

  /** One table row: its AUTOINCREMENT id, the guild it belongs to and the
      event-specific columns. `created_at` is wall-clock time and is omitted. */
  datatype Row<T> = Row(id: nat, guild: GuildId, entry: T)

  /** A log table: rows in insertion order and the id the next insert gets. */
  datatype Log<T> = Log(rows: seq<Row<T>>, nextId: nat)

  /** A freshly created table; AUTOINCREMENT hands out 1 first. */
  function EmptyLog<T>(): (log: Log<T>)
    ensures WellFormed(log) && |log.rows| == 0
    ensures log.nextId == 1
  {
    Log([], 1)
  }

  predicate IdsAscending<T>(rows: seq<Row<T>>)
  {
    forall i, j :: 0 <= i < j < |rows| ==> rows[i].id < rows[j].id
  }

  predicate IdsDescending<T>(rows: seq<Row<T>>)
  {
    forall i, j :: 0 <= i < j < |rows| ==> rows[i].id > rows[j].id
  }

  /** Ids grow with insertion order and stay below the next id to hand out. */
  predicate WellFormed<T>(log: Log<T>)
  {
    && 1 <= log.nextId
    && IdsAscending(log.rows)
    && forall i :: 0 <= i < |log.rows| ==> 1 <= log.rows[i].id < log.nextId
  }

  /** An INSERT: one new row with a fresh id after every existing row. */
  function Append<T>(log: Log<T>, guild: GuildId, entry: T): (r: Log<T>)
    ensures |r.rows| == |log.rows| + 1
    ensures r.rows[..|log.rows|] == log.rows
    ensures r.rows[|log.rows|].guild == guild && r.rows[|log.rows|].entry == entry
    ensures forall x :: x in log.rows && WellFormed(log) ==> x.id < r.rows[|log.rows|].id
    ensures r.nextId > r.rows[|log.rows|].id
    ensures WellFormed(log) ==> WellFormed(r)
  {
    Log(log.rows + [Row(log.nextId, guild, entry)], log.nextId + 1)
  }

  /** The rows of one guild, `ORDER BY id DESC` (newest first). */
  function NewestFirst<T(!new)>(rows: seq<Row<T>>, guild: GuildId): (r: seq<Row<T>>)
    ensures forall x :: x in r <==> x in rows && x.guild == guild
    ensures |r| <= |rows|
    decreases |rows|
  {
    if |rows| == 0 then []
    else
      var last := rows[|rows| - 1];
      var older := NewestFirst(rows[..|rows| - 1], guild);
      assert forall x :: x in rows <==> x in rows[..|rows| - 1] || x == last;
      if last.guild == guild then [last] + older else older
  }

  /** With ascending ids in the table, the newest-first listing has strictly
      descending ids. */
  lemma {:induction false} NewestFirstDescending<T(!new)>(rows: seq<Row<T>>, guild: GuildId)
    requires IdsAscending(rows)
    ensures IdsDescending(NewestFirst(rows, guild))
    decreases |rows|
  {
    if |rows| > 0 {
      var prefix := rows[..|rows| - 1];
      var last := rows[|rows| - 1];
      assert IdsAscending(prefix);
      NewestFirstDescending(prefix, guild);
      var older := NewestFirst(prefix, guild);
      if last.guild == guild {
        assert forall x :: x in older ==> x.id < last.id by {
          LastIsNewest(rows);
        }
        ConsDescending(last, older);
      }
    }
  }

  /** In an ascending table every earlier row has a smaller id than the last. */
  lemma LastIsNewest<T>(rows: seq<Row<T>>)
    requires IdsAscending(rows) && |rows| > 0
    ensures forall x :: x in rows[..|rows| - 1] ==> x.id < rows[|rows| - 1].id
  {
  }

  /** Putting a row with a larger id than all others in front keeps a
      descending listing descending. */
  lemma ConsDescending<T>(first: Row<T>, rest: seq<Row<T>>)
    requires IdsDescending(rest)
    requires forall x :: x in rest ==> x.id < first.id
    ensures IdsDescending([first] + rest)
  {
  }

  /** When every row belongs to the guild, newest-first is insertion order
      reversed. */
  lemma {:induction false} NewestFirstReverses<T(!new)>(rows: seq<Row<T>>, guild: GuildId)
    requires forall i :: 0 <= i < |rows| ==> rows[i].guild == guild
    ensures |NewestFirst(rows, guild)| == |rows|
    ensures forall j :: 0 <= j < |rows| ==> NewestFirst(rows, guild)[j] == rows[|rows| - 1 - j]
    decreases |rows|
  {
    if |rows| > 0 {
      var prefix := rows[..|rows| - 1];
      NewestFirstReverses(prefix, guild);
      var r := NewestFirst(rows, guild);
      assert r == [rows[|rows| - 1]] + NewestFirst(prefix, guild);
      forall j | 0 <= j < |rows|
        ensures r[j] == rows[|rows| - 1 - j]
      {
        if j > 0 {
          assert r[j] == NewestFirst(prefix, guild)[j - 1] == prefix[|prefix| - 1 - (j - 1)];
        }
      }
    }
  }

  /** Paging back to the end of a one-guild table shows its oldest rows,
      newest of them first: with `n` rows, LIMIT `k` OFFSET `n - k` yields
      rows `k - 1` down to `0` of insertion order. */
  lemma OldestPage<T(!new)>(log: Log<T>, guild: GuildId, k: nat)
    requires forall i :: 0 <= i < |log.rows| ==> log.rows[i].guild == guild
    requires k <= |log.rows|
    ensures var r := History(log, guild, k, |log.rows| - k);
            && |r| == k
            && forall j :: 0 <= j < k ==> r[j] == log.rows[k - 1 - j]
  {
    NewestFirstReverses(log.rows, guild);
  }

  /** `SELECT ... WHERE guild_id = ? ORDER BY id DESC LIMIT ? OFFSET ?`. */
  function History<T(!new)>(log: Log<T>, guild: GuildId, limit: int, offset: int): (r: seq<Row<T>>)
    ensures forall x :: x in r ==> x in log.rows && x.guild == guild
    ensures |r| == PageLength(|NewestFirst(log.rows, guild)|, limit, offset)
    ensures forall k :: 0 <= k < |r| ==>
              && EffectiveOffset(offset) + k < |NewestFirst(log.rows, guild)|
              && r[k] == NewestFirst(log.rows, guild)[EffectiveOffset(offset) + k]
    ensures WellFormed(log) ==> IdsDescending(r)
  {
    var all := NewestFirst(log.rows, guild);
    var r := Page(all, limit, offset);
    assert forall k :: 0 <= k < |r| ==> r[k] in all;
    if WellFormed(log) then
      NewestFirstDescending(log.rows, guild);
      r
    else r
  }

  /** The newest row of a guild leads its history right after it is appended;
      the other guilds' histories are untouched. */
  lemma AppendShowsFirst<T(!new)>(log: Log<T>, guild: GuildId, entry: T, other: GuildId)
    ensures NewestFirst(Append(log, guild, entry).rows, guild)[0] == Row(log.nextId, guild, entry)
    ensures NewestFirst(Append(log, guild, entry).rows, guild)[1..] == NewestFirst(log.rows, guild)
    ensures other != guild ==> NewestFirst(Append(log, guild, entry).rows, other) == NewestFirst(log.rows, other)
  {
  }
}
