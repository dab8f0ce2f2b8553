/** `get_leaderboard` and `get_leaderboard_count`: the guild's positive
    wallets ranked by wallet descending, ties broken by user id ascending. */
module Leaderboard {
  import opened Common
  import opened Paging
  import opened Ledger

  /** The users of guild `g` holding a positive wallet. */
  function Holders(db: Ledger, g: GuildId): (r: set<UserId>)
    ensures forall u :: u in r <==> Wallet(db, g, u) > 0
  {
    var r := set k | k in db.accounts.Keys && k.guild == g && db.accounts[k] > 0 :: k.user;
    assert forall u :: Wallet(db, g, u) > 0 ==> AccountKey(g, u) in db.accounts.Keys;
    r
  }

  /** `get_leaderboard_count`: how many users of the guild hold silver. */
  function LeaderboardCount(db: Ledger, g: GuildId): (n: nat)
    ensures n == 0 <==> forall k :: k in db.accounts && k.guild == g ==> db.accounts[k] <= 0
  {
    var h := Holders(db, g);
    if h == {} then
      assert forall k :: k in db.accounts && k.guild == g ==> k == AccountKey(g, k.user) && k.user !in h;
      0
    else
      var u :| u in h;
      assert AccountKey(g, u) in db.accounts;
      |h|
  }

  /** `ORDER BY wallet DESC, user_id ASC`: `a` comes before `b`. */
  predicate Before(db: Ledger, g: GuildId, a: UserId, b: UserId)
  {
    Wallet(db, g, a) > Wallet(db, g, b) || (Wallet(db, g, a) == Wallet(db, g, b) && a < b)
  }

  /** Every earlier entry comes strictly before every later one; in
      particular no user appears twice. */
  predicate Ranked(db: Ledger, g: GuildId, s: seq<UserId>)
  {
    forall i, j :: 0 <= i < j < |s| ==> Before(db, g, s[i], s[j])
  }

  /** A ranked list with exactly the elements of `h` has one entry per element. */
  lemma {:induction false} DistinctLength(db: Ledger, g: GuildId, s: seq<UserId>, h: set<UserId>)
    requires Ranked(db, g, s)
    requires forall u :: u in s <==> u in h
    ensures |s| == |h|
    decreases |s|
  {
    if |s| > 0 {
      var last := s[|s| - 1];
      var prefix := s[..|s| - 1];
      assert last !in prefix by {
        forall i | 0 <= i < |prefix|
          ensures prefix[i] != last
        {
          assert Before(db, g, s[i], s[|s| - 1]);
        }
      }
      forall u | u in prefix
        ensures u in h - {last}
      {
        var i :| 0 <= i < |prefix| && prefix[i] == u;
        assert s[i] == u;
      }
      forall u | u in h - {last}
        ensures u in prefix
      {
        var i :| 0 <= i < |s| && s[i] == u;
        assert i != |s| - 1;
        assert prefix[i] == u;
      }
      DistinctLength(db, g, prefix, h - {last});
    } else {
      assert forall u :: u !in h;
      assert h == {};
    }
  }

  /** The first user of `candidates` in leaderboard order. */
  method Top(db: Ledger, g: GuildId, candidates: set<UserId>) returns (best: UserId)
    requires candidates != {}
    ensures best in candidates
    ensures forall v :: v in candidates && v != best ==> Before(db, g, best, v)
  {
    best :| best in candidates;
    var rest := candidates - {best};
    while rest != {}
      invariant rest <= candidates && best in candidates && best !in rest
      invariant forall v :: v in candidates - rest && v != best ==> Before(db, g, best, v)
      decreases rest
    {
      var v :| v in rest;
      var done := candidates - rest;
      if Before(db, g, v, best) {
        forall w | w in done && w != v
          ensures Before(db, g, v, w)
        {
          if w != best {
            assert Before(db, g, best, w);
          }
        }
        best := v;
      } else {
        assert Before(db, g, best, v);
      }
      rest := rest - {v};
      assert candidates - rest == done + {v};
    }
  }

  /** `get_leaderboard`: the guild's holders ranked, then cut to the
      LIMIT/OFFSET window. `ranking` is the whole ordered list the window is
      taken from. */
  method GetLeaderboard(db: Ledger, g: GuildId, limit: int, offset: int)
    returns (rows: seq<(UserId, int)>, ghost ranking: seq<UserId>)
    ensures forall u :: u in ranking <==> Wallet(db, g, u) > 0
    ensures Ranked(db, g, ranking)
    ensures |ranking| == LeaderboardCount(db, g)
    ensures |rows| == PageLength(LeaderboardCount(db, g), limit, offset)
    ensures forall i :: 0 <= i < |rows| ==>
              && rows[i].0 == ranking[EffectiveOffset(offset) + i]
              && rows[i].1 == Wallet(db, g, rows[i].0) > 0
  {
    var holders := Holders(db, g);
    var sorted: seq<UserId> := [];
    var rest := holders;
    while rest != {}
      invariant rest <= holders
      invariant forall u :: u in sorted <==> u in holders - rest
      invariant Ranked(db, g, sorted)
      invariant forall i, v :: 0 <= i < |sorted| && v in rest ==> Before(db, g, sorted[i], v)
      decreases rest
    {
      var u := Top(db, g, rest);
      sorted := sorted + [u];
      rest := rest - {u};
    }
    ranking := sorted;
    DistinctLength(db, g, sorted, holders);
    var page := Page(sorted, limit, offset);
    rows := seq(|page|, i requires 0 <= i < |page| => (page[i], Wallet(db, g, page[i])));
  }
}
