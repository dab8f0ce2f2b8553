/** Page-size clamping used by the history and leaderboard commands, and the
    LIMIT/OFFSET window that SQLite applies to an ordered result. */
module Paging {
  import opened Common

  /** Default upper bound of `clamp_limit`. */
  const MaxPageSize: int := 10

  /** `clamp_limit(limit, max_limit)`: pulls a requested page size into [1, max_limit]. */
  function ClampLimit(limit: int, maxLimit: int): (r: int)
    ensures r >= 1
    ensures maxLimit >= 1 ==> r <= maxLimit
    ensures maxLimit < 1 ==> r == 1
    ensures 1 <= limit <= maxLimit ==> r == limit
    ensures limit < 1 ==> r == 1
    ensures 1 <= maxLimit < limit ==> r == maxLimit
  {
    Max(1, Min(maxLimit, limit))
  }

  /** `clamp_page(page)`: page numbers start at 1. */
  function ClampPage(page: int): (r: int)
    ensures r >= 1
    ensures page >= 1 ==> r == page
    ensures page < 1 ==> r == 1
  {
    Max(1, page)
  }

  /** The LIMIT and OFFSET a history command hands to the store. */
  datatype Window = Window(limit: int, offset: int)

  /** What a history command computes from the user's `limit` and `page`:
      the limit clamped to [1, 10] and the offset `(page - 1) * limit`. */
  function PageWindow(limit: int, page: int): (w: Window)
    ensures 1 <= w.limit <= MaxPageSize
    ensures w.limit == ClampLimit(limit, MaxPageSize)
    ensures w.offset >= 0
    ensures w.offset % w.limit == 0
    ensures w.offset / w.limit == ClampPage(page) - 1
  {
    var l := ClampLimit(limit, MaxPageSize);
    var p := ClampPage(page);
    MultipleDivMod(p - 1, l);
    Window(l, (p - 1) * l)
  }

  lemma MultipleDivMod(q: nat, l: int)
    requires l >= 1
    ensures (q * l) % l == 0
    ensures (q * l) / l == q
  {
    var a := q * l;
    var d := a / l - q;
    assert l * d == -(a % l);
    if d >= 1 {
      MulMonotone(l, d);
    } else if d <= -1 {
      MulMonotone(l, -d);
    }
  }

  lemma MulMonotone(l: int, d: int)
    requires l >= 1 && d >= 1
    ensures l * d >= l
  {
  }

  /** The effective OFFSET: SQLite treats a negative offset as zero. */
  function EffectiveOffset(offset: int): nat { if offset < 0 then 0 else offset }

  /** Number of rows a LIMIT/OFFSET window keeps out of `n` ordered rows.
      A negative LIMIT means no upper bound, as in SQLite. */
  function PageLength(n: nat, limit: int, offset: int): (k: nat)
    ensures k <= n
    ensures limit >= 0 ==> k <= limit
  {
    var off := EffectiveOffset(offset);
    var avail := if off >= n then 0 else n - off;
    if limit < 0 then avail else Min(limit, avail)
  }

  /** `... LIMIT limit OFFSET offset` applied to an already ordered sequence. */
  function Page<T>(s: seq<T>, limit: int, offset: int): (r: seq<T>)
    ensures |r| == PageLength(|s|, limit, offset)
    ensures forall k :: 0 <= k < |r| ==> EffectiveOffset(offset) + k < |s| && r[k] == s[EffectiveOffset(offset) + k]
  {
    var off := EffectiveOffset(offset);
    if off >= |s| then []
    else
      var rest := s[off..];
      if limit < 0 then rest else rest[..Min(limit, |rest|)]
  }

  /** Every row of an ordered result shows up on the page a history command
      computes for it: with the clamped page size `L`, row `i` sits on page
      `i / L + 1`, in slot `i % L`. */
  lemma RowOnItsPage<T>(s: seq<T>, limit: int, i: nat)
    requires i < |s|
    ensures var L := PageWindow(limit, 1).limit;
            var w := PageWindow(limit, i / L + 1);
            i % L < |Page(s, w.limit, w.offset)| && Page(s, w.limit, w.offset)[i % L] == s[i]
  {
    var L := ClampLimit(limit, MaxPageSize);
    var q := i / L;
    var w := PageWindow(limit, q + 1);
    assert PageWindow(limit, 1).limit == L && w.limit == L;
    assert w.offset == q * L by {
      DivExact(w.offset, L);
    }
    assert i == q * L + i % L && 0 <= i % L < L by {
      DivSplit(i, L);
    }
  }

  lemma DivExact(a: int, l: int)
    requires l >= 1 && a % l == 0
    ensures a == (a / l) * l
  {
  }

  lemma DivSplit(i: nat, l: int)
    requires l >= 1
    ensures i == (i / l) * l + i % l && 0 <= i % l < l
  {
  }
}
