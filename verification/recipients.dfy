/** The `recipient_ids` text column of `lootsplit_logs`: user ids written in
    decimal and joined with commas by the split command, and split back into
    ids when the membership rows are inserted. */
module RecipientIds {
  import opened Common

  predicate IsDigit(c: char) { '0' <= c <= '9' }

  predicate IsDigits(s: string) { forall i :: 0 <= i < |s| ==> IsDigit(s[i]) }

  function DigitChar(d: nat): (c: char)
    requires d < 10
    ensures IsDigit(c) && c as int - '0' as int == d
  {
    ('0' as int + d) as char
  }

  /** `str(n)` for a non-negative integer: its decimal digits, no leading zeros. */
  function NatToString(n: nat): (s: string)
    ensures |s| >= 1 && IsDigits(s)
    ensures ',' !in s
    decreases n
  {
    if n < 10 then [DigitChar(n)] else NatToString(n / 10) + [DigitChar(n % 10)]
  }

  /** Every character is the digit zero. */
  predicate AllZeros(s: string) { forall i :: 0 <= i < |s| ==> s[i] == '0' }

  /** The value of a string of decimal digits (leading zeros allowed, as for `int()`). */
  function DigitsValue(s: string): (r: nat)
    requires IsDigits(s)
    ensures r == 0 <==> AllZeros(s)
    decreases |s|
  {
    if |s| == 0 then 0
    else
      var prefix := s[..|s| - 1];
      assert forall i :: 0 <= i < |prefix| ==> prefix[i] == s[i];
      DigitsValue(prefix) * 10 + (s[|s| - 1] as int - '0' as int)
  }

  /** `int(str(n)) == n`. */
  lemma {:induction false} DigitsRoundTrip(n: nat)
    ensures DigitsValue(NatToString(n)) == n
    decreases n
  {
    var s := NatToString(n);
    if n >= 10 {
      DigitsRoundTrip(n / 10);
      assert s[..|s| - 1] == NatToString(n / 10);
    }
  }

  /** A leading zero does not change the value, as `int("012") == 12`;
      with `DigitsRoundTrip` this fixes the value of every digit string. */
  lemma {:induction false} LeadingZero(s: string)
    requires IsDigits(s)
    ensures IsDigits("0" + s) && DigitsValue("0" + s) == DigitsValue(s)
    decreases |s|
  {
    var z := "0" + s;
    if |s| > 0 {
      assert z[..|z| - 1] == "0" + s[..|s| - 1];
      LeadingZero(s[..|s| - 1]);
    } else {
      assert z[..|z| - 1] == "";
    }
  }

  /** `str.split(",")`: the pieces between commas, empty ones included;
      the empty string gives one empty piece. */
  function SplitComma(s: string): (r: seq<string>)
    ensures |r| >= 1
    ensures forall i :: 0 <= i < |r| ==> ',' !in r[i]
    decreases |s|
  {
    if |s| == 0 then [""]
    else if s[0] == ',' then [""] + SplitComma(s[1..])
    else
      var rest := SplitComma(s[1..]);
      [[s[0]] + rest[0]] + rest[1..]
  }

  /** The text the split command stores: each id in decimal, with a comma
      between neighbours and none at either end. */
  function JoinIds(ids: seq<UserId>): (r: string)
    ensures |r| == 0 <==> |ids| == 0
    ensures forall i :: 0 <= i < |r| ==> r[i] == ',' || IsDigit(r[i])
    decreases |ids|
  {
    if |ids| == 0 then ""
    else if |ids| == 1 then NatToString(ids[0])
    else NatToString(ids[0]) + "," + JoinIds(ids[1..])
  }

  /** `int(piece)` on a non-empty piece; anything but plain decimal digits is
      malformed and makes the insert raise. */
  function ParseId(piece: string): (r: Option<UserId>)
    ensures r.Some? <==> |piece| > 0 && IsDigits(piece)
  {
    if |piece| > 0 && IsDigits(piece) then Some(DigitsValue(piece)) else None
  }

  /** Converts every non-empty piece to an id, in order; empty pieces are
      skipped, and a single malformed piece fails the whole list. */
  function ParsePieces(pieces: seq<string>): (r: Option<seq<UserId>>)
    ensures r.Some? <==> forall i :: 0 <= i < |pieces| && |pieces[i]| > 0 ==> IsDigits(pieces[i])
    ensures r.Some? ==> |r.value| <= |pieces|
    decreases |pieces|
  {
    if |pieces| == 0 then Some([])
    else
      var tail := ParsePieces(pieces[1..]);
      assert forall i :: 1 <= i < |pieces| ==> pieces[i] == pieces[1..][i - 1];
      if |pieces[0]| == 0 then tail
      else match ParseId(pieces[0])
        case None => None
        case Some(v) =>
          match tail
          case None => None
          case Some(vs) => Some([v] + vs)
  }

  /** An empty piece contributes no id: parsing skips it. */
  lemma ParseEmptyFront(rest: seq<string>)
    ensures ParsePieces([""] + rest) == ParsePieces(rest)
  {
    assert ([""] + rest)[1..] == rest;
  }

  /** The ids `log_lootsplit` derives from a stored `recipient_ids` string;
      `None` when a piece is malformed (the insert raises and is rolled back). */
  function ParseIds(s: string): (r: Option<seq<UserId>>)
    ensures s == "" ==> r == Some([])
  {
    if s == "" then Some([]) else ParsePieces(SplitComma(s))
  }

  lemma {:induction false} SplitWithoutComma(p: string)
    requires ',' !in p
    ensures SplitComma(p) == [p]
    decreases |p|
  {
    if |p| > 0 {
      SplitWithoutComma(p[1..]);
      assert [p[0]] + p[1..] == p;
    }
  }

  lemma {:induction false} SplitAfterPiece(p: string, t: string)
    requires ',' !in p
    ensures SplitComma(p + "," + t) == [p] + SplitComma(t)
    decreases |p|
  {
    var s := p + "," + t;
    if |p| == 0 {
      assert s[1..] == t;
    } else {
      SplitAfterPiece(p[1..], t);
      assert s[1..] == p[1..] + "," + t;
      assert [p[0]] + p[1..] == p;
    }
  }

  /** Splitting the joined ids and parsing every piece gives the ids back,
      so the membership rows of a split name exactly its recipients. */
  lemma {:induction false} JoinParseRoundTrip(ids: seq<UserId>)
    ensures ParseIds(JoinIds(ids)) == Some(ids)
    decreases |ids|
  {
    if |ids| > 0 {
      PiecesRoundTrip(ids);
    }
  }

  lemma {:induction false} PiecesRoundTrip(ids: seq<UserId>)
    requires |ids| > 0
    ensures JoinIds(ids) != ""
    ensures ParsePieces(SplitComma(JoinIds(ids))) == Some(ids)
    decreases |ids|
  {
    var p := NatToString(ids[0]);
    DigitsRoundTrip(ids[0]);
    if |ids| == 1 {
      SplitWithoutComma(p);
      ParseFront(p, [], ids[0]);
      assert [p] + [] == [p];
      assert [ids[0]] + [] == ids;
    } else {
      PiecesRoundTrip(ids[1..]);
      var t := JoinIds(ids[1..]);
      SplitAfterPiece(p, t);
      ParseFront(p, SplitComma(t), ids[0]);
      assert ids == [ids[0]] + ids[1..];
    }
  }

  /** A well-formed first piece contributes its value in front of the rest. */
  lemma ParseFront(p: string, rest: seq<string>, v: UserId)
    requires |p| > 0 && IsDigits(p) && DigitsValue(p) == v
    requires ParsePieces(rest).Some?
    ensures ParsePieces([p] + rest) == Some([v] + ParsePieces(rest).value)
  {
  }
}
