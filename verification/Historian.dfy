/** The local history table: appended to on every reading, pruned by the text of its timestamps. */
module Historian {
  import opened Common
  import opened IsoTime

  const HISTORY_RETENTION_DAYS := 30

  datatype HistoryRow = HistoryRow(
    id: nat, deviceId: int, tagId: int, value: Float, quality: string, sourceTimestamp: string, createdAt: string)

  datatype HistoryError = NotNullViolation | IntegerTooLarge | DateOverflow

  // ----- Timestamps as instants -----

  ghost predicate IsIso(text: string) {
    exists d :: ValidDate(d) && Iso(d) == text
  }

  /** The instant a timestamp text denotes. */
  ghost function InstantOf(text: string): int
    requires IsIso(text)
  {
    var d :| ValidDate(d) && Iso(d) == text;
    Micros(d)
  }

  lemma InstantOfIso(d: DateTime)
    requires ValidDate(d)
    ensures IsIso(Iso(d)) && InstantOf(Iso(d)) == Micros(d)
  {
    var d' :| ValidDate(d') && Iso(d') == Iso(d) && InstantOf(Iso(d)) == Micros(d');
    IsoNamesInstant(d, d');
  }

  lemma DateOf(text: string) returns (d: DateTime)
    requires IsIso(text)
    ensures ValidDate(d) && Iso(d) == text && InstantOf(text) == Micros(d)
  {
    d :| ValidDate(d) && Iso(d) == text;
    InstantOfIso(d);
  }

  /** Comparing two timestamps as text compares the instants. */
  lemma TextOrderIsInstantOrder(s: string, t: string)
    requires IsIso(s) && IsIso(t)
    ensures TextLess(s, t) <==> InstantOf(s) < InstantOf(t)
  {
    var a := DateOf(s);
    var b := DateOf(t);
    hide IsIso, InstantOf, Iso, TextLess, Micros;
    IsoOrderIsTimeOrder(a, b);
  }

  // ----- Pruning -----

  /** DELETE WHERE created_at < cutoff. */
  function KeepFrom(rows: seq<HistoryRow>, cutoff: string): seq<HistoryRow> {
    if rows == [] then []
    else
      var last := rows[|rows| - 1];
      KeepFrom(rows[..|rows| - 1], cutoff) + (if TextLess(last.createdAt, cutoff) then [] else [last])
  }

  /** What is left when the rows created before an instant are gone, the others in their order. */
  ghost function CreatedSince(rows: seq<HistoryRow>, instant: int): seq<HistoryRow>
    requires forall row :: row in rows ==> IsIso(row.createdAt)
  {
    if rows == [] then []
    else
      var last := rows[|rows| - 1];
      assert last in rows;
      CreatedSince(rows[..|rows| - 1], instant) + (if InstantOf(last.createdAt) < instant then [] else [last])
  }

  lemma {:induction false} KeepFromKeepsSince(rows: seq<HistoryRow>, cutoff: DateTime)
    requires ValidDate(cutoff) && forall row :: row in rows ==> IsIso(row.createdAt)
    ensures KeepFrom(rows, Iso(cutoff)) == CreatedSince(rows, Micros(cutoff))
  {
    hide IsIso, InstantOf, TextLess, Iso, Micros;
    if rows != [] {
      var last := rows[|rows| - 1];
      assert last in rows;
      KeepFromKeepsSince(rows[..|rows| - 1], cutoff);
      InstantOfIso(cutoff);
      TextOrderIsInstantOrder(last.createdAt, Iso(cutoff));
    }
  }

  /** A row is deleted exactly when it was created before the cutoff instant. */
  lemma {:induction false} CreatedSinceMembers(rows: seq<HistoryRow>, instant: int)
    requires forall row :: row in rows ==> IsIso(row.createdAt)
    ensures forall row :: row in CreatedSince(rows, instant) <==> row in rows && InstantOf(row.createdAt) >= instant
    ensures |CreatedSince(rows, instant)| <= |rows|
    ensures forall row :: multiset(CreatedSince(rows, instant))[row]
                          == if row in rows && InstantOf(row.createdAt) >= instant then multiset(rows)[row] else 0
  {
    hide IsIso, InstantOf;
    if rows != [] {
      CreatedSinceMembers(rows[..|rows| - 1], instant);
      assert rows == rows[..|rows| - 1] + [rows[|rows| - 1]];
    }
  }

  // ----- Recent readings -----

  function Matching(rows: seq<HistoryRow>, deviceId: int, tagId: int, since: string): seq<HistoryRow> {
    if rows == [] then []
    else
      var last := rows[|rows| - 1];
      Matching(rows[..|rows| - 1], deviceId, tagId, since) +
      (if last.deviceId == deviceId && last.tagId == tagId && !TextLess(last.sourceTimestamp, since)
       then [last] else [])
  }

  /** Put a row behind the rows whose timestamp is not later. */
  function InsertByTime(sorted: seq<HistoryRow>, row: HistoryRow): seq<HistoryRow> {
    if sorted == [] || !TextLess(row.sourceTimestamp, sorted[|sorted| - 1].sourceTimestamp) then sorted + [row]
    else InsertByTime(sorted[..|sorted| - 1], row) + [sorted[|sorted| - 1]]
  }

  /** ORDER BY source_timestamp ASC, equal timestamps in table order. */
  function SortByTime(rows: seq<HistoryRow>): seq<HistoryRow> {
    if rows == [] then [] else InsertByTime(SortByTime(rows[..|rows| - 1]), rows[|rows| - 1])
  }

  ghost predicate InTimeOrder(rows: seq<HistoryRow>)
    requires forall row :: row in rows ==> IsIso(row.sourceTimestamp)
  {
    forall i, j :: 0 <= i < j < |rows| ==> InstantOf(rows[i].sourceTimestamp) <= InstantOf(rows[j].sourceTimestamp)
  }

  /** No row's timestamp text sorts before that of an earlier row. */
  predicate InTextOrder(rows: seq<HistoryRow>) {
    forall i, j :: 0 <= i < j < |rows| ==> !TextLess(rows[j].sourceTimestamp, rows[i].sourceTimestamp)
  }

  /** The row goes in behind the last row that it does not sort before. */
  lemma {:induction false} InsertPosition(sorted: seq<HistoryRow>, row: HistoryRow) returns (p: nat)
    ensures p <= |sorted| && InsertByTime(sorted, row) == sorted[..p] + [row] + sorted[p..]
    ensures p > 0 ==> !TextLess(row.sourceTimestamp, sorted[p - 1].sourceTimestamp)
    ensures forall k :: p <= k < |sorted| ==> TextLess(row.sourceTimestamp, sorted[k].sourceTimestamp)
  {
    hide TextLess;
    var n := |sorted|;
    if n == 0 || !TextLess(row.sourceTimestamp, sorted[n - 1].sourceTimestamp) {
      p := n;
    } else {
      var init := sorted[..n - 1];
      p := InsertPosition(init, row);
      assert init[..p] == sorted[..p];
      assert init[p..] == sorted[p..n - 1];
      assert sorted[p..n - 1] + [sorted[n - 1]] == sorted[p..];
    }
  }

  lemma InsertKeepsRows(sorted: seq<HistoryRow>, row: HistoryRow)
    ensures multiset(InsertByTime(sorted, row)) == multiset(sorted) + multiset{row}
  {
    hide InsertByTime, TextLess;
    var p := InsertPosition(sorted, row);
    assert sorted == sorted[..p] + sorted[p..];
  }

  lemma InsertKeepsOrder(sorted: seq<HistoryRow>, row: HistoryRow)
    requires InTextOrder(sorted)
    ensures InTextOrder(InsertByTime(sorted, row))
  {
    hide InsertByTime, TextLess;
    var p := InsertPosition(sorted, row);
    var t := row.sourceTimestamp;
    forall k | 0 <= k < p ensures !TextLess(t, sorted[k].sourceTimestamp) {
      if k < p - 1 {
        NotLessIsTransitive(sorted[k].sourceTimestamp, sorted[p - 1].sourceTimestamp, t);
      }
    }
    forall k | p <= k < |sorted| ensures !TextLess(sorted[k].sourceTimestamp, t) {
      TextLessIsAsymmetric(t, sorted[k].sourceTimestamp);
    }
  }

  lemma {:induction false} SortKeepsRows(rows: seq<HistoryRow>)
    ensures multiset(SortByTime(rows)) == multiset(rows)
  {
    hide InsertByTime;
    if rows != [] {
      var init, last := rows[..|rows| - 1], rows[|rows| - 1];
      SortKeepsRows(init);
      InsertKeepsRows(SortByTime(init), last);
      assert rows == init + [last];
    }
  }

  lemma {:induction false} SortOrders(rows: seq<HistoryRow>)
    ensures InTextOrder(SortByTime(rows))
  {
    hide InsertByTime, TextLess;
    if rows != [] {
      SortOrders(rows[..|rows| - 1]);
      InsertKeepsOrder(SortByTime(rows[..|rows| - 1]), rows[|rows| - 1]);
    }
  }

  lemma TextOrderIsTimeOrder(rows: seq<HistoryRow>)
    requires InTextOrder(rows) && forall row :: row in rows ==> IsIso(row.sourceTimestamp)
    ensures InTimeOrder(rows)
  {
    hide IsIso, InstantOf, TextLess;
    forall i, j | 0 <= i < j < |rows|
      ensures InstantOf(rows[i].sourceTimestamp) <= InstantOf(rows[j].sourceTimestamp)
    {
      assert rows[i] in rows && rows[j] in rows;
      TextOrderIsInstantOrder(rows[j].sourceTimestamp, rows[i].sourceTimestamp);
    }
  }

  lemma {:induction false} MatchingMembers(rows: seq<HistoryRow>, deviceId: int, tagId: int, since: string)
    ensures forall row :: row in Matching(rows, deviceId, tagId, since) <==>
              row in rows && row.deviceId == deviceId && row.tagId == tagId && !TextLess(row.sourceTimestamp, since)
    ensures forall row :: multiset(Matching(rows, deviceId, tagId, since))[row]
                          == if row.deviceId == deviceId && row.tagId == tagId && !TextLess(row.sourceTimestamp, since)
                             then multiset(rows)[row] else 0
  {
    if rows != [] {
      MatchingMembers(rows[..|rows| - 1], deviceId, tagId, since);
      assert rows == rows[..|rows| - 1] + [rows[|rows| - 1]];
    }
  }

  lemma SameRows(a: seq<HistoryRow>, b: seq<HistoryRow>)
    requires multiset(a) == multiset(b)
    ensures forall row :: row in a <==> row in b
  {
    assert forall row :: row in a <==> row in multiset(a);
    assert forall row :: row in b <==> row in multiset(b);
  }

  /**
   * A query since an instant answers with exactly the pair's rows of that instant or later, as often
   * as they occur, oldest first - although it compares and sorts texts.
   */
  lemma RecentIsChronological(rows: seq<HistoryRow>, deviceId: int, tagId: int, since: string)
    requires IsIso(since) && forall row :: row in rows ==> IsIso(row.sourceTimestamp)
    ensures var answer := SortByTime(Matching(rows, deviceId, tagId, since));
            && (forall row :: row in answer <==>
                  row in rows && row.deviceId == deviceId && row.tagId == tagId
                  && InstantOf(row.sourceTimestamp) >= InstantOf(since))
            && (forall row :: row in answer ==> multiset(answer)[row] == multiset(rows)[row])
            && InTimeOrder(answer)
  {
    hide IsIso, InstantOf, TextLess, InsertByTime, SortByTime, Matching, InTextOrder, InTimeOrder;
    var matching := Matching(rows, deviceId, tagId, since);
    MatchingMembers(rows, deviceId, tagId, since);
    SortKeepsRows(matching);
    SortOrders(matching);
    var answer := SortByTime(matching);
    SameRows(matching, answer);
    TextOrderIsTimeOrder(answer);
    forall row ensures row in answer <==>
      row in rows && row.deviceId == deviceId && row.tagId == tagId
      && InstantOf(row.sourceTimestamp) >= InstantOf(since)
    {
      if row in rows {
        TextOrderIsInstantOrder(row.sourceTimestamp, since);
      }
    }
  }

  // ----- The module's functions -----

  class History {
    var rows: seq<HistoryRow>
    var lastId: nat

    ghost predicate Valid()
      reads this
    {
      forall row :: row in rows ==> IsIso(row.createdAt)
    }

    constructor ()
      ensures Valid() && rows == [] && lastId == 0
    {
      rows, lastId := [], 0;
    }

    method RecordReading(
      deviceId: int, tagId: int, value: Float, quality: string, sourceTimestamp: string, now: DateTime)
      returns (outcome: Result<(), HistoryError>)
      requires Valid() && ValidDate(now)
      modifies this
      ensures Valid()
      ensures outcome == if !(-0x8000_0000_0000_0000 <= deviceId <= 0x7FFF_FFFF_FFFF_FFFF)
                            || !(-0x8000_0000_0000_0000 <= tagId <= 0x7FFF_FFFF_FFFF_FFFF)
                         then Err(IntegerTooLarge)
                         else if value == NotANumber then Err(NotNullViolation)
                         else Ok(())
      ensures outcome.Err? ==> rows == old(rows) && lastId == old(lastId)
      ensures outcome.Ok? ==>
                && lastId == old(lastId) + 1
                && rows == old(rows)
                           + [HistoryRow(lastId, deviceId, tagId, value, quality, sourceTimestamp, Iso(now))]
    {
      hide IsIso, Iso;
      if !Fits64(deviceId) || !Fits64(tagId) {
        return Err(IntegerTooLarge);
      }
      if value.NotANumber? {
        return Err(NotNullViolation);
      }
      InstantOfIso(now);
      lastId := lastId + 1;
      rows := rows + [HistoryRow(lastId, deviceId, tagId, value, quality, sourceTimestamp, Iso(now))];
      outcome := Ok(());
    }

    /** Removes exactly the rows created more than thirty days before `now`. */
    method PruneOldHistory(now: DateTime) returns (removed: Result<nat, HistoryError>)
      requires Valid() && ValidDate(now)
      modifies this
      ensures Valid() && lastId == old(lastId)
      ensures removed.Err? <==> Ordinal(now) <= 30
      ensures removed.Err? ==> rows == old(rows)
      ensures removed.Ok? ==>
                && removed.value == |old(rows)| - |rows|
                && rows == CreatedSince(old(rows), Micros(now) - 30 * 86400000000)
    {
      hide IsIso, InstantOf, TextLess, Iso, Micros, MinusDays, Ordinal, KeepFrom, CreatedSince;
      MinusDaysIsExact(now, HISTORY_RETENTION_DAYS);
      match MinusDays(now, HISTORY_RETENTION_DAYS) {
        case None =>
          removed := Err(DateOverflow);
        case Some(cutoff) =>
          KeepFromKeepsSince(rows, cutoff);
          CreatedSinceMembers(rows, Micros(cutoff));
          var kept := KeepFrom(rows, Iso(cutoff));
          removed := Ok(|rows| - |kept|);
          rows := kept;
      }
    }

    /** `since` and the stored texts may be any texts; for timestamps see `RecentIsChronological`. */
    method GetRecentReadings(deviceId: int, tagId: int, since: string)
      returns (answer: Result<seq<HistoryRow>, HistoryError>)
      ensures answer.Err? <==>
                || !(-0x8000_0000_0000_0000 <= deviceId <= 0x7FFF_FFFF_FFFF_FFFF)
                || !(-0x8000_0000_0000_0000 <= tagId <= 0x7FFF_FFFF_FFFF_FFFF)
      ensures answer.Err? ==> answer.error == IntegerTooLarge
      ensures answer.Ok? ==>
                && (forall row :: multiset(answer.value)[row]
                                  == if row.deviceId == deviceId && row.tagId == tagId
                                        && !TextLess(row.sourceTimestamp, since)
                                     then multiset(rows)[row] else 0)
                && InTextOrder(answer.value)
                && answer.value == SortByTime(Matching(rows, deviceId, tagId, since))
    {
      hide InTextOrder, SortByTime, Matching, TextLess;
      MatchingMembers(rows, deviceId, tagId, since);
      if !Fits64(deviceId) || !Fits64(tagId) {
        return Err(IntegerTooLarge);
      }
      SortKeepsRows(Matching(rows, deviceId, tagId, since));
      SortOrders(Matching(rows, deviceId, tagId, since));
      answer := Ok(SortByTime(Matching(rows, deviceId, tagId, since)));
    }
  }
}
