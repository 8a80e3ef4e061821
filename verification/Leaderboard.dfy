/** Tournament leaderboards (nextendo-nex/ranking_board.go): score submissions, the boards they
    build up, and the page the console displays.

    The time of a submission and the calendar date of an instant are inputs; the file the boards
    are saved to is not part of the model.
 */
module Leaderboard {
  import opened Bytes

  const PROFILE_LEN: nat := 132
  const ROW_LEN: nat := 164
  const MAX_ROWS: nat := 100

  // ---- submissions --------------------------------------------------------

  datatype Key = Key(tournament: u32, category: u32)

  datatype Score = Score(key: Key, score: u32, profile: bytes)

  function Word(b: bytes, at: nat): u32
    requires at + 4 <= |b|
  {
    FromLe32(b[at..at + 4])
  }

  function ParseScore(body: bytes): Option<Score> {
    if |body| < 0x1D + PROFILE_LEN || FromLe16(body[0x1B..0x1D]) != PROFILE_LEN || Word(body, 0x05) == 0 then None
    else Some(Score(Key(Word(body, 0x05), Word(body, 0x09)), Word(body, 0x11), body[0x1D..0x1D + PROFILE_LEN]))
  }

  datatype Submission = Submission(pid: u64, body: bytes, at: int)

  /** A body as a console puts it together: five bytes, tournament and category, four bytes, the score, six bytes,
      the profile with its length in front, and anything behind. */
  datatype ScoreBody = ScoreBody(
    front: bytes, tournament: u32, category: u32, gap: bytes, score: u32, flags: bytes, profile: bytes, rest: bytes)

  predicate WellSized(y: ScoreBody) { |y.front| == 5 && |y.gap| == 4 && |y.flags| == 6 && |y.profile| == 132 }

  function BodyParts(y: ScoreBody): seq<bytes> {
    [y.front, Le32(y.tournament), Le32(y.category), y.gap, Le32(y.score), y.flags, Le16(132), y.profile, y.rest]
  }

  function BodyBytes(y: ScoreBody): bytes { Flatten(BodyParts(y)) }

  lemma BodyPlaces(y: ScoreBody)
    requires WellSized(y)
    ensures var b := BodyBytes(y);
            && |b| == 0xA1 + |y.rest|
            && b[0x05..0x09] == Le32(y.tournament) && b[0x09..0x0D] == Le32(y.category)
            && b[0x11..0x15] == Le32(y.score)
            && b[0x1B..0x1D] == Le16(132) && b[0x1D..0xA1] == y.profile
            && b[0..5] == y.front && b[0x0D..0x11] == y.gap && b[0x15..0x1B] == y.flags && b[0xA1..|b|] == y.rest
  {
    hide Le16;
    hide Le32;
    hide Flatten;
    var parts := BodyParts(y);
    assert |Flatten(parts[..0])| == 0 by { assert parts[..0] == []; NoParts(); }
    PartAt(parts, 0);
    PartAt(parts, 1);
    PartAt(parts, 2);
    PartAt(parts, 3);
    PartAt(parts, 4);
    PartAt(parts, 5);
    PartAt(parts, 6);
    PartAt(parts, 7);
    PartAt(parts, 8);
    assert parts[..9] == parts;
  }

  lemma NoParts()
    ensures Flatten([]) == []
  {
  }

  /** Such a body says just that, unless it names no tournament. */
  lemma ScoreRead(y: ScoreBody)
    requires WellSized(y)
    ensures ParseScore(BodyBytes(y)) == if y.tournament == 0 then None
                                        else Some(Score(Key(y.tournament, y.category), y.score, y.profile))
  {
    Le32RoundTrip(y.tournament);
    Le32RoundTrip(y.category);
    Le32RoundTrip(y.score);
    Le16RoundTrip(132);
    hide Le16;
    hide Le32;
    hide FromLe16;
    hide FromLe32;
    BodyPlaces(y);
    hide BodyBytes;
  }

  lemma LeBack(b: bytes)
    ensures |b| == 2 ==> Le16(FromLe16(b)) == b
    ensures |b| == 4 ==> Le32(FromLe32(b)) == b
  {
    if |b| == 4 {
      var lo, hi := FromLe16(b[..2]), FromLe16(b[2..]);
      assert FromLe32(b) % 0x1_0000 == lo && FromLe32(b) / 0x1_0000 == hi;
      assert b == b[..2] + b[2..];
    }
  }

  /** And no other body says anything. */
  lemma ReadScore(body: bytes) returns (y: ScoreBody)
    requires ParseScore(body).Some?
    ensures WellSized(y) && y.tournament != 0 && BodyBytes(y) == body
  {
    y := ScoreBody(body[..5], Word(body, 5), Word(body, 9), body[0x0D..0x11], Word(body, 0x11), body[0x15..0x1B],
                   body[0x1D..0xA1], body[0xA1..]);
    LeBack(body[5..9]);
    LeBack(body[9..0x0D]);
    LeBack(body[0x11..0x15]);
    LeBack(body[0x1B..0x1D]);
    hide Le16;
    hide Le32;
    hide FromLe16;
    hide FromLe32;
    var b := BodyBytes(y);
    BodyPlaces(y);
    hide BodyBytes;
    Agree(b, body, 0, 5);
    Agree(b, body, 5, 9);
    Agree(b, body, 9, 0x0D);
    Agree(b, body, 0x0D, 0x11);
    Agree(b, body, 0x11, 0x15);
    Agree(b, body, 0x15, 0x1B);
    Agree(b, body, 0x1B, 0x1D);
    Agree(b, body, 0x1D, 0xA1);
    Agree(b, body, 0xA1, |body|);
  }

  lemma Agree(a: bytes, b: bytes, i: nat, j: nat)
    requires i <= j <= |a| && j <= |b| && a[i..j] == b[i..j]
    ensures forall k :: i <= k < j ==> a[k] == b[k]
  {
    forall k | i <= k < j ensures a[k] == b[k] { assert a[k] == a[i..j][k - i] && b[k] == b[i..j][k - i]; }
  }

  // ---- boards -------------------------------------------------------------

  datatype Row = Row(pid: u64, score: u32, profile: bytes, at: int)

  type Rows = map<u64, Row>
  type Boards = map<Key, Rows>

  function RowsOf(b: Boards, k: Key): Rows { if k in b then b[k] else map[] }

  /** A better score replaces the player's row; any other refreshes its profile. */
  function Improved(rows: Rows, pid: u64, s: Score, at: int): Row {
    if pid in rows && rows[pid].score >= s.score then rows[pid].(profile := s.profile)
    else Row(pid, s.score, s.profile, at)
  }

  function Record(b: Boards, sub: Submission): Boards {
    match ParseScore(sub.body)
    case None => b
    case Some(s) =>
      var rows := RowsOf(b, s.key);
      b[s.key := rows[sub.pid := Improved(rows, sub.pid, s, sub.at)]]
  }

  function RecordAll(h: seq<Submission>): Boards {
    if h == [] then map[] else Record(RecordAll(h[..|h| - 1]), h[|h| - 1])
  }

  // ---- what a board says about its history --------------------------------

  predicate Concerns(sub: Submission, k: Key, pid: u64) {
    sub.pid == pid && ParseScore(sub.body).Some? && ParseScore(sub.body).value.key == k
  }

  function ScoreOf(sub: Submission): u32
    requires ParseScore(sub.body).Some?
  {
    ParseScore(sub.body).value.score
  }

  /** `i` is where the player's best score on the board was first reached. */
  predicate FirstBest(h: seq<Submission>, k: Key, pid: u64, i: nat) {
    && i < |h| && Concerns(h[i], k, pid)
    && (forall j :: 0 <= j < |h| && Concerns(h[j], k, pid) ==> ScoreOf(h[j]) <= ScoreOf(h[i]))
    && (forall j :: 0 <= j < i && Concerns(h[j], k, pid) ==> ScoreOf(h[j]) < ScoreOf(h[i]))
  }

  /** `i` is the player's latest submission to the board. */
  predicate Latest(h: seq<Submission>, k: Key, pid: u64, i: nat) {
    i < |h| && Concerns(h[i], k, pid) && forall j :: i < j < |h| ==> !Concerns(h[j], k, pid)
  }

  /** The row a player must have on a board after a history. */
  ghost predicate Sums(h: seq<Submission>, k: Key, pid: u64, row: Row) {
    && (exists i: nat :: FirstBest(h, k, pid, i) && row.score == ScoreOf(h[i]) && row.at == h[i].at)
    && (exists i: nat :: Latest(h, k, pid, i) && row.profile == ParseScore(h[i].body).value.profile)
    && row.pid == pid
  }

  predicate Submitted(h: seq<Submission>, k: Key, pid: u64) {
    exists i :: 0 <= i < |h| && Concerns(h[i], k, pid)
  }

  lemma FirstBestSnoc(h: seq<Submission>, sub: Submission, k: Key, pid: u64, i: nat)
    requires FirstBest(h, k, pid, i) && Concerns(sub, k, pid)
    ensures if ScoreOf(sub) > ScoreOf(h[i]) then FirstBest(h + [sub], k, pid, |h|) else FirstBest(h + [sub], k, pid, i)
  {
    hide ParseScore;
    var h' := h + [sub];
    assert forall j :: 0 <= j < |h| ==> h'[j] == h[j];
  }

  lemma UnconcernedSnoc(h: seq<Submission>, sub: Submission, k: Key, pid: u64, row: Row)
    requires !Concerns(sub, k, pid)
    ensures Sums(h, k, pid, row) ==> Sums(h + [sub], k, pid, row)
    ensures Submitted(h + [sub], k, pid) <==> Submitted(h, k, pid)
  {
    hide ParseScore;
    var h' := h + [sub];
    assert forall j :: 0 <= j < |h| ==> h'[j] == h[j];
    if Sums(h, k, pid, row) {
      var i: nat :| FirstBest(h, k, pid, i) && row.score == ScoreOf(h[i]) && row.at == h[i].at;
      assert FirstBest(h', k, pid, i) && h'[i] == h[i];
      var l: nat :| Latest(h, k, pid, l) && row.profile == ParseScore(h[l].body).value.profile;
      assert Latest(h', k, pid, l) && h'[l] == h[l];
    }
  }

  lemma FirstSubmission(h: seq<Submission>, sub: Submission, k: Key, pid: u64)
    requires !Submitted(h, k, pid) && Concerns(sub, k, pid)
    ensures FirstBest(h + [sub], k, pid, |h|)
  {
    hide ParseScore;
    hide Concerns;
    var h' := h + [sub];
    assert forall j :: 0 <= j < |h| ==> h'[j] == h[j];
  }

  lemma LatestSnoc(h: seq<Submission>, sub: Submission, k: Key, pid: u64)
    requires Concerns(sub, k, pid)
    ensures Latest(h + [sub], k, pid, |h|) && Submitted(h + [sub], k, pid)
  {
    assert (h + [sub])[|h|] == sub;
  }

  lemma ImprovedSums(h: seq<Submission>, sub: Submission, k: Key, rows: Rows)
    requires Concerns(sub, k, sub.pid)
    requires sub.pid in rows <==> Submitted(h, k, sub.pid)
    requires sub.pid in rows ==> Sums(h, k, sub.pid, rows[sub.pid])
    ensures Sums(h + [sub], k, sub.pid, Improved(rows, sub.pid, ParseScore(sub.body).value, sub.at))
  {
    hide ParseScore;
    var pid := sub.pid;
    var h' := h + [sub];
    LatestSnoc(h, sub, k, pid);
    hide Latest;
    if pid in rows {
      var i: nat :| FirstBest(h, k, pid, i) && rows[pid].score == ScoreOf(h[i]) && rows[pid].at == h[i].at;
      FirstBestSnoc(h, sub, k, pid, i);
      hide FirstBest;
      assert h'[i] == h[i] && h'[|h|] == sub;
    } else {
      FirstSubmission(h, sub, k, pid);
      hide FirstBest;
      assert h'[|h|] == sub;
    }
  }

  /** After any history, a player is on a board exactly when one of its submissions names it, with
      the best score submitted, the time at which that score was first reached and the latest profile. */
  lemma {:induction false} BoardHistory(h: seq<Submission>, k: Key, pid: u64)
    ensures var rows := RowsOf(RecordAll(h), k);
            && (pid in rows <==> Submitted(h, k, pid))
            && (pid in rows ==> Sums(h, k, pid, rows[pid]))
    decreases |h|
  {
    hide ParseScore;
    if h == [] {
    } else {
      var before, sub := h[..|h| - 1], h[|h| - 1];
      assert h == before + [sub];
      BoardHistory(before, k, pid);
      var rows := RowsOf(RecordAll(before), k);
      if Concerns(sub, k, pid) {
        ImprovedSums(before, sub, k, rows);
        LatestSnoc(before, sub, k, pid);
      } else {
        UnconcernedSnoc(before, sub, k, pid, if pid in rows then rows[pid] else Row(0, 0, [], 0));
      }
      hide Sums;
      hide Submitted;
    }
  }

  // ---- the order of a board -----------------------------------------------

  /** Higher scores first; at equal scores the earlier one. */
  predicate Before(a: Row, b: Row) { a.score > b.score || (a.score == b.score && a.at < b.at) }

  predicate Ordered(rows: seq<Row>) { forall i, j :: 0 <= i < j < |rows| ==> !Before(rows[j], rows[i]) }

  /** The order shown: by falling score, and by time where scores are equal. */
  lemma OrderedExactly(rows: seq<Row>)
    ensures Ordered(rows) <==>
              forall i, j :: 0 <= i < j < |rows| ==>
                rows[i].score > rows[j].score || (rows[i].score == rows[j].score && rows[i].at <= rows[j].at)
  {
  }

  predicate DistinctPlayers(rows: seq<Row>) { forall i, j :: 0 <= i < j < |rows| ==> rows[i].pid != rows[j].pid }

  function Insert(rows: seq<Row>, r: Row, k: nat): seq<Row>
    requires k <= |rows|
  {
    rows[..k] + [r] + rows[k..]
  }

  lemma InsertAt(rows: seq<Row>, r: Row, k: nat, m: nat)
    requires k <= |rows| && m <= |rows|
    ensures Insert(rows, r, k)[m] == if m < k then rows[m] else if m == k then r else rows[m - 1]
  {
  }

  lemma InsertOrdered(rows: seq<Row>, r: Row, k: nat)
    requires Ordered(rows) && k <= |rows| && (forall i :: 0 <= i < k ==> !Before(r, rows[i]))
    requires k < |rows| ==> Before(r, rows[k])
    ensures Ordered(Insert(rows, r, k))
  {
    var out := Insert(rows, r, k);
    assert forall j :: k <= j < |rows| ==> !Before(rows[j], r);
    forall i, j | 0 <= i < j < |out| ensures !Before(out[j], out[i]) {
      InsertAt(rows, r, k, i);
      InsertAt(rows, r, k, j);
      hide Insert;
    }
  }

  lemma Inserted(rows: seq<Row>, r: Row, k: nat)
    requires Ordered(rows) && DistinctPlayers(rows) && (forall x :: x in rows ==> x.pid != r.pid)
    requires k <= |rows| && (forall i :: 0 <= i < k ==> !Before(r, rows[i])) && (k < |rows| ==> Before(r, rows[k]))
    ensures var out := Insert(rows, r, k);
            Ordered(out) && DistinctPlayers(out) && |out| == |rows| + 1 && forall x :: x in out <==> x in rows || x == r
  {
    InsertOrdered(rows, r, k);
    var out := Insert(rows, r, k);
    forall i, j | 0 <= i < j < |out| ensures out[i].pid != out[j].pid {
      InsertAt(rows, r, k, i);
      InsertAt(rows, r, k, j);
      assert forall m :: 0 <= m < |rows| ==> rows[m] in rows;
      hide Insert;
    }
    assert rows == rows[..k] + rows[k..];
  }

  method InsertRow(rows: seq<Row>, r: Row) returns (out: seq<Row>)
    requires Ordered(rows) && DistinctPlayers(rows) && (forall x :: x in rows ==> x.pid != r.pid)
    ensures Ordered(out) && DistinctPlayers(out) && |out| == |rows| + 1
    ensures forall x :: x in out <==> x in rows || x == r
  {
    var k := 0;
    while k < |rows| && !Before(r, rows[k])
      invariant 0 <= k <= |rows|
      invariant forall i :: 0 <= i < k ==> !Before(r, rows[i])
    {
      k := k + 1;
    }
    out := rows[..k] + [r] + rows[k..];
    Inserted(rows, r, k);
  }

  /** Some ordering of the rows; which of two tied rows comes first is left open. */
  method SortRows(rows: seq<Row>) returns (out: seq<Row>)
    requires DistinctPlayers(rows)
    ensures Ordered(out) && DistinctPlayers(out) && |out| == |rows|
    ensures forall x :: x in out <==> x in rows
  {
    out := [];
    for i := 0 to |rows|
      invariant Ordered(out) && DistinctPlayers(out) && |out| == i
      invariant forall x :: x in out <==> x in rows[..i]
    {
      assert rows[..i + 1] == rows[..i] + [rows[i]];
      out := InsertRow(out, rows[i]);
    }
    assert rows[..|rows|] == rows;
  }

  predicate OwnRows(rows: Rows) { forall p :: p in rows ==> rows[p].pid == p }

  /** The first min(n, 100) rows in order, each player once; whoever is left out comes before nobody listed. */
  predicate TopOf(rows: Rows, out: seq<Row>) {
    && |out| == (if |rows| > MAX_ROWS then MAX_ROWS else |rows|)
    && Ordered(out) && DistinctPlayers(out)
    && (forall i :: 0 <= i < |out| ==> out[i].pid in rows && rows[out[i].pid] == out[i])
    && (forall p, i :: p in rows && rows[p] !in out && 0 <= i < |out| ==> !Before(rows[p], out[i]))
  }

  lemma LeftOut(all: seq<Row>, n: nat, r: Row, i: nat)
    requires Ordered(all) && i < n <= |all| && r in all && r !in all[..n]
    ensures !Before(r, all[i])
  {
    var j :| 0 <= j < |all| && all[j] == r;
    assert forall m :: 0 <= m < n ==> all[..n][m] == all[m];
    assert j >= n;
  }

  lemma PrefixKeeps(all: seq<Row>, n: nat)
    requires Ordered(all) && DistinctPlayers(all) && n <= |all|
    ensures Ordered(all[..n]) && DistinctPlayers(all[..n])
  {
  }

  lemma TopOfSorted(rows: Rows, all: seq<Row>, n: nat)
    requires OwnRows(rows) && Ordered(all) && DistinctPlayers(all) && |all| == |rows|
    requires forall x :: x in all <==> x.pid in rows && rows[x.pid] == x
    requires n == if |rows| > MAX_ROWS then MAX_ROWS else |rows|
    ensures TopOf(rows, all[..n])
  {
    PrefixKeeps(all, n);
    var out := all[..n];
    forall i | 0 <= i < |out| ensures out[i].pid in rows && rows[out[i].pid] == out[i] { assert all[i] in all; }
    forall p, i | p in rows && rows[p] !in out && 0 <= i < |out| ensures !Before(rows[p], out[i]) {
      LeftOut(all, n, rows[p], i);
    }
    hide Ordered;
    hide DistinctPlayers;
    hide Before;
  }

  method CollectRows(rows: Rows) returns (out: seq<Row>)
    requires OwnRows(rows)
    ensures DistinctPlayers(out) && |out| == |rows|
    ensures forall x :: x in out <==> x.pid in rows && rows[x.pid] == x
  {
    out := [];
    var todo := rows.Keys;
    while todo != {}
      invariant todo <= rows.Keys && |out| + |todo| == |rows| && DistinctPlayers(out)
      invariant forall x :: x in out <==> x.pid in rows && x.pid !in todo && rows[x.pid] == x
      decreases todo
    {
      var p :| p in todo;
      assert forall i :: 0 <= i < |out| ==> out[i] in out;
      out := out + [rows[p]];
      todo := todo - {p};
    }
  }

  lemma {:induction false} RecordedRows(h: seq<Submission>, k: Key)
    ensures OwnRows(RowsOf(RecordAll(h), k))
    ensures forall p :: p in RowsOf(RecordAll(h), k) ==> |RowsOf(RecordAll(h), k)[p].profile| == PROFILE_LEN
    decreases |h|
  {
    if h == [] {
    } else {
      RecordedRows(h[..|h| - 1], k);
      hide Word;
    }
  }

  // ---- the boards as an object --------------------------------------------

  class BoardTable {
    var boards: Boards
    ghost var history: seq<Submission>

    ghost predicate Valid()
      reads this
    {
      boards == RecordAll(history)
    }

    constructor ()
      ensures Valid() && history == []
    {
      boards, history := map[], [];
    }

    method RecordScore(pid: u64, body: bytes, at: int) returns (ok: bool)
      requires Valid()
      modifies this
      ensures Valid() && history == old(history) + [Submission(pid, body, at)]
      ensures ok <==> ParseScore(body).Some?
    {
      hide ParseScore;
      ghost var sub := Submission(pid, body, at);
      assert (history + [sub])[..|history|] == history;
      history := history + [sub];
      var parsed := ParseScore(body);
      if parsed.None? { return false; }
      var s := parsed.value;
      if s.key !in boards { boards := boards[s.key := map[]]; }
      var rows := boards[s.key];
      if pid in rows && rows[pid].score >= s.score {
        boards := boards[s.key := rows[pid := rows[pid].(profile := s.profile)]];
      } else {
        boards := boards[s.key := rows[pid := Row(pid, s.score, s.profile, at)]];
      }
      return true;
    }

    /** A board shows the top of what its history adds up to. */
    method BoardFor(k: Key) returns (out: seq<Row>)
      requires Valid()
      ensures TopOf(RowsOf(boards, k), out)
      ensures forall i :: 0 <= i < |out| ==> Sums(history, k, out[i].pid, out[i]) && |out[i].profile| == PROFILE_LEN
    {
      hide RecordAll;
      RecordedRows(history, k);
      var rows := if k in boards then boards[k] else map[];
      out := CollectRows(rows);
      var all := SortRows(out);
      var n := if |all| > MAX_ROWS then MAX_ROWS else |all|;
      TopOfSorted(rows, all, n);
      out := all[..n];
      forall i | 0 <= i < |out|
        ensures Sums(history, k, out[i].pid, out[i]) && |out[i].profile| == PROFILE_LEN
      {
        BoardHistory(history, k, out[i].pid);
      }
    }
  }

  // ---- the page -----------------------------------------------------------

  /** A profile at its fixed length: cut or filled with zeros. */
  function Fixed(profile: bytes): (p: bytes)
    ensures |p| == PROFILE_LEN
    ensures |profile| == PROFILE_LEN ==> p == profile
  {
    if |profile| >= PROFILE_LEN then profile[..PROFILE_LEN] else profile + seq(PROFILE_LEN - |profile|, _ => 0)
  }

  function RowBytes(rank: u32, r: Row, date: u64): (b: bytes)
    ensures |b| == ROW_LEN
  {
    [0] + Le32(159) + Le32(rank) + Le64(r.pid) + Le32(r.score) + Le64(date) + [0xFF] + Le16(132) + Fixed(r.profile)
  }

  function Wrapped(n: nat): u32 { n % 0x1_0000_0000 }

  function RowsBytes(rows: seq<Row>, date: int -> u64): bytes {
    if rows == [] then []
    else RowsBytes(rows[..|rows| - 1], date)
         + RowBytes(Wrapped(|rows|), rows[|rows| - 1], date(rows[|rows| - 1].at))
  }

  const PADDING: bytes := [0, 0, 0, 0, 0, 0, 0, 0, 0, 0, 0, 0, 0, 0, 0, 0]

  function Page(category: u32, rows: seq<Row>, date: int -> u64): bytes {
    Le32(category) + Le32(Wrapped(|rows|)) + RowsBytes(rows, date) + (Le32(Wrapped(|rows|)) + Le32(4) + PADDING)
  }

  function BoardBytes(category: u32, rows: seq<Row>, date: int -> u64): bytes {
    Le32(1) + [0] + Le32(Wrapped(|Page(category, rows, date)|)) + Page(category, rows, date)
  }

  method WriteBoard(category: u32, rows: seq<Row>, date: int -> u64) returns (b: bytes)
    ensures b == BoardBytes(category, rows, date)
  {
    hide RowBytes;
    hide Le32;
    var page := Le32(category) + Le32(Wrapped(|rows|));
    ghost var start := page;
    for i := 0 to |rows|
      invariant page == start + RowsBytes(rows[..i], date)
    {
      assert rows[..i + 1][..i] == rows[..i] && rows[..i + 1][i] == rows[i];
      var e := RowBytes(Wrapped(i + 1), rows[i], date(rows[i].at));
      Assoc(start, RowsBytes(rows[..i], date), e);
      page := page + e;
    }
    assert rows[..|rows|] == rows;
    page := page + (Le32(Wrapped(|rows|)) + Le32(4) + PADDING);
    b := Le32(1) + [0] + Le32(Wrapped(|page|)) + page;
  }

  lemma {:induction false} RowsSlices(rows: seq<Row>, date: int -> u64, i: nat)
    ensures |RowsBytes(rows, date)| == ROW_LEN * |rows|
    ensures i < |rows| ==>
              ROW_LEN * i + ROW_LEN <= |RowsBytes(rows, date)|
              && RowsBytes(rows, date)[ROW_LEN * i..ROW_LEN * i + ROW_LEN]
                 == RowBytes(Wrapped(i + 1), rows[i], date(rows[i].at))
    decreases |rows|
  {
    hide RowBytes;
    if rows == [] {
    } else {
      var init := rows[..|rows| - 1];
      RowsSlices(init, date, i);
      var last := RowBytes(Wrapped(|rows|), rows[|rows| - 1], date(rows[|rows| - 1].at));
      assert RowsBytes(rows, date) == RowsBytes(init, date) + last;
      if i < |init| {
        FrontSlice(RowsBytes(init, date), last, ROW_LEN * i, ROW_LEN * i + ROW_LEN);
      }
    }
  }

  lemma FrontSlice(a: bytes, b: bytes, i: nat, j: nat)
    requires i <= j <= |a|
    ensures (a + b)[i..j] == a[i..j]
  {
  }

  /** A board of k rows is 41 + 164 k bytes long, and its rows lie one after the other with ranks from one. */
  lemma BoardLayout(category: u32, rows: seq<Row>, date: int -> u64, i: nat)
    ensures |BoardBytes(category, rows, date)| == 41 + ROW_LEN * |rows|
    ensures i < |rows| ==>
              17 + ROW_LEN * i + ROW_LEN <= |BoardBytes(category, rows, date)|
              && BoardBytes(category, rows, date)[17 + ROW_LEN * i..17 + ROW_LEN * i + ROW_LEN]
                 == RowBytes(Wrapped(i + 1), rows[i], date(rows[i].at))
  {
    hide RowBytes;
    hide Le32;
    RowsSlices(rows, date, i);
    hide RowsBytes;
    var body := RowsBytes(rows, date);
    var page := Page(category, rows, date);
    var b := BoardBytes(category, rows, date);
    assert |page| == 32 + |body| && |b| == 9 + |page|;
    if i < |rows| {
      MidSlice(Le32(category) + Le32(Wrapped(|rows|)), body, Le32(Wrapped(|rows|)) + Le32(4) + PADDING,
               ROW_LEN * i, ROW_LEN * i + ROW_LEN);
      TailSlice(Le32(1) + [0] + Le32(Wrapped(|page|)), page, 8 + ROW_LEN * i, 8 + ROW_LEN * i + ROW_LEN);
    }
  }

  lemma MidSlice(a: bytes, b: bytes, c: bytes, i: nat, j: nat)
    requires i <= j <= |b|
    ensures |a| + j <= |a + b + c| && (a + b + c)[|a| + i..|a| + j] == b[i..j]
  {
  }

  lemma TailSlice(a: bytes, b: bytes, i: nat, j: nat)
    requires i <= j <= |b|
    ensures (a + b)[|a| + i..|a| + j] == b[i..j]
  {
  }

  /** A profile at its fixed length starts with the profile, as far as it fits, and ends with zeros. */
  lemma FixedExactly(profile: bytes)
    ensures var p := Fixed(profile);
            && |p| == 132
            && forall k :: 0 <= k < 132 ==> p[k] == if k < |profile| then profile[k] else 0
  {
  }

  /** A row is a structure of 159 bytes behind its version and length; it reads back to its rank, player, score, date
      and profile. */
  lemma RowBack(rank: u32, r: Row, date: u64)
    ensures var b := RowBytes(rank, r, date);
            && b[0] == 0 && Word(b, 1) == 159 && |b| == 5 + 159 && b[29] == 0xFF
            && Word(b, 5) == rank && FromLe64(b[9..17]) == r.pid && Word(b, 17) == r.score
            && FromLe64(b[21..29]) == date && FromLe16(b[30..32]) == PROFILE_LEN && b[32..] == Fixed(r.profile)
  {
    Le32RoundTrip(rank);
    Le64RoundTrip(r.pid);
    Le32RoundTrip(r.score);
    Le64RoundTrip(date);
    Le16RoundTrip(132);
    Le32RoundTrip(159);
    hide Le32;
    hide Le64;
    hide FromLe32;
    hide FromLe64;
    var b := RowBytes(rank, r, date);
    assert b[1..5] == Le32(159);
    assert b[5..9] == Le32(rank) && b[9..17] == Le64(r.pid) && b[17..21] == Le32(r.score);
    assert b[21..29] == Le64(date) && b[30..32] == Le16(132);
  }

  function PageHead(size: u32, category: u32, count: u32): bytes {
    Le32(1) + [0] + Le32(size) + Le32(category) + Le32(count)
  }

  function PageTail(count: u32): bytes { Le32(count) + Le32(4) + PADDING }

  lemma HeadWords(size: u32, category: u32, count: u32)
    ensures var h := PageHead(size, category, count);
            && |h| == 17 && h[0..4] == Le32(1) && h[4] == 0 && h[5..9] == Le32(size)
            && h[9..13] == Le32(category) && h[13..17] == Le32(count)
  {
    hide Le32;
  }

  lemma TailWords(count: u32)
    ensures var t := PageTail(count);
            |t| == 24 && t[0..4] == Le32(count) && t[4..8] == Le32(4) && forall k :: 8 <= k < 24 ==> t[k] == 0
  {
    hide Le32;
  }

  lemma WholePage(category: u32, rows: seq<Row>, date: int -> u64, count: u32)
    requires count == |rows|
    ensures Page(category, rows, date) == Le32(category) + Le32(count) + RowsBytes(rows, date) + PageTail(count)
  {
    hide Le32;
    hide RowsBytes;
    hide PADDING;
  }

  lemma RowsSize(rows: seq<Row>, date: int -> u64)
    ensures |RowsBytes(rows, date)| == 164 * |rows|
  {
    RowsSlices(rows, date, 0);
  }

  lemma PageSize(category: u32, rows: seq<Row>, date: int -> u64, count: u32)
    requires count == |rows|
    ensures |Page(category, rows, date)| == 32 + 164 * count
  {
    hide RowsBytes;
    RowsSize(rows, date);
    WholePage(category, rows, date, count);
    TailWords(count);
    hide Page;
    hide PageTail;
  }

  lemma PageParts(category: u32, rows: seq<Row>, date: int -> u64, count: u32, size: u32)
    requires count == |rows| && size == 32 + 164 * count
    ensures BoardBytes(category, rows, date)
         == PageHead(size, category, count) + RowsBytes(rows, date) + PageTail(count)
  {
    hide Le32;
    hide RowsBytes;
    hide Page;
    hide PageTail;
    PageSize(category, rows, date, count);
    WholePage(category, rows, date, count);
    assert Wrapped(|Page(category, rows, date)|) == size;
    Around4(Le32(1) + [0] + Le32(size), Le32(category), Le32(count), RowsBytes(rows, date), PageTail(count));
  }

  lemma Around4(a: bytes, b: bytes, c: bytes, d: bytes, e: bytes)
    ensures a + (b + c + d + e) == a + b + c + d + e
  {
  }

  /** What stands around the rows: one page of version 0 with its length, the category and the number of rows in front;
      the number of rows again, a 4 and sixteen zeros behind. */
  lemma PageFrame(category: u32, rows: seq<Row>, date: int -> u64)
    requires |rows| < 0x100_0000
    ensures var b := BoardBytes(category, rows, date);
            var n := |b|;
            && n == 41 + 164 * |rows|
            && b[0..4] == Le32(1) && b[4] == 0 && b[5..9] == Le32(n - 9)
            && b[9..13] == Le32(category) && b[13..17] == Le32(|rows|)
            && b[n - 24..n - 20] == Le32(|rows|) && b[n - 20..n - 16] == Le32(4)
            && forall k :: n - 16 <= k < n ==> b[k] == 0
  {
    hide Le32;
    var size := 32 + 164 * |rows|;
    PageParts(category, rows, date, |rows|, size);
    RowsSize(rows, date);
    hide BoardBytes;
    hide RowsBytes;
    var head, mid, tail := PageHead(size, category, |rows|), RowsBytes(rows, date), PageTail(|rows|);
    HeadWords(size, category, |rows|);
    TailWords(|rows|);
    hide PageHead;
    hide PageTail;
    var b := BoardBytes(category, rows, date);
    Around(head, mid, tail);
    var at := 17 + |mid|;
    assert b[0..4] == head[0..4] && b[5..9] == head[5..9] && b[9..13] == head[9..13] && b[13..17] == head[13..17];
    assert b[at..at + 4] == tail[0..4] && b[at + 4..at + 8] == tail[4..8];
  }

  lemma Around(front: bytes, mid: bytes, tail: bytes)
    ensures var b := front + mid + tail;
            var at := |front| + |mid|;
            && (forall k :: 0 <= k < |front| ==> b[k] == front[k])
            && (forall k :: at <= k < |b| ==> b[k] == tail[k - at])
  {
  }

  // ---- which category is shown --------------------------------------------

  /** A category the source may pick for a tournament: any that has a board, 0 if none has. */
  predicate Picks(b: Boards, tournament: u32, category: u32) {
    || Key(tournament, category) in b
    || (category == 0 && forall k :: k in b ==> k.tournament != tournament)
  }

  predicate OneCategory(b: Boards, tournament: u32) {
    forall k, l :: k in b && l in b && k.tournament == tournament && l.tournament == tournament ==> k == l
  }

  /** A tournament without boards shows category 0. */
  lemma NothingToPick(b: Boards, tournament: u32, category: u32)
    requires forall k :: k in b ==> k.tournament != tournament
    ensures Picks(b, tournament, category) <==> category == 0
  {
  }

  lemma {:induction false} BoardsGrow(h: seq<Submission>, more: seq<Submission>)
    ensures RecordAll(h).Keys <= RecordAll(h + more).Keys
    decreases |more|
  {
    hide ParseScore;
    if more == [] {
      assert h + more == h;
    } else {
      var init := more[..|more| - 1];
      assert (h + more)[..|h + more| - 1] == h + init;
      BoardsGrow(h, init);
    }
  }

  /** A page shows the rows of a category `c` picked from the boards `b`, read from later boards `mid`, under a
      label picked anew from still later ones; the label is bound to be `c` exactly when the tournament has no
      other category by then. */
  lemma LabelExact(b: Boards, mid: Boards, later: Boards, tournament: u32, c: u32)
    requires b.Keys <= mid.Keys <= later.Keys && Picks(b, tournament, c) && Key(tournament, c) in mid
    ensures (forall d :: Picks(later, tournament, d) ==> d == c) <==> OneCategory(later, tournament)
  {
    assert Key(tournament, c) in later && Picks(later, tournament, c);
    if !OneCategory(later, tournament) {
      var k, l :| k in later && l in later && k.tournament == tournament && l.tournament == tournament && k != l;
      assert Key(tournament, k.category) == k && Key(tournament, l.category) == l;
      assert Picks(later, tournament, k.category) && Picks(later, tournament, l.category);
    }
  }

  /** Over histories: `h` up to the first pick, `more` what is submitted before the rows are read, `last` what
      is submitted before the label. */
  lemma LabelOverHistory(h: seq<Submission>, more: seq<Submission>, last: seq<Submission>, tournament: u32, c: u32)
    requires Picks(RecordAll(h), tournament, c) && Key(tournament, c) in RecordAll(h + more)
    ensures (forall d :: Picks(RecordAll(h + more + last), tournament, d) ==> d == c)
            <==> OneCategory(RecordAll(h + more + last), tournament)
  {
    hide RecordAll;
    BoardsGrow(h, more);
    BoardsGrow(h + more, last);
    LabelExact(RecordAll(h), RecordAll(h + more), RecordAll(h + more + last), tournament, c);
  }

  /** One category when the rows are chosen does not bind the label: any submission in another category
      before the second pick lets it show that one. */
  lemma LabelSlips(h: seq<Submission>, sub: Submission, tournament: u32, c: u32, d: u32)
    requires OneCategory(RecordAll(h), tournament) && Key(tournament, c) in RecordAll(h) && c != d
    requires ParseScore(sub.body).Some? && ParseScore(sub.body).value.key == Key(tournament, d)
    ensures Picks(RecordAll(h), tournament, c) && Picks(RecordAll(h + [sub]), tournament, d)
  {
    hide ParseScore;
    assert (h + [sub])[..|h|] == h;
  }
}
