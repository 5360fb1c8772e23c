/** The hash-chained audit log: appending, and verifying in batches. */
module AuditChain {
  import opened AuditEntry
  import HashChain
  import opened Net

  /** What is hashed for a row: the predecessor's hash, then the record's text. */
  ghost function Hashed(prev: string, e: Entry): string {
    prev + Canon(e)
  }

  // ---------------------------------------------------------------- the chain

  /** What a row's hash should be, given its predecessor's. */
  type Link = (string, Row) -> string

  ghost function LinkBy(sha: string -> string): Link {
    (prev: string, r: Row) => sha(Hashed(prev, EntryOf(r)))
  }

  lemma LinkValue(sha: string -> string, prev: string, r: Row)
    ensures LinkBy(sha)(prev, r) == sha(Hashed(prev, EntryOf(r)))
  {
  }

  function Before(rows: seq<Row>, i: nat, prev: string): string
    requires i <= |rows|
  {
    if i == 0 then prev else rows[i - 1].hash
  }

  /** Every row's hash is that of its predecessor's hash and its own fields. */
  ghost predicate Intact(link: Link, rows: seq<Row>, prev: string) {
    forall i: nat {:trigger Before(rows, i, prev)} | i < |rows| :: rows[i].hash == link(Before(rows, i, prev), rows[i])
  }

  predicate InSequence(rows: seq<Row>) {
    forall i, j | 0 <= i < j < |rows| :: rows[i].seqNo < rows[j].seqNo
  }

  /** The first row of a stretch that does not hash as it should. */
  ghost function FirstBad(link: Link, rows: seq<Row>, prev: string): Option<Entry>
    decreases rows
  {
    if rows == [] then None
    else if rows[0].hash != link(prev, rows[0]) then Some(EntryOf(rows[0]))
    else FirstBad(link, rows[1..], rows[0].hash)
  }

  /** Row `k` is the first that does not hash as it should. */
  ghost predicate BreaksAt(link: Link, rows: seq<Row>, prev: string, k: nat)
    requires k < |rows|
  {
    Intact(link, rows[..k], prev) && rows[k].hash != link(Before(rows, k, prev), rows[k])
  }

  lemma {:induction false} FirstBadMeaning(link: Link, rows: seq<Row>, prev: string)
    ensures match FirstBad(link, rows, prev)
            case None => Intact(link, rows, prev)
            case Some(e) => exists k: nat :: k < |rows| && BreaksAt(link, rows, prev, k) && e == EntryOf(rows[k])
    decreases rows
  {
    if rows == [] {
    } else if rows[0].hash != link(prev, rows[0]) {
      assert BreaksAt(link, rows, prev, 0);
    } else {
      var rest, h := rows[1..], rows[0].hash;
      FirstBadMeaning(link, rest, h);
      ShiftIntact(link, rows, prev);
      if FirstBad(link, rest, h).Some? {
        var k: nat :| k < |rest| && BreaksAt(link, rest, h, k) && FirstBad(link, rest, h).value == EntryOf(rest[k]);
        ShiftBreak(link, rows, prev, k);
      }
    }
  }

  lemma ShiftBreak(link: Link, rows: seq<Row>, prev: string, k: nat)
    requires rows != [] && rows[0].hash == link(prev, rows[0])
    requires k + 1 < |rows| && BreaksAt(link, rows[1..], rows[0].hash, k)
    ensures BreaksAt(link, rows, prev, k + 1)
  {
    assert rows[..k + 1][1..] == rows[1..][..k] && rows[..k + 1][0] == rows[0];
    ShiftIntact(link, rows[..k + 1], prev);
    assert Before(rows[1..], k, rows[0].hash) == Before(rows, k + 1, prev);
  }

  lemma ShiftIntact(link: Link, rows: seq<Row>, prev: string)
    requires rows != []
    ensures Intact(link, rows, prev) <==>
            rows[0].hash == link(prev, rows[0]) && Intact(link, rows[1..], rows[0].hash)
  {
    var rest := rows[1..];
    assert forall i | 0 <= i < |rest| :: rest[i] == rows[i + 1] && Before(rest, i, rows[0].hash) == Before(rows, i + 1, prev);
    if Intact(link, rows, prev) {
      assert Before(rows, 0, prev) == prev;
    }
    if rows[0].hash == link(prev, rows[0]) && Intact(link, rest, rows[0].hash) {
      forall i | 0 <= i < |rows| ensures rows[i].hash == link(Before(rows, i, prev), rows[i]) {
        assert i > 0 ==> rest[i - 1] == rows[i];
      }
    }
  }

  // ---------------------------------------------------------------- reading a stretch

  predicate InRange(r: Row, from: nat, to: nat) {
    from <= r.seqNo && (to == 0 || r.seqNo <= to)
  }

  /** The rows the query selects, in sequence order. */
  function Segment(rows: seq<Row>, from: nat, to: nat): seq<Row> {
    if rows == [] then []
    else (if InRange(rows[0], from, to) then [rows[0]] else []) + Segment(rows[1..], from, to)
  }

  /** The hash of the last row before a sequence number, or `prev` when there is none. */
  function Anchor(rows: seq<Row>, from: nat, prev: string): string
    decreases rows
  {
    if rows == [] || from <= rows[0].seqNo then prev else Anchor(rows[1..], from, rows[0].hash)
  }

  lemma {:induction false} SegmentMembers(rows: seq<Row>, from: nat, to: nat)
    ensures forall r | r in Segment(rows, from, to) :: r in rows && InRange(r, from, to)
  {
    if rows != [] {
      SegmentMembers(rows[1..], from, to);
    }
  }

  /** Reading on from after a row picks up exactly where the page ended. */
  lemma {:induction false} NextPage(rows: seq<Row>, from: nat, to: nat, n: nat)
    requires InSequence(rows) && 0 < n <= |Segment(rows, from, to)|
    ensures Segment(rows, Segment(rows, from, to)[n - 1].seqNo + 1, to) == Segment(rows, from, to)[n..]
    decreases |rows|, 1
  {
    var s, rest := Segment(rows, from, to), Segment(rows[1..], from, to);
    LaterInSequence(rows);
    if !InRange(rows[0], from, to) {
      assert s == rest;
      LastIsLater(rows, from, to, n - 1);
      NextPage(rows[1..], from, to, n);
    } else {
      assert s == [rows[0]] + rest;
      PageAfterFirst(rows, from, to, n);
    }
  }

  lemma {:induction false} PageAfterFirst(rows: seq<Row>, from: nat, to: nat, n: nat)
    requires InSequence(rows) && rows != [] && InRange(rows[0], from, to) && 0 < n <= 1 + |Segment(rows[1..], from, to)|
    ensures var s := [rows[0]] + Segment(rows[1..], from, to);
            Segment(rows, s[n - 1].seqNo + 1, to) == s[n..]
    decreases |rows|, 0
  {
    var rest := Segment(rows[1..], from, to);
    LaterInSequence(rows);
    if n == 1 {
      AllLater(rows[1..], from, rows[0].seqNo + 1, to);
    } else {
      LastIsLater(rows, from, to, n - 2);
      NextPage(rows[1..], from, to, n - 1);
      assert ([rows[0]] + rest)[n - 1] == rest[n - 2];
    }
  }

  lemma LaterInSequence(rows: seq<Row>)
    requires InSequence(rows) && rows != []
    ensures InSequence(rows[1..]) && forall i | 0 <= i < |rows| - 1 :: rows[0].seqNo < rows[1..][i].seqNo
  {
  }

  lemma LastIsLater(rows: seq<Row>, from: nat, to: nat, k: nat)
    requires InSequence(rows) && rows != [] && k < |Segment(rows[1..], from, to)|
    ensures rows[0].seqNo < Segment(rows[1..], from, to)[k].seqNo
  {
    SegmentMembers(rows[1..], from, to);
    assert Segment(rows[1..], from, to)[k] in rows[1..];
  }

  lemma {:induction false} AllLater(rows: seq<Row>, from: nat, next: nat, to: nat)
    requires from <= next && forall i | 0 <= i < |rows| :: next <= rows[i].seqNo
    ensures Segment(rows, from, to) == Segment(rows, next, to)
  {
    if rows != [] {
      AllLater(rows[1..], from, next, to);
    }
  }

  // ---------------------------------------------------------------- the log

  function TailHash(rows: seq<Row>): Option<string> {
    if rows == [] then None else Some(rows[|rows| - 1].hash)
  }

  function Bytes32(h: Option<string>): string {
    if h.Some? then h.value else ""
  }

  ghost function NewRow(sha: string -> string, rows: seq<Row>, e: Entry, seqNo: nat): Row {
    RowOf(e, seqNo, TailHash(rows), sha(Hashed(Bytes32(TailHash(rows)), e)))
  }

  lemma {:induction false} FirstBadConcat(link: Link, a: seq<Row>, b: seq<Row>, prev: string)
    ensures FirstBad(link, a + b, prev) ==
            if FirstBad(link, a, prev).Some? then FirstBad(link, a, prev)
            else FirstBad(link, b, Before(a, |a|, prev))
    decreases a
  {
    if a == [] {
      assert a + b == b;
    } else {
      assert (a + b)[1..] == a[1..] + b && (a + b)[0] == a[0];
      FirstBadConcat(link, a[1..], b, a[0].hash);
    }
  }

  lemma {:induction false} NothingPast(rows: seq<Row>, from: nat, to: nat)
    requires to != 0 && to < from
    ensures Segment(rows, from, to) == []
  {
    if rows != [] {
      NothingPast(rows[1..], from, to);
    }
  }

  /** Verifying a stretch is verifying its first page, then the rest from its last hash. */
  lemma PageThenRest(link: Link, rows: seq<Row>, from: nat, to: nat, n: nat, prev: string)
    requires InSequence(rows) && 0 < n <= |Segment(rows, from, to)|
    ensures var s := Segment(rows, from, to);
            && |Segment(rows, s[n - 1].seqNo + 1, to)| < |s|
            && FirstBad(link, s, prev) ==
               if FirstBad(link, s[..n], prev).Some? then FirstBad(link, s[..n], prev)
               else FirstBad(link, Segment(rows, s[n - 1].seqNo + 1, to), s[n - 1].hash)
  {
    var s := Segment(rows, from, to);
    assert s[..n] + s[n..] == s;
    FirstBadConcat(link, s[..n], s[n..], prev);
    NextPage(rows, from, to, n);
  }

  lemma SequenceGrows(rows: seq<Row>, row: Row)
    requires InSequence(rows) && forall i | 0 <= i < |rows| :: rows[i].seqNo < row.seqNo
    ensures InSequence(rows + [row])
  {
  }

  /** The predecessor's hash of a row, "" for the first. */
  function PrevHash(rows: seq<Row>, i: nat): string
    requires i <= |rows|
  {
    if i == 0 then "" else rows[i - 1].hash
  }

  /** One row more, after all others: the entry's columns, its predecessor's hash, and the hash of both. */
  ghost predicate Appended(sha: string -> string, was: seq<Row>, rows: seq<Row>, e: Entry, freshId: Id, now: int) {
    && |rows| == |was| + 1 && rows[..|was|] == was
    && var r := rows[|was|];
       && ColumnsOf(r, e, freshId, now) && (forall i | 0 <= i < |was| :: was[i].seqNo < r.seqNo)
       && (r.prevHash == if was == [] then None else Some(PrevHash(was, |was|)))
       && r.hash == sha(PrevHash(was, |was|) + Canon(EntryOf(r)))
  }

  lemma NewRowInColumns(sha: string -> string, was: seq<Row>, e: Entry, freshId: Id, now: int, seqNo: nat)
    requires forall i | 0 <= i < |was| :: was[i].seqNo < seqNo
    ensures Appended(sha, was, was + [NewRow(sha, was, Normalised(e, freshId, now), seqNo)], e, freshId, now)
  {
    var n := Normalised(e, freshId, now);
    var r := NewRow(sha, was, n, seqNo);
    RowInColumns(e, freshId, now, seqNo, TailHash(was), r.hash);
    ColumnsRoundTrip(e, freshId, now, seqNo, TailHash(was), r.hash);
    assert (was + [r])[|was|] == r && (was + [r])[..|was|] == was;
  }

  /** The row's hash is not that of its predecessor's hash and its own text. */
  ghost predicate Wrong(sha: string -> string, rows: seq<Row>, i: nat)
    requires i < |rows|
  {
    rows[i].hash != sha(PrevHash(rows, i) + Canon(EntryOf(rows[i])))
  }

  predicate Asked(r: Row, from: nat, to: nat) {
    from <= r.seqNo && (to != 0 ==> r.seqNo <= to)
  }

  /** The first wrong row of those asked for, if any. */
  ghost predicate Reports(sha: string -> string, rows: seq<Row>, from: nat, to: nat, bad: Option<Entry>) {
    match bad
    case None => forall i: nat | i < |rows| && Asked(rows[i], from, to) :: !Wrong(sha, rows, i)
    case Some(e) => exists i: nat :: i < |rows| && Asked(rows[i], from, to) && Wrong(sha, rows, i) && e == EntryOf(rows[i])
                                     && forall j: nat | j < i && Asked(rows[j], from, to) :: !Wrong(sha, rows, j)
  }

  /** The same over any way to link rows and any hash before the first. */
  ghost predicate Finds(link: Link, rows: seq<Row>, from: nat, to: nat, prev: string, bad: Option<Entry>) {
    match bad
    case None => forall i: nat {:trigger Right(link, rows, prev, i)} | i < |rows| && Asked(rows[i], from, to) :: Right(link, rows, prev, i)
    case Some(e) => exists i: nat :: FirstWrong(link, rows, from, to, prev, i) && e == EntryOf(rows[i])
  }

  ghost predicate Right(link: Link, rows: seq<Row>, prev: string, i: nat) {
    i < |rows| && rows[i].hash == link(Before(rows, i, prev), rows[i])
  }

  ghost predicate FirstWrong(link: Link, rows: seq<Row>, from: nat, to: nat, prev: string, i: nat) {
    && i < |rows| && Asked(rows[i], from, to) && !Right(link, rows, prev, i)
    && forall j: nat | j < i && Asked(rows[j], from, to) :: Right(link, rows, prev, j)
  }

  lemma RightLater(link: Link, rows: seq<Row>, prev: string)
    requires rows != []
    ensures forall i: nat | 0 < i < |rows| :: Right(link, rows, prev, i) <==> Right(link, rows[1..], rows[0].hash, i - 1)
    ensures forall i: nat | 0 < i < |rows| :: rows[i] == rows[1..][i - 1]
  {
    forall i: nat | 0 < i < |rows| ensures Before(rows, i, prev) == Before(rows[1..], i - 1, rows[0].hash) {
    }
  }

  lemma FindsLater(link: Link, rows: seq<Row>, from: nat, to: nat, prev: string, bad: Option<Entry>)
    requires rows != [] && Finds(link, rows[1..], from, to, rows[0].hash, bad)
    requires Asked(rows[0], from, to) ==> Right(link, rows, prev, 0)
    ensures Finds(link, rows, from, to, prev, bad)
  {
    RightLater(link, rows, prev);
    match bad
    case None =>
      forall i: nat | i < |rows| && Asked(rows[i], from, to) ensures Right(link, rows, prev, i) {
        assert 0 < i ==> Right(link, rows[1..], rows[0].hash, i - 1);
      }
    case Some(e) =>
      var i: nat :| FirstWrong(link, rows[1..], from, to, rows[0].hash, i) && e == EntryOf(rows[1..][i]);
      forall j: nat | j < i + 1 && Asked(rows[j], from, to) ensures Right(link, rows, prev, j) {
        assert 0 < j ==> Right(link, rows[1..], rows[0].hash, j - 1);
      }
      assert FirstWrong(link, rows, from, to, prev, i + 1);
  }

  lemma {:induction false} AllPast(rows: seq<Row>, from: nat, to: nat)
    requires to != 0 && forall i | 0 <= i < |rows| :: to < rows[i].seqNo
    ensures Segment(rows, from, to) == []
  {
    if rows != [] {
      AllPast(rows[1..], from, to);
    }
  }

  lemma StretchSkips(rows: seq<Row>, from: nat, to: nat, prev: string)
    requires rows != [] && rows[0].seqNo < from
    ensures Segment(rows, from, to) == Segment(rows[1..], from, to)
    ensures Anchor(rows, from, prev) == Anchor(rows[1..], from, rows[0].hash)
  {
  }

  lemma StretchStarts(link: Link, rows: seq<Row>, from: nat, to: nat, prev: string)
    requires InSequence(rows) && rows != [] && Asked(rows[0], from, to)
    ensures Anchor(rows, from, prev) == prev && Anchor(rows[1..], from, rows[0].hash) == rows[0].hash
    ensures FirstBad(link, Segment(rows, from, to), prev) ==
            if rows[0].hash != link(prev, rows[0]) then Some(EntryOf(rows[0]))
            else FirstBad(link, Segment(rows[1..], from, to), rows[0].hash)
  {
    LaterInSequence(rows);
    var s := Segment(rows, from, to);
    assert s[0] == rows[0] && s[1..] == Segment(rows[1..], from, to);
  }

  lemma {:induction false} StretchFinds(link: Link, rows: seq<Row>, from: nat, to: nat, prev: string)
    requires InSequence(rows)
    ensures Finds(link, rows, from, to, prev, FirstBad(link, Segment(rows, from, to), Anchor(rows, from, prev)))
    decreases rows
  {
    if rows != [] {
      LaterInSequence(rows);
      StretchFinds(link, rows[1..], from, to, rows[0].hash);
      var later := FirstBad(link, Segment(rows[1..], from, to), Anchor(rows[1..], from, rows[0].hash));
      if rows[0].seqNo < from {
        StretchSkips(rows, from, to, prev);
        FindsLater(link, rows, from, to, prev, later);
      } else if Asked(rows[0], from, to) {
        StretchStarts(link, rows, from, to, prev);
        if Right(link, rows, prev, 0) {
          FindsLater(link, rows, from, to, prev, later);
        } else {
          assert FirstWrong(link, rows, from, to, prev, 0);
        }
      } else {
        AllPast(rows, from, to);
      }
    }
  }

  /** Verifying a stretch reports the first wrong row of those asked for, judged by the whole table. */
  lemma VerifyInColumns(sha: string -> string, rows: seq<Row>, from: nat, to: nat)
    requires InSequence(rows)
    ensures Reports(sha, rows, from, to, FirstBad(LinkBy(sha), Segment(rows, from, to), Anchor(rows, from, "")))
  {
    var link, bad := LinkBy(sha), FirstBad(LinkBy(sha), Segment(rows, from, to), Anchor(rows, from, ""));
    StretchFinds(link, rows, from, to, "");
    forall i: nat | i < |rows| ensures Right(link, rows, "", i) <==> !Wrong(sha, rows, i) {
      LinkValue(sha, Before(rows, i, ""), rows[i]);
    }
    if bad.Some? {
      var i: nat :| FirstWrong(link, rows, from, to, "", i) && bad.value == EntryOf(rows[i]);
      assert Wrong(sha, rows, i);
    }
  }

  class Log {
    var rows: seq<Row>

    constructor ()
      ensures rows == []
    {
      rows := [];
    }

    static method HashEntry(sha: string -> string, prevHash: string, e: Entry) returns (hash: string)
      ensures hash == sha(Hashed(prevHash, e))
    {
      var canon := WriteCanon(e);
      hash := sha(prevHash + canon);
    }

    /** The table counts up by itself, with gaps where inserts were rolled back. */
    method NextSeqNo() returns (seqNo: nat)
      requires InSequence(rows)
      ensures forall i | 0 <= i < |rows| :: rows[i].seqNo < seqNo
    {
      if rows == [] {
        return 1;
      }
      seqNo :| rows[|rows| - 1].seqNo < seqNo;
    }

    /** Append one entry: a refused one changes nothing, an accepted one extends the chain. */
    method Append(sha: string -> string, entry: Entry, freshId: Id, now: int) returns (error: Option<Error>, seqNo: nat)
      requires InSequence(rows)
      modifies this
      ensures InSequence(rows) && error == Refusal(Normalised(entry, freshId, now))
      ensures error.Some? ==> rows == old(rows)
      ensures error.None? ==> rows == old(rows) + [NewRow(sha, old(rows), Normalised(entry, freshId, now), seqNo)]
      ensures Refused(entry, error) && (error.None? ==> Appended(sha, old(rows), rows, entry, freshId, now))
    {
      RefusalInColumns(entry, freshId, now);
      seqNo := 0;
      var e := Normalised(entry, freshId, now);
      error := Refusal(e);
      if error.None? {
        var prevHash := TailHash(rows);
        var hash := HashEntry(sha, Bytes32(prevHash), e);
        seqNo := NextSeqNo();
        SequenceGrows(rows, RowOf(e, seqNo, prevHash, hash));
        NewRowInColumns(sha, rows, entry, freshId, now, seqNo);
        rows := rows + [RowOf(e, seqNo, prevHash, hash)];
      }
    }

    static method Recompute(sha: string -> string, prevHash: string, r: Row) returns (want: string)
      ensures want == LinkBy(sha)(prevHash, r)
    {
      want := HashEntry(sha, prevHash, EntryOf(r));
      LinkValue(sha, prevHash, r);
    }

    /** One page: recompute each hash from the running predecessor. */
    static method VerifyPage(sha: string -> string, page: seq<Row>, anchor: string) returns (bad: Option<Entry>, prevHash: string)
      ensures bad == FirstBad(LinkBy(sha), page, anchor)
      ensures bad.None? && page != [] ==> prevHash == page[|page| - 1].hash
    {
      ghost var link := LinkBy(sha);
      prevHash := anchor;
      for i := 0 to |page|
        invariant FirstBad(link, page, anchor) == FirstBad(link, page[i..], prevHash)
        invariant i > 0 ==> prevHash == page[i - 1].hash
      {
        assert page[i..][0] == page[i] && page[i..][1..] == page[i + 1..];
        var want := Recompute(sha, prevHash, page[i]);
        if page[i].hash != want {
          return Some(EntryOf(page[i])), prevHash;
        }
        prevHash := page[i].hash;
      }
      bad := None;
    }

    /** The query of one batch. */
    method SelectPage(cursor: nat, to: nat, batch: nat) returns (page: seq<Row>, ghost selected: seq<Row>)
      ensures selected == Segment(rows, cursor, to) && |page| <= batch
      ensures |page| <= |selected| && page == selected[..|page|]
      ensures |page| == batch || |page| == |selected|
    {
      var found := Segment(rows, cursor, to);
      page := found[..if |found| < batch then |found| else batch];
      selected := found;
    }

    /** One batch: a verdict, or where to go on from. */
    method VerifyBatch(sha: string -> string, cursor: nat, to: nat, batch: nat, prevHash: string)
      returns (done: bool, bad: Option<Entry>, nextCursor: nat, lastHash: string)
      requires InSequence(rows) && 0 < batch
      ensures done ==> bad == FirstBad(LinkBy(sha), Segment(rows, cursor, to), prevHash)
      ensures !done ==>
                && FirstBad(LinkBy(sha), Segment(rows, nextCursor, to), lastHash)
                   == FirstBad(LinkBy(sha), Segment(rows, cursor, to), prevHash)
                && |Segment(rows, nextCursor, to)| < |Segment(rows, cursor, to)|
    {
      ghost var selected;
      var page;
      page, selected := SelectPage(cursor, to, batch);
      if page == [] {
        return true, None, cursor, prevHash;
      }
      PageThenRest(LinkBy(sha), rows, cursor, to, |page|, prevHash);
      bad, lastHash := VerifyPage(sha, page, prevHash);
      nextCursor := page[|page| - 1].seqNo + 1;
      done := bad.Some? || (to != 0 && nextCursor > to);
      if bad.None? && done {
        NothingPast(rows, nextCursor, to);
      }
    }

    /** Walk a stretch page by page: the answer does not depend on where the pages end. */
    method Verify(sha: string -> string, from: nat, to: nat, batch: nat) returns (bad: Option<Entry>)
      requires InSequence(rows) && 0 < batch
      ensures bad == FirstBad(LinkBy(sha), Segment(rows, from, to), Anchor(rows, from, ""))
      ensures Reports(sha, rows, from, to, bad)
    {
      VerifyInColumns(sha, rows, from, to);
      var cursor: nat := from;
      var prevHash := if cursor > 0 then Anchor(rows, cursor, "") else "";
      var done := false;
      bad := None;
      while !done
        invariant !done ==> FirstBad(LinkBy(sha), Segment(rows, cursor, to), prevHash)
                            == FirstBad(LinkBy(sha), Segment(rows, from, to), Anchor(rows, from, ""))
        invariant done ==> bad == FirstBad(LinkBy(sha), Segment(rows, from, to), Anchor(rows, from, ""))
        decreases !done, |Segment(rows, cursor, to)|
      {
        done, bad, cursor, prevHash := VerifyBatch(sha, cursor, to, batch, prevHash);
      }
    }
  }

  // ---------------------------------------------------------------- honest logs

  datatype Append = Append(entry: Entry, freshId: Id, now: int, seqNo: nat)

  /** The table after a series of appends, as `Log.Append` leaves it. */
  ghost function Run(sha: string -> string, rows: seq<Row>, appends: seq<Append>): seq<Row>
    decreases appends
  {
    if appends == [] then rows
    else
      var a := appends[0];
      var e := Normalised(a.entry, a.freshId, a.now);
      Run(sha, if Refusal(e).Some? then rows else rows + [NewRow(sha, rows, e, a.seqNo)], appends[1..])
  }

  lemma AppendKeepsIntact(sha: string -> string, rows: seq<Row>, a: Append)
    requires Intact(LinkBy(sha), rows, "")
    ensures Intact(LinkBy(sha), rows + [NewRow(sha, rows, Normalised(a.entry, a.freshId, a.now), a.seqNo)], "")
  {
    var e := Normalised(a.entry, a.freshId, a.now);
    var row := NewRow(sha, rows, e, a.seqNo);
    ColumnsRoundTrip(a.entry, a.freshId, a.now, a.seqNo, TailHash(rows), row.hash);
    assert Before(rows, |rows|, "") == Bytes32(TailHash(rows));
    LinkValue(sha, Before(rows, |rows|, ""), row);
    ExtendIntact(LinkBy(sha), rows, row, "");
  }

  lemma ExtendIntact(link: Link, rows: seq<Row>, row: Row, prev: string)
    requires Intact(link, rows, prev) && row.hash == link(Before(rows, |rows|, prev), row)
    ensures Intact(link, rows + [row], prev)
  {
    var all := rows + [row];
    forall i | 0 <= i < |all| ensures all[i].hash == link(Before(all, i, prev), all[i]) {
      assert Before(all, i, prev) == Before(rows, i, prev);
      assert i < |rows| ==> all[i] == rows[i];
    }
  }

  lemma {:induction false} RunIntact(sha: string -> string, rows: seq<Row>, appends: seq<Append>)
    requires Intact(LinkBy(sha), rows, "")
    ensures Intact(LinkBy(sha), Run(sha, rows, appends), "")
    decreases appends
  {
    if appends != [] {
      var a := appends[0];
      var e := Normalised(a.entry, a.freshId, a.now);
      if Refusal(e).Some? {
        RunIntact(sha, rows, appends[1..]);
      } else {
        AppendKeepsIntact(sha, rows, a);
        RunIntact(sha, rows + [NewRow(sha, rows, e, a.seqNo)], appends[1..]);
      }
    }
  }

  lemma {:induction false} SegmentIntact(link: Link, rows: seq<Row>, from: nat, to: nat, prev: string)
    requires InSequence(rows) && Intact(link, rows, prev)
    ensures Intact(link, Segment(rows, from, to), Anchor(rows, from, prev))
    decreases rows
  {
    if rows != [] {
      var h, rest := rows[0].hash, rows[1..];
      ShiftIntact(link, rows, prev);
      LaterInSequence(rows);
      SegmentIntact(link, rest, from, to, h);
      if InRange(rows[0], from, to) {
        assert Anchor(rest, from, h) == h;
        var s := [rows[0]] + Segment(rest, from, to);
        assert s[1..] == Segment(rest, from, to);
        ShiftIntact(link, s, prev);
      } else if from <= rows[0].seqNo {
        AllPast(rest, from, to);
        assert Segment(rows, from, to) == [];
      } else {
        assert Segment(rows, from, to) == Segment(rest, from, to);
      }
    }
  }

  /** Appends that go through: with an action, a tenant and an actor kind. */
  function Accepted(appends: seq<Append>): nat {
    if appends == [] then 0
    else
      var e := appends[|appends| - 1].entry;
      Accepted(appends[..|appends| - 1])
      + if e.action != "" && (exists i :: 0 <= i < 16 && e.tenant[i] != 0) && e.actorKind != "" then 1 else 0
  }

  lemma {:induction false} AcceptedFirst(appends: seq<Append>)
    requires appends != []
    ensures Accepted(appends) == Accepted(appends[..1]) + Accepted(appends[1..])
  {
    if |appends| == 1 {
      assert appends[..1] == appends;
    } else {
      var n := |appends| - 1;
      AcceptedFirst(appends[..n]);
      assert appends[..n][..1] == appends[..1] && appends[..n][1..] == appends[1..][..n - 1];
      assert appends[1..][n - 1] == appends[n];
    }
  }

  /** Every accepted append leaves its row. */
  lemma {:induction false} RunGrows(sha: string -> string, rows: seq<Row>, appends: seq<Append>)
    ensures |Run(sha, rows, appends)| == |rows| + Accepted(appends)
    decreases appends
  {
    if appends != [] {
      var a := appends[0];
      var e := Normalised(a.entry, a.freshId, a.now);
      RefusalInColumns(a.entry, a.freshId, a.now);
      AcceptedFirst(appends);
      assert appends[..1][..0] == [] && Accepted([]) == 0;
      RunGrows(sha, if Refusal(e).Some? then rows else rows + [NewRow(sha, rows, e, a.seqNo)], appends[1..]);
    }
  }

  /** A log made only of appends verifies on every stretch. */
  lemma BuiltLogVerifies(sha: string -> string, appends: seq<Append>, from: nat, to: nat)
    requires InSequence(Run(sha, [], appends))
    ensures var rows := Run(sha, [], appends);
            FirstBad(LinkBy(sha), Segment(rows, from, to), Anchor(rows, from, "")).None?
  {
    var rows := Run(sha, [], appends);
    RunIntact(sha, [], appends);
    SegmentIntact(LinkBy(sha), rows, from, to, "");
    FirstBadMeaning(LinkBy(sha), Segment(rows, from, to), Anchor(rows, from, ""));
    IntactPasses(LinkBy(sha), Segment(rows, from, to), Anchor(rows, from, ""));
  }

  lemma IntactPasses(link: Link, rows: seq<Row>, prev: string)
    requires Intact(link, rows, prev)
    ensures FirstBad(link, rows, prev).None?
  {
    FirstBadMeaning(link, rows, prev);
  }

  /** Cutting rows off the end goes unnoticed unless the last hash was kept elsewhere. */
  lemma TruncationUnnoticed(sha: string -> string, rows: seq<Row>, n: nat)
    requires Intact(LinkBy(sha), rows, "") && n <= |rows|
    ensures FirstBad(LinkBy(sha), rows[..n], "").None?
  {
    var cut := rows[..n];
    forall i: nat | i < n ensures Before(cut, i, "") == Before(rows, i, "") {
    }
    IntactPasses(LinkBy(sha), rows[..n], "");
  }

  // ---------------------------------------------------------------- what the verifier can tell apart

  /** Rows the verifier cannot tell apart: one hash column, one event. */
  predicate SameRow(r: Row, s: Row) {
    r.hash == s.hash && SameEvent(EntryOf(r), EntryOf(s))
  }

  /** In columns: all but seq and prev_hash, an empty target kind against NULL, empty details
      against NULL, and integers in the details that decoding cannot tell apart. */
  lemma SameRowInColumns(r: Row, s: Row)
    ensures SameRow(r, s) <==>
            && r.hash == s.hash && r.id == s.id && r.tenant == s.tenant && r.actorKind == s.actorKind
            && r.actorId == s.actorId && r.action == s.action && r.targetId == s.targetId && r.us == s.us
            && KindText(r.targetKind) == KindText(s.targetKind)
            && Values(DecodedDetails(r.details)) == Values(DecodedDetails(s.details))
  {
    DecodedDetailsTwice(r.details);
    DecodedDetailsTwice(s.details);
  }

  ghost predicate SameRows(a: seq<Row>, b: seq<Row>) {
    |a| == |b| && forall i | 0 <= i < |a| :: SameRow(a[i], b[i])
  }

  /** The rows as hashes over texts. */
  ghost function Chain(rows: seq<Row>): (c: seq<HashChain.Link>)
    ensures |c| == |rows| && forall i | 0 <= i < |c| :: c[i].hash == rows[i].hash
  {
    seq(|rows|, i requires 0 <= i < |rows| => HashChain.Link(rows[i].hash, Canon(EntryOf(rows[i]))))
  }

  lemma ChainInput(sha: string -> string, rows: seq<Row>, i: nat)
    requires i < |rows|
    ensures LinkBy(sha)(Before(rows, i, ""), rows[i]) == sha(HashChain.Input(Chain(rows), i))
  {
    LinkValue(sha, Before(rows, i, ""), rows[i]);
    assert HashChain.Prev(Chain(rows), i) == Before(rows, i, "");
  }

  lemma ChainHolds(sha: string -> string, rows: seq<Row>)
    ensures Intact(LinkBy(sha), rows, "") <==> HashChain.Holds(sha, Chain(rows))
  {
    forall i: nat | i < |rows|
      ensures LinkBy(sha)(Before(rows, i, ""), rows[i]) == sha(HashChain.Input(Chain(rows), i))
    {
      ChainInput(sha, rows, i);
    }
    IntactIsHolds(LinkBy(sha), sha, rows, Chain(rows));
  }

  lemma IntactIsHolds(link: Link, sha: string -> string, rows: seq<Row>, c: seq<HashChain.Link>)
    requires |c| == |rows| && forall i | 0 <= i < |c| :: c[i].hash == rows[i].hash
    requires forall i: nat | i < |rows| :: link(Before(rows, i, ""), rows[i]) == sha(HashChain.Input(c, i))
    ensures Intact(link, rows, "") <==> HashChain.Holds(sha, c)
  {
    if Intact(link, rows, "") {
      forall i: nat | i < |c| ensures c[i].hash == sha(HashChain.Input(c, i)) {
        assert rows[i].hash == link(Before(rows, i, ""), rows[i]);
      }
    }
    if HashChain.Holds(sha, c) {
      forall i: nat | i < |rows| ensures rows[i].hash == link(Before(rows, i, ""), rows[i]) {
        assert c[i].hash == sha(HashChain.Input(c, i));
      }
    }
  }

  lemma SameChain(a: seq<Row>, b: seq<Row>)
    ensures Chain(a) == Chain(b) <==> SameRows(a, b)
  {
    forall i | 0 <= i < |a| && i < |b| ensures Chain(a)[i] == Chain(b)[i] <==> SameRow(a[i], b[i]) {
      CanonTells(EntryOf(a[i]), EntryOf(b[i]));
    }
    if Chain(a) == Chain(b) {
      assert |a| == |Chain(a)| == |b|;
    }
  }

  lemma TextsApart(e: Entry, f: Entry)
    ensures !HashChain.EndsIn(Canon(e), Canon(f))
  {
    if HashChain.EndsIn(Canon(e), Canon(f)) {
      var front := HashChain.FrontOf(Canon(e), Canon(f));
      NoRecordEndsAnother(e, f, front);
    }
  }

  lemma ChainsApart(a: seq<Row>, b: seq<Row>)
    ensures HashChain.Apart(Chain(a), Chain(b))
  {
    forall i, j | 0 <= i < |a| && 0 <= j < |b|
      ensures !HashChain.EndsIn(Chain(a)[i].text, Chain(b)[j].text) && !HashChain.EndsIn(Chain(b)[j].text, Chain(a)[i].text)
    {
      TextsApart(EntryOf(a[i]), EntryOf(b[j]));
      TextsApart(EntryOf(b[j]), EntryOf(a[i]));
    }
  }

  /** Two different inputs, one hashed for each log, with one hash. */
  ghost predicate Collision(sha: string -> string, a: seq<Row>, b: seq<Row>) {
    HashChain.Collision(sha, Chain(a), Chain(b))
  }

  lemma TailOfChain(rows: seq<Row>)
    ensures HashChain.Prev(Chain(rows), |rows|) == Bytes32(TailHash(rows))
  {
  }

  // ---------------------------------------------------------------- altered and removed rows

  /** Two logs of any lengths that both verify and end in one hash are the same row by row, hashes included. */
  lemma SameTailSameLog(sha: string -> string, a: seq<Row>, b: seq<Row>)
    requires HashChain.Is32Bytes(sha) && Intact(LinkBy(sha), a, "") && Intact(LinkBy(sha), b, "")
    requires TailHash(a) == TailHash(b)
    ensures SameRows(a, b) || Collision(sha, a, b)
  {
    ChainHolds(sha, a);
    ChainHolds(sha, b);
    TailOfChain(a);
    TailOfChain(b);
    ChainsApart(a, b);
    HashChain.SameTailSameChain(sha, Chain(a), Chain(b));
    SameChain(a, b);
  }

  lemma SameRowsIntact(sha: string -> string, a: seq<Row>, b: seq<Row>)
    requires Intact(LinkBy(sha), a, "") && SameRows(a, b)
    ensures Intact(LinkBy(sha), b, "") && TailHash(a) == TailHash(b)
  {
    ChainHolds(sha, a);
    ChainHolds(sha, b);
    SameChain(a, b);
    SameRowsTail(a, b);
  }

  lemma SameRowsTail(a: seq<Row>, b: seq<Row>)
    requires SameRows(a, b)
    ensures TailHash(a) == TailHash(b)
  {
    assert a != [] ==> SameRow(a[|a| - 1], b[|b| - 1]);
  }

  /** A good log altered in any way, rows added, removed, moved or edited, goes unreported with the last
      hash unchanged exactly when it has the same rows as far as the verifier can tell; otherwise two
      named inputs collide. */
  lemma TamperingShows(sha: string -> string, log: seq<Row>, altered: seq<Row>)
    requires HashChain.Is32Bytes(sha) && Intact(LinkBy(sha), log, "")
    ensures Collision(sha, log, altered)
            || (FirstBad(LinkBy(sha), altered, "").None? && TailHash(altered) == TailHash(log) <==> SameRows(log, altered))
  {
    if SameRows(log, altered) {
      SameRowsIntact(sha, log, altered);
      IntactPasses(LinkBy(sha), altered, "");
    }
    FirstBadMeaning(LinkBy(sha), altered, "");
    if FirstBad(LinkBy(sha), altered, "").None? && TailHash(altered) == TailHash(log) {
      SameTailSameLog(sha, log, altered);
    }
  }

  lemma KeptChain(log: seq<Row>, idx: seq<nat>)
    requires HashChain.Increasing(idx, |log|)
    ensures Chain(HashChain.Kept(log, idx)) == HashChain.Kept(Chain(log), idx)
  {
  }

  /** Rows removed from a good log go unnoticed exactly when only the end is missing; otherwise
      the verifier reports, or two named inputs collide. */
  lemma RemovalShows(sha: string -> string, log: seq<Row>, idx: seq<nat>)
    requires HashChain.Is32Bytes(sha) && Intact(LinkBy(sha), log, "") && HashChain.Increasing(idx, |log|)
    ensures var kept := HashChain.Kept(log, idx);
            Collision(sha, log, kept) || Collision(sha, log, log)
            || (FirstBad(LinkBy(sha), kept, "").None? <==> HashChain.IsPrefix(idx))
  {
    var kept := HashChain.Kept(log, idx);
    ChainHolds(sha, log);
    ChainHolds(sha, kept);
    ChainsApart(log, log);
    KeptChain(log, idx);
    HashChain.RemovalShows(sha, Chain(log), idx);
    FirstBadMeaning(LinkBy(sha), kept, "");
    if Intact(LinkBy(sha), kept, "") {
      IntactPasses(LinkBy(sha), kept, "");
    }
  }

  /** Verifying everything is verifying all rows from the empty hash. */
  lemma {:induction false} WholeLog(rows: seq<Row>, prev: string)
    ensures Segment(rows, 0, 0) == rows && Anchor(rows, 0, prev) == prev
  {
    if rows != [] {
      WholeLog(rows[1..], rows[0].hash);
      assert rows == [rows[0]] + rows[1..];
    }
  }

  /** The stored prev_hash column wiped. */
  function Unlinked(rows: seq<Row>): seq<Row> {
    if rows == [] then [] else [rows[0].(prevHash := None)] + Unlinked(rows[1..])
  }

  lemma {:induction false} UnlinkedReads(link: Link, rows: seq<Row>, from: nat, to: nat, prev: string)
    requires forall p, r: Row :: link(p, r) == link(p, r.(prevHash := None))
    ensures Segment(Unlinked(rows), from, to) == Unlinked(Segment(rows, from, to))
    ensures Anchor(Unlinked(rows), from, prev) == Anchor(rows, from, prev)
    ensures FirstBad(link, Unlinked(rows), prev) == FirstBad(link, rows, prev)
    decreases rows
  {
    if rows != [] {
      UnlinkedReads(link, rows[1..], from, to, rows[0].hash);
      assert Unlinked(rows)[1..] == Unlinked(rows[1..]) && Unlinked([rows[0]]) == [rows[0].(prevHash := None)];
      UnlinkedConcat(if InRange(rows[0], from, to) then [rows[0]] else [], Segment(rows[1..], from, to));
    }
  }

  lemma {:induction false} UnlinkedConcat(a: seq<Row>, b: seq<Row>)
    ensures Unlinked(a + b) == Unlinked(a) + Unlinked(b)
  {
    if a == [] {
      assert a + b == b;
    } else {
      assert (a + b)[1..] == a[1..] + b;
      UnlinkedConcat(a[1..], b);
    }
  }

  /** The verifier never looks at the prev_hash column: any change confined to it goes unreported. */
  lemma PrevHashIsNeverRead(sha: string -> string, a: seq<Row>, b: seq<Row>, from: nat, to: nat)
    requires Unlinked(a) == Unlinked(b)
    ensures FirstBad(LinkBy(sha), Segment(a, from, to), Anchor(a, from, ""))
         == FirstBad(LinkBy(sha), Segment(b, from, to), Anchor(b, from, ""))
  {
    var link := LinkBy(sha);
    forall p, r: Row ensures link(p, r) == link(p, r.(prevHash := None)) {
      assert EntryOf(r) == EntryOf(r.(prevHash := None));
    }
    UnlinkedReads(link, a, from, to, "");
    UnlinkedReads(link, b, from, to, "");
    UnlinkedReads(link, Segment(a, from, to), 0, 0, Anchor(a, from, ""));
    UnlinkedReads(link, Segment(b, from, to), 0, 0, Anchor(b, from, ""));
  }
}
