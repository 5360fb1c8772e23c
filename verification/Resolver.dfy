/** The hostname resolver: what may enter the table, and how long it stays. */
module Resolver {
  import opened Net

  /** A hostname's guard range; it is fixed when the hostname is created. */
  datatype Guard = Unguarded | Unparseable | Within(prefix: Prefix)

  datatype Host = Host(id: nat, guard: Guard)

  /** One address of an answer: when it was written, and whether the write went through. */
  datatype Seen = Seen(addr: Addr, at: int, stored: bool)

  /** One hostname of a pass: its answer, or none when the lookup failed. */
  datatype Visit = Visit(host: Host, answer: Option<seq<Seen>>)

  /** One pass: the hostname list may fail to load, and so may the prune. Times in microseconds. */
  datatype Pass = Pass(listed: bool, visits: seq<Visit>, pruned: bool, pruneAt: int)

  /** Hostname and address to the time last seen. */
  type Table = map<(nat, Addr), int>

  const DEFAULT_GRACE := 1800_000_000_000

  /** A configured grace in nanoseconds, with the default for none. */
  function Grace(configured: int): nat {
    if configured <= 0 then DEFAULT_GRACE else configured
  }

  /** The prune works in whole seconds: the grace as microseconds actually granted. */
  function Window(grace: nat): nat {
    grace / 1_000_000_000 * 1_000_000
  }

  /** IPv4 in IPv6 clothing is taken as IPv4. */
  function Unmap(a: Addr): Addr {
    if a.family == V6 && a.value / 0x1_0000_0000 == 0xFFFF then Addr(V4, a.value % 0x1_0000_0000) else a
  }

  predicate Admits(g: Guard, a: Addr) {
    match g
    case Unguarded => true
    case Unparseable => false
    case Within(p) => Contains(Masked(p), a)
  }

  function Store(t: Table, h: Host, seen: seq<Seen>): Table
    decreases seen
  {
    if seen == [] then t
    else
      var a := Unmap(seen[0].addr);
      Store(if Admits(h.guard, a) && seen[0].stored then t[(h.id, a) := seen[0].at] else t, h, seen[1..])
  }

  function AfterVisits(t: Table, visits: seq<Visit>): Table
    decreases visits
  {
    if visits == [] then t
    else
      var v := visits[0];
      AfterVisits(if v.answer.None? then t else Store(t, v.host, v.answer.value), visits[1..])
  }

  function Prune(t: Table, now: int, window: nat): Table {
    map k | k in t && t[k] >= now - window :: t[k]
  }

  function AfterPass(t: Table, p: Pass, grace: nat): Table {
    if !p.listed then t
    else if !p.pruned then AfterVisits(t, p.visits)
    else Prune(AfterVisits(t, p.visits), p.pruneAt, Window(grace))
  }

  class Worker {
    var table: Table
    var grace: int

    constructor (grace: int)
      ensures table == map[] && this.grace == grace
    {
      table, this.grace := map[], grace;
    }

    method Upsert(id: nat, s: Seen, a: Addr)
      modifies this`table
      ensures table == if s.stored then old(table)[(id, a) := s.at] else old(table)
    {
      if s.stored {
        table := table[(id, a) := s.at];
      }
    }

    method StoreAnswers(h: Host, seen: seq<Seen>)
      requires !h.guard.Unparseable?
      modifies this`table
      ensures table == Store(old(table), h, seen)
    {
      for i := 0 to |seen|
        invariant Store(table, h, seen[i..]) == Store(old(table), h, seen)
      {
        assert seen[i..][0] == seen[i] && seen[i..][1..] == seen[i + 1..];
        var a := Unmap(seen[i].addr);
        if h.guard.Within? && !Contains(Masked(h.guard.prefix), a) {
          continue;
        }
        Upsert(h.id, seen[i], a);
      }
    }

    method ResolveAll(visits: seq<Visit>)
      modifies this`table
      ensures table == AfterVisits(old(table), visits) && Holds(old(table), visits, table)
    {
      VisitsWrite(table, visits);
      for i := 0 to |visits|
        invariant AfterVisits(table, visits[i..]) == AfterVisits(old(table), visits)
      {
        var v := visits[i];
        assert visits[i..][0] == v && visits[i..][1..] == visits[i + 1..];
        if v.answer.None? {
          continue;
        }
        if v.host.guard.Unparseable? {
          NothingStored(table, v.host, v.answer.value);
          continue;
        }
        StoreAnswers(v.host, v.answer.value);
      }
    }

    /** One full pass. */
    method ResolveOnce(p: Pass) returns (ok: bool)
      modifies this
      ensures table == AfterPass(old(table), p, Grace(old(grace))) && grace == Grace(old(grace))
      ensures grace == if old(grace) <= 0 then 30 * 60 * 1_000_000_000 else old(grace)
      ensures AfterThePass(old(table), p, grace, table)
      ensures ok == (p.listed && p.pruned)
    {
      PassWrites(table, p, Grace(grace));
      if grace <= 0 {
        grace := DEFAULT_GRACE;
      }
      if !p.listed {
        return false;
      }
      ResolveAll(p.visits);
      if !p.pruned {
        return false;
      }
      var cutoff := p.pruneAt - Window(grace);
      table := map k | k in table && table[k] >= cutoff :: table[k];
      ok := true;
    }
  }

  lemma {:induction false} NothingStored(t: Table, h: Host, seen: seq<Seen>)
    requires h.guard.Unparseable?
    ensures Store(t, h, seen) == t
    decreases seen
  {
    if seen != [] {
      NothingStored(t, h, seen[1..]);
    }
  }

  // ---------------------------------------------------------------- what a pass writes

  /** `b` is `a`, with IPv4 addresses spelled as ::ffff:0:0 to ::ffff:ffff:ffff taken as IPv4. */
  predicate Plain(a: Addr, b: Addr) {
    if a.family == V6 && 0xFFFF_0000_0000 <= a.value <= 0xFFFF_FFFF_FFFF then b == Addr(V4, a.value - 0xFFFF_0000_0000)
    else b == a
  }

  /** Answer `j` goes into the table as `k`: its write went through, and the host has no guard or one
      that holds the address. */
  predicate WritesIn(h: Host, seen: seq<Seen>, j: nat, k: (nat, Addr)) {
    && j < |seen| && seen[j].stored && h.id == k.0 && Plain(seen[j].addr, k.1)
    && (h.guard == Unguarded || (h.guard.Within? && Contains(h.guard.prefix, k.1)))
  }

  /** Answer `j` of visit `i` goes into the table as `k`. */
  predicate Writes(visits: seq<Visit>, i: nat, j: nat, k: (nat, Addr)) {
    i < |visits| && visits[i].answer.Some? && WritesIn(visits[i].host, visits[i].answer.value, j, k)
  }

  /** The last write of row `k` is dated `at`. */
  ghost predicate LastWrite(visits: seq<Visit>, k: (nat, Addr), at: int) {
    exists i: nat, j: nat :: Writes(visits, i, j, k) && visits[i].answer.value[j].at == at
                             && forall m: nat, n: nat | Writes(visits, m, n, k) :: m < i || (m == i && n <= j)
  }

  ghost predicate Unwritten(visits: seq<Visit>, k: (nat, Addr)) {
    forall i: nat, j: nat :: !Writes(visits, i, j, k)
  }

  predicate SameRow(t: Table, u: Table, k: (nat, Addr)) {
    (k in u <==> k in t) && (k in t && k in u ==> u[k] == t[k])
  }

  /** Written rows carry the time of their last write; the others are as before. */
  ghost predicate Holds(t: Table, visits: seq<Visit>, u: Table) {
    && (forall k, at | LastWrite(visits, k, at) :: k in u && u[k] == at)
    && (forall k | Unwritten(visits, k) :: SameRow(t, u, k))
  }

  lemma UnmapIsPlain(a: Addr)
    ensures forall b :: Plain(a, b) <==> b == Unmap(a)
  {
  }

  lemma AdmitsIsGuard(h: Host, a: Addr)
    ensures Admits(h.guard, a) <==> h.guard == Unguarded || (h.guard.Within? && Contains(h.guard.prefix, a))
  {
    if h.guard.Within? {
      MaskedSameAddresses(h.guard.prefix, a);
    }
  }

  lemma TailWrites(h: Host, seen: seq<Seen>, k: (nat, Addr))
    requires seen != []
    ensures forall j: nat | 0 < j :: WritesIn(h, seen, j, k) <==> WritesIn(h, seen[1..], j - 1, k)
    ensures WritesIn(h, seen, 0, k) <==> seen[0].stored && Admits(h.guard, Unmap(seen[0].addr)) && k == (h.id, Unmap(seen[0].addr))
  {
    UnmapIsPlain(seen[0].addr);
    AdmitsIsGuard(h, Unmap(seen[0].addr));
  }

  /** The last write of a row within one answer, and rows it does not write. */
  lemma {:induction false} StoreWrites(t: Table, h: Host, seen: seq<Seen>, k: (nat, Addr))
    ensures forall j: nat | WritesIn(h, seen, j, k) && (forall n: nat | WritesIn(h, seen, n, k) :: n <= j) ::
              k in Store(t, h, seen) && Store(t, h, seen)[k] == seen[j].at
    ensures (forall j: nat :: !WritesIn(h, seen, j, k)) ==> SameRow(t, Store(t, h, seen), k)
    decreases seen
  {
    if seen != [] {
      var a := Unmap(seen[0].addr);
      var u := if Admits(h.guard, a) && seen[0].stored then t[(h.id, a) := seen[0].at] else t;
      TailWrites(h, seen, k);
      StoreWrites(u, h, seen[1..], k);
      forall j: nat | WritesIn(h, seen, j, k) && (forall n: nat | WritesIn(h, seen, n, k) :: n <= j)
        ensures k in Store(t, h, seen) && Store(t, h, seen)[k] == seen[j].at
      {
        forall n: nat | WritesIn(h, seen[1..], n, k) ensures n + 1 <= j {
          assert WritesIn(h, seen, n + 1, k);
        }
        assert 0 < j ==> WritesIn(h, seen[1..], j - 1, k);
      }
      if forall j: nat :: !WritesIn(h, seen, j, k) {
        forall j: nat ensures !WritesIn(h, seen[1..], j, k) {
          assert !WritesIn(h, seen, j + 1, k);
        }
        assert !WritesIn(h, seen, 0, k);
      }
    }
  }

  lemma LaterVisits(visits: seq<Visit>, k: (nat, Addr))
    requires visits != []
    ensures forall i: nat, j: nat | 0 < i :: Writes(visits, i, j, k) <==> Writes(visits[1..], i - 1, j, k)
  {
  }

  /** The same over the answers of all visits. */
  lemma {:induction false} RowWritten(t: Table, visits: seq<Visit>, k: (nat, Addr), i: nat, j: nat)
    requires Writes(visits, i, j, k) && forall m: nat, n: nat | Writes(visits, m, n, k) :: m < i || (m == i && n <= j)
    ensures k in AfterVisits(t, visits) && AfterVisits(t, visits)[k] == visits[i].answer.value[j].at
    decreases visits
  {
    var v := visits[0];
    var u := if v.answer.None? then t else Store(t, v.host, v.answer.value);
    LaterVisits(visits, k);
    forall m: nat, n: nat | Writes(visits[1..], m, n, k) ensures m + 1 < i || (m + 1 == i && n <= j) {
      assert Writes(visits, m + 1, n, k);
    }
    if 0 < i {
      RowWritten(u, visits[1..], k, i - 1, j);
    } else {
      forall n: nat | WritesIn(v.host, v.answer.value, n, k) ensures n <= j {
        assert Writes(visits, 0, n, k);
      }
      StoreWrites(t, v.host, v.answer.value, k);
      RowUnwritten(u, visits[1..], k);
    }
  }

  lemma {:induction false} RowUnwritten(t: Table, visits: seq<Visit>, k: (nat, Addr))
    requires Unwritten(visits, k)
    ensures SameRow(t, AfterVisits(t, visits), k)
    decreases visits
  {
    if visits != [] {
      var v := visits[0];
      LaterVisits(visits, k);
      forall i: nat, j: nat ensures !Writes(visits[1..], i, j, k) {
        assert !Writes(visits, i + 1, j, k);
      }
      if v.answer.Some? {
        forall j: nat ensures !WritesIn(v.host, v.answer.value, j, k) {
          assert !Writes(visits, 0, j, k);
        }
        StoreWrites(t, v.host, v.answer.value, k);
      }
      RowUnwritten(if v.answer.None? then t else Store(t, v.host, v.answer.value), visits[1..], k);
    }
  }

  lemma VisitsWrite(t: Table, visits: seq<Visit>)
    ensures Holds(t, visits, AfterVisits(t, visits))
  {
    forall k, at | LastWrite(visits, k, at) ensures k in AfterVisits(t, visits) && AfterVisits(t, visits)[k] == at {
      var i: nat, j: nat :| Writes(visits, i, j, k) && visits[i].answer.value[j].at == at
                            && forall m: nat, n: nat | Writes(visits, m, n, k) :: m < i || (m == i && n <= j);
      RowWritten(t, visits, k, i, j);
    }
    forall k | Unwritten(visits, k) ensures SameRow(t, AfterVisits(t, visits), k) {
      RowUnwritten(t, visits, k);
    }
  }

  /** A row dated `at` outlasts the pass's prune, if it comes to one: whole seconds of grace count. */
  predicate Outlasts(p: Pass, grace: nat, at: int) {
    p.pruned ==> p.pruneAt <= at + grace / 1_000_000_000 * 1_000_000
  }

  /** The table after a pass: nothing changes when the list does not load; otherwise written rows carry
      the time of their last write, and every row stays exactly when it outlasts the prune. */
  ghost predicate AfterThePass(t: Table, p: Pass, grace: nat, u: Table) {
    if !p.listed then u == t
    else
      && (forall k, at | LastWrite(p.visits, k, at) :: (k in u <==> Outlasts(p, grace, at)) && (k in u ==> u[k] == at))
      && (forall k | Unwritten(p.visits, k) ::
            (k in u <==> k in t && Outlasts(p, grace, t[k])) && (k in u && k in t ==> u[k] == t[k]))
  }

  lemma PassWrites(t: Table, p: Pass, grace: nat)
    ensures AfterThePass(t, p, grace, AfterPass(t, p, grace))
  {
    VisitsWrite(t, p.visits);
  }

  // ---------------------------------------------------------------- runs

  function Run(t: Table, passes: seq<Pass>, grace: nat): Table
    decreases passes
  {
    if passes == [] then t else Run(AfterPass(t, passes[0], grace), passes[1..], grace)
  }

  /** Every stored address lies in its hostname's guard. */
  ghost predicate Guarded(t: Table, guardOf: nat -> Guard) {
    forall k | k in t :: Admits(guardOf(k.0), k.1)
  }

  ghost predicate Known(passes: seq<Pass>, guardOf: nat -> Guard) {
    forall p, v | p in passes && v in p.visits :: v.host.guard == guardOf(v.host.id)
  }

  lemma {:induction false} StoreKeepsGuard(t: Table, h: Host, seen: seq<Seen>, guardOf: nat -> Guard)
    requires Guarded(t, guardOf) && h.guard == guardOf(h.id)
    ensures Guarded(Store(t, h, seen), guardOf)
    decreases seen
  {
    if seen != [] {
      var a := Unmap(seen[0].addr);
      StoreKeepsGuard(if Admits(h.guard, a) && seen[0].stored then t[(h.id, a) := seen[0].at] else t, h, seen[1..], guardOf);
    }
  }

  lemma {:induction false} VisitsKeepGuard(t: Table, visits: seq<Visit>, guardOf: nat -> Guard)
    requires Guarded(t, guardOf) && forall v | v in visits :: v.host.guard == guardOf(v.host.id)
    ensures Guarded(AfterVisits(t, visits), guardOf)
    decreases visits
  {
    if visits != [] {
      var v := visits[0];
      if v.answer.Some? {
        StoreKeepsGuard(t, v.host, v.answer.value, guardOf);
      }
      VisitsKeepGuard(if v.answer.None? then t else Store(t, v.host, v.answer.value), visits[1..], guardOf);
    }
  }

  /** Whatever lookups return, no address outside its guard is ever stored. */
  lemma {:induction false} RunKeepsGuard(t: Table, passes: seq<Pass>, grace: nat, guardOf: nat -> Guard)
    requires Guarded(t, guardOf) && Known(passes, guardOf)
    ensures Guarded(Run(t, passes, grace), guardOf)
    decreases passes
  {
    if passes != [] {
      assert passes[0] in passes;
      VisitsKeepGuard(t, passes[0].visits, guardOf);
      RunKeepsGuard(AfterPass(t, passes[0], grace), passes[1..], grace, guardOf);
    }
  }

  // ---------------------------------------------------------------- freshness

  /** The pass writes nothing dated before `start`. */
  ghost predicate NotBefore(p: Pass, start: int) {
    forall v | v in p.visits && v.answer.Some? :: forall s | s in v.answer.value :: start <= s.at
  }

  /** No row is older than `start`. */
  ghost predicate Since(t: Table, start: int) {
    forall k | k in t :: start <= t[k]
  }

  /** A row stays, and is never dated back before `start`. */
  ghost predicate StaysSince(t: Table, u: Table, start: int) {
    && (forall k | k in t && start <= t[k] :: k in u && start <= u[k])
    && (Since(t, start) ==> Since(u, start))
  }

  lemma {:induction false} StoreStays(t: Table, h: Host, seen: seq<Seen>, start: int)
    requires forall s | s in seen :: start <= s.at
    ensures StaysSince(t, Store(t, h, seen), start)
    decreases seen
  {
    if seen != [] {
      var a := Unmap(seen[0].addr);
      var u := if Admits(h.guard, a) && seen[0].stored then t[(h.id, a) := seen[0].at] else t;
      assert StaysSince(t, u, start);
      StoreStays(u, h, seen[1..], start);
    }
  }

  lemma {:induction false} VisitsStay(t: Table, visits: seq<Visit>, start: int)
    requires forall v | v in visits && v.answer.Some? :: forall s | s in v.answer.value :: start <= s.at
    ensures StaysSince(t, AfterVisits(t, visits), start)
    decreases visits
  {
    if visits != [] {
      var v := visits[0];
      assert v in visits;
      if v.answer.Some? {
        StoreStays(t, v.host, v.answer.value, start);
      }
      VisitsStay(if v.answer.None? then t else Store(t, v.host, v.answer.value), visits[1..], start);
    }
  }

  /** An address seen at `s` stays through every pass up to the granted window after `s`,
      whatever lookups, writes, lists and prunes fail. */
  lemma {:induction false} SeenSurvives(t: Table, passes: seq<Pass>, grace: nat, k: (nat, Addr), s: int)
    requires k in t && s <= t[k]
    requires forall p | p in passes :: NotBefore(p, s) && (p.listed && p.pruned ==> p.pruneAt <= s + Window(grace))
    ensures k in Run(t, passes, grace) && s <= Run(t, passes, grace)[k]
    decreases passes
  {
    if passes != [] {
      var p := passes[0];
      assert p in passes;
      VisitsStay(t, p.visits, s);
      SeenSurvives(AfterPass(t, p, grace), passes[1..], grace, k, s);
    }
  }

  /** An address answered at `s`, its write gone through, is there from that pass on through every pass up
      to the granted window after `s`, whatever was in the table before. */
  lemma AnsweredSurvives(t: Table, p: Pass, later: seq<Pass>, grace: nat, k: (nat, Addr), s: int)
    requires p.listed && LastWrite(p.visits, k, s) && (p.pruned ==> p.pruneAt <= s + Window(grace))
    requires forall q | q in later :: NotBefore(q, s) && (q.listed && q.pruned ==> q.pruneAt <= s + Window(grace))
    ensures k in Run(AfterPass(t, p, grace), later, grace) && s <= Run(AfterPass(t, p, grace), later, grace)[k]
  {
    PassWrites(t, p, grace);
    SeenSurvives(AfterPass(t, p, grace), later, grace, k, s);
  }

  /** After a successful prune everything was seen within the window before it, and stays so. */
  lemma {:induction false} StaleIsGone(t: Table, p: Pass, later: seq<Pass>, grace: nat)
    requires p.listed && p.pruned && forall q | q in later :: NotBefore(q, p.pruneAt)
    ensures Since(Run(AfterPass(t, p, grace), later, grace), p.pruneAt - Window(grace))
  {
    var start := p.pruneAt - Window(grace);
    assert Since(AfterPass(t, p, grace), start);
    RunStays(AfterPass(t, p, grace), later, grace, start);
  }

  lemma {:induction false} RunStays(t: Table, passes: seq<Pass>, grace: nat, start: int)
    requires Since(t, start) && forall p | p in passes :: NotBefore(p, start)
    ensures Since(Run(t, passes, grace), start)
    decreases passes
  {
    if passes != [] {
      var p := passes[0];
      assert p in passes;
      VisitsStay(t, p.visits, start);
      RunStays(AfterPass(t, p, grace), passes[1..], grace, start);
    }
  }

  /** The prune keeps a row exactly while it is within the window. */
  lemma PruneKeeps(t: Table, now: int, grace: nat, k: (nat, Addr))
    ensures k in Prune(t, now, Window(grace)) <==> k in t && now <= t[k] + Window(grace)
  {
  }

  /** Rows seen within the configured grace survive the prune. */
  ghost predicate GraceHonoured(grace: nat) {
    forall t: Table, now: int, k: (nat, Addr) | k in t && (now - t[k]) * 1000 <= grace :: k in Prune(t, now, Window(grace))
  }

  /** The configured grace is granted in full exactly when it has no part-second of a microsecond
      or more: otherwise the whole-second prune cuts it short. */
  lemma GraceGrantedInFull(grace: nat)
    ensures GraceHonoured(grace) <==> grace % 1_000_000_000 < 1000
  {
    assert grace == Window(grace) * 1000 + grace % 1_000_000_000;
    forall t: Table, now: int, k: (nat, Addr) | k in t && (now - t[k]) * 1000 <= grace && grace % 1_000_000_000 < 1000
      ensures k in Prune(t, now, Window(grace))
    {
      PruneKeeps(t, now, grace, k);
    }
    if grace % 1_000_000_000 >= 1000 {
      var k := (0, Addr(V4, 0));
      var t: Table := map[k := 0];
      PruneKeeps(t, Window(grace) + 1, grace, k);
      assert (Window(grace) + 1 - t[k]) * 1000 <= grace && k !in Prune(t, Window(grace) + 1, Window(grace));
    }
  }
}
