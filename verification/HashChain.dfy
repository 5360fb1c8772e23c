/** A hash chain over texts, whatever the texts: what a verified chain pins down. */
module HashChain {
  import opened Seqs

  /** One record: its text, and the stored hash of its predecessor's hash followed by that text. */
  datatype Link = Link(hash: string, text: string)

  ghost predicate Is32Bytes(sha: string -> string) {
    forall x :: |sha(x)| == 32
  }

  function Prev(c: seq<Link>, i: nat): string
    requires i <= |c|
  {
    if i == 0 then "" else c[i - 1].hash
  }

  function Input(c: seq<Link>, i: nat): string
    requires i < |c|
  {
    Prev(c, i) + c[i].text
  }

  /** Every stored hash is the hash of its input. */
  ghost predicate Holds(sha: string -> string, c: seq<Link>) {
    forall i: nat {:trigger Input(c, i)} | i < |c| :: c[i].hash == sha(Input(c, i))
  }

  /** The inputs of record `i` of one chain and record `j` of another differ and have one hash. */
  predicate CollideAt(sha: string -> string, a: seq<Link>, b: seq<Link>, i: nat, j: nat) {
    i < |a| && j < |b| && Input(a, i) != Input(b, j) && sha(Input(a, i)) == sha(Input(b, j))
  }

  ghost predicate Collision(sha: string -> string, a: seq<Link>, b: seq<Link>) {
    exists i: nat, j: nat :: CollideAt(sha, a, b, i, j)
  }

  lemma PrevLength(sha: string -> string, c: seq<Link>, i: nat)
    requires Is32Bytes(sha) && Holds(sha, c) && i <= |c|
    ensures |Prev(c, i)| == if i == 0 then 0 else 32
  {
    if i > 0 {
      assert c[i - 1].hash == sha(Input(c, i - 1));
    }
  }

  lemma HashesCollide(sha: string -> string, a: seq<Link>, b: seq<Link>, i: nat, j: nat)
    requires Holds(sha, a) && Holds(sha, b) && i < |a| && j < |b|
    requires a[i].hash == b[j].hash && Input(a, i) != Input(b, j)
    ensures Collision(sha, a, b)
  {
    assert CollideAt(sha, a, b, i, j);
  }

  lemma SameInputs(sha: string -> string, a: seq<Link>, b: seq<Link>, i: nat, j: nat)
    requires Holds(sha, a) && Holds(sha, b) && i < |a| && j < |b| && a[i].hash == b[j].hash && !Collision(sha, a, b)
    ensures Input(a, i) == Input(b, j)
  {
    if Input(a, i) != Input(b, j) {
      HashesCollide(sha, a, b, i, j);
    }
  }

  lemma InputOfPrefix(c: seq<Link>, n: nat, i: nat)
    requires i < n <= |c|
    ensures Input(c[..n], i) == Input(c, i)
  {
  }

  lemma PrefixHolds(sha: string -> string, c: seq<Link>, n: nat)
    requires Holds(sha, c) && n <= |c|
    ensures Holds(sha, c[..n])
  {
    forall i: nat | i < n ensures c[..n][i].hash == sha(Input(c[..n], i)) {
      InputOfPrefix(c, n, i);
    }
  }

  lemma PrefixCollision(sha: string -> string, a: seq<Link>, b: seq<Link>, m: nat, n: nat)
    requires m <= |a| && n <= |b| && Collision(sha, a[..m], b[..n])
    ensures Collision(sha, a, b)
  {
    var i: nat, j: nat :| CollideAt(sha, a[..m], b[..n], i, j);
    InputOfPrefix(a, m, i);
    InputOfPrefix(b, n, j);
    assert CollideAt(sha, a, b, i, j);
  }

  // ---------------------------------------------------------------- altered, added or removed records

  /** `t` is something followed by `u`. */
  predicate EndsIn(t: string, u: string) {
    |u| < |t| && t[|t| - |u|..] == u
  }

  lemma FrontOf(t: string, u: string) returns (front: string)
    requires EndsIn(t, u)
    ensures front != "" && t == front + u
  {
    front := t[..|t| - |u|];
  }

  lemma Behind(t: string, front: string, u: string)
    requires front != [] && "" + t == front + u
    ensures EndsIn(t, u)
  {
    assert t == front + u && t[|t| - |u|..] == u;
  }

  /** No text of either chain is something followed by a text of the other. */
  predicate Apart(a: seq<Link>, b: seq<Link>) {
    forall i, j | 0 <= i < |a| && 0 <= j < |b| :: !EndsIn(a[i].text, b[j].text) && !EndsIn(b[j].text, a[i].text)
  }

  lemma PrefixesApart(a: seq<Link>, b: seq<Link>, n: nat, m: nat)
    requires Apart(a, b) && n <= |a| && m <= |b|
    ensures Apart(a[..n], b[..m])
  {
  }

  /** Equal inputs of two chains: equal texts behind equal predecessors. */
  lemma LastTells(sha: string -> string, a: seq<Link>, b: seq<Link>, n: nat, m: nat)
    requires Is32Bytes(sha) && Holds(sha, a) && Holds(sha, b) && Apart(a, b) && n < |a| && m < |b|
    requires Input(a, n) == Input(b, m)
    ensures a[n].text == b[m].text && Prev(a, n) == Prev(b, m)
  {
    PrevLength(sha, a, n);
    PrevLength(sha, b, m);
    if n == 0 && m != 0 {
      Behind(a[n].text, Prev(b, m), b[m].text);
    } else if n != 0 && m == 0 {
      Behind(b[m].text, Prev(a, n), a[n].text);
    } else {
      CutFront(Prev(a, n), Prev(b, m), a[n].text, b[m].text);
    }
  }

  /** One record more on both sides. */
  lemma PrefixesTell(sha: string -> string, a: seq<Link>, b: seq<Link>)
    requires a != [] && b != [] && a[|a| - 1] == b[|b| - 1]
    requires a[..|a| - 1] == b[..|b| - 1] || Collision(sha, a[..|a| - 1], b[..|b| - 1])
    ensures a == b || Collision(sha, a, b)
  {
    if a[..|a| - 1] == b[..|b| - 1] {
      assert a == a[..|a| - 1] + [a[|a| - 1]] && b == b[..|b| - 1] + [b[|b| - 1]];
    } else {
      PrefixCollision(sha, a, b, |a| - 1, |b| - 1);
    }
  }

  /** Equal last hashes mean equal last records behind equal predecessors, or a collision. */
  lemma StepBack(sha: string -> string, a: seq<Link>, b: seq<Link>)
    requires Is32Bytes(sha) && Holds(sha, a) && Holds(sha, b) && Apart(a, b)
    requires a != [] && b != [] && a[|a| - 1].hash == b[|b| - 1].hash
    ensures || Collision(sha, a, b)
            || (a[|a| - 1] == b[|b| - 1] && Prev(a, |a| - 1) == Prev(b, |b| - 1))
  {
    if !Collision(sha, a, b) {
      SameInputs(sha, a, b, |a| - 1, |b| - 1);
      LastTells(sha, a, b, |a| - 1, |b| - 1);
    }
  }

  lemma BothEmpty(sha: string -> string, a: seq<Link>, b: seq<Link>)
    requires Is32Bytes(sha) && Holds(sha, a) && Holds(sha, b) && Prev(a, |a|) == Prev(b, |b|)
    ensures a == [] <==> b == []
  {
    PrevLength(sha, a, |a|);
    PrevLength(sha, b, |b|);
  }

  /** Two chains that hold and end in one hash are one chain, or two named inputs collide. */
  lemma {:induction false} SameTailSameChain(sha: string -> string, a: seq<Link>, b: seq<Link>)
    requires Is32Bytes(sha) && Holds(sha, a) && Holds(sha, b) && Apart(a, b)
    requires Prev(a, |a|) == Prev(b, |b|)
    ensures a == b || Collision(sha, a, b)
    decreases |a|
  {
    BothEmpty(sha, a, b);
    if a != [] {
      StepBack(sha, a, b);
      if !Collision(sha, a, b) {
        var n, m := |a| - 1, |b| - 1;
        PrefixHolds(sha, a, n);
        PrefixHolds(sha, b, m);
        PrefixesApart(a, b, n, m);
        SameTailSameChain(sha, a[..n], b[..m]);
        PrefixesTell(sha, a, b);
      }
    }
  }

  // ---------------------------------------------------------------- removed records

  /** Which records are kept, in their order. */
  predicate Increasing(idx: seq<nat>, n: nat) {
    (forall i | 0 <= i < |idx| :: idx[i] < n) && forall i, j | 0 <= i < j < |idx| :: idx[i] < idx[j]
  }

  function Kept<T>(c: seq<T>, idx: seq<nat>): seq<T>
    requires Increasing(idx, |c|)
  {
    seq(|idx|, i requires 0 <= i < |idx| => c[idx[i]])
  }

  /** Nothing is missing before the last kept record. */
  predicate IsPrefix(idx: seq<nat>) {
    forall i | 0 <= i < |idx| :: idx[i] == i
  }

  /** Two records of one chain never carry one hash, unless two of its inputs collide. */
  lemma {:induction false} RepeatedHash(sha: string -> string, c: seq<Link>, i: nat, j: nat)
    requires Is32Bytes(sha) && Holds(sha, c) && Apart(c, c) && i < j < |c| && c[i].hash == c[j].hash
    ensures Collision(sha, c, c)
  {
    if !Collision(sha, c, c) {
      SameInputs(sha, c, c, i, j);
      LastTells(sha, c, c, i, j);
      PrevLength(sha, c, i);
      PrevLength(sha, c, j);
      RepeatedHash(sha, c, i - 1, j - 1);
    }
  }

  lemma KeptInput(c: seq<Link>, idx: seq<nat>, n: nat)
    requires Increasing(idx, |c|) && n < |idx| && n <= idx[n] && forall i | 0 <= i < n :: idx[i] == i
    ensures Kept(c, idx)[n] == c[idx[n]] && Prev(Kept(c, idx), n) == Prev(c, n)
  {
    assert n > 0 ==> Kept(c, idx)[n - 1] == c[idx[n - 1]];
  }

  lemma SameBehind(p: string, q: string, text: string)
    requires p + text == q + text
    ensures p == q
  {
    assert |p + text| == |p| + |text| && |q + text| == |q| + |text|;
    CutFront(p, q, text, text);
  }

  /** The record after the first gap was hashed behind another predecessor. */
  lemma GapShows(sha: string -> string, c: seq<Link>, idx: seq<nat>, n: nat)
    requires Is32Bytes(sha) && Holds(sha, c) && Apart(c, c) && Increasing(idx, |c|) && Holds(sha, Kept(c, idx))
    requires n < |idx| && n < idx[n] && forall i | 0 <= i < n :: idx[i] == i
    ensures Collision(sha, c, Kept(c, idx)) || Collision(sha, c, c)
  {
    var kept, m := Kept(c, idx), idx[n];
    KeptInput(c, idx, n);
    if !Collision(sha, c, kept) {
      SameInputs(sha, c, kept, m, n);
      SameBehind(Prev(c, m), Prev(c, n), c[m].text);
      PrevLength(sha, c, m);
      RepeatedHash(sha, c, n - 1, m - 1);
    }
  }

  lemma {:induction false} LeastGap(idx: seq<nat>, n: nat, from: nat) returns (gap: nat)
    requires Increasing(idx, n) && from <= |idx| && (forall i | 0 <= i < from :: idx[i] == i) && !IsPrefix(idx)
    ensures gap < |idx| && gap < idx[gap] && forall i | 0 <= i < gap :: idx[i] == i
    decreases |idx| - from
  {
    if idx[from] == from {
      gap := LeastGap(idx, n, from + 1);
    } else {
      gap := from;
      assert from > 0 ==> idx[from - 1] < idx[from];
    }
  }

  /** Records removed from a chain that holds leave one that holds exactly when only the end is
      missing, or two named inputs collide. */
  lemma RemovalShows(sha: string -> string, c: seq<Link>, idx: seq<nat>)
    requires Is32Bytes(sha) && Holds(sha, c) && Apart(c, c) && Increasing(idx, |c|)
    ensures Collision(sha, c, Kept(c, idx)) || Collision(sha, c, c) || (Holds(sha, Kept(c, idx)) <==> IsPrefix(idx))
  {
    if IsPrefix(idx) {
      assert |idx| > 0 ==> idx[|idx| - 1] < |c|;
      assert Kept(c, idx) == c[..|idx|];
      PrefixHolds(sha, c, |idx|);
    } else if Holds(sha, Kept(c, idx)) {
      var n := LeastGap(idx, |c|, 0);
      GapShows(sha, c, idx, n);
    }
  }
}
