/** Conditional peer sync: a version token, and an agent that trusts "not modified". */
module PeerSync {
  import opened Bytes
  import opened Net
  import Order
  import opened Seqs

  // ---------------------------------------------------------------- peers and their token

  /** A peer as the controller sends it: absent parts are empty. */
  datatype Peer = Peer(key: seq<nat>, psk: seq<nat>, v4: seq<nat>, v6: seq<nat>, keepalive: nat)

  /** Which optional parts a peer record has. */
  datatype Shape = Shape(psk: bool, v4: bool, v6: bool)

  ghost predicate HasShape(p: Peer, s: Shape) {
    && |p.key| == 32
    && |p.psk| == (if s.psk then 32 else 0)
    && |p.v4| == (if s.v4 then 4 else 0)
    && |p.v6| == (if s.v6 then 16 else 0)
    && p.keepalive < 0x1_0000_0000
  }

  function ShapeOf(p: Peer): Shape {
    Shape(p.psk != [], p.v4 != [], p.v6 != [])
  }

  /** The peers' records have only these shapes. */
  ghost predicate Fit(peers: seq<Peer>, shapes: set<Shape>) {
    forall p | p in peers :: HasShape(p, ShapeOf(p)) && ShapeOf(p) in shapes
  }

  /** What registration and rotation write: a pre-shared key and an IPv4 address always, an IPv6 address
      when the tenant had a pool. */
  const REGISTERED := {Shape(true, true, false), Shape(true, true, true)}

  /** The byte before the keepalive where it is a prefix length, else 0. */
  function Tag(s: Shape): nat {
    if s.v6 then 128 else if s.v4 then 32 else 0
  }

  /** One record ends in its IPv4 part and the other in its IPv6 part. */
  predicate ToldApart(s: Shape, t: Shape) {
    Tag(s) != 0 && Tag(t) != 0 && Tag(s) != Tag(t)
  }

  /** Any two shapes are told apart by how their records end. */
  ghost predicate Readable(shapes: set<Shape>) {
    forall s, t | s in shapes && t in shapes && s != t :: ToldApart(s, t)
  }

  predicate DistinctKeys(peers: seq<Peer>) {
    forall i, j | 0 <= i < j < |peers| :: peers[i].key != peers[j].key
  }

  predicate KeyLe(p: Peer, q: Peer) {
    ByteLe(p.key, q.key)
  }

  function Prefixes(p: Peer): seq<nat> {
    (if |p.v4| == 4 then p.v4 + [32] else []) + (if |p.v6| == 16 then p.v6 + [128] else [])
  }

  /** The bytes hashed for one peer: nothing separates its parts. */
  function Record(p: Peer): (r: seq<nat>)
    ensures |r| >= 4
  {
    p.key + (p.psk + (Prefixes(p) + BigEndian(p.keepalive, 4)))
  }

  function Records(peers: seq<Peer>): seq<nat> {
    if peers == [] then [] else Record(peers[0]) + Records(peers[1..])
  }

  function Input(seqNo: nat, peers: seq<Peer>): seq<nat> {
    Records(Order.Sort(KeyLe, peers)) + BigEndian(seqNo, 8)
  }

  /** The token's two parts; its text form is one-to-one. */
  datatype Token = Token(seqNo: nat, hash: seq<nat>)

  function Version(digest: seq<nat> -> seq<nat>, seqNo: nat, peers: seq<Peer>): Token {
    Token(seqNo, digest(Input(seqNo, peers)))
  }

  lemma KeyLeIsTotal()
    ensures Order.TotalPreorder(KeyLe)
  {
    forall p: Peer, q: Peer ensures KeyLe(p, q) || KeyLe(q, p) {
      ByteLeLinear(p.key, q.key);
    }
    forall p: Peer, q: Peer, r: Peer | KeyLe(p, q) && KeyLe(q, r) ensures KeyLe(p, r) {
      ByteLeTransitive(p.key, q.key, r.key);
    }
  }

  lemma KeysDoNotTie(peers: seq<Peer>)
    requires DistinctKeys(peers)
    ensures Order.NoTies(KeyLe, peers)
  {
    forall p, q | p in peers && q in peers && KeyLe(p, q) && KeyLe(q, p) ensures p == q {
      ByteLeLinear(p.key, q.key);
    }
  }

  /** The peers' order does not matter to the token. */
  lemma VersionIgnoresOrder(digest: seq<nat> -> seq<nat>, seqNo: nat, a: seq<Peer>, b: seq<Peer>)
    requires DistinctKeys(a) && multiset(a) == multiset(b)
    ensures Version(digest, seqNo, a) == Version(digest, seqNo, b)
  {
    KeyLeIsTotal();
    KeysDoNotTie(a);
    Order.SortIgnoresOrder(KeyLe, a, b);
  }

  /** The hashing loop over a sorted copy. */
  method ComputeVersion(digest: seq<nat> -> seq<nat>, seqNo: nat, peers: seq<Peer>) returns (v: Token)
    ensures v == Version(digest, seqNo, peers)
  {
    var sorted := Order.Sort(KeyLe, peers);
    var h := [];
    for i := 0 to |sorted|
      invariant h + Records(sorted[i..]) == Records(sorted)
    {
      var p := sorted[i];
      var r := WriteRecord(p);
      assert sorted[i..][0] == p && sorted[i..][1..] == sorted[i + 1..];
      assert h + Records(sorted[i..]) == (h + r) + Records(sorted[i + 1..]);
      h := h + r;
    }
    assert h == Records(sorted);
    v := Token(seqNo, digest(h + BigEndian(seqNo, 8)));
  }

  method WriteRecord(p: Peer) returns (h: seq<nat>)
    ensures h == Record(p)
  {
    h := p.key;
    h := h + p.psk;
    if |p.v4| == 4 {
      h := h + p.v4;
      h := h + [32];
    }
    if |p.v6| == 16 {
      h := h + p.v6;
      h := h + [128];
    }
    h := h + BigEndian(p.keepalive, 4);
  }

  // ---------------------------------------------------------------- equal tokens, equal peers

  lemma PrefixesTell(p: Peer, q: Peer, s: Shape)
    requires HasShape(p, s) && HasShape(q, s) && Prefixes(p) == Prefixes(q)
    ensures p.v4 == q.v4 && p.v6 == q.v6
  {
    var a4, b4 := if s.v4 then p.v4 + [32] else [], if s.v4 then q.v4 + [32] else [];
    var a6, b6 := if s.v6 then p.v6 + [128] else [], if s.v6 then q.v6 + [128] else [];
    CutFront(a4, b4, a6, b6);
    if s.v4 { CutFront(p.v4, q.v4, [32], [32]); }
    if s.v6 { CutFront(p.v6, q.v6, [128], [128]); }
  }

  lemma RecordTells(p: Peer, q: Peer, s: Shape)
    requires HasShape(p, s) && HasShape(q, s) && Record(p) == Record(q)
    ensures p == q
  {
    var kp, kq := BigEndian(p.keepalive, 4), BigEndian(q.keepalive, 4);
    CutFront(p.key, q.key, p.psk + (Prefixes(p) + kp), q.psk + (Prefixes(q) + kq));
    CutFront(p.psk, q.psk, Prefixes(p) + kp, Prefixes(q) + kq);
    CutFront(Prefixes(p), Prefixes(q), kp, kq);
    PrefixesTell(p, q, s);
    assert Weight(2) == 0x1_0000;
    assert Weight(4) == 0x1_0000_0000;
    BigEndianRoundTrip(p.keepalive, 4);
    BigEndianRoundTrip(q.keepalive, 4);
  }

  function Width(s: Shape): nat {
    36 + (if s.psk then 32 else 0) + (if s.v4 then 5 else 0) + (if s.v6 then 17 else 0)
  }

  lemma RecordWidth(p: Peer, s: Shape)
    requires HasShape(p, s)
    ensures |Record(p)| == Width(s)
  {
  }

  /** The byte before the keepalive, in a text that ends in a record. */
  lemma TagByte(p: Peer, s: Shape, front: seq<nat>)
    requires HasShape(p, s) && Tag(s) != 0
    ensures var text := front + Record(p); |text| >= 5 && text[|text| - 5] == Tag(s)
  {
    var r, ka := Record(p), BigEndian(p.keepalive, 4);
    var head := p.key + (p.psk + Prefixes(p));
    assert r == head + ka;
    assert Prefixes(p)[|Prefixes(p)| - 1] == Tag(s);
    assert head[|head| - 1] == Tag(s);
    assert (front + r)[|front| + |head| - 1] == r[|head| - 1];
  }

  /** Read from the right, a text of told-apart records gives up its last record. */
  lemma LastTells(p: Peer, q: Peer, shapes: set<Shape>, x: seq<nat>, y: seq<nat>)
    requires Readable(shapes) && Fit([p], shapes) && Fit([q], shapes) && x + Record(p) == y + Record(q)
    ensures p == q && x == y
  {
    assert p in [p] && q in [q];
    var s, t := ShapeOf(p), ShapeOf(q);
    if s != t {
      assert ToldApart(s, t);
      TagByte(p, s, x);
      TagByte(q, t, y);
    }
    assert s == t;
    RecordWidth(p, s);
    RecordWidth(q, s);
    assert |x + Record(p)| == |x| + |Record(p)| && |y + Record(q)| == |y| + |Record(q)|;
    CutFront(x, y, Record(p), Record(q));
    RecordTells(p, q, s);
  }

  lemma {:induction false} RecordsFromBack(peers: seq<Peer>)
    requires peers != []
    ensures Records(peers) == Records(peers[..|peers| - 1]) + Record(peers[|peers| - 1])
  {
    var n := |peers| - 1;
    if n == 0 {
      assert Records(peers) == Record(peers[0]) + [];
    } else {
      RecordsFromBack(peers[1..]);
      assert peers[1..][..n - 1] == peers[..n][1..];
      Assoc(Record(peers[0]), Records(peers[..n][1..]), Record(peers[n]));
    }
  }

  lemma FrontFits(peers: seq<Peer>, shapes: set<Shape>)
    requires Fit(peers, shapes) && peers != []
    ensures Fit(peers[..|peers| - 1], shapes) && Fit([peers[|peers| - 1]], shapes)
  {
    assert peers[|peers| - 1] in peers;
  }

  lemma OneMorePeer(a: seq<Peer>, b: seq<Peer>)
    requires a != [] && b != [] && a[|a| - 1] == b[|b| - 1] && a[..|a| - 1] == b[..|b| - 1]
    ensures a == b
  {
    assert a == a[..|a| - 1] + [a[|a| - 1]] && b == b[..|b| - 1] + [b[|b| - 1]];
  }

  lemma {:induction false} RecordsTell(a: seq<Peer>, b: seq<Peer>, shapes: set<Shape>)
    requires Readable(shapes) && Fit(a, shapes) && Fit(b, shapes) && Records(a) == Records(b)
    ensures a == b
    decreases |a|
  {
    assert Records(a) == [] <==> a == [];
    assert Records(b) == [] <==> b == [];
    if a != [] {
      var n, m := |a| - 1, |b| - 1;
      RecordsFromBack(a);
      RecordsFromBack(b);
      FrontFits(a, shapes);
      FrontFits(b, shapes);
      LastTells(a[n], b[m], shapes, Records(a[..n]), Records(b[..m]));
      RecordsTell(a[..n], b[..m], shapes);
      OneMorePeer(a, b);
    }
  }

  lemma SortFits(peers: seq<Peer>, shapes: set<Shape>)
    requires Fit(peers, shapes)
    ensures Fit(Order.Sort(KeyLe, peers), shapes) && multiset(Order.Sort(KeyLe, peers)) == multiset(peers)
  {
    KeyLeIsTotal();
    Order.SortSorts(KeyLe, peers);
    forall p | p in Order.Sort(KeyLe, peers) ensures p in peers {
      assert p in multiset(peers);
    }
  }

  ghost predicate Collision(digest: seq<nat> -> seq<nat>, x: seq<nat>, y: seq<nat>) {
    x != y && digest(x) == digest(y)
  }

  /** When any two shapes are told apart, equal tokens mean the same peers, up to an explicit
      hash collision; and the same peers have one token. */
  lemma TokensTellPeers(digest: seq<nat> -> seq<nat>, m: nat, a: seq<Peer>, n: nat, b: seq<Peer>, shapes: set<Shape>)
    requires Readable(shapes) && Fit(a, shapes) && Fit(b, shapes) && DistinctKeys(a)
    ensures Version(digest, m, a) == Version(digest, n, b) ==>
              (m == n && multiset(a) == multiset(b)) || Collision(digest, Input(m, a), Input(n, b))
    ensures m == n && multiset(a) == multiset(b) ==> Version(digest, m, a) == Version(digest, n, b)
  {
    if m == n && multiset(a) == multiset(b) {
      VersionIgnoresOrder(digest, m, a, b);
    }
    if Version(digest, m, a) == Version(digest, n, b) && Input(m, a) == Input(n, b) {
      var s, t := Order.Sort(KeyLe, a), Order.Sort(KeyLe, b);
      assert |Records(s) + BigEndian(m, 8)| == |Records(s)| + 8 && |Records(t) + BigEndian(n, 8)| == |Records(t)| + 8;
      CutFront(Records(s), Records(t), BigEndian(m, 8), BigEndian(n, 8));
      SortFits(a, shapes);
      SortFits(b, shapes);
      RecordsTell(s, t, shapes);
    }
  }

  /** The hash alone tells the sequence too, while it fits 64 bits. */
  lemma HashTellsPeers(digest: seq<nat> -> seq<nat>, m: nat, a: seq<Peer>, n: nat, b: seq<Peer>, shapes: set<Shape>)
    requires Readable(shapes) && Fit(a, shapes) && Fit(b, shapes) && DistinctKeys(a) && m < Weight(8) && n < Weight(8)
    requires Version(digest, m, a).hash == Version(digest, n, b).hash
    ensures (m == n && multiset(a) == multiset(b)) || Collision(digest, Input(m, a), Input(n, b))
  {
    if Input(m, a) == Input(n, b) {
      var s, t := Order.Sort(KeyLe, a), Order.Sort(KeyLe, b);
      assert |Records(s) + BigEndian(m, 8)| == |Records(s)| + 8 && |Records(t) + BigEndian(n, 8)| == |Records(t)| + 8;
      CutFront(Records(s), Records(t), BigEndian(m, 8), BigEndian(n, 8));
      BigEndianRoundTrip(m, 8);
      BigEndianRoundTrip(n, 8);
      TokensTellPeers(digest, m, a, n, b, shapes);
    }
  }

  // ---------------------------------------------------------------- shapes that are not told apart

  /** A byte of a record that its peer does not choose, if it is one. */
  datatype Mark = Free | Is(byte: nat)

  /** The prefix lengths and the keepalive `ka` are fixed, all else is free. */
  function MarkAt(s: Shape, ka: seq<nat>, j: nat): Mark
    requires |ka| == 4 && j < Width(s)
  {
    var end := Width(s) - 4;
    if j >= end then Is(ka[j - end])
    else if s.v6 && j == end - 1 then Is(128)
    else if s.v4 && j == (if s.psk then 68 else 36) then Is(32)
    else Free
  }

  ghost predicate Marked(s: Shape, ka: seq<nat>, text: seq<nat>)
    requires |ka| == 4 && |text| == Width(s)
  {
    forall j | 0 <= j < |text| :: MarkAt(s, ka, j).Is? ==> text[j] == MarkAt(s, ka, j).byte
  }

  /** The peer whose record a text is. */
  function Cut(s: Shape, text: seq<nat>, k: nat): Peer
    requires |text| == Width(s)
  {
    var at4 := if s.psk then 64 else 32;
    var at6 := if s.v4 then at4 + 5 else at4;
    Peer(text[..32], text[32..at4], if s.v4 then text[at4..at4 + 4] else [], if s.v6 then text[at6..at6 + 16] else [], k)
  }

  lemma CutReadsBack(s: Shape, text: seq<nat>, k: nat)
    requires |text| == Width(s) && Marked(s, BigEndian(k, 4), text) && k < 0x1_0000_0000
    ensures HasShape(Cut(s, text, k), s) && ShapeOf(Cut(s, text, k)) == s && Record(Cut(s, text, k)) == text
  {
    var ka, p := BigEndian(k, 4), Cut(s, text, k);
    var at4 := if s.psk then 64 else 32;
    var at6 := if s.v4 then at4 + 5 else at4;
    var end := Width(s) - 4;
    assert text[end..] == ka by {
      forall i | 0 <= i < 4 ensures text[end + i] == ka[i] {
        assert MarkAt(s, ka, end + i) == Is(ka[i]);
      }
    }
    assert (if s.v4 then p.v4 + [32] else []) == text[at4..at6] by {
      assert s.v4 ==> MarkAt(s, ka, at4 + 4) == Is(32);
    }
    assert (if s.v6 then p.v6 + [128] else []) == text[at6..end] by {
      assert s.v6 ==> MarkAt(s, ka, at6 + 16) == Is(128);
    }
    assert Prefixes(p) == text[at4..at6] + text[at6..end];
    Slices(text, at4, at6, end);
  }

  lemma Slices(text: seq<nat>, at4: nat, at6: nat, end: nat)
    requires 32 <= at4 <= at6 <= end <= |text|
    ensures text == text[..32] + (text[32..at4] + ((text[at4..at6] + text[at6..end]) + text[end..]))
  {
  }

  /** What a record of shape `s` followed by one of shape `t` fixes of their text. */
  function PairMark(s: Shape, t: Shape, ka: seq<nat>, i: nat): Mark
    requires |ka| == 4 && i < Width(s) + Width(t)
  {
    if i < Width(s) then MarkAt(s, ka, i) else MarkAt(t, ka, i - Width(s))
  }

  /** A text that reads as two records either way round. */
  function Shared(s: Shape, t: Shape, ka: seq<nat>): seq<nat>
    requires |ka| == 4
  {
    seq(Width(s) + Width(t), i requires 0 <= i < Width(s) + Width(t) =>
      if PairMark(s, t, ka, i).Is? then PairMark(s, t, ka, i).byte
      else if PairMark(t, s, ka, i).Is? then PairMark(t, s, ka, i).byte
      else if i < 32 then 0 else 255)
  }

  lemma MarksAgree(s: Shape, t: Shape, ka: seq<nat>, i: nat)
    requires |ka| == 4 && s != t && !ToldApart(s, t) && i < Width(s) + Width(t)
    ensures PairMark(s, t, ka, i).Is? && PairMark(t, s, ka, i).Is? ==> PairMark(s, t, ka, i) == PairMark(t, s, ka, i)
  {
  }

  predicate OfBytes(p: Peer) {
    IsBytes(p.key) && IsBytes(p.psk) && IsBytes(p.v4) && IsBytes(p.v6)
  }

  /** The two peers of a text of their records. */
  function Halves(s: Shape, t: Shape, text: seq<nat>, k: nat): seq<Peer>
    requires |text| == Width(s) + Width(t)
  {
    [Cut(s, text[..Width(s)], k), Cut(t, text[Width(s)..], k)]
  }

  lemma HalvesMarked(s: Shape, t: Shape, text: seq<nat>, ka: seq<nat>)
    requires |ka| == 4 && |text| == Width(s) + Width(t)
    requires forall i | 0 <= i < |text| :: PairMark(s, t, ka, i).Is? ==> text[i] == PairMark(s, t, ka, i).byte
    ensures Marked(s, ka, text[..Width(s)]) && Marked(t, ka, text[Width(s)..])
  {
    forall j | 0 <= j < Width(s) ensures MarkAt(s, ka, j).Is? ==> text[j] == MarkAt(s, ka, j).byte {
      assert PairMark(s, t, ka, j) == MarkAt(s, ka, j);
    }
    forall j | 0 <= j < Width(t) ensures MarkAt(t, ka, j).Is? ==> text[Width(s)..][j] == MarkAt(t, ka, j).byte {
      assert PairMark(s, t, ka, Width(s) + j) == MarkAt(t, ka, j);
    }
  }

  lemma TwoFit(p: Peer, q: Peer)
    requires HasShape(p, ShapeOf(p)) && HasShape(q, ShapeOf(q))
    ensures Fit([p, q], {ShapeOf(p), ShapeOf(q)})
  {
  }

  lemma HalvesReadBack(s: Shape, t: Shape, text: seq<nat>, k: nat)
    requires |text| == Width(s) + Width(t) && k < 0x1_0000_0000
    requires Marked(s, BigEndian(k, 4), text[..Width(s)]) && Marked(t, BigEndian(k, 4), text[Width(s)..])
    ensures var a := Halves(s, t, text, k);
            && Records(a) == text && Fit(a, {s, t}) && ShapeOf(a[0]) == s && ShapeOf(a[1]) == t
  {
    var front, back := text[..Width(s)], text[Width(s)..];
    CutReadsBack(s, front, k);
    CutReadsBack(t, back, k);
    TwoRecords(Cut(s, front, k), Cut(t, back, k));
    TwoFit(Cut(s, front, k), Cut(t, back, k));
    assert text == front + back;
  }

  lemma TwoRecords(p: Peer, q: Peer)
    ensures Records([p, q]) == Record(p) + Record(q)
  {
    assert [p, q][1..] == [q] && [q][1..] == [];
    assert Records([q]) == Record(q) + [];
  }

  lemma TwoInOrder(p: Peer, q: Peer)
    requires ByteLess(p.key, q.key)
    ensures Order.Sort(KeyLe, [p, q]) == [p, q] && DistinctKeys([p, q])
  {
    assert [p, q][1..] == [q] && [q][1..] == [];
    assert Order.Sort(KeyLe, [q]) == Order.Insert(KeyLe, q, []) == [q];
    ByteLeLinear(p.key, q.key);
    NotBelowItself(p.key);
  }

  lemma {:induction false} NotBelowItself(a: seq<nat>)
    ensures !ByteLess(a, a)
  {
    if a != [] {
      NotBelowItself(a[1..]);
    }
  }

  /** The first key of the shared text is all zero, the second is not, either way round. */
  lemma SecondKeyIsLater(s: Shape, t: Shape, k: nat)
    requires s != t && !ToldApart(s, t)
    ensures var text := Shared(s, t, BigEndian(k, 4));
            && text[0] == 0 < text[Width(s)] && 0 < text[Width(t)]
  {
  }

  lemma SharedReadsBack(s: Shape, t: Shape, k: nat)
    requires s != t && !ToldApart(s, t) && k < 0x1_0000_0000
    ensures var text := Shared(s, t, BigEndian(k, 4));
            && Records(Halves(s, t, text, k)) == text == Records(Halves(t, s, text, k))
            && Fit(Halves(s, t, text, k), {s, t}) && Fit(Halves(t, s, text, k), {s, t})
            && ShapeOf(Halves(s, t, text, k)[0]) == s && ShapeOf(Halves(t, s, text, k)[0]) == t
  {
    var ka, text := BigEndian(k, 4), Shared(s, t, BigEndian(k, 4));
    forall i | 0 <= i < |text| ensures PairMark(t, s, ka, i).Is? ==> text[i] == PairMark(t, s, ka, i).byte {
      MarksAgree(s, t, ka, i);
    }
    HalvesMarked(s, t, text, ka);
    HalvesMarked(t, s, text, ka);
    HalvesReadBack(s, t, text, k);
    HalvesReadBack(t, s, text, k);
    assert {s, t} == {t, s};
  }

  lemma HalvesInOrder(s: Shape, t: Shape, text: seq<nat>, k: nat)
    requires |text| == Width(s) + Width(t) && text[0] < text[Width(s)]
    ensures var a := Halves(s, t, text, k);
            && a[0].key == text[..32] && a[1].key == text[Width(s)..Width(s) + 32]
            && Order.Sort(KeyLe, a) == a && DistinctKeys(a)
  {
    var a := Halves(s, t, text, k);
    assert a[0].key[0] == text[0] && a[1].key[0] == text[Width(s)];
    TwoInOrder(a[0], a[1]);
  }

  lemma CutOfBytes(s: Shape, text: seq<nat>, k: nat)
    requires |text| == Width(s) && IsBytes(text)
    ensures OfBytes(Cut(s, text, k)) && Cut(s, text, k).keepalive == k
  {
  }

  lemma HalvesAreBytes(s: Shape, t: Shape, text: seq<nat>, k: nat)
    requires |text| == Width(s) + Width(t) && IsBytes(text)
    ensures forall p | p in Halves(s, t, text, k) :: OfBytes(p) && p.keepalive == k
  {
    CutOfBytes(s, text[..Width(s)], k);
    CutOfBytes(t, text[Width(s)..], k);
  }

  lemma SharedOfBytes(s: Shape, t: Shape, ka: seq<nat>)
    requires |ka| == 4 && IsBytes(ka)
    ensures IsBytes(Shared(s, t, ka))
  {
  }

  /** Lists whose first peers have one key and different shapes, while the second key is another. */
  lemma DifferentLists(a: seq<Peer>, b: seq<Peer>)
    requires |a| == |b| == 2 && a[0].key == b[0].key != b[1].key && ShapeOf(a[0]) != ShapeOf(b[0])
    ensures multiset(a) != multiset(b)
  {
    assert a[0] in multiset(a) && a[0] !in b;
  }

  lemma HalvesDiffer(s: Shape, t: Shape, k: nat)
    requires s != t && !ToldApart(s, t) && k < 0x1_0000_0000
    ensures var text := Shared(s, t, BigEndian(k, 4));
            && multiset(Halves(s, t, text, k)) != multiset(Halves(t, s, text, k))
            && (forall p | p in Halves(s, t, text, k) + Halves(t, s, text, k) :: OfBytes(p) && p.keepalive == k)
            && (forall seqNo :: Input(seqNo, Halves(s, t, text, k)) == Input(seqNo, Halves(t, s, text, k)))
            && DistinctKeys(Halves(s, t, text, k)) && DistinctKeys(Halves(t, s, text, k))
  {
    var text := Shared(s, t, BigEndian(k, 4));
    SharedReadsBack(s, t, k);
    SecondKeyIsLater(s, t, k);
    HalvesInOrder(s, t, text, k);
    HalvesInOrder(t, s, text, k);
    SharedOfBytes(s, t, BigEndian(k, 4));
    HalvesAreBytes(s, t, text, k);
    HalvesAreBytes(t, s, text, k);
    DifferentLists(Halves(s, t, text, k), Halves(t, s, text, k));
  }

  /** Two shapes that are not told apart: two lists of different peers, with distinct keys and any
      one keepalive, have one token under every hash. Keys, pre-shared keys and addresses can hold
      the bytes that end one record and begin the next. */
  lemma MixedShapesCollide(digest: seq<nat> -> seq<nat>, seqNo: nat, s: Shape, t: Shape, k: nat)
    returns (a: seq<Peer>, b: seq<Peer>)
    requires s != t && !ToldApart(s, t) && k < 0x1_0000_0000
    ensures Fit(a, {s, t}) && Fit(b, {s, t}) && DistinctKeys(a) && DistinctKeys(b)
    ensures forall p | p in a + b :: OfBytes(p) && p.keepalive == k
    ensures multiset(a) != multiset(b) && Input(seqNo, a) == Input(seqNo, b)
    ensures Version(digest, seqNo, a) == Version(digest, seqNo, b)
  {
    var text := Shared(s, t, BigEndian(k, 4));
    a, b := Halves(s, t, text, k), Halves(t, s, text, k);
    SharedReadsBack(s, t, k);
    HalvesDiffer(s, t, k);
  }

  /** Equal tokens mean equal peers, for all lists of records of these shapes. */
  ghost predicate TokensTell(digest: seq<nat> -> seq<nat>, shapes: set<Shape>) {
    forall m, a, n, b | Fit(a, shapes) && Fit(b, shapes) && DistinctKeys(a) && DistinctKeys(b)
                        && Version(digest, m, a) == Version(digest, n, b) ::
      (m == n && multiset(a) == multiset(b)) || Collision(digest, Input(m, a), Input(n, b))
  }

  lemma ReadableTell(digest: seq<nat> -> seq<nat>, shapes: set<Shape>)
    requires Readable(shapes)
    ensures TokensTell(digest, shapes)
  {
    forall m, a, n, b | Fit(a, shapes) && Fit(b, shapes) && DistinctKeys(a) && DistinctKeys(b)
                        && Version(digest, m, a) == Version(digest, n, b)
      ensures (m == n && multiset(a) == multiset(b)) || Collision(digest, Input(m, a), Input(n, b))
    {
      TokensTellPeers(digest, m, a, n, b, shapes);
    }
  }

  lemma OneTokenRefutes(digest: seq<nat> -> seq<nat>, shapes: set<Shape>, seqNo: nat, a: seq<Peer>, b: seq<Peer>)
    requires Fit(a, shapes) && Fit(b, shapes) && DistinctKeys(a) && DistinctKeys(b)
    requires multiset(a) != multiset(b) && Input(seqNo, a) == Input(seqNo, b)
    ensures !TokensTell(digest, shapes)
  {
    assert Version(digest, seqNo, a) == Version(digest, seqNo, b);
  }

  lemma FitMore(peers: seq<Peer>, few: set<Shape>, shapes: set<Shape>)
    requires Fit(peers, few) && few <= shapes
    ensures Fit(peers, shapes)
  {
  }

  lemma UnreadableFail(digest: seq<nat> -> seq<nat>, shapes: set<Shape>, s: Shape, t: Shape)
    requires s in shapes && t in shapes && s != t && !ToldApart(s, t)
    ensures !TokensTell(digest, shapes)
  {
    var a, b := MixedShapesCollide(digest, 0, s, t, 0);
    FitMore(a, {s, t}, shapes);
    FitMore(b, {s, t}, shapes);
    OneTokenRefutes(digest, shapes, 0, a, b);
  }

  /** Whatever the hash, tokens tell peers exactly when any two shapes are told apart. */
  lemma TokensTellExactly(digest: seq<nat> -> seq<nat>, shapes: set<Shape>)
    ensures TokensTell(digest, shapes) <==> Readable(shapes)
  {
    if Readable(shapes) {
      ReadableTell(digest, shapes);
    } else {
      var s, t :| s in shapes && t in shapes && s != t && !ToldApart(s, t);
      UnreadableFail(digest, shapes, s, t);
    }
  }

  lemma NoThirdShape(shapes: set<Shape>, s: Shape, t: Shape)
    requires Readable(shapes) && s in shapes && t in shapes && s != t
    ensures shapes == {s, t} && ToldApart(s, t)
  {
    forall u | u in shapes ensures u == s || u == t {
      assert u != s && u != t ==> ToldApart(u, s) && ToldApart(u, t) && ToldApart(s, t);
    }
  }

  lemma OneShape(shapes: set<Shape>)
    requires |shapes| <= 1
    ensures Readable(shapes)
  {
    forall s, t | s in shapes && t in shapes ensures s == t {
      assert |shapes - {s}| == |shapes| - 1;
    }
  }

  /** That is: at most one shape, or one ending in its IPv4 part and one ending in its IPv6 part. */
  lemma ReadableSets(shapes: set<Shape>)
    ensures Readable(shapes) <==> |shapes| <= 1 || exists s, t :: shapes == {s, t} && Tag(s) == 32 && Tag(t) == 128
  {
    if |shapes| <= 1 {
      OneShape(shapes);
    } else if Readable(shapes) {
      var s :| s in shapes;
      assert |shapes - {s}| == |shapes| - 1;
      var t :| t in shapes - {s};
      NoThirdShape(shapes, s, t);
      assert shapes == {t, s};
    }
  }

  lemma RegisteredReadable()
    ensures Readable(REGISTERED)
  {
  }

  // ---------------------------------------------------------------- the controller's side

  /** One row of the join the controller reads, in activation order; `activated` is in microseconds. */
  datatype KeyRow = KeyRow(
    tenant: nat, status: string, deviceDeleted: bool, revoked: bool,
    key: seq<nat>, psk: seq<nat>, v4: seq<nat>, v6: seq<nat>, activated: int)

  predicate IsActive(r: KeyRow, tenant: nat) {
    r.tenant == tenant && !r.revoked && !r.deviceDeleted && (r.status == "active" || r.status == "suspended")
  }

  function ActivePeers(rows: seq<KeyRow>, tenant: nat, keepalive: nat): seq<Peer> {
    if rows == [] then []
    else
      (if IsActive(rows[0], tenant)
       then [PeerOf(rows[0], keepalive)] else [])
      + ActivePeers(rows[1..], tenant, keepalive)
  }

  /** The latest activation among the active rows, from `least` up. */
  function MaxSeq(rows: seq<KeyRow>, tenant: nat, least: nat): nat {
    if rows == [] then least
    else MaxSeq(rows[1..], tenant, if IsActive(rows[0], tenant) && rows[0].activated > least then rows[0].activated else least)
  }

  function PeerOf(r: KeyRow, keepalive: nat): Peer {
    Peer(r.key, r.psk, if |r.v4| == 4 then r.v4 else [], if |r.v6| == 16 then r.v6 else [], keepalive)
  }

  /** In columns: an unrevoked key of an undeleted, active or suspended device of the tenant, with its own
      key material and addresses of the right length. */
  predicate Gives(r: KeyRow, tenant: nat, keepalive: nat, p: Peer) {
    && r.tenant == tenant && r.revoked == false && r.deviceDeleted == false && r.status in {"active", "suspended"}
    && p.key == r.key && p.psk == r.psk && p.keepalive == keepalive
    && (if |r.v4| == 4 then p.v4 == r.v4 else p.v4 == []) && (if |r.v6| == 16 then p.v6 == r.v6 else p.v6 == [])
  }

  lemma GivesInColumns(r: KeyRow, tenant: nat, keepalive: nat, p: Peer)
    ensures Gives(r, tenant, keepalive, p) <==> IsActive(r, tenant) && p == PeerOf(r, keepalive)
  {
  }

  /** Listed exactly: what such rows give. */
  lemma {:induction false} ActivePeersMeaning(rows: seq<KeyRow>, tenant: nat, keepalive: nat, p: Peer)
    ensures p in ActivePeers(rows, tenant, keepalive) <==> exists r :: r in rows && Gives(r, tenant, keepalive, p)
  {
    if rows != [] {
      ActivePeersMeaning(rows[1..], tenant, keepalive, p);
      GivesInColumns(rows[0], tenant, keepalive, p);
      assert rows == [rows[0]] + rows[1..];
    }
  }

  lemma {:induction false} MaxSeqIsLatest(rows: seq<KeyRow>, tenant: nat, least: nat)
    ensures least <= MaxSeq(rows, tenant, least)
    ensures forall r, p | r in rows && Gives(r, tenant, 0, p) :: r.activated <= MaxSeq(rows, tenant, least)
    ensures MaxSeq(rows, tenant, least) == least
            || exists r, p :: r in rows && Gives(r, tenant, 0, p) && r.activated == MaxSeq(rows, tenant, least)
  {
    if rows != [] {
      GivesInColumns(rows[0], tenant, 0, PeerOf(rows[0], 0));
      MaxSeqIsLatest(rows[1..], tenant, if IsActive(rows[0], tenant) && rows[0].activated > least then rows[0].activated else least);
      assert rows == [rows[0]] + rows[1..];
    }
  }

  method MakePeer(r: KeyRow, keepalive: nat) returns (spec: Peer)
    ensures spec == PeerOf(r, keepalive)
  {
    spec := Peer(r.key, r.psk, [], [], keepalive);
    if |r.v4| == 4 {
      spec := spec.(v4 := r.v4);
    }
    if |r.v6| == 16 {
      spec := spec.(v6 := r.v6);
    }
  }

  method LoadActivePeers(rows: seq<KeyRow>, tenant: nat, keepalive: nat) returns (peers: seq<Peer>, maxSeq: nat)
    ensures peers == ActivePeers(rows, tenant, keepalive) && maxSeq == MaxSeq(rows, tenant, 0)
  {
    peers, maxSeq := [], 0;
    for i := 0 to |rows|
      invariant peers + ActivePeers(rows[i..], tenant, keepalive) == ActivePeers(rows, tenant, keepalive)
      invariant MaxSeq(rows[i..], tenant, maxSeq) == MaxSeq(rows, tenant, 0)
    {
      var r := rows[i];
      Suffix(rows, i);
      if !IsActive(r, tenant) {
        assert ActivePeers(rows[i..], tenant, keepalive) == ActivePeers(rows[i + 1..], tenant, keepalive);
      } else {
        var spec := MakePeer(r, keepalive);
        Assoc(peers, [spec], ActivePeers(rows[i + 1..], tenant, keepalive));
        peers := peers + [spec];
        if r.activated > maxSeq {
          maxSeq := r.activated;
        }
      }
    }
  }

  datatype Answer = NotModified(version: Token) | Full(version: Token, peers: seq<Peer>)

  /** The controller's answer: peers are left out only when the caller's token is the current one. */
  method Sync(digest: seq<nat> -> seq<nat>, rows: seq<KeyRow>, tenant: nat, keepalive: nat, current: Option<Token>)
    returns (answer: Answer)
    ensures var peers := ActivePeers(rows, tenant, keepalive);
            var version := Version(digest, MaxSeq(rows, tenant, 0), peers);
            answer == if current == Some(version) then NotModified(version) else Full(version, peers)
  {
    var peers, seqNo := LoadActivePeers(rows, tenant, keepalive);
    var version := ComputeVersion(digest, seqNo, peers);
    if current.Some? && current.value == version {
      return NotModified(version);
    }
    answer := Full(version, peers);
  }

  // ---------------------------------------------------------------- the engine

  datatype Telemetry = Telemetry(rx: int, tx: int, handshake: int, endpoint: string)

  const NO_TELEMETRY := Telemetry(0, 0, 0, "")

  datatype Held = Held(peer: Peer, telemetry: Telemetry)

  type PeerMap = map<seq<nat>, Held>

  datatype Device = Device(privateKey: seq<nat>, listenPort: int, peers: PeerMap)

  datatype Config = Config(privateKey: seq<nat>, listenPort: int, peers: seq<Peer>, replacePeers: bool)

  function TelemetryOf(peers: PeerMap, key: seq<nat>): Telemetry {
    if key in peers then peers[key].telemetry else NO_TELEMETRY
  }

  /** The peer map rebuilt from a list, carrying over what is known of peers in `was`. */
  function Replaced(was: PeerMap, peers: seq<Peer>): PeerMap {
    if peers == [] then map[]
    else
      var p := peers[|peers| - 1];
      Replaced(was, peers[..|peers| - 1])[p.key := Held(p, TelemetryOf(was, p.key))]
  }

  function Merged(was: PeerMap, peers: seq<Peer>): PeerMap {
    if peers == [] then was
    else
      var p, m := peers[|peers| - 1], Merged(was, peers[..|peers| - 1]);
      m[p.key := Held(p, TelemetryOf(m, p.key))]
  }

  /** The map holds these peers, each as listed, and no other. */
  ghost predicate Holds(m: PeerMap, peers: seq<Peer>) {
    && (forall p | p in peers :: p.key in m && m[p.key].peer == p)
    && (forall k | k in m :: m[k].peer in peers && m[k].peer.key == k)
  }

  lemma HoldsOneMore(m: PeerMap, front: seq<Peer>, p: Peer, t: Telemetry)
    requires Holds(m, front) && forall q | q in front :: q.key != p.key
    ensures Holds(m[p.key := Held(p, t)], front + [p])
  {
    var n := m[p.key := Held(p, t)];
    forall k | k in n ensures n[k].peer in front + [p] && n[k].peer.key == k {
      assert k != p.key ==> m[k].peer in front;
    }
  }

  lemma {:induction false} ReplacedTelemetry(was: PeerMap, peers: seq<Peer>, k: seq<nat>)
    requires k in Replaced(was, peers)
    ensures Replaced(was, peers)[k].telemetry == TelemetryOf(was, k)
  {
    if peers != [] && k != peers[|peers| - 1].key {
      ReplacedTelemetry(was, peers[..|peers| - 1], k);
    }
  }

  lemma LastKeyIsNew(peers: seq<Peer>)
    requires DistinctKeys(peers) && peers != []
    ensures forall q | q in peers[..|peers| - 1] :: q.key != peers[|peers| - 1].key
  {
  }

  lemma {:induction false} ReplacedList(was: PeerMap, peers: seq<Peer>)
    requires DistinctKeys(peers)
    ensures Holds(Replaced(was, peers), peers)
  {
    if peers != [] {
      var front, p := peers[..|peers| - 1], peers[|peers| - 1];
      ReplacedList(was, front);
      LastKeyIsNew(peers);
      HoldsOneMore(Replaced(was, front), front, p, TelemetryOf(was, p.key));
      assert peers == front + [p];
    }
  }

  /** Replacing leaves exactly the listed peers, and forgets no surviving peer's telemetry. */
  lemma ReplacedHolds(was: PeerMap, peers: seq<Peer>)
    requires DistinctKeys(peers)
    ensures Holds(Replaced(was, peers), peers)
    ensures forall k | k in Replaced(was, peers) :: Replaced(was, peers)[k].telemetry == TelemetryOf(was, k)
  {
    ReplacedList(was, peers);
    forall k | k in Replaced(was, peers) ensures Replaced(was, peers)[k].telemetry == TelemetryOf(was, k) {
      ReplacedTelemetry(was, peers, k);
    }
  }

  /** Merging keeps every peer it does not list, and every peer's telemetry. */
  lemma {:induction false} MergedKeeps(was: PeerMap, peers: seq<Peer>, key: seq<nat>)
    ensures TelemetryOf(Merged(was, peers), key) == TelemetryOf(was, key)
    ensures key in was && (forall p | p in peers :: p.key != key) ==>
              key in Merged(was, peers) && Merged(was, peers)[key] == was[key]
    ensures key in Merged(was, peers) <==> key in was || exists p :: p in peers && p.key == key
  {
    if peers != [] {
      var front, p := peers[..|peers| - 1], peers[|peers| - 1];
      MergedKeeps(was, front, key);
      MergedKeeps(was, front, p.key);
      assert peers == front + [p] && p in peers;
    }
  }

  class MemoryEngine {
    var devices: map<string, Device>

    constructor ()
      ensures devices == map[]
    {
      devices := map[];
    }

    ghost function Peers(dev: string): PeerMap
      reads this
    {
      if dev in devices then devices[dev].peers else map[]
    }

    /** Apply a configuration; with its context already cancelled it does nothing. */
    method Configure(cancelled: bool, dev: string, cfg: Config) returns (ok: bool)
      modifies this
      ensures ok == !cancelled && (cancelled ==> devices == old(devices))
      ensures ok ==>
                devices == old(devices)[dev := Device(cfg.privateKey, cfg.listenPort,
                  if cfg.replacePeers then Replaced(old(Peers(dev)), cfg.peers) else Merged(old(Peers(dev)), cfg.peers))]
    {
      if cancelled {
        return false;
      }
      var d := if dev in devices then devices[dev] else Device([], 0, map[]);
      d := d.(privateKey := cfg.privateKey, listenPort := cfg.listenPort);
      if cfg.replacePeers {
        var newPeers := Rebuild(d.peers, cfg.peers);
        d := d.(peers := newPeers);
      } else {
        var merged := Merge(d.peers, cfg.peers);
        d := d.(peers := merged);
      }
      devices := devices[dev := d];
      ok := true;
    }

    static method Rebuild(was: PeerMap, peers: seq<Peer>) returns (newPeers: PeerMap)
      ensures newPeers == Replaced(was, peers)
    {
      newPeers := map[];
      for i := 0 to |peers|
        invariant newPeers == Replaced(was, peers[..i])
      {
        var p := peers[i];
        var peer := Held(p, NO_TELEMETRY);
        if p.key in was {
          peer := peer.(telemetry := was[p.key].telemetry);
        }
        newPeers := newPeers[p.key := peer];
        assert peers[..i + 1][..i] == peers[..i];
      }
      assert peers[..|peers|] == peers;
    }

    static method Merge(was: PeerMap, peers: seq<Peer>) returns (merged: PeerMap)
      ensures merged == Merged(was, peers)
    {
      merged := was;
      for i := 0 to |peers|
        invariant merged == Merged(was, peers[..i])
      {
        var p := peers[i];
        if p.key !in merged {
          merged := merged[p.key := Held(p, NO_TELEMETRY)];
        } else {
          merged := merged[p.key := merged[p.key].(peer := p)];
        }
        assert peers[..i + 1][..i] == peers[..i];
      }
      assert peers[..|peers|] == peers;
    }

    /** Traffic seen on one peer; an unknown peer is refused. */
    method InjectTelemetry(dev: string, key: seq<nat>, t: Telemetry) returns (ok: bool)
      modifies this
      ensures ok == (dev in old(devices) && key in old(devices)[dev].peers)
      ensures !ok ==> devices == old(devices)
      ensures ok ==> devices.Keys == old(devices.Keys)
                     && devices[dev].peers == old(devices)[dev].peers[key := old(devices)[dev].peers[key].(telemetry := t)]
    {
      if dev !in devices || key !in devices[dev].peers {
        return false;
      }
      var d := devices[dev];
      devices := devices[dev := d.(peers := d.peers[key := d.peers[key].(telemetry := t)])];
      ok := true;
    }
  }

  /** Traffic does not change which peers are held. */
  lemma TrafficKeepsHolds(m: PeerMap, peers: seq<Peer>, key: seq<nat>, t: Telemetry)
    requires Holds(m, peers) && key in m
    ensures Holds(m[key := m[key].(telemetry := t)], peers)
  {
  }

  // ---------------------------------------------------------------- the agent

  /** What a tick meets: traffic seen on a peer since the last one, the controller's rows at that
      moment, and which calls fail. */
  datatype Tick = Tick(traffic: Option<(seq<nat>, Telemetry)>, rows: seq<KeyRow>, syncFails: bool, applyCancelled: bool)

  datatype Outcome = SyncFailed | ApplyFailed | Applied | Unmodified

  class Agent {
    const engine: MemoryEngine
    const dev: string
    const privateKey: seq<nat>
    const listenPort: int
    const tenant: nat
    const keepalive: nat
    const digest: seq<nat> -> seq<nat>
    var currentVersion: Option<Token>
    ghost const shapes: set<Shape>
    ghost var applied: seq<Peer>
    ghost var appliedSeq: nat

    ghost function Served(t: Tick): seq<Peer> {
      ActivePeers(t.rows, tenant, keepalive)
    }

    /** The controller keeps keys distinct, and its records have the expected shapes. */
    ghost predicate WellServed(t: Tick) {
      DistinctKeys(Served(t)) && Fit(Served(t), shapes)
    }

    /** The remembered token belongs to what the engine holds. */
    ghost predicate Valid()
      reads this, engine
    {
      && Readable(shapes)
      && (currentVersion.Some? ==>
            && Fit(applied, shapes) && DistinctKeys(applied)
            && currentVersion.value == Version(digest, appliedSeq, applied)
            && Holds(engine.Peers(dev), applied))
    }

    ghost predicate UpToDate(t: Tick)
      reads this, engine
    {
      Holds(engine.Peers(dev), Served(t))
    }

    constructor (engine: MemoryEngine, dev: string, privateKey: seq<nat>, listenPort: int,
                 tenant: nat, keepalive: nat, digest: seq<nat> -> seq<nat>, ghost shapes: set<Shape>)
      requires Readable(shapes)
      ensures Valid() && currentVersion == None && this.shapes == shapes
    {
      this.engine, this.dev, this.privateKey, this.listenPort := engine, dev, privateKey, listenPort;
      this.tenant, this.keepalive, this.digest := tenant, keepalive, digest;
      this.shapes, applied, appliedSeq := shapes, [], 0;
      currentVersion := None;
    }

    lemma UnmodifiedIsCurrent(t: Tick)
      requires Valid() && WellServed(t)
      requires currentVersion == Some(Version(digest, MaxSeq(t.rows, tenant, 0), Served(t)))
      ensures UpToDate(t) || Collision(digest, Input(appliedSeq, applied), Input(MaxSeq(t.rows, tenant, 0), Served(t)))
    {
      TokensTellPeers(digest, appliedSeq, applied, MaxSeq(t.rows, tenant, 0), Served(t), shapes);
      if multiset(applied) == multiset(Served(t)) {
        SamePeersHold(engine.Peers(dev), applied, Served(t));
      }
    }

    /** One tick: whatever fails, the token still belongs to what the engine holds;
        and when nothing fails the engine holds what the controller serves. */
    method Reconcile(t: Tick) returns (outcome: Outcome)
      requires Valid() && WellServed(t)
      modifies this`currentVersion, this`applied, this`appliedSeq, engine
      ensures Valid()
      ensures outcome.SyncFailed? == t.syncFails
      ensures outcome.SyncFailed? || outcome.ApplyFailed? || outcome.Unmodified? ==>
                engine.devices == old(engine.devices) && currentVersion == old(currentVersion)
      ensures outcome.Applied? ==> UpToDate(t)
      ensures outcome.Unmodified? ==>
                UpToDate(t) || Collision(digest, Input(appliedSeq, applied), Input(MaxSeq(t.rows, tenant, 0), Served(t)))
      ensures forall k | k in old(engine.Peers(dev)) && k in engine.Peers(dev) ::
                engine.Peers(dev)[k].telemetry == old(engine.Peers(dev))[k].telemetry
    {
      if t.syncFails {
        return SyncFailed;
      }
      var res := Sync(digest, t.rows, tenant, keepalive, currentVersion);
      if res.NotModified? {
        UnmodifiedIsCurrent(t);
        return Unmodified;
      }
      var ok := ApplyFull(t.applyCancelled, res.peers, res.version, MaxSeq(t.rows, tenant, 0));
      outcome := if ok then Applied else ApplyFailed;
    }

    /** Full replacement, and only then the new token. */
    method ApplyFull(cancelled: bool, peers: seq<Peer>, version: Token, ghost seqNo: nat) returns (ok: bool)
      requires Valid() && DistinctKeys(peers) && Fit(peers, shapes) && version == Version(digest, seqNo, peers)
      modifies this`currentVersion, this`applied, this`appliedSeq, engine
      ensures Valid() && ok == !cancelled
      ensures !ok ==> engine.devices == old(engine.devices) && currentVersion == old(currentVersion)
      ensures ok ==> Holds(engine.Peers(dev), peers) && currentVersion == Some(version)
      ensures forall k | k in old(engine.Peers(dev)) && k in engine.Peers(dev) ::
                engine.Peers(dev)[k].telemetry == old(engine.Peers(dev))[k].telemetry
    {
      ghost var was := engine.Peers(dev);
      ok := engine.Configure(cancelled, dev, Config(privateKey, listenPort, peers, true));
      if ok {
        ReplacedHolds(was, peers);
        currentVersion := Some(version);
        applied, appliedSeq := peers, seqNo;
      }
    }

    method Observe(key: seq<nat>, t: Telemetry)
      requires Valid()
      modifies engine
      ensures Valid()
    {
      ghost var was := engine.Peers(dev);
      var ok := engine.InjectTelemetry(dev, key, t);
      if ok && currentVersion.Some? {
        TrafficKeepsHolds(was, applied, key, t);
      }
    }

    /** A tick that applied or found nothing to do left what the controller serves, or a named collision. */
    ghost predicate Settled(t: Tick)
      reads this, engine
    {
      UpToDate(t) || Collision(digest, Input(appliedSeq, applied), Input(MaxSeq(t.rows, tenant, 0), Served(t)))
    }

    /** Traffic first, then the tick. */
    method Next(t: Tick) returns (outcome: Outcome)
      requires Valid() && WellServed(t)
      modifies this`currentVersion, this`applied, this`appliedSeq, engine
      ensures Valid() && (outcome.Applied? || outcome.Unmodified? ==> Settled(t))
    {
      if t.traffic.Some? {
        Observe(t.traffic.value.0, t.traffic.value.1);
      }
      outcome := Reconcile(t);
    }

    /** A run of ticks; a run's every prefix is a run, so this speaks of every tick. */
    method Run(ticks: seq<Tick>) returns (last: Outcome)
      requires Valid() && forall t | t in ticks :: WellServed(t)
      modifies this`currentVersion, this`applied, this`appliedSeq, engine
      ensures Valid()
      ensures ticks != [] && (last.Applied? || last.Unmodified?) ==> Settled(ticks[|ticks| - 1])
    {
      last := SyncFailed;
      for i := 0 to |ticks|
        invariant Valid() && (i > 0 && (last.Applied? || last.Unmodified?) ==> Settled(ticks[i - 1]))
      {
        assert ticks[i] in ticks;
        last := Next(ticks[i]);
      }
    }
  }

  lemma SamePeersHold(m: PeerMap, a: seq<Peer>, b: seq<Peer>)
    requires Holds(m, a) && multiset(a) == multiset(b)
    ensures Holds(m, b)
  {
    forall p ensures p in a <==> p in b {
      assert p in multiset(a) <==> p in multiset(b);
    }
  }
}
