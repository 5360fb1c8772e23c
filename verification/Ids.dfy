/** UUIDv7 identifiers: an order no clock can break, and a text form that reads back. */
module Ids {
  import opened Bytes
  import opened Net

  /** The generator's memory: the last millisecond used and its 12-bit counter. */
  datatype Clock = Clock(ms: nat, counter: nat)

  /** What one call sees: the wall clock (possibly before 1970), the seed bytes if any, the random tail. */
  datatype Tick = Tick(now: int, seed: Option<(nat, nat)>, tail: seq<nat>)

  ghost predicate ValidTick(t: Tick) {
    && |t.tail| == 8 && IsBytes(t.tail)
    && (t.seed.Some? ==> t.seed.value.0 < 256 && t.seed.value.1 < 256)
  }

  predicate ValidClock(c: Clock) {
    c.counter < 4096
  }

  const MS_LIMIT := 0x1_0000_0000_0000

  function SeedCounter(seed: Option<(nat, nat)>): nat {
    match seed
    case None => 0
    case Some(b) => (b.0 * 16 + b.1 / 16) % 4096
  }

  function Advance(c: Clock, t: Tick): Clock {
    if t.now == c.ms then
      if c.counter == 4095 then Clock(c.ms + 1, 0) else Clock(c.ms, c.counter + 1)
    else if t.now < c.ms then Clock(c.ms + 1, 0)
    else Clock(t.now, SeedCounter(t.seed))
  }

  /** Variant bits and random tail. */
  function Random(tail: seq<nat>): (r: seq<nat>)
    requires |tail| == 8 && IsBytes(tail)
    ensures |r| == 8 && IsBytes(r)
  {
    [128 + tail[0] % 64] + tail[1..]
  }

  /** Sections 5.7 and 6.2 of RFC 9562: stamp, version and counter, variant and tail. */
  function Layout(c: Clock, tail: seq<nat>): (id: seq<nat>)
    requires ValidClock(c) && |tail| == 8 && IsBytes(tail)
    ensures |id| == 16 && IsBytes(id)
  {
    BigEndian(c.ms, 6) + ([0x70 + c.counter / 256, c.counter % 256] + Random(tail))
  }

  lemma SixBytes(v: nat)
    ensures BigEndian(v, 6) == [v / 0x100_0000_0000 % 256, v / 0x1_0000_0000 % 256, v / 0x100_0000 % 256,
                                v / 0x1_0000 % 256, v / 0x100 % 256, v % 256]
  {
    var a := v / 256;
    var b := a / 256;
    var c := b / 256;
    var d := c / 256;
    var e := d / 256;
    assert b == v / 0x1_0000 && c == v / 0x100_0000 && d == v / 0x1_0000_0000 && e == v / 0x100_0000_0000;
    assert BigEndian(e, 1) == [e % 256];
    assert BigEndian(d, 2) == [e % 256, d % 256];
    assert BigEndian(c, 3) == [e % 256, d % 256, c % 256];
    assert BigEndian(b, 4) == [e % 256, d % 256, c % 256, b % 256];
    assert BigEndian(a, 5) == [e % 256, d % 256, c % 256, b % 256, a % 256];
  }

  /** A clock that has moved on gives its own millisecond and a random counter; one that stands still the next
      counter; a full counter or a clock gone back the next millisecond. */
  predicate SettlesOn(lastMS: nat, lastRandA: nat, t: Tick, now: nat, rA: nat) {
    && (lastMS < t.now ==> now == t.now && rA == if t.seed.None? then 0 else t.seed.value.0 * 16 + t.seed.value.1 / 16)
    && (t.now == lastMS && lastRandA < 0xFFF ==> now == lastMS && rA == lastRandA + 1)
    && (t.now < lastMS || (t.now == lastMS && lastRandA == 0xFFF) ==> now == lastMS + 1 && rA == 0)
  }

  class Generator {
    var lastMS: nat
    var lastRandA: nat

    ghost predicate Valid()
      reads this
    {
      lastRandA < 4096
    }

    ghost function State(): Clock
      reads this
    {
      Clock(lastMS, lastRandA)
    }

    constructor ()
      ensures Valid() && State() == Clock(0, 0)
    {
      lastMS, lastRandA := 0, 0;
    }

    /** The locked part: settle on a millisecond and a counter never used before. */
    method Settle(t: Tick) returns (now: nat, rA: nat)
      requires Valid() && ValidTick(t)
      modifies this
      ensures Valid() && State() == Advance(old(State()), t) && now == lastMS && rA == lastRandA
      ensures SettlesOn(old(lastMS), old(lastRandA), t, now, rA)
    {
      var n := t.now;
      if n == lastMS {
        if lastRandA == 0x0FFF {
          n := lastMS + 1;
          lastRandA := 0;
        } else {
          lastRandA := lastRandA + 1;
        }
      } else if n < lastMS {
        n := lastMS + 1;
        lastRandA := 0;
      } else {
        lastRandA := SeedCounter(t.seed);
      }
      lastMS := n;
      now, rA := lastMS, lastRandA;
    }

    method NewID(t: Tick) returns (id: array<nat>)
      requires Valid() && ValidTick(t)
      modifies this
      ensures Valid() && State() == Advance(old(State()), t)
      ensures fresh(id) && id[..] == Layout(State(), t.tail)
    {
      var now, rA := Settle(t);
      id := new nat[16](_ => 0);
      FillStamp(id, now);
      id[6] := 0x70 + rA / 256 % 16;
      id[7] := rA % 256;
      FillRandom(id, t.tail);
      LaidOut(id[..], now, rA, t.tail);
    }

    static method FillRandom(id: array<nat>, tail: seq<nat>)
      requires id.Length == 16 && |tail| == 8 && IsBytes(tail)
      modifies id
      ensures id[..8] == old(id[..8]) && id[8..] == Random(tail)
    {
      for i := 8 to 16
        invariant forall j | 0 <= j < 8 :: id[j] == old(id[j])
        invariant forall j | 8 <= j < i :: id[j] == tail[j - 8]
      {
        id[i] := tail[i - 8];
      }
      id[8] := id[8] % 64 + 128;
      assert forall j | 0 <= j < 8 :: id[8..][j] == Random(tail)[j];
    }

    static method FillStamp(id: array<nat>, now: nat)
      requires id.Length == 16
      modifies id
      ensures id[..6] == BigEndian(now, 6)
    {
      id[0] := now / 0x100_0000_0000 % 256;
      id[1] := now / 0x1_0000_0000 % 256;
      id[2] := now / 0x100_0000 % 256;
      id[3] := now / 0x1_0000 % 256;
      id[4] := now / 0x100 % 256;
      id[5] := now % 256;
      SixBytes(now);
    }
  }

  lemma LaidOut(a: seq<nat>, now: nat, rA: nat, tail: seq<nat>)
    requires |a| == 16 && rA < 4096 && |tail| == 8 && IsBytes(tail)
    requires a[..6] == BigEndian(now, 6) && a[6] == 0x70 + rA / 256 % 16 && a[7] == rA % 256 && a[8..] == Random(tail)
    ensures a == Layout(Clock(now, rA), tail)
  {
    assert a == a[..6] + ([a[6], a[7]] + a[8..]);
  }

  // ---------------------------------------------------------------- order

  predicate Later(c: Clock, d: Clock) {
    c.ms < d.ms || (c.ms == d.ms && c.counter < d.counter)
  }

  lemma {:induction false} ByteLessAfterPrefix(p: seq<nat>, a: seq<nat>, b: seq<nat>)
    ensures ByteLess(p + a, p + b) <==> ByteLess(a, b)
  {
    if p == [] {
      assert p + a == a && p + b == b;
    } else {
      assert (p + a)[1..] == p[1..] + a && (p + b)[1..] == p[1..] + b;
      ByteLessAfterPrefix(p[1..], a, b);
    }
  }

  lemma {:induction false} ByteLessByPrefix(p: seq<nat>, q: seq<nat>, a: seq<nat>, b: seq<nat>)
    requires |p| == |q| && ByteLess(p, q)
    ensures ByteLess(p + a, q + b) && !ByteLess(q + b, p + a)
  {
    assert (p + a)[1..] == p[1..] + a && (q + b)[1..] == q[1..] + b;
    if p[0] == q[0] {
      ByteLessByPrefix(p[1..], q[1..], a, b);
    }
  }

  lemma CounterOrder(c: Clock, d: Clock, s: seq<nat>, t: seq<nat>)
    requires ValidClock(c) && ValidClock(d) && c.ms == d.ms && c.counter < d.counter
    requires |s| == |t| == 8 && IsBytes(s) && IsBytes(t)
    ensures ByteLess(Layout(c, s), Layout(d, t)) && !ByteLess(Layout(d, t), Layout(c, s))
  {
    var x, y := [0x70 + c.counter / 256, c.counter % 256], [0x70 + d.counter / 256, d.counter % 256];
    assert x[1..] == [c.counter % 256] && y[1..] == [d.counter % 256];
    ByteLessByPrefix(x, y, Random(s), Random(t));
    ByteLessAfterPrefix(BigEndian(c.ms, 6), x + Random(s), y + Random(t));
    ByteLessAfterPrefix(BigEndian(c.ms, 6), y + Random(t), x + Random(s));
  }

  /** Identifiers sort as their clocks do, until the 48-bit stamp runs out. */
  lemma LaterSortsAfter(c: Clock, d: Clock, s: seq<nat>, t: seq<nat>)
    requires ValidClock(c) && ValidClock(d) && Later(c, d) && d.ms < MS_LIMIT
    requires |s| == |t| == 8 && IsBytes(s) && IsBytes(t)
    ensures ByteLess(Layout(c, s), Layout(d, t)) && !ByteLess(Layout(d, t), Layout(c, s))
  {
    if c.ms < d.ms {
      StampOrder(c.ms, d.ms);
      ByteLessByPrefix(BigEndian(c.ms, 6), BigEndian(d.ms, 6),
                       [0x70 + c.counter / 256, c.counter % 256] + Random(s),
                       [0x70 + d.counter / 256, d.counter % 256] + Random(t));
    } else {
      CounterOrder(c, d, s, t);
    }
  }

  lemma StampOrder(c: nat, d: nat)
    requires c < d < MS_LIMIT
    ensures ByteLess(BigEndian(c, 6), BigEndian(d, 6))
  {
    SixByteWeight();
    BigEndianRoundTrip(c, 6);
    BigEndianRoundTrip(d, 6);
    ByteOrderIsNumeric(BigEndian(c, 6), BigEndian(d, 6));
  }

  lemma SixByteWeight()
    ensures Weight(6) == MS_LIMIT
  {
    assert Weight(2) == 0x1_0000;
    assert Weight(4) == 0x1_0000_0000;
  }

  /** Standstill, a jump back, a full counter: the clock pair still moves forward. */
  lemma AdvanceIsLater(c: Clock, t: Tick)
    requires ValidClock(c) && ValidTick(t)
    ensures ValidClock(Advance(c, t)) && Later(c, Advance(c, t))
  {
  }

  /** The clock after each of a series of calls. */
  function Clocks(c: Clock, ticks: seq<Tick>): (cs: seq<Clock>)
    ensures |cs| == |ticks|
    decreases ticks
  {
    if ticks == [] then [] else [Advance(c, ticks[0])] + Clocks(Advance(c, ticks[0]), ticks[1..])
  }

  ghost predicate MoveForward(c: Clock, cs: seq<Clock>) {
    && (forall i | 0 <= i < |cs| :: ValidClock(cs[i]) && Later(c, cs[i]))
    && (forall i, j | 0 <= i < j < |cs| :: Later(cs[i], cs[j]))
  }

  lemma {:induction false} ClocksMoveForward(c: Clock, ticks: seq<Tick>)
    requires ValidClock(c) && forall t | t in ticks :: ValidTick(t)
    ensures MoveForward(c, Clocks(c, ticks))
    decreases ticks
  {
    if ticks != [] {
      AdvanceIsLater(c, ticks[0]);
      ClocksMoveForward(Advance(c, ticks[0]), ticks[1..]);
      Prepend(c, Advance(c, ticks[0]), Clocks(Advance(c, ticks[0]), ticks[1..]));
    }
  }

  lemma Prepend(c: Clock, next: Clock, rest: seq<Clock>)
    requires ValidClock(next) && Later(c, next) && MoveForward(next, rest)
    ensures MoveForward(c, [next] + rest)
  {
  }

  /** The identifier the i-th call returns. */
  function Issued(c: Clock, ticks: seq<Tick>, i: nat): (id: seq<nat>)
    requires i < |ticks| && ValidClock(Clocks(c, ticks)[i]) && |ticks[i].tail| == 8 && IsBytes(ticks[i].tail)
  {
    Layout(Clocks(c, ticks)[i], ticks[i].tail)
  }

  /** Whatever the clock did, identifiers come out in strictly increasing byte order. */
  lemma IdsIncrease(c: Clock, ticks: seq<Tick>, i: nat, j: nat)
    requires ValidClock(c) && (forall t | t in ticks :: ValidTick(t)) && i < j < |ticks|
    requires Clocks(c, ticks)[j].ms < MS_LIMIT
    ensures ValidClock(Clocks(c, ticks)[i]) && ValidClock(Clocks(c, ticks)[j])
    ensures ValidTick(ticks[i]) && ValidTick(ticks[j])
    ensures ByteLess(Issued(c, ticks, i), Issued(c, ticks, j))
  {
    ClocksMoveForward(c, ticks);
    assert ValidTick(ticks[i]) && ValidTick(ticks[j]);
    LaterSortsAfter(Clocks(c, ticks)[i], Clocks(c, ticks)[j], ticks[i].tail, ticks[j].tail);
  }

  /** Past the 48 bits the stamp wraps and order is lost: the bound above is needed. */
  lemma OrderEndsAt48Bits(c: Clock, d: Clock, s: seq<nat>, t: seq<nat>)
    requires ValidClock(c) && ValidClock(d) && Later(c, d) && d.ms < MS_LIMIT
    requires |s| == |t| == 8 && IsBytes(s) && IsBytes(t)
    ensures var wrapped := Clock(c.ms + MS_LIMIT, c.counter);
            Later(d, wrapped) && ByteLess(Layout(wrapped, s), Layout(d, t))
  {
    SixByteWeight();
    BigEndianWraps(c.ms, 6);
    LaterSortsAfter(c, d, s, t);
  }

  /** The part of a clock that 48 bits can hold. */
  function Held(c: Clock): Clock {
    Clock(c.ms % MS_LIMIT, c.counter)
  }

  lemma {:induction false} Wraps(ms: nat, laps: nat)
    ensures BigEndian(ms + laps * MS_LIMIT, 6) == BigEndian(ms, 6)
  {
    if laps != 0 {
      Wraps(ms, laps - 1);
      SixByteWeight();
      BigEndianWraps(ms + (laps - 1) * MS_LIMIT, 6);
    }
  }

  lemma HeldLayout(c: Clock, s: seq<nat>)
    requires ValidClock(c) && |s| == 8 && IsBytes(s)
    ensures ValidClock(Held(c)) && Layout(c, s) == Layout(Held(c), s)
  {
    Wraps(c.ms % MS_LIMIT, c.ms / MS_LIMIT);
  }

  lemma SameClockOrder(c: Clock, s: seq<nat>, t: seq<nat>)
    requires ValidClock(c) && |s| == |t| == 8 && IsBytes(s) && IsBytes(t)
    ensures ByteLess(Layout(c, s), Layout(c, t)) <==> ByteLess(Random(s), Random(t))
  {
    var x := [0x70 + c.counter / 256, c.counter % 256];
    ByteLessAfterPrefix(BigEndian(c.ms, 6), x + Random(s), x + Random(t));
    ByteLessAfterPrefix(x, Random(s), Random(t));
  }

  lemma OrderWithin(c: Clock, d: Clock, s: seq<nat>, t: seq<nat>)
    requires ValidClock(c) && ValidClock(d) && c.ms < MS_LIMIT && d.ms < MS_LIMIT
    requires |s| == |t| == 8 && IsBytes(s) && IsBytes(t)
    ensures ByteLess(Layout(c, s), Layout(d, t)) <==> Later(c, d) || (c == d && ByteLess(Random(s), Random(t)))
  {
    if Later(c, d) {
      LaterSortsAfter(c, d, s, t);
    } else if Later(d, c) {
      LaterSortsAfter(d, c, t, s);
    } else {
      SameClockOrder(c, s, t);
    }
  }

  /** The order of any two identifiers: what 48 bits hold of their clocks decides, then the random tails. */
  lemma OrderExactly(c: Clock, d: Clock, s: seq<nat>, t: seq<nat>)
    requires ValidClock(c) && ValidClock(d) && |s| == |t| == 8 && IsBytes(s) && IsBytes(t)
    ensures ByteLess(Layout(c, s), Layout(d, t)) <==>
            Later(Held(c), Held(d)) || (Held(c) == Held(d) && ByteLess(Random(s), Random(t)))
  {
    HeldLayout(c, s);
    HeldLayout(d, t);
    OrderWithin(Held(c), Held(d), s, t);
  }

  // ---------------------------------------------------------------- fields

  function TimestampMS(id: seq<nat>): nat
    requires |id| == 16
  {
    if id[6] / 16 != 7 then 0
    else id[0] * 0x100_0000_0000 + id[1] * 0x1_0000_0000 + id[2] * 0x100_0000 + id[3] * 0x1_0000 + id[4] * 0x100 + id[5]
  }

  /** Version 7, variant 10b, the generator's own millisecond and counter, and 62 random bits. */
  lemma StampRecovered(c: Clock, tail: seq<nat>)
    requires ValidClock(c) && |tail| == 8 && IsBytes(tail)
    ensures var id := Layout(c, tail);
            && id[6] / 16 == 7 && id[8] / 64 == 2 && TimestampMS(id) == c.ms % MS_LIMIT
            && id[6] % 16 * 256 + id[7] == c.counter && id[8] % 64 == tail[0] % 64 && id[9..] == tail[1..]
  {
    SixBytes(c.ms);
    SumOfSix(c.ms);
  }

  /** Identifiers of other versions carry no millisecond. */
  lemma NoStampInOthers(id: seq<nat>)
    requires |id| == 16 && IsBytes(id) && id[6] / 16 != 7
    ensures TimestampMS(id) == 0
  {
  }

  lemma SumOfSix(v: nat)
    ensures v / 0x100_0000_0000 % 256 * 0x100_0000_0000 + v / 0x1_0000_0000 % 256 * 0x1_0000_0000
          + v / 0x100_0000 % 256 * 0x100_0000 + v / 0x1_0000 % 256 * 0x1_0000 + v / 0x100 % 256 * 0x100 + v % 256
          == v % MS_LIMIT
  {
    var a := v / 256;
    var b := a / 256;
    var c := b / 256;
    var d := c / 256;
    var e := d / 256;
    Nested(v);
    assert v == 256 * a + v % 256 && a == 256 * b + a % 256 && b == 256 * c + b % 256;
    assert c == 256 * d + c % 256 && d == 256 * e + d % 256 && e == 256 * (e / 256) + e % 256;
    WrapOnce(v, e / 256, v - MS_LIMIT * (e / 256));
  }

  lemma Nested(v: nat)
    ensures var a := v / 256; var b := a / 256; var c := b / 256; var d := c / 256;
            && v / 0x1_0000 == b && v / 0x100_0000 == c && v / 0x1_0000_0000 == d && v / 0x100_0000_0000 == d / 256
  {
  }

  lemma WrapOnce(v: nat, q: nat, r: int)
    requires v == MS_LIMIT * q + r && 0 <= r < MS_LIMIT
    ensures v % MS_LIMIT == r
  {
  }

  // ---------------------------------------------------------------- text

  function HexText(bytes: seq<nat>): (t: string)
    requires IsBytes(bytes)
    ensures |t| == 2 * |bytes|
  {
    if bytes == [] then "" else [HEX[bytes[0] / 16], HEX[bytes[0] % 16]] + HexText(bytes[1..])
  }

  predicate IsZero(id: seq<nat>) {
    forall i | 0 <= i < |id| :: id[i] == 0
  }

  function Join(front: string, group: seq<nat>): string
    requires IsBytes(group)
  {
    front + ("-" + HexText(group))
  }

  function Grouped(a: seq<nat>, b: seq<nat>, c: seq<nat>, d: seq<nat>, e: seq<nat>): string
    requires IsBytes(a) && IsBytes(b) && IsBytes(c) && IsBytes(d) && IsBytes(e)
  {
    Join(Join(Join(Join(HexText(a), b), c), d), e)
  }

  function Hyphenated(id: seq<nat>): string
    requires |id| == 16 && IsBytes(id)
  {
    Grouped(id[0..4], id[4..6], id[6..8], id[8..10], id[10..16])
  }

  function Text(id: seq<nat>): string
    requires |id| == 16 && IsBytes(id)
  {
    if IsZero(id) then "00000000-0000-0000-0000-000000000000" else Hyphenated(id)
  }

  function StripHyphens(s: string): string {
    if s == [] then ""
    else (if s[0] == '-' then "" else [s[0]]) + StripHyphens(s[1..])
  }

  function DecodeHex(s: string): Option<seq<nat>> {
    if s == [] then Some([])
    else if |s| == 1 || !IsHex(s[0]) || !IsHex(s[1]) then None
    else match DecodeHex(s[2..])
      case None => None
      case Some(rest) => Some([HexValue(s[0]) * 16 + HexValue(s[1])] + rest)
  }

  function ParseID(s: string): Option<seq<nat>> {
    var stripped := StripHyphens(s);
    if |stripped| != 32 then None else DecodeHex(stripped)
  }

  lemma HexPair(b: nat)
    requires b < 256
    ensures var hi, lo := HEX[b / 16], HEX[b % 16];
            IsHex(hi) && IsHex(lo) && hi != '-' && lo != '-' && HexValue(hi) * 16 + HexValue(lo) == b
  {
    HexDigitValue(b / 16);
    HexDigitValue(b % 16);
  }

  lemma DecodePair(hi: char, lo: char, rest: string)
    requires IsHex(hi) && IsHex(lo)
    ensures DecodeHex([hi, lo] + rest) ==
            if DecodeHex(rest).None? then None else Some([HexValue(hi) * 16 + HexValue(lo)] + DecodeHex(rest).value)
  {
    assert ([hi, lo] + rest)[2..] == rest;
  }

  lemma HexTextSplit(bytes: seq<nat>)
    requires IsBytes(bytes) && bytes != []
    ensures HexText(bytes) == [HEX[bytes[0] / 16], HEX[bytes[0] % 16]] + HexText(bytes[1..])
  {
  }

  lemma DecodeOneMore(bytes: seq<nat>, rest: string)
    requires bytes != [] && bytes[0] < 256 && DecodeHex(rest) == Some(bytes[1..])
    ensures DecodeHex([HEX[bytes[0] / 16], HEX[bytes[0] % 16]] + rest) == Some(bytes)
  {
    HexPair(bytes[0]);
    DecodePair(HEX[bytes[0] / 16], HEX[bytes[0] % 16], rest);
    assert bytes == [bytes[0]] + bytes[1..];
  }

  lemma {:induction false} DecodeInverts(bytes: seq<nat>)
    requires IsBytes(bytes)
    ensures DecodeHex(HexText(bytes)) == Some(bytes)
  {
    if bytes != [] {
      DecodeInverts(bytes[1..]);
      HexTextSplit(bytes);
      DecodeOneMore(bytes, HexText(bytes[1..]));
    }
  }

  lemma {:induction false} StripConcat(a: string, b: string)
    ensures StripHyphens(a + b) == StripHyphens(a) + StripHyphens(b)
  {
    if a == [] {
      assert a + b == b;
    } else {
      assert (a + b)[1..] == a[1..] + b;
      StripConcat(a[1..], b);
    }
  }

  lemma {:induction false} HexHasNoHyphens(bytes: seq<nat>)
    requires IsBytes(bytes)
    ensures StripHyphens(HexText(bytes)) == HexText(bytes)
  {
    if bytes != [] {
      var hi, lo := HEX[bytes[0] / 16], HEX[bytes[0] % 16];
      HexPair(bytes[0]);
      HexHasNoHyphens(bytes[1..]);
      StripConcat([hi, lo], HexText(bytes[1..]));
      assert [hi, lo][1..] == [lo] && [lo][1..] == [];
    }
  }

  lemma {:induction false} HexConcat(a: seq<nat>, b: seq<nat>)
    requires IsBytes(a) && IsBytes(b)
    ensures HexText(a + b) == HexText(a) + HexText(b)
  {
    if a == [] {
      assert a + b == b;
    } else {
      assert (a + b)[1..] == a[1..] + b;
      HexConcat(a[1..], b);
    }
  }

  /** Adding one hyphenated group adds its digits. */
  lemma GroupStrips(front: string, done: seq<nat>, group: seq<nat>)
    requires IsBytes(done) && IsBytes(group) && StripHyphens(front) == HexText(done)
    ensures StripHyphens(Join(front, group)) == HexText(done + group)
  {
    StripConcat("-", HexText(group));
    StripConcat(front, "-" + HexText(group));
    HexHasNoHyphens(group);
    HexConcat(done, group);
  }

  lemma FiveGroups(a: seq<nat>, b: seq<nat>, c: seq<nat>, d: seq<nat>, e: seq<nat>, id: seq<nat>)
    requires IsBytes(a) && IsBytes(b) && IsBytes(c) && IsBytes(d) && IsBytes(e) && IsBytes(id)
    requires id == a + b + c + d + e
    ensures StripHyphens(Grouped(a, b, c, d, e)) == HexText(id)
  {
    HexHasNoHyphens(a);
    GroupStrips(HexText(a), a, b);
    var front := Join(Join(HexText(a), b), c);
    GroupStrips(Join(HexText(a), b), a + b, c);
    GroupStrips(front, a + b + c, d);
    GroupStrips(Join(front, d), a + b + c + d, e);
  }

  lemma TextStrips(id: seq<nat>)
    requires |id| == 16 && IsBytes(id)
    ensures StripHyphens(Hyphenated(id)) == HexText(id)
  {
    FiveSlices(id);
    FiveGroups(id[0..4], id[4..6], id[6..8], id[8..10], id[10..16], id);
  }

  lemma FiveSlices(id: seq<nat>)
    requires |id| == 16
    ensures id[0..4] + id[4..6] + id[6..8] + id[8..10] + id[10..16] == id
  {
  }

  lemma {:induction false} ZeroDigits(bytes: seq<nat>)
    requires IsZero(bytes) && IsBytes(bytes)
    ensures forall i | 0 <= i < |HexText(bytes)| :: HexText(bytes)[i] == '0'
  {
    if bytes != [] {
      ZeroDigits(bytes[1..]);
    }
  }

  /** The spelled-out zero text is what the general form gives for the zero identifier. */
  lemma ZeroText(id: seq<nat>)
    requires |id| == 16 && IsBytes(id) && IsZero(id)
    ensures Hyphenated(id) == "00000000-0000-0000-0000-000000000000"
  {
    ZeroDigits(id[0..4]);
    ZeroDigits(id[4..6]);
    ZeroDigits(id[6..8]);
    ZeroDigits(id[8..10]);
    ZeroDigits(id[10..16]);
  }

  /** Parsing undoes printing, with hyphens or without, and no two identifiers print alike. */
  lemma ParseInvertsText(id: seq<nat>)
    requires |id| == 16 && IsBytes(id)
    ensures ParseID(Text(id)) == Some(id) && ParseID(HexText(id)) == Some(id)
  {
    DecodeInverts(id);
    HexHasNoHyphens(id);
    TextStrips(id);
    if IsZero(id) {
      ZeroText(id);
    }
  }
}
