/** The relay's two layers of framing, as both ends write and read them. */
module RelayCodec {
  import opened Bytes
  import opened Net

  // ---------------------------------------------------------------- app frames

  datatype Frame = Frame(kind: nat, header: seq<nat>, data: seq<nat>)

  ghost predicate ValidFrame(f: Frame) {
    f.kind < 256 && IsBytes(f.header) && IsBytes(f.data)
  }

  datatype Parsed = Got(frame: Frame) | TooShort | HeaderExceeds | DataExceeds | Panic

  predicate Sendable(f: Frame) {
    |f.header| <= 0xFFFF && |f.data| <= 0xFFFF
  }

  function AppFrame(f: Frame): (msg: seq<nat>)
    ensures |msg| == 5 + |f.header| + |f.data|
  {
    [f.kind] + BigEndian(|f.header|, 2) + f.header + BigEndian(|f.data|, 2) + f.data
  }

  /** The frame build of both ends: refused over 65,535 bytes of header or data. */
  method BuildFrame(f: Frame) returns (buf: Option<seq<nat>>)
    ensures buf == if Sendable(f) then Some(AppFrame(f)) else None
  {
    if |f.header| > 0xFFFF {
      return None;
    }
    if |f.data| > 0xFFFF {
      return None;
    }
    var b := [f.kind];
    b := b + BigEndian(|f.header|, 2);
    b := b + f.header;
    b := b + BigEndian(|f.data|, 2);
    b := b + f.data;
    buf := Some(b);
  }

  /** The rest of either parser, once the header is known to fit. */
  function ParseTail(msg: seq<nat>, h: nat): Parsed
    requires 5 + h <= |msg|
  {
    var d := Value(msg[3 + h..5 + h]);
    if 5 + h + d > |msg| then DataExceeds
    else Got(Frame(msg[0], msg[3..3 + h], msg[5 + h..5 + h + d]))
  }

  /** The gateway's parser: the header bound is computed in full integers. */
  function ParseGateway(msg: seq<nat>): Parsed {
    if |msg| < 3 then TooShort
    else
      var h := Value(msg[1..3]);
      if 3 + h + 2 > |msg| then HeaderExceeds else ParseTail(msg, h)
  }

  /** The relay's parser: the same bound in 16 bits, after which a slice may not fit. */
  function ParseRelay(msg: seq<nat>): Parsed {
    if |msg| < 3 then TooShort
    else
      var h := Value(msg[1..3]);
      if (3 + h + 2) % 0x1_0000 > |msg| then HeaderExceeds
      else if 5 + h > |msg| then Panic
      else ParseTail(msg, h)
  }

  datatype Side = Relay | Gateway

  function Parse(side: Side, msg: seq<nat>): Parsed {
    if side.Relay? then ParseRelay(msg) else ParseGateway(msg)
  }

  /** The guard of the branch where the 16-bit sum has wrapped and lets the message through. */
  predicate BoundWraps(msg: seq<nat>) {
    && 3 <= |msg|
    && var h := Value(msg[1..3]);
       65531 <= h && h - 65531 <= |msg| && |msg| < 5 + h
  }

  lemma TwoBytes(msg: seq<nat>, at: nat)
    requires IsBytes(msg) && at + 2 <= |msg|
    ensures Value(msg[at..at + 2]) == msg[at] * 256 + msg[at + 1] < 0x1_0000
  {
    var s := msg[at..at + 2];
    assert s[..1] == [s[0]] && s[..1][..0] == [];
    assert Value(s[..1]) == s[0];
  }

  /** The two parsers agree on a message exactly when the 16-bit bound did not wrap past it. */
  lemma ParsersAgree(msg: seq<nat>)
    requires IsBytes(msg)
    ensures ParseRelay(msg) == ParseGateway(msg) <==> !BoundWraps(msg)
    ensures BoundWraps(msg) ==> ParseGateway(msg) == HeaderExceeds && ParseRelay(msg) == Panic
  {
    if 3 <= |msg| {
      TwoBytes(msg, 1);
    }
  }

  lemma BoundCanWrap()
    ensures BoundWraps([1, 255, 251]) && ParseRelay([1, 255, 251]) == Panic
  {
    TwoBytes([1, 255, 251], 1);
  }

  lemma TwoByteLength(n: nat)
    requires n <= 0xFFFF
    ensures Value(BigEndian(n, 2)) == n
  {
    assert Weight(2) == 0x1_0000;
    BigEndianRoundTrip(n, 2);
  }

  lemma FiveParts(a: seq<nat>, b: seq<nat>, c: seq<nat>, d: seq<nat>, e: seq<nat>)
    requires |a| == 1 && |b| == 2 && |d| == 2
    ensures var m := a + b + c + d + e;
            && m[0] == a[0] && m[1..3] == b && m[3..3 + |c|] == c
            && m[3 + |c|..5 + |c|] == d && m[5 + |c|..5 + |c| + |e|] == e
  {
  }

  lemma TailRoundTrip(f: Frame)
    requires Sendable(f)
    ensures ParseTail(AppFrame(f), |f.header|) == Got(f)
  {
    FiveParts([f.kind], BigEndian(|f.header|, 2), f.header, BigEndian(|f.data|, 2), f.data);
    TwoByteLength(|f.data|);
  }

  lemma HeaderLength(f: Frame)
    requires Sendable(f)
    ensures var m := AppFrame(f); 5 + |f.header| <= |m| && Value(m[1..3]) == |f.header|
  {
    FiveParts([f.kind], BigEndian(|f.header|, 2), f.header, BigEndian(|f.data|, 2), f.data);
    TwoByteLength(|f.header|);
  }

  /** A message that holds its whole header is parsed alike on both sides. */
  lemma FittingHeader(msg: seq<nat>, h: nat)
    requires 5 + h <= |msg| && Value(msg[1..3]) == h
    ensures ParseGateway(msg) == ParseTail(msg, h) && ParseRelay(msg) == ParseTail(msg, h)
  {
  }

  /** Either parser gives back any frame either side can build, at every length. */
  lemma FrameRoundTrip(f: Frame)
    requires ValidFrame(f) && Sendable(f)
    ensures ParseGateway(AppFrame(f)) == Got(f) && ParseRelay(AppFrame(f)) == Got(f)
  {
    HeaderLength(f);
    FittingHeader(AppFrame(f), |f.header|);
    TailRoundTrip(f);
  }

  // ---------------------------------------------------------------- masking

  function Xor(a: nat, b: nat): nat
    decreases a + b
  {
    if a == 0 && b == 0 then 0
    else 2 * Xor(a / 2, b / 2) + (if a % 2 == b % 2 then 0 else 1)
  }

  lemma {:induction false} XorUndoes(a: nat, b: nat)
    ensures Xor(Xor(a, b), b) == a
    decreases a + b
  {
    if a != 0 || b != 0 {
      XorUndoes(a / 2, b / 2);
      var x := Xor(a, b);
      assert x / 2 == Xor(a / 2, b / 2) && x % 2 == if a % 2 == b % 2 then 0 else 1;
    }
  }

  /** The four masking bytes of section 5.3 of RFC 6455. */
  type Key = s: seq<nat> | |s| == 4 witness [0, 0, 0, 0]

  function Masked(payload: seq<nat>, key: Key): seq<nat>
  {
    seq(|payload|, i requires 0 <= i < |payload| => Xor(payload[i], key[i % 4]))
  }

  lemma MaskTwice(payload: seq<nat>, key: Key)
    ensures Masked(Masked(payload, key), key) == payload
  {
    forall i | 0 <= i < |payload| ensures Masked(Masked(payload, key), key)[i] == payload[i] {
      XorUndoes(payload[i], key[i % 4]);
    }
  }

  /** The loop of both readers and of the writer, in place. */
  method MaskInPlace(payload: array<nat>, key: Key)
    modifies payload
    ensures payload[..] == Masked(old(payload[..]), key)
  {
    for i := 0 to payload.Length
      invariant payload[..i] == Masked(old(payload[..]), key)[..i]
      invariant payload[i..] == old(payload[i..])
    {
      assert payload[i] == old(payload[i..])[0];
      payload[i] := Xor(payload[i], key[i % 4]);
    }
  }

  // ---------------------------------------------------------------- RFC 6455 frames

  const BINARY := 0x82
  const LIMIT := 0x10_0000

  /** Section 5.2 of RFC 6455: the length in 7, 16 or 64 bits, under the mask bit. */
  function LengthCode(n: nat, maskBit: nat): seq<nat> {
    if n <= 125 then [maskBit + n]
    else if n <= 0xFFFF then [maskBit + 126] + BigEndian(n, 2)
    else [maskBit + 127] + BigEndian(n, 8)
  }

  function WsFrame(first: nat, key: Option<Key>, payload: seq<nat>): seq<nat>
  {
    match key
    case None => [first] + (LengthCode(|payload|, 0) + payload)
    case Some(k) => [first] + (LengthCode(|payload|, 128) + (k + Masked(payload, k)))
  }

  /** What the relay puts on the wire: unmasked. */
  method WriteUnmasked(payload: seq<nat>) returns (wire: seq<nat>)
    ensures wire == WsFrame(BINARY, None, payload)
  {
    var hdr := [0x82];
    if |payload| <= 125 {
      hdr := hdr + [|payload|];
    } else if |payload| <= 0xFFFF {
      hdr := hdr + [126];
      hdr := hdr + BigEndian(|payload|, 2);
    } else {
      hdr := hdr + [127];
      hdr := hdr + BigEndian(|payload|, 8);
    }
    wire := hdr;
    wire := wire + payload;
    assert hdr == [BINARY] + LengthCode(|payload|, 0);
  }

  /** What the gateway puts on the wire: masked with a fresh key. */
  method WriteMasked(payload: seq<nat>, key: seq<nat>) returns (wire: seq<nat>)
    requires |key| == 4
    ensures wire == WsFrame(BINARY, Some(key), payload)
  {
    var hdr := [0x82];
    if |payload| <= 125 {
      hdr := hdr + [0x80 + |payload|];
    } else if |payload| <= 0xFFFF {
      hdr := hdr + [0x80 + 126];
      hdr := hdr + BigEndian(|payload|, 2);
    } else {
      hdr := hdr + [0x80 + 127];
      hdr := hdr + BigEndian(|payload|, 8);
    }
    assert hdr == [BINARY] + LengthCode(|payload|, 128);
    var masked := new nat[|payload|](i requires 0 <= i < |payload| => payload[i]);
    assert masked[..] == payload;
    MaskInPlace(masked, key);
    wire := hdr + key;
    wire := wire + masked[..];
  }

  datatype Raw = Raw(fin: bool, opcode: nat, payload: seq<nat>, rest: seq<nat>) | Short | Oversize

  /** The length field: its value and what follows, if all of it has arrived. */
  function ReadLength(s: seq<nat>): Option<(nat, seq<nat>)>
    requires s != []
  {
    var n := s[0] % 128;
    var wide := if n == 126 then 2 else if n == 127 then 8 else 0;
    if |s| < 1 + wide then None
    else Some((if wide == 0 then n else Value(s[1..1 + wide]), s[1 + wide..]))
  }

  /** Key and payload, once the length is known. */
  function ReadBody(fin: bool, opcode: nat, masked: bool, n: nat, s: seq<nat>): Raw {
    if n > LIMIT then Oversize
    else
      var k := if masked then 4 else 0;
      if |s| < k + n then Short
      else Raw(fin, opcode, if masked then Masked(s[4..4 + n], s[..4]) else s[..n], s[k + n..])
  }

  function ReadRaw(s: seq<nat>): (r: Raw)
    ensures r.Raw? ==> |r.rest| < |s|
  {
    if |s| < 2 then Short
    else match ReadLength(s[1..])
      case None => Short
      case Some(p) => ReadBody(s[0] / 128 % 2 == 1, s[0] % 16, s[1] / 128 % 2 == 1, p.0, p.1)
  }

  datatype Read = Message(payload: seq<nat>, rest: seq<nat>) | Closed | Failed

  /** The message loop of both ends: pings and pongs are skipped, anything else ends it. */
  function ReadMessage(s: seq<nat>): (r: Read)
    ensures r.Message? ==> |r.rest| < |s|
    decreases |s|
  {
    match ReadRaw(s)
    case Short => Failed
    case Oversize => Failed
    case Raw(fin, opcode, payload, rest) =>
      if opcode == 2 then (if fin then Message(payload, rest) else Failed)
      else if opcode == 8 then Closed
      else if opcode == 9 || opcode == 10 then ReadMessage(rest)
      else Failed
  }

  /** A byte stream with the reads the loop uses. */
  class Reader {
    var input: seq<nat>

    constructor (stream: seq<nat>)
      ensures input == stream
    {
      input := stream;
    }

    method ReadFull(n: nat) returns (got: Option<seq<nat>>)
      modifies this
      ensures if |old(input)| < n then got == None && input == []
              else got == Some(old(input)[..n]) && input == old(input)[n..]
    {
      if |input| < n {
        input := [];
        return None;
      }
      got := Some(input[..n]);
      input := input[n..];
    }

    method ReadHeader() returns (head: Option<(nat, nat, nat)>)
      modifies this
      ensures |old(input)| >= 2 && ReadLength(old(input)[1..]).Some? ==>
                head == Some((old(input)[0], old(input)[1], ReadLength(old(input)[1..]).value.0))
                && input == ReadLength(old(input)[1..]).value.1
      ensures |old(input)| < 2 || ReadLength(old(input)[1..]).None? ==> head == None
    {
      ghost var all := input;
      var two := ReadFull(2);
      if two.None? {
        return None;
      }
      var hdr1, hdr2 := two.value[0], two.value[1];
      assert all[1..][0] == hdr2 && all[1..][1..] == input;
      var n := hdr2 % 128;
      if n == 126 || n == 127 {
        var wide := if n == 126 then 2 else 8;
        assert |all[1..]| >= 1 + wide ==> all[1..][1..1 + wide] == input[..wide] && all[1..][1 + wide..] == input[wide..];
        var l := ReadFull(wide);
        if l.None? {
          return None;
        }
        n := Value(l.value);
      }
      head := Some((hdr1, hdr2, n));
    }

    /** Key, payload and unmasking of one frame. */
    method ReadPayload(masked: bool, n: nat) returns (payload: Option<seq<nat>>)
      requires n <= LIMIT
      modifies this
      ensures var body := ReadBody(true, 0, masked, n, old(input));
              if body.Raw? then payload == Some(body.payload) && input == body.rest else payload == None
    {
      ghost var all := input;
      var key := [0, 0, 0, 0];
      if masked {
        var k := ReadFull(4);
        if k.None? {
          return None;
        }
        key := k.value;
      }
      var p := ReadFull(n);
      if p.None? {
        return None;
      }
      var bytes := new nat[n](i requires 0 <= i < n => p.value[i]);
      assert bytes[..] == p.value;
      if masked {
        assert p.value == all[4..4 + n];
        MaskInPlace(bytes, key);
      }
      payload := Some(bytes[..]);
    }

    /** One frame off the stream, or none when it is cut short or too large. */
    method ReadOne() returns (raw: Option<(bool, nat, seq<nat>)>)
      modifies this
      ensures match ReadRaw(old(input))
              case Raw(fin, opcode, payload, rest) => raw == Some((fin, opcode, payload)) && input == rest
              case _ => raw == None
    {
      var head := ReadHeader();
      if head.None? {
        return None;
      }
      var (hdr1, hdr2, n) := head.value;
      if n > LIMIT {
        return None;
      }
      var payload := ReadPayload(hdr2 / 128 % 2 == 1, n);
      if payload.None? {
        return None;
      }
      raw := Some((hdr1 / 128 % 2 == 1, hdr1 % 16, payload.value));
    }

    method NextMessage() returns (r: Read)
      modifies this
      ensures r == ReadMessage(old(input))
      ensures r.Message? ==> input == r.rest
    {
      while true
        invariant ReadMessage(input) == ReadMessage(old(input))
        decreases |input|
      {
        var raw := ReadOne();
        if raw.None? {
          return Failed;
        }
        var (fin, opcode, payload) := raw.value;
        if opcode == 2 {
          return if fin then Message(payload, input) else Failed;
        } else if opcode == 8 {
          return Closed;
        } else if opcode != 9 && opcode != 10 {
          return Failed;
        }
      }
    }
  }

  // ---------------------------------------------------------------- round trips

  lemma LengthFits(n: nat, wide: nat)
    requires n < Weight(8) && (wide == 8 || (wide == 2 && n <= 0xFFFF))
    ensures n < Weight(wide)
  {
    assert Weight(2) == 0x1_0000;
  }

  lemma LimitFits()
    ensures LIMIT < Weight(8)
  {
    assert Weight(2) == 0x1_0000;
    assert Weight(4) == 0x1_0000_0000;
    assert Weight(8) >= Weight(4);
  }

  lemma WideReadBack(n: nat, wide: nat, first: nat, s: seq<nat>)
    requires n < Weight(8) && ((wide == 2 && n <= 0xFFFF && first % 128 == 126) || (wide == 8 && first % 128 == 127))
    ensures ReadLength(([first] + BigEndian(n, wide)) + s) == Some((n, s))
  {
    var field := BigEndian(n, wide);
    var all := ([first] + field) + s;
    assert all[1..1 + wide] == field && all[1 + wide..] == s;
    LengthFits(n, wide);
    BigEndianRoundTrip(n, wide);
  }

  lemma ShortReadBack(n: nat, first: nat, s: seq<nat>)
    requires n <= 125 && first % 128 == n
    ensures ReadLength([first] + s) == Some((n, s))
  {
    assert ([first] + s)[1..] == s;
  }

  lemma LengthBit(n: nat, maskBit: nat, s: seq<nat>)
    requires maskBit == 0 || maskBit == 128
    ensures (LengthCode(n, maskBit) + s)[0] / 128 % 2 == maskBit / 128
  {
  }

  lemma LengthReadBack(n: nat, maskBit: nat, s: seq<nat>)
    requires n < Weight(8) && (maskBit == 0 || maskBit == 128)
    ensures ReadLength(LengthCode(n, maskBit) + s) == Some((n, s))
    ensures (LengthCode(n, maskBit) + s)[0] / 128 % 2 == maskBit / 128
  {
    LengthBit(n, maskBit, s);
    if n <= 125 {
      ShortReadBack(n, maskBit + n, s);
    } else if n <= 0xFFFF {
      WideReadBack(n, 2, maskBit + 126, s);
    } else {
      WideReadBack(n, 8, maskBit + 127, s);
    }
  }

  lemma PlainReadBack(first: nat, payload: seq<nat>, rest: seq<nat>)
    requires first < 256 && |payload| <= LIMIT
    ensures ReadRaw(WsFrame(first, None, payload) + rest) == Raw(first / 128 == 1, first % 16, payload, rest)
  {
    LimitFits();
    HeadOff(first, LengthCode(|payload|, 0), payload, rest);
    LengthReadBack(|payload|, 0, payload + rest);
    assert (payload + rest)[..|payload|] == payload && (payload + rest)[|payload|..] == rest;
  }

  lemma MaskedBody(fin: bool, opcode: nat, key: Key, payload: seq<nat>, rest: seq<nat>)
    requires |payload| <= LIMIT
    ensures ReadBody(fin, opcode, true, |payload|, (key + Masked(payload, key)) + rest) == Raw(fin, opcode, payload, rest)
  {
    var n, masked := |payload|, Masked(payload, key);
    var body := (key + masked) + rest;
    assert body[..4] == key && body[4..4 + n] == masked && body[4 + n..] == rest;
    MaskTwice(payload, key);
  }

  lemma MaskedReadBack(first: nat, key: Key, payload: seq<nat>, rest: seq<nat>)
    requires first < 256 && |payload| <= LIMIT
    ensures ReadRaw(WsFrame(first, Some(key), payload) + rest) == Raw(first / 128 == 1, first % 16, payload, rest)
  {
    var code, body := LengthCode(|payload|, 128), key + Masked(payload, key);
    LimitFits();
    HeadOff(first, code, body, rest);
    LengthReadBack(|payload|, 128, body + rest);
    ReadRawFrom(WsFrame(first, Some(key), payload) + rest, |payload|, body + rest);
    MaskedBody(first / 128 == 1, first % 16, key, payload, rest);
  }

  lemma ReadRawFrom(s: seq<nat>, n: nat, tail: seq<nat>)
    requires 2 <= |s| && ReadLength(s[1..]) == Some((n, tail))
    ensures ReadRaw(s) == ReadBody(s[0] / 128 % 2 == 1, s[0] % 16, s[1] / 128 % 2 == 1, n, tail)
  {
  }

  lemma HeadOff(first: nat, code: seq<nat>, body: seq<nat>, rest: seq<nat>)
    requires code != []
    ensures var s := ([first] + (code + body)) + rest;
            s[0] == first && s[1] == (code + (body + rest))[0] && s[1..] == code + (body + rest)
  {
  }

  /** The reader takes exactly one frame off the stream and gets its payload back. */
  lemma RawReadBack(first: nat, key: Option<Key>, payload: seq<nat>, rest: seq<nat>)
    requires first < 256 && |payload| <= LIMIT
    ensures ReadRaw(WsFrame(first, key, payload) + rest) == Raw(first / 128 == 1, first % 16, payload, rest)
  {
    match key {
      case None => PlainReadBack(first, payload, rest);
      case Some(k) => MaskedReadBack(first, k, payload, rest);
    }
  }

  lemma OversizeReadBack(first: nat, key: Option<Key>, payload: seq<nat>, rest: seq<nat>)
    requires first < 256 && LIMIT < |payload| < Weight(8)
    ensures ReadRaw(WsFrame(first, key, payload) + rest) == Oversize
  {
    var maskBit := if key.Some? then 128 else 0;
    var body := if key.Some? then key.value + Masked(payload, key.value) else payload;
    HeadOff(first, LengthCode(|payload|, maskBit), body, rest);
    LengthReadBack(|payload|, maskBit, body + rest);
    ReadRawFrom(WsFrame(first, key, payload) + rest, |payload|, body + rest);
  }

  /** What each kind of frame does to the read loop: a whole binary frame is a message, pings and pongs are
      skipped, a close frame closes, and a fragment, any other opcode or an oversized payload fails. */
  lemma FrameKinds(first: nat, key: Option<Key>, payload: seq<nat>, rest: seq<nat>)
    requires first < 256 && |payload| < Weight(8)
    ensures ReadMessage(WsFrame(first, key, payload) + rest) ==
            if 0x10_0000 < |payload| then Failed
            else if first % 16 == 2 && 128 <= first then Message(payload, rest)
            else if first % 16 == 8 then Closed
            else if first % 16 == 9 || first % 16 == 10 then ReadMessage(rest)
            else Failed
  {
    if LIMIT < |payload| {
      OversizeReadBack(first, key, payload, rest);
    } else {
      RawReadBack(first, key, payload, rest);
    }
  }

  /** What travels one way: app frames, and protocol pings and pongs between them. */
  datatype Item =
    | App(frame: Frame, key: Option<Key>)
    | Control(first: nat, key: Option<Key>, payload: seq<nat>)

  ghost predicate ValidItem(x: Item) {
    match x
    case App(f, _) => ValidFrame(f) && Sendable(f)
    case Control(first, _, payload) => first < 256 && (first % 16 == 9 || first % 16 == 10) && |payload| <= LIMIT
  }

  function ItemBytes(x: Item): seq<nat>
  {
    match x
    case App(f, key) => WsFrame(BINARY, key, AppFrame(f))
    case Control(first, key, payload) => WsFrame(first, key, payload)
  }

  function Stream(items: seq<Item>): seq<nat>
  {
    if items == [] then [] else ItemBytes(items[0]) + Stream(items[1..])
  }

  function Frames(items: seq<Item>): seq<Parsed> {
    if items == [] then []
    else (if items[0].App? then [Got(items[0].frame)] else []) + Frames(items[1..])
  }

  /** Read frames until the stream gives no more, with either side's parser. */
  function Receive(s: seq<nat>, side: Side): seq<Parsed>
    decreases |s|
  {
    match ReadMessage(s)
    case Message(payload, rest) => [Parse(side, payload)] + Receive(rest, side)
    case Closed => []
    case Failed => []
  }

  /** No frame the builders accept is too large for the reader. */
  lemma BuiltFramesFit(f: Frame)
    requires Sendable(f)
    ensures |AppFrame(f)| <= 131_075 <= LIMIT
  {
  }

  lemma ControlSkipped(x: Item, rest: seq<nat>)
    requires ValidItem(x) && x.Control?
    ensures ReadMessage(ItemBytes(x) + rest) == ReadMessage(rest)
  {
    RawReadBack(x.first, x.key, x.payload, rest);
  }

  lemma AppReadBack(x: Item, rest: seq<nat>)
    requires ValidItem(x) && x.App?
    ensures ReadMessage(ItemBytes(x) + rest) == Message(AppFrame(x.frame), rest)
  {
    BuiltFramesFit(x.frame);
    RawReadBack(BINARY, x.key, AppFrame(x.frame), rest);
  }

  /** Any sequence of frames, with any masks and pings between them, arrives as that sequence. */
  lemma {:induction false} StreamRoundTrip(items: seq<Item>, side: Side)
    requires forall x | x in items :: ValidItem(x)
    ensures Receive(Stream(items), side) == Frames(items)
  {
    if items != [] {
      var x, rest := items[0], Stream(items[1..]);
      StreamRoundTrip(items[1..], side);
      if x.App? {
        AppReadBack(x, rest);
        FrameRoundTrip(x.frame);
      } else {
        ControlSkipped(x, rest);
      }
    }
  }
}
