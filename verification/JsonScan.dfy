/** Reading canonical JSON left to right: brackets nest, so no object ends inside another's text. */
module JsonScan {
  import opened Bytes
  import opened CanonicalJson
  import Order
  import opened Seqs

  /** Between tokens, in a string, after a backslash in one, just after one, or nowhere legal. */
  datatype Mode = Out | In | Esc | Closed | Bad

  datatype Spot = Spot(mode: Mode, depth: int)

  function Next(s: Spot, c: char): Spot {
    match s.mode
    case Out =>
      if c == '"' then Spot(In, s.depth)
      else if c == '{' || c == '[' then Spot(Out, s.depth + 1)
      else if c == '}' || c == ']' then Spot(Out, s.depth - 1)
      else s
    case In =>
      if c == '"' then Spot(Closed, s.depth) else if c == '\\' then Spot(Esc, s.depth) else s
    case Esc =>
      if c in "\"\\bfnrtu" then Spot(In, s.depth) else Spot(Bad, s.depth)
    case Closed =>
      if c == ',' || c == ':' then Spot(Out, s.depth)
      else if c == '}' || c == ']' then Spot(Out, s.depth - 1)
      else Spot(Bad, s.depth)
    case Bad => s
  }

  function Scan(text: string, s: Spot): Spot {
    if text == [] then s else Scan(text[1..], Next(s, text[0]))
  }

  /** Every spot after a first character is at least `floor` deep. */
  predicate Above(text: string, s: Spot, floor: int) {
    text == [] || (floor <= Next(s, text[0]).depth && Above(text[1..], Next(s, text[0]), floor))
  }

  lemma {:induction false} ScanConcat(a: string, b: string, s: Spot, floor: int)
    ensures Scan(a + b, s) == Scan(b, Scan(a, s))
    ensures Above(a + b, s, floor) <==> Above(a, s, floor) && Above(b, Scan(a, s), floor)
  {
    if a == [] {
      assert a + b == b;
    } else {
      assert (a + b)[1..] == a[1..] + b;
      ScanConcat(a[1..], b, Next(s, a[0]), floor);
    }
  }

  lemma {:induction false} AboveEnds(text: string, s: Spot, floor: int)
    requires Above(text, s, floor) && text != []
    ensures floor <= Scan(text, s).depth
  {
    if text[1..] != [] {
      AboveEnds(text[1..], Next(s, text[0]), floor);
    }
  }

  lemma {:induction false} AboveLower(text: string, s: Spot, floor: int, lower: int)
    requires Above(text, s, floor) && lower <= floor
    ensures Above(text, s, lower)
  {
    if text != [] {
      AboveLower(text[1..], Next(s, text[0]), floor, lower);
    }
  }

  lemma {:induction false} BadStays(text: string, s: Spot)
    requires s.mode == Bad
    ensures Scan(text, s).mode == Bad
  {
    if text != [] {
      BadStays(text[1..], s);
    }
  }

  /** A run of plain characters changes nothing. */
  lemma {:induction false} PlainRun(text: string, s: Spot)
    requires forall i | 0 <= i < |text| :: Next(s, text[i]) == s
    ensures Scan(text, s) == s && Above(text, s, s.depth)
  {
    if text != [] {
      PlainRun(text[1..], s);
    }
  }

  lemma OneChar(c: char, s: Spot)
    ensures Scan([c], s) == Next(s, c) && (Above([c], s, s.depth) <==> s.depth <= Next(s, c).depth)
  {
    assert [c][1..] == [];
    assert Scan([c][1..], Next(s, c)) == Next(s, c);
  }

  // ---------------------------------------------------------------- tokens

  lemma EscapeScans(c: char, d: int)
    ensures Scan(Escape(c), Spot(In, d)) == Spot(In, d) && Above(Escape(c), Spot(In, d), d)
  {
    var e := Escape(c);
    if |e| == 1 {
      OneChar(c, Spot(In, d));
    } else {
      assert e == [e[0], e[1]] + e[2..];
      PairScans(e[1], d);
      ScanConcat([e[0], e[1]], e[2..], Spot(In, d), d);
      if |e| == 2 {
        assert e[2..] == [];
      } else {
        assert e[2..] == Hex4(c as int);
        forall i | 0 <= i < 4 ensures Next(Spot(In, d), e[2..][i]) == Spot(In, d) {
          HexIsPlain(c as int, i);
        }
        PlainRun(e[2..], Spot(In, d));
      }
    }
  }

  lemma PairScans(c: char, d: int)
    requires c in "\"\\bfnrtu"
    ensures Scan(['\\', c], Spot(In, d)) == Spot(In, d) && Above(['\\', c], Spot(In, d), d)
  {
    assert ['\\', c] == ['\\'] + [c];
    OneChar('\\', Spot(In, d));
    OneChar(c, Spot(Esc, d));
    ScanConcat(['\\'], [c], Spot(In, d), d);
  }

  lemma HexIsPlain(n: nat, i: nat)
    requires n < 0x1_0000 && i < 4
    ensures Hex4(n)[i] != '"' && Hex4(n)[i] != '\\'
  {
    HexDigitValue(n / 16 / 16 / 16);
    HexDigitValue(n / 16 / 16 % 16);
    HexDigitValue(n / 16 % 16);
    HexDigitValue(n % 16);
    assert IsHex(Hex4(n)[i]);
  }

  lemma {:induction false} EscapedScans(s: string, d: int)
    ensures Scan(Escaped(s), Spot(In, d)) == Spot(In, d) && Above(Escaped(s), Spot(In, d), d)
  {
    if s != [] {
      EscapeScans(s[0], d);
      EscapedScans(s[1..], d);
      ScanConcat(Escape(s[0]), Escaped(s[1..]), Spot(In, d), d);
    }
  }

  lemma QuotedScans(s: string, d: int)
    ensures Scan(Quoted(s), Spot(Out, d)) == Spot(Closed, d) && Above(Quoted(s), Spot(Out, d), d)
  {
    EscapedScans(s, d);
    OneChar('"', Spot(Out, d));
    OneChar('"', Spot(In, d));
    ScanConcat(Escaped(s), "\"", Spot(In, d), d);
    ScanConcat("\"", Escaped(s) + "\"", Spot(Out, d), d);
  }

  lemma DecimalScans(n: int, d: int)
    ensures Scan(Decimal(n), Spot(Out, d)) == Spot(Out, d) && Above(Decimal(n), Spot(Out, d), d)
  {
    PlainRun(Sign(n), Spot(Out, d));
    PlainRun(Digits(Abs(n)), Spot(Out, d));
    ScanConcat(Sign(n), Digits(Abs(n)), Spot(Out, d), d);
  }

  // ---------------------------------------------------------------- values

  /** Between values at depth `d`. */
  predicate Free(s: Spot, d: int) {
    s.depth == d && (s.mode == Out || s.mode == Closed)
  }

  /** The text ends one level up, and only its last character gets there. */
  ghost predicate Ends(text: string, s: Spot, d: int) {
    && text != [] && Free(Scan(text, s), d - 1)
    && Above(text[..|text| - 1], s, d)
  }

  lemma CommaScans(first: bool, s: Spot, d: int)
    requires if first then s == Spot(Out, d) else Free(s, d)
    ensures Scan(Comma(first), s) == Spot(Out, d) && Above(Comma(first), s, d)
  {
    OneChar(',', s);
  }

  lemma BracketEnds(c: char, s: Spot, d: int)
    requires (c == ']' || c == '}') && Free(s, d)
    ensures Ends([c], s, d)
  {
    OneChar(c, s);
    assert [c][..0] == [];
  }

  lemma EndsLater(a: string, b: string, s: Spot, d: int)
    requires Above(a, s, d) && Ends(b, Scan(a, s), d)
    ensures Ends(a + b, s, d)
  {
    var t := a + b;
    assert t[..|t| - 1] == a + b[..|b| - 1];
    ScanConcat(a, b, s, d);
    ScanConcat(a, b[..|b| - 1], s, d);
  }

  /** A bracketed text: its own bracket goes one deeper, and its end comes back. */
  lemma Bracketed(open: char, body: string, d: int)
    requires (open == '[' || open == '{') && Ends(body, Spot(Out, d + 1), d + 1)
    ensures Free(Scan([open] + body, Spot(Out, d)), d)
    ensures Above([open] + body, Spot(Out, d), d)
    ensures var t := [open] + body; Above(t[..|t| - 1], Spot(Out, d), d + 1)
  {
    var t, front := [open] + body, body[..|body| - 1];
    var s := Spot(Out, d + 1);
    assert t[..|t| - 1] == [open] + front && t == ([open] + front) + [body[|body| - 1]];
    assert [open][1..] == [] && Next(Spot(Out, d), open) == s && Scan([open], Spot(Out, d)) == s;
    assert Above([open], Spot(Out, d), d + 1);
    ScanConcat([open], front, Spot(Out, d), d + 1);
    ScanConcat([open], body, Spot(Out, d), d);
    ScanConcat([open] + front, [body[|body| - 1]], Spot(Out, d), d);
    AboveLower([open] + front, Spot(Out, d), d + 1, d);
    var last := Scan([open] + front, Spot(Out, d));
    assert [body[|body| - 1]][1..] == [];
    assert Next(last, body[|body| - 1]) == Scan([body[|body| - 1]], last) == Scan(t, Spot(Out, d));
  }

  /** A value's text starts and ends between tokens at its own depth, and never goes above it. */
  lemma {:induction false} ValueScans(v: Json, d: int)
    ensures Free(Scan(Encode(v), Spot(Out, d)), d) && Above(Encode(v), Spot(Out, d), d)
    decreases v, 1, 0
  {
    match v
    case Null => PlainRun("null", Spot(Out, d));
    case Bool(b) => PlainRun(if b then "true" else "false", Spot(Out, d));
    case Num(n) => DecimalScans(n, d);
    case Str(s) => QuotedScans(s, d);
    case Arr(items) =>
      ItemsScan(v, items, true, Spot(Out, d + 1), d + 1);
      Bracketed('[', ItemsText(v, items, true), d);
    case Obj(_) => ObjectScans(v, d);
  }

  lemma {:induction false} ItemsScan(v: Json, items: seq<Json>, first: bool, s: Spot, d: int)
    requires v.Arr? && forall x | x in items :: x in v.items
    requires if first then s == Spot(Out, d) else Free(s, d)
    ensures Ends(ItemsText(v, items, first), s, d)
    decreases v, 0, |items|
  {
    if items == [] {
      BracketEnds(']', s, d);
    } else {
      assert items[0] in v.items;
      var e, rest := Encode(items[0]), ItemsText(v, items[1..], false);
      CommaScans(first, s, d);
      ValueScans(items[0], d);
      ItemsScan(v, items[1..], false, Scan(e, Spot(Out, d)), d);
      EndsLater(e, rest, Spot(Out, d), d);
      EndsLater(Comma(first), e + rest, s, d);
    }
  }

  /** An object stays a level down until its last character. */
  lemma {:induction false} ObjectScans(v: Json, d: int)
    requires v.Obj?
    ensures Free(Scan(Encode(v), Spot(Out, d)), d) && Above(Encode(v), Spot(Out, d), d)
    ensures Encode(v) != [] && Above(Encode(v)[..|Encode(v)| - 1], Spot(Out, d), d + 1)
    decreases v, 0, |v.fields| + 1
  {
    Order.TextLeIsTotal();
    Order.SortedSetIsSorted(Order.TextLe, v.fields.Keys);
    var keys := Order.SortedSet(Order.TextLe, v.fields.Keys);
    assert |keys| == |multiset(keys)| == |v.fields.Keys|;
    FieldsScan(v, keys, true, Spot(Out, d + 1), d + 1);
    Bracketed('{', FieldsText(v, keys, true), d);
  }

  lemma {:induction false} FieldsScan(v: Json, keys: seq<string>, first: bool, s: Spot, d: int)
    requires v.Obj? && forall k | k in keys :: k in v.fields
    requires if first then s == Spot(Out, d) else Free(s, d)
    ensures Ends(FieldsText(v, keys, first), s, d)
    decreases v, 0, |keys|
  {
    if keys == [] {
      BracketEnds('}', s, d);
    } else {
      assert keys[0] in keys;
      var e, rest := Encode(v.fields[keys[0]]), FieldsText(v, keys[1..], false);
      CommaScans(first, s, d);
      ValueScans(v.fields[keys[0]], d);
      FieldsScan(v, keys[1..], false, Scan(e, Spot(Out, d)), d);
      EndsLater(e, rest, Spot(Out, d), d);
      KeyScans(keys[0], e + rest, d);
      EndsLater(Comma(first), Quoted(keys[0]) + (":" + (e + rest)), s, d);
    }
  }

  /** A key and its colon lead to where a value may start. */
  lemma KeyScans(key: string, rest: string, d: int)
    requires Ends(rest, Spot(Out, d), d)
    ensures Ends(Quoted(key) + (":" + rest), Spot(Out, d), d)
  {
    QuotedScans(key, d);
    OneChar(':', Spot(Closed, d));
    EndsLater(":", rest, Spot(Closed, d), d);
    EndsLater(Quoted(key), ":" + rest, Spot(Out, d), d);
  }

  // ---------------------------------------------------------------- no object within another's end

  /** Text that begins an object whose first key begins with a plain character. */
  predicate OpensObject(t: string) {
    3 <= |t| && t[0] == '{' && t[1] == '"' && t[2] !in ",:}]"
  }

  /** Wherever reading stands in a value, an object's opening there leads nowhere legal,
      unless it stands between tokens. */
  lemma OnlyBetweenTokens(t: string, s: Spot)
    requires OpensObject(t) && s.mode != Out
    ensures Scan(t, s).mode == Bad
  {
    var a := Next(s, t[0]);
    var b := Next(a, t[1]);
    var c := Next(b, t[2]);
    assert t[1..][0] == t[1] && t[1..][1..] == t[2..] && t[2..][0] == t[2] && t[2..][1..] == t[3..];
    assert Scan(t, s) == Scan(t[1..], a) == Scan(t[2..], b) == Scan(t[3..], c);
    BadStays(t[3..], c);
  }

  /** Inside an object's text, short of its end, reading is at least one level down. */
  lemma WithinObject(v: Json, front: string, back: string)
    requires v.Obj? && Encode(v) == front + back && front != [] && back != []
    ensures 1 <= Scan(front, Spot(Out, 0)).depth
  {
    var top, last := Spot(Out, 0), back[..|back| - 1];
    ObjectScans(v, 0);
    assert Encode(v)[..|Encode(v)| - 1] == front + last;
    ScanConcat(front, last, top, 1);
    AboveEnds(front, top, 1);
  }

  /** No object's text is the proper end of another's. */
  lemma NoObjectEndsAnother(v: Json, w: Json, front: string)
    requires v.Obj? && w.Obj? && OpensObject(Encode(w)) && Encode(v) == front + Encode(w)
    ensures front == []
  {
    if front != [] {
      var s := Scan(front, Spot(Out, 0));
      WithinObject(v, front, Encode(w));
      ObjectScans(v, 0);
      ScanConcat(front, Encode(w), Spot(Out, 0), 0);
      if s.mode == Out {
        ValueScans(w, s.depth);
      } else {
        OnlyBetweenTokens(Encode(w), s);
      }
    }
  }
}
