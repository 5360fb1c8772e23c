/** The canonical encoder behind the audit hash: one text per value, one value per text. */
module CanonicalJson {
  import opened Bytes
  import Float64
  import Order
  import opened Seqs

  /** A decoded JSON value whose numbers are integers. */
  datatype Json =
    | Null
    | Bool(b: bool)
    | Num(n: int)
    | Str(s: string)
    | Arr(items: seq<Json>)
    | Obj(fields: map<string, Json>)

  /** What a value becomes when its text is decoded: every number a 64-bit float. */
  function Decoded(v: Json): Json {
    match v
    case Num(n) => Num(Float64.Rounded(n))
    case Arr(items) => Arr(seq(|items|, i requires 0 <= i < |items| => Decoded(items[i])))
    case Obj(fields) => Obj(map k | k in fields :: Decoded(fields[k]))
    case _ => v
  }

  /** Decoding again changes nothing more. */
  lemma {:induction false} DecodedTwice(v: Json)
    ensures Decoded(Decoded(v)) == Decoded(v)
  {
    match v
    case Num(n) => Float64.RoundedTwice(n);
    case Arr(items) =>
      forall i | 0 <= i < |items| ensures Decoded(Decoded(items[i])) == Decoded(items[i]) {
        DecodedTwice(items[i]);
      }
      assert Decoded(Decoded(v)).items == Decoded(v).items;
    case Obj(fields) =>
      forall k | k in fields ensures Decoded(Decoded(fields[k])) == Decoded(fields[k]) {
        DecodedTwice(fields[k]);
      }
      assert Decoded(Decoded(v)).fields == Decoded(v).fields;
    case _ =>
  }

  /** Every integer in the value is at most 2^53 in size. */
  predicate Exact(v: Json) {
    match v
    case Num(n) => -Float64.EXACT <= n <= Float64.EXACT
    case Arr(items) => forall i | 0 <= i < |items| :: Exact(items[i])
    case Obj(fields) => forall k | k in fields :: Exact(fields[k])
    case _ => true
  }

  /** Decoding loses nothing of a value whose integers are within 2^53. */
  lemma {:induction false} ExactIsKept(v: Json)
    requires Exact(v)
    ensures Decoded(v) == v
  {
    match v
    case Num(n) => Float64.SmallIsExact(n);
    case Arr(items) =>
      forall i | 0 <= i < |items| ensures Decoded(items[i]) == items[i] {
        ExactIsKept(items[i]);
      }
      assert Decoded(v).items == items;
    case Obj(fields) =>
      forall k | k in fields ensures Decoded(fields[k]) == fields[k] {
        ExactIsKept(fields[k]);
      }
      assert Decoded(v).fields == fields;
    case _ =>
  }

  // ---------------------------------------------------------------- texts

  /** A common beginning can be taken off. */
  lemma Strip(p: string, x: string, y: string, r1: string, r2: string)
    requires (p + x) + r1 == (p + y) + r2
    ensures x + r1 == y + r2
  {
    Assoc(p, x, r1);
    Assoc(p, y, r2);
    Cancel(p, x + r1, y + r2);
  }

  // ---------------------------------------------------------------- strings

  function Hex4(n: nat): string
    requires n < 0x1_0000
  {
    [HEX[n / 16 / 16 / 16], HEX[n / 16 / 16 % 16], HEX[n / 16 % 16], HEX[n % 16]]
  }

  predicate Hidden(c: char) {
    c < ' ' || c == '<' || c == '>' || c == '&' || c == '\U{2028}' || c == '\U{2029}'
  }

  /** How the standard encoder writes one character inside quotes. */
  function Escape(c: char): (e: string)
    ensures e != [] && e[0] != '"'
  {
    if c == '"' then "\\\""
    else if c == '\\' then "\\\\"
    else if c == '\U{8}' then "\\b"
    else if c == '\U{C}' then "\\f"
    else if c == '\n' then "\\n"
    else if c == '\r' then "\\r"
    else if c == '\t' then "\\t"
    else if Hidden(c) then "\\u" + Hex4(c as int)
    else [c]
  }

  function Hex4Value(h: string): nat
    requires |h| == 4
  {
    ((HexValue(h[0]) * 16 + HexValue(h[1])) * 16 + HexValue(h[2])) * 16 + HexValue(h[3])
  }

  /** Read one character back, with what follows it. */
  function Unescape(text: string): (char, string)
    requires text != []
  {
    if text[0] != '\\' || |text| < 2 then (text[0], text[1..])
    else if text[1] == 'b' then ('\U{8}', text[2..])
    else if text[1] == 'f' then ('\U{C}', text[2..])
    else if text[1] == 'n' then ('\n', text[2..])
    else if text[1] == 'r' then ('\r', text[2..])
    else if text[1] == 't' then ('\t', text[2..])
    else if text[1] == 'u' && |text| >= 6 then
      var code := Hex4Value(text[2..6]);
      (if code < 0xD800 then code as char else '?', text[6..])
    else (text[1], text[2..])
  }

  lemma Hex4RoundTrip(n: nat)
    requires n < 0x1_0000
    ensures Hex4Value(Hex4(n)) == n
  {
    var a := n / 16;
    var b := a / 16;
    HexDigitValue(b / 16);
    HexDigitValue(b % 16);
    HexDigitValue(a % 16);
    HexDigitValue(n % 16);
    assert n == a * 16 + n % 16 && a == b * 16 + a % 16 && b == b / 16 * 16 + b % 16;
  }

  lemma HiddenRoundTrip(c: char, rest: string)
    requires Hidden(c) && Escape(c) == "\\u" + Hex4(c as int)
    ensures Unescape(Escape(c) + rest) == (c, rest)
  {
    var text, h := Escape(c) + rest, Hex4(c as int);
    assert text[2..6] == h && text[6..] == rest;
    Hex4RoundTrip(c as int);
  }

  lemma ShortRoundTrip(c: char, rest: string)
    requires |Escape(c)| == 2
    ensures Unescape(Escape(c) + rest) == (c, rest)
  {
    assert (Escape(c) + rest)[2..] == rest;
  }

  lemma EscapeRoundTrip(c: char, rest: string)
    ensures Unescape(Escape(c) + rest) == (c, rest)
  {
    if |Escape(c)| == 1 {
      assert (Escape(c) + rest)[1..] == rest;
    } else if |Escape(c)| == 2 {
      ShortRoundTrip(c, rest);
    } else {
      HiddenRoundTrip(c, rest);
    }
  }

  /** Characters a text may carry into HTML and JavaScript as they are. */
  predicate Harmless(c: char) {
    ' ' <= c && c !in {'<', '>', '&', '\U{2028}', '\U{2029}'}
  }

  /** Seven characters have a short form, other harmful ones a hexadecimal one, and the rest stand for themselves. */
  lemma EscapeForms(c: char)
    ensures c in {'"', '\\', '\U{8}', '\U{C}', '\n', '\r', '\t'} <==> |Escape(c)| == 2
    ensures !Harmless(c) && c !in {'\U{8}', '\U{C}', '\n', '\r', '\t'} <==> |Escape(c)| == 6
    ensures Harmless(c) && c != '"' && c != '\\' <==> Escape(c) == [c]
    ensures forall x | x in Escape(c) :: Harmless(x)
  {
    if Hidden(c) {
      HexIsHarmless();
    }
  }

  lemma HexIsHarmless()
    ensures forall n | 0 <= n < 16 :: Harmless(HEX[n])
  {
  }

  /** No quoted text carries a control character, an angle bracket, an ampersand or a line separator. */
  lemma {:induction false} QuotedIsHarmless(s: string)
    ensures forall x | x in Quoted(s) :: Harmless(x)
  {
    EscapedIsHarmless(s);
  }

  lemma {:induction false} EscapedIsHarmless(s: string)
    ensures forall x | x in Escaped(s) :: Harmless(x)
  {
    if s != "" {
      EscapeForms(s[0]);
      EscapedIsHarmless(s[1..]);
    }
  }

  function Escaped(s: string): string {
    if s == [] then "" else Escape(s[0]) + Escaped(s[1..])
  }

  function Quoted(s: string): string {
    "\"" + (Escaped(s) + "\"")
  }

  lemma QuoteEnds(s: string, r: string)
    ensures (Escaped(s) + "\"" + r)[0] == '"' <==> s == []
  {
    if s != [] {
      assert Escaped(s)[0] == Escape(s[0])[0];
    }
  }

  lemma EscapedSplit(s: string, q: string, r: string)
    requires s != []
    ensures Escaped(s) + q + r == Escape(s[0]) + (Escaped(s[1..]) + q + r)
  {
    Assoc(Escape(s[0]), Escaped(s[1..]), q);
    Assoc(Escape(s[0]), Escaped(s[1..]) + q, r);
  }

  /** The first unescaped quote ends the string: where it ends and what it holds are fixed. */
  lemma {:induction false} EscapedUnambiguous(s: string, t: string, r1: string, r2: string)
    requires Escaped(s) + "\"" + r1 == Escaped(t) + "\"" + r2
    ensures s == t && r1 == r2
  {
    QuoteEnds(s, r1);
    QuoteEnds(t, r2);
    if s == [] {
      assert Escaped(s) + "\"" == "\"" && Escaped(t) + "\"" == "\"";
      Cancel("\"", r1, r2);
    } else {
      EscapedSplit(s, "\"", r1);
      EscapedSplit(t, "\"", r2);
      EscapeRoundTrip(s[0], Escaped(s[1..]) + "\"" + r1);
      EscapeRoundTrip(t[0], Escaped(t[1..]) + "\"" + r2);
      EscapedUnambiguous(s[1..], t[1..], r1, r2);
      assert s == [s[0]] + s[1..] && t == [t[0]] + t[1..];
    }
  }

  lemma QuotedUnambiguous(s: string, t: string, r1: string, r2: string)
    requires Quoted(s) + r1 == Quoted(t) + r2
    ensures s == t && r1 == r2
  {
    Strip("\"", Escaped(s) + "\"", Escaped(t) + "\"", r1, r2);
    EscapedUnambiguous(s, t, r1, r2);
  }

  // ---------------------------------------------------------------- numbers

  predicate IsDigit(c: char) {
    '0' <= c <= '9'
  }

  function Digits(n: nat): (d: string)
    ensures d != [] && forall i | 0 <= i < |d| :: IsDigit(d[i])
  {
    (if n < 10 then "" else Digits(n / 10)) + [HEX[n % 10]]
  }

  function Sign(n: int): string {
    if n < 0 then "-" else ""
  }

  function Abs(n: int): nat {
    if n < 0 then -n else n
  }

  function Decimal(n: int): (d: string)
    ensures d != []
  {
    Sign(n) + Digits(Abs(n))
  }

  lemma {:induction false} DigitsInjective(a: nat, b: nat)
    requires Digits(a) == Digits(b)
    ensures a == b
  {
    var d, e := Digits(a), Digits(b);
    HexDigitValue(a % 10);
    HexDigitValue(b % 10);
    assert d[|d| - 1] == HEX[a % 10] && e[|e| - 1] == HEX[b % 10];
    assert d[..|d| - 1] == if a < 10 then "" else Digits(a / 10);
    assert e[..|e| - 1] == if b < 10 then "" else Digits(b / 10);
    if a >= 10 && b >= 10 {
      DigitsInjective(a / 10, b / 10);
    }
  }

  /** What may follow a value: nothing, a comma, or a closing bracket. */
  predicate Closes(r: string) {
    r == [] || r[0] == ',' || r[0] == ']' || r[0] == '}'
  }

  /** A run of digits ends where something else begins, so it cannot stop short of another. */
  lemma NoShorterRun(d: string, e: string, r1: string, r2: string)
    requires d + r1 == e + r2 && Closes(r1)
    requires forall i | 0 <= i < |e| :: IsDigit(e[i])
    ensures |d| >= |e|
  {
    assert (d + r1 + " ")[|d|] == (e + r2 + " ")[|d|];
  }

  lemma DigitsUnambiguous(a: nat, b: nat, r1: string, r2: string)
    requires Digits(a) + r1 == Digits(b) + r2 && Closes(r1) && Closes(r2)
    ensures a == b && r1 == r2
  {
    var d, e := Digits(a), Digits(b);
    NoShorterRun(d, e, r1, r2);
    NoShorterRun(e, d, r2, r1);
    assert (d + r1)[..|d|] == d && (e + r2)[..|e|] == e;
    Cancel(d, r1, r2);
    DigitsInjective(a, b);
  }

  lemma SignTells(n: int, r: string)
    ensures (Decimal(n) + r)[0] == '-' <==> n < 0
  {
    assert IsDigit(Digits(Abs(n))[0]);
  }

  lemma DecimalUnambiguous(a: int, b: int, r1: string, r2: string)
    requires Decimal(a) + r1 == Decimal(b) + r2 && Closes(r1) && Closes(r2)
    ensures a == b && r1 == r2
  {
    SignTells(a, r1);
    SignTells(b, r2);
    Strip(Sign(a), Digits(Abs(a)), Digits(Abs(b)), r1, r2);
    DigitsUnambiguous(Abs(a), Abs(b), r1, r2);
  }

  // ---------------------------------------------------------------- values

  function Comma(first: bool): string {
    if first then "" else ","
  }

  /** The canonical text of a value: a function of the value alone. */
  ghost function Encode(v: Json): string
    decreases v, 1, 0
  {
    match v
    case Null => "null"
    case Bool(b) => if b then "true" else "false"
    case Num(n) => Decimal(n)
    case Str(s) => Quoted(s)
    case Arr(items) => "[" + ItemsText(v, items, true)
    case Obj(fields) =>
      Order.TextLeIsTotal();
      Order.SortedSetIsSorted(Order.TextLe, fields.Keys);
      "{" + FieldsText(v, Order.SortedSet(Order.TextLe, fields.Keys), true)
  }

  /** The rest of a list, from some item on. */
  ghost function ItemsText(v: Json, items: seq<Json>, first: bool): (t: string)
    requires v.Arr? && forall x | x in items :: x in v.items
    ensures t != []
    decreases v, 0, |items|
  {
    if items == [] then "]"
    else
      assert items[0] in v.items;
      Comma(first) + (Encode(items[0]) + ItemsText(v, items[1..], false))
  }

  /** The rest of an object, from some key on. */
  ghost function FieldsText(v: Json, keys: seq<string>, first: bool): string
    requires v.Obj? && forall k | k in keys :: k in v.fields
    decreases v, 0, |keys|
  {
    if keys == [] then "}"
    else
      assert keys[0] in keys;
      Comma(first) + (Quoted(keys[0]) + (":" + (Encode(v.fields[keys[0]]) + FieldsText(v, keys[1..], false))))
  }

  /** The kind of value a first character announces. */
  function Announces(c: char): nat {
    if c == 'n' then 0
    else if c == 't' || c == 'f' then 1
    else if c == '-' || IsDigit(c) then 2
    else if c == '"' then 3
    else if c == '[' then 4
    else if c == '{' then 5
    else 6
  }

  function Kind(v: Json): nat {
    match v
    case Null => 0
    case Bool(_) => 1
    case Num(_) => 2
    case Str(_) => 3
    case Arr(_) => 4
    case Obj(_) => 5
  }

  lemma FirstCharacter(v: Json)
    ensures Encode(v) != [] && Announces(Encode(v)[0]) == Kind(v)
  {
  }

  lemma FirstOfItems(v: Json, items: seq<Json>, first: bool, r: string)
    requires v.Arr? && forall x | x in items :: x in v.items
    ensures var c := (ItemsText(v, items, first) + r)[0];
            (c == ']' <==> items == []) && (c == ',' <==> items != [] && !first)
  {
    if items != [] {
      FirstCharacter(items[0]);
    }
  }

  lemma FirstOfFields(v: Json, keys: seq<string>, first: bool, r: string)
    requires v.Obj? && forall k | k in keys :: k in v.fields
    ensures var c := (FieldsText(v, keys, first) + r)[0];
            (c == '}' <==> keys == []) && (c == ',' <==> keys != [] && !first)
  {
    if keys != [] {
      assert Quoted(keys[0])[0] == '"';
    }
  }

  /** One encoding never begins another in a place where a value may end. */
  lemma {:induction false} Unambiguous(v: Json, w: Json, r1: string, r2: string)
    requires Encode(v) + r1 == Encode(w) + r2 && Closes(r1) && Closes(r2)
    ensures v == w && r1 == r2
    decreases v, 1, 0
  {
    FirstCharacter(v);
    FirstCharacter(w);
    assert (Encode(v) + r1)[0] == Encode(v)[0] && (Encode(w) + r2)[0] == Encode(w)[0];
    match v {
      case Null => Cancel("null", r1, r2);
      case Bool(_) => Cancel(Encode(v), r1, r2);
      case Num(n) => DecimalUnambiguous(n, w.n, r1, r2);
      case Str(s) => QuotedUnambiguous(s, w.s, r1, r2);
      case Arr(_) =>
        Strip("[", ItemsText(v, v.items, true), ItemsText(w, w.items, true), r1, r2);
        ItemsUnambiguous(v, w, v.items, w.items, true, r1, r2);
      case Obj(_) => ObjectUnambiguous(v, w, r1, r2);
    }
  }

  lemma {:induction false} ItemsUnambiguous(v: Json, w: Json, a: seq<Json>, b: seq<Json>, first: bool, r1: string, r2: string)
    requires v.Arr? && w.Arr? && (forall x | x in a :: x in v.items) && (forall x | x in b :: x in w.items)
    requires ItemsText(v, a, first) + r1 == ItemsText(w, b, first) + r2
    ensures a == b && r1 == r2
    decreases v, 0, |a|
  {
    FirstOfItems(v, a, first, r1);
    FirstOfItems(w, b, first, r2);
    if a == [] {
      Cancel("]", r1, r2);
    } else {
      assert a[0] in v.items && b[0] in w.items;
      var tail1, tail2 := ItemsText(v, a[1..], false), ItemsText(w, b[1..], false);
      FirstOfItems(v, a[1..], false, r1);
      FirstOfItems(w, b[1..], false, r2);
      Strip(Comma(first), Encode(a[0]) + tail1, Encode(b[0]) + tail2, r1, r2);
      Assoc(Encode(a[0]), tail1, r1);
      Assoc(Encode(b[0]), tail2, r2);
      Unambiguous(a[0], b[0], tail1 + r1, tail2 + r2);
      ItemsUnambiguous(v, w, a[1..], b[1..], false, r1, r2);
      assert a == [a[0]] + a[1..] && b == [b[0]] + b[1..];
    }
  }

  /** One field is read back whole: its key, its value and what follows. */
  lemma {:induction false} FieldUnambiguous(v: Json, w: Json, k: string, l: string, t1: string, t2: string, r1: string, r2: string)
    requires v.Obj? && w.Obj? && k in v.fields && l in w.fields && Closes(t1 + r1) && Closes(t2 + r2)
    requires (Quoted(k) + (":" + (Encode(v.fields[k]) + t1))) + r1
          == (Quoted(l) + (":" + (Encode(w.fields[l]) + t2))) + r2
    ensures k == l && v.fields[k] == w.fields[l] && t1 + r1 == t2 + r2
    decreases v, 0, 0
  {
    var e1, e2 := Encode(v.fields[k]), Encode(w.fields[l]);
    Assoc(Quoted(k), ":" + (e1 + t1), r1);
    Assoc(Quoted(l), ":" + (e2 + t2), r2);
    QuotedUnambiguous(k, l, (":" + (e1 + t1)) + r1, (":" + (e2 + t2)) + r2);
    Strip(":", e1 + t1, e2 + t2, r1, r2);
    Assoc(e1, t1, r1);
    Assoc(e2, t2, r2);
    Unambiguous(v.fields[k], w.fields[l], t1 + r1, t2 + r2);
  }

  lemma {:induction false} FieldsUnambiguous(v: Json, w: Json, a: seq<string>, b: seq<string>, first: bool, r1: string, r2: string)
    requires v.Obj? && w.Obj? && (forall k | k in a :: k in v.fields) && (forall k | k in b :: k in w.fields)
    requires FieldsText(v, a, first) + r1 == FieldsText(w, b, first) + r2
    ensures a == b && r1 == r2 && forall k | k in a :: k in w.fields && v.fields[k] == w.fields[k]
    decreases v, 0, |a| + 1
  {
    FirstOfFields(v, a, first, r1);
    FirstOfFields(w, b, first, r2);
    if a == [] {
      Cancel("}", r1, r2);
    } else {
      assert a[0] in v.fields && b[0] in w.fields;
      var tail1, tail2 := FieldsText(v, a[1..], false), FieldsText(w, b[1..], false);
      FirstOfFields(v, a[1..], false, r1);
      FirstOfFields(w, b[1..], false, r2);
      Strip(Comma(first), Quoted(a[0]) + (":" + (Encode(v.fields[a[0]]) + tail1)),
            Quoted(b[0]) + (":" + (Encode(w.fields[b[0]]) + tail2)), r1, r2);
      FieldUnambiguous(v, w, a[0], b[0], tail1, tail2, r1, r2);
      FieldsUnambiguous(v, w, a[1..], b[1..], false, r1, r2);
      assert a == [a[0]] + a[1..] && b == [b[0]] + b[1..];
    }
  }

  /** The keys of an object in canonical order. */
  ghost function SortedKeysOf(v: Json): (keys: seq<string>)
    requires v.Obj?
    ensures forall k :: k in keys <==> k in v.fields
    ensures |keys| == |v.fields.Keys|
  {
    Order.TextLeIsTotal();
    Order.SortedSetIsSorted(Order.TextLe, v.fields.Keys);
    var keys := Order.SortedSet(Order.TextLe, v.fields.Keys);
    assert |keys| == |multiset(keys)| == |v.fields.Keys|;
    keys
  }

  lemma {:induction false} ObjectUnambiguous(v: Json, w: Json, r1: string, r2: string)
    requires v.Obj? && w.Obj? && Encode(v) + r1 == Encode(w) + r2
    ensures v == w && r1 == r2
    decreases v, 0, |v.fields.Keys| + 2
  {
    var a, b := SortedKeysOf(v), SortedKeysOf(w);
    Strip("{", FieldsText(v, a, true), FieldsText(w, b, true), r1, r2);
    FieldsUnambiguous(v, w, a, b, true, r1, r2);
    SameFields(v.fields, w.fields, a);
  }

  lemma SameFields(m: map<string, Json>, n: map<string, Json>, keys: seq<string>)
    requires forall k :: (k in keys <==> k in m) && (k in keys <==> k in n)
    requires forall k | k in keys :: k in m && k in n && m[k] == n[k]
    ensures m == n
  {
    forall k ensures k in m <==> k in n {
      assert k in keys <==> k in m;
    }
  }

  /** Different values never encode to the same text. */
  lemma EncodeInjective(v: Json, w: Json)
    ensures Encode(v) == Encode(w) <==> v == w
  {
    if Encode(v) == Encode(w) {
      assert Encode(v) + "" == Encode(v) && Encode(w) + "" == Encode(w);
      Unambiguous(v, w, "", "");
    }
  }

  // ---------------------------------------------------------------- the encoder

  /** The keys of an object in whatever order the map yields them. */
  method CollectKeys(m: map<string, Json>) returns (keys: seq<string>)
    ensures multiset(keys) == multiset(m.Keys)
    ensures forall k :: k in keys <==> k in m
  {
    keys := [];
    var left := m.Keys;
    while left != {}
      invariant multiset(keys) + multiset(left) == multiset(m.Keys)
      decreases left
    {
      var k :| k in left;
      keys := keys + [k];
      left := left - {k};
    }
    forall k ensures k in keys <==> k in m {
      assert k in multiset(keys) <==> k in multiset(m.Keys);
    }
  }

  method SortedKeys(v: Json) returns (keys: seq<string>)
    requires v.Obj?
    ensures keys == Order.SortedSet(Order.TextLe, v.fields.Keys)
    ensures forall k | k in keys :: k in v.fields
  {
    var collected := CollectKeys(v.fields);
    Order.TextLeIsTotal();
    forall x, y | x in collected && y in collected && Order.TextLe(x, y) && Order.TextLe(y, x) ensures x == y {
      Order.TextLeLinear(x, y);
    }
    keys := Order.Sort(Order.TextLe, collected);
    Order.AnyOrderSorts(Order.TextLe, collected, v.fields.Keys);
    Order.SortedSetIsSorted(Order.TextLe, v.fields.Keys);
  }

  /** The encoder: whatever order the maps are walked in, the text is the canonical one. */
  method CanonicalEncode(v: Json) returns (buf: string)
    ensures buf == Encode(v)
    decreases v, 1
  {
    match v {
      case Null => buf := "null";
      case Bool(b) => buf := if b then "true" else "false";
      case Num(n) => buf := Decimal(n);
      case Str(s) => buf := Quoted(s);
      case Arr(_) => buf := EncodeItems(v);
      case Obj(_) =>
        var keys := SortedKeys(v);
        buf := EncodeFields(v, keys);
    }
  }

  lemma FieldStep(buf: string, v: Json, keys: seq<string>, first: bool)
    requires v.Obj? && keys != [] && forall k | k in keys :: k in v.fields
    ensures keys[0] in v.fields
    ensures (buf + Comma(first) + Quoted(keys[0]) + ":" + Encode(v.fields[keys[0]])) + FieldsText(v, keys[1..], false)
         == buf + FieldsText(v, keys, first)
  {
    assert keys[0] in keys;
    var c, q, e, t := Comma(first), Quoted(keys[0]), Encode(v.fields[keys[0]]), FieldsText(v, keys[1..], false);
    Assoc(buf + c + q + ":", e, t);
    Assoc(buf + c + q, ":", e + t);
    Assoc(buf + c, q, ":" + (e + t));
    Assoc(buf, c, q + (":" + (e + t)));
  }

  method EncodeItems(v: Json) returns (buf: string)
    requires v.Arr?
    ensures buf == "[" + ItemsText(v, v.items, true)
    decreases v, 0
  {
    buf := "[";
    for i := 0 to |v.items|
      invariant buf + ItemsText(v, v.items[i..], i == 0) == "[" + ItemsText(v, v.items, true)
    {
      ghost var before := buf;
      buf := buf + Comma(i == 0);
      var item := CanonicalEncode(v.items[i]);
      buf := buf + item;
      assert v.items[i..][1..] == v.items[i + 1..];
      Assoc(before + Comma(i == 0), item, ItemsText(v, v.items[i + 1..], false));
      Assoc(before, Comma(i == 0), item + ItemsText(v, v.items[i + 1..], false));
    }
    buf := buf + "]";
  }

  method EncodeFields(v: Json, keys: seq<string>) returns (buf: string)
    requires v.Obj? && forall k | k in keys :: k in v.fields
    ensures buf == "{" + FieldsText(v, keys, true)
    decreases v, 0
  {
    buf := "{";
    for i := 0 to |keys|
      invariant buf + FieldsText(v, keys[i..], i == 0) == "{" + FieldsText(v, keys, true)
    {
      FieldStep(buf, v, keys[i..], i == 0);
      assert keys[i..][1..] == keys[i + 1..];
      buf := buf + Comma(i == 0);
      var value := CanonicalEncode(v.fields[keys[i]]);
      buf := buf + Quoted(keys[i]) + ":" + value;
    }
    buf := buf + "}";
  }
}
