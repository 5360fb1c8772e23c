/** Sorting, and why a sorted list depends only on what is in it. */
module Order {

  ghost predicate TotalPreorder<T(!new)>(le: (T, T) -> bool) {
    && (forall x, y :: le(x, y) || le(y, x))
    && (forall x, y, z :: le(x, y) && le(y, z) ==> le(x, z))
  }

  predicate Sorted<T>(le: (T, T) -> bool, s: seq<T>) {
    forall i, j | 0 <= i < j < |s| :: le(s[i], s[j])
  }

  /** Elements that tie under `le` are the same element. */
  ghost predicate NoTies<T>(le: (T, T) -> bool, s: seq<T>) {
    forall x, y | x in s && y in s && le(x, y) && le(y, x) :: x == y
  }

  function Insert<T>(le: (T, T) -> bool, x: T, s: seq<T>): seq<T> {
    if s == [] || le(x, s[0]) then [x] + s else [s[0]] + Insert(le, x, s[1..])
  }

  function Sort<T>(le: (T, T) -> bool, s: seq<T>): seq<T> {
    if s == [] then [] else Insert(le, s[0], Sort(le, s[1..]))
  }

  lemma Prepend<T(!new)>(le: (T, T) -> bool, x: T, t: seq<T>)
    requires Sorted(le, t) && forall y | y in t :: le(x, y)
    ensures Sorted(le, [x] + t)
  {
  }

  lemma {:induction false} InsertContents<T(!new)>(le: (T, T) -> bool, x: T, s: seq<T>)
    ensures multiset(Insert(le, x, s)) == multiset{x} + multiset(s)
    ensures forall y :: y in Insert(le, x, s) <==> y == x || y in s
  {
    if s == [] || le(x, s[0]) {
    } else {
      InsertContents(le, x, s[1..]);
      assert s == [s[0]] + s[1..];
    }
  }

  lemma Transitive<T(!new)>(le: (T, T) -> bool, x: T, y: T, z: T)
    requires TotalPreorder(le) && le(x, y) && le(y, z)
    ensures le(x, z)
  {
  }

  lemma HeadIsLeast<T(!new)>(le: (T, T) -> bool, x: T, s: seq<T>)
    requires TotalPreorder(le) && Sorted(le, s) && (s == [] || le(x, s[0]))
    ensures forall y | y in s :: le(x, y)
  {
    forall y | y in s ensures le(x, y) {
      var i :| 0 <= i < |s| && s[i] == y;
      if i > 0 {
        Transitive(le, x, s[0], y);
      }
    }
  }

  lemma {:induction false} InsertKeeps<T(!new)>(le: (T, T) -> bool, x: T, s: seq<T>)
    requires TotalPreorder(le) && Sorted(le, s)
    ensures Sorted(le, Insert(le, x, s))
    ensures multiset(Insert(le, x, s)) == multiset{x} + multiset(s)
  {
    InsertContents(le, x, s);
    if s == [] || le(x, s[0]) {
      HeadIsLeast(le, x, s);
      Prepend(le, x, s);
    } else {
      var t := Insert(le, x, s[1..]);
      InsertKeeps(le, x, s[1..]);
      InsertContents(le, x, s[1..]);
      Prepend(le, s[0], t);
    }
  }

  lemma {:induction false} SortSorts<T(!new)>(le: (T, T) -> bool, s: seq<T>)
    requires TotalPreorder(le)
    ensures Sorted(le, Sort(le, s))
    ensures multiset(Sort(le, s)) == multiset(s)
  {
    if s == [] {
    } else {
      assert s == [s[0]] + s[1..];
      SortSorts(le, s[1..]);
      InsertKeeps(le, s[0], Sort(le, s[1..]));
    }
  }

  lemma LeastFirst<T(!new)>(le: (T, T) -> bool, a: seq<T>, b: seq<T>)
    requires TotalPreorder(le) && Sorted(le, a) && Sorted(le, b) && a != [] && b != []
    requires multiset(a) == multiset(b) && NoTies(le, a)
    ensures a[0] == b[0]
  {
    assert a[0] in multiset(b) && b[0] in multiset(a);
    assert le(a[0], a[0]) && le(b[0], b[0]);
    assert le(a[0], b[0]) && le(b[0], a[0]);
  }

  lemma TailContents<T(!new)>(a: seq<T>, b: seq<T>)
    requires a != [] && b != [] && a[0] == b[0] && multiset(a) == multiset(b)
    ensures multiset(a[1..]) == multiset(b[1..]) && forall y | y in a[1..] :: y in a
  {
    assert a == [a[0]] + a[1..] && b == [b[0]] + b[1..];
    assert multiset(a[1..]) == multiset(a) - multiset{a[0]};
    assert multiset(b[1..]) == multiset(b) - multiset{b[0]};
  }

  /** Two sorted lists with the same contents are the same list. */
  lemma {:induction false} SortedUnique<T(!new)>(le: (T, T) -> bool, a: seq<T>, b: seq<T>)
    requires TotalPreorder(le) && Sorted(le, a) && Sorted(le, b)
    requires multiset(a) == multiset(b) && NoTies(le, a)
    ensures a == b
  {
    assert |a| == |multiset(a)| == |multiset(b)| == |b|;
    if a == [] {
    } else {
      LeastFirst(le, a, b);
      TailContents(a, b);
      SortedUnique(le, a[1..], b[1..]);
      assert a == [a[0]] + a[1..] && b == [b[0]] + b[1..];
    }
  }

  /** Sorting forgets the order its input came in. */
  lemma SortIgnoresOrder<T(!new)>(le: (T, T) -> bool, a: seq<T>, b: seq<T>)
    requires TotalPreorder(le) && multiset(a) == multiset(b) && NoTies(le, a)
    ensures Sort(le, a) == Sort(le, b)
  {
    SortSorts(le, a);
    SortSorts(le, b);
    forall x, y | x in Sort(le, a) && y in Sort(le, a) && le(x, y) && le(y, x) ensures x == y {
      assert x in multiset(a) && y in multiset(a);
    }
    SortedUnique(le, Sort(le, a), Sort(le, b));
  }

  /** The elements of a set in order; which one is picked first does not matter. */
  ghost function SortedSet<T>(le: (T, T) -> bool, s: set<T>): seq<T> {
    if s == {} then [] else
      var x :| x in s;
      Insert(le, x, SortedSet(le, s - {x}))
  }

  lemma {:induction false} SortedSetIsSorted<T(!new)>(le: (T, T) -> bool, s: set<T>)
    requires TotalPreorder(le)
    ensures multiset(SortedSet(le, s)) == multiset(s) && Sorted(le, SortedSet(le, s))
    ensures forall x :: x in SortedSet(le, s) <==> x in s
  {
    if s != {} {
      var x :| x in s && SortedSet(le, s) == Insert(le, x, SortedSet(le, s - {x}));
      SortedSetIsSorted(le, s - {x});
      InsertKeeps(le, x, SortedSet(le, s - {x}));
      assert s == (s - {x}) + {x};
    }
    forall x ensures x in SortedSet(le, s) <==> x in s {
      assert x in multiset(SortedSet(le, s)) <==> x in multiset(s);
    }
  }

  /** Collecting a set in any order and sorting gives the one sorted list. */
  lemma AnyOrderSorts<T(!new)>(le: (T, T) -> bool, collected: seq<T>, s: set<T>)
    requires TotalPreorder(le) && multiset(collected) == multiset(s) && NoTies(le, collected)
    ensures Sort(le, collected) == SortedSet(le, s)
  {
    SortSorts(le, collected);
    SortedSetIsSorted(le, s);
    forall x, y | x in Sort(le, collected) && y in Sort(le, collected) && le(x, y) && le(y, x) ensures x == y {
      assert x in multiset(collected) && y in multiset(collected);
    }
    SortedUnique(le, Sort(le, collected), SortedSet(le, s));
  }

  /** Byte-wise text order, the order of Go's string comparison. */
  predicate TextLe(a: string, b: string) {
    a == [] || (b != [] && (a[0] < b[0] || (a[0] == b[0] && TextLe(a[1..], b[1..]))))
  }

  lemma {:induction false} TextLeLinear(a: string, b: string)
    ensures TextLe(a, b) || TextLe(b, a)
    ensures TextLe(a, b) && TextLe(b, a) ==> a == b
  {
    if a != [] && b != [] && a[0] == b[0] {
      TextLeLinear(a[1..], b[1..]);
      assert a == [a[0]] + a[1..] && b == [b[0]] + b[1..];
    }
  }

  lemma {:induction false} TextLeTransitive(a: string, b: string, c: string)
    requires TextLe(a, b) && TextLe(b, c)
    ensures TextLe(a, c)
  {
    if a != [] && a[0] == b[0] == c[0] {
      TextLeTransitive(a[1..], b[1..], c[1..]);
    }
  }

  lemma TextLeIsTotal()
    ensures TotalPreorder(TextLe)
  {
    forall x, y ensures TextLe(x, y) || TextLe(y, x) {
      TextLeLinear(x, y);
    }
    forall x, y, z | TextLe(x, y) && TextLe(y, z) ensures TextLe(x, z) {
      TextLeTransitive(x, y, z);
    }
  }
}
