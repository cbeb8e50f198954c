/** Total orders, sorting, and the orders the listings use. */
module Orders {

  ghost predicate TotalOrder<T(!new)>(le: (T, T) -> bool) {
    && (forall a :: le(a, a))
    && (forall a, b :: le(a, b) || le(b, a))
    && (forall a, b :: le(a, b) && le(b, a) ==> a == b)
    && (forall a, b, c :: le(a, b) && le(b, c) ==> le(a, c))
  }

  predicate Lt<T(==)>(le: (T, T) -> bool, a: T, b: T) {
    le(a, b) && a != b
  }

  predicate Sorted<T>(le: (T, T) -> bool, s: seq<T>) {
    forall i, j :: 0 <= i < j < |s| ==> le(s[i], s[j])
  }

  predicate StrictlySorted<T(==)>(le: (T, T) -> bool, s: seq<T>) {
    forall i, j :: 0 <= i < j < |s| ==> Lt(le, s[i], s[j])
  }

  function Insert<T>(le: (T, T) -> bool, x: T, s: seq<T>): seq<T> {
    if s == [] || le(x, s[0]) then [x] + s else [s[0]] + Insert(le, x, s[1..])
  }

  function Sort<T>(le: (T, T) -> bool, s: seq<T>): seq<T> {
    if s == [] then [] else Insert(le, s[0], Sort(le, s[1..]))
  }

  lemma HeadIsLeast<T(!new)>(le: (T, T) -> bool, s: seq<T>, x: T)
    requires TotalOrder(le) && Sorted(le, s) && x in multiset(s)
    ensures s != [] && le(s[0], x)
  {
    assert x in s;
  }

  lemma ConsSorted<T(!new)>(le: (T, T) -> bool, x: T, s: seq<T>)
    requires Sorted(le, s) && forall y :: y in multiset(s) ==> le(x, y)
    ensures Sorted(le, [x] + s)
  {
    forall i | 0 <= i < |s| ensures le(x, s[i]) { assert s[i] in multiset(s); }
  }

  lemma {:induction false} InsertKeeps<T(!new)>(le: (T, T) -> bool, x: T, s: seq<T>)
    requires TotalOrder(le) && Sorted(le, s)
    ensures Sorted(le, Insert(le, x, s)) && multiset(Insert(le, x, s)) == multiset(s) + multiset{x}
  {
    if s == [] || le(x, s[0]) {
      forall y | y in multiset(s) ensures le(x, y) { HeadIsLeast(le, s, y); }
      ConsSorted(le, x, s);
    } else {
      InsertKeeps(le, x, s[1..]);
      assert s == [s[0]] + s[1..];
      forall y | y in multiset(Insert(le, x, s[1..])) ensures le(s[0], y) {
        if y != x { HeadIsLeast(le, s, y); }
      }
      ConsSorted(le, s[0], Insert(le, x, s[1..]));
    }
  }

  lemma {:induction false} SortSorts<T(!new)>(le: (T, T) -> bool, s: seq<T>)
    requires TotalOrder(le)
    ensures Sorted(le, Sort(le, s)) && multiset(Sort(le, s)) == multiset(s)
  {
    if s != [] {
      SortSorts(le, s[1..]);
      InsertKeeps(le, s[0], Sort(le, s[1..]));
      assert s == [s[0]] + s[1..];
    }
  }

  lemma TailCounts<T>(s: seq<T>)
    requires s != []
    ensures multiset(s[1..]) == multiset(s) - multiset{s[0]} && s[0] in multiset(s)
  {
    assert s == [s[0]] + s[1..];
  }

  lemma SortedHeads<T(!new)>(le: (T, T) -> bool, a: seq<T>, b: seq<T>)
    requires TotalOrder(le) && Sorted(le, a) && Sorted(le, b) && multiset(a) == multiset(b) && a != []
    ensures b != [] && a[0] == b[0] && multiset(a[1..]) == multiset(b[1..])
  {
    TailCounts(a);
    HeadIsLeast(le, b, a[0]);
    TailCounts(b);
    HeadIsLeast(le, a, b[0]);
  }

  /** Two sorted sequences of the same elements are the same sequence. */
  lemma {:induction false} SortedUnique<T(!new)>(le: (T, T) -> bool, a: seq<T>, b: seq<T>)
    requires TotalOrder(le) && Sorted(le, a) && Sorted(le, b) && multiset(a) == multiset(b)
    ensures a == b
    decreases |a|
  {
    if a != [] {
      SortedHeads(le, a, b);
      SortedUnique(le, a[1..], b[1..]);
      assert a == [a[0]] + a[1..] && b == [b[0]] + b[1..];
    } else if b != [] {
      SortedHeads(le, b, a);
    }
  }

  /** Sorted forms agree exactly when the inputs agree as multisets. */
  lemma SortNormalizes<T(!new)>(le: (T, T) -> bool, a: seq<T>, b: seq<T>)
    requires TotalOrder(le)
    ensures Sort(le, a) == Sort(le, b) <==> multiset(a) == multiset(b)
  {
    SortSorts(le, a);
    SortSorts(le, b);
    if multiset(a) == multiset(b) {
      SortedUnique(le, Sort(le, a), Sort(le, b));
    }
  }

  function Elements<T>(s: seq<T>): set<T> {
    set x | x in s
  }

  /** slices.Compact: keep the first of each run of equal elements. */
  function Compact<T(==)>(s: seq<T>): seq<T> {
    if |s| <= 1 then s
    else if s[0] == s[1] then Compact(s[1..])
    else [s[0]] + Compact(s[1..])
  }

  lemma {:induction false} CompactStrict<T(!new)>(le: (T, T) -> bool, s: seq<T>)
    requires TotalOrder(le) && Sorted(le, s)
    ensures StrictlySorted(le, Compact(s)) && Elements(Compact(s)) == Elements(s)
    ensures s != [] ==> Compact(s) != [] && Compact(s)[0] == s[0]
  {
    if |s| > 1 {
      var rest := Compact(s[1..]);
      CompactStrict(le, s[1..]);
      assert s == [s[0]] + s[1..] && s[1] == s[1..][0];
      if s[0] != s[1] {
        forall i | 0 <= i < |rest| ensures Lt(le, s[0], rest[i]) {
          assert le(s[0], s[1]) && le(s[1], rest[i]);
        }
        assert Elements([s[0]] + rest) == {s[0]} + Elements(rest);
      }
      assert Elements(s) == {s[0]} + Elements(s[1..]);
    }
  }

  lemma {:induction false} StrictUnique<T(!new)>(le: (T, T) -> bool, a: seq<T>, b: seq<T>)
    requires TotalOrder(le) && StrictlySorted(le, a) && StrictlySorted(le, b) && Elements(a) == Elements(b)
    ensures a == b
    decreases |a|
  {
    assert a == [] ==> Elements(a) == {};
    if b != [] {
      assert b[0] in Elements(b);
    }
    if a != [] {
      assert a[0] in Elements(b);
      assert b[0] in Elements(a);
      var i :| 0 <= i < |b| && b[i] == a[0];
      var j :| 0 <= j < |a| && a[j] == b[0];
      assert a[0] == b[0];
      RestElements(le, a);
      RestElements(le, b);
      StrictUnique(le, a[1..], b[1..]);
      assert a == [a[0]] + a[1..] && b == [b[0]] + b[1..];
    }
  }

  lemma RestElements<T(!new)>(le: (T, T) -> bool, a: seq<T>)
    requires StrictlySorted(le, a) && a != []
    ensures Elements(a[1..]) == Elements(a) - {a[0]}
  {
    assert a == [a[0]] + a[1..];
    assert forall i :: 1 <= i < |a| ==> Lt(le, a[0], a[i]);
  }

  /** Sorted and compacted forms agree exactly when the inputs agree as sets. */
  lemma CompactNormalizes<T(!new)>(le: (T, T) -> bool, a: seq<T>, b: seq<T>)
    requires TotalOrder(le)
    ensures Compact(Sort(le, a)) == Compact(Sort(le, b)) <==> Elements(a) == Elements(b)
  {
    SortSorts(le, a);
    SortSorts(le, b);
    CompactStrict(le, Sort(le, a));
    CompactStrict(le, Sort(le, b));
    SortElements(le, a);
    SortElements(le, b);
    if Elements(a) == Elements(b) {
      StrictUnique(le, Compact(Sort(le, a)), Compact(Sort(le, b)));
    }
  }

  lemma SortElements<T(!new)>(le: (T, T) -> bool, s: seq<T>)
    requires TotalOrder(le)
    ensures Elements(Sort(le, s)) == Elements(s)
  {
    SortSorts(le, s);
    forall x ensures x in Sort(le, s) <==> x in s {
      assert x in Sort(le, s) <==> x in multiset(Sort(le, s));
      assert x in s <==> x in multiset(s);
    }
  }

  // ---- Concrete orders ---------------------------------------------------------------------

  /** Byte order on text, as COLLATE "C" and Go's < compare. */
  predicate StringLe(a: string, b: string)
    decreases |a|
  {
    a == "" || (b != "" && (a[0] < b[0] || (a[0] == b[0] && StringLe(a[1..], b[1..]))))
  }

  lemma StringRefl(a: string)
    ensures StringLe(a, a)
  {
    if a != "" { StringRefl(a[1..]); }
  }

  lemma {:induction false} StringTotal(a: string, b: string)
    ensures StringLe(a, b) || StringLe(b, a)
    decreases |a|
  {
    if a != "" && b != "" && a[0] == b[0] { StringTotal(a[1..], b[1..]); }
  }

  lemma {:induction false} StringAntisymmetric(a: string, b: string)
    requires StringLe(a, b) && StringLe(b, a)
    ensures a == b
    decreases |a|
  {
    if a != "" {
      StringAntisymmetric(a[1..], b[1..]);
      assert a == [a[0]] + a[1..] && b == [b[0]] + b[1..];
    }
  }

  lemma {:induction false} StringTransitive(a: string, b: string, c: string)
    requires StringLe(a, b) && StringLe(b, c)
    ensures StringLe(a, c)
    decreases |a|
  {
    if a != "" && a[0] == b[0] && b[0] == c[0] { StringTransitive(a[1..], b[1..], c[1..]); }
  }

  lemma StringOrder()
    ensures TotalOrder(StringLe)
  {
    forall a ensures StringLe(a, a) { StringRefl(a); }
    forall a, b ensures StringLe(a, b) || StringLe(b, a) { StringTotal(a, b); }
    forall a, b | StringLe(a, b) && StringLe(b, a) ensures a == b { StringAntisymmetric(a, b); }
    forall a, b, c | StringLe(a, b) && StringLe(b, c) ensures StringLe(a, c) { StringTransitive(a, b, c); }
  }

  /** Row comparison: the first components decide, then the second ones. */
  function Lex<A(==), B>(leA: (A, A) -> bool, leB: (B, B) -> bool): ((A, B), (A, B)) -> bool {
    (x: (A, B), y: (A, B)) => if x.0 == y.0 then leB(x.1, y.1) else leA(x.0, y.0)
  }

  lemma LexOrder<A(!new), B(!new)>(leA: (A, A) -> bool, leB: (B, B) -> bool)
    requires TotalOrder(leA) && TotalOrder(leB)
    ensures TotalOrder(Lex(leA, leB))
  {
    var le := Lex(leA, leB);
    forall a ensures le(a, a) { assert leB(a.1, a.1); }
    forall a, b ensures le(a, b) || le(b, a) {
      assert leA(a.0, b.0) || leA(b.0, a.0);
      assert leB(a.1, b.1) || leB(b.1, a.1);
    }
    forall a, b | le(a, b) && le(b, a) ensures a == b {
      assert a.0 == b.0;
      assert leB(a.1, b.1) && leB(b.1, a.1);
    }
    forall a, b, c | le(a, b) && le(b, c) ensures le(a, c) {
      assert leA(a.0, b.0) && leA(b.0, c.0);
    }
  }

  /** ORDER BY ... DESC. */
  function Reverse<T>(le: (T, T) -> bool): (T, T) -> bool {
    (a: T, b: T) => le(b, a)
  }

  lemma ReverseOrder<T(!new)>(le: (T, T) -> bool)
    requires TotalOrder(le)
    ensures TotalOrder(Reverse(le))
  {
    var r := Reverse(le);
    forall a, b, c | r(a, b) && r(b, c) ensures r(a, c) { assert le(c, b) && le(b, a); }
    forall a, b ensures r(a, b) || r(b, a) { assert le(a, b) || le(b, a); }
  }

  predicate IntLe(a: int, b: int) {
    a <= b
  }

  lemma IntOrder()
    ensures TotalOrder(IntLe)
  {
  }
}
