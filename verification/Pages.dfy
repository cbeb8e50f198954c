/** Keyset pagination: rows past a cursor, in key order, one more than the page holds. */
module Pages {
  import opened Basics
  import opened Orders

  // ---- One page ---------------------------------------------------------------------------

  ghost predicate IsLeast<K(!new)>(le: (K, K) -> bool, m: set<K>, x: K) {
    x in m && forall y :: y in m ==> le(x, y)
  }

  lemma LeastOfMore<K(!new)>(le: (K, K) -> bool, m: set<K>, x: K, z: K) returns (least: K)
    requires TotalOrder(le) && x in m && IsLeast(le, m - {x}, z)
    ensures IsLeast(le, m, least)
  {
    if le(x, z) {
      forall y | y in m ensures le(x, y) {
        if y != x { assert y in m - {x}; assert le(z, y); }
      }
      least := x;
    } else {
      least := z;
    }
  }

  lemma {:induction false} LeastExists<K(!new)>(le: (K, K) -> bool, m: set<K>)
    requires TotalOrder(le) && m != {}
    ensures exists x :: IsLeast(le, m, x)
    decreases m
  {
    var x :| x in m;
    if m == {x} {
      assert IsLeast(le, m, x);
    } else {
      assert m - {x} != {};
      LeastExists(le, m - {x});
      var z :| IsLeast(le, m - {x}, z);
      var least := LeastOfMore(le, m, x, z);
    }
  }

  ghost function Least<K(!new)>(le: (K, K) -> bool, m: set<K>): (x: K)
    requires TotalOrder(le) && m != {}
    ensures IsLeast(le, m, x)
  {
    LeastExists(le, m);
    var x :| IsLeast(le, m, x);
    x
  }

  /** The keys of a set in listing order: what ORDER BY returns. */
  ghost function Ordered<K(!new)>(le: (K, K) -> bool, m: set<K>): seq<K>
    requires TotalOrder(le)
  {
    if m == {} then [] else [Least(le, m)] + Ordered(le, m - {Least(le, m)})
  }

  lemma ConsStrict<K(!new)>(le: (K, K) -> bool, m: set<K>, x: K, rest: seq<K>)
    requires IsLeast(le, m, x) && StrictlySorted(le, rest) && Elements(rest) == m - {x}
    ensures StrictlySorted(le, [x] + rest) && Elements([x] + rest) == m
  {
    forall i | 0 <= i < |rest| ensures Lt(le, x, rest[i]) {
      assert rest[i] in Elements(rest);
    }
    assert Elements([x] + rest) == {x} + Elements(rest);
  }

  lemma {:induction false} OrderedIs<K(!new)>(le: (K, K) -> bool, m: set<K>)
    requires TotalOrder(le)
    ensures StrictlySorted(le, Ordered(le, m)) && Elements(Ordered(le, m)) == m && |Ordered(le, m)| == |m|
    decreases m
  {
    if m != {} {
      var x := Least(le, m);
      OrderedIs(le, m - {x});
      ConsStrict(le, m, x, Ordered(le, m - {x}));
    }
  }

  /** Matching keys strictly past the cursor. */
  ghost function Remaining<K(!new)>(le: (K, K) -> bool, m: set<K>, after: Option<K>): set<K> {
    set k | k in m && (after.Some? ==> Lt(le, after.value, k))
  }

  function Take<T>(s: seq<T>, n: nat): seq<T> {
    if |s| <= n then s else s[..n]
  }

  /** The page a request returns, and the cursor its token carries. */
  ghost function Page<K(!new)>(le: (K, K) -> bool, m: set<K>, after: Option<K>, size: nat): seq<K>
    requires TotalOrder(le)
  {
    Take(Ordered(le, Remaining(le, m, after)), size)
  }

  ghost function Next<K(!new)>(le: (K, K) -> bool, m: set<K>, after: Option<K>, size: nat): Option<K>
    requires TotalOrder(le) && size >= 1
  {
    var rows := Ordered(le, Remaining(le, m, after));
    if |rows| > size then Some(rows[size - 1]) else None
  }

  /** The row loop shared by the listings: read size + 1 rows, drop the lookahead row, and
      hand out a cursor exactly when it was there. */
  method ReadPage<K(!new)>(ghost le: (K, K) -> bool, ghost m: set<K>, ghost after: Option<K>, rows: seq<K>, size: nat)
    returns (page: seq<K>, next: Option<K>)
    requires TotalOrder(le) && size >= 1
    requires rows == Take(Ordered(le, Remaining(le, m, after)), size + 1)
    ensures page == Page(le, m, after, size) && next == Next(le, m, after, size)
  {
    page, next := [], None;
    for i := 0 to |rows|
      invariant page == rows[..i]
    {
      page := page + [rows[i]];
    }
    if |page| > size {
      page := page[..size];
      next := Some(page[|page| - 1]);
    }
  }

  /** A page is full unless nothing is left: rows that do not match never shorten it. */
  lemma PageIsFull<K(!new)>(le: (K, K) -> bool, m: set<K>, after: Option<K>, size: nat)
    requires TotalOrder(le)
    ensures |Page(le, m, after, size)| == if |Remaining(le, m, after)| < size then |Remaining(le, m, after)| else size
  {
    OrderedIs(le, Remaining(le, m, after));
  }

  /** A page holds exactly the matching keys past its cursor and up to the next one. */
  lemma PageExact<K(!new)>(le: (K, K) -> bool, m: set<K>, after: Option<K>, size: nat, k: K)
    requires TotalOrder(le) && size >= 1
    ensures k in Page(le, m, after, size) <==>
              k in Remaining(le, m, after) && (Next(le, m, after, size).Some? ==> le(k, Next(le, m, after, size).value))
  {
    var rest := Remaining(le, m, after);
    var rows := Ordered(le, rest);
    OrderedIs(le, rest);
    assert k in rest <==> k in Elements(rows);
    if k in rest {
      var i :| 0 <= i < |rows| && rows[i] == k;
      if |rows| > size {
        var last := rows[size - 1];
        if i < size {
          assert rows[..size][i] == k;
        } else {
          assert Lt(le, last, k);
          assert forall j :: 0 <= j < size ==> rows[..size][j] != k;
        }
      }
    }
  }

  lemma NextAdvances<K(!new)>(le: (K, K) -> bool, m: set<K>, after: Option<K>, size: nat)
    requires TotalOrder(le) && size >= 1
    ensures var next := Next(le, m, after, size);
            next.Some? ==> next.value in m && (after.Some? ==> Lt(le, after.value, next.value))
  {
    OrderedIs(le, Remaining(le, m, after));
    var rows := Ordered(le, Remaining(le, m, after));
    if |rows| > size { assert rows[size - 1] in Elements(rows); }
  }

  // ---- A database that does not change ------------------------------------------------------

  lemma RemainingShrinks<K(!new)>(le: (K, K) -> bool, m: set<K>, after: Option<K>, size: nat)
    requires TotalOrder(le) && size >= 1 && Next(le, m, after, size).Some?
    ensures |Remaining(le, m, Next(le, m, after, size))| < |Remaining(le, m, after)|
  {
    var next := Next(le, m, after, size);
    var a, b := Remaining(le, m, after), Remaining(le, m, next);
    NextAdvances(le, m, after, size);
    assert b <= a && next.value in a - b;
    assert |a - b| + |b| == |a| by { assert (a - b) + b == a; }
  }

  /** Everything listed by following tokens, the i-th request asking for sizes(i) rows. */
  ghost function Listing<K(!new)>(le: (K, K) -> bool, m: set<K>, after: Option<K>, sizes: nat -> nat, i: nat): seq<K>
    requires TotalOrder(le) && forall j :: sizes(j) >= 1
    decreases |Remaining(le, m, after)|
  {
    var next := Next(le, m, after, sizes(i));
    Page(le, m, after, sizes(i)) +
    (if next.None? then []
     else RemainingShrinks(le, m, after, sizes(i)); Listing(le, m, next, sizes, i + 1))
  }

  lemma OrderedSplit<K(!new)>(le: (K, K) -> bool, m: set<K>, after: Option<K>, size: nat)
    requires TotalOrder(le) && size >= 1 && Next(le, m, after, size).Some?
    ensures Ordered(le, Remaining(le, m, after))
            == Page(le, m, after, size) + Ordered(le, Remaining(le, m, Next(le, m, after, size)))
  {
    var next := Next(le, m, after, size);
    var rows := Ordered(le, Remaining(le, m, after));
    var rest := Ordered(le, Remaining(le, m, next));
    OrderedIs(le, Remaining(le, m, after));
    OrderedIs(le, Remaining(le, m, next));
    NextAdvances(le, m, after, size);
    assert StrictlySorted(le, rows[size..]);
    forall k ensures k in Elements(rows[size..]) <==> k in Elements(rest) {
      TailKey(le, rows, size, k);
      assert k in Elements(rows) <==> k in Remaining(le, m, after);
      assert k in Elements(rest) <==> k in Remaining(le, m, next);
    }
    StrictUnique(le, rows[size..], rest);
    assert rows == rows[..size] + rows[size..];
  }

  lemma TailKey<K(!new)>(le: (K, K) -> bool, rows: seq<K>, size: nat, k: K)
    requires TotalOrder(le) && StrictlySorted(le, rows) && 1 <= size <= |rows|
    ensures k in Elements(rows[size..]) <==> k in Elements(rows) && Lt(le, rows[size - 1], k)
  {
    if k in Elements(rows) {
      var i :| 0 <= i < |rows| && rows[i] == k;
      if i >= size {
        assert rows[size..][i - size] == k;
      } else {
        assert i < size - 1 ==> Lt(le, k, rows[size - 1]);
      }
    }
  }

  /** Over an unchanging database the tokens lead through all matches, each once, in order,
      whatever page sizes are asked for along the way. */
  lemma {:induction false} ListingComplete<K(!new)>(le: (K, K) -> bool, m: set<K>, after: Option<K>, sizes: nat -> nat, i: nat)
    requires TotalOrder(le) && forall j :: sizes(j) >= 1
    ensures Listing(le, m, after, sizes, i) == Ordered(le, Remaining(le, m, after))
    decreases |Remaining(le, m, after)|
  {
    var size := sizes(i);
    var next := Next(le, m, after, size);
    if next.None? {
      assert Listing(le, m, after, sizes, i) == Page(le, m, after, size) + [];
    } else {
      RemainingShrinks(le, m, after, size);
      ListingComplete(le, m, next, sizes, i + 1);
      OrderedSplit(le, m, after, size);
      assert Listing(le, m, after, sizes, i) == Page(le, m, after, size) + Listing(le, m, next, sizes, i + 1);
    }
  }

  lemma ListsAll<K(!new)>(le: (K, K) -> bool, m: set<K>, after: Option<K>, sizes: nat -> nat)
    requires TotalOrder(le) && forall j :: sizes(j) >= 1
    ensures var all := Listing(le, m, after, sizes, 0);
            StrictlySorted(le, all) && Elements(all) == Remaining(le, m, after) && |all| == |Remaining(le, m, after)|
  {
    ListingComplete(le, m, after, sizes, 0);
    OrderedIs(le, Remaining(le, m, after));
  }

  // ---- A database that changes between requests ----------------------------------------------

  /** The requests of one walk: request i sees states[i], asks past cursors[i] and is given
      pages[i] and cursors[i + 1]; every request but the first was made with a token. */
  ghost predicate Walk<K(!new)>(le: (K, K) -> bool, states: seq<set<K>>, sizes: seq<nat>,
                                pages: seq<seq<K>>, cursors: seq<Option<K>>)
    requires TotalOrder(le)
  {
    && |states| == |sizes| == |pages| && |cursors| == |states| + 1
    && (forall i :: 0 <= i < |states| ==> sizes[i] >= 1)
    && (forall i :: 0 < i < |states| ==> cursors[i].Some?)
    && (forall i :: 0 <= i < |states| ==> WalkStep(le, states[i], sizes[i], pages[i], cursors[i], cursors[i + 1]))
  }

  ghost predicate WalkStep<K(!new)>(le: (K, K) -> bool, m: set<K>, size: nat, page: seq<K>, after: Option<K>, next: Option<K>)
    requires TotalOrder(le)
  {
    size >= 1 && page == Page(le, m, after, size) && next == Next(le, m, after, size)
  }

  lemma {:induction false} CursorsAscend<K(!new)>(le: (K, K) -> bool, states: seq<set<K>>, sizes: seq<nat>,
                                                  pages: seq<seq<K>>, cursors: seq<Option<K>>, i: nat, j: nat)
    requires TotalOrder(le) && Walk(le, states, sizes, pages, cursors)
    requires 0 < i <= j < |states|
    ensures le(cursors[i].value, cursors[j].value)
    decreases j - i
  {
    if i < j {
      assert WalkStep(le, states[j - 1], sizes[j - 1], pages[j - 1], cursors[j - 1], cursors[j]);
      NextAdvances(le, states[j - 1], cursors[j - 1], sizes[j - 1]);
      CursorsAscend(le, states, sizes, pages, cursors, i, j - 1);
    }
  }

  /** Later pages hold later keys, whatever was inserted, removed or changed in between. */
  lemma WalkAscends<K(!new)>(le: (K, K) -> bool, states: seq<set<K>>, sizes: seq<nat>,
                             pages: seq<seq<K>>, cursors: seq<Option<K>>, i: nat, a: K, j: nat, b: K)
    requires TotalOrder(le) && Walk(le, states, sizes, pages, cursors)
    requires i < j < |states| && a in pages[i] && b in pages[j]
    ensures Lt(le, a, b) && a in states[i] && b in states[j]
  {
    assert WalkStep(le, states[i], sizes[i], pages[i], cursors[i], cursors[i + 1]);
    assert WalkStep(le, states[j], sizes[j], pages[j], cursors[j], cursors[j + 1]);
    PageExact(le, states[i], cursors[i], sizes[i], a);
    PageExact(le, states[j], cursors[j], sizes[j], b);
    CursorsAscend(le, states, sizes, pages, cursors, i + 1, j);
    assert le(a, cursors[i + 1].value) && le(cursors[i + 1].value, cursors[j].value);
    assert Lt(le, cursors[j].value, b);
  }

  /** Rows have an identity; between requests a row's key never moves on in listing order. */
  ghost predicate NeverForward<K(!new), I>(le: (K, K) -> bool, who: K -> I, states: seq<set<K>>) {
    && (forall i, a, b :: 0 <= i < |states| && a in states[i] && b in states[i] && who(a) == who(b) ==> a == b)
    && (forall i, j, a, b :: 0 <= i < j < |states| && a in states[i] && b in states[j] && who(a) == who(b) ==> le(b, a))
  }

  /** No row is listed twice in one walk: neither on one page nor on two. */
  lemma WalkNeverRepeats<K(!new), I>(le: (K, K) -> bool, who: K -> I, states: seq<set<K>>, sizes: seq<nat>,
                                     pages: seq<seq<K>>, cursors: seq<Option<K>>, i: nat, p: nat, j: nat, q: nat)
    requires TotalOrder(le) && Walk(le, states, sizes, pages, cursors) && NeverForward(le, who, states)
    requires i < |pages| && p < |pages[i]| && j < |pages| && q < |pages[j]| && who(pages[i][p]) == who(pages[j][q])
    ensures i == j && p == q
  {
    if i < j {
      WalkAscends(le, states, sizes, pages, cursors, i, pages[i][p], j, pages[j][q]);
    } else if j < i {
      WalkAscends(le, states, sizes, pages, cursors, j, pages[j][q], i, pages[i][p]);
    } else {
      assert WalkStep(le, states[i], sizes[i], pages[i], cursors[i], cursors[i + 1]);
      PageExact(le, states[i], cursors[i], sizes[i], pages[i][p]);
      PageExact(le, states[i], cursors[i], sizes[i], pages[i][q]);
      OrderedIs(le, Remaining(le, states[i], cursors[i]));
    }
  }

  /** A key that matches at every request of a finished walk is listed. */
  lemma {:induction false} WalkComplete<K(!new)>(le: (K, K) -> bool, states: seq<set<K>>, sizes: seq<nat>,
                                                 pages: seq<seq<K>>, cursors: seq<Option<K>>, k: K, from: nat)
    requires TotalOrder(le) && Walk(le, states, sizes, pages, cursors) && from < |states|
    requires cursors[|states|].None? && (cursors[from].Some? ==> Lt(le, cursors[from].value, k))
    requires forall i :: from <= i < |states| ==> k in states[i]
    ensures exists i :: from <= i < |pages| && k in pages[i]
    decreases |states| - from
  {
    assert WalkStep(le, states[from], sizes[from], pages[from], cursors[from], cursors[from + 1]);
    PageExact(le, states[from], cursors[from], sizes[from], k);
    if k !in pages[from] {
      assert cursors[from + 1].Some?;
      WalkComplete(le, states, sizes, pages, cursors, k, from + 1);
    }
  }

  ghost predicate AlwaysMatches<K>(states: seq<set<K>>, k: K) {
    forall i :: 0 <= i < |states| ==> k in states[i]
  }

  ghost predicate Appears<K>(pages: seq<seq<K>>, k: K) {
    exists i :: 0 <= i < |pages| && k in pages[i]
  }

  ghost predicate SameRow<K, I>(who: K -> I, pages: seq<seq<K>>, i: nat, p: nat, j: nat, q: nat) {
    i < |pages| && p < |pages[i]| && j < |pages| && q < |pages[j]| && who(pages[i][p]) == who(pages[j][q])
  }

  /** What a client may rely on: no row twice, and a finished walk missed nothing constant. */
  ghost predicate Reliable<K(!new), I>(who: K -> I, states: seq<set<K>>, pages: seq<seq<K>>, finished: bool) {
    && (forall i, p, j, q :: SameRow(who, pages, i, p, j, q) ==> i == j && p == q)
    && (finished ==> forall k :: AlwaysMatches(states, k) ==> Appears(pages, k))
  }

  lemma WalkReliable<K(!new), I>(le: (K, K) -> bool, who: K -> I, states: seq<set<K>>, sizes: seq<nat>,
                                 pages: seq<seq<K>>, cursors: seq<Option<K>>)
    requires TotalOrder(le) && Walk(le, states, sizes, pages, cursors) && NeverForward(le, who, states)
    requires |states| > 0 && cursors[0].None?
    ensures Reliable(who, states, pages, cursors[|states|].None?)
  {
    forall i, p, j, q | SameRow(who, pages, i, p, j, q) ensures i == j && p == q {
      WalkNeverRepeats(le, who, states, sizes, pages, cursors, i, p, j, q);
    }
    if cursors[|states|].None? {
      forall k | AlwaysMatches(states, k) ensures Appears(pages, k) {
        WalkComplete(le, states, sizes, pages, cursors, k, 0);
      }
    }
  }

  // ---- A row whose key moves ------------------------------------------------------------------

  /** One row followed through the requests: present at each, its key never moving on. */
  ghost predicate Followed<K(!new)>(le: (K, K) -> bool, states: seq<set<K>>, keys: seq<K>) {
    && |keys| == |states|
    && (forall i :: 0 <= i < |keys| ==> keys[i] in states[i])
    && (forall i, j :: 0 <= i < j < |keys| ==> le(keys[j], keys[i]))
  }

  /** Between requests i and i + 1 the row jumped from beyond the cursor to before it. */
  ghost predicate Jumped<K(!new)>(le: (K, K) -> bool, cursors: seq<Option<K>>, keys: seq<K>, i: nat) {
    && i + 1 < |keys| && i + 1 < |cursors| && cursors[i + 1].Some?
    && Lt(le, cursors[i + 1].value, keys[i]) && le(keys[i + 1], cursors[i + 1].value)
  }

  ghost predicate ListedAt<K>(pages: seq<seq<K>>, keys: seq<K>, i: nat) {
    i < |pages| && i < |keys| && keys[i] in pages[i]
  }

  /** Without a jump the row stays ahead of the cursor until its page comes. */
  lemma {:induction false} ListedUnlessJumped<K(!new)>(le: (K, K) -> bool, states: seq<set<K>>, sizes: seq<nat>,
                                                       pages: seq<seq<K>>, cursors: seq<Option<K>>, keys: seq<K>, from: nat)
    requires TotalOrder(le) && Walk(le, states, sizes, pages, cursors) && Followed(le, states, keys) && from < |states|
    requires cursors[|states|].None? && (cursors[from].Some? ==> Lt(le, cursors[from].value, keys[from]))
    requires forall i :: from <= i ==> !Jumped(le, cursors, keys, i)
    ensures exists i :: ListedAt(pages, keys, i)
    decreases |states| - from
  {
    assert WalkStep(le, states[from], sizes[from], pages[from], cursors[from], cursors[from + 1]);
    PageExact(le, states[from], cursors[from], sizes[from], keys[from]);
    if keys[from] in pages[from] {
      assert ListedAt(pages, keys, from);
    } else {
      assert !Jumped(le, cursors, keys, from);
      ListedUnlessJumped(le, states, sizes, pages, cursors, keys, from + 1);
    }
  }

  /** A row that was listed never jumped, before or after. */
  lemma ListedNeverJumped<K(!new)>(le: (K, K) -> bool, states: seq<set<K>>, sizes: seq<nat>,
                                   pages: seq<seq<K>>, cursors: seq<Option<K>>, keys: seq<K>, i: nat, j: nat)
    requires TotalOrder(le) && Walk(le, states, sizes, pages, cursors) && Followed(le, states, keys)
    requires ListedAt(pages, keys, i)
    ensures !Jumped(le, cursors, keys, j)
  {
    assert WalkStep(le, states[i], sizes[i], pages[i], cursors[i], cursors[i + 1]);
    PageExact(le, states[i], cursors[i], sizes[i], keys[i]);
    if j < i {
      CursorsAscend(le, states, sizes, pages, cursors, j + 1, i);
      assert le(keys[i], keys[j + 1]);
      assert Lt(le, cursors[j + 1].value, keys[j + 1]);
    } else if j + 1 < |states| {
      CursorsAscend(le, states, sizes, pages, cursors, i + 1, j + 1);
      assert le(keys[j], keys[i]) && le(keys[i], cursors[i + 1].value);
      assert le(keys[j], cursors[j + 1].value);
    }
  }

  /** In a finished walk a row that matches at every request is listed exactly when it was
      never moved past the cursor while its page was still to come. */
  lemma ListedIffNeverJumped<K(!new)>(le: (K, K) -> bool, states: seq<set<K>>, sizes: seq<nat>,
                                      pages: seq<seq<K>>, cursors: seq<Option<K>>, keys: seq<K>)
    requires TotalOrder(le) && Walk(le, states, sizes, pages, cursors) && Followed(le, states, keys)
    requires |states| > 0 && cursors[0].None? && cursors[|states|].None?
    ensures (exists i :: ListedAt(pages, keys, i)) <==> forall j :: !Jumped(le, cursors, keys, j)
  {
    if i: nat :| ListedAt(pages, keys, i) {
      forall j: nat ensures !Jumped(le, cursors, keys, j) {
        ListedNeverJumped(le, states, sizes, pages, cursors, keys, i, j);
      }
    }
    if forall j :: !Jumped(le, cursors, keys, j) {
      ListedUnlessJumped(le, states, sizes, pages, cursors, keys, 0);
    }
  }
}
