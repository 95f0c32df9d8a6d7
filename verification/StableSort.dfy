/** Stable insertion sort, which stands for `std::list::sort` and for insertion into a `std::multimap`. */
module StableSort {

  /** Places an element after those that it does not come before. */
  function Insert<T>(less: (T, T) -> bool, s: seq<T>, x: T): seq<T> {
    if s == [] || !less(x, s[|s| - 1]) then s + [x] else Insert(less, s[..|s| - 1], x) + [s[|s| - 1]]
  }

  function Sort<T>(less: (T, T) -> bool, s: seq<T>): seq<T> {
    if s == [] then [] else Insert(less, Sort(less, s[..|s| - 1]), s[|s| - 1])
  }

  lemma SortAppend<T>(less: (T, T) -> bool, s: seq<T>, x: T)
    ensures Sort(less, s + [x]) == Insert(less, Sort(less, s), x)
  {
    assert (s + [x])[..|s + [x]| - 1] == s;
  }

  // ----- nothing is lost ----------------------------------------------------------------------------

  lemma LastApart<T>(s: seq<T>)
    requires s != []
    ensures multiset(s) == multiset(s[..|s| - 1]) + multiset{s[|s| - 1]}
  {
    assert s == s[..|s| - 1] + [s[|s| - 1]];
  }

  lemma {:induction false} InsertKeeps<T>(less: (T, T) -> bool, s: seq<T>, x: T)
    ensures multiset(Insert(less, s, x)) == multiset(s) + multiset{x}
  {
    if s != [] && less(x, s[|s| - 1]) {
      InsertKeeps(less, s[..|s| - 1], x);
      LastApart(s);
    }
  }

  lemma {:induction false} SortKeeps<T>(less: (T, T) -> bool, s: seq<T>)
    ensures multiset(Sort(less, s)) == multiset(s)
  {
    if s != [] {
      SortKeeps(less, s[..|s| - 1]);
      InsertKeeps(less, Sort(less, s[..|s| - 1]), s[|s| - 1]);
      LastApart(s);
    }
  }

  lemma SameMembers<T>(s: seq<T>, t: seq<T>)
    requires multiset(s) == multiset(t)
    ensures forall x :: x in s <==> x in t
  {
    forall x ensures x in s <==> x in t {
      assert x in s <==> x in multiset(s);
      assert x in t <==> x in multiset(t);
    }
  }

  // ----- the result is in order ---------------------------------------------------------------------

  /** A strict weak order, as seen from three values. */
  ghost predicate WeakAt<T(!new)>(less: (T, T) -> bool, x: T, y: T, z: T) {
    (less(x, y) ==> !less(y, x)) && (!less(x, y) && !less(y, z) ==> !less(x, z))
  }

  ghost predicate WeakOn<T(!new)>(less: (T, T) -> bool, s: seq<T>) {
    forall x, y, z | x in s && y in s && z in s :: WeakAt(less, x, y, z)
  }

  ghost predicate Ascending<T>(less: (T, T) -> bool, s: seq<T>) {
    forall i, j | 0 <= i < j < |s| :: !less(s[j], s[i])
  }

  /** No element of `s` comes after `x`. */
  ghost predicate NoneAfter<T>(less: (T, T) -> bool, s: seq<T>, x: T) {
    forall i | 0 <= i < |s| :: !less(x, s[i])
  }

  lemma AscendingAppend<T>(less: (T, T) -> bool, s: seq<T>, x: T)
    requires Ascending(less, s) && NoneAfter(less, s, x)
    ensures Ascending(less, s + [x])
  {
  }

  lemma LastIsGreatest<T(!new)>(less: (T, T) -> bool, s: seq<T>, x: T)
    requires s != [] && WeakOn(less, s + [x]) && Ascending(less, s) && !less(x, s[|s| - 1])
    ensures NoneAfter(less, s, x)
  {
    var last := s[|s| - 1];
    forall i | 0 <= i < |s| ensures !less(x, s[i]) {
      assert x in s + [x] && s[i] in s + [x] && last in s + [x];
      assert WeakAt(less, x, last, s[i]);
    }
  }

  lemma LastNotBefore<T(!new)>(less: (T, T) -> bool, s: seq<T>, x: T)
    requires s != [] && WeakOn(less, s + [x]) && Ascending(less, s) && less(x, s[|s| - 1])
    ensures NoneAfter(less, Insert(less, s[..|s| - 1], x), s[|s| - 1])
  {
    var init, last := s[..|s| - 1], s[|s| - 1];
    InsertKeeps(less, init, x);
    SameMembers(Insert(less, init, x), init + [x]);
    assert x in s + [x] && last in s + [x] && WeakAt(less, x, last, x);
    var r := Insert(less, init, x);
    forall i | 0 <= i < |r| ensures !less(last, r[i]) {
      assert r[i] in init + [x];
    }
  }

  lemma {:induction false} InsertAscends<T(!new)>(less: (T, T) -> bool, s: seq<T>, x: T)
    requires WeakOn(less, s + [x]) && Ascending(less, s)
    ensures Ascending(less, Insert(less, s, x))
  {
    if s == [] {
    } else if less(x, s[|s| - 1]) {
      var init, last := s[..|s| - 1], s[|s| - 1];
      InsertAscends(less, init, x);
      LastNotBefore(less, s, x);
      AscendingAppend(less, Insert(less, init, x), last);
    } else {
      LastIsGreatest(less, s, x);
      AscendingAppend(less, s, x);
    }
  }

  /** On values that `less` orders weakly the sort puts them in order. */
  lemma {:induction false} SortAscends<T(!new)>(less: (T, T) -> bool, s: seq<T>)
    requires WeakOn(less, s)
    ensures Ascending(less, Sort(less, s))
  {
    if s != [] {
      var init, last := s[..|s| - 1], s[|s| - 1];
      SortAscends(less, init);
      SortKeeps(less, init);
      SameMembers(Sort(less, init), init);
      assert forall x | x in Sort(less, init) + [last] :: x in s;
      InsertAscends(less, Sort(less, init), last);
    }
  }

  /** What is in order already is left as it is. */
  lemma {:induction false} SortedIsKept<T>(less: (T, T) -> bool, s: seq<T>)
    requires Ascending(less, s)
    ensures Sort(less, s) == s
  {
    if s != [] {
      var init, last := s[..|s| - 1], s[|s| - 1];
      SortedIsKept(less, init);
      assert s == init + [last];
    }
  }
}
