/**
 * Stable sorting of files by a total preorder, the guarantee Python's `list.sort` gives:
 * the result is in order, is a permutation of the input, and elements that tie
 * keep their relative order. `Sort` is an insertion sort; the lemmas below show it
 * meets all three and is the only ordering that does.
 */
module Sorting {
  import opened Lists
  import opened Models

  /** Any two elements can be compared. */
  ghost predicate Total(le: (File, File) -> bool)
  {
    forall a, b :: le(a, b) || le(b, a)
  }

  /** Comparisons chain. */
  ghost predicate Transitive(le: (File, File) -> bool)
  {
    forall a, b, c :: le(a, b) && le(b, c) ==> le(a, c)
  }

  /** Every earlier element may stand before every later one. */
  ghost predicate Sorted(le: (File, File) -> bool, s: seq<File>)
  {
    forall i, j :: 0 <= i < j < |s| ==> le(s[i], s[j])
  }

  /** Inserts `x` into `t` in front of the first element it may stand before. */
  function Insert(le: (File, File) -> bool, x: File, t: seq<File>): (r: seq<File>)
    ensures |r| == |t| + 1
  {
    if t == [] || le(x, t[0]) then [x] + t else [t[0]] + Insert(le, x, t[1..])
  }

  /** Each element goes in front of the elements it ties with that followed it. */
  function Sort(le: (File, File) -> bool, s: seq<File>): (r: seq<File>)
    ensures |r| == |s|
  {
    if s == [] then [] else Insert(le, s[0], Sort(le, s[1..]))
  }

  lemma {:induction false} InsertPermutes(le: (File, File) -> bool, x: File, t: seq<File>)
    ensures multiset(Insert(le, x, t)) == multiset(t) + multiset{x}
  {
    if !(t == [] || le(x, t[0])) {
      InsertPermutes(le, x, t[1..]);
      assert t == [t[0]] + t[1..];
    }
  }

  /** The result of `Sort` holds the same elements as its input, as often. */
  lemma {:induction false} SortPermutes(le: (File, File) -> bool, s: seq<File>)
    ensures multiset(Sort(le, s)) == multiset(s)
  {
    if s != [] {
      SortPermutes(le, s[1..]);
      InsertPermutes(le, s[0], Sort(le, s[1..]));
      assert s == [s[0]] + s[1..];
    }
  }

  lemma FirstBeforeAll(le: (File, File) -> bool, x: File, t: seq<File>)
    requires Transitive(le) && Sorted(le, t)
    requires t == [] || le(x, t[0])
    ensures Sorted(le, [x] + t)
  {
    var r := [x] + t;
    forall i, j | 0 <= i < j < |r|
      ensures le(r[i], r[j])
    {
      if i == 0 && j > 1 {
        assert le(t[0], t[j - 1]);
      }
    }
  }

  lemma {:induction false} InsertSorted(le: (File, File) -> bool, x: File, t: seq<File>)
    requires Total(le) && Transitive(le) && Sorted(le, t)
    ensures Sorted(le, Insert(le, x, t))
  {
    if t == [] || le(x, t[0]) {
      FirstBeforeAll(le, x, t);
    } else {
      var u := Insert(le, x, t[1..]);
      assert le(t[0], x);
      InsertSorted(le, x, t[1..]);
      InsertPermutes(le, x, t[1..]);
      forall e | e in u
        ensures le(t[0], e)
      {
        assert e in multiset(u);
        if e != x {
          assert e in multiset(t[1..]);
          var j :| 0 <= j < |t[1..]| && t[1..][j] == e;
          assert t[j + 1] == e;
        }
      }
      FirstBeforeAll(le, t[0], u);
    }
  }

  /** The result of `Sort` is in order. */
  lemma {:induction false} SortSorted(le: (File, File) -> bool, s: seq<File>)
    requires Total(le) && Transitive(le)
    ensures Sorted(le, Sort(le, s))
  {
    if s != [] {
      SortSorted(le, s[1..]);
      InsertSorted(le, s[0], Sort(le, s[1..]));
    }
  }

  /** Inserting `x` puts it in front of every selected element when `x` is selected too. */
  lemma {:induction false} InsertKeep(le: (File, File) -> bool, x: File, t: seq<File>, p: File -> bool)
    requires forall a, b :: p(a) && p(b) ==> le(a, b)
    ensures Keep(Insert(le, x, t), p) == Keep([x], p) + Keep(t, p)
  {
    if t == [] || le(x, t[0]) {
      assert Insert(le, x, t) == [x] + t;
      KeepAppend([x], t, p);
    } else {
      var u := Insert(le, x, t[1..]);
      assert Insert(le, x, t) == [t[0]] + u;
      assert t == [t[0]] + t[1..];
      InsertKeep(le, x, t[1..], p);
      KeepAppend([t[0]], u, p);
      KeepAppend([t[0]], t[1..], p);
      if p(x) {
        assert !p(t[0]);
        assert Keep([t[0]], p) == [] && Keep([x], p) == [x];
        assert Keep(t, p) == Keep(t[1..], p);
        assert Keep(Insert(le, x, t), p) == Keep(u, p) == [x] + Keep(t[1..], p);
      } else {
        assert Keep([x], p) == [];
        assert Keep(u, p) == Keep(t[1..], p);
      }
    }
  }

  /** Sorting keeps the order among the elements `p` selects when they all tie. */
  lemma {:induction false} SortKeep(le: (File, File) -> bool, s: seq<File>, p: File -> bool)
    requires forall a, b :: p(a) && p(b) ==> le(a, b)
    ensures Keep(Sort(le, s), p) == Keep(s, p)
  {
    if s != [] {
      SortKeep(le, s[1..], p);
      InsertKeep(le, s[0], Sort(le, s[1..]), p);
      KeepAppend([s[0]], s[1..], p);
      assert s == [s[0]] + s[1..];
    }
  }

  /** The elements of `s` that tie with `y`, in their order in `s`. */
  ghost function Ties(le: (File, File) -> bool, s: seq<File>, y: File): (r: seq<File>)
    ensures forall x :: x in r ==> le(x, y) && le(y, x)
  {
    Keep(s, x => le(x, y) && le(y, x))
  }

  /** Sorting is stable: elements that tie keep their relative order. */
  lemma SortStable(le: (File, File) -> bool, s: seq<File>, y: File)
    requires Transitive(le)
    ensures Ties(le, Sort(le, s), y) == Ties(le, s, y)
  {
    SortKeep(le, s, x => le(x, y) && le(y, x));
  }

  /** A sequence already in order is left as it is. */
  lemma {:induction false} SortedIsFixpoint(le: (File, File) -> bool, s: seq<File>)
    requires Sorted(le, s)
    ensures Sort(le, s) == s
  {
    if s != [] {
      assert Sorted(le, s[1..]);
      SortedIsFixpoint(le, s[1..]);
      assert s == [s[0]] + s[1..];
    }
  }

  /** Sorting twice gives what sorting once gave. */
  lemma SortIdempotent(le: (File, File) -> bool, s: seq<File>)
    requires Total(le) && Transitive(le)
    ensures Sort(le, Sort(le, s)) == Sort(le, s)
  {
    SortSorted(le, s);
    SortedIsFixpoint(le, Sort(le, s));
  }

  lemma Reflexive(le: (File, File) -> bool, a: File)
    requires Total(le)
    ensures le(a, a)
  {
    assert le(a, a) || le(a, a);
  }

  /** The first elements of two orderings of the same elements tie. */
  lemma HeadsTie(le: (File, File) -> bool, r: seq<File>, q: seq<File>)
    requires Total(le) && Sorted(le, r) && Sorted(le, q)
    requires r != [] && multiset(r) == multiset(q)
    ensures q != [] && le(r[0], q[0]) && le(q[0], r[0])
  {
    assert r[0] in multiset(q);
    assert q[0] in multiset(r);
    var j :| 0 <= j < |q| && q[j] == r[0];
    var i :| 0 <= i < |r| && r[i] == q[0];
    Reflexive(le, q[0]);
    Reflexive(le, r[0]);
    assert le(q[0], q[j]) && le(r[0], r[i]);
  }

  /** Two orderings with the same elements and the same order among ties are equal. */
  lemma {:induction false} SortedTiesUnique(le: (File, File) -> bool, r: seq<File>, q: seq<File>)
    requires Total(le) && Sorted(le, r) && Sorted(le, q)
    requires multiset(r) == multiset(q)
    requires forall y :: Ties(le, r, y) == Ties(le, q, y)
    ensures r == q
  {
    if r == [] {
      assert |q| == |multiset(q)| == 0;
    } else {
      HeadsTie(le, r, q);
      SameHeads(le, r, q);
      var a := r[0];
      assert r == [a] + r[1..] && q == [a] + q[1..];
      assert multiset(r[1..]) == multiset(r) - multiset{a};
      assert multiset(q[1..]) == multiset(q) - multiset{a};
      SortedTiesUnique(le, r[1..], q[1..]);
    }
  }

  /** When the first elements tie, agreeing on ties makes them the same element. */
  lemma SameHeads(le: (File, File) -> bool, r: seq<File>, q: seq<File>)
    requires Total(le) && r != [] && q != []
    requires le(r[0], q[0]) && le(q[0], r[0])
    requires forall y :: Ties(le, r, y) == Ties(le, q, y)
    ensures r[0] == q[0]
    ensures forall y :: Ties(le, r[1..], y) == Ties(le, q[1..], y)
  {
    var a, b := r[0], q[0];
    Reflexive(le, a);
    assert r == [a] + r[1..] && q == [b] + q[1..];
    TiesCons(le, a, r[1..], a);
    TiesCons(le, b, q[1..], a);
    assert Ties(le, [a], a) == [a] && Ties(le, [b], a) == [b];
    assert Ties(le, r, a)[0] == a && Ties(le, q, a)[0] == b;
    assert Ties(le, r, a) == Ties(le, q, a);
    forall y
      ensures Ties(le, r[1..], y) == Ties(le, q[1..], y)
    {
      TiesCons(le, a, r[1..], y);
      TiesCons(le, a, q[1..], y);
      var n := |Ties(le, [a], y)|;
      assert Ties(le, r, y) == Ties(le, q, y);
      assert Ties(le, r[1..], y) == Ties(le, r, y)[n..];
      assert Ties(le, q[1..], y) == Ties(le, q, y)[n..];
    }
  }

  lemma TiesCons(le: (File, File) -> bool, x: File, t: seq<File>, y: File)
    ensures Ties(le, [x] + t, y) == Ties(le, [x], y) + Ties(le, t, y)
    ensures Ties(le, [x], y) == if le(x, y) && le(y, x) then [x] else []
  {
    KeepAppend([x], t, z => le(z, y) && le(y, z));
  }

  /**
   * `Sort` is the stable sort: any ordering of the same elements that is in order
   * and keeps ties in their original order is exactly `Sort(le, s)`.
   */
  lemma SortUnique(le: (File, File) -> bool, s: seq<File>, r: seq<File>)
    requires Total(le) && Transitive(le)
    requires multiset(r) == multiset(s)
    requires Sorted(le, r)
    requires forall y :: Ties(le, r, y) == Ties(le, s, y)
    ensures r == Sort(le, s)
  {
    SortSorted(le, s);
    SortPermutes(le, s);
    forall y ensures Ties(le, r, y) == Ties(le, Sort(le, s), y) {
      SortStable(le, s, y);
    }
    SortedTiesUnique(le, r, Sort(le, s));
  }
}
