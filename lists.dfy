/**
 * List comprehensions with a condition, `[x for x in s if p(x)]`, which the file
 * panel uses for its name filter and the sorting proofs use for groups of ties.
 */
module Lists {

  /** The elements of `s` that satisfy `p`, in their order in `s`. */
  function Keep<T>(s: seq<T>, p: T -> bool): (r: seq<T>)
    ensures |r| <= |s|
    ensures forall x :: x in r ==> p(x)
  {
    if s == [] then [] else (if p(s[0]) then [s[0]] else []) + Keep(s[1..], p)
  }

  /** Keeping never adds an element nor repeats one more often than `s` has it. */
  lemma {:induction false} KeepSubMultiset<T>(s: seq<T>, p: T -> bool)
    ensures multiset(Keep(s, p)) <= multiset(s)
  {
    if s != [] {
      KeepSubMultiset(s[1..], p);
      assert s == [s[0]] + s[1..];
    }
  }

  /** `r[k]` was taken from position `idx[k]` of `s`. */
  ghost predicate TakenFrom<T>(s: seq<T>, r: seq<T>, idx: seq<nat>)
  {
    |idx| == |r| && forall k :: 0 <= k < |idx| ==> idx[k] < |s| && r[k] == s[idx[k]]
  }

  ghost predicate Increasing(idx: seq<nat>)
  {
    forall k, l :: 0 <= k < l < |idx| ==> idx[k] < idx[l]
  }

  /** A position of `s` is listed in `idx` if and only if its element satisfies `p`. */
  ghost predicate ListsSatisfying<T>(s: seq<T>, p: T -> bool, idx: seq<nat>)
  {
    forall i :: 0 <= i < |s| ==> (p(s[i]) <==> i in idx)
  }

  /**
   * `Keep` takes exactly the satisfying elements, in order: `idx` lists, strictly
   * increasing, the positions of `s` the result was taken from, and a position is
   * listed if and only if its element satisfies `p`.
   */
  lemma {:induction false} KeepPicksExactly<T>(s: seq<T>, p: T -> bool) returns (idx: seq<nat>)
    ensures TakenFrom(s, Keep(s, p), idx)
    ensures Increasing(idx)
    ensures ListsSatisfying(s, p, idx)
  {
    if s == [] {
      idx := [];
    } else {
      var rest := KeepPicksExactly(s[1..], p);
      ShiftedUpIncreasing(rest);
      ShiftedUpTakenFrom(s, Keep(s[1..], p), rest);
      if p(s[0]) {
        idx := [0] + ShiftedUp(rest);
        assert Keep(s, p) == [s[0]] + Keep(s[1..], p);
        PrependTakenFrom(s, Keep(s[1..], p), ShiftedUp(rest));
        ListsSatisfyingShifted(s, p, rest);
      } else {
        idx := ShiftedUp(rest);
        assert Keep(s, p) == Keep(s[1..], p);
        ListsSatisfyingShifted(s, p, rest);
      }
    }
  }

  lemma ShiftedUpIncreasing(rest: seq<nat>)
    requires Increasing(rest)
    ensures Increasing(ShiftedUp(rest)) && Increasing([0] + ShiftedUp(rest))
  {
    var shifted := ShiftedUp(rest);
    var idx := [0] + shifted;
    forall k, l | 0 <= k < l < |idx|
      ensures idx[k] < idx[l]
    {
      assert idx[l] == shifted[l - 1];
      if k > 0 {
        assert idx[k] == shifted[k - 1];
      }
    }
  }

  lemma ShiftedUpTakenFrom<T>(s: seq<T>, r: seq<T>, rest: seq<nat>)
    requires s != [] && TakenFrom(s[1..], r, rest)
    ensures TakenFrom(s, r, ShiftedUp(rest))
  {
    var shifted := ShiftedUp(rest);
    forall k | 0 <= k < |shifted|
      ensures shifted[k] < |s| && r[k] == s[shifted[k]]
    {
      assert s[1..][rest[k]] == s[rest[k] + 1];
    }
  }

  lemma PrependTakenFrom<T>(s: seq<T>, r: seq<T>, shifted: seq<nat>)
    requires s != [] && TakenFrom(s, r, shifted)
    ensures TakenFrom(s, [s[0]] + r, [0] + shifted)
  {
    var idx, m := [0] + shifted, [s[0]] + r;
    forall k | 0 <= k < |idx|
      ensures idx[k] < |s| && m[k] == s[idx[k]]
    {
      if k > 0 {
        assert idx[k] == shifted[k - 1] && m[k] == r[k - 1];
      }
    }
  }

  lemma ListsSatisfyingShifted<T>(s: seq<T>, p: T -> bool, rest: seq<nat>)
    requires s != [] && ListsSatisfying(s[1..], p, rest)
    ensures p(s[0]) ==> ListsSatisfying(s, p, [0] + ShiftedUp(rest))
    ensures !p(s[0]) ==> ListsSatisfying(s, p, ShiftedUp(rest))
  {
    var shifted := ShiftedUp(rest);
    var idx := if p(s[0]) then [0] + shifted else shifted;
    forall i | 0 <= i < |s|
      ensures p(s[i]) <==> i in idx
    {
      if i > 0 {
        assert s[i] == s[1..][i - 1];
        ShiftedUpHas(rest, i - 1);
        assert i in idx <==> i in shifted;
      }
    }
  }

  /** Adds one to every position, as when a list loses its first element. */
  function ShiftedUp(s: seq<nat>): (r: seq<nat>)
    ensures |r| == |s|
    ensures forall k :: 0 <= k < |s| ==> r[k] == s[k] + 1
    ensures 0 !in r
  {
    if s == [] then [] else [s[0] + 1] + ShiftedUp(s[1..])
  }

  lemma ShiftedUpHas(s: seq<nat>, i: nat)
    ensures i + 1 in ShiftedUp(s) <==> i in s
  {
    var r := ShiftedUp(s);
    if i in s {
      var k :| 0 <= k < |s| && s[k] == i;
      assert r[k] == i + 1;
    }
    if i + 1 in r {
      var k :| 0 <= k < |r| && r[k] == i + 1;
      assert s[k] == i;
    }
  }

  lemma {:induction false} KeepAppend<T>(a: seq<T>, b: seq<T>, p: T -> bool)
    ensures Keep(a + b, p) == Keep(a, p) + Keep(b, p)
  {
    if a == [] {
      assert a + b == b;
    } else {
      assert (a + b)[0] == a[0];
      assert (a + b)[1..] == a[1..] + b;
      KeepAppend(a[1..], b, p);
    }
  }

  lemma {:induction false} KeepAll<T>(s: seq<T>, p: T -> bool)
    requires forall x :: x in s ==> p(x)
    ensures Keep(s, p) == s
  {
    if s != [] {
      KeepAll(s[1..], p);
    }
  }
}
