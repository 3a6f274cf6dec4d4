/**
 * Facts about rearranging a sequence by a table of source positions:
 * `Permute(s, t)[i] == s[t[i]]`. When the table has an inverse, the
 * rearranged sequence holds exactly the same values (the same multiset).
 */
module Permutations {

  /** Position `i` of the result takes the value found at position `t[i]` of `s`. */
  function Permute<T>(s: seq<T>, t: seq<nat>): (r: seq<T>)
    requires forall i :: 0 <= i < |t| ==> t[i] < |s|
    ensures |r| == |t|
  {
    seq(|t|, i requires 0 <= i < |t| => s[t[i]])
  }

  /** `t` and `u` are position tables over `0 .. |t|-1` that undo each other. */
  ghost predicate AreInverse(t: seq<nat>, u: seq<nat>)
  {
    && |t| == |u|
    && (forall i :: 0 <= i < |t| ==> t[i] < |t| && u[i] < |t|)
    && (forall i :: 0 <= i < |t| ==> t[u[i]] == i && u[t[i]] == i)
  }

  /** The positions of `s` holding `v`. */
  ghost function Occurrences<T>(s: seq<T>, v: T): set<nat>
  {
    set i: nat | i < |s| && s[i] == v
  }

  /** The multiplicity of `v` in `s` is the number of positions holding it. */
  lemma {:induction false} CountIsOccurrences<T>(s: seq<T>, v: T)
    ensures multiset(s)[v] == |Occurrences(s, v)|
  {
    if s == [] {
      assert Occurrences(s, v) == {};
    } else {
      var init := s[..|s| - 1];
      CountIsOccurrences(init, v);
      assert s == init + [s[|s| - 1]];
      if s[|s| - 1] == v {
        assert Occurrences(s, v) == Occurrences(init, v) + {|s| - 1};
      } else {
        assert Occurrences(s, v) == Occurrences(init, v);
      }
    }
  }

  /** A table that is one-to-one on `a` maps `a` onto a set of the same size. */
  lemma {:induction false} InjectiveImage(a: set<nat>, t: seq<nat>)
    requires forall i :: i in a ==> i < |t|
    requires forall i, j :: i in a && j in a && t[i] == t[j] ==> i == j
    ensures |set i | i in a :: t[i]| == |a|
  {
    if a != {} {
      var x :| x in a;
      var rest := a - {x};
      InjectiveImage(rest, t);
      assert (set i | i in a :: t[i]) == (set i | i in rest :: t[i]) + {t[x]};
      assert t[x] !in (set i | i in rest :: t[i]);
    }
  }

  /** The positions of `Permute(s, t)` holding `v` are carried by `t` onto those of `s`. */
  lemma OccurrencesImage<T>(s: seq<T>, t: seq<nat>, u: seq<nat>, v: T)
    requires |t| == |s| && AreInverse(t, u)
    ensures (set i | i in Occurrences(Permute(s, t), v) :: t[i]) == Occurrences(s, v)
  {
    var r := Permute(s, t);
    var a := Occurrences(r, v);
    var image := set i | i in a :: t[i];
    forall k | k in image ensures k in Occurrences(s, v) {
      var i :| i in a && t[i] == k;
      assert r[i] == s[k];
    }
    forall k | k in Occurrences(s, v) ensures k in image {
      var i := u[k];
      assert t[i] == k && r[i] == s[k];
      assert i in a;
    }
  }

  /** Rearranging by an invertible table keeps the multiplicity of `v`. */
  lemma PermuteKeepsCount<T>(s: seq<T>, t: seq<nat>, u: seq<nat>, v: T)
    requires |t| == |s| && AreInverse(t, u)
    ensures multiset(Permute(s, t))[v] == multiset(s)[v]
  {
    var a := Occurrences(Permute(s, t), v);
    CountIsOccurrences(Permute(s, t), v);
    CountIsOccurrences(s, v);
    forall i, j | i in a && j in a && t[i] == t[j] ensures i == j {
      assert u[t[i]] == i && u[t[j]] == j;
    }
    InjectiveImage(a, t);
    OccurrencesImage(s, t, u, v);
  }

  /** Rearranging by an invertible table keeps every value and its multiplicity. */
  lemma PermuteKeepsMultiset<T>(s: seq<T>, t: seq<nat>, u: seq<nat>)
    requires |t| == |s| && AreInverse(t, u)
    ensures multiset(Permute(s, t)) == multiset(s)
  {
    forall v ensures multiset(Permute(s, t))[v] == multiset(s)[v] {
      PermuteKeepsCount(s, t, u, v);
    }
  }

  /** `n` copies of `x`. */
  function Repeat<T>(x: T, n: nat): (r: seq<T>)
    ensures |r| == n
  {
    seq(n, _ => x)
  }

  lemma {:induction false} RepeatCount<T>(x: T, n: nat, y: T)
    ensures multiset(Repeat(x, n))[y] == if x == y then n else 0
  {
    if n > 0 {
      RepeatCount(x, n - 1, y);
      assert Repeat(x, n) == Repeat(x, n - 1) + [x];
    }
  }
}
