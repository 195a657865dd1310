/** Small shared vocabulary: optional values, results, the two sides of a
    match, ASCII lower-casing, the in-place swap helper, and the facts about
    permutations of `lo .. lo+n-1` that the match model and the order codec
    rely on. */
module Util {

  datatype Option<+T> = None | Some(value: T)

  datatype Result<+T, +E> = Ok(value: T) | Err(error: E) {
    predicate IsFailure() { Err? }

    function PropagateFailure<U>(): Result<U, E>
      requires Err?
    {
      Err(error)
    }

    function Extract(): T
      requires Ok?
    {
      value
    }
  }

  /** The two teams of a match ("blue" and "red" in the source). */
  datatype Side = Blue | Red

  /** `util.invertSide`: maps blue to red and red to blue. */
  function Invert(s: Side): (r: Side)
    ensures r != s
  {
    if s == Blue then Red else Blue
  }

  /** Lower-casing of one character (ASCII letters only). */
  function LowerChar(c: char): char
  {
    if 'A' <= c <= 'Z' then (c as int + 32) as char else c
  }

  function Lower(s: string): (r: string)
    ensures |r| == |s|
    ensures forall i :: 0 <= i < |s| ==> r[i] == LowerChar(s[i])
  {
    seq(|s|, i requires 0 <= i < |s| => LowerChar(s[i]))
  }

  /** `util.swap`: exchanges the elements at positions `i` and `j`. */
  function Swap<T>(s: seq<T>, i: nat, j: nat): (r: seq<T>)
    requires i < |s| && j < |s|
    ensures |r| == |s| && r[i] == s[j] && r[j] == s[i]
    ensures forall k :: 0 <= k < |s| && k != i && k != j ==> r[k] == s[k]
    ensures multiset(r) == multiset(s)
  {
    s[i := s[j]][j := s[i]]
  }

  /** The consecutive integers `lo, lo+1, ..., lo+n-1` (Python's `range`). */
  function Iota(lo: int, n: nat): (r: seq<int>)
    ensures |r| == n
    ensures forall k :: 0 <= k < n ==> r[k] == lo + k
  {
    seq(n, k => lo + k)
  }

  ghost predicate Distinct<T>(s: seq<T>)
  {
    forall i, j :: 0 <= i < j < |s| ==> s[i] != s[j]
  }

  ghost predicate InRange(s: seq<int>, lo: int, n: nat)
  {
    forall k :: 0 <= k < |s| ==> lo <= s[k] < lo + n
  }

  /** `s` lists every value of `lo .. lo+n-1` exactly once, in some order. */
  ghost predicate IsPermutationOf(s: seq<int>, lo: int, n: nat)
  {
    |s| == n && InRange(s, lo, n) && Distinct(s)
  }

  function Elems<T>(s: seq<T>): set<T>
  {
    set x | x in s
  }

  lemma {:induction false} ElemsCard<T>(s: seq<T>)
    ensures |Elems(s)| <= |s|
    ensures |Elems(s)| == |s| <==> Distinct(s)
  {
    if s != [] {
      var t := s[1..];
      ElemsCard(t);
      DistinctCons(s);
      assert Elems(s) == {s[0]} + Elems(t) by {
        assert s == [s[0]] + t;
      }
      if s[0] in t {
        assert Elems(s) == Elems(t);
      } else {
        assert s[0] !in Elems(t);
      }
    }
  }

  /** A non-empty sequence is distinct exactly when its tail is and its
      head does not occur in the tail. */
  lemma DistinctCons<T>(s: seq<T>)
    requires s != []
    ensures Distinct(s) <==> Distinct(s[1..]) && s[0] !in s[1..]
  {
    var t := s[1..];
    if Distinct(s) {
      forall i, j | 0 <= i < j < |t| ensures t[i] != t[j] {
        assert t[i] == s[i + 1] && t[j] == s[j + 1];
      }
      forall j | 0 <= j < |t| ensures t[j] != s[0] {
        assert t[j] == s[j + 1];
      }
    }
    if Distinct(t) && s[0] !in t {
      forall i, j | 0 <= i < j < |s| ensures s[i] != s[j] {
        assert s[j] == t[j - 1];
        if i > 0 {
          assert s[i] == t[i - 1];
        }
      }
    }
  }

  lemma {:induction false} DistinctCount<T>(s: seq<T>, v: T)
    requires Distinct(s)
    ensures multiset(s)[v] == if v in s then 1 else 0
  {
    if s != [] {
      var t := s[1..];
      assert s == [s[0]] + t;
      DistinctCons(s);
      DistinctCount(t, v);
    }
  }

  lemma SubsetSameSize<T>(a: set<T>, b: set<T>)
    requires a <= b && |a| == |b|
    ensures a == b
  {
    var d := b - a;
    assert b == a + d;
    assert a !! d;
    assert |b| == |a| + |d|;
    assert d == {};
  }

  lemma IotaMembers(lo: int, n: nat, v: int)
    ensures v in Iota(lo, n) <==> lo <= v < lo + n
  {
    if lo <= v < lo + n {
      assert Iota(lo, n)[v - lo] == v;
    }
  }

  lemma TwoOccurrences<T>(s: seq<T>, i: nat, j: nat)
    requires i < j < |s| && s[i] == s[j]
    ensures multiset(s)[s[i]] >= 2
  {
    assert s == s[..j] + s[j..];
    assert s[i] == s[..j][i];
    assert s[j] == s[j..][0];
    assert multiset(s) == multiset(s[..j]) + multiset(s[j..]);
  }

  /** A sequence has the same multiset as `lo .. lo+n-1` exactly when it
      lists each of those values once: this is what Python's
      `sorted(s) == list(range(lo, lo+n))` tests. */
  lemma {:induction false} PermutationIff(s: seq<int>, lo: int, n: nat)
    ensures multiset(s) == multiset(Iota(lo, n)) <==> IsPermutationOf(s, lo, n)
  {
    var io := Iota(lo, n);
    assert Distinct(io);
    if multiset(s) == multiset(io) {
      assert |s| == |multiset(s)| == |multiset(io)| == n;
      forall k | 0 <= k < |s| ensures lo <= s[k] < lo + n {
        assert s[k] in multiset(s);
        assert s[k] in io;
        IotaMembers(lo, n, s[k]);
      }
      forall i, j | 0 <= i < j < |s| ensures s[i] != s[j] {
        if s[i] == s[j] {
          TwoOccurrences(s, i, j);
          DistinctCount(io, s[i]);
          assert false;
        }
      }
    }
    if IsPermutationOf(s, lo, n) {
      assert Elems(s) <= Elems(io) by {
        forall x | x in Elems(s) ensures x in Elems(io) {
          var k :| 0 <= k < |s| && s[k] == x;
          IotaMembers(lo, n, x);
        }
      }
      ElemsCard(s);
      ElemsCard(io);
      SubsetSameSize(Elems(s), Elems(io));
      forall v ensures multiset(s)[v] == multiset(io)[v] {
        DistinctCount(s, v);
        DistinctCount(io, v);
        assert v in s <==> v in Elems(s);
        assert v in io <==> v in Elems(io);
      }
      assert multiset(s) == multiset(io);
    }
  }

  /** Reading a roster through a list of 1-based indices:
      `[s[i-1] for i in idx]`. */
  function Pick<T>(s: seq<T>, idx: seq<int>): (r: seq<T>)
    requires InRange(idx, 1, |s|)
    ensures |r| == |idx|
    ensures forall k :: 0 <= k < |idx| ==> r[k] == s[idx[k] - 1]
  {
    if idx == [] then [] else [s[idx[0] - 1]] + Pick(s, idx[1..])
  }

  lemma {:induction false} PickConcat<T>(s: seq<T>, u: seq<int>, v: seq<int>)
    requires InRange(u, 1, |s|) && InRange(v, 1, |s|)
    ensures InRange(u + v, 1, |s|)
    ensures Pick(s, u + v) == Pick(s, u) + Pick(s, v)
  {
    assert InRange(u + v, 1, |s|) by {
      forall k | 0 <= k < |u + v| ensures 1 <= (u + v)[k] < 1 + |s| {
        if k < |u| { assert (u + v)[k] == u[k]; } else { assert (u + v)[k] == v[k - |u|]; }
      }
    }
    if u != [] {
      assert (u + v)[1..] == u[1..] + v;
      PickConcat(s, u[1..], v);
    } else {
      assert u + v == v;
    }
  }

  lemma SliceRanges(b: seq<int>, j: nat, n: nat)
    requires j < |b| && InRange(b, 1, n)
    ensures InRange(b[..j], 1, n) && InRange(b[j+1..], 1, n) && 1 <= b[j] <= n
  {
    var post := b[j+1..];
    forall k | 0 <= k < |post| ensures 1 <= post[k] < 1 + n { assert post[k] == b[j + 1 + k]; }
  }

  lemma SliceMultisets(b: seq<int>, j: nat)
    requires j < |b|
    ensures b == b[..j] + [b[j]] + b[j+1..]
    ensures multiset(b[..j] + b[j+1..]) == multiset(b) - multiset{b[j]}
  {
    assert b == b[..j] + [b[j]] + b[j+1..];
  }

  /** Splits `b` around an occurrence of `a[0]`, with everything the
      inductive step of `PickSameMultiset` needs about the pieces. */
  lemma SplitAt(a: seq<int>, b: seq<int>, n: nat) returns (pre: seq<int>, post: seq<int>)
    requires |a| > 0 && InRange(a, 1, n) && InRange(b, 1, n)
    requires multiset(a) == multiset(b)
    ensures b == pre + [a[0]] + post
    ensures InRange(a[1..], 1, n) && InRange(pre, 1, n) && InRange(post, 1, n)
    ensures multiset(a[1..]) == multiset(pre + post)
    ensures 1 <= a[0] <= n
  {
    assert a[0] in multiset(b);
    var j :| 0 <= j < |b| && b[j] == a[0];
    pre, post := b[..j], b[j+1..];
    SliceRanges(a, 0, n);
    SliceRanges(b, j, n);
    SliceMultisets(a, 0);
    SliceMultisets(b, j);
    assert a[..0] + a[1..] == a[1..];
  }

  lemma PickStep<T>(s: seq<T>, x: int, rest: seq<int>, pre: seq<int>, post: seq<int>)
    requires 1 <= x <= |s|
    requires InRange(rest, 1, |s|) && InRange(pre, 1, |s|) && InRange(post, 1, |s|)
    requires multiset(Pick(s, rest)) == multiset(Pick(s, pre + post))
    ensures InRange([x] + rest, 1, |s|) && InRange(pre + [x] + post, 1, |s|)
    ensures multiset(Pick(s, [x] + rest)) == multiset(Pick(s, pre + [x] + post))
  {
    PickConcat(s, [x], rest);
    PickInsert(s, pre, x, post);
  }

  /** Picking with `x` inserted adds the element `x` picks. */
  lemma PickInsert<T>(s: seq<T>, pre: seq<int>, x: int, post: seq<int>)
    requires 1 <= x <= |s| && InRange(pre, 1, |s|) && InRange(post, 1, |s|)
    ensures InRange(pre + post, 1, |s|) && InRange(pre + [x] + post, 1, |s|)
    ensures multiset(Pick(s, pre + [x] + post)) == multiset(Pick(s, [x])) + multiset(Pick(s, pre + post))
  {
    PickConcat(s, pre, post);
    PickConcat(s, pre, [x]);
    PickConcat(s, pre + [x], post);
    var a, px, b := Pick(s, pre), Pick(s, [x]), Pick(s, post);
    assert Pick(s, pre + [x] + post) == a + px + b;
    assert multiset(a + px + b) == multiset(a) + multiset(px) + multiset(b);
  }

  /** Two index lists with the same multiset pick the same multiset. */
  lemma {:induction false} PickSameMultiset<T>(s: seq<T>, a: seq<int>, b: seq<int>)
    requires InRange(a, 1, |s|) && InRange(b, 1, |s|)
    requires multiset(a) == multiset(b)
    ensures multiset(Pick(s, a)) == multiset(Pick(s, b))
    decreases |a|
  {
    if |a| == 0 {
      assert |b| == |multiset(b)| == 0;
    } else {
      var pre, post := SplitAt(a, b, |s|);
      PickConcat(s, pre, post);
      PickSameMultiset(s, a[1..], pre + post);
      PickStep(s, a[0], a[1..], pre, post);
      assert a == [a[0]] + a[1..];
    }
  }

  /** Applying a permutation of `1..|s|` to `s` yields a permutation of `s`. */
  lemma PickPermutes<T>(s: seq<T>, order: seq<int>)
    requires IsPermutationOf(order, 1, |s|)
    ensures multiset(Pick(s, order)) == multiset(s)
  {
    PermutationIff(order, 1, |s|);
    PickIdentity(s);
    PickSameMultiset(s, order, Iota(1, |s|));
  }

  /** The identity order picks the roster itself. */
  lemma PickIdentity<T>(s: seq<T>)
    ensures InRange(Iota(1, |s|), 1, |s|) && Pick(s, Iota(1, |s|)) == s
  {
    var id := Iota(1, |s|);
    assert InRange(id, 1, |s|);
    var p := Pick(s, id);
    forall k | 0 <= k < |s| ensures p[k] == s[k] {
      assert id[k] == k + 1;
    }
  }
}
