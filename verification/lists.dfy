/** Facts about finite sequences shared by the event log, the aggregate and the read-models. */
module Lists {

  /** No element occurs twice. */
  ghost predicate NoDup<T>(s: seq<T>) {
    forall i, j :: 0 <= i < j < |s| ==> s[i] != s[j]
  }

  /** `a` can be obtained from `b` by deleting elements, keeping the order of the rest. */
  ghost predicate IsSubsequence<T>(a: seq<T>, b: seq<T>)
    decreases |b|
  {
    if b == [] then a == []
    else (a != [] && a[0] == b[0] && IsSubsequence(a[1..], b[1..])) || IsSubsequence(a, b[1..])
  }

  lemma SubsequenceReflexive<T>(s: seq<T>)
    ensures IsSubsequence(s, s)
    decreases |s|
  {
    if s != [] {
      SubsequenceReflexive(s[1..]);
    }
  }

  /** `n` copies of `x`. */
  function Repeat<T>(x: T, n: nat): (r: seq<T>)
    ensures |r| == n
    ensures forall i :: 0 <= i < n ==> r[i] == x
  {
    if n == 0 then [] else [x] + Repeat(x, n - 1)
  }

  lemma RepeatAdd<T>(x: T, m: nat, n: nat)
    ensures Repeat(x, m) + Repeat(x, n) == Repeat(x, m + n)
  {
    assert (Repeat(x, m) + Repeat(x, n))[..] == Repeat(x, m + n)[..];
  }

  function Reverse<T>(s: seq<T>): (r: seq<T>)
    ensures |r| == |s|
    ensures forall i :: 0 <= i < |s| ==> r[i] == s[|s| - 1 - i]
  {
    if s == [] then [] else Reverse(s[1..]) + [s[0]]
  }

  lemma ReverseSnoc<T>(s: seq<T>, x: T)
    ensures Reverse(s + [x]) == [x] + Reverse(s)
  {
  }

  /** The position of the first occurrence of `x`. */
  function FirstIndex<T(==)>(s: seq<T>, x: T): (i: nat)
    requires x in s
    ensures i < |s| && s[i] == x && x !in s[..i]
    decreases |s|
  {
    if s[0] == x then 0 else 1 + FirstIndex(s[1..], x)
  }

  /** The removal `java.util.LinkedList.remove(Object)` performs: only the first occurrence of `x` goes. */
  function RemoveFirst<T(==)>(s: seq<T>, x: T): (r: seq<T>)
    ensures x !in s ==> r == s
    ensures x in s ==> r == s[..FirstIndex(s, x)] + s[FirstIndex(s, x) + 1..]
    decreases |s|
  {
    if s == [] then []
    else if s[0] == x then
      RemoveHead(s, x);
      s[1..]
    else
      var rest := RemoveFirst(s[1..], x);
      InTail(s, x);
      if x in s[1..] then
        SpliceTail(s, x, FirstIndex(s[1..], x));
        [s[0]] + rest
      else
        assert s == [s[0]] + s[1..];
        [s[0]] + rest
  }

  /** When the list starts with `x`, dropping the head cuts out the first occurrence. */
  lemma RemoveHead<T>(s: seq<T>, x: T)
    requires s != [] && s[0] == x
    ensures s[1..] == s[..FirstIndex(s, x)] + s[FirstIndex(s, x) + 1..]
  {
    assert s[..0] == [];
  }

  /** Past a head other than `x`, `x` occurs in the list exactly when it occurs in the tail. */
  lemma InTail<T>(s: seq<T>, x: T)
    requires s != [] && s[0] != x
    ensures x in s <==> x in s[1..]
  {
    assert s == [s[0]] + s[1..];
  }

  /** Keeping a head other than `x` in front of the tail's removal is the removal on the whole list. */
  lemma SpliceTail<T>(s: seq<T>, x: T, j: nat)
    requires s != [] && s[0] != x && x in s[1..] && j == FirstIndex(s[1..], x)
    ensures [s[0]] + (s[1..][..j] + s[1..][j + 1..]) == s[..FirstIndex(s, x)] + s[FirstIndex(s, x) + 1..]
  {
    assert FirstIndex(s, x) == j + 1;
    assert s[..j + 1] == [s[0]] + s[1..][..j];
    assert s[j + 2..] == s[1..][j + 1..];
  }

  /** Cutting out one position takes exactly that element out of the multiset. */
  lemma MultisetSplice<T>(s: seq<T>, i: nat)
    requires i < |s|
    ensures multiset(s[..i] + s[i + 1..]) == multiset(s) - multiset{s[i]}
  {
    assert s == s[..i] + [s[i]] + s[i + 1..];
  }

  /** Removal takes exactly one copy of `x` out of the multiset of the list, and nothing else. */
  lemma RemoveFirstMultiset<T>(s: seq<T>, x: T)
    ensures multiset(RemoveFirst(s, x)) == multiset(s) - multiset{x}
  {
    if x in s {
      MultisetSplice(s, FirstIndex(s, x));
    }
  }

  /** Removal shortens the list by one exactly when `x` was there. */
  lemma RemoveFirstLength<T>(s: seq<T>, x: T)
    ensures x in s ==> |RemoveFirst(s, x)| == |s| - 1
    ensures x !in s ==> |RemoveFirst(s, x)| == |s|
  {
    RemoveFirstMultiset(s, x);
    assert |multiset(RemoveFirst(s, x))| == |RemoveFirst(s, x)|;
    if x in s {
      assert x in multiset(s);
    }
  }

  /** Removal keeps the order of what stays. */
  lemma {:induction false} RemoveFirstKeepsOrder<T>(s: seq<T>, x: T)
    ensures IsSubsequence(RemoveFirst(s, x), s)
    decreases |s|
  {
    if s == [] {
    } else if s[0] == x {
      SubsequenceReflexive(s[1..]);
    } else {
      RemoveFirstKeepsOrder(s[1..], x);
      assert ([s[0]] + RemoveFirst(s[1..], x))[1..] == RemoveFirst(s[1..], x);
    }
  }

  /** On a duplicate-free list, removal takes `x` out entirely and keeps the list duplicate-free. */
  lemma {:induction false} RemoveFirstNoDup<T>(s: seq<T>, x: T)
    requires NoDup(s)
    ensures x !in RemoveFirst(s, x)
    ensures NoDup(RemoveFirst(s, x))
    decreases |s|
  {
    if s != [] {
      assert NoDup(s[1..]);
      assert s[0] !in s[1..];
      if s[0] != x {
        var rest := RemoveFirst(s[1..], x);
        RemoveFirstNoDup(s[1..], x);
        assert s[0] !in rest by {
          assert multiset(s[1..])[s[0]] == 0;
          assert multiset(rest)[s[0]] == 0;
        }
        NoDupCons(s[0], rest);
      }
    }
  }

  /** Two ways of writing a list grown at its end. */
  lemma SnocSnoc<T>(a: seq<T>, x: T, y: T)
    ensures (a + [x]) + [y] == a + [x, y]
  {
  }

  lemma NoDupSnoc<T>(s: seq<T>, y: T)
    requires NoDup(s) && y !in s
    ensures NoDup(s + [y])
  {
  }

  lemma NoDupCons<T>(y: T, s: seq<T>)
    requires NoDup(s) && y !in s
    ensures NoDup([y] + s)
  {
    var r := [y] + s;
    forall i, j | 0 <= i < j < |r|
      ensures r[i] != r[j]
    {
      if i == 0 {
        assert r[j] == s[j - 1];
      } else {
        assert r[i] == s[i - 1] && r[j] == s[j - 1];
      }
    }
  }

  /** In a duplicate-free list every value occurs at most once. */
  lemma {:induction false} NoDupCount<T>(s: seq<T>, y: T)
    requires NoDup(s)
    ensures multiset(s)[y] <= 1
    decreases |s|
  {
    if s != [] {
      assert s == [s[0]] + s[1..];
      assert NoDup(s[1..]);
      NoDupCount(s[1..], y);
      if s[0] == y {
        assert y !in s[1..];
      }
    }
  }
}
