/** Array idioms the React handlers repeat: `filter`, the toggle
  * `prev.includes(x) ? prev.filter(i => i !== x) : [...prev, x]`, and
  * `Array.from(new Set(xs))`, which keeps the first occurrence of each value.
  */
module Lists {

  /** `xs.filter(x => x !== v)`. */
  function Remove<T(==,!new)>(xs: seq<T>, v: T): (r: seq<T>)
    ensures v !in r
    ensures forall x :: x in r <==> x in xs && x != v
    ensures |r| <= |xs|
  {
    if xs == [] then []
    else if xs[0] == v then Remove(xs[1..], v)
    else [xs[0]] + Remove(xs[1..], v)
  }

  /** `xs.includes(v) ? xs.filter(x => x !== v) : [...xs, v]`. */
  function Toggle<T(==,!new)>(xs: seq<T>, v: T): seq<T> {
    if v in xs then Remove(xs, v) else xs + [v]
  }

  predicate NoDuplicates<T(==)>(xs: seq<T>) {
    forall i, j :: 0 <= i < j < |xs| ==> xs[i] != xs[j]
  }

  /** `sub` is an order-preserving subsequence of `xs`. */
  predicate IsSubsequence<T(==)>(sub: seq<T>, xs: seq<T>)
    decreases |xs|
  {
    sub == [] || (xs != [] && ((sub[0] == xs[0] && IsSubsequence(sub[1..], xs[1..])) || IsSubsequence(sub, xs[1..])))
  }

  /** Toggling flips the membership of exactly the toggled value. */
  lemma ToggleFlips<T(!new)>(xs: seq<T>, v: T)
    ensures v in Toggle(xs, v) <==> v !in xs
    ensures forall x :: x != v ==> (x in Toggle(xs, v) <==> x in xs)
  {
  }

  /** Removing keeps the order of the values that stay. */
  lemma {:induction false} RemoveIsSubsequence<T(!new)>(xs: seq<T>, v: T)
    ensures IsSubsequence(Remove(xs, v), xs)
  {
    if xs != [] {
      RemoveIsSubsequence(xs[1..], v);
    }
  }

  /** Removing from a duplicate-free list leaves it duplicate-free. */
  lemma {:induction false} RemoveNoDuplicates<T(!new)>(xs: seq<T>, v: T)
    requires NoDuplicates(xs)
    ensures NoDuplicates(Remove(xs, v))
  {
    if xs != [] {
      RemoveNoDuplicates(xs[1..], v);
      if xs[0] != v {
        assert xs[0] !in xs[1..];
        assert forall j :: 0 <= j < |Remove(xs[1..], v)| ==> Remove(xs[1..], v)[j] in xs[1..];
      }
    }
  }

  /** Toggling keeps a list duplicate-free, so the toggle also models a JavaScript Set. */
  lemma ToggleNoDuplicates<T(!new)>(xs: seq<T>, v: T)
    requires NoDuplicates(xs)
    ensures NoDuplicates(Toggle(xs, v))
  {
    if v in xs {
      RemoveNoDuplicates(xs, v);
    }
  }

  /** Every subsequence of `xs` with its own elements in `xs`. */
  lemma {:induction false} SubsequenceMembers<T(!new)>(sub: seq<T>, xs: seq<T>)
    requires IsSubsequence(sub, xs)
    ensures forall x :: x in sub ==> x in xs
    ensures |sub| <= |xs|
    decreases |xs|
  {
    if sub != [] {
      if sub[0] == xs[0] && IsSubsequence(sub[1..], xs[1..]) {
        SubsequenceMembers(sub[1..], xs[1..]);
        assert forall x :: x in sub ==> x == sub[0] || x in sub[1..];
      } else {
        SubsequenceMembers(sub, xs[1..]);
      }
    }
  }

  /** A subsequence stays one when a prefix is put in front of the list. */
  lemma {:induction false} SubsequencePrefix<T>(sub: seq<T>, xs: seq<T>, p: seq<T>)
    requires IsSubsequence(sub, xs)
    ensures IsSubsequence(sub, p + xs)
    decreases |p|
  {
    if p == [] {
      assert p + xs == xs;
    } else if sub != [] {
      SubsequencePrefix(sub, xs, p[1..]);
      assert (p + xs)[1..] == p[1..] + xs;
      assert p + xs != [];
    }
  }

  /** Appending a value to a list may append it to a subsequence too. */
  lemma {:induction false} SubsequenceSnoc<T>(sub: seq<T>, xs: seq<T>, x: T, keep: bool)
    requires IsSubsequence(sub, xs)
    ensures IsSubsequence(sub + (if keep then [x] else []), xs + [x])
    decreases |xs|
  {
    var s := sub + (if keep then [x] else []);
    var ys := xs + [x];
    assert xs != [] ==> ys[1..] == xs[1..] + [x];
    if s == [] {
    } else if xs == [] {
      assert sub == [] && s == [x] && ys == [x];
      assert IsSubsequence(s[1..], ys[1..]);
    } else if sub != [] && sub[0] == xs[0] && IsSubsequence(sub[1..], xs[1..]) {
      SubsequenceSnoc(sub[1..], xs[1..], x, keep);
      assert s[1..] == sub[1..] + (if keep then [x] else []);
    } else if sub == [] {
      assert s == [x];
      SubsequenceSnoc(sub, xs[1..], x, keep);
    } else {
      SubsequenceSnoc(sub, xs[1..], x, keep);
    }
  }

  /** Putting a value in front of a list may put it in front of a subsequence too. */
  lemma SubsequenceCons<T>(sub: seq<T>, xs: seq<T>, x: T, keep: bool)
    requires IsSubsequence(sub, xs)
    ensures IsSubsequence((if keep then [x] else []) + sub, [x] + xs)
  {
    if keep {
      assert ([x] + sub)[1..] == sub && ([x] + xs)[1..] == xs;
    } else {
      assert [] + sub == sub;
      assert ([x] + xs)[1..] == xs;
    }
  }

  /** `xs.filter(keep)`. */
  function Keep<T(!new)>(xs: seq<T>, keep: T -> bool): (r: seq<T>)
    ensures forall x :: x in r <==> x in xs && keep(x)
    ensures IsSubsequence(r, xs)
  {
    if xs == [] then []
    else
      var rest := Keep(xs[1..], keep);
      SubsequenceCons(rest, xs[1..], xs[0], keep(xs[0]));
      assert [xs[0]] + xs[1..] == xs;
      (if keep(xs[0]) then [xs[0]] else []) + rest
  }

  /** A filter that keeps everything is the identity. */
  lemma {:induction false} KeepAll<T(!new)>(xs: seq<T>, keep: T -> bool)
    requires forall x :: x in xs ==> keep(x)
    ensures Keep(xs, keep) == xs
  {
    if xs != [] {
      KeepAll(xs[1..], keep);
      assert [xs[0]] + xs[1..] == xs;
    }
  }

  /** `Array.from(new Set(xs))`: each value once, at its first occurrence,
    * written with the set of values already seen. */
  function Dedupe<T(==,!new)>(xs: seq<T>): seq<T> {
    DedupeAfter(xs, {})
  }

  function DedupeAfter<T(==,!new)>(xs: seq<T>, seen: set<T>): (r: seq<T>)
    ensures forall x :: x in r <==> x in xs && x !in seen
    ensures NoDuplicates(r)
  {
    if xs == [] then []
    else if xs[0] in seen then DedupeAfter(xs[1..], seen)
    else
      var rest := DedupeAfter(xs[1..], seen + {xs[0]});
      [xs[0]] + rest
  }

  /** Deduplicating a duplicate-free list changes nothing. */
  lemma {:induction false} DedupeAfterKeeps<T(!new)>(xs: seq<T>, seen: set<T>)
    requires NoDuplicates(xs)
    requires forall x :: x in xs ==> x !in seen
    ensures DedupeAfter(xs, seen) == xs
  {
    if xs != [] {
      assert forall x :: x in xs[1..] ==> x != xs[0];
      DedupeAfterKeeps(xs[1..], seen + {xs[0]});
    }
  }

  /** `Array.from(new Set([...a, ...b]))` with `a` duplicate-free is `a`
    * followed by the values of `b` not in `a`, each once. */
  lemma {:induction false} DedupeAppend<T(!new)>(a: seq<T>, b: seq<T>)
    requires NoDuplicates(a)
    ensures Dedupe(a + b) == a + DedupeAfter(b, set x | x in a)
  {
    DedupeAppendAfter(a, b, {});
    assert {} + (set x | x in a) == set x | x in a;
  }

  lemma {:induction false} DedupeAppendAfter<T(!new)>(a: seq<T>, b: seq<T>, seen: set<T>)
    requires NoDuplicates(a)
    requires forall x :: x in a ==> x !in seen
    ensures DedupeAfter(a + b, seen) == a + DedupeAfter(b, seen + set x | x in a)
  {
    if a == [] {
      assert a + b == b;
      assert seen + (set x | x in a) == seen;
    } else {
      var t := a[1..];
      var seen' := seen + {a[0]};
      var rest := DedupeAfter(b, seen' + set x | x in t);
      assert seen' + (set x | x in t) == seen + (set x | x in a) by {
        ElemsCons(a);
      }
      assert DedupeAfter(t + b, seen') == t + rest by {
        NoDuplicatesTail(a);
        DedupeAppendAfter(t, b, seen');
      }
      ConsAppend(a, b);
      ConsAppend(a, rest);
      DedupeAfterCons(a[0], t + b, seen);
    }
  }

  lemma ConcatAssoc<T>(a: seq<T>, b: seq<T>, c: seq<T>)
    ensures (a + b) + c == a + (b + c)
  {
  }

  lemma ConsAppend<T>(a: seq<T>, b: seq<T>)
    requires a != []
    ensures a + b == [a[0]] + (a[1..] + b)
  {
    assert a == [a[0]] + a[1..];
  }

  /** A value not yet seen is kept and then counts as seen. */
  lemma DedupeAfterCons<T(!new)>(x: T, rest: seq<T>, seen: set<T>)
    requires x !in seen
    ensures DedupeAfter([x] + rest, seen) == [x] + DedupeAfter(rest, seen + {x})
  {
    assert ([x] + rest)[1..] == rest;
  }

  /** The tail of a duplicate-free list is duplicate-free and lacks the head. */
  lemma NoDuplicatesTail<T>(a: seq<T>)
    requires a != [] && NoDuplicates(a)
    ensures NoDuplicates(a[1..]) && a[0] !in a[1..]
  {
  }

  lemma ElemsCons<T>(a: seq<T>)
    requires a != []
    ensures (set x | x in a) == {a[0]} + set x | x in a[1..]
  {
    assert a == [a[0]] + a[1..];
  }

  /** `xs.indexOf(v)`: the first position of `v`, or -1. */
  function IndexOf<T(==)>(xs: seq<T>, v: T): (k: int)
    ensures -1 <= k < |xs|
    ensures k == -1 <==> v !in xs
    ensures k >= 0 ==> xs[k] == v && v !in xs[..k]
  {
    if xs == [] then -1
    else if xs[0] == v then 0
    else
      var k := IndexOf(xs[1..], v);
      if k == -1 then -1
      else
        assert xs[1..][..k] == xs[1..k + 1];
        assert xs[..k + 1] == [xs[0]] + xs[1..k + 1];
        k + 1
  }

  /** A position argument of `slice`: a negative one counts from the end,
    * and the result is clamped to `0..n`. */
  function SlicePos(k: int, n: nat): (p: nat)
    ensures p <= n
  {
    if k < 0 then (if n + k < 0 then 0 else n + k) else if k > n then n else k
  }

  /** `xs.slice(from, to)`. */
  function Slice<T>(xs: seq<T>, from: int, to: int): (r: seq<T>)
    ensures |r| <= |xs|
  {
    var a := SlicePos(from, |xs|);
    var b := SlicePos(to, |xs|);
    if a < b then xs[a..b] else []
  }
}
