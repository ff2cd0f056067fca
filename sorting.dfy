/** The stable descending sort the handlers get from `Array.prototype.sort` with a comparator
    such as `(a, b) => b.score - a.score`, and from `.order(column, { ascending: false })`.
    Keys are pairs compared lexicographically, so one sort also covers two-column orders
    (pinned first, then newest first). An ascending order is a descending one on negated keys. */
module Sorting {
  import opened Seqs

  datatype Keyed<T> = Keyed(item: T, major: int, minor: int)

  /** `a` may stand before `b`: its key is at least `b`'s. */
  predicate Ahead<T>(a: Keyed<T>, b: Keyed<T>) {
    a.major > b.major || (a.major == b.major && a.minor >= b.minor)
  }

  predicate SortedDesc<T>(s: seq<Keyed<T>>) {
    forall i, j :: 0 <= i < j < |s| ==> Ahead(s[i], s[j])
  }

  /** Inserts `x` after every element whose key is at least `x`'s. */
  function Insert<T>(x: Keyed<T>, s: seq<Keyed<T>>): (r: seq<Keyed<T>>)
    ensures |r| == |s| + 1
    ensures multiset(r) == multiset(s) + multiset{x}
  {
    if s == [] then [x]
    else if Ahead(s[0], x) then
      assert s == [s[0]] + s[1..];
      [s[0]] + Insert(x, s[1..])
    else [x] + s
  }

  lemma {:induction false} InsertSorted<T>(x: Keyed<T>, s: seq<Keyed<T>>)
    requires SortedDesc(s)
    ensures SortedDesc(Insert(x, s))
  {
    if s != [] && Ahead(s[0], x) {
      InsertSorted(x, s[1..]);
      var t := Insert(x, s[1..]);
      forall j | 0 <= j < |t| ensures Ahead(s[0], t[j]) {
        assert t[j] in multiset(t);
        assert t[j] == x || t[j] in multiset(s[1..]);
      }
    }
  }

  /** Insertion sort from the front of the input: each element is inserted behind the
      elements of equal key that came before it, which makes the sort stable. */
  function SortDesc<T>(s: seq<Keyed<T>>): (r: seq<Keyed<T>>)
    ensures |r| == |s|
    ensures multiset(r) == multiset(s)
    ensures SortedDesc(r)
  {
    if s == [] then []
    else
      var init := SortDesc(s[..|s| - 1]);
      assert s == s[..|s| - 1] + [s[|s| - 1]];
      InsertSorted(s[|s| - 1], init);
      Insert(s[|s| - 1], init)
  }

  lemma SortDescMembers<T>(s: seq<Keyed<T>>, x: Keyed<T>)
    ensures x in SortDesc(s) <==> x in s
  {
    assert x in SortDesc(s) <==> x in multiset(SortDesc(s));
  }

  /** Every element of the sorted sequence is an element of the input, so a property of all
      input elements holds of all output elements. */
  lemma SortDescKeeps<T>(s: seq<Keyed<T>>, P: Keyed<T> -> bool)
    requires forall i :: 0 <= i < |s| ==> P(s[i])
    ensures forall i :: 0 <= i < |SortDesc(s)| ==> P(SortDesc(s)[i])
  {
    var r := SortDesc(s);
    forall i | 0 <= i < |r| ensures P(r[i]) {
      assert r[i] in multiset(r);
      assert r[i] in s;
    }
  }

  /** The elements of `s` with key (major, minor), in order. */
  function WithKey<T>(s: seq<Keyed<T>>, major: int, minor: int): seq<Keyed<T>> {
    if s == [] then []
    else (if s[0].major == major && s[0].minor == minor then [s[0]] else []) + WithKey(s[1..], major, minor)
  }

  lemma {:induction false} WithKeyAppend<T>(a: seq<Keyed<T>>, b: seq<Keyed<T>>, major: int, minor: int)
    ensures WithKey(a + b, major, minor) == WithKey(a, major, minor) + WithKey(b, major, minor)
  {
    if a == [] {
      assert a + b == b;
    } else {
      assert (a + b)[1..] == a[1..] + b;
      WithKeyAppend(a[1..], b, major, minor);
    }
  }

  lemma {:induction false} WithKeyBelow<T>(s: seq<Keyed<T>>, x: Keyed<T>)
    requires forall i :: 0 <= i < |s| ==> !Ahead(s[i], x)
    ensures WithKey(s, x.major, x.minor) == []
  {
    if s != [] {
      WithKeyBelow(s[1..], x);
    }
  }

  /** `WithKey` of a sequence with a given first element. */
  lemma WithKeyCons<T>(y: Keyed<T>, t: seq<Keyed<T>>, major: int, minor: int)
    ensures WithKey([y] + t, major, minor) == (if y.major == major && y.minor == minor then [y] else []) + WithKey(t, major, minor)
  {
    assert ([y] + t)[1..] == t;
  }

  /** The tail of a sorted sequence is sorted. */
  lemma SortedTail<T>(s: seq<Keyed<T>>)
    requires s != [] && SortedDesc(s)
    ensures SortedDesc(s[1..])
  {
    forall i, j | 0 <= i < j < |s| - 1 ensures Ahead(s[1..][i], s[1..][j]) {
      assert s[1..][i] == s[i + 1] && s[1..][j] == s[j + 1];
    }
  }

  /** Putting one element in front of two sequences keeps a difference at their ends. */
  lemma PrependKeyed<T>(y: Keyed<T>, t: seq<Keyed<T>>, u: seq<Keyed<T>>, xs: seq<Keyed<T>>, major: int, minor: int)
    requires WithKey(t, major, minor) == WithKey(u, major, minor) + xs
    ensures WithKey([y] + t, major, minor) == WithKey([y] + u, major, minor) + xs
  {
    var h := if y.major == major && y.minor == minor then [y] else [];
    WithKeyCons(y, t, major, minor);
    WithKeyCons(y, u, major, minor);
    assert h + (WithKey(u, major, minor) + xs) == (h + WithKey(u, major, minor)) + xs;
  }

  /** Inserting behind the head: the head's own contribution comes first, the rest follows. */
  lemma InsertBehind<T>(x: Keyed<T>, s: seq<Keyed<T>>, major: int, minor: int)
    requires s != [] && Ahead(s[0], x)
    requires WithKey(Insert(x, s[1..]), major, minor)
          == WithKey(s[1..], major, minor) + (if x.major == major && x.minor == minor then [x] else [])
    ensures WithKey(Insert(x, s), major, minor)
         == WithKey(s, major, minor) + (if x.major == major && x.minor == minor then [x] else [])
  {
    PrependKeyed(s[0], Insert(x, s[1..]), s[1..], if x.major == major && x.minor == minor then [x] else [], major, minor);
    assert s == [s[0]] + s[1..];
  }

  /** Inserting in front of a sorted sequence whose head is not ahead of `x`: no element of
      `s` shares `x`'s key. */
  lemma InsertFront<T>(x: Keyed<T>, s: seq<Keyed<T>>, major: int, minor: int)
    requires s != [] && !Ahead(s[0], x) && SortedDesc(s)
    ensures WithKey(Insert(x, s), major, minor)
         == WithKey(s, major, minor) + (if x.major == major && x.minor == minor then [x] else [])
  {
    WithKeyCons(x, s, major, minor);
    if x.major == major && x.minor == minor {
      forall i | 0 <= i < |s| ensures !Ahead(s[i], x) {
        assert i == 0 || Ahead(s[0], s[i]);
      }
      WithKeyBelow(s, x);
    }
  }

  lemma {:induction false} InsertStable<T>(x: Keyed<T>, s: seq<Keyed<T>>, major: int, minor: int)
    requires SortedDesc(s)
    ensures WithKey(Insert(x, s), major, minor)
         == WithKey(s, major, minor) + (if x.major == major && x.minor == minor then [x] else [])
  {
    if s == [] {
    } else if Ahead(s[0], x) {
      SortedTail(s);
      InsertStable(x, s[1..], major, minor);
      InsertBehind(x, s, major, minor);
    } else {
      InsertFront(x, s, major, minor);
    }
  }

  /** Stability: the elements of any one key keep their relative order. */
  lemma {:induction false} SortStable<T>(s: seq<Keyed<T>>, major: int, minor: int)
    ensures WithKey(SortDesc(s), major, minor) == WithKey(s, major, minor)
  {
    if s != [] {
      var init := s[..|s| - 1];
      var x := s[|s| - 1];
      assert s == init + [x];
      SortStable(init, major, minor);
      InsertStable(x, SortDesc(init), major, minor);
      WithKeyAppend(init, [x], major, minor);
    }
  }

  /** An element of the input whose item the first `k` items of the sorted output leave out
      is ranked at or below each of those `k`. */
  lemma SortDescTop<T>(s: seq<Keyed<T>>, k: nat, x: Keyed<T>)
    requires x in s && x.item !in Items(Take(SortDesc(s), k))
    ensures forall i :: 0 <= i < |Take(SortDesc(s), k)| ==> Ahead(SortDesc(s)[i], x)
  {
    var r := SortDesc(s);
    var t := Take(r, k);
    SortDescMembers(s, x);
    var j :| 0 <= j < |r| && r[j] == x;
    OutsidePrefix(r, k, j);
    forall i | 0 <= i < |t| ensures Ahead(r[i], x) {
      assert i < j;
    }
  }

  /** An element whose item the first `k` items leave out sits at or after position `k`. */
  lemma OutsidePrefix<T>(r: seq<Keyed<T>>, k: nat, j: nat)
    requires j < |r| && r[j].item !in Items(Take(r, k))
    ensures j >= |Take(r, k)|
  {
    var t := Take(r, k);
    assert forall l :: 0 <= l < |t| ==> t[l] == r[l] && Items(t)[l] == r[l].item;
  }

  /** A prefix of a sorted sequence holds elements at least as large as every element left out. */
  lemma TopKeepsLargest<T>(s: seq<Keyed<T>>, k: nat, i: nat, j: nat)
    requires SortedDesc(s)
    requires i < k && i < |s| && k <= j < |s|
    ensures Ahead(s[i], s[j])
  {
  }

  function Items<T>(s: seq<Keyed<T>>): (r: seq<T>)
    ensures |r| == |s|
    ensures forall i :: 0 <= i < |s| ==> r[i] == s[i].item
  {
    seq(|s|, i requires 0 <= i < |s| => s[i].item)
  }

  lemma ItemsAppend<T>(a: seq<Keyed<T>>, b: seq<Keyed<T>>)
    ensures Items(a + b) == Items(a) + Items(b)
  {
  }

  /** Taking one element out of a sequence takes it out of its multiset. */
  lemma WithoutAt<T>(t: seq<T>, k: nat)
    requires k < |t|
    ensures multiset(t[..k] + t[k + 1..]) == multiset(t) - multiset{t[k]}
  {
    assert t == t[..k] + [t[k]] + t[k + 1..];
  }

  /** Taking one element out of a keyed sequence takes its item out of the items. */
  lemma ItemsWithoutAt<T>(t: seq<Keyed<T>>, k: nat)
    requires k < |t|
    ensures multiset(Items(t[..k] + t[k + 1..])) == multiset(Items(t)) - multiset{t[k].item}
  {
    var pre, post := t[..k], t[k + 1..];
    assert t == pre + [t[k]] + post;
    ItemsAppend(pre, [t[k]]);
    ItemsAppend(pre + [t[k]], post);
    ItemsAppend(pre, post);
    assert Items([t[k]]) == [t[k].item];
  }

  /** Two multisets holding `x` that agree once one `x` is taken out agree, and conversely. */
  lemma Cancel<T>(a: multiset<T>, b: multiset<T>, x: T)
    requires x in a && x in b
    ensures a == b <==> a - multiset{x} == b - multiset{x}
  {
    if a - multiset{x} == b - multiset{x} {
      forall y ensures a[y] == b[y] {
        assert (a - multiset{x})[y] == (b - multiset{x})[y];
      }
    }
  }

  /** Keyed sequences with the same elements carry the same items. */
  lemma {:induction false} ItemsPermutation<T>(s: seq<Keyed<T>>, t: seq<Keyed<T>>)
    requires multiset(s) == multiset(t)
    ensures multiset(Items(s)) == multiset(Items(t))
  {
    if s == [] {
      assert |t| == |multiset(t)| == 0;
    } else {
      assert s[0] in multiset(t);
      assert s[0] in t;
      var k :| 0 <= k < |t| && t[k] == s[0];
      TailPermutation(s, t, k);
      ItemsPermutation(s[1..], t[..k] + t[k + 1..]);
      ItemsStep(s, t, k);
    }
  }

  /** Taking the head of `s` out of `s` and its occurrence at `k` out of `t` keeps the
      multisets equal. */
  lemma TailPermutation<T>(s: seq<Keyed<T>>, t: seq<Keyed<T>>, k: nat)
    requires multiset(s) == multiset(t) && s != [] && k < |t| && t[k] == s[0]
    ensures multiset(s[1..]) == multiset(t[..k] + t[k + 1..])
  {
    var x := s[0];
    calc {
      multiset(s[1..]);
      { assert s == [x] + s[1..]; }
      multiset(s) - multiset{x};
      multiset(t) - multiset{x};
      { WithoutAt(t, k); }
      multiset(t[..k] + t[k + 1..]);
    }
  }

  /** Putting the same element back in front of `s` and at `k` in `t` keeps the items equal. */
  lemma ItemsStep<T>(s: seq<Keyed<T>>, t: seq<Keyed<T>>, k: nat)
    requires s != [] && k < |t| && t[k] == s[0]
    requires multiset(Items(s[1..])) == multiset(Items(t[..k] + t[k + 1..]))
    ensures multiset(Items(s)) == multiset(Items(t))
  {
    ItemsWithoutAt(s, 0);
    ItemsWithoutAt(t, k);
    assert s[..0] + s[1..] == s[1..];
    assert Items(s)[0] == s[0].item && Items(t)[k] == t[k].item;
    Cancel(multiset(Items(s)), multiset(Items(t)), s[0].item);
  }

  /** Sorting only reorders: the sorted items of a sequence keyed from `xs` are `xs`'s
      elements, each as often as in `xs`. */
  lemma SortDescPermutes<T>(s: seq<Keyed<T>>, xs: seq<T>)
    requires |s| == |xs| && forall i :: 0 <= i < |s| ==> s[i].item == xs[i]
    ensures multiset(Items(SortDesc(s))) == multiset(xs)
  {
    assert Items(s) == xs;
    ItemsPermutation(SortDesc(s), s);
  }
}
