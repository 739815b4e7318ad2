/** Python's `sorted` and `list.sort`: ascending by key, elements with equal keys keep their order.
    `reverse=True` keeps that order as well, so it is the same sort on the negated key.
    The last lemma pins the result down: a sorted sequence is determined by its equal-key classes. */
module StableSort {
  import opened Common

  ghost predicate Sorted<T(!new)>(key: T -> real, s: seq<T>) {
    forall i, j :: 0 <= i < j < |s| ==> key(s[i]) <= key(s[j])
  }

  function Insert<T>(key: T -> real, x: T, s: seq<T>): (r: seq<T>)
    ensures |r| == |s| + 1
  {
    if s == [] || key(x) <= key(s[0]) then [x] + s else [s[0]] + Insert(key, x, s[1..])
  }

  function Sort<T>(key: T -> real, s: seq<T>): (r: seq<T>)
    ensures |r| == |s|
  {
    if s == [] then [] else Insert(key, s[0], Sort(key, s[1..]))
  }

  /** The elements satisfying p, in order. */
  function Keep<T>(p: T -> bool, s: seq<T>): seq<T> {
    if s == [] then [] else (if p(s[0]) then [s[0]] else []) + Keep(p, s[1..])
  }

  /** The elements whose key is k, in order. */
  function ClassOf<T>(key: T -> real, k: real, s: seq<T>): seq<T> {
    if s == [] then [] else (if key(s[0]) == k then [s[0]] else []) + ClassOf(key, k, s[1..])
  }

  lemma {:induction false} KeepMembers<T>(p: T -> bool, s: seq<T>)
    ensures forall x :: x in Keep(p, s) <==> x in s && p(x)
  {
    if s != [] {
      KeepMembers(p, s[1..]);
      assert forall x :: x in s <==> x == s[0] || x in s[1..];
    }
  }

  lemma {:induction false} KeepOneMore<T>(p: T -> bool, s: seq<T>, x: T)
    ensures Keep(p, s + [x]) == Keep(p, s) + if p(x) then [x] else []
  {
    if s == [] {
      assert s + [x] == [x] && [x][1..] == [];
    } else {
      var t := s[1..];
      KeepOneMore(p, t, x);
      ConsSnoc(s, x);
      var head, last := if p(s[0]) then [s[0]] else [], if p(x) then [x] else [];
      Regroup(head, Keep(p, t), last);
    }
  }

  lemma {:induction false} InsertElements<T>(key: T -> real, x: T, s: seq<T>)
    ensures multiset(Insert(key, x, s)) == multiset(s) + multiset{x}
  {
    if s == [] || key(x) <= key(s[0]) {
    } else {
      InsertElements(key, x, s[1..]);
      assert s == [s[0]] + s[1..];
    }
  }

  lemma {:induction false} SortPermutes<T>(key: T -> real, s: seq<T>)
    ensures multiset(Sort(key, s)) == multiset(s)
  {
    if s != [] {
      SortPermutes(key, s[1..]);
      InsertElements(key, s[0], Sort(key, s[1..]));
      assert s == [s[0]] + s[1..];
    }
  }

  lemma SortMembers<T>(key: T -> real, s: seq<T>)
    ensures forall x :: x in Sort(key, s) <==> x in s
  {
    SortPermutes(key, s);
    forall x ensures x in Sort(key, s) <==> x in s {
      assert x in multiset(Sort(key, s)) <==> x in multiset(s);
    }
  }

  lemma {:induction false} InsertSorted<T(!new)>(key: T -> real, x: T, s: seq<T>)
    requires Sorted(key, s)
    ensures Sorted(key, Insert(key, x, s))
  {
    if s == [] || key(x) <= key(s[0]) {
    } else {
      InsertSorted(key, x, s[1..]);
      var r := Insert(key, x, s[1..]);
      InsertElements(key, x, s[1..]);
      forall j | 0 <= j < |r| ensures key(s[0]) <= key(r[j]) {
        assert r[j] in multiset(r);
        assert r[j] == x || r[j] in s[1..];
      }
    }
  }

  lemma {:induction false} SortSorted<T(!new)>(key: T -> real, s: seq<T>)
    ensures Sorted(key, Sort(key, s))
  {
    if s != [] {
      SortSorted(key, s[1..]);
      InsertSorted(key, s[0], Sort(key, s[1..]));
    }
  }

  lemma ClassOfCons<T>(key: T -> real, x: T, s: seq<T>, k: real)
    ensures ClassOf(key, k, [x] + s) == (if key(x) == k then [x] else []) + ClassOf(key, k, s)
  {
    assert ([x] + s)[1..] == s;
  }

  lemma {:induction false} InsertStable<T>(key: T -> real, x: T, s: seq<T>, k: real)
    ensures ClassOf(key, k, Insert(key, x, s)) == (if key(x) == k then [x] else []) + ClassOf(key, k, s)
  {
    if s == [] || key(x) <= key(s[0]) {
      ClassOfCons(key, x, s, k);
    } else {
      var rest := ClassOf(key, k, s[1..]);
      InsertStable(key, x, s[1..], k);
      ClassOfCons(key, s[0], Insert(key, x, s[1..]), k);
      assert key(x) == k ==> key(s[0]) != k;
      assert [] + rest == rest && [] + ([x] + rest) == [x] + rest;
      assert [s[0]] + ([] + rest) == [] + ([s[0]] + rest);
    }
  }

  lemma {:induction false} SortStable<T>(key: T -> real, s: seq<T>, k: real)
    ensures ClassOf(key, k, Sort(key, s)) == ClassOf(key, k, s)
  {
    if s != [] {
      SortStable(key, s[1..], k);
      InsertStable(key, s[0], Sort(key, s[1..]), k);
    }
  }

  lemma {:induction false} ClassMember<T>(key: T -> real, k: real, s: seq<T>, i: nat)
    requires i < |s| && key(s[i]) == k
    ensures ClassOf(key, k, s) != []
  {
    if i > 0 {
      ClassMember(key, k, s[1..], i - 1);
    }
  }

  lemma {:induction false} ClassWitness<T>(key: T -> real, k: real, s: seq<T>) returns (i: nat)
    requires ClassOf(key, k, s) != []
    ensures i < |s| && key(s[i]) == k && ClassOf(key, k, s)[0] == s[i]
  {
    if key(s[0]) == k {
      i := 0;
    } else {
      var j := ClassWitness(key, k, s[1..]);
      i := j + 1;
    }
  }

  /** A sorted sequence starts with the first element of its lowest class, so equal classes give equal heads. */
  lemma ClassesDetermineHead<T(!new)>(key: T -> real, a: seq<T>, b: seq<T>)
    requires Sorted(key, a) && Sorted(key, b) && a != []
    requires forall k :: ClassOf(key, k, a) == ClassOf(key, k, b)
    ensures b != [] && a[0] == b[0]
  {
    ClassMember(key, key(a[0]), a, 0);
    assert ClassOf(key, key(a[0]), a) == ClassOf(key, key(a[0]), b);
    var i := ClassWitness(key, key(a[0]), b);
    ClassMember(key, key(b[0]), b, 0);
    assert ClassOf(key, key(b[0]), a) == ClassOf(key, key(b[0]), b);
    var j := ClassWitness(key, key(b[0]), a);
    assert key(a[0]) <= key(a[j]) && key(b[0]) <= key(b[i]);
  }

  lemma ClassOfTail<T>(key: T -> real, s: seq<T>, k: real)
    requires s != []
    ensures ClassOf(key, k, s[1..]) == if key(s[0]) == k then ClassOf(key, k, s)[1..] else ClassOf(key, k, s)
  {
    assert ([s[0]] + ClassOf(key, k, s[1..]))[1..] == ClassOf(key, k, s[1..]);
    assert [] + ClassOf(key, k, s[1..]) == ClassOf(key, k, s[1..]);
  }

  /** Two sorted sequences with the same equal-key classes are the same sequence. */
  lemma {:induction false} SortedUnique<T(!new)>(key: T -> real, a: seq<T>, b: seq<T>)
    requires Sorted(key, a) && Sorted(key, b)
    requires forall k :: ClassOf(key, k, a) == ClassOf(key, k, b)
    ensures a == b
    decreases |a|
  {
    if a == [] {
      if b != [] {
        ClassesDetermineHead(key, b, a);
      }
    } else {
      ClassesDetermineHead(key, a, b);
      forall k ensures ClassOf(key, k, a[1..]) == ClassOf(key, k, b[1..]) {
        ClassOfTail(key, a, k);
        ClassOfTail(key, b, k);
        assert ClassOf(key, k, a) == ClassOf(key, k, b);
      }
      SortedUnique(key, a[1..], b[1..]);
      assert a == [a[0]] + a[1..] && b == [b[0]] + b[1..];
    }
  }

  lemma {:induction false} KeepClass<T>(p: T -> bool, key: T -> real, k: real, s: seq<T>)
    ensures ClassOf(key, k, Keep(p, s)) == Keep(p, ClassOf(key, k, s))
  {
    if s != [] {
      KeepClass(p, key, k, s[1..]);
      var rest := Keep(p, s[1..]);
      var cls := ClassOf(key, k, s[1..]);
      assert ([s[0]] + rest)[1..] == rest;
      assert ([s[0]] + cls)[1..] == cls;
      assert [] + rest == rest && [] + cls == cls;
    }
  }

  /** Sorting, then filtering and sorting by another key that orders equal elements alike,
      forgets the first sort. */
  lemma SortKeepSort<T(!new)>(first: T -> real, then': T -> real, p: T -> bool, s: seq<T>)
    requires forall x, y :: then'(x) == then'(y) ==> first(x) == first(y)
    ensures Sort(then', Keep(p, Sort(first, s))) == Sort(then', Keep(p, s))
  {
    var a, b := Sort(then', Keep(p, Sort(first, s))), Sort(then', Keep(p, s));
    SortSorted(then', Keep(p, Sort(first, s)));
    SortSorted(then', Keep(p, s));
    forall k ensures ClassOf(then', k, a) == ClassOf(then', k, b) {
      SortStable(then', Keep(p, Sort(first, s)), k);
      SortStable(then', Keep(p, s), k);
      KeepClass(p, then', k, Sort(first, s));
      KeepClass(p, then', k, s);
      FinerClass(first, then', k, s);
    }
    SortedUnique(then', a, b);
  }

  lemma FinerClass<T(!new)>(first: T -> real, then': T -> real, k: real, s: seq<T>)
    requires forall x, y :: then'(x) == then'(y) ==> first(x) == first(y)
    ensures ClassOf(then', k, Sort(first, s)) == ClassOf(then', k, s)
  {
    if w :| 0 <= w < |s| && then'(s[w]) == k {
      var f := first(s[w]);
      SubClass(first, then', f, k, s, s[w]);
      SubClass(first, then', f, k, Sort(first, s), s[w]);
      SortStable(first, s, f);
    } else {
      SortMembers(first, s);
      NoClass(then', k, s);
      NoClass(then', k, Sort(first, s));
    }
  }

  lemma {:induction false} SubClass<T(!new)>(first: T -> real, then': T -> real, f: real, k: real, s: seq<T>, w: T)
    requires forall x, y :: then'(x) == then'(y) ==> first(x) == first(y)
    requires then'(w) == k && first(w) == f
    ensures ClassOf(then', k, s) == ClassOf(then', k, ClassOf(first, f, s))
  {
    if s != [] {
      SubClass(first, then', f, k, s[1..], w);
      var c := ClassOf(first, f, s[1..]);
      assert ([s[0]] + c)[1..] == c;
      assert [] + c == c;
      assert then'(s[0]) == k ==> then'(s[0]) == then'(w);
    }
  }

  lemma {:induction false} NoClass<T>(key: T -> real, k: real, s: seq<T>)
    requires forall x :: x in s ==> key(x) != k
    ensures ClassOf(key, k, s) == []
  {
    if s != [] {
      assert s[0] in s;
      NoClass(key, k, s[1..]);
    }
  }

  lemma SortIdempotent<T(!new)>(key: T -> real, s: seq<T>)
    ensures Sort(key, Sort(key, s)) == Sort(key, s)
  {
    SortedIsFixed(key, Sort(key, s)) by {
      SortSorted(key, s);
    }
  }

  lemma SortedIsFixed<T(!new)>(key: T -> real, s: seq<T>)
    requires Sorted(key, s)
    ensures Sort(key, s) == s
  {
    SortSorted(key, s);
    forall k ensures ClassOf(key, k, Sort(key, s)) == ClassOf(key, k, s) {
      SortStable(key, s, k);
    }
    SortedUnique(key, Sort(key, s), s);
  }

  lemma TwiceInMultiset<T>(s: seq<T>, i: nat, j: nat)
    requires i < j < |s| && s[i] == s[j]
    ensures multiset(s)[s[i]] >= 2
  {
    assert s == s[..j] + [s[j]] + s[j + 1..];
    assert s[i] in s[..j];
  }

  lemma {:induction false} OnceInMultiset<T>(s: seq<T>, x: T)
    requires forall i, j :: 0 <= i < j < |s| ==> s[i] != s[j]
    ensures multiset(s)[x] <= 1
  {
    if s != [] {
      var m := |s| - 1;
      OnceInMultiset(s[..m], x);
      assert s == s[..m] + [s[m]];
    }
  }
}
