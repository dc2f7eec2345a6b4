/** The library sort the program relies on, and why its result is determined by the elements alone. */
module Sorting {
  ghost predicate TotalOrder<T(!new)>(le: (T, T) -> bool) {
    && (forall a, b :: le(a, b) || le(b, a))
    && (forall a, b :: le(a, b) && le(b, a) ==> a == b)
    && (forall a, b, c :: le(a, b) && le(b, c) ==> le(a, c))
  }

  ghost predicate SortedBy<T>(s: seq<T>, le: (T, T) -> bool) {
    forall i, j :: 0 <= i < j < |s| ==> le(s[i], s[j])
  }

  function InsertBy<T>(s: seq<T>, x: T, le: (T, T) -> bool): seq<T> {
    if s == [] || le(x, s[0]) then [x] + s else [s[0]] + InsertBy(s[1..], x, le)
  }

  function SortBy<T>(s: seq<T>, le: (T, T) -> bool): seq<T> {
    if s == [] then [] else InsertBy(SortBy(s[1..], le), s[0], le)
  }

  lemma {:induction false} InsertByKeeps<T(!new)>(s: seq<T>, x: T, le: (T, T) -> bool)
    ensures multiset(InsertBy(s, x, le)) == multiset(s) + multiset{x}
  {
    if s != [] && !le(x, s[0]) {
      InsertByKeeps(s[1..], x, le);
      assert s == [s[0]] + s[1..];
    }
  }

  lemma {:induction false} InsertBySorts<T(!new)>(s: seq<T>, x: T, le: (T, T) -> bool)
    requires TotalOrder(le) && SortedBy(s, le)
    ensures SortedBy(InsertBy(s, x, le), le) && multiset(InsertBy(s, x, le)) == multiset(s) + multiset{x}
  {
    InsertByKeeps(s, x, le);
    if s != [] && !le(x, s[0]) {
      var rest := InsertBy(s[1..], x, le);
      InsertBySorts(s[1..], x, le);
      forall j | 0 <= j < |rest| ensures le(s[0], rest[j]) {
        assert rest[j] in multiset(rest);
        assert rest[j] == x || rest[j] in s[1..];
      }
      assert InsertBy(s, x, le) == [s[0]] + rest;
    } else if s != [] {
      forall j | 0 <= j < |s| ensures le(x, s[j]) {
      }
    }
  }

  lemma {:induction false} SortBySorts<T(!new)>(s: seq<T>, le: (T, T) -> bool)
    requires TotalOrder(le)
    ensures SortedBy(SortBy(s, le), le) && multiset(SortBy(s, le)) == multiset(s)
  {
    if s != [] {
      SortBySorts(s[1..], le);
      InsertBySorts(SortBy(s[1..], le), s[0], le);
      assert s == [s[0]] + s[1..];
    }
  }

  lemma {:induction false} SortKeeps<T(!new)>(s: seq<T>, le: (T, T) -> bool)
    ensures multiset(SortBy(s, le)) == multiset(s)
  {
    if s != [] {
      SortKeeps(s[1..], le);
      InsertByKeeps(SortBy(s[1..], le), s[0], le);
      assert s == [s[0]] + s[1..];
    }
  }

  // ----- sorting forgets the order of its input -----

  lemma {:induction false} InsertionsCommute<T(!new)>(s: seq<T>, x: T, y: T, le: (T, T) -> bool)
    requires TotalOrder(le)
    ensures InsertBy(InsertBy(s, x, le), y, le) == InsertBy(InsertBy(s, y, le), x, le)
  {
    if le(x, y) && le(y, x) {
      assert x == y;
    } else if s != [] && !le(x, s[0]) && !le(y, s[0]) {
      InsertionsCommute(s[1..], x, y, le);
      InsertBehind(s[0], InsertBy(s[1..], x, le), y, le);
      InsertBehind(s[0], InsertBy(s[1..], y, le), x, le);
    } else {
      InsertFirst(s, x, y, le);
      InsertFirst(s, y, x, le);
    }
  }

  lemma {:induction false} InsertBehind<T(!new)>(first: T, s: seq<T>, x: T, le: (T, T) -> bool)
    requires !le(x, first)
    ensures InsertBy([first] + s, x, le) == [first] + InsertBy(s, x, le)
  {
    assert ([first] + s)[1..] == s;
  }

  /** When `x` comes before `y` and one of them before all of `s`, `x` comes first. */
  lemma {:induction false} InsertFirst<T(!new)>(s: seq<T>, x: T, y: T, le: (T, T) -> bool)
    requires TotalOrder(le) && (s == [] || le(x, s[0]) || le(y, s[0]))
    ensures le(x, y) && !le(y, x) ==> InsertBy(InsertBy(s, x, le), y, le) == [x] + InsertBy(s, y, le)
    ensures le(x, y) && !le(y, x) ==> InsertBy(InsertBy(s, y, le), x, le) == [x] + InsertBy(s, y, le)
  {
    if le(x, y) && !le(y, x) {
      assert s != [] ==> le(x, s[0]);
      InsertBehind(x, s, y, le);
    }
  }

  /** An element can be sorted in last wherever it stands. */
  lemma {:induction false} SortInLast<T(!new)>(a: seq<T>, x: T, b: seq<T>, le: (T, T) -> bool)
    requires TotalOrder(le)
    ensures SortBy(a + [x] + b, le) == InsertBy(SortBy(a + b, le), x, le)
  {
    if a == [] {
      assert ([] + [x] + b)[1..] == b && [] + b == b;
    } else {
      SortInLast(a[1..], x, b, le);
      assert (a + [x] + b)[1..] == a[1..] + [x] + b && (a + b)[1..] == a[1..] + b;
      InsertionsCommute(SortBy(a[1..] + b, le), x, a[0], le);
    }
  }

  lemma {:induction false} SortForgetsOrder<T(!new)>(s: seq<T>, t: seq<T>, le: (T, T) -> bool)
    requires TotalOrder(le) && multiset(s) == multiset(t)
    ensures SortBy(s, le) == SortBy(t, le)
  {
    if s == [] {
      assert |multiset(t)| == 0;
    } else {
      var a, b := TakeOut(s, t);
      SortForgetsOrder(s[1..], a + b, le);
      SortInLast(a, s[0], b, le);
    }
  }

  lemma {:induction false} SortedStays<T(!new)>(s: seq<T>, le: (T, T) -> bool)
    requires SortedBy(s, le)
    ensures SortBy(s, le) == s
  {
    if s != [] {
      SortedStays(s[1..], le);
      assert |s| > 1 ==> le(s[0], s[1..][0]);
      assert s == [s[0]] + s[1..];
    }
  }

  /** So any correct sort of the same elements computes the same result. */
  lemma {:induction false} AnySortAgrees<T(!new)>(s: seq<T>, t: seq<T>, le: (T, T) -> bool)
    requires TotalOrder(le) && SortedBy(s, le) && SortedBy(t, le) && multiset(s) == multiset(t)
    ensures s == t
  {
    SortForgetsOrder(s, t, le);
    SortedStays(s, le);
    SortedStays(t, le);
  }

  function Map<T, U>(f: T -> U, s: seq<T>): (r: seq<U>)
    ensures |r| == |s| && forall i :: 0 <= i < |s| ==> r[i] == f(s[i])
  {
    if s == [] then [] else [f(s[0])] + Map(f, s[1..])
  }

  lemma {:induction false} InsertByMaps<T(!new), U>(s: seq<T>, x: T, le: (T, T) -> bool, f: T -> U, le': (U, U) -> bool)
    requires forall a, b :: le(a, b) == le'(f(a), f(b))
    ensures Map(f, InsertBy(s, x, le)) == InsertBy(Map(f, s), f(x), le')
  {
    if s != [] && !le(x, s[0]) {
      InsertByMaps(s[1..], x, le, f, le');
    }
  }

  /** Sorting by a key and then taking the keys is sorting the keys. */
  lemma {:induction false} SortByMaps<T(!new), U>(s: seq<T>, le: (T, T) -> bool, f: T -> U, le': (U, U) -> bool)
    requires forall a, b :: le(a, b) == le'(f(a), f(b))
    ensures Map(f, SortBy(s, le)) == SortBy(Map(f, s), le')
  {
    if s != [] {
      SortByMaps(s[1..], le, f, le');
      InsertByMaps(SortBy(s[1..], le), s[0], le, f, le');
    }
  }

  lemma {:induction false} MapConcat<T, U>(f: T -> U, s: seq<T>, t: seq<T>)
    ensures Map(f, s + t) == Map(f, s) + Map(f, t)
  {
  }

  lemma {:induction false} CutOut<T>(t: seq<T>, i: nat)
    requires i < |t|
    ensures t == t[..i] + [t[i]] + t[i + 1..]
    ensures multiset(t) == multiset(t[..i] + t[i + 1..]) + multiset{t[i]}
  {
    assert t == t[..i] + [t[i]] + t[i + 1..];
  }

  lemma {:induction false} TakeOut<T>(s: seq<T>, t: seq<T>) returns (a: seq<T>, b: seq<T>)
    requires multiset(s) == multiset(t) && s != []
    ensures t == a + [s[0]] + b && multiset(s[1..]) == multiset(a + b)
  {
    assert s[0] in multiset(t);
    var i :| 0 <= i < |t| && t[i] == s[0];
    a, b := t[..i], t[i + 1..];
    CutOut(t, i);
    CutOut(s, 0);
    assert s[..0] + s[1..] == s[1..];
    Cancel(multiset(s[1..]), multiset(a + b), multiset{s[0]});
  }

  lemma {:induction false} Cancel<T>(x: multiset<T>, y: multiset<T>, e: multiset<T>)
    requires x + e == y + e
    ensures x == y
  {
    assert x == (x + e) - e && y == (y + e) - e;
  }

  lemma {:induction false} MapMultiset<T, U>(f: T -> U, s: seq<T>, t: seq<T>)
    requires multiset(s) == multiset(t)
    ensures multiset(Map(f, s)) == multiset(Map(f, t))
  {
    if s == [] {
      assert |multiset(t)| == 0;
    } else {
      var a, b := TakeOut(s, t);
      MapMultiset(f, s[1..], a + b);
      MapConcat(f, a, b);
      MapConcat(f, a + [s[0]], b);
      MapConcat(f, a, [s[0]]);
      assert Map(f, [s[0]]) == [f(s[0])];
    }
  }

  // ----- counting -----

  function Count<T>(s: seq<T>, p: T -> bool): nat {
    if s == [] then 0 else (if p(s[0]) then 1 else 0) + Count(s[1..], p)
  }

  lemma {:induction false} CountInsert<T>(s: seq<T>, x: T, le: (T, T) -> bool, p: T -> bool)
    ensures Count(InsertBy(s, x, le), p) == Count(s, p) + if p(x) then 1 else 0
  {
    if s != [] && !le(x, s[0]) {
      CountInsert(s[1..], x, le, p);
    }
  }

  lemma {:induction false} CountSorted<T>(s: seq<T>, le: (T, T) -> bool, p: T -> bool)
    ensures Count(SortBy(s, le), p) == Count(s, p)
  {
    if s != [] {
      CountSorted(s[1..], le, p);
      CountInsert(SortBy(s[1..], le), s[0], le, p);
    }
  }

  /** In a sorted sequence the elements of a downward closed predicate are a prefix, as long as their count. */
  lemma {:induction false} CountIsPrefix<T(!new)>(s: seq<T>, le: (T, T) -> bool, p: T -> bool, x: nat)
    requires SortedBy(s, le) && x < |s|
    requires forall a, b :: le(a, b) && p(b) ==> p(a)
    ensures p(s[x]) <==> x < Count(s, p)
  {
    if x == 0 {
      if !p(s[0]) { NoneCounted(s[1..], p, s[0], le); }
    } else {
      CountIsPrefix(s[1..], le, p, x - 1);
      assert le(s[0], s[x]);
      if !p(s[0]) { NoneCounted(s[1..], p, s[0], le); }
    }
  }

  lemma {:induction false} NoneCounted<T(!new)>(s: seq<T>, p: T -> bool, least: T, le: (T, T) -> bool)
    requires !p(least) && forall i :: 0 <= i < |s| ==> le(least, s[i])
    requires forall a, b :: le(a, b) && p(b) ==> p(a)
    ensures Count(s, p) == 0
  {
    if s != [] {
      NoneCounted(s[1..], p, least, le);
    }
  }

  lemma {:induction false} CountDrops<T>(s: seq<T>, t: seq<T>, p: T -> bool)
    requires |s| == |t| && forall i :: 0 <= i < |s| ==> p(t[i]) ==> p(s[i])
    ensures Count(t, p) <= Count(s, p)
    ensures (exists i :: 0 <= i < |s| && p(s[i]) && !p(t[i])) ==> Count(t, p) < Count(s, p)
  {
    if s != [] {
      CountDrops(s[1..], t[1..], p);
      if exists i :: 0 <= i < |s| && p(s[i]) && !p(t[i]) {
        var i :| 0 <= i < |s| && p(s[i]) && !p(t[i]);
        if i > 0 { assert s[1..][i - 1] == s[i] && t[1..][i - 1] == t[i]; }
      }
    }
  }
}
