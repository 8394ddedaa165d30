/** The order in which the writer emits controllers and actions
    (src/Folke.CsTsService/TypeScriptWriter.cs, `WriteAssembly` and `WriteActions`). Both use
    LINQ's `OrderBy(…)` and `ThenBy(…)`, which is a stable sort on a key. Here the key is a
    name and then a number. Names are compared ordinally, one character at a time. */
module Ordering {

  /** Ordinal order on strings: the first differing character decides, and a proper prefix
      comes first. */
  predicate StringLess(a: string, b: string)
  {
    if a == [] then b != []
    else if b == [] then false
    else if a[0] != b[0] then a[0] < b[0]
    else StringLess(a[1..], b[1..])
  }

  /** The ordinal order is a strict total order: irreflexive, asymmetric, and any two
      different strings are ordered one way or the other. */
  lemma {:induction false} StringLessTotal(a: string, b: string)
    ensures !StringLess(a, a)
    ensures StringLess(a, b) ==> !StringLess(b, a)
    ensures a != b ==> StringLess(a, b) || StringLess(b, a)
  {
    if a != [] {
      StringLessTotal(a[1..], a[1..]);
      if b != [] && a[0] == b[0] {
        StringLessTotal(a[1..], b[1..]);
        assert a == [a[0]] + a[1..] && b == [b[0]] + b[1..];
      }
    }
  }

  /** The ordinal order is transitive. */
  lemma {:induction false} StringLessTransitive(a: string, b: string, c: string)
    requires StringLess(a, b) && StringLess(b, c)
    ensures StringLess(a, c)
  {
    if a != [] && a[0] == b[0] && b[0] == c[0] {
      StringLessTransitive(a[1..], b[1..], c[1..]);
    }
  }

  /** The sort key: a name first, then a number. Controllers have the number 0. Actions
      have the number of their parameters. */
  datatype SortKey = SortKey(Name: string, Count: int)

  /** `OrderBy(Name).ThenBy(Count)`: by name, and by count among equal names. */
  predicate KeyLess(a: SortKey, b: SortKey)
  {
    StringLess(a.Name, b.Name) || (a.Name == b.Name && a.Count < b.Count)
  }

  /** Keys are strictly and totally ordered. */
  lemma KeyLessOrder(a: SortKey, b: SortKey, c: SortKey)
    ensures !KeyLess(a, a)
    ensures KeyLess(a, b) ==> !KeyLess(b, a)
    ensures a != b ==> KeyLess(a, b) || KeyLess(b, a)
    ensures KeyLess(a, b) && KeyLess(b, c) ==> KeyLess(a, c)
  {
    StringLessTotal(a.Name, b.Name);
    if StringLess(a.Name, b.Name) && StringLess(b.Name, c.Name) {
      StringLessTransitive(a.Name, b.Name, c.Name);
    }
  }

  /** Inserts `x` into `s` after every element whose key is not greater than its own. */
  function Insert<T>(x: T, s: seq<T>, key: T -> SortKey): seq<T>
  {
    if s == [] then [x]
    else if KeyLess(key(x), key(s[0])) then [x] + s
    else [s[0]] + Insert(x, s[1..], key)
  }

  /** The stable sort of `s` by `key`: insertion sort, each element placed after the
      elements before it whose key is not greater. */
  function SortBy<T>(s: seq<T>, key: T -> SortKey): seq<T>
  {
    if s == [] then [] else Insert(s[|s| - 1], SortBy(s[..|s| - 1], key), key)
  }

  /** No element has a smaller key than an element before it. */
  ghost predicate SortedBy<T>(s: seq<T>, key: T -> SortKey)
  {
    forall i, j :: 0 <= i < j < |s| ==> !KeyLess(key(s[j]), key(s[i]))
  }

  /** The elements of `s` whose key is `k`, in their order in `s`. */
  function WithKey<T>(s: seq<T>, key: T -> SortKey, k: SortKey): seq<T>
  {
    if s == [] then []
    else (if key(s[0]) == k then [s[0]] else []) + WithKey(s[1..], key, k)
  }

  /** The sort puts the elements in key order and keeps all of them. Among elements with
      equal keys it keeps their original order, which is what makes it stable. */
  lemma {:induction false} SortBySpec<T>(s: seq<T>, key: T -> SortKey)
    ensures SortedBy(SortBy(s, key), key)
    ensures multiset(SortBy(s, key)) == multiset(s)
    ensures forall k :: WithKey(SortBy(s, key), key, k) == WithKey(s, key, k)
  {
    if s != [] {
      var init, last := s[..|s| - 1], s[|s| - 1];
      SortBySpec(init, key);
      InsertSpec(last, SortBy(init, key), key);
      assert s == init + [last];
      forall k {
        WithKeySnoc(init, last, key, k);
      }
    }
  }

  /** Inserting into a sorted sequence keeps it sorted and adds exactly `x`. Among the
      elements with `x`'s key, `x` goes last. */
  lemma InsertSpec<T>(x: T, s: seq<T>, key: T -> SortKey)
    requires SortedBy(s, key)
    ensures SortedBy(Insert(x, s, key), key)
    ensures multiset(Insert(x, s, key)) == multiset(s) + multiset{x}
    ensures forall k :: WithKey(Insert(x, s, key), key, k) ==
                        WithKey(s, key, k) + (if key(x) == k then [x] else [])
  {
    InsertSorted(x, s, key);
    forall k {
      InsertWithKey(x, s, key, k);
    }
  }

  /** The elements of an insertion are those of `s` and `x`. */
  lemma {:induction false} InsertMultiset<T>(x: T, s: seq<T>, key: T -> SortKey)
    ensures multiset(Insert(x, s, key)) == multiset(s) + multiset{x}
  {
    if s != [] && !KeyLess(key(x), key(s[0])) {
      InsertMultiset(x, s[1..], key);
      assert s == [s[0]] + s[1..];
    }
  }

  /** The tail of a sorted sequence is sorted, and no element of it is smaller than its
      head. */
  lemma SortedTail<T>(s: seq<T>, key: T -> SortKey)
    requires SortedBy(s, key) && s != []
    ensures SortedBy(s[1..], key)
    ensures forall e :: e in s[1..] ==> !KeyLess(key(e), key(s[0]))
  {
    forall i, j | 0 <= i < j < |s[1..]| ensures !KeyLess(key(s[1..][j]), key(s[1..][i])) {
      assert s[1..][j] == s[j + 1] && s[1..][i] == s[i + 1];
    }
    forall e | e in s[1..] ensures !KeyLess(key(e), key(s[0])) {
      var m :| 0 <= m < |s[1..]| && s[1..][m] == e;
      assert s[m + 1] == e;
    }
  }

  /** Inserting into a sorted sequence keeps it sorted. */
  lemma {:induction false} InsertSorted<T>(x: T, s: seq<T>, key: T -> SortKey)
    requires SortedBy(s, key)
    ensures SortedBy(Insert(x, s, key), key)
    ensures multiset(Insert(x, s, key)) == multiset(s) + multiset{x}
  {
    InsertMultiset(x, s, key);
    if s == [] {
    } else if KeyLess(key(x), key(s[0])) {
      SortedFront(x, s, key);
    } else {
      SortedTail(s, key);
      InsertSorted(x, s[1..], key);
      SortedBehind(x, s, key);
    }
  }

  /** `x` goes in front of a sorted sequence whose head has a greater key. */
  lemma SortedFront<T>(x: T, s: seq<T>, key: T -> SortKey)
    requires SortedBy(s, key) && s != [] && KeyLess(key(x), key(s[0]))
    ensures SortedBy([x] + s, key)
  {
    var r := [x] + s;
    forall j | 0 < j < |r|
      ensures !KeyLess(key(r[j]), key(x))
    {
      KeyLessOrder(key(r[j]), key(x), key(s[0]));
      if j > 1 {
        assert !KeyLess(key(s[j - 1]), key(s[0]));
      }
    }
    forall i, j | 0 <= i < j < |r|
      ensures !KeyLess(key(r[j]), key(r[i]))
    {
      if i > 0 {
        assert r[i] == s[i - 1] && r[j] == s[j - 1];
      }
    }
  }

  /** The head of a sorted sequence stays in front of `x` inserted into its tail. */
  lemma SortedBehind<T>(x: T, s: seq<T>, key: T -> SortKey)
    requires SortedBy(s, key) && s != [] && !KeyLess(key(x), key(s[0]))
    requires forall e :: e in s[1..] ==> !KeyLess(key(e), key(s[0]))
    requires SortedBy(Insert(x, s[1..], key), key)
    requires multiset(Insert(x, s[1..], key)) == multiset(s[1..]) + multiset{x}
    ensures SortedBy([s[0]] + Insert(x, s[1..], key), key)
  {
    var rest := Insert(x, s[1..], key);
    forall j | 0 <= j < |rest|
      ensures !KeyLess(key(rest[j]), key(s[0]))
    {
      assert rest[j] in multiset(rest);
      if rest[j] != x {
        assert rest[j] in multiset(s[1..]);
      }
    }
    SortedCons(s[0], rest, key);
  }

  /** An element whose key is not above any key of a sorted sequence can head it. */
  lemma SortedCons<T>(h: T, rest: seq<T>, key: T -> SortKey)
    requires SortedBy(rest, key)
    requires forall j :: 0 <= j < |rest| ==> !KeyLess(key(rest[j]), key(h))
    ensures SortedBy([h] + rest, key)
  {
    var r := [h] + rest;
    forall i, j | 0 <= i < j < |r|
      ensures !KeyLess(key(r[j]), key(r[i]))
    {
      if i > 0 {
        assert r[i] == rest[i - 1] && r[j] == rest[j - 1];
      } else {
        assert r[j] == rest[j - 1];
      }
    }
  }

  /** Among the elements with `x`'s key, an inserted `x` goes last; the other keys keep
      their elements. */
  lemma {:induction false} InsertWithKey<T>(x: T, s: seq<T>, key: T -> SortKey, k: SortKey)
    requires SortedBy(s, key)
    ensures WithKey(Insert(x, s, key), key, k) == WithKey(s, key, k) + (if key(x) == k then [x] else [])
  {
    var picked := if key(x) == k then [x] else [];
    if s == [] {
      WithKeyCons(x, [], key, k);
    } else if KeyLess(key(x), key(s[0])) {
      WithKeyCons(x, s, key, k);
      if key(x) == k {
        FrontKeyAbsent(x, s, key);
      }
    } else {
      var rest := Insert(x, s[1..], key);
      SortedTail(s, key);
      InsertWithKey(x, s[1..], key, k);
      WithKeyCons(s[0], rest, key, k);
      WithKeyCons(s[0], s[1..], key, k);
      assert s == [s[0]] + s[1..];
      var head := if key(s[0]) == k then [s[0]] else [];
      ConcatAssoc(head, WithKey(s[1..], key, k), picked);
    }
  }

  /** Concatenation is associative. */
  lemma ConcatAssoc<T>(a: seq<T>, b: seq<T>, c: seq<T>)
    ensures a + (b + c) == a + b + c
  {
  }

  /** Picking the elements with key `k` of a sequence with a given head. */
  lemma WithKeyCons<T>(a: T, t: seq<T>, key: T -> SortKey, k: SortKey)
    ensures WithKey([a] + t, key, k) == (if key(a) == k then [a] else []) + WithKey(t, key, k)
  {
    assert ([a] + t)[1..] == t;
  }

  /** No element of a sorted sequence has the key of an element that goes in front of it. */
  lemma FrontKeyAbsent<T>(x: T, s: seq<T>, key: T -> SortKey)
    requires SortedBy(s, key) && s != [] && KeyLess(key(x), key(s[0]))
    ensures WithKey(s, key, key(x)) == []
  {
    forall e | e in s ensures key(e) != key(x) {
      var j :| 0 <= j < |s| && s[j] == e;
      KeyLessOrder(key(e), key(s[0]), key(s[0]));
      if j > 0 {
        assert !KeyLess(key(s[j]), key(s[0]));
      }
    }
    WithKeyNone(s, key, key(x));
  }

  /** No element with key `k` leaves nothing to pick. */
  lemma {:induction false} WithKeyNone<T>(s: seq<T>, key: T -> SortKey, k: SortKey)
    requires forall e :: e in s ==> key(e) != k
    ensures WithKey(s, key, k) == []
  {
    if s != [] {
      assert forall e :: e in s[1..] ==> e in s;
      WithKeyNone(s[1..], key, k);
    }
  }

  /** Picking the elements with key `k` commutes with appending one element. */
  lemma {:induction false} WithKeySnoc<T>(s: seq<T>, x: T, key: T -> SortKey, k: SortKey)
    ensures WithKey(s + [x], key, k) == WithKey(s, key, k) + (if key(x) == k then [x] else [])
  {
    if s != [] {
      WithKeySnoc(s[1..], x, key, k);
      assert (s + [x])[1..] == s[1..] + [x];
    }
  }
}
