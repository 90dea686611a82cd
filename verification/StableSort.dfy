/** Python's stable sort by a key of two strings, compared lexicographically. */
module StableSort {

  type Key = (string, string)

  predicate StringLess(a: string, b: string) {
    b != "" && (a == "" || a[0] < b[0] || (a[0] == b[0] && StringLess(a[1..], b[1..])))
  }

  predicate FirstDifference(a: string, b: string, i: nat) {
    i < |a| && i < |b| && a[..i] == b[..i] && a[i] < b[i]
  }

  /** The first difference decides; a beginning comes before what it begins. */
  lemma StringLessIff(a: string, b: string)
    ensures StringLess(a, b) <==> a < b || exists i: nat :: FirstDifference(a, b, i)
  {
    if StringLess(a, b) { LessShows(a, b); }
    if a < b { BeginningLess(a, b); }
    if i: nat :| FirstDifference(a, b, i) { DifferenceLess(a, b, i); }
  }

  lemma {:induction false} LessShows(a: string, b: string)
    requires StringLess(a, b)
    ensures a < b || exists i: nat :: FirstDifference(a, b, i)
  {
    if a != "" && a[0] == b[0] {
      LessShows(a[1..], b[1..]);
      assert a == [a[0]] + a[1..] && b == [b[0]] + b[1..];
      if i: nat :| FirstDifference(a[1..], b[1..], i) {
        assert a[..i + 1] == [a[0]] + a[1..][..i] == b[..i + 1];
        assert FirstDifference(a, b, i + 1);
      }
    } else if a != "" {
      assert FirstDifference(a, b, 0);
    }
  }

  lemma {:induction false} BeginningLess(a: string, b: string)
    requires a < b
    ensures StringLess(a, b)
  {
    if a != "" { BeginningLess(a[1..], b[1..]); }
  }

  lemma {:induction false} DifferenceLess(a: string, b: string, i: nat)
    requires FirstDifference(a, b, i)
    ensures StringLess(a, b)
  {
    if i > 0 {
      assert a[0] == a[..i][0] == b[..i][0] == b[0];
      assert a[1..][..i - 1] == a[..i][1..] == b[..i][1..] == b[1..][..i - 1];
      DifferenceLess(a[1..], b[1..], i - 1);
    }
  }

  predicate Less(a: Key, b: Key) {
    StringLess(a.0, b.0) || (a.0 == b.0 && StringLess(a.1, b.1))
  }

  lemma {:induction false} StringOrder(a: string, b: string, c: string)
    ensures !StringLess(a, a)
    ensures StringLess(a, b) || a == b || StringLess(b, a)
    ensures StringLess(a, b) && StringLess(b, c) ==> StringLess(a, c)
  {
    if a != "" {
      var b', c' := if b == "" then "" else b[1..], if c == "" then "" else c[1..];
      StringOrder(a[1..], b', c');
      if b != "" && a[0] == b[0] && a[1..] == b[1..] {
        assert a == [a[0]] + a[1..] == b;
      }
    }
  }

  /** A strict total order. */
  lemma Order(a: Key, b: Key, c: Key)
    ensures !Less(a, a)
    ensures Less(a, b) || a == b || Less(b, a)
    ensures Less(a, b) && Less(b, c) ==> Less(a, c)
    ensures !Less(b, a) && !Less(c, b) ==> !Less(c, a)
  {
    hide StringLess;
    StringOrder(a.0, b.0, c.0);
    StringOrder(a.1, b.1, c.1);
    StringOrder(c.0, b.0, a.0);
    StringOrder(c.1, b.1, a.1);
    StringOrder(c.0, a.0, b.0);
    StringOrder(c.1, a.1, b.1);
    StringOrder(b.0, c.0, a.0);
    StringOrder(b.1, c.1, a.1);
  }

  ghost predicate Ascending<T>(key: T -> Key, s: seq<T>) {
    forall i, j :: 0 <= i < j < |s| ==> !Less(key(s[j]), key(s[i]))
  }

  /** Put x behind everything that is not greater. */
  function Insert<T>(key: T -> Key, s: seq<T>, x: T): seq<T> {
    if s == [] then [x]
    else if Less(key(x), key(s[|s| - 1])) then Insert(key, s[..|s| - 1], x) + [s[|s| - 1]]
    else s + [x]
  }

  function Sort<T>(key: T -> Key, s: seq<T>): seq<T> {
    if s == [] then [] else Insert(key, Sort(key, s[..|s| - 1]), s[|s| - 1])
  }

  lemma {:induction false} InsertKeeps<T>(key: T -> Key, s: seq<T>, x: T)
    ensures multiset(Insert(key, s, x)) == multiset(s) + multiset{x}
  {
    if s != [] {
      assert s == s[..|s| - 1] + [s[|s| - 1]];
      InsertKeeps(key, s[..|s| - 1], x);
    }
  }

  lemma {:induction false} InsertAscending<T>(key: T -> Key, s: seq<T>, x: T)
    requires Ascending(key, s)
    ensures Ascending(key, Insert(key, s, x))
  {
    hide Less;
    if s != [] {
      var init, last := s[..|s| - 1], s[|s| - 1];
      if Less(key(x), key(last)) {
        InsertAscending(key, init, x);
        InsertKeeps(key, init, x);
        var t := Insert(key, init, x);
        forall i | 0 <= i < |t| ensures !Less(key(last), key(t[i])) {
          assert t[i] in multiset(t);
          Order(key(x), key(last), key(x));
          if t[i] != x {
            assert t[i] in multiset(init);
            assert t[i] in init;
          }
        }
      } else {
        forall i | 0 <= i < |s| ensures !Less(key(x), key(s[i])) {
          Order(key(s[i]), key(last), key(x));
        }
      }
    }
  }

  /** The result is a permutation in ascending order. */
  lemma {:induction false} SortCorrect<T>(key: T -> Key, s: seq<T>)
    ensures multiset(Sort(key, s)) == multiset(s)
    ensures Ascending(key, Sort(key, s))
  {
    if s != [] {
      var init := s[..|s| - 1];
      assert s == init + [s[|s| - 1]];
      SortCorrect(key, init);
      InsertKeeps(key, Sort(key, init), s[|s| - 1]);
      InsertAscending(key, Sort(key, init), s[|s| - 1]);
    }
  }

  /** Elements with the same key are the same element. */
  ghost predicate Determined<T>(key: T -> Key, s: seq<T>) {
    forall x, y :: x in s && y in s && key(x) == key(y) ==> x == y
  }

  /** There is only one ascending arrangement then. */
  lemma {:induction false} AscendingUnique<T>(key: T -> Key, a: seq<T>, b: seq<T>)
    requires Ascending(key, a) && Ascending(key, b) && multiset(a) == multiset(b)
    requires Determined(key, a)
    ensures a == b
  {
    hide *;
    SameLength(a, b);
    if a != [] {
      SameHead(key, a, b);
      TailMultiset(a);
      TailMultiset(b);
      TailFits(key, a);
      TailFits(key, b);
      AscendingUnique(key, a[1..], b[1..]);
      assert a == [a[0]] + a[1..] && b == [b[0]] + b[1..];
    }
  }

  lemma SameLength<T>(a: seq<T>, b: seq<T>)
    requires multiset(a) == multiset(b)
    ensures |a| == |b|
  {
    assert |multiset(a)| == |a| && |multiset(b)| == |b|;
  }

  lemma TailMultiset<T>(a: seq<T>)
    requires a != []
    ensures multiset(a[1..]) == multiset(a) - multiset{a[0]}
  {
    assert a == [a[0]] + a[1..];
  }

  lemma TailFits<T>(key: T -> Key, a: seq<T>)
    requires a != [] && Ascending(key, a)
    ensures Ascending(key, a[1..]) && (Determined(key, a) ==> Determined(key, a[1..]))
  {
    hide Less;
    assert forall x :: x in a[1..] ==> x in a;
  }

  lemma SameHead<T>(key: T -> Key, a: seq<T>, b: seq<T>)
    requires Ascending(key, a) && Ascending(key, b) && multiset(a) == multiset(b)
    requires Determined(key, a) && a != [] && b != []
    ensures a[0] == b[0]
  {
    hide Less;
    SameMembers(a, b);
    assert b[0] in b && a[0] in a;
    var i :| 0 <= i < |a| && a[i] == b[0];
    var j :| 0 <= j < |b| && b[j] == a[0];
    Order(key(a[0]), key(b[0]), key(a[0]));
  }

  /** Where equal keys mean equal elements, sorting forgets the original order. */
  lemma SortForgetsOrder<T>(key: T -> Key, s: seq<T>, t: seq<T>)
    requires multiset(s) == multiset(t) && Determined(key, s)
    ensures Sort(key, s) == Sort(key, t)
  {
    SortCorrect(key, s);
    SortCorrect(key, t);
    hide *;
    DeterminedAlike(key, s, Sort(key, s));
    AscendingUnique(key, Sort(key, s), Sort(key, t));
  }

  lemma DeterminedAlike<T>(key: T -> Key, s: seq<T>, t: seq<T>)
    requires multiset(s) == multiset(t) && Determined(key, s)
    ensures Determined(key, t)
  {
    SameMembers(s, t);
  }

  lemma SameMembers<T>(s: seq<T>, t: seq<T>)
    requires multiset(s) == multiset(t)
    ensures forall x :: x in s <==> x in t
  {
    forall x ensures x in s <==> x in t {
      assert x in s <==> x in multiset(s);
      assert x in t <==> x in multiset(t);
    }
  }

  // ----- Stability -----

  /** The elements with a given key, in order. */
  function Alike<T>(key: T -> Key, s: seq<T>, k: Key): seq<T> {
    if s == [] then [] else
    Alike(key, s[..|s| - 1], k) + (if key(s[|s| - 1]) == k then [s[|s| - 1]] else [])
  }

  lemma AlikeStep<T>(key: T -> Key, s: seq<T>, x: T, k: Key)
    ensures Alike(key, s + [x], k) == Alike(key, s, k) + (if key(x) == k then [x] else [])
  {
    assert (s + [x])[..|s + [x]| - 1] == s;
  }

  lemma {:induction false} AlikeConcat<T>(key: T -> Key, a: seq<T>, b: seq<T>, k: Key)
    ensures Alike(key, a + b, k) == Alike(key, a, k) + Alike(key, b, k)
  {
    if b == [] {
      assert a + b == a;
    } else {
      var init, last := b[..|b| - 1], b[|b| - 1];
      AlikeConcat(key, a, init, k);
      AlikeStep(key, a + init, last, k);
      assert a + b == a + init + [last];
    }
  }

  lemma {:induction false} InsertStable<T>(key: T -> Key, s: seq<T>, x: T, k: Key)
    ensures Alike(key, Insert(key, s, x), k) == Alike(key, s + [x], k)
  {
    if s != [] && Less(key(x), key(s[|s| - 1])) {
      var init, last := s[..|s| - 1], s[|s| - 1];
      InsertStable(key, init, x, k);
      AlikeStep(key, Insert(key, init, x), last, k);
      AlikeStep(key, init, x, k);
      AlikeStep(key, s, x, k);
      Order(key(x), key(x), key(x));
    }
  }

  /** Elements with equal keys keep their order. */
  lemma {:induction false} SortStable<T>(key: T -> Key, s: seq<T>, k: Key)
    ensures Alike(key, Sort(key, s), k) == Alike(key, s, k)
  {
    if s != [] {
      var init, last := s[..|s| - 1], s[|s| - 1];
      SortStable(key, init, k);
      InsertStable(key, Sort(key, init), last, k);
      AlikeStep(key, Sort(key, init), last, k);
    }
  }
}
