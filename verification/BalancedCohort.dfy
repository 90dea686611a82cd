/** The balanced image cohort (scripts/full_pipeline_smoke.py, `_gather_image_paths`).

    Files are dealt into one bucket per class and picked round-robin until the limit.  A pick
    is a class and a position in its bucket; `Picks` lists all of them in round-robin order,
    and what is selected is a prefix of that list. */
module BalancedCohort {
  import opened Basics

  type Pick = (nat, nat)  // class, position in its bucket

  function Longest(b: seq<seq<string>>): (n: nat)
    ensures forall j :: 0 <= j < |b| ==> |b[j]| <= n
  {
    if b == [] then 0 else
    var n := Longest(b[..|b| - 1]);
    if |b[|b| - 1]| > n then |b[|b| - 1]| else n
  }

  /** The picks from class i of round r on. */
  function Picks(b: seq<seq<string>>, r: nat, i: nat): (s: seq<Pick>)
    requires i <= |b|
    ensures forall k :: 0 <= k < |s| ==> s[k].0 < |b| && s[k].1 < |b[s[k].0]|
    decreases if r <= Longest(b) then Longest(b) - r else 0, |b| - i
  {
    if i == |b| then
      if r < Longest(b) then Picks(b, r + 1, 0) else []
    else if r < |b[i]| then
      [(i, r)] + Picks(b, r, i + 1)
    else
      Picks(b, r, i + 1)
  }

  function Min(a: int, b: int): int { if a < b then a else b }

  /** How many files of class j have been picked when class i of round r is next. */
  function Level(b: seq<seq<string>>, r: nat, i: nat, j: nat): nat
    requires j < |b|
  {
    Min(|b[j]|, r + if j < i then 1 else 0)
  }

  /** The positions picked from class j, in order. */
  function Of(s: seq<Pick>, j: nat): seq<nat> {
    if s == [] then []
    else if s[0].0 == j then [s[0].1] + Of(s[1..], j)
    else Of(s[1..], j)
  }

  function Range(lo: nat, hi: nat): (s: seq<nat>)
    requires lo <= hi
    ensures |s| == hi - lo && forall k :: 0 <= k < |s| ==> s[k] == lo + k
    decreases hi - lo
  {
    if lo == hi then [] else [lo] + Range(lo + 1, hi)
  }

  lemma OfCons(p: Pick, rest: seq<Pick>, j: nat)
    ensures Of([p] + rest, j) == (if p.0 == j then [p.1] else []) + Of(rest, j)
  {
    assert ([p] + rest)[1..] == rest;
  }

  lemma RangeCons(lo: nat, hi: nat)
    requires lo < hi
    ensures Range(lo, hi) == [lo] + Range(lo + 1, hi)
  {}

  lemma TakePick(b: seq<seq<string>>, r: nat, i: nat, j: nat, rest: seq<Pick>, upto: nat)
    requires i < |b| && j < |b| && r < |b[i]|
    requires Level(b, r, i + 1, j) <= upto && Of(rest, j) == Range(Level(b, r, i + 1, j), upto)
    ensures Level(b, r, i, j) <= upto && Of([(i, r)] + rest, j) == Range(Level(b, r, i, j), upto)
  {
    OfCons((i, r), rest, j);
    if j == i { RangeCons(r, upto); }
  }

  /** After any number of picks the round-robin stands at some class of some round, and has
      taken from every class exactly the files that lie before that point. */
  lemma {:induction false} Progress(b: seq<seq<string>>, r: nat, i: nat, n: nat) returns (r': nat, i': nat)
    requires i <= |b| && n <= |Picks(b, r, i)|
    ensures i' <= |b|
    ensures forall j :: 0 <= j < |b| ==>
              && Level(b, r, i, j) <= Level(b, r', i', j)
              && Of(Picks(b, r, i)[..n], j) == Range(Level(b, r, i, j), Level(b, r', i', j))
    decreases if r <= Longest(b) then Longest(b) - r else 0, |b| - i
  {
    hide Longest;
    if n == 0 {
      r', i' := r, i;
    } else if i == |b| {
      r', i' := Progress(b, r + 1, 0, n);
    } else if r < |b[i]| {
      r', i' := Progress(b, r, i + 1, n - 1);
      var rest := Picks(b, r, i + 1)[..n - 1];
      assert Picks(b, r, i)[..n] == [(i, r)] + rest;
      forall j | 0 <= j < |b|
        ensures Level(b, r, i, j) <= Level(b, r', i', j)
        ensures Of([(i, r)] + rest, j) == Range(Level(b, r, i, j), Level(b, r', i', j))
      {
        TakePick(b, r, i, j, rest, Level(b, r', i', j));
      }
    } else {
      r', i' := Progress(b, r, i + 1, n);
    }
  }

  // ----- Balance -----

  predicate Within(c: seq<nat>, b: seq<seq<string>>) {
    |c| == |b| && forall j :: 0 <= j < |c| ==> c[j] <= |b[j]|
  }

  /** If class x still has files, the classes before it are at most one ahead and the classes
      after it are not ahead at all. */
  predicate Balanced(c: seq<nat>, b: seq<seq<string>>)
    requires |c| == |b|
  {
    forall x, j :: 0 <= x < |c| && 0 <= j < |c| && c[x] < |b[x]| ==>
      && (j < x ==> c[j] <= c[x] + 1)
      && (x < j ==> c[j] <= c[x])
  }

  function CountsOf(s: seq<Pick>, k: nat): (c: seq<nat>)
    ensures |c| == k
    ensures forall j :: 0 <= j < k ==> c[j] == |Of(s, j)|
  {
    seq(k, j requires 0 <= j => |Of(s, j)|)
  }

  function Selected(b: seq<seq<string>>, limit: nat): (s: seq<Pick>)
    ensures forall k :: 0 <= k < |s| ==> s[k].0 < |b| && s[k].1 < |b[s[k].0]|
  {
    var all := Picks(b, 0, 0);
    all[..Min(limit, |all|)]
  }

  /** Round-robin is water-filling, for any buckets and any limit. */
  lemma SelectionBalanced(b: seq<seq<string>>, limit: nat)
    ensures Within(CountsOf(Selected(b, limit), |b|), b)
    ensures Balanced(CountsOf(Selected(b, limit), |b|), b)
  {
    var all := Picks(b, 0, 0);
    var r, i := Progress(b, 0, 0, Min(limit, |all|));
    var c := CountsOf(Selected(b, limit), |b|);
    assert forall j :: 0 <= j < |b| ==> c[j] == Level(b, r, i, j);
  }

  /** From every class the selection takes the first files of its sorted bucket, in order and
      each once. */
  lemma SelectionTakesPrefixes(b: seq<seq<string>>, limit: nat, j: nat)
    requires j < |b|
    ensures |Of(Selected(b, limit), j)| <= |b[j]|
    ensures Of(Selected(b, limit), j) == Range(0, |Of(Selected(b, limit), j)|)
  {
    var all := Picks(b, 0, 0);
    var r, i := Progress(b, 0, 0, Min(limit, |all|));
  }

  lemma SelectionMonotone(b: seq<seq<string>>, m: nat, n: nat)
    requires m <= n
    ensures Selected(b, m) <= Selected(b, n)
  {
    var all := Picks(b, 0, 0);
    var x, y := Min(m, |all|), Min(n, |all|);
    assert all[..y][..x] == all[..x];
  }

  function Sum(c: seq<nat>): nat {
    if c == [] then 0 else c[|c| - 1] + Sum(c[..|c| - 1])
  }

  lemma {:induction false} SumStrict(c: seq<nat>, d: seq<nat>)
    requires |c| == |d| && forall j :: 0 <= j < |c| ==> c[j] <= d[j]
    ensures Sum(c) <= Sum(d)
    ensures Sum(c) == Sum(d) ==> c == d
  {
    if c != [] {
      SumStrict(c[..|c| - 1], d[..|d| - 1]);
      if Sum(c) == Sum(d) {
        assert c == c[..|c| - 1] + [c[|c| - 1]] && d == d[..|d| - 1] + [d[|d| - 1]];
      }
    }
  }

  /** Two balanced counts cannot cross. */
  lemma BalancedComparable(c: seq<nat>, d: seq<nat>, b: seq<seq<string>>, x: nat, y: nat)
    requires Within(c, b) && Within(d, b) && Balanced(c, b) && Balanced(d, b)
    requires x < |b| && y < |b|
    ensures !(c[x] < d[x] && d[y] < c[y])
  {}

  /** Balance, the bucket sizes and the total leave no choice: the counts of the round-robin
      are the only balanced ones. */
  lemma BalancedUnique(c: seq<nat>, d: seq<nat>, b: seq<seq<string>>)
    requires Within(c, b) && Within(d, b) && Balanced(c, b) && Balanced(d, b)
    requires Sum(c) == Sum(d)
    ensures c == d
  {
    if exists x :: 0 <= x < |b| && c[x] < d[x] {
      var x :| 0 <= x < |b| && c[x] < d[x];
      forall y | 0 <= y < |b| ensures c[y] <= d[y] {
        BalancedComparable(c, d, b, x, y);
      }
      SumStrict(c, d);
    } else {
      SumStrict(d, c);
    }
  }

  // ----- How many are selected -----

  lemma {:induction false} CountsSum(s: seq<Pick>, k: nat)
    requires forall n :: 0 <= n < |s| ==> s[n].0 < k
    ensures Sum(CountsOf(s, k)) == |s|
  {
    if s == [] {
      SumZero(CountsOf(s, k));
    } else {
      CountsSum(s[1..], k);
      SumBump(CountsOf(s[1..], k), CountsOf(s, k), s[0].0);
    }
  }

  lemma {:induction false} SumZero(c: seq<nat>)
    requires forall j :: 0 <= j < |c| ==> c[j] == 0
    ensures Sum(c) == 0
  {
    if c != [] { SumZero(c[..|c| - 1]); }
  }

  lemma {:induction false} SumBump(c: seq<nat>, d: seq<nat>, j: nat)
    requires |c| == |d| && j < |c|
    requires forall k :: 0 <= k < |c| ==> d[k] == c[k] + (if k == j then 1 else 0)
    ensures Sum(d) == Sum(c) + 1
  {
    var n := |c| - 1;
    if j == n {
      assert d[..n] == c[..n];
    } else {
      SumBump(c[..n], d[..n], j);
    }
  }

  function Sizes(b: seq<seq<string>>): (c: seq<nat>)
    ensures |c| == |b| && forall j :: 0 <= j < |b| ==> c[j] == |b[j]|
  {
    seq(|b|, j requires 0 <= j < |b| => |b[j]|)
  }

  lemma PickFirst(b: seq<seq<string>>, r: nat, i: nat)
    requires i < |b| && r < |b[i]|
    ensures Picks(b, r, i) == [(i, r)] + Picks(b, r, i + 1)
  {}

  lemma {:induction false} PicksExhaust(b: seq<seq<string>>, r: nat, i: nat, j: nat)
    requires i <= |b| && j < |b|
    ensures Level(b, r, i, j) <= |b[j]| && Of(Picks(b, r, i), j) == Range(Level(b, r, i, j), |b[j]|)
    decreases if r <= Longest(b) then Longest(b) - r else 0, |b| - i
  {
    hide Longest;
    if i == |b| {
      if r < Longest(b) { PicksExhaust(b, r + 1, 0, j); }
    } else {
      PicksExhaust(b, r, i + 1, j);
      if r < |b[i]| {
        PickFirst(b, r, i);
        TakePick(b, r, i, j, Picks(b, r, i + 1), |b[j]|);
      }
    }
  }

  lemma PicksTotal(b: seq<seq<string>>)
    ensures |Picks(b, 0, 0)| == Sum(Sizes(b))
  {
    var all := Picks(b, 0, 0);
    forall j | 0 <= j < |b| ensures CountsOf(all, |b|)[j] == |b[j]| {
      PicksExhaust(b, 0, 0, j);
    }
    assert CountsOf(all, |b|) == Sizes(b);
    CountsSum(all, |b|);
  }

  // ----- The function itself -----

  function Bucket(files: seq<string>, classify: string -> nat, j: nat): seq<string> {
    if files == [] then [] else
    var init := Bucket(files[..|files| - 1], classify, j);
    if classify(files[|files| - 1]) == j then init + [files[|files| - 1]] else init
  }

  function Buckets(files: seq<string>, classify: string -> nat, k: nat): (b: seq<seq<string>>)
    ensures |b| == k && forall j :: 0 <= j < k ==> b[j] == Bucket(files, classify, j)
  {
    seq(k, j requires 0 <= j => Bucket(files, classify, j))
  }

  lemma {:induction false} BucketsPartition(files: seq<string>, classify: string -> nat, k: nat)
    requires forall n :: 0 <= n < |files| ==> classify(files[n]) < k
    ensures Sum(Sizes(Buckets(files, classify, k))) == |files|
  {
    var c := Sizes(Buckets(files, classify, k));
    if files == [] {
      SumZero(c);
    } else {
      var init := files[..|files| - 1];
      BucketsPartition(init, classify, k);
      SumBump(Sizes(Buckets(init, classify, k)), c, classify(files[|files| - 1]));
    }
  }

  function Lookup(b: seq<seq<string>>, s: seq<Pick>): (out: seq<string>)
    requires forall k :: 0 <= k < |s| ==> s[k].0 < |b| && s[k].1 < |b[s[k].0]|
    ensures |out| == |s| && forall k :: 0 <= k < |s| ==> out[k] == b[s[k].0][s[k].1]
  {
    seq(|s|, k requires 0 <= k < |s| => b[s[k].0][s[k].1])
  }

  datatype Result = Cohort(selected: seq<string>) | BadLimit | NoImages

  /** Deal the sorted files into their buckets. */
  method Deal(files: seq<string>, classify: string -> nat, k: nat) returns (b: seq<seq<string>>)
    requires forall n :: 0 <= n < |files| ==> classify(files[n]) < k
    ensures b == Buckets(files, classify, k)
  {
    b := seq(k, _ => []);
    for n := 0 to |files|
      invariant b == Buckets(files[..n], classify, k)
    {
      var c := classify(files[n]);
      assert files[..n + 1][..n] == files[..n];
      b := b[c := b[c] + [files[n]]];
    }
    assert files[..|files|] == files;
  }

  predicate InBuckets(b: seq<seq<string>>, s: seq<Pick>) {
    forall k :: 0 <= k < |s| ==> s[k].0 < |b| && s[k].1 < |b[s[k].0]|
  }

  lemma LookupOneMore(b: seq<seq<string>>, s: seq<Pick>, p: Pick)
    requires InBuckets(b, s) && p.0 < |b| && p.1 < |b[p.0]|
    ensures InBuckets(b, s + [p]) && Lookup(b, s + [p]) == Lookup(b, s) + [b[p.0][p.1]]
  {}

  predicate AtLevel(b: seq<seq<string>>, indexes: seq<nat>, r: nat, i: nat) {
    |indexes| == |b| && forall j :: 0 <= j < |b| ==> indexes[j] == Level(b, r, i, j)
  }

  /** One round over the classes, cut short when the limit is reached. */
  method Round(b: seq<seq<string>>, limit: nat, ghost round: nat,
               selected0: seq<string>, indexes0: seq<nat>, ghost picks0: seq<Pick>)
    returns (selected: seq<string>, indexes: seq<nat>, added: bool, ghost picks: seq<Pick>)
    requires InBuckets(b, picks0) && selected0 == Lookup(b, picks0) && |selected0| < limit
    requires AtLevel(b, indexes0, round, 0)
    ensures InBuckets(b, picks) && selected == Lookup(b, picks) && |selected| <= limit
    ensures |selected| == limit ==> picks <= picks0 + Picks(b, round, 0)
    ensures |selected| < limit ==> picks + Picks(b, round, |b|) == picks0 + Picks(b, round, 0)
    ensures |selected| < limit ==> AtLevel(b, indexes, round, |b|)
    ensures if added then |picks0| < |picks|
            else picks == picks0 && |selected| < limit && forall j :: 0 <= j < |b| ==> |b[j]| <= round
  {
    hide Picks, Lookup, Longest;
    selected, indexes, added, picks := selected0, indexes0, false, picks0;
    var i := 0;
    while i < |b|
      invariant 0 <= i <= |b|
      invariant InBuckets(b, picks) && selected == Lookup(b, picks) && |selected| < limit
      invariant picks + Picks(b, round, i) == picks0 + Picks(b, round, 0)
      invariant AtLevel(b, indexes, round, i)
      invariant if added then |picks0| < |picks|
                else picks == picks0 && forall j :: 0 <= j < i ==> |b[j]| <= round
    {
      var value := i;
      i := i + 1;
      PickNext(b, round, value, picks);
      if indexes[value] >= |b[value]| { continue; }
      LookupOneMore(b, picks, (value, round));
      selected := selected + [b[value][indexes[value]]];
      picks := picks + [(value, round)];
      indexes := indexes[value := indexes[value] + 1];
      added := true;
      if |selected| == limit { return; }
    }
  }

  /** Rounds until the limit is reached or a round adds nothing. */
  method RoundRobin(b: seq<seq<string>>, limit: nat) returns (selected: seq<string>, ghost picks: seq<Pick>)
    requires limit > 0
    ensures selected == Lookup(b, Selected(b, limit)) && picks == Selected(b, limit)
  {
    hide Picks, Lookup, Longest;
    selected, picks := [], [];
    ghost var all := Picks(b, 0, 0);
    ghost var round := 0;
    var indexes := seq(|b|, _ => 0);
    while |selected| < limit
      invariant InBuckets(b, picks) && selected == Lookup(b, picks) && |selected| <= limit
      invariant |selected| < limit ==> picks + Picks(b, round, 0) == all && AtLevel(b, indexes, round, 0)
      invariant picks <= all
      decreases limit - |selected|
    {
      var added;
      selected, indexes, added, picks := Round(b, limit, round, selected, indexes, picks);
      if !added {
        Exhausted(b, round);
        assert picks == all;
        return;
      }
      NextRound(b, round);
      round := round + 1;
    }
  }

  lemma PickNext(b: seq<seq<string>>, r: nat, i: nat, picks: seq<Pick>)
    requires i < |b|
    ensures r >= |b[i]| ==> Picks(b, r, i) == Picks(b, r, i + 1)
    ensures r < |b[i]| ==> picks + Picks(b, r, i) == picks + [(i, r)] + Picks(b, r, i + 1)
  {}

  lemma NextRound(b: seq<seq<string>>, r: nat)
    ensures Picks(b, r, |b|) == Picks(b, r + 1, 0)
  {
    if r >= Longest(b) { NoneLeft(b, r + 1, 0); }
  }

  lemma {:induction false} NoneLeft(b: seq<seq<string>>, r: nat, i: nat)
    requires i <= |b| && r >= Longest(b)
    ensures Picks(b, r, i) == []
    decreases |b| - i
  {
    if i < |b| { NoneLeft(b, r, i + 1); }
  }

  lemma {:induction false} LongestLeast(b: seq<seq<string>>, n: nat)
    requires forall j :: 0 <= j < |b| ==> |b[j]| <= n
    ensures Longest(b) <= n
  {
    if b != [] { LongestLeast(b[..|b| - 1], n); }
  }

  lemma Exhausted(b: seq<seq<string>>, r: nat)
    requires forall j :: 0 <= j < |b| ==> |b[j]| <= r
    ensures Picks(b, r, 0) == [] && Picks(b, r, |b|) == []
  {
    LongestLeast(b, r);
    NoneLeft(b, r, 0);
  }

  /** `_gather_image_paths`, on the files in their sorted order. */
  method GatherImagePaths(files: seq<string>, classify: string -> nat, k: nat, maxCount: int) returns (r: Result)
    requires forall n :: 0 <= n < |files| ==> classify(files[n]) < k
    ensures r.BadLimit? <==> maxCount <= 0
    ensures r.NoImages? <==> maxCount > 0 && files == []
    ensures r.Cohort? ==>
              && r.selected == Lookup(Buckets(files, classify, k), Selected(Buckets(files, classify, k), maxCount))
              && |r.selected| == Min(maxCount, |files|)
  {
    if maxCount <= 0 { return BadLimit; }
    if files == [] { return NoImages; }
    var b := Deal(files, classify, k);
    var selected, picks := RoundRobin(b, maxCount);
    PicksTotal(b);
    BucketsPartition(files, classify, k);
    return Cohort(selected);
  }

  // ----- No file twice -----

  lemma {:induction false} OfConcat(s: seq<Pick>, t: seq<Pick>, j: nat)
    ensures Of(s + t, j) == Of(s, j) + Of(t, j)
  {
    if s == [] {
      assert s + t == t;
    } else {
      assert (s + t)[1..] == s[1..] + t;
      OfConcat(s[1..], t, j);
    }
  }

  /** Each pick takes the next position of its class. */
  lemma PickIsNext(b: seq<seq<string>>, n: nat)
    requires n < |Picks(b, 0, 0)|
    ensures var all := Picks(b, 0, 0); all[n].1 == |Of(all[..n], all[n].0)|
  {
    hide Picks;
    var all := Picks(b, 0, 0);
    var j := all[n].0;
    var r, i := Progress(b, 0, 0, n + 1);
    assert all[..n + 1] == all[..n] + [all[n]];
    OfConcat(all[..n], [all[n]], j);
    OfCons(all[n], [], j);
    assert [all[n]] + [] == [all[n]] && Of([], j) == [];
    var o := Of(all[..n + 1], j);
    assert o == Of(all[..n], j) + [all[n].1];
    assert o == Range(0, |o|) && o[|o| - 1] == |o| - 1;
  }

  lemma PicksDistinct(b: seq<seq<string>>, m: nat, n: nat)
    requires m < n < |Picks(b, 0, 0)|
    ensures Picks(b, 0, 0)[m] != Picks(b, 0, 0)[n]
  {
    hide Picks;
    var all := Picks(b, 0, 0);
    var j := all[m].0;
    PickIsNext(b, m);
    PickIsNext(b, n);
    assert all[..n] == all[..m] + ([all[m]] + all[m + 1..n]);
    OfConcat(all[..m], [all[m]] + all[m + 1..n], j);
    OfCons(all[m], all[m + 1..n], j);
  }

  lemma {:induction false} BucketDistinct(files: seq<string>, classify: string -> nat, j: nat)
    requires Distinct(files)
    ensures Distinct(Bucket(files, classify, j))
    ensures forall k :: 0 <= k < |Bucket(files, classify, j)| ==>
              Bucket(files, classify, j)[k] in files && classify(Bucket(files, classify, j)[k]) == j
  {
    if files != [] {
      var init, last := files[..|files| - 1], files[|files| - 1];
      BucketDistinct(init, classify, j);
      assert files == init + [last];
      assert last !in init;
      var b := Bucket(init, classify, j);
      assert forall k :: 0 <= k < |b| ==> b[k] in init;
    }
  }

  /** Distinct files give a cohort of distinct files, all of them among the given ones. */
  lemma SelectionDistinct(files: seq<string>, classify: string -> nat, k: nat, limit: nat)
    requires Distinct(files)
    ensures Distinct(Lookup(Buckets(files, classify, k), Selected(Buckets(files, classify, k), limit)))
    ensures forall f :: f in Lookup(Buckets(files, classify, k), Selected(Buckets(files, classify, k), limit)) ==> f in files
  {
    hide Picks;
    var b := Buckets(files, classify, k);
    var s := Selected(b, limit);
    forall j | 0 <= j < k { BucketDistinct(files, classify, j); }
    forall m, n | 0 <= m < n < |s| ensures Lookup(b, s)[m] != Lookup(b, s)[n] {
      PicksDistinct(b, m, n);
      assert classify(b[s[m].0][s[m].1]) == s[m].0 && classify(b[s[n].0][s[n].1]) == s[n].0;
    }
  }

  // ----- Which files of a class -----

  /** The positions at which the files of a class stand among all the files. */
  ghost predicate Places(files: seq<string>, classify: string -> nat, j: nat, bucket: seq<string>, at: seq<nat>) {
    && |at| == |bucket|
    && (forall x :: 0 <= x < |at| ==> at[x] < |files| && bucket[x] == files[at[x]] && classify(files[at[x]]) == j)
    && (forall x, y :: 0 <= x < y < |at| ==> at[x] < at[y])
    && (forall n :: 0 <= n < |files| && classify(files[n]) == j ==> n in at)
  }

  /** A bucket holds exactly the files of its class, in the order in which they were given. */
  lemma {:induction false} BucketInOrder(files: seq<string>, classify: string -> nat, j: nat) returns (at: seq<nat>)
    ensures Places(files, classify, j, Bucket(files, classify, j), at)
  {
    hide Places;
    if files == [] {
      at := [];
      PlacesNone(classify, j);
    } else {
      var n := |files| - 1;
      at := BucketInOrder(files[..n], classify, j);
      PlacesNext(files, classify, j, Bucket(files[..n], classify, j), at);
      if classify(files[n]) == j { at := at + [n]; }
    }
  }

  lemma PlacesNone(classify: string -> nat, j: nat)
    ensures Places([], classify, j, [], [])
  {}

  lemma PlacesNext(files: seq<string>, classify: string -> nat, j: nat, bucket: seq<string>, at: seq<nat>)
    requires files != [] && Places(files[..|files| - 1], classify, j, bucket, at)
    ensures var n := |files| - 1;
            if classify(files[n]) == j then Places(files, classify, j, bucket + [files[n]], at + [n])
            else Places(files, classify, j, bucket, at)
  {
    var n := |files| - 1;
    var init := files[..n];
    assert forall m :: 0 <= m < n ==> init[m] == files[m];
    forall m | 0 <= m < n && classify(files[m]) == j ensures m in at && m in at + [n] {
      assert classify(init[m]) == j;
    }
  }

  lemma {:induction false} OfMember(s: seq<Pick>, j: nat, x: nat)
    ensures x in Of(s, j) <==> (j, x) in s
  {
    if s != [] {
      OfMember(s[1..], j, x);
      assert s == [s[0]] + s[1..];
    }
  }

  /** A class is picked from in the order of its bucket. */
  lemma EarlierPicksFirst(b: seq<seq<string>>, limit: nat, j: nat, z: nat, x: nat)
    requires j < |b| && z < x && (j, x) in Selected(b, limit)
    ensures (j, z) in Selected(b, limit)
  {
    hide Selected, Of;
    var o := Of(Selected(b, limit), j);
    OfMember(Selected(b, limit), j, x);
    SelectionTakesPrefixes(b, limit, j);
    var i :| 0 <= i < |o| && o[i] == x;
    assert o[z] == z;
    OfMember(Selected(b, limit), j, z);
  }

  /** No file is selected before an earlier one of its class. */
  lemma EarlierFilesFirst(files: seq<string>, classify: string -> nat, k: nat, limit: nat, m: nat, n: nat)
    requires Distinct(files) && m < n < |files| && classify(files[m]) == classify(files[n]) < k
    requires files[n] in Lookup(Buckets(files, classify, k), Selected(Buckets(files, classify, k), limit))
    ensures files[m] in Lookup(Buckets(files, classify, k), Selected(Buckets(files, classify, k), limit))
  {
    var b, j := Buckets(files, classify, k), classify(files[n]);
    var s := Selected(b, limit);
    hide Selected, Bucket, Of;
    var i :| 0 <= i < |s| && b[s[i].0][s[i].1] == files[n];
    OwnBucket(files, classify, s[i].0, s[i].1, files[n]);
    var at := BucketInOrder(files, classify, j);
    var x, y := s[i].1, at[s[i].1];
    assert y == n;
    var z :| 0 <= z < |at| && at[z] == m;
    assert s[i] == (j, x);
    EarlierPicksFirst(b, limit, j, z, x);
    var h :| 0 <= h < |s| && s[h] == (j, z);
    assert Lookup(b, s)[h] == b[j][z] == files[m];
  }

  lemma OwnBucket(files: seq<string>, classify: string -> nat, j: nat, x: nat, f: string)
    requires x < |Bucket(files, classify, j)| && Bucket(files, classify, j)[x] == f
    ensures classify(f) == j
  {
    var at := BucketInOrder(files, classify, j);
  }
}
