/** The evenly spread cohort (scripts/profile_b_live_validation.py, `_curated_images`): from n
    sorted files, r are taken at the positions floor(i * n / r). */
module ProportionalPicks {

  function Pick(i: nat, n: nat, r: nat): nat
    requires r > 0
  {
    i * n / r
  }

  function Ceil(n: nat, r: nat): nat
    requires r > 0
  {
    if n % r == 0 then n / r else n / r + 1
  }

  lemma DivUnique(a: int, r: int, q: int, m: int)
    requires r > 0 && a == r * q + m && 0 <= m < r
    ensures a / r == q && a % r == m
  {
    var d := a / r - q;
    assert r * d == m - a % r by {
      assert a == r * (a / r) + a % r;
      assert r * (a / r) - r * q == r * d;
    }
    MulBounds(r, d);
  }

  lemma MulBounds(r: int, d: int)
    requires r > 0
    ensures d >= 1 ==> r * d >= r
    ensures d <= -1 ==> r * d <= -r
  {}

  lemma QuotientPositive(n: nat, r: nat)
    requires n >= r > 0
    ensures n / r >= 1
  {}

  /** Whole steps of n / r, plus what the remainders have added up to. */
  lemma PickSplit(i: nat, n: nat, r: nat)
    requires r > 0
    ensures 0 <= i * (n % r) && Pick(i, n, r) == i * (n / r) + i * (n % r) / r
  {
    var q, s := n / r, n % r;
    var c, m := i * s / r, i * s % r;
    calc {
      i * n;
      { assert n == r * q + s; }
      i * (r * q + s);
      i * (r * q) + i * s;
      { assert i * (r * q) == r * (i * q); assert i * s == r * c + m; }
      r * (i * q) + (r * c + m);
      r * (i * q + c) + m;
    }
    DivUnique(i * n, r, i * q + c, m);
  }

  lemma CarryStep(i: nat, s: nat, r: nat)
    requires s < r
    ensures i * s / r <= (i + 1) * s / r <= i * s / r + 1
    ensures s == 0 ==> (i + 1) * s / r == i * s / r
  {
    var c, m := i * s / r, i * s % r;
    assert (i + 1) * s == i * s + s;
    assert i * s == r * c + m;
    if m + s < r {
      DivUnique((i + 1) * s, r, c, m + s);
    } else {
      assert r * (c + 1) == r * c + r;
      DivUnique((i + 1) * s, r, c + 1, m + s - r);
    }
  }

  /** Neighbouring picks are floor(n / r) or ceil(n / r) apart, so they increase strictly as
      soon as there are r files to choose from. */
  lemma Gap(i: nat, n: nat, r: nat)
    requires r > 0
    ensures var g := Pick(i + 1, n, r) - Pick(i, n, r);
            && (g == n / r || g == Ceil(n, r))
            && (n >= r ==> g > 0)
  {
    PickSplit(i, n, r);
    PickSplit(i + 1, n, r);
    CarryStep(i, n % r, r);
    assert (i + 1) * (n / r) == i * (n / r) + n / r;
    if n >= r {
      QuotientPositive(n, r);
    }
  }

  lemma PickEnds(n: nat, r: nat)
    requires r > 0
    ensures Pick(0, n, r) == 0 && Pick(r, n, r) == n
  {
    DivUnique(r * n, r, n, 0);
    DivUnique(0, r, 0, 0);
    assert 0 * n == 0;
  }

  lemma {:induction false} PicksAscend(i: nat, j: nat, n: nat, r: nat)
    requires n >= r > 0 && i < j
    ensures Pick(i, n, r) < Pick(j, n, r)
    decreases j
  {
    Gap(j - 1, n, r);
    if i < j - 1 { PicksAscend(i, j - 1, n, r); }
  }

  /** The picks start at the first file, stay in range, and leave exactly ceil(n / r) files
      from the last pick to the end. */
  lemma PicksSpan(n: nat, r: nat)
    requires n >= r > 0
    ensures Pick(0, n, r) == 0
    ensures forall i :: 0 <= i < r ==> Pick(i, n, r) < n
    ensures n - Pick(r - 1, n, r) == Ceil(n, r)
  {
    PickEnds(n, r);
    forall i | 0 <= i < r ensures Pick(i, n, r) < n { PicksAscend(i, r, n, r); }
    PickSplit(r - 1, n, r);
    LastCarry(n % r, r);
    assert n == r * (n / r) + n % r;
    assert (r - 1) * (n / r) == r * (n / r) - n / r;
  }

  lemma LastCarry(s: nat, r: nat)
    requires s < r
    ensures (r - 1) * s / r == if s == 0 then 0 else s - 1
  {
    assert (r - 1) * s == r * s - s;
    if s == 0 {
      DivUnique(0, r, 0, 0);
    } else {
      assert r * (s - 1) == r * s - r;
      DivUnique((r - 1) * s, r, s - 1, r - s);
    }
  }

  lemma GapIsCarry(i: nat, n: nat, r: nat)
    requires r > 0
    ensures 0 <= i * (n % r) && 0 <= (i + 1) * (n % r)
    ensures Pick(i + 1, n, r) - Pick(i, n, r) == n / r + ((i + 1) * (n % r) / r - i * (n % r) / r)
    ensures i * (n % r) / r <= (i + 1) * (n % r) / r <= i * (n % r) / r + 1
  {
    PickSplit(i, n, r);
    PickSplit(i + 1, n, r);
    CarryStep(i, n % r, r);
    assert (i + 1) * (n / r) == i * (n / r) + n / r;
  }

  /** How many of the first k gaps are the longer ones. */
  function LongGaps(k: nat, n: nat, r: nat): nat
    requires r > 0
  {
    if k == 0 then 0
    else LongGaps(k - 1, n, r) + if Pick(k, n, r) - Pick(k - 1, n, r) > n / r then 1 else 0
  }

  /** The longer gaps are spread evenly too: n mod r of them in all. */
  lemma {:induction false} LongGapsSpread(k: nat, n: nat, r: nat)
    requires r > 0
    ensures 0 <= k * (n % r) && LongGaps(k, n, r) == k * (n % r) / r
  {
    if k == 0 {
      DivUnique(0, r, 0, 0);
    } else {
      LongGapsSpread(k - 1, n, r);
      GapIsCarry(k - 1, n, r);
      hide Pick;
    }
  }

  lemma LongGapsTotal(n: nat, r: nat)
    requires r > 0
    ensures LongGaps(r, n, r) == n % r
  {
    LongGapsSpread(r, n, r);
    DivUnique(r * (n % r), r, n % r, 0);
  }

  // ----- The cohort -----

  datatype Class = Class(name: string, files: seq<string>, required: nat)

  datatype Result = Cohort(images: seq<(string, string)>) | TooFew(name: string) | WrongSize

  function Required(classes: seq<Class>): nat {
    if classes == [] then 0 else Required(classes[..|classes| - 1]) + classes[|classes| - 1].required
  }

  function PickedFrom(c: Class): (s: seq<(string, string)>)
    requires |c.files| >= c.required
    ensures |s| == c.required
    ensures forall i :: 0 <= i < c.required ==>
              Pick(i, |c.files|, c.required) < |c.files|
              && s[i] == (c.name, c.files[Pick(i, |c.files|, c.required)])
  {
    if c.required == 0 then [] else
    PicksSpan(|c.files|, c.required);
    seq(c.required, i requires 0 <= i < c.required => (c.name, c.files[Pick(i, |c.files|, c.required)]))
  }

  function CohortOf(classes: seq<Class>): (s: seq<(string, string)>)
    requires forall i :: 0 <= i < |classes| ==> |classes[i].files| >= classes[i].required
    ensures |s| == Required(classes)
  {
    if classes == [] then []
    else CohortOf(classes[..|classes| - 1]) + PickedFrom(classes[|classes| - 1])
  }

  /** Class after class, each with its files at the proportional positions. */
  lemma CohortAt(classes: seq<Class>, i: nat, k: nat)
    requires forall c :: 0 <= c < |classes| ==> |classes[c].files| >= classes[c].required
    requires i < |classes| && k < classes[i].required
    ensures k * |classes[i].files| / classes[i].required < |classes[i].files|
    ensures Required(classes[..i]) + k < |CohortOf(classes)|
    ensures CohortOf(classes)[Required(classes[..i]) + k]
            == (classes[i].name, classes[i].files[k * |classes[i].files| / classes[i].required])
  {
    CohortPick(classes, i, k);
    hide CohortOf, Required, PickedFrom;
  }

  lemma {:induction false} CohortPick(classes: seq<Class>, i: nat, k: nat)
    requires forall c :: 0 <= c < |classes| ==> |classes[c].files| >= classes[c].required
    requires i < |classes| && k < classes[i].required
    ensures Pick(k, |classes[i].files|, classes[i].required) < |classes[i].files|
    ensures Required(classes[..i]) + k < |CohortOf(classes)|
    ensures CohortOf(classes)[Required(classes[..i]) + k]
            == (classes[i].name, classes[i].files[Pick(k, |classes[i].files|, classes[i].required)])
  {
    hide Pick, PickedFrom;
    var init := classes[..|classes| - 1];
    var a, b := CohortOf(init), PickedFrom(classes[|classes| - 1]);
    assert CohortOf(classes) == a + b;
    if i < |init| {
      assert init[i] == classes[i] && init[..i] == classes[..i];
      CohortPick(init, i, k);
    } else {
      assert init == classes[..i];
      assert (a + b)[|a| + k] == b[k];
    }
  }

  /** `_curated_images`; its final size check can never fail. */
  method CuratedImages(classes: seq<Class>) returns (r: Result)
    ensures !r.WrongSize?
    ensures r.TooFew? <==> exists i :: 0 <= i < |classes| && |classes[i].files| < classes[i].required
    ensures r.Cohort? ==>
              (forall i :: 0 <= i < |classes| ==> |classes[i].files| >= classes[i].required)
              && r.images == CohortOf(classes) && |r.images| == Required(classes)
    ensures r.TooFew? ==>
              exists i :: && 0 <= i < |classes| && r.name == classes[i].name && |classes[i].files| < classes[i].required
                          && forall k :: 0 <= k < i ==> |classes[k].files| >= classes[k].required
  {
    var cohort := [];
    for i := 0 to |classes|
      invariant forall k :: 0 <= k < i ==> |classes[k].files| >= classes[k].required
      invariant forall k :: 0 <= k < i ==> classes[..i][k] == classes[k]
      invariant cohort == CohortOf(classes[..i])
    {
      var c := classes[i];
      if |c.files| < c.required { return TooFew(c.name); }
      assert classes[..i + 1][..i] == classes[..i];
      var picked := PickedFrom(c);
      cohort := cohort + picked;
    }
    assert classes[..|classes|] == classes;
    if |cohort| != Required(classes) { return WrongSize; }
    return Cohort(cohort);
  }
}
