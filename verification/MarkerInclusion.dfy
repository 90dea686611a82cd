/** Keeping the optional feature: two textual replacements take out the marker lines
    (scripts/export_public_snapshot.py, the include branch of the documentation pass).

    The replacements know nothing of lines.  They leave a marker that is not directly followed
    by a newline, and joining what stood around a deleted marker can make a new one.  For a
    text in which no marker is attached to the beginning of another, they amount to one pass
    that takes out every marker with its newline, and exactly then the result is free of
    markers if each of them had one. */
module MarkerInclusion {
  import opened Basics
  import opened MarkerBlocks

  /** Python's `text.replace(m, "")`. */
  function RemoveAll(t: string, m: string): string
    requires m != ""
    decreases |t|
  {
    match Partition(t, m)
    case None => t
    case Some((x, y)) => x + RemoveAll(y, m)
  }

  function Included(t: string, p: Pair): string {
    RemoveAll(RemoveAll(t, p.start + "\n"), p.end + "\n")
  }

  predicate MarkerFree(t: string, p: Pair) {
    Absent(t, p.start) && Absent(t, p.end)
  }

  // ----- Lines -----

  function Unlines(lines: seq<string>, last: string): string {
    if lines == [] then last else lines[0] + "\n" + Unlines(lines[1..], last)
  }

  function Without(lines: seq<string>, m: string): seq<string> {
    if lines == [] then []
    else if lines[0] == m then Without(lines[1..], m)
    else [lines[0]] + Without(lines[1..], m)
  }

  lemma NotAtLine(line: string, rest: string, m: string)
    requires IsMarker(m) && !(m <= line)
    ensures !(m + "\n" <= line + "\n" + rest)
  {
    var t := line + ("\n" + rest);
    assert t == line + "\n" + rest;
    if line != "" {
      NoStraddle(line, "\n" + rest, m);
    } else {
      assert t[0] == '\n';
    }
    PrefixTransitive(m, "\n", t);
  }

  lemma PrefixTransitive(m: string, x: string, t: string)
    ensures m + x <= t ==> m <= t
  {
    if m + x <= t {
      assert t[..|m|] == t[..|m + x|][..|m|];
    }
  }

  /** A search passes over a stretch where nothing matches. */
  lemma {:induction false} PassOver(q: string, rest: string, m: string)
    requires m != "" && forall k :: 0 <= k < |q| ==> !(m <= q[k..] + rest)
    ensures match Partition(rest, m)
            case None => Partition(q + rest, m).None?
            case Some((x, y)) => Partition(q + rest, m) == Some((q + x, y))
  {
    hide Partition;
    if q == "" {
      assert q + rest == rest;
      assert Partition(rest, m).Some? ==> "" + Partition(rest, m).value.0 == Partition(rest, m).value.0;
    } else {
      assert q[0..] == q;
      forall k | 0 <= k < |q[1..]| ensures !(m <= q[1..][k..] + rest) {
        assert q[1..][k..] == q[k + 1..];
      }
      PassOver(q[1..], rest, m);
      PartitionCons(q, rest, m);
      if Partition(rest, m).Some? {
        var x := Partition(rest, m).value.0;
        assert [q[0]] + (q[1..] + x) == q + x;
      }
    }
  }

  lemma {:induction false} PartitionCons(q: string, rest: string, m: string)
    requires q != "" && m != "" && !(m <= q + rest)
    ensures match Partition(q[1..] + rest, m)
            case None => Partition(q + rest, m).None?
            case Some((x, y)) => Partition(q + rest, m) == Some(([q[0]] + x, y))
  {
    assert (q + rest)[1..] == q[1..] + rest;
  }

  lemma {:induction false} RemoveStep(t: string, m: string)
    requires m != ""
    ensures RemoveAll(t, m) == match Partition(t, m)
                               case None => t
                               case Some((x, y)) => x + RemoveAll(y, m)
  {}

  lemma {:induction false} RemovePassed(q: string, rest: string, m: string)
    requires m != ""
    requires match Partition(rest, m)
             case None => Partition(q + rest, m).None?
             case Some((x, y)) => Partition(q + rest, m) == Some((q + x, y))
    ensures RemoveAll(q + rest, m) == q + RemoveAll(rest, m)
  {
    RemoveStep(q + rest, m);
    RemoveStep(rest, m);
    hide *;
    if Partition(rest, m).Some? {
      var (x, y) := Partition(rest, m).value;
      ConcatAssociates(q, x, RemoveAll(y, m));
    }
  }

  lemma ConcatAssociates(x: string, y: string, z: string)
    ensures x + y + z == x + (y + z)
  {}

  lemma {:induction false} RemoveOver(q: string, rest: string, m: string)
    requires m != "" && forall k :: 0 <= k < |q| ==> !(m <= q[k..] + rest)
    ensures RemoveAll(q + rest, m) == q + RemoveAll(rest, m)
  {
    hide RemoveAll, Partition;
    PassOver(q, rest, m);
    RemovePassed(q, rest, m);
  }

  lemma PassOverLine(line: string, rest: string, m: string)
    requires IsMarker(m) && Partition(line, m).None?
    ensures match Partition(rest, m + "\n")
            case None => Partition(line + "\n" + rest, m + "\n").None?
            case Some((x, y)) => Partition(line + "\n" + rest, m + "\n") == Some((line + "\n" + x, y))
  {
    hide Partition;
    var q := line + "\n";
    AbsentIff(line, m);
    forall k | 0 <= k < |q| ensures !(m + "\n" <= q[k..] + rest) {
      assert q[k..] + rest == line[k..] + "\n" + rest;
      NotAtLine(line[k..], rest, m);
    }
    PassOver(q, rest, m + "\n");
  }

  lemma {:induction false} RemoveLines(lines: seq<string>, last: string, m: string)
    requires IsMarker(m) && Partition(last, m).None?
    requires forall k :: 0 <= k < |lines| ==> lines[k] == m || Partition(lines[k], m).None?
    ensures RemoveAll(Unlines(lines, last), m + "\n") == Unlines(Without(lines, m), last)
  {
    if lines == [] {
      NoneLonger(last, m);
    } else {
      var rest := Unlines(lines[1..], last);
      RemoveLines(lines[1..], last, m);
      if lines[0] == m {
        RemoveFirst(m + "\n", rest);
      } else {
        RemoveAfterLine(lines[0], rest, m);
      }
    }
  }

  lemma {:induction false} RemoveAfterLine(line: string, rest: string, m: string)
    requires IsMarker(m) && Partition(line, m).None?
    ensures RemoveAll(line + "\n" + rest, m + "\n") == line + "\n" + RemoveAll(rest, m + "\n")
  {
    hide Partition, RemoveAll;
    PassOverLine(line, rest, m);
    RemovePassed(line + "\n", rest, m + "\n");
  }

  lemma RemoveFirst(m: string, rest: string)
    requires m != ""
    ensures RemoveAll(m + rest, m) == RemoveAll(rest, m)
  {
    assert (m + rest)[|m|..] == rest;
    assert Partition(m + rest, m) == Some(("", rest));
    assert RemoveAll(m + rest, m) == "" + RemoveAll(rest, m);
  }

  lemma {:induction false} NoneLonger(t: string, m: string)
    requires m != "" && Partition(t, m).None?
    ensures Partition(t, m + "\n").None?
  {
    if t != "" {
      PrefixTransitive(m, "\n", t);
      NoneLonger(t[1..], m);
    }
  }

  /** A line is a whole marker or holds none. */
  predicate MarkersStandAlone(lines: seq<string>, last: string, p: Pair)
    requires IsPair(p)
  {
    && Marks(last, p) == []
    && forall k :: 0 <= k < |lines| ==> lines[k] == p.start || lines[k] == p.end || Marks(lines[k], p) == []
  }

  lemma {:induction false} WithoutMembers(lines: seq<string>, m: string)
    ensures forall k :: 0 <= k < |Without(lines, m)| ==> Without(lines, m)[k] in lines && Without(lines, m)[k] != m
  {
    if lines != [] { WithoutMembers(lines[1..], m); }
  }

  /** When every marker has a line to itself, keeping the feature deletes exactly those lines. */
  lemma IncludedDropsMarkerLines(lines: seq<string>, last: string, p: Pair)
    requires IsPair(p) && MarkersStandAlone(lines, last, p)
    ensures Included(Unlines(lines, last), p) == Unlines(Without(Without(lines, p.start), p.end), last)
  {
    FoundIff(last, p, Start);
    FoundIff(last, p, End);
    forall k | 0 <= k < |lines| ensures lines[k] == p.start || Partition(lines[k], p.start).None? {
      LineWithout(lines[k], p, Start, End);
    }
    RemoveLines(lines, last, p.start);
    var kept := Without(lines, p.start);
    WithoutMembers(lines, p.start);
    forall k | 0 <= k < |kept| ensures kept[k] == p.end || Partition(kept[k], p.end).None? {
      LineWithout(kept[k], p, End, Start);
    }
    RemoveLines(kept, last, p.end);
  }

  lemma LineWithout(line: string, p: Pair, a: Mark, b: Mark)
    requires IsPair(p) && a != b
    requires line == Spelling(p, a) || line == Spelling(p, b) || Marks(line, p) == []
    ensures line == Spelling(p, a) || Partition(line, Spelling(p, a)).None?
  {
    if line == Spelling(p, b) {
      SkipOther("", p, a, b);
      assert Spelling(p, b) + "" == line;
    } else {
      FoundIff(line, p, a);
    }
  }

  /** A marker that ends the file without a newline passes the guard and stays. */
  lemma IncludeKeepsUnterminatedMarker(p: Pair)
    requires IsPair(p)
    ensures exists t :: && Count(t, p.start) == Count(t, p.end)
                        && !Absent(Included(t, p), p.end)
  {
    hide *;
    var t := p.start + "\n" + p.end;
    UnterminatedCounts(p, t);
    UnterminatedResult(p, t);
  }

  lemma UnterminatedCounts(p: Pair, t: string)
    requires IsPair(p) && t == p.start + "\n" + p.end
    ensures Count(t, p.start) == Count(t, p.end)
  {
    hide Count, Marks, Partition;
    assert t == "" + p.start + ("\n" + p.end) && "" + p.end + "" == p.end;
    MarksAroundMarker("", p, Start, "\n" + p.end);
    MarksAfterNewline(p.end, p);
    MarksAroundMarker("", p, End, "");
    NoMarksInEmpty(p);
    CountIsTally(t, p, Start);
    CountIsTally(t, p, End);
    TallyAround([], Start, [End], Start);
    TallyAround([], Start, [End], End);
    assert Marks(t, p) == [] + [Start] + [End];
  }

  lemma NoMarksInEmpty(p: Pair)
    requires IsPair(p)
    ensures Marks("", p) == []
  {}

  lemma UnterminatedResult(p: Pair, t: string)
    requires IsPair(p) && t == p.start + "\n" + p.end
    ensures !Absent(Included(t, p), p.end)
  {
    LineWithout(p.end, p, Start, End);
    RemoveFirst(p.start + "\n", p.end);
    NoneLonger(p.end, p.start);
    ShorterThan(p.end, p.end + "\n");
    assert Included(t, p) == p.end;
    assert p.end <= p.end[0..];
  }

  lemma {:induction false} ShorterThan(t: string, m: string)
    requires |t| < |m|
    ensures Partition(t, m).None?
  {
    if t != "" { ShorterThan(t[1..], m); }
  }

  // ----- When no marker is left -----

  /** Every marker is directly followed by a newline. */
  ghost predicate Terminated(t: string, p: Pair)
    requires IsPair(p)
  {
    forall i, a :: 0 <= i <= |t| && Spelling(p, a) <= t[i..] ==> Spelling(p, a) + "\n" <= t[i..]
  }

  /** The text ends in the beginning of a marker, or in a whole one. */
  ghost predicate Dangles(x: string, p: Pair)
    requires IsPair(p)
  {
    exists i, a :: 0 <= i < |x| && x[i..] <= Spelling(p, a)
  }

  /** No marker directly follows a marker or the beginning of one. */
  ghost predicate Detached(t: string, p: Pair)
    requires IsPair(p)
  {
    forall i, a :: 0 <= i <= |t| && Spelling(p, a) <= t[i..] ==> !Dangles(t[..i], p)
  }

  /** So it is when every marker begins a line. */
  lemma {:induction false} LineStartsDetached(t: string, p: Pair)
    requires IsPair(p)
    requires forall i, a :: 0 < i <= |t| && Spelling(p, a) <= t[i..] ==> t[i - 1] == '\n'
    ensures Detached(t, p)
  {
    forall i, a | 0 <= i <= |t| && Spelling(p, a) <= t[i..] ensures !Dangles(t[..i], p) {
      NewlineEndsNoMarker(t[..i], p);
    }
  }

  lemma {:induction false} NewlineEndsNoMarker(x: string, p: Pair)
    requires IsPair(p) && (x == "" || x[|x| - 1] == '\n')
    ensures !Dangles(x, p)
  {
    forall i, a | 0 <= i < |x| ensures !(x[i..] <= Spelling(p, a)) {
      assert x[i..][|x| - 1 - i] == '\n';
    }
  }

  lemma {:induction false} DanglesOnward(x: string, k: nat, p: Pair)
    requires IsPair(p) && k <= |x| && Dangles(x[k..], p)
    ensures Dangles(x, p)
  {
    var i, a :| 0 <= i < |x[k..]| && x[k..][i..] <= Spelling(p, a);
    assert x[k + i..] == x[k..][i..];
  }

  lemma {:induction false} SuffixKeeps(t: string, k: nat, p: Pair)
    requires IsPair(p) && k <= |t|
    ensures Detached(t, p) ==> Detached(t[k..], p)
    ensures Terminated(t, p) ==> Terminated(t[k..], p)
  {
    var u := t[k..];
    forall i, a | 0 <= i <= |u| && Spelling(p, a) <= u[i..]
      ensures Detached(t, p) ==> !Dangles(u[..i], p)
      ensures Terminated(t, p) ==> Spelling(p, a) + "\n" <= u[i..]
    {
      assert u[i..] == t[k + i..];
      assert u[..i] == t[..k + i][k..];
      if Dangles(u[..i], p) { DanglesOnward(t[..k + i], k, p); }
    }
  }

  /** The text before the first marker, that marker, and the text behind it. */
  lemma {:induction false} FirstMark(t: string, p: Pair) returns (x: string, a: Mark, y: string)
    requires IsPair(p) && Marks(t, p) != []
    ensures t == x + Spelling(p, a) + y && Marks(x, p) == []
  {
    if p.start <= t {
      x, a, y := "", Start, t[|p.start|..];
    } else if p.end <= t {
      x, a, y := "", End, t[|p.end|..];
    } else {
      var z;
      z, a, y := FirstMark(t[1..], p);
      x := [t[0]] + z;
      ConcatAssociates([t[0]], z, Spelling(p, a) + y);
      ConcatAssociates(z, Spelling(p, a), y);
      ConcatAssociates(x, Spelling(p, a), y);
      assert t == x + (Spelling(p, a) + y);
      CleanCons(t[0], z, Spelling(p, a) + y, p);
    }
  }

  lemma {:induction false} CleanCons(c: char, z: string, rest: string, p: Pair)
    requires IsPair(p) && Marks(z, p) == []
    requires !(p.start <= [c] + z + rest) && !(p.end <= [c] + z + rest)
    ensures Marks([c] + z, p) == []
  {
    PrefixOfConcat(p.start, [c] + z, rest);
    PrefixOfConcat(p.end, [c] + z, rest);
    assert ([c] + z)[1..] == z;
  }

  /** A replacement passes over a marker-free text before a marker. */
  lemma {:induction false} OverClean(x: string, rest: string, p: Pair, a: Mark)
    requires IsPair(p) && Marks(x, p) == [] && Breaks(rest)
    ensures RemoveAll(x + rest, Spelling(p, a) + "\n") == x + RemoveAll(rest, Spelling(p, a) + "\n")
  {
    hide RemoveAll;
    NoMatchInClean(x, rest, p, a);
    RemoveOver(x, rest, Spelling(p, a) + "\n");
  }

  lemma {:induction false} NoMatchInClean(x: string, rest: string, p: Pair, a: Mark)
    requires IsPair(p) && Marks(x, p) == [] && Breaks(rest)
    ensures forall k :: 0 <= k < |x| ==> !(Spelling(p, a) + "\n" <= x[k..] + rest)
  {
    var m := Spelling(p, a);
    NoMarksIff(x, p);
    forall k | 0 <= k < |x| ensures !(m + "\n" <= x[k..] + rest) {
      NoStraddle(x[k..], rest, m);
      PrefixTransitive(m, "\n", x[k..] + rest);
    }
  }

  /** And before anything else unless the text ends in the beginning of a marker. */
  lemma {:induction false} OverDetached(x: string, rest: string, p: Pair, a: Mark)
    requires IsPair(p) && Marks(x, p) == [] && !Dangles(x, p)
    ensures RemoveAll(x + rest, Spelling(p, a) + "\n") == x + RemoveAll(rest, Spelling(p, a) + "\n")
  {
    hide RemoveAll;
    var m := Spelling(p, a);
    NoMarksIff(x, p);
    forall k | 0 <= k < |x| ensures !(m + "\n" <= x[k..] + rest) {
      PrefixTransitive(m, "\n", x[k..] + rest);
      PrefixOfConcat(m, x[k..], rest);
    }
    RemoveOver(x, rest, m + "\n");
  }

  /** A replacement passes over a marker that it does not match. */
  lemma {:induction false} OverMarker(p: Pair, a: Mark, b: Mark, rest: string)
    requires IsPair(p) && (a == b ==> SkipNewline(rest) == rest)
    ensures RemoveAll(Spelling(p, b) + rest, Spelling(p, a) + "\n")
            == Spelling(p, b) + RemoveAll(rest, Spelling(p, a) + "\n")
  {
    hide RemoveAll;
    NoMatchAtMarker(p, a, b, rest);
    RemoveOver(Spelling(p, b), rest, Spelling(p, a) + "\n");
  }

  lemma {:induction false} NoMatchAtMarker(p: Pair, a: Mark, b: Mark, rest: string)
    requires IsPair(p) && (a == b ==> SkipNewline(rest) == rest)
    ensures forall k :: 0 <= k < |Spelling(p, b)| ==> !(Spelling(p, a) + "\n" <= Spelling(p, b)[k..] + rest)
  {
    var m, q := Spelling(p, a), Spelling(p, b);
    forall k | 0 <= k < |q| ensures !(m + "\n" <= q[k..] + rest) {
      if k == 0 {
        assert q[0..] == q;
        PrefixTransitive(m, "\n", q + rest);
        PrefixOfConcat(m, q, rest);
        assert a == b && rest != "" ==> (q + rest)[|q|] == rest[0];
      } else {
        assert (q[k..] + rest)[0] == q[k];
      }
    }
  }

  lemma {:induction false} RemoveKeepsHead(y: string, m: string)
    requires m != "" && !(m <= y) && SkipNewline(y) == y
    ensures SkipNewline(RemoveAll(y, m)) == RemoveAll(y, m)
  {
    if Partition(y, m).Some? {
      var x := Partition(y, m).value.0;
      assert x != "" && x[0] == y[0];
    }
  }

  /** The first marker goes with its newline, or stays if it has none. */
  lemma {:induction false} IncludedFirst(x: string, a: Mark, y: string, p: Pair)
    requires IsPair(p) && Marks(x, p) == [] && !Dangles(x, p)
    requires a == End ==> !(p.start <= y)
    ensures var m := Spelling(p, a);
            Included(x + m + y, p)
            == if SkipNewline(y) == y then x + m + Included(y, p) else x + Included(SkipNewline(y), p)
  {
    hide RemoveAll, Marks, Dangles;
    var m, s, e := Spelling(p, a), p.start + "\n", p.end + "\n";
    assert x + m + y == x + (m + y);
    OverClean(x, m + y, p, Start);
    if SkipNewline(y) == y {
      var r := RemoveAll(y, s);
      OverMarker(p, Start, a, y);
      if a == End {
        PrefixTransitive(p.start, "\n", y);
        RemoveKeepsHead(y, s);
      }
      OverClean(x, m + r, p, End);
      OverMarker(p, End, a, r);
    } else {
      var z := SkipNewline(y);
      assert m + y == m + "\n" + z;
      var r := RemoveAll(z, s);
      if a == Start {
        RemoveFirst(s, z);
        OverDetached(x, r, p, End);
      } else {
        LineWithout(p.end, p, Start, End);
        RemoveAfterLine(p.end, z, p.start);
        OverClean(x, e + r, p, End);
        RemoveFirst(e, r);
      }
    }
  }

  lemma {:induction false} IncludedClean(t: string, p: Pair)
    requires IsPair(p) && Marks(t, p) == []
    ensures Included(t, p) == t
  {
    hide RemoveAll;
    OverClean(t, "", p, Start);
    OverClean(t, "", p, End);
    assert t + "" == t;
    NothingToRemove(p.start + "\n");
    NothingToRemove(p.end + "\n");
  }

  lemma {:induction false} NothingToRemove(m: string)
    requires m != ""
    ensures RemoveAll("", m) == ""
  {}

  /** Nothing is completed where a text without markers does not end in the beginning of one. */
  lemma {:induction false} MarksAfterDetached(x: string, y: string, p: Pair)
    requires IsPair(p) && Marks(x, p) == [] && !Dangles(x, p)
    ensures Marks(x + y, p) == Marks(y, p)
  {
    if x == "" {
      assert x + y == y;
    } else {
      assert x[0..] == x;
      PrefixOfConcat(p.start, x, y);
      PrefixOfConcat(p.end, x, y);
      assert Spelling(p, Start) == p.start && Spelling(p, End) == p.end;
      assert (x + y)[1..] == x[1..] + y;
      forall i, a | 0 <= i < |x[1..]| ensures !(x[1..][i..] <= Spelling(p, a)) {
        assert x[1..][i..] == x[i + 1..];
      }
      MarksAfterDetached(x[1..], y, p);
    }
  }

  /** Whether all markers have their newlines is decided one marker at a time. */
  lemma {:induction false} TerminatedFirst(x: string, a: Mark, y: string, p: Pair)
    requires IsPair(p) && Marks(x, p) == []
    ensures Terminated(x + Spelling(p, a) + y, p) <==> SkipNewline(y) != y && Terminated(SkipNewline(y), p)
  {
    var t := x + Spelling(p, a) + y;
    if Terminated(t, p) { FirstIsTerminated(x, a, y, p); }
    if SkipNewline(y) != y && Terminated(SkipNewline(y), p) { AllTerminated(x, a, SkipNewline(y), p); }
    assert SkipNewline(y) != y ==> y == "\n" + SkipNewline(y);
  }

  lemma {:induction false} FirstIsTerminated(x: string, a: Mark, y: string, p: Pair)
    requires IsPair(p) && Terminated(x + Spelling(p, a) + y, p)
    ensures SkipNewline(y) != y && Terminated(SkipNewline(y), p)
  {
    hide *;
    var m := Spelling(p, a);
    var t := x + m + y;
    assert t[|x|..] == m + y;
    TerminatedAt(t, |x|, a, p);
    NewlineBehind(m, y);
    SuffixKeeps(t, |x| + |m| + 1, p);
    assert t[|x| + |m| + 1..] == y[1..];
  }

  lemma {:induction false} TerminatedAt(t: string, i: nat, a: Mark, p: Pair)
    requires IsPair(p) && Terminated(t, p) && i <= |t| && Spelling(p, a) <= t[i..]
    ensures Spelling(p, a) + "\n" <= t[i..]
  {}

  lemma {:induction false} NewlineBehind(m: string, y: string)
    requires m + "\n" <= m + y
    ensures y != "" && y[0] == '\n' && SkipNewline(y) == y[1..]
  {
    assert y[0] == (m + y)[|m|] == (m + "\n")[|m|];
  }

  lemma {:induction false} AllTerminated(x: string, a: Mark, z: string, p: Pair)
    requires IsPair(p) && Marks(x, p) == [] && Terminated(z, p)
    ensures Terminated(x + Spelling(p, a) + ("\n" + z), p)
  {
    hide Marks;
    var m := Spelling(p, a);
    var t := x + m + ("\n" + z);
    forall i, b | 0 <= i <= |t| && Spelling(p, b) <= t[i..] ensures Spelling(p, b) + "\n" <= t[i..] {
      MarkerPlace(x, a, "\n" + z, p, i, b);
      if i == |x| {
        assert t[i..] == m + "\n" + z;
      } else {
        assert t[i..] == z[i - |x| - |m| - 1..];
      }
    }
  }

  lemma {:induction false} MarkerPlace(x: string, a: Mark, y: string, p: Pair, i: nat, b: Mark)
    requires IsPair(p) && Marks(x, p) == [] && y != "" && y[0] == '\n'
    requires i <= |x + Spelling(p, a) + y| && Spelling(p, b) <= (x + Spelling(p, a) + y)[i..]
    ensures (i == |x| && a == b) || |x| + |Spelling(p, a)| < i
  {
    var m, n := Spelling(p, a), Spelling(p, b);
    var t := x + m + y;
    NoMarksIff(x, p);
    if i < |x| {
      assert t[i..] == x[i..] + (m + y);
      NoStraddle(x[i..], m + y, n);
    } else if i == |x| {
      assert t[i..] == m + y;
      PrefixOfConcat(n, m, y);
    } else {
      assert t[i] == t[i..][0] == n[0];
    }
  }

  /** Where no marker is attached to the beginning of another, the result is free of markers
      exactly when every marker is directly followed by a newline. */
  lemma {:induction false} IncludeMarkerFreeIff(t: string, p: Pair)
    requires IsPair(p) && Detached(t, p)
    ensures MarkerFree(Included(t, p), p) <==> Terminated(t, p)
    decreases |t|
  {
    hide Included, Terminated, Dangles;
    if Marks(t, p) == [] {
      IncludedClean(t, p);
      NoMarksIff(t, p);
      CleanTerminated(t, p);
    } else {
      var x, a, y := FirstMark(t, p);
      DetachedFirst(x, a, y, p);
      IncludedFirst(x, a, y, p);
      TerminatedFirst(x, a, y, p);
      NoMarksIff(Included(t, p), p);
      if SkipNewline(y) == y {
        MarksAroundMarker(x, p, a, Included(y, p));
      } else {
        var z := SkipNewline(y);
        IncludeMarkerFreeIff(z, p);
        MarksAfterDetached(x, Included(z, p), p);
        NoMarksIff(Included(z, p), p);
      }
    }
  }

  // ----- As one pass -----

  /** Take out every marker that a newline follows, that newline included, in one pass. */
  function Unmarked(t: string, p: Pair): string
    requires IsPair(p)
    decreases |t|
  {
    if t == "" then ""
    else if p.start + "\n" <= t then Unmarked(t[|p.start| + 1..], p)
    else if p.end + "\n" <= t then Unmarked(t[|p.end| + 1..], p)
    else [t[0]] + Unmarked(t[1..], p)
  }

  lemma {:induction false} UnmarkedOver(q: string, rest: string, p: Pair)
    requires IsPair(p)
    requires forall k :: 0 <= k < |q| ==> !(p.start + "\n" <= q[k..] + rest) && !(p.end + "\n" <= q[k..] + rest)
    ensures Unmarked(q + rest, p) == q + Unmarked(rest, p)
  {
    if q == "" {
      assert q + rest == rest;
    } else {
      assert q[0..] == q;
      forall k | 0 <= k < |q[1..]|
        ensures !(p.start + "\n" <= q[1..][k..] + rest) && !(p.end + "\n" <= q[1..][k..] + rest)
      {
        assert q[1..][k..] == q[k + 1..];
      }
      UnmarkedOver(q[1..], rest, p);
      assert (q + rest)[1..] == q[1..] + rest;
      ConcatAssociates([q[0]], q[1..], Unmarked(rest, p));
    }
  }

  lemma {:induction false} UnmarkedFirst(x: string, a: Mark, y: string, p: Pair)
    requires IsPair(p) && Marks(x, p) == []
    ensures var m := Spelling(p, a);
            Unmarked(x + m + y, p)
            == if SkipNewline(y) == y then x + m + Unmarked(y, p) else x + Unmarked(SkipNewline(y), p)
  {
    hide Marks, Unmarked;
    var m := Spelling(p, a);
    ConcatAssociates(x, m, y);
    NoMatchInClean(x, m + y, p, Start);
    NoMatchInClean(x, m + y, p, End);
    UnmarkedOver(x, m + y, p);
    if SkipNewline(y) == y {
      NoMatchAtMarker(p, Start, a, y);
      NoMatchAtMarker(p, End, a, y);
      UnmarkedOver(m, y, p);
      ConcatAssociates(x, m, Unmarked(y, p));
    } else {
      ConcatAssociates(m, "\n", SkipNewline(y));
      UnmarkedAtMarker(a, SkipNewline(y), p);
      assert y == "\n" + SkipNewline(y);
    }
  }

  lemma {:induction false} UnmarkedAtMarker(a: Mark, z: string, p: Pair)
    requires IsPair(p)
    ensures Unmarked(Spelling(p, a) + "\n" + z, p) == Unmarked(z, p)
  {
    var m := Spelling(p, a);
    var t := m + "\n" + z;
    assert t[|m| + 1..] == z;
    assert t == m + ("\n" + z);
    PrefixOfConcat(p.start, m, "\n" + z);
    PrefixTransitive(p.start, "\n", t);
  }

  lemma {:induction false} UnmarkedClean(t: string, p: Pair)
    requires IsPair(p) && Marks(t, p) == []
    ensures Unmarked(t, p) == t
  {
    NoMatchInClean(t, "", p, Start);
    NoMatchInClean(t, "", p, End);
    UnmarkedOver(t, "", p);
    assert t + "" == t;
  }

  /** Where no marker is attached to the beginning of another, replacing first all start lines
      and then all end lines is the single pass over both. */
  lemma {:induction false} IncludedIsOnePass(t: string, p: Pair)
    requires IsPair(p) && Detached(t, p)
    ensures Included(t, p) == Unmarked(t, p)
    decreases |t|
  {
    hide Included, Unmarked, Dangles, Detached;
    if Marks(t, p) == [] {
      IncludedClean(t, p);
      UnmarkedClean(t, p);
    } else {
      var x, a, y := FirstMark(t, p);
      DetachedFirst(x, a, y, p);
      IncludedFirst(x, a, y, p);
      UnmarkedFirst(x, a, y, p);
      if SkipNewline(y) == y {
        DetachedRest(x + Spelling(p, a), y, p);
        IncludedIsOnePass(y, p);
      } else {
        IncludedIsOnePass(SkipNewline(y), p);
      }
    }
  }

  lemma {:induction false} DetachedRest(x: string, y: string, p: Pair)
    requires IsPair(p) && Detached(x + y, p)
    ensures Detached(y, p)
  {
    SuffixKeeps(x + y, |x|, p);
    assert (x + y)[|x|..] == y;
  }

  lemma {:induction false} CleanTerminated(t: string, p: Pair)
    requires IsPair(p) && Marks(t, p) == []
    ensures Terminated(t, p)
  {
    NoMarksIff(t, p);
    assert forall a :: Spelling(p, a) == p.start || Spelling(p, a) == p.end;
  }

  lemma {:induction false} DetachedFirst(x: string, a: Mark, y: string, p: Pair)
    requires IsPair(p) && Detached(x + Spelling(p, a) + y, p)
    ensures !Dangles(x, p) && !(p.start <= y)
    ensures Detached(SkipNewline(y), p)
  {
    var m := Spelling(p, a);
    var t := x + m + y;
    assert t[|x|..] == m + y && t[..|x|] == x;
    assert Spelling(p, a) <= t[|x|..];
    if p.start <= y { AttachedMarker(x, a, y, p); }
    var k := |x| + |m| + |y| - |SkipNewline(y)|;
    assert t[k..] == SkipNewline(y);
    SuffixKeeps(t, k, p);
  }

  lemma {:induction false} AttachedMarker(x: string, a: Mark, y: string, p: Pair)
    requires IsPair(p) && p.start <= y
    ensures !Detached(x + Spelling(p, a) + y, p)
  {
    var m := Spelling(p, a);
    var t := x + m + y;
    var i := |x| + |m|;
    assert t[i..] == y && t[..i] == x + m;
    assert t[..i][|x|..] == m;
    assert Dangles(t[..i], p);
    assert Spelling(p, Start) <= t[i..];
  }

  /** The condition on how markers are attached is needed: a marker cut in two by another one
      passes the guard with every newline in place, and deleting the inner marker puts the
      outer one together. */
  lemma {:induction false} DeletionMakesMarker(p: Pair, k: nat)
    requires IsPair(p) && 0 < k < |p.start|
    ensures var t := p.start[..k] + p.start + "\n" + p.start[k..] + "\n" + p.end + "\n";
            && Count(t, p.start) == Count(t, p.end)
            && Terminated(t, p)
            && Included(t, p) == p.start + "\n"
  {
    hide *;
    CutMarkerCounts(p, k);
    CutMarkerTerminated(p, k);
    CutMarkerIncluded(p, k);
  }

  lemma {:induction false} PiecesClean(p: Pair, k: nat)
    requires IsPair(p) && 0 < k < |p.start|
    ensures Marks(p.start[..k], p) == [] && Marks(p.start[k..] + "\n", p) == []
  {
    NoLead(p.start[k..] + "\n", p);
    var q := p.start[..k];
    assert q[1..] == p.start[1..k];
    NoLead(q[1..], p);
    assert !(p.start <= q);
    PrefixOfConcat(p.end, q, p.start[k..]);
    assert q + p.start[k..] == p.start;
  }

  lemma {:induction false} NoLead(x: string, p: Pair)
    requires IsPair(p) && forall i :: 0 <= i < |x| ==> x[i] != '<'
    ensures Marks(x, p) == []
  {
    if x != "" { NoLead(x[1..], p); }
  }

  lemma {:induction false} CutMarkerCounts(p: Pair, k: nat)
    requires IsPair(p) && 0 < k < |p.start|
    ensures var t := p.start[..k] + p.start + "\n" + p.start[k..] + "\n" + p.end + "\n";
            Count(t, p.start) == Count(t, p.end)
  {
    hide Count, Marks;
    var q, r := p.start[..k], p.start[k..] + "\n";
    var t := q + p.start + "\n" + p.start[k..] + "\n" + p.end + "\n";
    assert t == q + p.start + ("\n" + (r + p.end + "\n"));
    PiecesClean(p, k);
    MarksAroundMarker(q, p, Start, "\n" + (r + p.end + "\n"));
    MarksAfterNewline(r + p.end + "\n", p);
    MarksAroundMarker(r, p, End, "\n");
    NoLead("\n", p);
    CountIsTally(t, p, Start);
    CountIsTally(t, p, End);
    TallyAround([], Start, [End], Start);
    TallyAround([], Start, [End], End);
    assert Marks(t, p) == [] + [Start] + [End];
  }

  lemma {:induction false} CutMarkerTerminated(p: Pair, k: nat)
    requires IsPair(p) && 0 < k < |p.start|
    ensures Terminated(p.start[..k] + p.start + "\n" + p.start[k..] + "\n" + p.end + "\n", p)
  {
    hide Terminated, Marks;
    var q, r := p.start[..k], p.start[k..] + "\n";
    PiecesClean(p, k);
    NothingTerminated(p);
    TerminatedFirst(r, End, "\n", p);
    assert SkipNewline("\n") == "";
    var u := r + p.end + "\n";
    TerminatedFirst(q, Start, "\n" + u, p);
    assert SkipNewline("\n" + u) == u;
    assert q + p.start + ("\n" + u) == q + p.start + "\n" + p.start[k..] + "\n" + p.end + "\n";
  }

  lemma {:induction false} NothingTerminated(p: Pair)
    requires IsPair(p)
    ensures Terminated("", p)
  {}

  lemma {:induction false} CutMarkerIncluded(p: Pair, k: nat)
    requires IsPair(p) && 0 < k < |p.start|
    ensures Included(p.start[..k] + p.start + "\n" + p.start[k..] + "\n" + p.end + "\n", p) == p.start + "\n"
  {
    hide RemoveAll, Marks;
    var q, r, s, e := p.start[..k], p.start[k..] + "\n", p.start + "\n", p.end + "\n";
    var t := q + p.start + "\n" + p.start[k..] + "\n" + p.end + "\n";
    assert t == q + (s + (r + e));
    PiecesClean(p, k);
    OverClean(q, s + (r + e), p, Start);
    RemoveFirst(s, r + e);
    OverClean(r, e, p, Start);
    OverMarker(p, Start, End, "\n");
    NewlineStays(s);
    assert RemoveAll(t, s) == q + (r + e);
    assert q + (r + e) == p.start + ("\n" + e);
    OverMarker(p, End, Start, "\n" + e);
    NoLead("\n", p);
    OverClean("\n", e, p, End);
    assert e + "" == e;
    RemoveFirst(e, "");
    NothingToRemove(e);
    assert "\n" + "" == "\n";
  }

  lemma {:induction false} NewlineStays(m: string)
    requires |m| > 1
    ensures RemoveAll("\n", m) == "\n"
  {
    ShorterThan("\n", m);
  }
}
