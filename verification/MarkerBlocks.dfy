/** Marker-delimited blocks in exported documents
    (scripts/export_public_snapshot.py, the two documentation passes).

    A document carries start and end markers.  The exporter only compares how many of each
    there are and then runs a leftmost, lazy regular-expression substitution.  Here the
    substitution is a scan over the text, `Stripped` is its simple description, and
    `Marks` abstracts a text to the word of markers it holds.  Stripping commutes with that
    abstraction, which is what decides exactly when no marker survives. */
module MarkerBlocks {
  import opened Basics

  datatype Mark = Start | End

  datatype Pair = Pair(start: string, end: string)

  const AUTORUN_STEM := "!-- public-export:exclude-autorun:"
  const SOURCE_ONLY_STEM := "!-- public-export:exclude-source-only:"
  const AUTORUN := Pair("<" + AUTORUN_STEM + "start -->", "<" + AUTORUN_STEM + "end -->")
  const SOURCE_ONLY := Pair("<" + SOURCE_ONLY_STEM + "start -->", "<" + SOURCE_ONLY_STEM + "end -->")

  /** A marker opens with its only `<` and stays on one line. */
  predicate IsMarker(m: string) {
    && |m| > 0 && m[0] == '<'
    && (forall k :: 0 < k < |m| ==> m[k] != '<')
    && (forall k :: 0 <= k < |m| ==> m[k] != '\n')
  }

  predicate IsPair(p: Pair) {
    && IsMarker(p.start) && IsMarker(p.end)
    && !(p.start <= p.end) && !(p.end <= p.start)
  }

  function Spelling(p: Pair, a: Mark): string {
    if a == Start then p.start else p.end
  }

  /** The conditions hold of a pair that opens alike and then differs. */
  lemma PairFrom(stem: string, a: string, b: string)
    requires forall k :: 0 <= k < |stem| ==> stem[k] != '<' && stem[k] != '\n'
    requires forall k :: 0 <= k < |a| ==> a[k] != '<' && a[k] != '\n'
    requires forall k :: 0 <= k < |b| ==> b[k] != '<' && b[k] != '\n'
    requires a != "" && b != "" && a[0] != b[0]
    ensures IsPair(Pair("<" + stem + a, "<" + stem + b))
  {
    var x, y := "<" + stem + a, "<" + stem + b;
    assert x[|stem| + 1] == a[0] && y[|stem| + 1] == b[0];
  }

  lemma AutorunPair()
    ensures IsPair(AUTORUN)
    ensures AUTORUN.start[|AUTORUN_STEM| + 1..] == "start -->" && AUTORUN.end[|AUTORUN_STEM| + 1..] == "end -->"
  {
    PairFrom(AUTORUN_STEM, "start -->", "end -->");
  }

  lemma SourceOnlyPair()
    ensures IsPair(SOURCE_ONLY)
    ensures SOURCE_ONLY.start[|SOURCE_ONLY_STEM| + 1..] == "start -->"
    ensures SOURCE_ONLY.end[|SOURCE_ONLY_STEM| + 1..] == "end -->"
  {
    PairFrom(SOURCE_ONLY_STEM, "start -->", "end -->");
  }

  // ----- Searching -----

  lemma PrefixOfConcat(s: string, x: string, y: string)
    ensures s <= x ==> s <= x + y
    ensures s <= x + y ==> s <= x || x <= s
  {
    if |s| <= |x| {
      assert (x + y)[..|s|] == x[..|s|];
    } else if s <= x + y {
      assert x == (x + y)[..|x|] == s[..|x|];
    }
  }

  predicate Absent(t: string, m: string) {
    forall i :: 0 <= i <= |t| ==> !(m <= t[i..])
  }

  /** The text before and after the first occurrence of m, as Python's `str.partition`. */
  function Partition(t: string, m: string): (r: Option<(string, string)>)
    requires m != ""
    ensures r.Some? ==> t == r.value.0 + m + r.value.1
  {
    if t == "" then None
    else if m <= t then Some(("", t[|m|..]))
    else match Partition(t[1..], m)
      case None => None
      case Some((x, y)) => Some(([t[0]] + x, y))
  }

  lemma {:induction false} AbsentIff(t: string, m: string)
    requires m != ""
    ensures Absent(t, m) <==> Partition(t, m).None?
  {
    if t != "" {
      var u := t[1..];
      AbsentIff(u, m);
      forall i | 0 <= i <= |u| ensures u[i..] == t[i + 1..] {}
      if Absent(u, m) && !(m <= t) {
        forall i | 0 <= i <= |t| ensures !(m <= t[i..]) {
          if i > 0 { assert t[i..] == u[i - 1..]; } else { assert t[0..] == t; }
        }
      }
      if Absent(t, m) {
        assert t[0..] == t;
      }
    }
  }

  lemma {:induction false} NoneInSuffix(t: string, m: string, k: nat)
    requires m != "" && k <= |t| && Partition(t, m).None?
    ensures Partition(t[k..], m).None?
  {
    if k == 0 {
      assert t[0..] == t;
    } else {
      NoneInSuffix(t[1..], m, k - 1);
      assert t[1..][k - 1..] == t[k..];
    }
  }

  lemma {:induction false} NoneBefore(t: string, m: string)
    requires m != "" && Partition(t, m).Some?
    ensures Partition(Partition(t, m).value.0, m).None?
  {
    if !(m <= t) {
      var u := t[1..];
      NoneBefore(u, m);
      var (x, y) := Partition(u, m).value;
      assert t == [t[0]] + u;
      NoneCons(t[0], x, m + y, m);
    }
  }

  lemma {:induction false} NoneCons(c: char, x: string, rest: string, m: string)
    requires m != "" && Partition(x, m).None? && !(m <= [c] + (x + rest))
    ensures Partition([c] + x, m).None?
  {
    assert [c] + (x + rest) == ([c] + x) + rest;
    PrefixOfConcat(m, [c] + x, rest);
    assert ([c] + x)[1..] == x;
  }

  /** Python's `str.count`: non-overlapping occurrences from the left. */
  function Count(t: string, m: string): nat
    requires m != ""
    decreases |t|
  {
    match Partition(t, m)
    case None => 0
    case Some((x, y)) => 1 + Count(y, m)
  }

  // ----- The word of markers in a text -----

  function Marks(t: string, p: Pair): seq<Mark>
    requires IsPair(p)
    decreases |t|
  {
    if t == "" then []
    else if p.start <= t then [Start] + Marks(t[|p.start|..], p)
    else if p.end <= t then [End] + Marks(t[|p.end|..], p)
    else Marks(t[1..], p)
  }

  /** A text can be cut before a `<` or a newline: no marker straddles such a place. */
  predicate Breaks(y: string) {
    y == "" || y[0] == '<' || y[0] == '\n'
  }

  lemma NoStraddle(x: string, y: string, m: string)
    requires IsMarker(m) && x != "" && Breaks(y)
    ensures m <= x + y <==> m <= x
  {
    if |x| < |m| && |x| < |x + y| {
      assert (x + y)[|x|] == y[0] != m[|x|];
    }
  }

  lemma {:induction false} MarksConcat(x: string, y: string, p: Pair)
    requires IsPair(p) && Breaks(y)
    ensures Marks(x + y, p) == Marks(x, p) + Marks(y, p)
    decreases |x|
  {
    if x == "" {
      assert x + y == y;
    } else {
      NoStraddle(x, y, p.start);
      NoStraddle(x, y, p.end);
      var d := if p.start <= x then |p.start| else if p.end <= x then |p.end| else 1;
      assert (x + y)[d..] == x[d..] + y;
      MarksConcat(x[d..], y, p);
    }
  }

  lemma MarksOfMarker(p: Pair, a: Mark, y: string)
    requires IsPair(p)
    ensures Marks(Spelling(p, a) + y, p) == [a] + Marks(y, p)
  {
    var m := Spelling(p, a);
    assert (m + y)[|m|..] == y;
    PrefixOfConcat(p.start, m, y);
  }

  lemma MarksAroundMarker(x: string, p: Pair, a: Mark, y: string)
    requires IsPair(p)
    ensures Marks(x + Spelling(p, a) + y, p) == Marks(x, p) + [a] + Marks(y, p)
  {
    assert x + Spelling(p, a) + y == x + (Spelling(p, a) + y);
    MarksConcat(x, Spelling(p, a) + y, p);
    MarksOfMarker(p, a, y);
  }

  lemma MarksAfterNewline(y: string, p: Pair)
    requires IsPair(p)
    ensures Marks("\n" + y, p) == Marks(y, p)
  {
    assert ("\n" + y)[1..] == y;
    assert ("\n" + y)[0] == '\n';
  }

  lemma MarksAroundNewline(x: string, y: string, p: Pair)
    requires IsPair(p)
    ensures Marks(x + "\n" + y, p) == Marks(x, p) + Marks(y, p)
  {
    assert x + "\n" + y == x + ("\n" + y);
    MarksConcat(x, "\n" + y, p);
    MarksAfterNewline(y, p);
  }

  /** Characters other than `<` never begin a marker. */
  lemma {:induction false} SkipPlain(x: string, y: string, m: string)
    requires IsMarker(m) && forall k :: 0 <= k < |x| ==> x[k] != '<'
    ensures Partition(x + y, m).None? <==> Partition(y, m).None?
  {
    if x == "" {
      assert x + y == y;
    } else {
      assert (x + y)[0] == x[0];
      assert (x + y)[1..] == x[1..] + y;
      SkipPlain(x[1..], y, m);
    }
  }

  /** Searching for one marker passes over an occurrence of the other. */
  lemma SkipOther(y: string, p: Pair, a: Mark, b: Mark)
    requires IsPair(p) && a != b
    ensures Partition(Spelling(p, b) + y, Spelling(p, a)).None?
            <==> Partition(y, Spelling(p, a)).None?
  {
    var m, t := Spelling(p, b), Spelling(p, b) + y;
    PrefixOfConcat(Spelling(p, a), m, y);
    assert t[1..] == m[1..] + y;
    SkipPlain(m[1..], y, Spelling(p, a));
  }

  /** A marker is found in a text exactly when its mark is in the word. */
  lemma {:induction false} FoundIff(t: string, p: Pair, a: Mark)
    requires IsPair(p)
    ensures Partition(t, Spelling(p, a)).None? <==> a !in Marks(t, p)
    decreases |t|
  {
    if t == "" {
    } else if p.start <= t {
      FoundIffAtMarker(t, p, a, Start);
    } else if p.end <= t {
      FoundIffAtMarker(t, p, a, End);
    } else {
      FoundIff(t[1..], p, a);
    }
  }

  lemma {:induction false} FoundIffAtMarker(t: string, p: Pair, a: Mark, b: Mark)
    requires IsPair(p) && Spelling(p, b) <= t
    ensures Partition(t, Spelling(p, a)).None? <==> a !in Marks(t, p)
    decreases |t|, 0
  {
    var y := t[|Spelling(p, b)|..];
    assert t == Spelling(p, b) + y;
    MarksOfMarker(p, b, y);
    if a != b {
      FoundIff(y, p, a);
      SkipOther(y, p, a, b);
    }
  }

  lemma NoMarksIff(t: string, p: Pair)
    requires IsPair(p)
    ensures Marks(t, p) == [] <==> Absent(t, p.start) && Absent(t, p.end)
  {
    FoundIff(t, p, Start);
    FoundIff(t, p, End);
    AbsentIff(t, p.start);
    AbsentIff(t, p.end);
    var w := Marks(t, p);
    assert w != [] ==> w[0] in w && (w[0] == Start || w[0] == End);
  }

  /** Cutting a text at its first occurrence of a marker cuts its word at that mark. */
  lemma MarksAtFirst(t: string, p: Pair, a: Mark)
    requires IsPair(p) && Partition(t, Spelling(p, a)).Some?
    ensures var (x, y) := Partition(t, Spelling(p, a)).value;
            a !in Marks(x, p) && Marks(t, p) == Marks(x, p) + [a] + Marks(y, p)
  {
    var (x, y) := Partition(t, Spelling(p, a)).value;
    NoneBefore(t, Spelling(p, a));
    FoundIff(x, p, a);
    MarksAroundMarker(x, p, a, y);
  }

  function Tally(w: seq<Mark>, a: Mark): nat {
    if w == [] then 0 else (if w[0] == a then 1 else 0) + Tally(w[1..], a)
  }

  lemma {:induction false} TallyConcat(v: seq<Mark>, w: seq<Mark>, a: Mark)
    ensures Tally(v + w, a) == Tally(v, a) + Tally(w, a)
  {
    if v == [] {
      assert v + w == w;
    } else {
      assert (v + w)[1..] == v[1..] + w;
      TallyConcat(v[1..], w, a);
    }
  }

  lemma TallyAround(v: seq<Mark>, b: Mark, w: seq<Mark>, a: Mark)
    ensures Tally(v + [b] + w, a) == Tally(v, a) + (if a == b then 1 else 0) + Tally(w, a)
  {
    TallyConcat(v + [b], w, a);
    TallyConcat(v, [b], a);
  }

  lemma {:induction false} TallyUniform(w: seq<Mark>, a: Mark, b: Mark)
    requires a != b && a !in w
    ensures Tally(w, a) == 0 && Tally(w, b) == |w|
  {
    if w != [] {
      assert w[0] in w;
      TallyUniform(w[1..], a, b);
    }
  }

  /** The guard's counts are the tallies of the marker word. */
  lemma {:induction false} CountIsTally(t: string, p: Pair, a: Mark)
    requires IsPair(p)
    ensures Count(t, Spelling(p, a)) == Tally(Marks(t, p), a)
    decreases |t|
  {
    var other := if a == Start then End else Start;
    match Partition(t, Spelling(p, a))
    case None =>
      FoundIff(t, p, a);
      TallyUniform(Marks(t, p), a, other);
    case Some((x, y)) =>
      MarksAtFirst(t, p, a);
      TallyUniform(Marks(x, p), a, other);
      TallyAround(Marks(x, p), a, Marks(y, p), a);
      CountIsTally(y, p, a);
  }

  // ----- Stripping -----

  function ChopNewline(t: string): string {
    if t != "" && t[|t| - 1] == '\n' then t[..|t| - 1] else t
  }

  function SkipNewline(t: string): string {
    if t != "" && t[0] == '\n' then t[1..] else t
  }

  datatype Block = Block(before: string, body: string, after: string)

  /** The first start marker that has an end marker after it, with the nearest such end. */
  function FirstBlock(t: string, p: Pair): (b: Option<Block>)
    requires IsPair(p)
    ensures b.Some? ==>
              t == b.value.before + p.start + b.value.body + p.end + b.value.after
  {
    match Partition(t, p.start)
    case None => None
    case Some((x, y)) =>
      match Partition(y, p.end)
      case None => None
      case Some((body, after)) =>
        ConcatFive(x, p.start, body, p.end, after);
        Some(Block(x, body, after))
  }

  lemma ConcatFive(x: string, s: string, y: string, e: string, z: string)
    ensures x + s + (y + e + z) == x + s + y + e + z
  {}

  /** The text before a block, less one newline, then the newline that replaces the block. */
  function Lead(before: string): string {
    ChopNewline(before) + "\n"
  }

  /** What the substitution amounts to: a block and one newline on either side of it give
      way to one newline, again and again from the left. */
  function Stripped(t: string, p: Pair): string
    requires IsPair(p)
    decreases |t|
  {
    match FirstBlock(t, p)
    case None => t
    case Some(b) => Lead(b.before) + Stripped(SkipNewline(b.after), p)
  }

  /** What follows the regular-expression match that begins exactly at the head of u: an
      optional newline, the start marker, the shortest body, the end marker, an optional
      newline.  None when no match begins there. */
  function MatchRest(u: string, p: Pair): (r: Option<string>)
    requires IsPair(p)
    ensures r.Some? ==> |r.value| < |u|
  {
    var v := SkipNewline(u);
    if !(p.start <= v) then None else
    match Partition(v[|p.start|..], p.end)
    case None => None
    case Some((body, after)) => Some(SkipNewline(after))
  }

  /** Where no match begins, the substitution copies one character. */
  lemma StrippedCopies(u: string, p: Pair)
    requires IsPair(p) && u != "" && MatchRest(u, p).None?
    ensures Stripped(u, p) == [u[0]] + Stripped(u[1..], p)
  {
    HeadOfBlocks(u, p);
    if FirstBlock(u[1..], p).Some? {
      StrippedCopiesBefore(u, p);
    }
  }

  lemma {:induction false} StrippedCopiesBefore(u: string, p: Pair)
    requires IsPair(p) && u != "" && FirstBlock(u[1..], p).Some?
    requires var b := FirstBlock(u[1..], p).value;
             && FirstBlock(u, p) == Some(b.(before := [u[0]] + b.before))
             && Lead([u[0]] + b.before) == [u[0]] + Lead(b.before)
    ensures Stripped(u, p) == [u[0]] + Stripped(u[1..], p)
  {
    var b := FirstBlock(u[1..], p).value;
    StrippedUnfold(u, p);
    StrippedUnfold(u[1..], p);
    ConsConcat(u[0], Lead(b.before), Stripped(SkipNewline(b.after), p));
  }

  lemma ConsConcat(c: char, x: string, y: string)
    ensures [c] + x + y == [c] + (x + y)
  {}

  lemma {:induction false} StrippedUnfold(u: string, p: Pair)
    requires IsPair(p) && FirstBlock(u, p).Some?
    ensures var b := FirstBlock(u, p).value;
            Stripped(u, p) == Lead(b.before) + Stripped(SkipNewline(b.after), p)
  {}

  lemma HeadOfBlocks(u: string, p: Pair)
    requires IsPair(p) && u != "" && MatchRest(u, p).None?
    ensures match FirstBlock(u[1..], p)
            case None => FirstBlock(u, p).None?
            case Some(b) => && FirstBlock(u, p) == Some(b.(before := [u[0]] + b.before))
                            && Lead([u[0]] + b.before) == [u[0]] + Lead(b.before)
  {
    if p.start <= u {
      NothingAfterUnclosed(u, p);
    } else if FirstBlock(u[1..], p).Some? {
      FirstBlockCons(u, p);
    }
  }

  lemma NothingAfterUnclosed(u: string, p: Pair)
    requires IsPair(p) && p.start <= u && Partition(u[|p.start|..], p.end).None?
    ensures FirstBlock(u[1..], p).None?
  {
    var y, v := u[|p.start|..], u[1..];
    if Partition(v, p.start).Some? {
      var (x, z) := Partition(v, p.start).value;
      var k := |x| + 1;
      assert v[|x| + |p.start|..] == z;
      assert v[|x| + |p.start|..] == u[k + |p.start|..] == y[k..];
      NoneInSuffix(y, p.end, k);
    }
  }

  lemma FirstBlockCons(u: string, p: Pair)
    requires IsPair(p) && u != "" && MatchRest(u, p).None?
    requires !(p.start <= u) && FirstBlock(u[1..], p).Some?
    ensures var b := FirstBlock(u[1..], p).value;
            && FirstBlock(u, p) == Some(b.(before := [u[0]] + b.before))
            && Lead([u[0]] + b.before) == [u[0]] + Lead(b.before)
  {
    var b := FirstBlock(u[1..], p).value;
    if b.before == "" {
      HeadPartition(u[1..], p.start);
    }
    LeadCons(u[0], b.before);
  }

  lemma LeadCons(c: char, x: string)
    requires x == "" ==> c != '\n'
    ensures Lead([c] + x) == [c] + Lead(x)
  {
    if x != "" {
      assert ([c] + x)[|x|] == x[|x| - 1];
      assert ([c] + x)[..|x|] == [c] + x[..|x| - 1];
    }
  }

  lemma HeadPartition(v: string, m: string)
    requires m != "" && Partition(v, m).Some? && Partition(v, m).value.0 == ""
    ensures m <= v && v[|m|..] == Partition(v, m).value.1
  {}

  lemma PartitionAtHead(u: string, m: string)
    requires IsMarker(m) && m <= SkipNewline(u)
    ensures Partition(u, m) == Some((if SkipNewline(u) == u then "" else "\n", SkipNewline(u)[|m|..]))
  {
    var v := SkipNewline(u);
    if v != u {
      assert u[0] != m[0] && [u[0]] + "" == "\n";
    }
  }

  /** Where a match begins, it is the first block of the rest of the text. */
  lemma StrippedMatches(u: string, p: Pair)
    requires IsPair(p) && MatchRest(u, p).Some?
    ensures Stripped(u, p) == "\n" + Stripped(MatchRest(u, p).value, p)
  {
    var v := SkipNewline(u);
    var (body, after) := Partition(v[|p.start|..], p.end).value;
    var before := if v == u then "" else "\n";
    PartitionAtHead(u, p.start);
    assert FirstBlock(u, p) == Some(Block(before, body, after));
    assert Lead(before) == "\n";
    StrippedUnfold(u, p);
  }

  /** The substitution itself: scan left to right, copying a character where no match
      begins and writing one newline for each match. */
  method Substitute(t: string, p: Pair) returns (out: string)
    requires IsPair(p)
    ensures out == Stripped(t, p)
  {
    out := "";
    var rest := t;
    while rest != ""
      invariant out + Stripped(rest, p) == Stripped(t, p)
      decreases |rest|
    {
      var r := MatchRest(rest, p);
      if r == None {
        StrippedCopies(rest, p);
        out := Emit(out, [rest[0]], Stripped(rest[1..], p));
        rest := rest[1..];
      } else {
        StrippedMatches(rest, p);
        out := Emit(out, "\n", Stripped(r.value, p));
        rest := r.value;
      }
    }
  }

  function Emit(out: string, piece: string, ghost future: string): (r: string)
    ensures r + future == out + (piece + future)
  {
    out + piece
  }

  // ----- Stripping seen on words -----

  function Index(w: seq<Mark>, a: Mark): (i: nat)
    ensures i <= |w|
    ensures forall k :: 0 <= k < i ==> w[k] != a
    ensures i < |w| ==> w[i] == a
  {
    if w == [] || w[0] == a then 0 else 1 + Index(w[1..], a)
  }

  /** Drop from the first start through the first end after it, repeatedly. */
  function StripWord(w: seq<Mark>): seq<Mark>
    decreases |w|
  {
    var i := Index(w, Start);
    if i == |w| then w else
    var rest := w[i + 1..];
    var j := Index(rest, End);
    if j == |rest| then w else
    w[..i] + StripWord(rest[j + 1..])
  }

  lemma FirstOf(v: seq<Mark>, a: Mark, w: seq<Mark>)
    requires a !in v
    ensures Index(v + [a] + w, a) == |v|
  {
    var x := v + [a] + w;
    assert x[|v|] == a;
    assert forall k :: 0 <= k < |v| ==> x[k] == v[k];
  }

  lemma StripWordBlock(v: seq<Mark>, body: seq<Mark>, w: seq<Mark>)
    requires Start !in v && End !in body
    ensures StripWord(v + [Start] + (body + [End] + w)) == v + StripWord(w)
  {
    var rest := body + [End] + w;
    var x := v + [Start] + rest;
    FirstOf(v, Start, rest);
    FirstOf(body, End, w);
    assert x[|v| + 1..] == rest && x[..|v|] == v;
    assert rest[|body| + 1..] == w;
  }

  predicate Alternates(w: seq<Mark>) {
    |w| % 2 == 0 && forall i :: 0 <= i < |w| ==> (w[i] == Start <==> i % 2 == 0)
  }

  /** No start comes before an end: nothing is left to strip. */
  predicate Settled(w: seq<Mark>) {
    forall i, j :: 0 <= i < j < |w| && w[i] == Start ==> w[j] == Start
  }

  lemma SettledFixed(w: seq<Mark>)
    requires Settled(w)
    ensures StripWord(w) == w
  {
    var i := Index(w, Start);
    if i < |w| {
      var rest := w[i + 1..];
      forall k | 0 <= k < |rest| ensures rest[k] == Start {
        assert rest[k] == w[i + 1 + k];
      }
    }
  }

  lemma {:induction false} StripWordSettles(w: seq<Mark>)
    ensures Settled(StripWord(w))
    decreases |w|
  {
    hide Index, StripWord, Settled;
    var i := Index(w, Start);
    if i < |w| {
      var j := Index(w[i + 1..], End);
      if j < |w[i + 1..]| {
        StripWordSettles(w[i + 1..][j + 1..]);
        StripWordStep(w);
        SettledAfterEnds(w[..i], StripWord(w[i + 1..][j + 1..]));
      } else {
        StripWordStays(w);
        SettledTail(w, i);
      }
    } else {
      StripWordStays(w);
      SettledEnds(w);
    }
  }

  lemma {:induction false} StripWordStays(w: seq<Mark>)
    requires var i := Index(w, Start); i == |w| || Index(w[i + 1..], End) == |w[i + 1..]|
    ensures StripWord(w) == w
  {}

  lemma {:induction false} StripWordStep(w: seq<Mark>)
    requires Index(w, Start) < |w|
    requires var rest := w[Index(w, Start) + 1..]; Index(rest, End) < |rest|
    ensures var rest := w[Index(w, Start) + 1..];
            StripWord(w) == w[..Index(w, Start)] + StripWord(rest[Index(rest, End) + 1..])
  {}

  lemma SettledEnds(w: seq<Mark>)
    requires Start !in w
    ensures Settled(w)
  {}

  lemma SettledTail(w: seq<Mark>, i: nat)
    requires i < |w| && Start !in w[..i] && End !in w[i + 1..]
    ensures Settled(w)
  {
    assert forall k :: 0 <= k < i ==> w[k] == w[..i][k];
    assert forall k :: i < k < |w| ==> w[k] == w[i + 1..][k - i - 1];
  }

  lemma SettledAfterEnds(v: seq<Mark>, w: seq<Mark>)
    requires Start !in v && Settled(w)
    ensures Settled(v + w)
  {
    assert forall i :: 0 <= i < |v + w| ==> (v + w)[i] == if i < |v| then v[i] else w[i - |v|];
  }

  lemma ChopNewlineMarks(t: string, p: Pair)
    requires IsPair(p)
    ensures Marks(ChopNewline(t), p) == Marks(t, p)
  {
    if ChopNewline(t) != t {
      var u := ChopNewline(t);
      assert t == u + "\n" + "";
      MarksAroundNewline(u, "", p);
    }
  }

  lemma SkipNewlineMarks(t: string, p: Pair)
    requires IsPair(p)
    ensures Marks(SkipNewline(t), p) == Marks(t, p)
  {
    if SkipNewline(t) != t {
      assert t == "\n" + SkipNewline(t);
      MarksAfterNewline(SkipNewline(t), p);
    }
  }

  /** Stripping a text strips its word of markers: whole blocks go, the inserted newline
      never completes a marker, and no marker outside a block is touched. */
  lemma {:induction false} StripCommutes(t: string, p: Pair)
    requires IsPair(p)
    ensures Marks(Stripped(t, p), p) == StripWord(Marks(t, p))
    decreases |t|
  {
    if Partition(t, p.start).None? {
      FoundIff(t, p, Start);
    } else {
      var (x, y) := Partition(t, p.start).value;
      MarksAtFirst(t, p, Start);
      FirstOf(Marks(x, p), Start, Marks(y, p));
      if Partition(y, p.end).None? {
        FoundIff(y, p, End);
        assert Marks(t, p)[|Marks(x, p)| + 1..] == Marks(y, p);
      } else {
        var (body, after) := Partition(y, p.end).value;
        MarksAtFirst(y, p, End);
        StripWordBlock(Marks(x, p), Marks(body, p), Marks(after, p));
        StripCommutes(SkipNewline(after), p);
        SkipNewlineMarks(after, p);
        ChopNewlineMarks(x, p);
        MarksAroundNewline(ChopNewline(x), Stripped(SkipNewline(after), p), p);
      }
    }
  }

  lemma EmptiedSplit(w: seq<Mark>) returns (body: seq<Mark>, tail: seq<Mark>)
    requires w != [] && StripWord(w) == []
    ensures w == [Start] + (body + [End] + tail)
    ensures End !in body && StripWord(tail) == []
  {
    EmptiedHead(w);
    hide *;
    body, tail := SplitAtIndex(w[1..], End);
    ConsBack(w, w[1..]);
  }

  lemma ConsBack(w: seq<Mark>, rest: seq<Mark>)
    requires w != [] && rest == w[1..]
    ensures w == [w[0]] + rest
  {}

  lemma {:induction false} SplitAtIndex(w: seq<Mark>, a: Mark) returns (before: seq<Mark>, after: seq<Mark>)
    requires Index(w, a) < |w|
    ensures w == before + [a] + after && a !in before
    ensures after == w[Index(w, a) + 1..]
  {
    hide Index;
    before, after := w[..Index(w, a)], w[Index(w, a) + 1..];
  }

  lemma {:induction false} EmptiedHead(w: seq<Mark>)
    requires w != [] && StripWord(w) == []
    ensures w[0] == Start && Index(w[1..], End) < |w[1..]|
    ensures StripWord(w[1..][Index(w[1..], End) + 1..]) == []
  {
    hide StripWord, Index;
    var i := Index(w, Start);
    if i == |w| || Index(w[i + 1..], End) == |w[i + 1..]| {
      StripWordStays(w);
    } else {
      StripWordStep(w);
      EmptyParts(w[..i], StripWord(w[i + 1..][Index(w[i + 1..], End) + 1..]));
    }
  }

  lemma EmptyParts(v: seq<Mark>, w: seq<Mark>)
    requires v + w == []
    ensures v == [] && w == []
  {
    assert |v + w| == |v| + |w|;
  }

  /** If everything is stripped, every match used up one end and at least one start. */
  lemma {:induction false} EmptiedTally(w: seq<Mark>)
    requires StripWord(w) == []
    ensures Tally(w, End) <= Tally(w, Start)
    ensures Tally(w, Start) == Tally(w, End) ==> Alternates(w)
    decreases |w|
  {
    if w != [] {
      var body, tail := EmptiedSplit(w);
      EmptiedTally(tail);
      TallyAround(body, End, tail, Start);
      TallyAround(body, End, tail, End);
      TallyUniform(body, End, Start);
      assert w[1..] == body + [End] + tail;
      if body == [] {
        AlternatesCons(w, tail);
      }
    }
  }

  lemma AlternatesCons(w: seq<Mark>, tail: seq<Mark>)
    requires |w| >= 2 && w[0] == Start && w[1] == End && w[2..] == tail
    ensures Alternates(w) <==> Alternates(tail)
  {
    assert |w| == |tail| + 2;
    assert forall i :: 0 <= i < |tail| ==> tail[i] == w[i + 2];
    assert forall i :: 2 <= i < |w| ==> w[i] == tail[i - 2];
  }

  lemma {:induction false} AlternatingVanishes(w: seq<Mark>)
    requires Alternates(w)
    ensures StripWord(w) == []
    ensures Tally(w, Start) == Tally(w, End)
    decreases |w|
  {
    if w != [] {
      var tail := w[2..];
      assert w == [] + [Start] + ([] + [End] + tail);
      assert w[1..] == [End] + tail && w[1..][1..] == tail;
      StripWordBlock([], [], tail);
      AlternatesCons(w, tail);
      AlternatingVanishes(tail);
    }
  }

  /** For a document the guard lets through, no marker survives exactly when the markers
      strictly alternate, beginning with a start. */
  lemma NoMarkerSurvivesIff(t: string, p: Pair)
    requires IsPair(p) && Count(t, p.start) == Count(t, p.end)
    ensures Absent(Stripped(t, p), p.start) && Absent(Stripped(t, p), p.end)
            <==> Alternates(Marks(t, p))
  {
    var w := Marks(t, p);
    CountIsTally(t, p, Start);
    CountIsTally(t, p, End);
    StripCommutes(t, p);
    NoMarksIff(Stripped(t, p), p);
    if Alternates(w) { AlternatingVanishes(w); }
    if StripWord(w) == [] { EmptiedTally(w); }
  }

  /** The guard is weaker than that: when the first block swallows two starts and the counts
      still agree, an end is left over. */
  lemma GuardAdmitsLeftover(p: Pair)
    requires IsPair(p)
    ensures exists t :: && Count(t, p.start) == Count(t, p.end)
                        && !Absent(Stripped(t, p), p.end)
  {
    hide *;
    NothingMarked(p);
    var t3 := p.end + "";
    var t2 := p.end + t3;
    var t1 := p.start + t2;
    var t := p.start + t1;
    MarksOfMarker(p, Start, t1);
    MarksOfMarker(p, Start, t2);
    MarksOfMarker(p, End, t3);
    MarksOfMarker(p, End, "");
    var w := [Start] + ([Start] + ([End] + ([End] + [])));
    assert Marks(t, p) == w;
    CountIsTally(t, p, Start);
    CountIsTally(t, p, End);
    DoubledWord();
    StripCommutes(t, p);
    FoundIff(Stripped(t, p), p, End);
    AbsentIff(Stripped(t, p), p.end);
  }

  lemma NothingMarked(p: Pair)
    requires IsPair(p)
    ensures Marks("", p) == [] && Spelling(p, Start) == p.start && Spelling(p, End) == p.end
    ensures p.start != "" && p.end != ""
  {}

  lemma DoubledWord()
    ensures var w := [Start] + ([Start] + ([End] + ([End] + [])));
            Tally(w, Start) == Tally(w, End) && StripWord(w) == [End]
  {
    var ends := [End] + ([End] + []);
    var w := [Start] + ([Start] + ends);
    TallyConcat([Start], [Start] + ends, Start);
    TallyConcat([Start], [Start] + ends, End);
    TallyConcat([Start], ends, Start);
    TallyConcat([Start], ends, End);
    assert w == [] + [Start] + ([Start] + [End] + [End]);
    StripWordBlock([], [Start], [End]);
    SettledFixed([End]);
  }

  lemma {:induction false} SettledNoBlock(u: string, p: Pair)
    requires IsPair(p) && Settled(Marks(u, p))
    ensures FirstBlock(u, p).None?
  {
    if Partition(u, p.start).Some? {
      var (x, y) := Partition(u, p.start).value;
      MarksAtFirst(u, p, Start);
      AfterStart(Marks(x, p), Marks(y, p));
      FoundIff(y, p, End);
    }
  }

  lemma AfterStart(v: seq<Mark>, w: seq<Mark>)
    requires Settled(v + [Start] + w)
    ensures End !in w
  {
    var x := v + [Start] + w;
    assert x[|v|] == Start;
    assert forall k :: 0 <= k < |w| ==> w[k] == x[|v| + 1 + k];
  }

  /** Stripping twice is stripping once, on every text. */
  lemma StrippedIdempotent(t: string, p: Pair)
    requires IsPair(p)
    ensures Stripped(Stripped(t, p), p) == Stripped(t, p)
  {
    StripCommutes(t, p);
    StripWordSettles(Marks(t, p));
    SettledNoBlock(Stripped(t, p), p);
  }
}
