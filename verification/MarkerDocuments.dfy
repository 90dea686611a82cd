/** Documents cut at their blocks, and the two documentation passes over a snapshot
    (scripts/export_public_snapshot.py).

    A document whose markers alternate is a sequence of outside texts with a block between
    each two.  Stripping is described on that sequence alone, so no byte of a block can
    reach the output. */
module MarkerDocuments {
  import opened Basics
  import opened MarkerBlocks
  import opened MarkerInclusion

  datatype Document = Tail(text: string) | Section(before: string, body: string, rest: Document)

  function Render(d: Document, p: Pair): string {
    match d
    case Tail(x) => x
    case Section(x, body, rest) => x + p.start + body + p.end + Render(rest, p)
  }

  /** No marker apart from the ones that delimit the blocks. */
  predicate Clean(d: Document, p: Pair)
    requires IsPair(p)
  {
    match d
    case Tail(x) => Marks(x, p) == []
    case Section(x, body, rest) => Marks(x, p) == [] && Marks(body, p) == [] && Clean(rest, p)
  }

  function Parse(t: string, p: Pair): Document
    requires IsPair(p)
    decreases |t|
  {
    match FirstBlock(t, p)
    case None => Tail(t)
    case Some(b) => Section(b.before, b.body, Parse(b.after, p))
  }

  lemma {:induction false} RenderOfParse(t: string, p: Pair)
    requires IsPair(p)
    ensures Render(Parse(t, p), p) == t
    decreases |t|
  {
    match FirstBlock(t, p)
    case None =>
    case Some(b) => RenderOfParse(b.after, p);
  }

  lemma SectionMarks(x: string, body: string, y: string, p: Pair)
    requires IsPair(p)
    ensures Marks(x + p.start + body + p.end + y, p)
            == Marks(x, p) + [Start] + (Marks(body, p) + [End] + Marks(y, p))
  {
    assert x + p.start + body + p.end + y == x + p.start + (body + p.end + y);
    MarksAroundMarker(x, p, Start, body + p.end + y);
    MarksAroundMarker(body, p, End, y);
  }

  lemma {:induction false} CleanAlternates(d: Document, p: Pair)
    requires IsPair(p) && Clean(d, p)
    ensures Alternates(Marks(Render(d, p), p))
  {
    match d
    case Tail(x) =>
    case Section(x, body, rest) =>
      CleanAlternates(rest, p);
      SectionMarks(x, body, Render(rest, p), p);
      hide Alternates, Marks;
      PairAlternates(Marks(Render(rest, p), p));
  }

  lemma PairAlternates(tail: seq<Mark>)
    requires Alternates(tail)
    ensures Alternates([] + [Start] + ([] + [End] + tail))
  {
    assert [] + [Start] + ([] + [End] + tail) == [Start, End] + tail;
    AlternatesCons([Start, End] + tail, tail);
  }

  lemma AlternatesSplit(v: seq<Mark>, w: seq<Mark>, x: seq<Mark>)
    requires Start !in v && End !in w
    requires Alternates(v + [Start] + (w + [End] + x))
    ensures v == [] && w == [] && Alternates(x)
  {
    var all := v + [Start] + (w + [End] + x);
    var first, second := all[0], all[1];
    assert first == Start && second == End;
    assert all == v + ([Start] + (w + [End] + x));
    HeadOf(v, [Start] + (w + [End] + x));
    assert v == [];
    assert all[1..] == w + ([End] + x);
    HeadOf(w, [End] + x);
    assert w == [];
    assert all == [Start, End] + x;
    AlternatesCons(all, x);
  }

  lemma HeadOf(v: seq<Mark>, w: seq<Mark>)
    ensures v != [] ==> (v + w)[0] == v[0] && v[0] in v
  {}

  lemma NoStartNoMarks(w: seq<Mark>)
    requires Alternates(w) && Start !in w
    ensures w == []
  {
    HeadOf(w, []);
  }

  lemma AlternatesHasEnd(v: seq<Mark>, w: seq<Mark>)
    requires Start !in v && Alternates(v + [Start] + w)
    ensures End in w
  {
    var all := v + [Start] + w;
    assert all[|v|] == Start;
    assert all[|v| + 1] == End == w[0];
  }

  lemma {:induction false} AlternatingParsesClean(t: string, p: Pair)
    requires IsPair(p) && Alternates(Marks(t, p))
    ensures Clean(Parse(t, p), p)
    decreases |t|
  {
    match FirstBlock(t, p)
    case None => NoBlockNoMarks(t, p);
    case Some(b) =>
      BlockMarks(t, p);
      AlternatesSplit(Marks(b.before, p), Marks(b.body, p), Marks(b.after, p));
      AlternatingParsesClean(b.after, p);
  }

  lemma BlockMarks(t: string, p: Pair)
    requires IsPair(p) && FirstBlock(t, p).Some?
    ensures var b := FirstBlock(t, p).value;
            && Start !in Marks(b.before, p) && End !in Marks(b.body, p)
            && Marks(t, p) == Marks(b.before, p) + [Start] + (Marks(b.body, p) + [End] + Marks(b.after, p))
  {
    var (x, y) := Partition(t, p.start).value;
    MarksAtFirst(t, p, Start);
    MarksAtFirst(y, p, End);
  }

  lemma NoBlockNoMarks(t: string, p: Pair)
    requires IsPair(p) && FirstBlock(t, p).None? && Alternates(Marks(t, p))
    ensures Marks(t, p) == []
  {
    if Partition(t, p.start).Some? {
      var (x, y) := Partition(t, p.start).value;
      MarksAtFirst(t, p, Start);
      AlternatesHasEnd(Marks(x, p), Marks(y, p));
      FoundIff(y, p, End);
    } else {
      FoundIff(t, p, Start);
      NoStartNoMarks(Marks(t, p));
    }
  }

  /** The markers alternate exactly when the text is cleanly cut into blocks, and then it is
      cut in only one way. */
  lemma AlternatesIffCleanDocument(t: string, p: Pair)
    requires IsPair(p)
    ensures Alternates(Marks(t, p)) <==> Clean(Parse(t, p), p)
    ensures forall d :: Clean(d, p) && Render(d, p) == t ==> d == Parse(t, p)
  {
    RenderOfParse(t, p);
    if Alternates(Marks(t, p)) {
      AlternatingParsesClean(t, p);
    }
    if Clean(Parse(t, p), p) {
      CleanAlternates(Parse(t, p), p);
    }
    forall d | Clean(d, p) && Render(d, p) == t ensures d == Parse(t, p) {
      ParseOfRender(d, p);
    }
  }

  lemma {:induction false} PartitionOfConcat(x: string, y: string, p: Pair, a: Mark)
    requires IsPair(p) && a !in Marks(x, p)
    ensures Partition(x + Spelling(p, a) + y, Spelling(p, a)) == Some((x, y))
  {
    FoundIff(x, p, a);
    PartitionExact(x, y, Spelling(p, a));
  }

  lemma {:induction false} PartitionExact(x: string, y: string, m: string)
    requires IsMarker(m) && Partition(x, m).None?
    ensures Partition(x + m + y, m) == Some((x, y))
  {
    AbsentIff(x, m);
    forall k | 0 <= k < |x| ensures !(m <= x[k..] + (m + y)) {
      NoStraddle(x[k..], m + y, m);
    }
    PassOver(x, m + y, m);
    assert (m + y)[|m|..] == y;
    assert x + "" == x;
    ConcatAssociates(x, m, y);
  }

  lemma FirstBlockOfSection(x: string, body: string, y: string, p: Pair)
    requires IsPair(p) && Marks(x, p) == [] && Marks(body, p) == []
    ensures FirstBlock(x + p.start + body + p.end + y, p) == Some(Block(x, body, y))
  {
    assert x + p.start + body + p.end + y == x + p.start + (body + p.end + y);
    PartitionOfConcat(x, body + p.end + y, p, Start);
    PartitionOfConcat(body, y, p, End);
  }

  lemma NoBlockInCleanTail(x: string, p: Pair)
    requires IsPair(p) && Marks(x, p) == []
    ensures FirstBlock(x, p).None?
  {
    FoundIff(x, p, Start);
  }

  lemma {:induction false} ParseOfRender(d: Document, p: Pair)
    requires IsPair(p) && Clean(d, p)
    ensures Parse(Render(d, p), p) == d
  {
    match d
    case Tail(x) => NoBlockInCleanTail(x, p);
    case Section(x, body, rest) =>
      FirstBlockOfSection(x, body, Render(rest, p), p);
      ParseOfRender(rest, p);
  }

  // ----- What stripping keeps -----

  /** The texts between, before and after the blocks. */
  function Outside(d: Document): (o: seq<string>)
    ensures |o| > 0
  {
    match d
    case Tail(x) => [x]
    case Section(x, body, rest) => [x] + Outside(rest)
  }

  /** The texts joined by newlines, each losing at most one newline where it met a block. */
  function Joined(o: seq<string>): string
    requires |o| > 0
    decreases |o|
  {
    if |o| == 1 then o[0] else Lead(o[0]) + Joined([SkipNewline(o[1])] + o[2..])
  }

  function SkipHead(d: Document): Document {
    match d
    case Tail(x) => Tail(SkipNewline(x))
    case Section(x, body, rest) => Section(SkipNewline(x), body, rest)
  }

  lemma SkipConcat(x: string, y: string)
    requires y != "" && y[0] == '<'
    ensures SkipNewline(x + y) == SkipNewline(x) + y
  {
    if x == "" {
      assert x + y == y;
    } else {
      assert (x + y)[1..] == x[1..] + y;
    }
  }

  lemma SkipHeadRenders(d: Document, p: Pair)
    requires IsPair(p) && Clean(d, p)
    ensures Clean(SkipHead(d), p)
    ensures Render(SkipHead(d), p) == SkipNewline(Render(d, p))
    ensures Outside(SkipHead(d)) == [SkipNewline(Outside(d)[0])] + Outside(d)[1..]
    ensures |Outside(SkipHead(d))| == |Outside(d)|
  {
    hide Marks;
    match d
    case Tail(x) => SkipNewlineMarks(x, p);
    case Section(x, body, rest) =>
      SkipNewlineMarks(x, p);
      var y := p.start + body + p.end + Render(rest, p);
      assert Render(d, p) == x + y && Render(SkipHead(d), p) == SkipNewline(x) + y;
      SkipConcat(x, y);
  }

  /** Stripping an alternating document keeps exactly the outside texts, in order; the block
      bodies play no part. */
  lemma {:induction false} StrippedKeepsOutside(d: Document, p: Pair)
    requires IsPair(p) && Clean(d, p)
    ensures Stripped(Render(d, p), p) == Joined(Outside(d))
    decreases |Outside(d)|
  {
    match d
    case Tail(x) => NoBlockInCleanTail(x, p);
    case Section(x, body, rest) =>
      FirstBlockOfSection(x, body, Render(rest, p), p);
      StrippedUnfold(Render(d, p), p);
      SkipHeadRenders(rest, p);
      StrippedKeepsOutside(SkipHead(rest), p);
      JoinedStep(x, Outside(rest));
  }

  lemma JoinedStep(x: string, o: seq<string>)
    requires |o| > 0
    ensures Joined([x] + o) == Lead(x) + Joined([SkipNewline(o[0])] + o[1..])
  {
    assert ([x] + o)[2..] == o[1..];
  }

  /** The characters other than newlines. */
  function Solid(t: string): string {
    if t == "" then "" else (if t[0] == '\n' then "" else [t[0]]) + Solid(t[1..])
  }

  function Concat(o: seq<string>): string {
    if o == [] then "" else o[0] + Concat(o[1..])
  }

  lemma {:induction false} SolidConcat(x: string, y: string)
    ensures Solid(x + y) == Solid(x) + Solid(y)
  {
    if x == "" {
      assert x + y == y;
    } else {
      assert (x + y)[1..] == x[1..] + y;
      SolidConcat(x[1..], y);
    }
  }

  lemma LeadSolid(x: string)
    ensures Solid(Lead(x)) == Solid(x)
  {
    var y := ChopNewline(x);
    SolidConcat(y, "\n");
    assert Solid("\n") == "";
    if y != x {
      assert x == y + "\n";
    }
  }

  lemma SkipSolid(x: string)
    ensures Solid(SkipNewline(x)) == Solid(x)
  {}

  lemma {:induction false} JoinedSolid(o: seq<string>)
    requires |o| > 0
    ensures Solid(Joined(o)) == Solid(Concat(o))
    decreases |o|
  {
    if |o| == 1 {
      assert o[1..] == [] && Concat(o) == o[0] + "" == o[0];
    } else {
      var rest := [SkipNewline(o[1])] + o[2..];
      JoinedSolid(rest);
      assert rest[1..] == o[2..] && o[1..][1..] == o[2..] && o[1..][0] == o[1];
      SolidConcat(Lead(o[0]), Joined(rest));
      LeadSolid(o[0]);
      SolidConcat(SkipNewline(o[1]), Concat(o[2..]));
      SkipSolid(o[1]);
      SolidConcat(o[1], Concat(o[2..]));
      SolidConcat(o[0], Concat(o[1..]));
    }
  }

  /** Nothing but newlines is lost from, or added to, the text outside the blocks. */
  lemma StrippedConservesText(t: string, p: Pair)
    requires IsPair(p) && Alternates(Marks(t, p))
    ensures Solid(Stripped(t, p)) == Solid(Concat(Outside(Parse(t, p))))
  {
    var d := Parse(t, p);
    RenderOfParse(t, p);
    AlternatingParsesClean(t, p);
    StrippedKeepsOutside(d, p);
    JoinedSolid(Outside(d));
  }

  // ----- Which newlines stay -----

  predicate Newline(a: string) { a == "" || a == "\n" }

  predicate OpensLine(t: string) { t != "" && t[0] == '\n' }

  predicate EndsLine(t: string) { t != "" && t[|t| - 1] == '\n' }

  /** One block and at most one newline on either side of it give way to one newline; a second
      newline next to the first stays, as the end of `x` or the beginning of `y`. */
  lemma StrippedBlock(x: string, a: string, body: string, b: string, y: string, p: Pair)
    requires IsPair(p) && MarkerFree(x, p) && MarkerFree(y, p) && Absent(body, p.end)
    requires Newline(a) && (a == "" ==> !EndsLine(x))
    requires Newline(b) && (b == "" ==> !OpensLine(y))
    ensures Stripped(x + a + p.start + body + p.end + b + y, p) == x + "\n" + y
  {
    var t := x + a + p.start + body + p.end + (b + y);
    assert x + a + p.start + body + p.end + b + y == t;
    BlockFound(x + a, body, b + y, p) by { NewlineAppended(x, a, p); }
    hide FirstBlock, Absent;
    StrippedUnfold(t, p);
    assert Lead(x + a) == x + "\n" by { LeadIs(x, a); }
    assert SkipNewline(b + y) == y by { SkipIs(b, y); }
    TailStays(y, p);
  }

  lemma LeadIs(x: string, a: string)
    requires Newline(a) && (a == "" ==> !EndsLine(x))
    ensures Lead(x + a) == x + "\n"
  {
    assert a == "" ==> x + a == x;
    assert a == "\n" ==> (x + a)[..|x|] == x;
  }

  lemma SkipIs(b: string, y: string)
    requires Newline(b) && (b == "" ==> !OpensLine(y))
    ensures SkipNewline(b + y) == y
  {
    assert b == "" ==> b + y == y;
    assert b == "\n" ==> (b + y)[1..] == y;
  }

  lemma NewlineAppended(x: string, a: string, p: Pair)
    requires IsPair(p) && MarkerFree(x, p) && Newline(a)
    ensures Absent(x + a, p.start)
  {
    NoMarksIff(x, p);
    NoMarksIff(x + a, p);
    assert x + a + "" == x + a;
    if a == "\n" { MarksAroundNewline(x, "", p); } else { assert x + a == x; }
  }

  lemma BlockFound(x: string, body: string, y: string, p: Pair)
    requires IsPair(p) && Absent(x, p.start) && Absent(body, p.end)
    ensures FirstBlock(x + p.start + body + p.end + y, p) == Some(Block(x, body, y))
  {
    hide Absent;
    AbsentIff(x, p.start);
    AbsentIff(body, p.end);
    assert x + p.start + body + p.end + y == x + p.start + (body + p.end + y);
    PartitionExact(x, body + p.end + y, p.start);
    PartitionExact(body, y, p.end);
  }

  lemma TailStays(y: string, p: Pair)
    requires IsPair(p) && MarkerFree(y, p)
    ensures Stripped(y, p) == y
  {
    NoMarksIff(y, p);
    NoBlockInCleanTail(y, p);
  }

  /** The text without the newlines that the blocks on either side of it absorb: one at its
      front if there is a block before it, then one at its end if there is a block behind it.
      A single newline between two blocks belongs to the first of them. */
  ghost predicate Trimmed(o: string, core: string, behindBlock: bool, beforeBlock: bool) {
    exists a, b ::
      && o == a + core + b && Newline(a) && Newline(b)
      && (a == "\n" <==> behindBlock && OpensLine(o))
      && (b == "\n" <==> beforeBlock && EndsLine(core + b))
  }

  function Glued(cores: seq<string>): string
    requires |cores| > 0
  {
    if |cores| == 1 then cores[0] else cores[0] + "\n" + Glued(cores[1..])
  }

  lemma {:induction false} JoinedGlues(o: seq<string>) returns (cores: seq<string>)
    requires |o| > 0
    ensures |cores| == |o| && Joined(o) == Glued(cores)
    ensures forall i :: 0 <= i < |o| ==> Trimmed(o[i], cores[i], i > 0, i < |o| - 1)
    decreases |o|
  {
    hide Trimmed;
    if |o| == 1 {
      cores := o;
      TrimmedWhole(o[0]);
    } else {
      var rest := [SkipNewline(o[1])] + o[2..];
      var tail := JoinedGlues(rest);
      cores := [ChopNewline(o[0])] + tail;
      assert cores[1..] == tail;
      TrimmedFirst(o[0]);
      TrimmedBehind(o[1], tail[0], |rest| > 1);
      forall i | 0 <= i < |o| ensures Trimmed(o[i], cores[i], i > 0, i < |o| - 1) {
        if i > 1 { assert rest[i - 1] == o[i] && tail[i - 1] == cores[i]; }
      }
    }
  }

  lemma TrimmedWhole(o: string)
    ensures Trimmed(o, o, false, false)
  {
    assert Newline("") && o == "" + o + "" == o + "";
  }

  lemma TrimmedFirst(o: string)
    ensures Trimmed(o, ChopNewline(o), false, true)
  {
    var core := ChopNewline(o);
    var b := if EndsLine(o) then "\n" else "";
    assert o == "" + core + b;
    assert core + b == o;
  }

  lemma TrimmedBehind(o: string, core: string, beforeBlock: bool)
    requires Trimmed(SkipNewline(o), core, false, beforeBlock)
    ensures Trimmed(o, core, true, beforeBlock)
  {
    var a, b :| && SkipNewline(o) == a + core + b && Newline(a) && Newline(b)
                && (a == "\n" <==> false && OpensLine(SkipNewline(o)))
                && (b == "\n" <==> beforeBlock && EndsLine(core + b));
    var c := if OpensLine(o) then "\n" else "";
    assert SkipNewline(o) == core + b;
    assert o == c + core + b;
  }

  /** What becomes of the newlines of a whole document: every outside text loses those that
      its neighbouring blocks absorb, and one newline stands for each block. */
  lemma {:induction false} StrippedTrims(d: Document, p: Pair) returns (cores: seq<string>)
    requires IsPair(p) && Clean(d, p)
    ensures |cores| == |Outside(d)| && Stripped(Render(d, p), p) == Glued(cores)
    ensures forall i :: 0 <= i < |cores| ==> Trimmed(Outside(d)[i], cores[i], i > 0, i < |cores| - 1)
  {
    StrippedKeepsOutside(d, p);
    cores := JoinedGlues(Outside(d));
  }

  /** A document whose blocks stand on lines of their own: whole lines before each block. */
  function OwnLines(parts: seq<(string, string)>, last: string, p: Pair): string {
    if parts == [] then last
    else parts[0].0 + p.start + parts[0].1 + p.end + ("\n" + OwnLines(parts[1..], last, p))
  }

  /** The whole lines between the blocks, and a blank line where there are none. */
  function KeptLines(parts: seq<(string, string)>, last: string): string {
    if parts == [] then last
    else (if parts[0].0 == "" then "\n" else parts[0].0) + KeptLines(parts[1..], last)
  }

  /** Blocks on lines of their own vanish with those lines.  Only a block with no line before
      it, at the beginning or directly behind another, leaves a blank one. */
  lemma {:induction false} StrippedDropsBlockLines(parts: seq<(string, string)>, last: string, p: Pair)
    requires IsPair(p) && MarkerFree(last, p)
    requires forall i :: 0 <= i < |parts| ==>
               MarkerFree(parts[i].0, p) && Absent(parts[i].1, p.end) && (parts[i].0 == "" || EndsLine(parts[i].0))
    ensures Stripped(OwnLines(parts, last, p), p) == KeptLines(parts, last)
  {
    hide *;
    OwnLinesStep(parts, last, p);
    if parts == [] {
      TailStays(last, p);
    } else {
      var rest := OwnLines(parts[1..], last, p);
      FirstBlockOfOwnLine(parts[0].0, parts[0].1, "\n" + rest, p);
      StrippedUnfold(OwnLines(parts, last, p), p);
      SkipIs("\n", rest);
      NewlineIs();
      StrippedDropsBlockLines(parts[1..], last, p);
      LeadOfLines(parts[0].0);
    }
  }

  lemma NewlineIs()
    ensures Newline("\n") && Newline("")
  {}

  lemma OwnLinesStep(parts: seq<(string, string)>, last: string, p: Pair)
    ensures parts == [] ==> OwnLines(parts, last, p) == last && KeptLines(parts, last) == last
    ensures parts != [] ==>
              && OwnLines(parts, last, p)
                 == parts[0].0 + p.start + parts[0].1 + p.end + ("\n" + OwnLines(parts[1..], last, p))
              && KeptLines(parts, last)
                 == (if parts[0].0 == "" then "\n" else parts[0].0) + KeptLines(parts[1..], last)
  {}

  lemma LeadOfLines(x: string)
    requires x == "" || EndsLine(x)
    ensures Lead(x) == if x == "" then "\n" else x
  {
    if x == "" {
      LeadIs("", "");
    } else {
      LeadIs(x[..|x| - 1], "\n");
      assert x[..|x| - 1] + "\n" == x;
    }
  }

  lemma FirstBlockOfOwnLine(x: string, body: string, y: string, p: Pair)
    requires IsPair(p) && MarkerFree(x, p) && Absent(body, p.end)
    ensures FirstBlock(x + p.start + body + p.end + y, p) == Some(Block(x, body, y))
  {
    BlockFound(x, body, y, p);
  }

  // ----- The two passes over a snapshot -----

  const SPECIFICATION := "docs/Engineering_Spec"
  const AUTORUN_CONDITIONAL_TEXT_PATHS: seq<string> := [
    "AGENTS.md", "CLAUDE.md", "README.md",
    SPECIFICATION + ".md", SPECIFICATION + "_Brief" + ".md", "docs/Overview.md"]
  const SOURCE_ONLY_TEXT_PATHS: seq<string> := ["AGENTS.md", "CLAUDE.md"]

  datatype Outcome = Done | Unbalanced(path: string)

  predicate Balanced(t: string, p: Pair)
    requires IsPair(p)
  {
    Count(t, p.start) == Count(t, p.end)
  }

  function Rewritten(t: string, p: Pair, strip: bool): string
    requires IsPair(p)
  {
    if strip then Stripped(t, p) else Included(t, p)
  }

  /** The files with exactly the listed ones rewritten. */
  function Pass(files: map<string, string>, paths: seq<string>, p: Pair, strip: bool): map<string, string>
    requires IsPair(p)
  {
    map f | f in files :: if f in paths then Rewritten(files[f], p, strip) else files[f]
  }

  lemma PassNext(files: map<string, string>, paths: seq<string>, i: nat, p: Pair, strip: bool)
    requires IsPair(p) && i < |paths| && Distinct(paths)
    ensures paths[i] !in files ==> Pass(files, paths[..i + 1], p, strip) == Pass(files, paths[..i], p, strip)
    ensures paths[i] in files ==>
              && Pass(files, paths[..i], p, strip)[paths[i]] == files[paths[i]]
              && Pass(files, paths[..i + 1], p, strip)
                 == Pass(files, paths[..i], p, strip)[paths[i] := Rewritten(files[paths[i]], p, strip)]
  {
    hide Rewritten;
    assert paths[..i + 1] == paths[..i] + [paths[i]];
  }

  lemma PassNone(files: map<string, string>, p: Pair, strip: bool)
    requires IsPair(p)
    ensures Pass(files, [], p, strip) == files
  {}

  /** No file comes or goes, and none but the listed ones changes. */
  ghost predicate OnlyListed(before: map<string, string>, after: map<string, string>, paths: seq<string>) {
    after.Keys == before.Keys && forall f :: f in before && f !in paths ==> after[f] == before[f]
  }

  lemma PassOnlyListed(files: map<string, string>, done: seq<string>, paths: seq<string>, p: Pair, strip: bool)
    requires IsPair(p) && done <= paths
    ensures OnlyListed(files, Pass(files, done, p, strip), paths)
  {
    hide Rewritten;
  }

  lemma PassKeys(files: map<string, string>, paths: seq<string>, p: Pair, strip: bool)
    requires IsPair(p)
    ensures Pass(files, paths, p, strip).Keys == files.Keys
  {}

  /** The regular text files of an extracted snapshot, by path. */
  class SnapshotTree {
    var files: map<string, string>

    /** One documentation pass.  It stops at the first unbalanced document; the documents
        before that one are already rewritten, no other file is touched. */
    method RewriteDocuments(paths: seq<string>, p: Pair, strip: bool) returns (r: Outcome)
      requires IsPair(p) && Distinct(paths)
      modifies this
      ensures r.Done? ==>
                && (forall f :: f in old(files) && f in paths ==> Balanced(old(files)[f], p))
                && files == Pass(old(files), paths, p, strip)
      ensures r.Unbalanced? ==>
                exists k :: && 0 <= k < |paths| && paths[k] == r.path && r.path in old(files)
                            && !Balanced(old(files)[r.path], p)
                            && (forall f :: f in old(files) && f in paths[..k] ==> Balanced(old(files)[f], p))
                            && files == Pass(old(files), paths[..k], p, strip)
      ensures OnlyListed(old(files), files, paths)
    {
      hide Rewritten, Balanced, Pass, OnlyListed;
      ghost var before := files;
      PassNone(before, p, strip);
      for i := 0 to |paths|
        invariant files == Pass(before, paths[..i], p, strip)
        invariant forall f :: f in before && f in paths[..i] ==> Balanced(before[f], p)
      {
        PassNext(before, paths, i, p, strip);
        PassKeys(before, paths[..i], p, strip);
        assert paths[..i + 1] == paths[..i] + [paths[i]];
        if paths[i] in files {
          var text := files[paths[i]];
          var balanced := IsBalanced(text, p);
          if !balanced {
            assert before[paths[i]] == text;
            PassOnlyListed(before, paths[..i], paths, p, strip);
            return Unbalanced(paths[i]);
          }
          text := Rewrite(text, p, strip);
          files := files[paths[i] := text];
        }
      }
      assert paths[..|paths|] == paths;
      PassOnlyListed(before, paths, paths, p, strip);
      r := Done;
    }

    method IsBalanced(text: string, p: Pair) returns (b: bool)
      requires IsPair(p)
      ensures b <==> Balanced(text, p)
    {
      b := Count(text, p.start) == Count(text, p.end);
    }

    method Rewrite(text: string, p: Pair, strip: bool) returns (out: string)
      requires IsPair(p)
      ensures out == Rewritten(text, p, strip)
    {
      if strip {
        out := Substitute(text, p);
      } else {
        out := RemoveAll(text, p.start + "\n");
        out := RemoveAll(out, p.end + "\n");
      }
    }

    /** With the feature excluded, a listed document ends up free of markers exactly when its
        markers alternated; with the feature kept, exactly when a newline directly followed each
        of them, provided none was attached to the beginning of another. */
    method ProcessAutorunDocumentation(exclude: bool) returns (r: Outcome)
      modifies this
      ensures IsPair(AUTORUN)
      ensures r.Done? ==> files == Pass(old(files), AUTORUN_CONDITIONAL_TEXT_PATHS, AUTORUN, exclude)
      ensures r.Done? && exclude ==>
                forall f :: f in old(files) && f in AUTORUN_CONDITIONAL_TEXT_PATHS ==>
                  (MarkerFree(files[f], AUTORUN) <==> Alternates(Marks(old(files)[f], AUTORUN)))
      ensures r.Done? && !exclude ==>
                forall f :: f in old(files) && f in AUTORUN_CONDITIONAL_TEXT_PATHS && Detached(old(files)[f], AUTORUN) ==>
                  (MarkerFree(files[f], AUTORUN) <==> Terminated(old(files)[f], AUTORUN))
      ensures r.Unbalanced? ==> r.path in old(files) && !Balanced(old(files)[r.path], AUTORUN)
      ensures OnlyListed(old(files), files, AUTORUN_CONDITIONAL_TEXT_PATHS)
    {
      AutorunPair();
      AutorunPathsDistinct();
      r := RewriteDocuments(AUTORUN_CONDITIONAL_TEXT_PATHS, AUTORUN, exclude);
      if r.Done? {
        PassMarkerFree(old(files), AUTORUN_CONDITIONAL_TEXT_PATHS, AUTORUN);
        PassKeptMarkerFree(old(files), AUTORUN_CONDITIONAL_TEXT_PATHS, AUTORUN);
      }
    }

    method RemoveSourceOnlyDocumentation() returns (r: Outcome)
      modifies this
      ensures IsPair(SOURCE_ONLY)
      ensures r.Done? ==> files == Pass(old(files), SOURCE_ONLY_TEXT_PATHS, SOURCE_ONLY, true)
      ensures r.Done? ==>
                forall f :: f in old(files) && f in SOURCE_ONLY_TEXT_PATHS ==>
                  (MarkerFree(files[f], SOURCE_ONLY) <==> Alternates(Marks(old(files)[f], SOURCE_ONLY)))
      ensures r.Unbalanced? ==> r.path in old(files) && !Balanced(old(files)[r.path], SOURCE_ONLY)
      ensures OnlyListed(old(files), files, SOURCE_ONLY_TEXT_PATHS)
    {
      SourceOnlyPair();
      r := RewriteDocuments(SOURCE_ONLY_TEXT_PATHS, SOURCE_ONLY, true);
      if r.Done? {
        PassMarkerFree(old(files), SOURCE_ONLY_TEXT_PATHS, SOURCE_ONLY);
      }
    }

    /** Both passes, as a snapshot is built.  What the first one achieved lasts: the second
        makes no new autorun marker. */
    method ProcessDocumentation(exclude: bool) returns (r: Outcome)
      modifies this
      ensures IsPair(AUTORUN) && IsPair(SOURCE_ONLY)
      ensures r.Done? ==>
                files == Pass(Pass(old(files), AUTORUN_CONDITIONAL_TEXT_PATHS, AUTORUN, exclude),
                              SOURCE_ONLY_TEXT_PATHS, SOURCE_ONLY, true)
      ensures r.Done? ==>
                forall f :: f in old(files) && f in AUTORUN_CONDITIONAL_TEXT_PATHS ==>
                  FirstPassCleans(old(files)[f], exclude) ==> MarkerFree(files[f], AUTORUN)
      ensures r.Done? ==>
                forall f :: f in old(files) && f in SOURCE_ONLY_TEXT_PATHS ==>
                  (MarkerFree(files[f], SOURCE_ONLY)
                   <==> Alternates(Marks(Rewritten(old(files)[f], AUTORUN, exclude), SOURCE_ONLY)))
    {
      AutorunPair();
      SourceOnlyPair();
      SourceOnlyPathsListed();
      hide Rewritten, Marks, MarkerFree, Alternates, Detached, Terminated;
      r := ProcessAutorunDocumentation(exclude);
      if r.Done? {
        ghost var between := files;
        r := RemoveSourceOnlyDocumentation();
        if r.Done? {
          SecondPassMakesNoMarker(between, SOURCE_ONLY_TEXT_PATHS, SOURCE_ONLY, AUTORUN);
        }
      }
    }
  }

  lemma AutorunPathsDistinct()
    ensures Distinct(AUTORUN_CONDITIONAL_TEXT_PATHS)
  {
    assert AUTORUN_CONDITIONAL_TEXT_PATHS[3][21] == '.' && AUTORUN_CONDITIONAL_TEXT_PATHS[4][21] == '_';
    assert |AUTORUN_CONDITIONAL_TEXT_PATHS[5]| == 16;
  }

  /** The condition under which the first pass leaves a document free of autorun markers. */
  ghost predicate FirstPassCleans(t: string, exclude: bool)
    requires IsPair(AUTORUN)
  {
    if exclude then Alternates(Marks(t, AUTORUN)) else Detached(t, AUTORUN) && Terminated(t, AUTORUN)
  }

  lemma SourceOnlyPathsListed()
    ensures forall f :: f in SOURCE_ONLY_TEXT_PATHS ==> f in AUTORUN_CONDITIONAL_TEXT_PATHS
  {
    assert SOURCE_ONLY_TEXT_PATHS == AUTORUN_CONDITIONAL_TEXT_PATHS[..2];
  }

  lemma PassMarkerFree(files: map<string, string>, paths: seq<string>, p: Pair)
    requires IsPair(p)
    requires forall f :: f in files && f in paths ==> Balanced(files[f], p)
    ensures forall f :: f in files && f in paths ==>
              (MarkerFree(Pass(files, paths, p, true)[f], p) <==> Alternates(Marks(files[f], p)))
  {
    forall f | f in files && f in paths
      ensures MarkerFree(Pass(files, paths, p, true)[f], p) <==> Alternates(Marks(files[f], p))
    {
      NoMarkerSurvivesIff(files[f], p);
    }
  }

  lemma PassKeptMarkerFree(files: map<string, string>, paths: seq<string>, p: Pair)
    requires IsPair(p)
    ensures forall f :: f in files && f in paths && Detached(files[f], p) ==>
              (MarkerFree(Pass(files, paths, p, false)[f], p) <==> Terminated(files[f], p))
  {
    forall f | f in files && f in paths && Detached(files[f], p)
      ensures MarkerFree(Pass(files, paths, p, false)[f], p) <==> Terminated(files[f], p)
    {
      IncludeMarkerFreeIff(files[f], p);
    }
  }

  // ----- The second pass after the first -----

  lemma AbsentTake(t: string, k: nat, m: string)
    requires Absent(t, m) && k <= |t|
    ensures Absent(t[..k], m)
  {
    forall i | 0 <= i <= k ensures !(m <= t[..k][i..]) {
      assert t[i..] == t[..k][i..] + t[k..];
      PrefixOfConcat(m, t[..k][i..], t[k..]);
    }
  }

  lemma AbsentDrop(t: string, k: nat, m: string)
    requires Absent(t, m) && k <= |t|
    ensures Absent(t[k..], m)
  {
    forall i | 0 <= i <= |t[k..]| ensures !(m <= t[k..][i..]) {
      assert t[k + i..] == t[k..][i..];
    }
  }

  lemma AbsentConcat(x: string, y: string, m: string)
    requires IsMarker(m) && Breaks(y) && Absent(x, m) && Absent(y, m)
    ensures Absent(x + y, m)
  {
    forall i | 0 <= i <= |x + y| ensures !(m <= (x + y)[i..]) {
      if i < |x| {
        assert (x + y)[i..] == x[i..] + y;
        NoStraddle(x[i..], y, m);
      } else {
        assert (x + y)[i..] == y[i - |x|..];
      }
    }
  }

  lemma Ends(x: string, m: string, y: string, n: string, z: string)
    ensures var t := x + m + y + n + z; t[..|x|] == x && t[|t| - |z|..] == z
  {
    var t := x + m + y + n + z;
    assert t == x + (m + y + n + z);
  }

  lemma AbsentInBlock(t: string, q: Pair, m: string)
    requires IsPair(q) && Absent(t, m) && FirstBlock(t, q).Some?
    ensures var b := FirstBlock(t, q).value;
            Absent(ChopNewline(b.before), m) && Absent(SkipNewline(b.after), m)
  {
    hide *;
    var b := FirstBlock(t, q).value;
    Ends(b.before, q.start, b.body, q.end, b.after);
    AbsentTake(t, |b.before|, m);
    AbsentDrop(t, |t| - |b.after|, m);
    AbsentTrimmed(b.before, b.after, m);
  }

  lemma AbsentTrimmed(x: string, y: string, m: string)
    requires Absent(x, m) && Absent(y, m)
    ensures Absent(ChopNewline(x), m) && Absent(SkipNewline(y), m)
  {
    AbsentTake(x, |ChopNewline(x)|, m);
    AbsentDrop(y, |y| - |SkipNewline(y)|, m);
  }

  /** Stripping blocks of one kind makes no marker of another. */
  lemma {:induction false} StrippedMakesNoMarker(t: string, q: Pair, m: string)
    requires IsPair(q) && IsMarker(m) && Absent(t, m)
    ensures Absent(Stripped(t, q), m)
    decreases |t|
  {
    hide Absent, ChopNewline, SkipNewline;
    if FirstBlock(t, q).Some? {
      var b := FirstBlock(t, q).value;
      AbsentInBlock(t, q, m);
      SkipShortens(b.after);
      StrippedMakesNoMarker(SkipNewline(b.after), q, m);
      var y := Stripped(SkipNewline(b.after), q);
      NewlineMakesNoMarker(y, m);
      AbsentConcat(ChopNewline(b.before), "\n" + y, m);
      StrippedUnfold(t, q);
      ConcatAssociates(ChopNewline(b.before), "\n", y);
    }
  }

  lemma SkipShortens(t: string)
    ensures |SkipNewline(t)| <= |t|
  {}

  lemma NewlineMakesNoMarker(y: string, m: string)
    requires IsMarker(m) && Absent(y, m)
    ensures Absent("\n" + y, m)
  {
    forall i | 0 <= i <= |"\n" + y| ensures !(m <= ("\n" + y)[i..]) {
      if i > 0 { assert ("\n" + y)[i..] == y[i - 1..]; }
    }
  }

  lemma SecondPassMakesNoMarker(files: map<string, string>, paths: seq<string>, q: Pair, p: Pair)
    requires IsPair(p) && IsPair(q)
    ensures forall f :: f in files && MarkerFree(files[f], p) ==> MarkerFree(Pass(files, paths, q, true)[f], p)
  {
    forall f | f in files && MarkerFree(files[f], p) ensures MarkerFree(Pass(files, paths, q, true)[f], p) {
      StrippedMakesNoMarker(files[f], q, p.start);
      StrippedMakesNoMarker(files[f], q, p.end);
    }
  }
}
