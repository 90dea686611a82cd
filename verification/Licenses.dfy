/** The third-party license file (scripts/generate_third_party_licenses.py, `build_output`):
    group by label, sort each group and the labels, print. */
module Licenses {
  import opened Basics
  import opened StableSort

  datatype Package = Package(name: string, version: string, ecosystem: string, license: string,
                             copyright: string, text: string)

  /** The string functions of the standard library, the rewriting of retired source locations,
      and the fixed header. */
  datatype Style = Style(lower: string -> string, rstrip: string -> string,
                         splitlines: string -> seq<string>, normalize: string -> string, header: seq<string>)

  datatype Section = Section(license: string, packages: seq<Package>)

  function PackageKey(style: Style): Package -> Key {
    (p: Package) => (style.lower(p.name), p.ecosystem)
  }

  function LabelKey(style: Style): string -> Key {
    (l: string) => (style.lower(l), "")
  }

  // ----- Grouping -----

  /** The labels in the order in which they first appear. */
  function Labels(ps: seq<Package>): seq<string> {
    if ps == [] then [] else
    var init := Labels(ps[..|ps| - 1]);
    var l := ps[|ps| - 1].license;
    if l in init then init else init + [l]
  }

  function Group(ps: seq<Package>, name: string): seq<Package> {
    if ps == [] then [] else
    var init := Group(ps[..|ps| - 1], name);
    if ps[|ps| - 1].license == name then init + [ps[|ps| - 1]] else init
  }

  function SectionsFor(style: Style, ps: seq<Package>, labels: seq<string>): (s: seq<Section>)
    ensures |s| == |labels|
    ensures forall i :: 0 <= i < |labels| ==>
              s[i] == Section(labels[i], Sort(PackageKey(style), Group(ps, labels[i])))
  {
    seq(|labels|, i requires 0 <= i < |labels| =>
      Section(labels[i], Sort(PackageKey(style), Group(ps, labels[i]))))
  }

  function Sections(style: Style, ps: seq<Package>): seq<Section> {
    SectionsFor(style, ps, Sort(LabelKey(style), Labels(ps)))
  }

  // ----- Printing -----

  const RULE: string := "------------------------------------------------------------"

  /** The first package of a group that ships a license text. */
  function Representative(ps: seq<Package>): (r: Option<Package>)
    ensures r.None? ==> forall p :: p in ps ==> p.text == ""
    ensures r.Some? ==> exists i :: 0 <= i < |ps| && ps[i] == r.value && r.value.text != ""
                                    && forall k :: 0 <= k < i ==> ps[k].text == ""
  {
    if ps == [] then None
    else if ps[0].text != "" then Some(ps[0])
    else
      var r := Representative(ps[1..]);
      assert forall p :: p in ps ==> p == ps[0] || p in ps[1..];
      assert r.Some? ==> exists i :: 0 <= i < |ps[1..]| && ps[1..][i] == r.value && ps[i + 1] == r.value
                                     && forall k :: 0 <= k < i ==> ps[1..][k].text == "";
      r
  }

  /** A package's own line, and its copyright line if it has one. */
  function EntryLines(style: Style, p: Package): seq<string> {
    [style.rstrip("  " + p.name + " " + p.version + (if p.ecosystem == "npm" then " (frontend)" else ""))]
    + (if p.copyright != "" then ["    " + style.normalize(p.copyright)] else [])
  }

  /** A frontend package says so; the copyright line is there exactly if there is a notice. */
  lemma EntryShows(style: Style, p: Package)
    ensures p.ecosystem == "npm" ==> EntryLines(style, p)[0] == style.rstrip("  " + p.name + " " + p.version + " (frontend)")
    ensures p.ecosystem != "npm" ==> EntryLines(style, p)[0] == style.rstrip("  " + p.name + " " + p.version)
    ensures p.copyright == "" ==> |EntryLines(style, p)| == 1
    ensures p.copyright != "" ==> EntryLines(style, p)[1..] == ["    " + style.normalize(p.copyright)]
  {
    assert "  " + p.name + " " + p.version + "" == "  " + p.name + " " + p.version;
  }

  function BodyLines(style: Style, p: Package): seq<string> {
    var lines := style.splitlines(p.text);
    seq(|lines|, i requires 0 <= i < |lines| => style.normalize(style.rstrip(lines[i])))
  }

  function Entries(style: Style, ps: seq<Package>): seq<string> {
    if ps == [] then [] else Entries(style, ps[..|ps| - 1]) + EntryLines(style, ps[|ps| - 1])
  }

  function SectionLines(style: Style, s: Section): seq<string> {
    [RULE, "License: " + s.license, RULE, ""] + Entries(style, s.packages) + [""]
    + match Representative(s.packages)
      case None => []
      case Some(p) => ["Full license text (as shipped with " + p.name + "):", ""] + BodyLines(style, p) + [""]
  }

  function AllLines(style: Style, sections: seq<Section>): seq<string> {
    if sections == [] then style.header
    else AllLines(style, sections[..|sections| - 1]) + SectionLines(style, sections[|sections| - 1])
  }

  function Join(lines: seq<string>): string {
    if lines == [] then "" else if |lines| == 1 then lines[0] else lines[0] + "\n" + Join(lines[1..])
  }

  function Output(style: Style, ps: seq<Package>): string {
    style.rstrip(Join(AllLines(style, Sections(style, ps)))) + "\n"
  }

  /** `build_output`, with the dictionary as an ordered list of labels and a map. */
  method BuildOutput(style: Style, packages: seq<Package>) returns (out: string)
    ensures out == Output(style, packages)
    ensures out == style.rstrip(Join(AllLines(style, Sections(style, packages)))) + "\n"
  {
    var order, groups := GroupByLabel(packages);
    groups := SortGroups(style, packages, order, groups);
    var labels := Sort(LabelKey(style), order);
    SortCorrect(LabelKey(style), order);
    SameMembers(labels, order);
    var lines := PrintSections(style, packages, labels, groups);
    out := style.rstrip(Join(lines)) + "\n";
  }

  method PrintSections(style: Style, ghost packages: seq<Package>, labels: seq<string>,
                       groups: map<string, seq<Package>>) returns (lines: seq<string>)
    requires forall l :: l in labels ==> l in groups && groups[l] == Sort(PackageKey(style), Group(packages, l))
    ensures lines == AllLines(style, SectionsFor(style, packages, labels))
  {
    hide SectionLines, Sort, Group;
    lines := style.header;
    ghost var sections := SectionsFor(style, packages, labels);
    for i := 0 to |labels|
      invariant lines == AllLines(style, sections[..i])
    {
      assert labels[i] in labels;
      assert sections[..i + 1][..i] == sections[..i];
      lines := lines + SectionLines(style, Section(labels[i], groups[labels[i]]));
    }
    assert sections[..|labels|] == sections;
  }

  /** Each group's list is sorted in place. */
  method SortGroups(style: Style, ghost packages: seq<Package>, order: seq<string>,
                    unsorted: map<string, seq<Package>>) returns (groups: map<string, seq<Package>>)
    requires Distinct(order) && forall l :: l in order ==> l in unsorted && unsorted[l] == Group(packages, l)
    ensures forall l :: l in order ==> l in groups && groups[l] == Sort(PackageKey(style), Group(packages, l))
  {
    hide Sort, Group;
    groups := unsorted;
    for i := 0 to |order|
      invariant forall k :: 0 <= k < |order| ==> order[k] in groups
      invariant forall k :: 0 <= k < i ==> groups[order[k]] == Sort(PackageKey(style), Group(packages, order[k]))
      invariant forall k :: i <= k < |order| ==> groups[order[k]] == Group(packages, order[k])
    {
      groups := groups[order[i] := Sort(PackageKey(style), groups[order[i]])];
    }
  }

  method GroupByLabel(packages: seq<Package>) returns (order: seq<string>, groups: map<string, seq<Package>>)
    ensures order == Labels(packages)
    ensures Distinct(order)
    ensures forall l :: l in order ==> l in groups && groups[l] == Group(packages, l)
  {
    LabelsDistinct(packages);
    order, groups := [], map[];
    for i := 0 to |packages|
      invariant order == Labels(packages[..i])
      invariant forall l :: l in order <==> l in groups
      invariant forall l :: l in groups ==> groups[l] == Group(packages[..i], l)
    {
      var p := packages[i];
      assert packages[..i + 1][..i] == packages[..i];
      if p.license !in groups {
        NoGroup(packages[..i], p.license);
        order := order + [p.license];
        groups := groups[p.license := []];
      }
      groups := groups[p.license := groups[p.license] + [p]];
    }
    assert packages[..|packages|] == packages;
  }

  lemma {:induction false} NoGroup(ps: seq<Package>, name: string)
    requires name !in Labels(ps)
    ensures Group(ps, name) == []
  {
    if ps != [] { NoGroup(ps[..|ps| - 1], name); }
  }

  lemma {:induction false} LabelsDistinct(ps: seq<Package>)
    ensures Distinct(Labels(ps))
  {
    if ps != [] { LabelsDistinct(ps[..|ps| - 1]); }
  }

  lemma {:induction false} LabelsAre(ps: seq<Package>)
    ensures forall l :: l in Labels(ps) <==> exists i :: 0 <= i < |ps| && ps[i].license == l
  {
    if ps != [] {
      var init := ps[..|ps| - 1];
      LabelsAre(init);
      assert forall i :: 0 <= i < |init| ==> init[i] == ps[i];
      forall l ensures l in Labels(ps) <==> exists i :: 0 <= i < |ps| && ps[i].license == l {
        if i :| 0 <= i < |ps| && ps[i].license == l {
          if i < |init| { assert init[i].license == l; }
        }
        if l in Labels(ps) && l !in Labels(init) { assert ps[|ps| - 1].license == l; }
        if l in Labels(init) {
          var i :| 0 <= i < |init| && init[i].license == l;
          assert ps[i].license == l;
        }
      }
    }
  }

  lemma {:induction false} GroupCount(ps: seq<Package>, name: string, p: Package)
    ensures multiset(Group(ps, name))[p] == if p.license == name then multiset(ps)[p] else 0
  {
    if ps != [] {
      assert ps == ps[..|ps| - 1] + [ps[|ps| - 1]];
      GroupCount(ps[..|ps| - 1], name, p);
    }
  }

  // ----- What the file shows -----

  /** The number of lines printed for the first j packages. */
  function EntryOffset(style: Style, ps: seq<Package>, j: nat): nat
    requires j <= |ps|
  {
    if j == 0 then 0
    else EntryOffset(style, ps, j - 1) + if ps[j - 1].copyright == "" then 1 else 2
  }

  lemma {:induction false} OffsetOfInit(style: Style, ps: seq<Package>, j: nat)
    requires j < |ps|
    ensures EntryOffset(style, ps[..|ps| - 1], j) == EntryOffset(style, ps, j)
  {
    if j > 0 { OffsetOfInit(style, ps, j - 1); }
  }

  /** Some lines stand in a text at a position. */
  predicate At(lines: seq<string>, position: nat, part: seq<string>) {
    position + |part| <= |lines| && lines[position..position + |part|] == part
  }

  lemma AtFront(a: seq<string>, b: seq<string>, i: nat, part: seq<string>)
    requires At(a, i, part)
    ensures At(a + b, i, part)
  {}

  lemma AtBack(a: seq<string>, b: seq<string>, i: nat, part: seq<string>)
    requires At(b, i, part)
    ensures At(a + b, |a| + i, part)
  {
    assert (a + b)[|a| + i..|a| + i + |part|] == b[i..i + |part|];
  }

  lemma AtStart(a: seq<string>, b: seq<string>)
    ensures At(a + b, 0, a) && At(b + a, |b|, a)
  {
    assert (b + a)[|b|..|b| + |a|] == a;
  }

  lemma {:induction false} EntriesLength(style: Style, ps: seq<Package>)
    ensures |Entries(style, ps)| == EntryOffset(style, ps, |ps|)
  {
    if ps != [] {
      EntriesLength(style, ps[..|ps| - 1]);
      OffsetOfInit(style, ps, |ps| - 1);
    }
  }

  lemma {:induction false} EntryAt(style: Style, ps: seq<Package>, j: nat)
    requires j < |ps|
    ensures At(Entries(style, ps), EntryOffset(style, ps, j), EntryLines(style, ps[j]))
  {
    hide EntryLines, At;
    var init, last := ps[..|ps| - 1], ps[|ps| - 1];
    OffsetOfInit(style, ps, j);
    if j < |init| {
      EntryAt(style, init, j);
      AtFront(Entries(style, init), EntryLines(style, last), EntryOffset(style, ps, j), EntryLines(style, ps[j]));
    } else {
      EntriesLength(style, init);
      AtStart(EntryLines(style, last), Entries(style, init));
    }
  }

  /** The heading of a section, four lines. */
  function Heading(s: Section): seq<string> {
    [RULE, "License: " + s.license, RULE, ""]
  }

  /** What follows the entries of a section. */
  function Footer(style: Style, s: Section): seq<string> {
    [""] + match Representative(s.packages)
           case None => []
           case Some(p) => ["Full license text (as shipped with " + p.name + "):", ""] + BodyLines(style, p) + [""]
  }

  /** A section from top to bottom: its heading, the entry of every package in order, a blank
      line, and the representative text if some package ships one; nothing in between. */
  lemma SectionLayout(style: Style, s: Section)
    ensures var lines, n := SectionLines(style, s), EntryOffset(style, s.packages, |s.packages|);
            && At(lines, 0, Heading(s)) && At(lines, 4 + n, Footer(style, s))
            && |lines| == 4 + n + |Footer(style, s)|
            && (forall j :: 0 <= j < |s.packages| ==>
                  At(lines, 4 + EntryOffset(style, s.packages, j), EntryLines(style, s.packages[j])))
  {
    hide EntryLines, BodyLines, At, Entries, EntryOffset;
    EntriesLength(style, s.packages);
    var entries, footer := Entries(style, s.packages), Footer(style, s);
    assert SectionLines(style, s) == Heading(s) + (entries + footer) == (Heading(s) + entries) + footer;
    AtStart(Heading(s), entries + footer);
    AtStart(footer, Heading(s) + entries);
    forall j | 0 <= j < |s.packages|
      ensures At(SectionLines(style, s), 4 + EntryOffset(style, s.packages, j), EntryLines(style, s.packages[j]))
    {
      EntryAt(style, s.packages, j);
      AtFront(entries, footer, EntryOffset(style, s.packages, j), EntryLines(style, s.packages[j]));
      AtBack(Heading(s), entries + footer, EntryOffset(style, s.packages, j), EntryLines(style, s.packages[j]));
    }
  }

  /** The header, then the sections one after another and nothing else. */
  lemma {:induction false} LinesLayout(style: Style, sections: seq<Section>, i: nat)
    requires i < |sections|
    ensures style.header <= AllLines(style, sections) && AllLines(style, []) == style.header
    ensures |AllLines(style, sections[..i + 1])| == |AllLines(style, sections[..i])| + |SectionLines(style, sections[i])|
    ensures At(AllLines(style, sections), |AllLines(style, sections[..i])|, SectionLines(style, sections[i]))
  {
    hide SectionLines, At;
    var init := sections[..|sections| - 1];
    var a, b := AllLines(style, init), SectionLines(style, sections[|sections| - 1]);
    if i < |init| {
      LinesLayout(style, init, i);
      assert init[..i] == sections[..i] && init[..i + 1] == sections[..i + 1];
      AtFront(a, b, |AllLines(style, sections[..i])|, SectionLines(style, sections[i]));
    } else {
      assert sections[..i] == init && sections[..i + 1] == sections;
      HeaderFirst(style, init);
      AtStart(b, a);
    }
  }

  lemma {:induction false} HeaderFirst(style: Style, sections: seq<Section>)
    ensures style.header <= AllLines(style, sections)
  {
    hide SectionLines;
    if sections != [] { HeaderFirst(style, sections[..|sections| - 1]); }
  }

  /** Lines are joined by newlines, none being added or lost. */
  lemma {:induction false} JoinConcat(a: seq<string>, b: seq<string>)
    requires a != [] && b != []
    ensures Join(a + b) == Join(a) + "\n" + Join(b)
  {
    if |a| > 1 {
      assert (a + b)[1..] == a[1..] + b;
      JoinConcat(a[1..], b);
    } else {
      assert (a + b)[1..] == b;
    }
  }

  // ----- Every package once -----

  function Flatten(sections: seq<Section>): seq<Package> {
    if sections == [] then []
    else Flatten(sections[..|sections| - 1]) + sections[|sections| - 1].packages
  }

  lemma {:induction false} FlattenCount(style: Style, ps: seq<Package>, labels: seq<string>, p: Package)
    requires Distinct(labels)
    ensures multiset(Flatten(SectionsFor(style, ps, labels)))[p]
            == if p.license in labels then multiset(ps)[p] else 0
  {
    if labels != [] {
      var init, last := labels[..|labels| - 1], labels[|labels| - 1];
      FlattenCount(style, ps, init, p);
      FlattenStep(style, ps, labels);
      SortCorrect(PackageKey(style), Group(ps, last));
      GroupCount(ps, last, p);
      hide *;
      LastLabel(labels, p.license);
      var before, group := Flatten(SectionsFor(style, ps, init)), Sort(PackageKey(style), Group(ps, last));
      assert multiset(before + group)[p] == multiset(before)[p] + multiset(group)[p];
    }
  }

  lemma LastLabel(labels: seq<string>, l: string)
    requires labels != [] && Distinct(labels)
    ensures var init, last := labels[..|labels| - 1], labels[|labels| - 1];
            Distinct(init) && last !in init && (l in labels <==> l in init || l == last)
  {
    assert labels == labels[..|labels| - 1] + [labels[|labels| - 1]];
  }

  lemma FlattenStep(style: Style, ps: seq<Package>, labels: seq<string>)
    requires labels != []
    ensures var init, last := labels[..|labels| - 1], labels[|labels| - 1];
            Flatten(SectionsFor(style, ps, labels))
            == Flatten(SectionsFor(style, ps, init)) + Sort(PackageKey(style), Group(ps, last))
  {
    hide Sort, Group;
    var sections := SectionsFor(style, ps, labels);
    assert sections[..|sections| - 1] == SectionsFor(style, ps, labels[..|labels| - 1]);
  }

  lemma SortedLabels(style: Style, ps: seq<Package>)
    ensures var labels := Sort(LabelKey(style), Labels(ps));
            && Distinct(labels)
            && (forall l :: l in labels <==> l in Labels(ps))
  {
    SortCorrect(LabelKey(style), Labels(ps));
    LabelsDistinct(ps);
    SameMembers(Sort(LabelKey(style), Labels(ps)), Labels(ps));
    DistinctByMultiset(Labels(ps), Sort(LabelKey(style), Labels(ps)));
  }

  lemma {:induction false} DistinctCounts(s: seq<string>, x: string)
    requires Distinct(s)
    ensures multiset(s)[x] == if x in s then 1 else 0
  {
    if s != [] {
      var init := s[..|s| - 1];
      assert s == init + [s[|s| - 1]];
      DistinctCounts(init, x);
    }
  }

  lemma DistinctByMultiset(s: seq<string>, t: seq<string>)
    requires Distinct(s) && multiset(s) == multiset(t)
    ensures Distinct(t)
  {
    forall i, j | 0 <= i < j < |t| ensures t[i] != t[j] {
      DistinctCounts(s, t[i]);
      assert t == t[..i] + [t[i]] + t[i + 1..j] + [t[j]] + t[j + 1..];
      assert multiset(t) == multiset(t[..i]) + multiset{t[i]} + multiset(t[i + 1..j]) + multiset{t[j]} + multiset(t[j + 1..]);
    }
  }

  lemma {:induction false} GroupNotEmpty(ps: seq<Package>, name: string)
    requires name in Labels(ps)
    ensures Group(ps, name) != []
  {
    if ps[|ps| - 1].license != name { GroupNotEmpty(ps[..|ps| - 1], name); }
  }

  predicate NameOrdered(style: Style, ps: seq<Package>) {
    forall j, k :: 0 <= j < k < |ps| ==>
      || StringLess(style.lower(ps[j].name), style.lower(ps[k].name))
      || (style.lower(ps[j].name) == style.lower(ps[k].name) && !StringLess(ps[k].ecosystem, ps[j].ecosystem))
  }

  lemma NameThenEcosystem(style: Style, ps: seq<Package>)
    requires Ascending(PackageKey(style), ps)
    ensures NameOrdered(style, ps)
  {
    hide StringLess;
    forall j, k | 0 <= j < k < |ps|
      ensures || StringLess(style.lower(ps[j].name), style.lower(ps[k].name))
              || (style.lower(ps[j].name) == style.lower(ps[k].name) && !StringLess(ps[k].ecosystem, ps[j].ecosystem))
    {
      StringOrder(style.lower(ps[j].name), style.lower(ps[k].name), "");
    }
  }

  /** Every package is listed once, in the one section of its label; each section is in order,
      and so are the sections. */
  lemma EveryPackageOnce(style: Style, ps: seq<Package>)
    ensures multiset(Flatten(Sections(style, ps))) == multiset(ps)
    ensures var s := Sections(style, ps);
            && (forall i, j :: 0 <= i < j < |s| ==> s[i].license != s[j].license)
            && (forall i, p :: 0 <= i < |s| && p in s[i].packages ==> p.license == s[i].license)
            && (forall i :: 0 <= i < |s| ==> Ascending(PackageKey(style), s[i].packages))
            && (forall i :: 0 <= i < |s| ==> NameOrdered(style, s[i].packages) && s[i].packages != [])
            && (forall i, j :: 0 <= i < j < |s| ==>
                  !StringLess(style.lower(s[j].license), style.lower(s[i].license)))
  {
    SortedLabels(style, ps);
    SortCorrect(LabelKey(style), Labels(ps));
    var labels := Sort(LabelKey(style), Labels(ps));
    var s := Sections(style, ps);
    forall p: Package ensures multiset(Flatten(s))[p] == multiset(ps)[p] {
      FlattenCount(style, ps, labels, p);
      LabelsAre(ps);
      if p in multiset(ps) {
        var i :| 0 <= i < |ps| && ps[i] == p;
        assert ps[i].license == p.license;
      }
    }
    forall i | 0 <= i < |s|
      ensures Ascending(PackageKey(style), s[i].packages)
      ensures forall p :: p in s[i].packages ==> p.license == s[i].license
      ensures NameOrdered(style, s[i].packages) && s[i].packages != []
    {
      var g := Group(ps, labels[i]);
      SortCorrect(PackageKey(style), g);
      NameThenEcosystem(style, s[i].packages);
      GroupNotEmpty(ps, labels[i]);
      assert multiset(s[i].packages) == multiset(g);
      forall p | p in s[i].packages ensures p.license == s[i].license {
        assert p in multiset(s[i].packages);
        GroupCount(ps, labels[i], p);
      }
    }
  }

  /** Every collected package is printed, below the heading of its license. */
  lemma EveryPackagePrinted(style: Style, ps: seq<Package>, p: Package) returns (heading: nat, entry: nat)
    requires p in ps
    ensures heading < entry
    ensures At(AllLines(style, Sections(style, ps)), heading, ["License: " + p.license])
    ensures At(AllLines(style, Sections(style, ps)), entry, EntryLines(style, p))
  {
    LabelsAre(ps);
    var m :| 0 <= m < |ps| && ps[m] == p;
    assert ps[m].license == p.license;
    var i := SectionOf(style, ps, p.license);
    var group := Sections(style, ps)[i].packages;
    SortCorrect(PackageKey(style), Group(ps, p.license));
    GroupCount(ps, p.license, p);
    assert p in multiset(ps) && p in multiset(group);
    var j :| 0 <= j < |group| && group[j] == p;
    heading, entry := PlaceOf(style, Sections(style, ps), i, j);
  }

  lemma PlaceOf(style: Style, sections: seq<Section>, i: nat, j: nat) returns (heading: nat, entry: nat)
    requires i < |sections| && j < |sections[i].packages|
    ensures heading < entry
    ensures At(AllLines(style, sections), heading, ["License: " + sections[i].license])
    ensures At(AllLines(style, sections), entry, EntryLines(style, sections[i].packages[j]))
  {
    hide *;
    var s := sections[i];
    LinesLayout(style, sections, i);
    EntryInSection(style, s, j);
    var from := |AllLines(style, sections[..i])|;
    heading, entry := from + 1, from + (4 + EntryOffset(style, s.packages, j));
    AtWithin(AllLines(style, sections), from, SectionLines(style, s), 1, ["License: " + s.license]);
    AtWithin(AllLines(style, sections), from, SectionLines(style, s), 4 + EntryOffset(style, s.packages, j),
             EntryLines(style, s.packages[j]));
  }

  lemma EntryInSection(style: Style, s: Section, j: nat)
    requires j < |s.packages|
    ensures At(SectionLines(style, s), 1, ["License: " + s.license])
    ensures At(SectionLines(style, s), 4 + EntryOffset(style, s.packages, j), EntryLines(style, s.packages[j]))
  {
    hide *;
    SectionLayout(style, s);
    LabelInHeading(s);
    AtWithin(SectionLines(style, s), 0, Heading(s), 1, ["License: " + s.license]);
  }

  lemma LabelInHeading(s: Section)
    ensures At(Heading(s), 1, ["License: " + s.license])
  {
    assert Heading(s)[1..2] == ["License: " + s.license];
  }

  lemma AtWithin(lines: seq<string>, i: nat, middle: seq<string>, j: nat, part: seq<string>)
    requires At(lines, i, middle) && At(middle, j, part)
    ensures At(lines, i + j, part)
  {
    forall k | 0 <= k < |part| ensures lines[i + j + k] == part[k] {
      assert part[k] == middle[j..j + |part|][k] == middle[j + k];
      assert middle[j + k] == lines[i..i + |middle|][j + k];
    }
  }

  // ----- Ties -----

  /** The packages of a label with a given sort key, as they were collected. */
  function Chosen(style: Style, ps: seq<Package>, name: string, k: Key): seq<Package> {
    if ps == [] then []
    else (if ps[0].license == name && (style.lower(ps[0].name), ps[0].ecosystem) == k then [ps[0]] else [])
         + Chosen(style, ps[1..], name, k)
  }

  lemma {:induction false} ChosenStep(style: Style, ps: seq<Package>, p: Package, name: string, k: Key)
    ensures Chosen(style, ps + [p], name, k) == Chosen(style, ps, name, k) + Chosen(style, [p], name, k)
  {
    if ps == [] {
      assert [] + [p] == [p];
    } else {
      assert (ps + [p])[1..] == ps[1..] + [p];
      ChosenStep(style, ps[1..], p, name, k);
    }
  }

  lemma {:induction false} GroupChosen(style: Style, ps: seq<Package>, name: string, k: Key)
    ensures Alike(PackageKey(style), Group(ps, name), k) == Chosen(style, ps, name, k)
  {
    if ps != [] {
      var init, last := ps[..|ps| - 1], ps[|ps| - 1];
      GroupChosen(style, init, name, k);
      ChosenStep(style, init, last, name, k);
      assert ps == init + [last];
      assert [last][1..] == [];
      AlikeStep(PackageKey(style), Group(init, name), last, k);
    }
  }

  /** Packages of one section with equal keys come out in the order of their collection. */
  lemma TiesKeepOrder(style: Style, ps: seq<Package>, i: nat, k: Key)
    requires i < |Sections(style, ps)|
    ensures var s := Sections(style, ps)[i];
            Alike(PackageKey(style), s.packages, k) == Chosen(style, ps, s.license, k)
  {
    var name := Sections(style, ps)[i].license;
    SortStable(PackageKey(style), Group(ps, name), k);
    GroupChosen(style, ps, name, k);
  }

  predicate FirstUse(ps: seq<Package>, name: string, at: nat) {
    at < |ps| && ps[at].license == name && forall c :: 0 <= c < at ==> ps[c].license != name
  }

  lemma FirstUseLater(ps: seq<Package>, p: Package, name: string, at: nat)
    requires FirstUse(ps, name, at)
    ensures FirstUse(ps + [p], name, at)
  {}

  /** Labels are met in the order of their first use. */
  lemma {:induction false} LabelsByFirstUse(ps: seq<Package>) returns (at: seq<nat>)
    ensures |at| == |Labels(ps)|
    ensures forall i :: 0 <= i < |at| ==> FirstUse(ps, Labels(ps)[i], at[i])
    ensures forall i, j :: 0 <= i < j < |at| ==> at[i] < at[j]
  {
    if ps == [] {
      at := [];
    } else {
      var init, last := ps[..|ps| - 1], ps[|ps| - 1];
      at := LabelsByFirstUse(init);
      assert ps == init + [last];
      forall i | 0 <= i < |at| ensures FirstUse(ps, Labels(init)[i], at[i]) {
        FirstUseLater(init, last, Labels(init)[i], at[i]);
      }
      if last.license !in Labels(init) {
        LabelsAre(init);
        assert FirstUse(ps, last.license, |init|);
        at := at + [|init|];
      }
    }
  }

  // ----- Determinism -----

  /** Packages of one label with the same sort key are the same package, and no two labels
      differ in case only. */
  ghost predicate Unambiguous(style: Style, ps: seq<Package>) {
    && (forall x, y :: x in ps && y in ps && x.license == y.license ==>
          PackageKey(style)(x) == PackageKey(style)(y) ==> x == y)
    && Determined(LabelKey(style), Labels(ps))
  }

  predicate LabelsDifferProperly(style: Style, ps: seq<Package>) {
    forall x, y :: x in ps && y in ps && x.license != y.license ==> style.lower(x.license) != style.lower(y.license)
  }

  lemma LabelsDetermined(style: Style, ps: seq<Package>)
    ensures Determined(LabelKey(style), Labels(ps)) <==> LabelsDifferProperly(style, ps)
  {
    LabelsAre(ps);
    hide Labels;
    if Determined(LabelKey(style), Labels(ps)) {
      forall x, y | x in ps && y in ps && x.license != y.license
        ensures style.lower(x.license) != style.lower(y.license)
      {
        var i :| 0 <= i < |ps| && ps[i] == x;
        var k :| 0 <= k < |ps| && ps[k] == y;
        assert ps[i].license in Labels(ps) && ps[k].license in Labels(ps);
        assert LabelKey(style)(x.license) != LabelKey(style)(y.license);
      }
    }
    if LabelsDifferProperly(style, ps) {
      forall l, m | l in Labels(ps) && m in Labels(ps) && LabelKey(style)(l) == LabelKey(style)(m) ensures l == m {
        var i :| 0 <= i < |ps| && ps[i].license == l;
        var k :| 0 <= k < |ps| && ps[k].license == m;
      }
    }
  }

  /** In terms of the packages themselves. */
  lemma UnambiguousIff(style: Style, ps: seq<Package>)
    ensures Unambiguous(style, ps) <==>
              && (forall x, y :: x in ps && y in ps && x.license == y.license && x != y ==>
                    style.lower(x.name) != style.lower(y.name) || x.ecosystem != y.ecosystem)
              && LabelsDifferProperly(style, ps)
  {
    LabelsDetermined(style, ps);
    hide Labels, Determined, LabelsDifferProperly;
  }

  lemma GroupsAgree(style: Style, ps: seq<Package>, qs: seq<Package>, name: string)
    requires multiset(ps) == multiset(qs) && Unambiguous(style, ps)
    ensures Sort(PackageKey(style), Group(ps, name)) == Sort(PackageKey(style), Group(qs, name))
  {
    var g, h := Group(ps, name), Group(qs, name);
    forall p ensures multiset(g)[p] == multiset(h)[p] {
      GroupCount(ps, name, p);
      GroupCount(qs, name, p);
    }
    assert multiset(g) == multiset(h);
    forall p | p in g ensures p in ps && p.license == name {
      assert p in multiset(g);
      GroupCount(ps, name, p);
      assert p in multiset(ps);
    }
    SortForgetsOrder(PackageKey(style), g, h);
  }

  lemma LabelsAgree(ps: seq<Package>, qs: seq<Package>)
    requires multiset(ps) == multiset(qs)
    ensures multiset(Labels(ps)) == multiset(Labels(qs))
  {
    LabelsAre(ps);
    LabelsAre(qs);
    LabelsDistinct(ps);
    LabelsDistinct(qs);
    SameMembers(ps, qs);
    forall l ensures multiset(Labels(ps))[l] == multiset(Labels(qs))[l] {
      DistinctCounts(Labels(ps), l);
      DistinctCounts(Labels(qs), l);
      LabelIn(ps, qs, l);
      LabelIn(qs, ps, l);
    }
  }

  lemma LabelIn(ps: seq<Package>, qs: seq<Package>, l: string)
    requires forall p :: p in ps <==> p in qs
    ensures l in Labels(ps) ==> l in Labels(qs)
  {
    LabelsAre(ps);
    LabelsAre(qs);
    if l in Labels(ps) {
      var i :| 0 <= i < |ps| && ps[i].license == l;
      assert ps[i] in qs;
    }
  }

  lemma SectionsAgree(style: Style, ps: seq<Package>, qs: seq<Package>)
    requires multiset(ps) == multiset(qs) && Unambiguous(style, ps)
    ensures Sections(style, ps) == Sections(style, qs)
  {
    LabelsAgree(ps, qs);
    SortForgetsOrder(LabelKey(style), Labels(ps), Labels(qs));
    var labels := Sort(LabelKey(style), Labels(ps));
    forall i | 0 <= i < |labels| { GroupsAgree(style, ps, qs, labels[i]); }
  }

  /** The order in which packages are collected leaves no trace in the output, representative
      license texts included. */
  lemma OutputIgnoresOrder(style: Style, ps: seq<Package>, qs: seq<Package>)
    requires multiset(ps) == multiset(qs) && Unambiguous(style, ps)
    ensures Output(style, ps) == Output(style, qs)
  {
    SectionsAgree(style, ps, qs);
  }

  lemma {:induction false} GroupConcat(ps: seq<Package>, qs: seq<Package>, name: string)
    ensures Group(ps + qs, name) == Group(ps, name) + Group(qs, name)
  {
    if qs == [] {
      assert ps + qs == ps;
    } else {
      assert (ps + qs)[..|ps + qs| - 1] == ps + qs[..|qs| - 1];
      GroupConcat(ps, qs[..|qs| - 1], name);
    }
  }

  lemma {:induction false} LabelsExtend(ps: seq<Package>, qs: seq<Package>)
    ensures Labels(ps) <= Labels(ps + qs)
  {
    if qs == [] {
      assert ps + qs == ps;
    } else {
      assert (ps + qs)[..|ps + qs| - 1] == ps + qs[..|qs| - 1];
      LabelsExtend(ps, qs[..|qs| - 1]);
    }
  }

  lemma LabelsOfPair(x: Package, y: Package)
    ensures Labels([x, y]) == if x.license == y.license then [x.license] else [x.license, y.license]
    ensures x.license == y.license ==> Group([x, y], x.license) == [x, y]
  {
    assert [x, y][..1] == [x] && [x][..0] == [];
    assert Labels([x]) == [x.license] && Group([x], x.license) == [x];
  }

  lemma AlikePair<T>(key: T -> Key, x: T, y: T, rest: seq<T>)
    requires key(x) == key(y)
    ensures Alike(key, [x, y] + rest, key(x)) == [x, y] + Alike(key, rest, key(x))
  {
    AlikeConcat(key, [x, y], rest, key(x));
    AlikeStep(key, [], x, key(x));
    AlikeStep(key, [x], y, key(x));
    assert [] + [x] == [x] && [x] + [y] == [x, y];
  }

  /** The section of a label that is present. */
  lemma SectionOf(style: Style, ps: seq<Package>, name: string) returns (i: nat)
    requires name in Labels(ps)
    ensures i < |Sections(style, ps)|
    ensures Sections(style, ps)[i] == Section(name, Sort(PackageKey(style), Group(ps, name)))
  {
    SortedLabels(style, ps);
    var labels := Sort(LabelKey(style), Labels(ps));
    i :| 0 <= i < |labels| && labels[i] == name;
  }

  /** Two packages of one section with the same sort key come out in the order they went in. */
  lemma PackageOrderShows(style: Style, x: Package, y: Package, rest: seq<Package>)
    requires x != y && x.license == y.license && PackageKey(style)(x) == PackageKey(style)(y)
    ensures Sections(style, [x, y] + rest) != Sections(style, [y, x] + rest)
  {
    var key, name := PackageKey(style), x.license;
    var ps, qs := [x, y] + rest, [y, x] + rest;
    LabelsOfPair(x, y);
    LabelsOfPair(y, x);
    LabelsExtend([x, y], rest);
    assert Labels(ps)[0] == name;
    var i := SectionOf(style, ps, name);
    GroupConcat([x, y], rest, name);
    GroupConcat([y, x], rest, name);
    SortStable(key, Group(ps, name), key(x));
    SortStable(key, Group(qs, name), key(x));
    AlikePair(key, x, y, Group(rest, name));
    AlikePair(key, y, x, Group(rest, name));
    assert Alike(key, Sort(key, Group(ps, name)), key(x))[0] == x;
    assert Alike(key, Sort(key, Group(qs, name)), key(x))[0] == y;
  }

  /** Two labels that differ in case only head their sections in the order they were met. */
  lemma LabelOrderShows(style: Style, x: Package, y: Package, rest: seq<Package>)
    requires x.license != y.license && style.lower(x.license) == style.lower(y.license)
    ensures Sections(style, [x, y] + rest) != Sections(style, [y, x] + rest)
  {
    var key := LabelKey(style);
    FirstLabel(style, x, y, rest);
    FirstLabel(style, y, x, rest);
    if Sections(style, [x, y] + rest) == Sections(style, [y, x] + rest) {
      SectionsTellLabels(style, [x, y] + rest, [y, x] + rest);
    }
  }

  lemma SectionsTellLabels(style: Style, ps: seq<Package>, qs: seq<Package>)
    requires Sections(style, ps) == Sections(style, qs)
    ensures Sort(LabelKey(style), Labels(ps)) == Sort(LabelKey(style), Labels(qs))
  {
    var a, b := Sort(LabelKey(style), Labels(ps)), Sort(LabelKey(style), Labels(qs));
    assert |a| == |b|;
    forall i | 0 <= i < |a| ensures a[i] == b[i] {
      assert Sections(style, ps)[i].license == a[i];
    }
  }

  lemma FirstLabel(style: Style, x: Package, y: Package, rest: seq<Package>)
    requires x.license != y.license && style.lower(x.license) == style.lower(y.license)
    ensures var first := Alike(LabelKey(style), Sort(LabelKey(style), Labels([x, y] + rest)), LabelKey(style)(x.license));
            first != [] && first[0] == x.license
  {
    var key, labels := LabelKey(style), Labels([x, y] + rest);
    LabelsOfPair(x, y);
    LabelsExtend([x, y], rest);
    assert labels == [x.license, y.license] + labels[2..];
    AlikePair(key, x.license, y.license, labels[2..]);
    SortStable(key, labels, key(x.license));
  }

  lemma TakeOut<T>(s: seq<T>, x: T) returns (rest: seq<T>)
    requires x in s
    ensures multiset(s) == multiset(rest) + multiset{x}
  {
    var i :| 0 <= i < |s| && s[i] == x;
    rest := s[..i] + s[i + 1..];
    assert s == s[..i] + [x] + s[i + 1..];
  }

  /** Bring two different members of a list to its front. */
  lemma ToFront(ps: seq<Package>, x: Package, y: Package) returns (rest: seq<Package>)
    requires x in ps && y in ps && x != y
    ensures multiset([x, y] + rest) == multiset(ps) == multiset([y, x] + rest)
  {
    var some := TakeOut(ps, x);
    assert y in multiset(ps);
    assert y in some;
    rest := TakeOut(some, y);
  }

  /** The sections do not depend on the order of collection exactly when the input is
      unambiguous. */
  lemma SectionsIgnoreOrderIff(style: Style, ps: seq<Package>)
    ensures (forall qs :: multiset(qs) == multiset(ps) ==> Sections(style, qs) == Sections(style, ps))
            <==> Unambiguous(style, ps)
  {
    hide *;
    if Unambiguous(style, ps) {
      forall qs: seq<Package> | multiset(qs) == multiset(ps)
        ensures Sections(style, qs) == Sections(style, ps)
      {
        SectionsAgree(style, ps, qs);
      }
    } else {
      var x, y := Colliding(style, ps);
      var rest := ToFront(ps, x, y);
      if x.license == y.license {
        PackageOrderShows(style, x, y, rest);
      } else {
        LabelOrderShows(style, x, y, rest);
      }
    }
  }

  lemma Colliding(style: Style, ps: seq<Package>) returns (x: Package, y: Package)
    requires !Unambiguous(style, ps)
    ensures x in ps && y in ps && x != y
    ensures if x.license == y.license then PackageKey(style)(x) == PackageKey(style)(y)
            else style.lower(x.license) == style.lower(y.license)
  {
    if Determined(LabelKey(style), Labels(ps)) {
      x, y :| x in ps && y in ps && x.license == y.license
              && PackageKey(style)(x) == PackageKey(style)(y) && x != y;
    } else {
      var l, m :| l in Labels(ps) && m in Labels(ps) && LabelKey(style)(l) == LabelKey(style)(m) && l != m;
      LabelsAre(ps);
      var i :| 0 <= i < |ps| && ps[i].license == l;
      var k :| 0 <= k < |ps| && ps[k].license == m;
      x, y := ps[i], ps[k];
    }
  }

  /** Different sections may still print alike: of two packages that differ only in shipping a
      license text, the text is printed whichever comes first. */
  lemma AmbiguousMayPrintAlike(style: Style, x: Package, y: Package)
    requires x.text != "" && y == x.(text := "")
    ensures !Unambiguous(style, [x, y])
    ensures Output(style, [x, y]) == Output(style, [y, x])
  {
    hide Sections, AllLines, Sort, Join;
    assert !Unambiguous(style, [x, y]) by { assert x in [x, y] && y in [x, y]; }
    PairPrints(style, x, y);
    PairPrints(style, y, x);
    SameLines(style, x, y);
  }

  lemma SameLines(style: Style, x: Package, y: Package)
    requires x.text != "" && y == x.(text := "")
    ensures SectionLines(style, Section(x.license, [x, y])) == SectionLines(style, Section(x.license, [y, x]))
  {
    assert [y, x][1..] == [x];
    assert Representative([x, y]) == Some(x) && Representative([y, x]) == Some(x);
    assert [x, y][..1] == [x] && [y, x][..1] == [y] && [x][..0] == [] && [y][..0] == [];
    assert Entries(style, [x, y]) == Entries(style, [y, x]);
  }

  lemma PairPrints(style: Style, x: Package, y: Package)
    requires x.license == y.license && PackageKey(style)(x) == PackageKey(style)(y)
    ensures Sections(style, [x, y]) == [Section(x.license, [x, y])]
    ensures AllLines(style, Sections(style, [x, y]))
            == style.header + SectionLines(style, Section(x.license, [x, y]))
  {
    LabelsOfPair(x, y);
    var l := x.license;
    assert [l][..0] == [];
    assert Sort(LabelKey(style), [l]) == [l];
    Order(PackageKey(style)(x), PackageKey(style)(x), PackageKey(style)(x));
    assert [x, y][..1] == [x] && [x][..0] == [];
    assert Sort(PackageKey(style), [x]) == [x];
    assert Sort(PackageKey(style), [x, y]) == [x, y];
    var s := Sections(style, [x, y]);
    assert s == [Section(l, [x, y])];
    assert s[..0] == [];
  }
}
