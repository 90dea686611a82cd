/** The check on the public migration files (scripts/validate_public_release.py,
    `find_public_migration_issues`): names, numbering, and the revision links between them. */
module MigrationLineage {
  import opened Basics
  import opened StableSort

  /** The value of a literal assignment. */
  datatype Value = Str(text: string) | NoneValue | NotLiteral

  /** A top-level statement of a migration: an assignment to plain names, or something else. */
  datatype Statement = Assign(targets: seq<string>, value: Value) | Unrelated

  datatype Source = Unreadable | Body(statements: seq<Statement>)

  datatype File = File(name: string, source: Source)

  datatype Issue =
    | BadName(file: string) | NotContiguous
    | CannotInspect(file: string) | WrongRevision(file: string) | WrongParent(file: string)

  // ----- Names and numbers -----

  predicate IsDigit(c: char) { '0' <= c <= '9' }

  function DigitValue(c: char): (d: nat)
    requires IsDigit(c)
    ensures d <= 9
  {
    (c - '0') as int
  }

  predicate InStem(c: char) {
    'a' <= c <= 'z' || IsDigit(c) || c == '_'
  }

  /** `NNN_lowercase_name.py`. */
  predicate WellNamed(name: string) {
    && |name| >= 8
    && IsDigit(name[0]) && IsDigit(name[1]) && IsDigit(name[2]) && name[3] == '_'
    && name[|name| - 3..] == ".py"
    && forall k :: 4 <= k < |name| - 3 ==> InStem(name[k])
  }

  /** Three digits, an underscore, a stem of lower-case letters, digits and underscores, the
      suffix. */
  predicate Spelled(name: string, number: string, stem: string) {
    && name == number + "_" + stem + ".py"
    && |number| == 3 && (forall k :: 0 <= k < 3 ==> '0' <= number[k] <= '9')
    && |stem| > 0 && (forall k :: 0 <= k < |stem| ==>
                        'a' <= stem[k] <= 'z' || '0' <= stem[k] <= '9' || stem[k] == '_')
  }

  lemma WellNamedIff(name: string)
    ensures WellNamed(name) <==> exists number: string, stem: string :: Spelled(name, number, stem)
  {
    if WellNamed(name) { SpelledFrom(name); }
    if number: string, stem: string :| Spelled(name, number, stem) {
      NameFrom(number, stem);
    }
  }

  lemma SpelledFrom(name: string)
    requires WellNamed(name)
    ensures Spelled(name, name[..3], name[4..|name| - 3])
  {
    assert name == name[..3] + "_" + name[4..|name| - 3] + ".py";
  }

  lemma NameFrom(number: string, stem: string)
    requires |number| == 3 && forall k :: 0 <= k < 3 ==> IsDigit(number[k])
    requires |stem| > 0 && forall k :: 0 <= k < |stem| ==> InStem(stem[k])
    ensures WellNamed(number + "_" + stem + ".py")
  {
    hide InStem, IsDigit;
    var name := number + "_" + stem + ".py";
    assert name[..3] == number && name[3] == '_';
    assert forall k :: 0 <= k < 3 ==> name[k] == number[k];
    assert name[|name| - 3..] == ".py";
    assert forall k :: 4 <= k < |name| - 3 ==> name[k] == stem[k - 4];
  }

  function Number(name: string): (n: nat)
    requires WellNamed(name)
    ensures n <= 999
  {
    100 * DigitValue(name[0]) + 10 * DigitValue(name[1]) + DigitValue(name[2])
  }

  function Digit(d: nat): (c: char)
    requires d <= 9
    ensures IsDigit(c) && DigitValue(c) == d
  {
    '0' + d as char
  }

  /** Four digits with leading zeros; the one negative number that arises is -1. */
  function Padded(n: int): string
    requires -1 <= n <= 9999
  {
    if n == -1 then "-001" else
    var tens := n / 10;
    var hundreds := tens / 10;
    [Digit(hundreds / 10), Digit(hundreds % 10), Digit(tens % 10), Digit(n % 10)]
  }

  function Revision(n: int): string
    requires -1 <= n <= 9999
  {
    "v1_" + Padded(n)
  }

  lemma RevisionInjective(m: int, n: int)
    requires -1 <= m <= 9999 && -1 <= n <= 9999
    requires Revision(m) == Revision(n)
    ensures m == n
  {
    assert Revision(m)[3..] == Padded(m) && Revision(n)[3..] == Padded(n);
    PaddedValue(m);
    PaddedValue(n);
  }

  lemma PaddedValue(n: int)
    requires -1 <= n <= 9999
    ensures Padded(n)[0] == '-' <==> n == -1
    ensures n >= 0 ==>
              var s := Padded(n);
              && IsDigit(s[0]) && IsDigit(s[1]) && IsDigit(s[2]) && IsDigit(s[3])
              && n == 10 * (10 * (10 * DigitValue(s[0]) + DigitValue(s[1])) + DigitValue(s[2])) + DigitValue(s[3])
  {}

  function Parent(n: nat): Value
    requires n <= 999
  {
    if n == 1 then NoneValue else Str(Revision(n - 1))
  }

  // ----- The order of the files -----

  predicate Sorted(files: seq<File>) {
    forall i, j :: 0 <= i < j < |files| ==> StringLess(files[i].name, files[j].name)
  }

  /** With numbers of a fixed width, name order follows number order. */
  lemma NumberFollowsName(a: string, b: string)
    requires WellNamed(a) && WellNamed(b) && StringLess(a, b)
    ensures Number(a) <= Number(b)
  {
    if a[0] == b[0] {
      assert StringLess(a[1..], b[1..]) && a[1..][0] == a[1] && b[1..][0] == b[1];
      if a[1] == b[1] {
        assert StringLess(a[1..][1..], b[1..][1..]);
        assert a[1..][1..][0] == a[2] && b[1..][1..][0] == b[2];
      }
    }
  }

  // ----- Assignments -----

  function Record(known: map<string, Value>, targets: seq<string>, value: Value): map<string, Value> {
    if targets == [] then known else
    var rest := Record(known, targets[..|targets| - 1], value);
    var t := targets[|targets| - 1];
    if t in {"revision", "down_revision"} then rest[t := value] else rest
  }

  /** The last assignment to each of the two names wins. */
  function Assignments(body: seq<Statement>): map<string, Value> {
    if body == [] then map[] else
    var rest := Assignments(body[..|body| - 1]);
    match body[|body| - 1]
    case Unrelated => rest
    case Assign(targets, value) => Record(rest, targets, value)
  }

  method CollectAssignments(body: seq<Statement>) returns (assignments: map<string, Value>)
    ensures assignments == Assignments(body)
  {
    assignments := map[];
    for i := 0 to |body|
      invariant assignments == Assignments(body[..i])
    {
      assert body[..i + 1][..i] == body[..i];
      match body[i] {
        case Unrelated =>
        case Assign(targets, value) =>
          ghost var before := assignments;
          for k := 0 to |targets|
            invariant assignments == Record(before, targets[..k], value)
          {
            assert targets[..k + 1][..k] == targets[..k];
            if targets[k] in {"revision", "down_revision"} {
              assignments := assignments[targets[k] := value];
            }
          }
          assert targets[..|targets|] == targets;
      }
    }
    assert body[..|body|] == body;
  }

  function Lookup(a: map<string, Value>, name: string): Option<Value> {
    if name in a then Some(a[name]) else None
  }

  // ----- The check -----

  function FileIssues(f: File): seq<Issue>
    requires WellNamed(f.name)
  {
    if f.source.Unreadable? then [CannotInspect(f.name)] else
    var a := Assignments(f.source.statements);
    var n := Number(f.name);
    (if Lookup(a, "revision") != Some(Str(Revision(n))) then [WrongRevision(f.name)] else [])
    + (if Lookup(a, "down_revision") != Some(Parent(n)) then [WrongParent(f.name)] else [])
  }

  function NameIssues(files: seq<File>): seq<Issue> {
    if files == [] then [] else
    var f := files[|files| - 1];
    NameIssues(files[..|files| - 1]) + if WellNamed(f.name) then [] else [BadName(f.name)]
  }

  function Named(files: seq<File>): (s: seq<File>)
    ensures forall i :: 0 <= i < |s| ==> WellNamed(s[i].name)
  {
    if files == [] then [] else
    var f := files[|files| - 1];
    Named(files[..|files| - 1]) + if WellNamed(f.name) then [f] else []
  }

  function LinkIssues(files: seq<File>): seq<Issue>
    requires forall i :: 0 <= i < |files| ==> WellNamed(files[i].name)
  {
    if files == [] then [] else
    LinkIssues(files[..|files| - 1]) + FileIssues(files[|files| - 1])
  }

  predicate Contiguous(files: seq<File>)
    requires forall i :: 0 <= i < |files| ==> WellNamed(files[i].name)
  {
    forall i :: 0 <= i < |files| ==> Number(files[i].name) == i + 1
  }

  function Issues(files: seq<File>): seq<Issue> {
    var named := Named(files);
    NameIssues(files) + (if Contiguous(named) then [] else [NotContiguous]) + LinkIssues(named)
  }

  /** `find_public_migration_issues`, on the files in their sorted order. */
  method FindPublicMigrationIssues(files: seq<File>) returns (issues: seq<Issue>)
    ensures issues == Issues(files)
  {
    hide WellNamed, NameIssues, LinkIssues, Named, Contiguous;
    var named;
    issues, named := ReadNames(files);
    var contiguous := IsContiguous(named);
    if !contiguous { issues := issues + [NotContiguous]; }
    var links := InspectAll(named);
    issues := issues + links;
  }

  method InspectAll(named: seq<File>) returns (links: seq<Issue>)
    requires forall i :: 0 <= i < |named| ==> WellNamed(named[i].name)
    ensures links == LinkIssues(named)
  {
    hide FileIssues, WellNamed;
    links := [];
    for i := 0 to |named|
      invariant links == LinkIssues(named[..i])
    {
      assert named[..i + 1][..i] == named[..i];
      var found := Inspect(named[i]);
      links := links + found;
    }
    assert named[..|named|] == named;
  }

  /** Report the misnamed files and keep the others. */
  method ReadNames(files: seq<File>) returns (issues: seq<Issue>, named: seq<File>)
    ensures issues == NameIssues(files) && named == Named(files)
  {
    hide WellNamed;
    issues, named := [], [];
    for i := 0 to |files|
      invariant issues == NameIssues(files[..i]) && named == Named(files[..i])
    {
      assert files[..i + 1][..i] == files[..i];
      if WellNamed(files[i].name) {
        named := named + [files[i]];
      } else {
        issues := issues + [BadName(files[i].name)];
      }
    }
    assert files[..|files|] == files;
  }

  method IsContiguous(named: seq<File>) returns (contiguous: bool)
    requires forall i :: 0 <= i < |named| ==> WellNamed(named[i].name)
    ensures contiguous <==> Contiguous(named)
  {
    hide WellNamed, Number;
    contiguous := true;
    for i := 0 to |named|
      invariant contiguous <==> forall k :: 0 <= k < i ==> Number(named[k].name) == k + 1
    {
      if Number(named[i].name) != i + 1 { contiguous := false; }
    }
  }

  method Inspect(file: File) returns (found: seq<Issue>)
    requires WellNamed(file.name)
    ensures found == FileIssues(file)
  {
    var sequence := Number(file.name);
    if file.source.Unreadable? { return [CannotInspect(file.name)]; }
    var assignments := CollectAssignments(file.source.statements);
    found := [];
    if Lookup(assignments, "revision") != Some(Str(Revision(sequence))) {
      found := found + [WrongRevision(file.name)];
    }
    if Lookup(assignments, "down_revision") != Some(Parent(sequence)) {
      found := found + [WrongParent(file.name)];
    }
  }

  // ----- What a report says -----

  predicate Assigns(st: Statement, name: string) {
    st.Assign? && name in st.targets
  }

  lemma {:induction false} RecordIs(known: map<string, Value>, targets: seq<string>, value: Value, name: string)
    requires name in {"revision", "down_revision"}
    ensures Lookup(Record(known, targets, value), name) == if name in targets then Some(value) else Lookup(known, name)
  {
    if targets != [] {
      RecordIs(known, targets[..|targets| - 1], value, name);
      assert targets == targets[..|targets| - 1] + [targets[|targets| - 1]];
    }
  }

  /** What a migration declares under a name is what its last assignment to it says. */
  lemma {:induction false} LastAssignmentWins(body: seq<Statement>, name: string)
    requires name in {"revision", "down_revision"}
    ensures match Lookup(Assignments(body), name)
            case None => forall i :: 0 <= i < |body| ==> !Assigns(body[i], name)
            case Some(v) => exists i :: && 0 <= i < |body| && Assigns(body[i], name) && body[i].value == v
                                        && forall k :: i < k < |body| ==> !Assigns(body[k], name)
  {
    if body != [] {
      var init, last := body[..|body| - 1], body[|body| - 1];
      LastAssignmentWins(init, name);
      assert forall i :: 0 <= i < |init| ==> init[i] == body[i];
      if last.Assign? { RecordIs(Assignments(init), last.targets, last.value, name); }
      if Assigns(last, name) {
        assert body[|body| - 1].value == Lookup(Assignments(body), name).value;
      } else if Lookup(Assignments(init), name).Some? {
        var i :| && 0 <= i < |init| && Assigns(init[i], name) && init[i].value == Lookup(Assignments(init), name).value
                 && forall k :: i < k < |init| ==> !Assigns(init[k], name);
        assert Assigns(body[i], name);
      }
    }
  }

  lemma {:induction false} NameIssuesAre(files: seq<File>)
    ensures forall e :: e in NameIssues(files) <==>
              exists i :: 0 <= i < |files| && !WellNamed(files[i].name) && e == BadName(files[i].name)
    ensures forall f :: f in Named(files) <==> f in files && WellNamed(f.name)
  {
    hide WellNamed;
    if files != [] {
      var init := files[..|files| - 1];
      NameIssuesAre(init);
      assert files == init + [files[|files| - 1]];
      assert forall i :: 0 <= i < |init| ==> init[i] == files[i];
    }
  }

  lemma {:induction false} LinkIssuesAre(files: seq<File>)
    requires forall i :: 0 <= i < |files| ==> WellNamed(files[i].name)
    ensures forall e :: e in LinkIssues(files) <==> exists f :: f in files && e in FileIssues(f)
  {
    hide WellNamed, FileIssues;
    if files != [] {
      var init := files[..|files| - 1];
      LinkIssuesAre(init);
      assert files == init + [files[|files| - 1]];
    }
  }

  function Declared(f: File, name: string): Option<Value> {
    if f.source.Body? then Lookup(Assignments(f.source.statements), name) else None
  }

  lemma IssueIs(files: seq<File>, e: Issue)
    ensures e in Issues(files) <==>
              || (exists i :: 0 <= i < |files| && !WellNamed(files[i].name) && e == BadName(files[i].name))
              || (e == NotContiguous && !Contiguous(Named(files)))
              || (exists f :: f in Named(files) && e in FileIssues(f))
  {
    NameIssuesAre(files);
    LinkIssuesAre(Named(files));
    hide WellNamed, NameIssues, LinkIssues, Named, FileIssues, Contiguous;
    var middle := if Contiguous(Named(files)) then [] else [NotContiguous];
    InOneOf(NameIssues(files), middle, LinkIssues(Named(files)), e);
  }

  lemma InOneOf(a: seq<Issue>, b: seq<Issue>, c: seq<Issue>, e: Issue)
    ensures e in a + b + c <==> e in a || e in b || e in c
  {}

  lemma FileIssuesAre(f: File, e: Issue)
    requires WellNamed(f.name)
    ensures e in FileIssues(f) ==> !e.BadName? && !e.NotContiguous? && e.file == f.name
    ensures CannotInspect(f.name) in FileIssues(f) <==> f.source.Unreadable?
    ensures WrongRevision(f.name) in FileIssues(f) <==>
              f.source.Body? && Declared(f, "revision") != Some(Str(Revision(Number(f.name))))
    ensures WrongParent(f.name) in FileIssues(f) <==>
              f.source.Body? && Declared(f, "down_revision") != Some(Parent(Number(f.name)))
  {
    hide Assignments, WellNamed, Number, Revision;
  }

  /** An issue with one file is reported exactly if that file is well named and shows it. */
  lemma FileReport(files: seq<File>, e: Issue)
    requires !e.BadName? && !e.NotContiguous?
    ensures e in Issues(files) <==>
              exists f :: f in files && f.name == e.file && WellNamed(f.name) && e in FileIssues(f)
  {
    IssueIs(files, e);
    NameIssuesAre(files);
    hide WellNamed, Named, Issues, Contiguous, FileIssues;
    forall f | f in Named(files) && e in FileIssues(f) ensures f in files && f.name == e.file {
      FileIssuesAre(f, e);
    }
  }

  /** Each issue is reported exactly when it is there: a bad name, a number out of sequence, a
      source that cannot be read, a revision other than the one the number calls for, a parent
      other than the revision before. */
  lemma ReportIs(files: seq<File>, x: string)
    ensures BadName(x) in Issues(files) <==> !WellNamed(x) && exists f :: f in files && f.name == x
    ensures NotContiguous in Issues(files) <==>
              exists i :: 0 <= i < |Named(files)| && Number(Named(files)[i].name) != i + 1
    ensures CannotInspect(x) in Issues(files) <==>
              WellNamed(x) && exists f :: f in files && f.name == x && f.source.Unreadable?
    ensures WrongRevision(x) in Issues(files) <==>
              WellNamed(x) && exists f :: && f in files && f.name == x && f.source.Body?
                                          && Declared(f, "revision") != Some(Str(Revision(Number(x))))
    ensures WrongParent(x) in Issues(files) <==>
              WellNamed(x) && exists f :: && f in files && f.name == x && f.source.Body?
                                          && Declared(f, "down_revision") != Some(Parent(Number(x)))
  {
    NameReport(files, x);
    NumberReport(files);
    FileReport(files, CannotInspect(x));
    FileReport(files, WrongRevision(x));
    FileReport(files, WrongParent(x));
    hide WellNamed, Number, Revision, Named, Issues, FileIssues, Declared, Parent;
    forall f | f in files && f.name == x && WellNamed(f.name)
      ensures CannotInspect(x) in FileIssues(f) <==> f.source.Unreadable?
      ensures WrongRevision(x) in FileIssues(f) <==>
                f.source.Body? && Declared(f, "revision") != Some(Str(Revision(Number(x))))
      ensures WrongParent(x) in FileIssues(f) <==>
                f.source.Body? && Declared(f, "down_revision") != Some(Parent(Number(x)))
    {
      FileIssuesAre(f, CannotInspect(x));
    }
  }

  lemma NameReport(files: seq<File>, x: string)
    ensures BadName(x) in Issues(files) <==> !WellNamed(x) && exists f :: f in files && f.name == x
  {
    IssueIs(files, BadName(x));
    hide WellNamed, Issues, FileIssues;
    forall f | f in Named(files) ensures BadName(x) !in FileIssues(f) {
      var i :| 0 <= i < |Named(files)| && Named(files)[i] == f;
      FileIssuesAre(f, BadName(x));
    }
  }

  lemma NumberReport(files: seq<File>)
    ensures NotContiguous in Issues(files) <==>
              exists i :: 0 <= i < |Named(files)| && Number(Named(files)[i].name) != i + 1
  {
    IssueIs(files, NotContiguous);
    hide WellNamed, Issues, FileIssues, Named, Number;
    forall f | f in Named(files) ensures NotContiguous !in FileIssues(f) {
      var i :| 0 <= i < |Named(files)| && Named(files)[i] == f;
      FileIssuesAre(f, NotContiguous);
    }
  }

  // ----- What a clean report means -----

  /** A file declares the revision and the parent that its number calls for. */
  predicate Linked(f: File)
    requires WellNamed(f.name)
  {
    && f.source.Body?
    && Lookup(Assignments(f.source.statements), "revision") == Some(Str(Revision(Number(f.name))))
    && Lookup(Assignments(f.source.statements), "down_revision") == Some(Parent(Number(f.name)))
  }

  /** The files carry the numbers 1 to n, each once, in whatever order they are looked at. */
  predicate NumberedOneToN(files: seq<File>) {
    && (forall i :: 0 <= i < |files| ==> WellNamed(files[i].name) && 1 <= Number(files[i].name) <= |files|)
    && (forall i, j :: 0 <= i < j < |files| ==> Number(files[i].name) != Number(files[j].name))
  }

  lemma {:induction false} NamedAll(files: seq<File>)
    ensures NameIssues(files) == [] <==> forall i :: 0 <= i < |files| ==> WellNamed(files[i].name)
    ensures NameIssues(files) == [] ==> Named(files) == files
  {
    hide WellNamed;
    if files != [] {
      var init := files[..|files| - 1];
      NamedAll(init);
      assert files == init + [files[|files| - 1]];
      assert forall i :: 0 <= i < |init| ==> init[i] == files[i];
    }
  }

  lemma {:induction false} LinkedAll(files: seq<File>)
    requires forall i :: 0 <= i < |files| ==> WellNamed(files[i].name)
    ensures LinkIssues(files) == [] <==> forall i :: 0 <= i < |files| ==> Linked(files[i])
  {
    hide WellNamed, Number, Revision, Parent, Lookup, Assignments;
    if files != [] {
      var init := files[..|files| - 1];
      LinkedAll(init);
      assert files == init + [files[|files| - 1]];
      assert forall i :: 0 <= i < |init| ==> init[i] == files[i];
    }
  }

  /** Increasing numbers between 1 and n, n of them, can only be 1, 2, ..., n. */
  lemma {:induction false} IncreasingFills(files: seq<File>, i: nat)
    requires Sorted(files) && NumberedOneToN(files) && i < |files|
    ensures i + 1 <= Number(files[i].name)
    ensures Number(files[i].name) <= i + 1
  {
    IncreasingBelow(files, i);
    IncreasingAbove(files, i);
  }

  lemma Increasing(files: seq<File>, i: nat)
    requires Sorted(files) && NumberedOneToN(files) && i + 1 < |files|
    ensures Number(files[i].name) < Number(files[i + 1].name)
  {
    NumberFollowsName(files[i].name, files[i + 1].name);
  }

  lemma {:induction false} IncreasingBelow(files: seq<File>, i: nat)
    requires Sorted(files) && NumberedOneToN(files) && i < |files|
    ensures i + 1 <= Number(files[i].name)
  {
    if i > 0 {
      IncreasingBelow(files, i - 1);
      Increasing(files, i - 1);
    }
  }

  lemma {:induction false} IncreasingAbove(files: seq<File>, i: nat)
    requires Sorted(files) && NumberedOneToN(files) && i < |files|
    ensures Number(files[i].name) <= i + 1
    decreases |files| - i
  {
    if i + 1 < |files| {
      IncreasingAbove(files, i + 1);
      Increasing(files, i);
    }
  }

  /** No issue is reported exactly when the files carry the numbers 1 to n and each declares
      the revision and the parent its number calls for. */
  lemma CleanIff(files: seq<File>)
    requires Sorted(files)
    ensures Issues(files) == [] <==> NumberedOneToN(files) && forall i :: 0 <= i < |files| ==> Linked(files[i])
  {
    hide FileIssues, WellNamed, Number, StringLess, Sorted, Linked;
    NamedAll(files);
    if NameIssues(files) == [] {
      LinkedAll(files);
      if NumberedOneToN(files) {
        forall i | 0 <= i < |files| ensures Number(files[i].name) == i + 1 { IncreasingFills(files, i); }
      }
    }
  }

  // ----- An accepted lineage is one path -----

  function RevisionOf(f: File): Option<Value> {
    if f.source.Body? then Lookup(Assignments(f.source.statements), "revision") else None
  }

  function ParentOf(f: File): Option<Value> {
    if f.source.Body? then Lookup(Assignments(f.source.statements), "down_revision") else None
  }

  predicate Accepted(files: seq<File>) {
    Sorted(files) && Issues(files) == []
  }

  lemma AcceptedLinks(files: seq<File>, i: nat)
    requires Accepted(files) && i < |files|
    ensures |files| <= 999
    ensures RevisionOf(files[i]) == Some(Str(Revision(i + 1)))
    ensures ParentOf(files[i]) == Some(if i == 0 then NoneValue else Str(Revision(i)))
  {
    hide Issues, StringLess, Assignments;
    CleanIff(files);
    IncreasingFills(files, |files| - 1);
    IncreasingFills(files, i);
  }

  predicate IsRoot(files: seq<File>, i: nat)
    requires i < |files|
  {
    ParentOf(files[i]) == Some(NoneValue)
  }

  predicate IsHead(files: seq<File>, i: nat)
    requires i < |files|
  {
    forall j :: 0 <= j < |files| ==> ParentOf(files[j]) != RevisionOf(files[i])
  }

  /** One root, one head, and revisions that differ from each other. */
  lemma OneRootOneHead(files: seq<File>, i: nat)
    requires Accepted(files) && i < |files|
    ensures IsRoot(files, i) <==> i == 0
    ensures IsHead(files, i) <==> i == |files| - 1
    ensures forall j :: 0 <= j < |files| && j != i ==> RevisionOf(files[j]) != RevisionOf(files[i])
  {
    forall j | 0 <= j < |files|
      ensures IsRoot(files, i) <==> i == 0
      ensures RevisionOf(files[j]) == RevisionOf(files[i]) <==> j == i
      ensures ParentOf(files[j]) == RevisionOf(files[i]) <==> j == i + 1
    {
      LinksBetween(files, i, j);
    }
    LinksBetween(files, i, i);
    if i + 1 < |files| {
      assert ParentOf(files[i + 1]) == RevisionOf(files[i]);
    }
  }

  lemma LinksBetween(files: seq<File>, i: nat, j: nat)
    requires Accepted(files) && i < |files| && j < |files|
    ensures IsRoot(files, i) <==> i == 0
    ensures RevisionOf(files[j]) == RevisionOf(files[i]) <==> j == i
    ensures ParentOf(files[j]) == RevisionOf(files[i]) <==> j == i + 1
  {
    hide Accepted, RevisionOf, ParentOf, Revision;
    AcceptedLinks(files, i);
    AcceptedLinks(files, j);
    if Revision(j + 1) == Revision(i + 1) { RevisionInjective(j + 1, i + 1); }
    if Revision(j) == Revision(i + 1) { RevisionInjective(j, i + 1); }
  }

  /** The file that declares a revision, if there is one. */
  function Declaring(files: seq<File>, revision: Value): (i: nat)
    ensures i <= |files|
    ensures i < |files| ==> RevisionOf(files[i]) == Some(revision)
    ensures forall j :: 0 <= j < i ==> RevisionOf(files[j]) != Some(revision)
  {
    if files == [] || RevisionOf(files[0]) == Some(revision) then 0
    else 1 + Declaring(files[1..], revision)
  }

  /** The revisions met on the way from one up through its parents, at most `steps` of them. */
  function Ancestry(files: seq<File>, revision: Value, steps: nat): seq<Value>
    decreases steps
  {
    if steps == 0 || revision == NoneValue then [] else
    var i := Declaring(files, revision);
    if i == |files| || ParentOf(files[i]).None? then [revision]
    else [revision] + Ancestry(files, ParentOf(files[i]).value, steps - 1)
  }

  function Downward(n: nat): seq<Value>
    requires n <= 9999
  {
    if n == 0 then [] else [Str(Revision(n))] + Downward(n - 1)
  }

  /** From revision n the parents lead through every earlier one down to the root and stop. */
  lemma {:induction false} AncestryIsPath(files: seq<File>, n: nat, steps: nat)
    requires Accepted(files) && 0 < n <= |files| && n <= steps
    ensures n <= 999 && Ancestry(files, Str(Revision(n)), steps) == Downward(n)
  {
    hide Accepted, RevisionOf, ParentOf, Revision;
    AcceptedLinks(files, n - 1);
    OneRootOneHead(files, n - 1);
    var i := Declaring(files, Str(Revision(n)));
    assert i == n - 1;
    if n > 1 {
      AncestryIsPath(files, n - 1, steps - 1);
    }
  }
}
