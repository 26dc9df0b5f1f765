/**
 The report that the Compare button produces: every distinct non-empty line
 that occurs in one file and not in the other, labelled with the name of the
 file it occurs in. Lines of file 1 come first, then lines of file 2; the
 order inside each group is the iteration order of a Go map and is left open.
 */
module LineDiff {

  /** The distinct lines of a file (what a Go `map[string]bool` filled with `true` holds). */
  function LineSet(lines: seq<string>): set<string>
  {
    set x | x in lines
  }

  /** Distinct non-empty lines of `a` that do not occur in `b`. */
  function OnlyIn(a: seq<string>, b: seq<string>): set<string>
  {
    set x | x in a && x !in b && x != ""
  }

  /** The text of one report entry: `<file name>: <line>`. */
  function Label(name: string, line: string): string
  {
    name + ": " + line
  }

  /** `entry` starts with the label prefix of file `name`. */
  predicate HasLabel(name: string, entry: string)
  {
    |name| + 2 <= |entry| && entry[..|name| + 2] == name + ": "
  }

  /** The line an entry labelled with `name` reports. */
  function LineOf(name: string, entry: string): string
    requires HasLabel(name, entry)
  {
    entry[|name| + 2..]
  }

  /** `entry` reports, under the label `name`, one of `lines`. */
  predicate IsEntry(name: string, lines: set<string>, entry: string)
  {
    HasLabel(name, entry) && LineOf(name, entry) in lines
  }

  /**
   Two file names whose labels cannot be confused with each other: neither
   label prefix `name: ` starts with the other. (Equal names fail this.)
   */
  predicate Distinguishable(name1: string, name2: string)
  {
    !HasLabel(name1, name2 + ": ") && !HasLabel(name2, name1 + ": ")
  }

  /** The condition under which entries of one group cannot match entries of the other. */
  predicate SameOrDistinguishable(name1: string, name2: string)
  {
    name1 == name2 || Distinguishable(name1, name2)
  }

  /** The entries of `lines`, in order, each labelled with `name`. */
  function Labelled(name: string, lines: seq<string>): seq<string>
  {
    seq(|lines|, i requires 0 <= i < |lines| => Label(name, lines[i]))
  }

  predicate Distinct(s: seq<string>)
  {
    forall i, j :: 0 <= i < j < |s| ==> s[i] != s[j]
  }

  /** `order` lists every element of `lines` exactly once, in some order. */
  ghost predicate Enumerates(order: seq<string>, lines: set<string>)
  {
    Distinct(order) && forall x :: x in order <==> x in lines
  }

  /**
   `report` is a possible outcome of comparing file 1 (`name1`, `lines1`) with
   file 2 (`name2`, `lines2`): some enumeration of the lines only in file 1,
   labelled with `name1`, followed by some enumeration of the lines only in
   file 2, labelled with `name2`.
   */
  ghost predicate IsReport(report: seq<string>, name1: string, lines1: seq<string>,
                           name2: string, lines2: seq<string>)
  {
    exists order1, order2 ::
      && Enumerates(order1, OnlyIn(lines1, lines2))
      && Enumerates(order2, OnlyIn(lines2, lines1))
      && report == Labelled(name1, order1) + Labelled(name2, order2)
  }

  /** The set of entries a comparison reports, independent of any order. */
  function ExpectedEntries(name1: string, lines1: seq<string>,
                           name2: string, lines2: seq<string>): set<string>
  {
    (set x | x in OnlyIn(lines1, lines2) :: Label(name1, x)) +
    (set x | x in OnlyIn(lines2, lines1) :: Label(name2, x))
  }

  lemma LabelParses(name: string, line: string)
    ensures HasLabel(name, Label(name, line))
    ensures LineOf(name, Label(name, line)) == line
  {
  }

  /** Label(name, ·) is injective. */
  lemma LabelInjective(name: string, x: string, y: string)
    ensures Label(name, x) == Label(name, y) ==> x == y
  {
    LabelParses(name, x);
    LabelParses(name, y);
  }

  /** If an entry of `name1` carries the label of `name2`, one label prefix starts with the other. */
  lemma LabelPrefixes(name1: string, name2: string, line: string)
    ensures HasLabel(name2, Label(name1, line)) ==>
              HasLabel(name2, name1 + ": ") || HasLabel(name1, name2 + ": ")
  {
    var e := Label(name1, line);
    var p1, p2 := name1 + ": ", name2 + ": ";
    assert e == p1 + line;
    if HasLabel(name2, e) {
      if |p2| <= |p1| {
        assert p1[..|p2|] == e[..|p2|] == p2;
      } else {
        assert p2[..|p1|] == e[..|p2|][..|p1|] == e[..|p1|] == p1;
      }
    }
  }

  /** With distinguishable names, no entry of file 1 can be read as an entry of file 2. */
  lemma LabelsDisjoint(name1: string, name2: string, line: string)
    requires Distinguishable(name1, name2)
    ensures !HasLabel(name2, Label(name1, line))
  {
    LabelPrefixes(name1, name2, line);
  }

  /**
   Distinguishable is exactly the condition under which no label of one name
   equals a label of the other: when it fails, two labels coincide.
   */
  lemma LabelsCollide(name1: string, name2: string)
    requires !Distinguishable(name1, name2)
    ensures exists x, y :: Label(name1, x) == Label(name2, y)
  {
    var p1, p2 := name1 + ": ", name2 + ": ";
    if HasLabel(name2, p1) {
      var y := p1[|p2|..];
      assert p1 == p2 + y;
      assert Label(name1, "") == Label(name2, y);
    } else {
      var x := p2[|p1|..];
      assert p2 == p1 + x;
      assert Label(name1, x) == Label(name2, "");
    }
  }

  /** Distinct names without ':' are distinguishable. */
  lemma ColonFreeDistinguishable(name1: string, name2: string)
    requires name1 != name2 && ':' !in name1 && ':' !in name2
    ensures Distinguishable(name1, name2)
  {
    forall a, b | (a, b) == (name1, name2) || (a, b) == (name2, name1)
      ensures !HasLabel(a, b + ": ")
    {
      var p, e := a + ": ", b + ": ";
      if |p| <= |e| {
        // an index where the prefix of `e` and `p` differ
        var k: nat;
        if |a| < |b| {
          k := |a|;
          assert e[k] == b[k] != ':' == p[k];
        } else {
          k :| k < |a| && a[k] != b[k];
          assert e[k] == b[k] && p[k] == a[k];
        }
        assert e[..|p|][k] != p[k];
      }
    }
  }

  /** The program's own file names, and Windows-style paths, are distinguishable. */
  lemma FileNamesDistinguishable()
    ensures Distinguishable("file1.txt", "file2.txt")
    ensures Distinguishable("C:\\a.txt", "C:\\b.txt")
  {
    ColonFreeDistinguishable("file1.txt", "file2.txt");
    assert ("C:\\b.txt" + ": ")[3] != ("C:\\a.txt" + ": ")[3];
    assert ("C:\\b.txt" + ": ")[..10][3] != ("C:\\a.txt" + ": ")[3];
    assert ("C:\\a.txt" + ": ")[..10][3] != ("C:\\b.txt" + ": ")[3];
  }

  /** A duplicate-free sequence has as many distinct elements as it has elements. */
  lemma {:induction false} DistinctCard(s: seq<string>)
    requires Distinct(s)
    ensures |LineSet(s)| == |s|
  {
    if s != [] {
      var init := s[..|s| - 1];
      var last := s[|s| - 1];
      assert Distinct(init);
      DistinctCard(init);
      assert LineSet(s) == LineSet(init) + {last};
      assert last !in LineSet(init);
    }
  }

  lemma EnumerationLength(order: seq<string>, lines: set<string>)
    requires Enumerates(order, lines)
    ensures |order| == |lines|
  {
    DistinctCard(order);
    assert LineSet(order) == lines;
  }

  /**
   The report has one entry per distinct non-empty line of file 1 missing
   from file 2, plus one per such line of file 2 missing from file 1.
   */
  lemma ReportSize(report: seq<string>, name1: string, lines1: seq<string>,
                   name2: string, lines2: seq<string>)
    requires IsReport(report, name1, lines1, name2, lines2)
    ensures |report| == |OnlyIn(lines1, lines2)| + |OnlyIn(lines2, lines1)|
  {
    var order1, order2 :|
      && Enumerates(order1, OnlyIn(lines1, lines2))
      && Enumerates(order2, OnlyIn(lines2, lines1))
      && report == Labelled(name1, order1) + Labelled(name2, order2);
    EnumerationLength(order1, OnlyIn(lines1, lines2));
    EnumerationLength(order2, OnlyIn(lines2, lines1));
  }

  /**
   Every entry of file 1 comes before every entry of file 2: the first
   |OnlyIn(lines1, lines2)| entries report lines only in file 1 under `name1`,
   the rest report lines only in file 2 under `name2`.
   */
  lemma ReportGroups(report: seq<string>, name1: string, lines1: seq<string>,
                     name2: string, lines2: seq<string>)
    requires IsReport(report, name1, lines1, name2, lines2)
    ensures forall i :: 0 <= i < |report| ==>
      if i < |OnlyIn(lines1, lines2)| then IsEntry(name1, OnlyIn(lines1, lines2), report[i])
      else IsEntry(name2, OnlyIn(lines2, lines1), report[i])
  {
    var order1, order2 :|
      && Enumerates(order1, OnlyIn(lines1, lines2))
      && Enumerates(order2, OnlyIn(lines2, lines1))
      && report == Labelled(name1, order1) + Labelled(name2, order2);
    EnumerationLength(order1, OnlyIn(lines1, lines2));
    forall i | 0 <= i < |report|
      ensures if i < |OnlyIn(lines1, lines2)| then IsEntry(name1, OnlyIn(lines1, lines2), report[i])
              else IsEntry(name2, OnlyIn(lines2, lines1), report[i])
    {
      if i < |order1| {
        LabelParses(name1, order1[i]);
        assert order1[i] in order1;
      } else {
        var k := i - |order1|;
        LabelParses(name2, order2[k]);
        assert order2[k] in order2;
      }
    }
  }

  /** Whatever order it was produced in, a report holds exactly the expected entries. */
  lemma ReportEntries(report: seq<string>, name1: string, lines1: seq<string>,
                      name2: string, lines2: seq<string>)
    requires IsReport(report, name1, lines1, name2, lines2)
    ensures LineSet(report) == ExpectedEntries(name1, lines1, name2, lines2)
  {
    var order1, order2 :|
      && Enumerates(order1, OnlyIn(lines1, lines2))
      && Enumerates(order2, OnlyIn(lines2, lines1))
      && report == Labelled(name1, order1) + Labelled(name2, order2);
    var expected := ExpectedEntries(name1, lines1, name2, lines2);
    forall e | e in report ensures e in expected {
      var i :| 0 <= i < |report| && report[i] == e;
      if i < |order1| {
        assert order1[i] in order1;
      } else {
        assert order2[i - |order1|] in order2;
      }
    }
    forall e | e in expected ensures e in report {
      if x :| x in OnlyIn(lines1, lines2) && e == Label(name1, x) {
        var i :| 0 <= i < |order1| && order1[i] == x;
        assert report[i] == e;
      } else {
        var x :| x in OnlyIn(lines2, lines1) && e == Label(name2, x);
        var i :| 0 <= i < |order2| && order2[i] == x;
        assert report[|order1| + i] == e;
      }
    }
  }

  /**
   Comparing the same files twice gives the same entries, in possibly a
   different order: the report depends only on the two files.
   */
  lemma ReportRepeatable(report: seq<string>, again: seq<string>, name1: string,
                         lines1: seq<string>, name2: string, lines2: seq<string>)
    requires IsReport(report, name1, lines1, name2, lines2)
    requires IsReport(again, name1, lines1, name2, lines2)
    ensures LineSet(report) == LineSet(again)
    ensures |report| == |again|
  {
    ReportEntries(report, name1, lines1, name2, lines2);
    ReportEntries(again, name1, lines1, name2, lines2);
    ReportSize(report, name1, lines1, name2, lines2);
    ReportSize(again, name1, lines1, name2, lines2);
  }

  /**
   With distinguishable file names, `name1: x` is reported exactly when `x` is
   a non-empty line of file 1 missing from file 2, and likewise for file 2.
   */
  lemma ReportedIff(report: seq<string>, name1: string, lines1: seq<string>,
                    name2: string, lines2: seq<string>)
    requires Distinguishable(name1, name2)
    requires IsReport(report, name1, lines1, name2, lines2)
    ensures forall x :: Label(name1, x) in report <==> x in lines1 && x !in lines2 && x != ""
    ensures forall x :: Label(name2, x) in report <==> x in lines2 && x !in lines1 && x != ""
  {
    ReportEntries(report, name1, lines1, name2, lines2);
    assert forall e :: e in report <==> e in LineSet(report);
    forall x ensures Label(name1, x) in report <==> x in OnlyIn(lines1, lines2) {
      if Label(name1, x) in report && x !in OnlyIn(lines1, lines2) {
        if y :| y in OnlyIn(lines1, lines2) && Label(name1, x) == Label(name1, y) {
          LabelInjective(name1, x, y);
        } else {
          var y :| y in OnlyIn(lines2, lines1) && Label(name1, x) == Label(name2, y);
          LabelsDisjoint(name2, name1, y);
          LabelParses(name1, x);
        }
      }
    }
    forall x ensures Label(name2, x) in report <==> x in OnlyIn(lines2, lines1) {
      if Label(name2, x) in report && x !in OnlyIn(lines2, lines1) {
        if y :| y in OnlyIn(lines2, lines1) && Label(name2, x) == Label(name2, y) {
          LabelInjective(name2, x, y);
        } else {
          var y :| y in OnlyIn(lines1, lines2) && Label(name2, x) == Label(name1, y);
          LabelsDisjoint(name1, name2, y);
          LabelParses(name2, x);
        }
      }
    }
  }

  /**
   With distinguishable or equal file names, any line reported under
   either name is a non-empty line of exactly one of the two files.
   */
  lemma ReportedLineOnlyInOne(report: seq<string>, name1: string, lines1: seq<string>,
                              name2: string, lines2: seq<string>, name: string, x: string)
    requires SameOrDistinguishable(name1, name2)
    requires name == name1 || name == name2
    requires IsReport(report, name1, lines1, name2, lines2)
    requires Label(name, x) in report
    ensures x in OnlyIn(lines1, lines2) || x in OnlyIn(lines2, lines1)
  {
    ReportEntries(report, name1, lines1, name2, lines2);
    assert Label(name, x) in LineSet(report);
    if y :| y in OnlyIn(lines1, lines2) && Label(name, x) == Label(name1, y) {
      if name == name1 {
        LabelInjective(name1, x, y);
      } else {
        LabelsDisjoint(name1, name2, y);
        LabelParses(name2, x);
      }
    } else {
      var y :| y in OnlyIn(lines2, lines1) && Label(name, x) == Label(name2, y);
      if name == name2 {
        LabelInjective(name2, x, y);
      } else {
        LabelsDisjoint(name2, name1, y);
        LabelParses(name1, x);
      }
    }
  }

  /**
   A line that occurs in both files, however often, is never reported, and
   neither is the empty line. Equal file names are allowed; otherwise they
   must be distinguishable.
   */
  lemma SharedAndEmptyLinesNotReported(report: seq<string>, name1: string, lines1: seq<string>,
                                       name2: string, lines2: seq<string>)
    requires SameOrDistinguishable(name1, name2)
    requires IsReport(report, name1, lines1, name2, lines2)
    ensures forall x :: x in lines1 && x in lines2 ==> Label(name1, x) !in report && Label(name2, x) !in report
    ensures Label(name1, "") !in report && Label(name2, "") !in report
  {
    forall name, x | (name == name1 || name == name2) && Label(name, x) in report
      ensures x != "" && !(x in lines1 && x in lines2)
    {
      ReportedLineOnlyInOne(report, name1, lines1, name2, lines2, name, x);
    }
  }

  /**
   With distinguishable or equal file names no entry is reported twice;
   duplicate lines collapse to one entry.
   */
  lemma ReportDistinct(report: seq<string>, name1: string, lines1: seq<string>,
                       name2: string, lines2: seq<string>)
    requires SameOrDistinguishable(name1, name2)
    requires IsReport(report, name1, lines1, name2, lines2)
    ensures Distinct(report)
  {
    var order1, order2 :|
      && Enumerates(order1, OnlyIn(lines1, lines2))
      && Enumerates(order2, OnlyIn(lines2, lines1))
      && report == Labelled(name1, order1) + Labelled(name2, order2);
    forall i, j | 0 <= i < j < |report| ensures report[i] != report[j] {
      var n1 := |order1|;
      if j < n1 {
        LabelInjective(name1, order1[i], order1[j]);
      } else if n1 <= i {
        LabelInjective(name2, order2[i - n1], order2[j - n1]);
      } else if name1 == name2 {
        // the two "only in" sets are disjoint
        assert order1[i] in order1 && order2[j - n1] in order2;
        LabelInjective(name1, order1[i], order2[j - n1]);
      } else {
        LabelsDisjoint(name1, name2, order1[i]);
        LabelParses(name2, order2[j - n1]);
      }
    }
  }

  /**
   Comparing file 2 with file 1 gives the same entries as comparing file 1
   with file 2: swapping the roles swaps only which group each entry is in.
   */
  lemma ReportSymmetric(report: seq<string>, swapped: seq<string>, name1: string,
                        lines1: seq<string>, name2: string, lines2: seq<string>)
    requires IsReport(report, name1, lines1, name2, lines2)
    requires IsReport(swapped, name2, lines2, name1, lines1)
    ensures LineSet(report) == LineSet(swapped)
    ensures |report| == |swapped|
  {
    ReportEntries(report, name1, lines1, name2, lines2);
    ReportEntries(swapped, name2, lines2, name1, lines1);
    ReportSize(report, name1, lines1, name2, lines2);
    ReportSize(swapped, name2, lines2, name1, lines1);
  }

  /** Files with the same distinct lines, two empty files among them, give an empty report. */
  lemma SameLinesEmptyReport(report: seq<string>, name1: string, lines1: seq<string>,
                             name2: string, lines2: seq<string>)
    requires LineSet(lines1) == LineSet(lines2)
    requires IsReport(report, name1, lines1, name2, lines2)
    ensures report == []
  {
    assert forall x :: x in lines1 <==> x in LineSet(lines1);
    assert forall x :: x in lines2 <==> x in LineSet(lines2);
    assert OnlyIn(lines1, lines2) == {};
    assert OnlyIn(lines2, lines1) == {};
    ReportSize(report, name1, lines1, name2, lines2);
  }

  /**
   Comparing ["apple", "banana", "apple"] with ["banana", "cherry"] reports
   "file1: apple" and "file2: cherry", in either order.
   */
  lemma AppleCherryExample(report: seq<string>)
    requires IsReport(report, "file1", ["apple", "banana", "apple"], "file2", ["banana", "cherry"])
    ensures LineSet(report) == {"file1: apple", "file2: cherry"}
    ensures |report| == 2
  {
    var lines1, lines2 := ["apple", "banana", "apple"], ["banana", "cherry"];
    assert lines1[0] == "apple" && lines2[1] == "cherry";
    assert "banana" in lines2;
    assert "apple" != "banana" && "apple" != "cherry";
    assert "cherry" != "banana" && "cherry" != "apple";
    assert OnlyIn(lines1, lines2) == {"apple"};
    assert OnlyIn(lines2, lines1) == {"cherry"};
    ReportEntries(report, "file1", lines1, "file2", lines2);
    ReportSize(report, "file1", lines1, "file2", lines2);
    assert Label("file1", "apple") == "file1: apple";
    assert Label("file2", "cherry") == "file2: cherry";
  }

  /**
   Why distinguishable names are needed: with names "a" and "a: b", the line
   "b: c" occurs in both files, yet the report holds "a: b: c", which is also
   the text of Label("a", "b: c").
   */
  lemma LabelCollisionExample()
    ensures IsReport(["a: b: c"], "a", ["b: c"], "a: b", ["b: c", "c"])
    ensures Label("a", "b: c") in ["a: b: c"]
  {
    var lines1, lines2 := ["b: c"], ["b: c", "c"];
    assert lines2[1] == "c" && "c" != "b: c";
    assert OnlyIn(lines1, lines2) == {};
    assert OnlyIn(lines2, lines1) == {"c"};
    var order1: seq<string>, order2 := [], ["c"];
    assert Label("a: b", "c") == "a: b: c" == Label("a", "b: c");
    assert Labelled("a: b", order2)[0] == "a: b: c";
    assert Labelled("a: b", order2) == ["a: b: c"];
    assert Enumerates(order1, OnlyIn(lines1, lines2)) && Enumerates(order2, OnlyIn(lines2, lines1));
    assert ["a: b: c"] == Labelled("a", order1) + Labelled("a: b", order2);
  }
}
