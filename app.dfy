/**
 The game object: the two files, the last report, the two button flags, and
 the two effects the program has on the outside world (the window size it
 requests and the texts it writes to the clipboard).
 */
module App {
  import opened LineDiff
  import opened ClipboardText
  import opened Screen

  /** A Go map lookup: a missing key reads as `false`. */
  function Lookup(m: map<string, bool>, key: string): bool
  {
    key in m && m[key]
  }

  /**
   When neither file name nor any line holds a newline (a line read by a line
   scanner never does), the copied text of a report reads back, line by line,
   as exactly that report.
   */
  lemma CopiedReportReadsBack(report: seq<string>, name1: string, lines1: seq<string>,
                              name2: string, lines2: seq<string>)
    requires '\n' !in name1 && '\n' !in name2
    requires NoNewlines(lines1) && NoNewlines(lines2)
    requires IsReport(report, name1, lines1, name2, lines2)
    ensures SplitLines(Serialize(report)) == report
  {
    var order1, order2 :|
      && Enumerates(order1, OnlyIn(lines1, lines2))
      && Enumerates(order2, OnlyIn(lines2, lines1))
      && report == Labelled(name1, order1) + Labelled(name2, order2);
    forall i | 0 <= i < |report| ensures '\n' !in report[i] {
      if i < |order1| {
        assert order1[i] in order1;
        assert report[i] == name1 + ": " + order1[i];
      } else {
        assert order2[i - |order1|] in order2;
        assert report[i] == name2 + ": " + order2[i - |order1|];
      }
    }
    SplitSerialize(report);
  }

  /**
   The scenario ["apple", "banana", "apple"] against ["banana", "cherry"]:
   two entries, a window 100 pixels tall, and a copied text of two lines.
   */
  lemma AppleCherryScenario(report: seq<string>)
    requires IsReport(report, "file1", ["apple", "banana", "apple"], "file2", ["banana", "cherry"])
    ensures WindowSize(|report|) == (800, 100)
    ensures |SplitLines(Serialize(report))| == 2
  {
    AppleCherryExample(report);
    CopiedReportReadsBack(report, "file1", ["apple", "banana", "apple"], "file2", ["banana", "cherry"]);
  }

  class Game {
    // The files are read once, before the game starts, and never change.
    const file1Lines: seq<string>
    const file2Lines: seq<string>
    const file1Name: string
    const file2Name: string

    var discrepancies: seq<string>
    var compareClicked: bool
    var copyClicked: bool
    /** The size last requested for the window. */
    var windowSize: (int, int)
    /** Every text written to the clipboard, oldest first. */
    var clipboardWrites: seq<string>

    /**
     Before the first comparison the report is empty and the window keeps
     its initial size; afterwards the report is the comparison of the two
     files and the window fits it.
     */
    ghost predicate Valid()
      reads this
    {
      && (compareClicked ==>
            && IsReport(discrepancies, file1Name, file1Lines, file2Name, file2Lines)
            && windowSize == WindowSize(|discrepancies|))
      && (!compareClicked ==> discrepancies == [] && windowSize == INITIAL_WINDOW_SIZE)
    }

    constructor (file1Name: string, file1Lines: seq<string>, file2Name: string, file2Lines: seq<string>)
      ensures this.file1Name == file1Name && this.file1Lines == file1Lines
      ensures this.file2Name == file2Name && this.file2Lines == file2Lines
      ensures discrepancies == [] && !compareClicked && !copyClicked
      ensures windowSize == INITIAL_WINDOW_SIZE && clipboardWrites == []
      ensures Valid()
    {
      this.file1Lines := file1Lines;
      this.file2Lines := file2Lines;
      this.file1Name := file1Name;
      this.file2Name := file2Name;
      discrepancies := [];
      compareClicked := false;
      copyClicked := false;
      windowSize := INITIAL_WINDOW_SIZE;
      clipboardWrites := [];
    }

    /**
     Replaces the report with the comparison of the two files (file-1 entries
     first, each group in map order) and sizes the window to fit it.
     */
    method CompareFiles()
      modifies this`discrepancies, this`windowSize
      ensures IsReport(discrepancies, file1Name, file1Lines, file2Name, file2Lines)
      ensures windowSize == WindowSize(|discrepancies|)
    {
      discrepancies := [];

      var linesInFile1: map<string, bool> := map[];
      var linesInFile2: map<string, bool> := map[];
      for i := 0 to |file1Lines|
        invariant forall x :: x in linesInFile1 <==> x in file1Lines[..i]
        invariant forall x :: x in linesInFile1 ==> linesInFile1[x]
      {
        linesInFile1 := linesInFile1[file1Lines[i] := true];
      }
      for i := 0 to |file2Lines|
        invariant forall x :: x in linesInFile2 <==> x in file2Lines[..i]
        invariant forall x :: x in linesInFile2 ==> linesInFile2[x]
      {
        linesInFile2 := linesInFile2[file2Lines[i] := true];
      }
      assert file1Lines[..|file1Lines|] == file1Lines;
      assert file2Lines[..|file2Lines|] == file2Lines;

      // the lines reported so far, in the order the map handed them out
      ghost var order1: seq<string> := [];
      var pending := linesInFile1.Keys;
      while pending != {}
        invariant pending <= linesInFile1.Keys
        invariant Distinct(order1)
        invariant forall x :: x in order1 <==> x in OnlyIn(file1Lines, file2Lines) && x !in pending
        invariant discrepancies == Labelled(file1Name, order1)
        decreases pending
      {
        var line :| line in pending;
        if !Lookup(linesInFile2, line) && line != "" {
          discrepancies := discrepancies + [file1Name + ": " + line];
          order1 := order1 + [line];
        }
        pending := pending - {line};
      }

      ghost var order2: seq<string> := [];
      pending := linesInFile2.Keys;
      while pending != {}
        invariant pending <= linesInFile2.Keys
        invariant Distinct(order2)
        invariant forall x :: x in order2 <==> x in OnlyIn(file2Lines, file1Lines) && x !in pending
        invariant discrepancies == Labelled(file1Name, order1) + Labelled(file2Name, order2)
        decreases pending
      {
        var line :| line in pending;
        if !Lookup(linesInFile1, line) && line != "" {
          discrepancies := discrepancies + [file2Name + ": " + line];
          order2 := order2 + [line];
        }
        pending := pending - {line};
      }
      assert Enumerates(order1, OnlyIn(file1Lines, file2Lines));
      assert Enumerates(order2, OnlyIn(file2Lines, file1Lines));

      windowSize := (800, 60 + |discrepancies| * 20);
    }

    /** Writes every report entry, each followed by a newline, to the clipboard. */
    method CopyToClipboard()
      modifies this`clipboardWrites
      ensures clipboardWrites == old(clipboardWrites) + [Serialize(discrepancies)]
    {
      var result := "";
      for i := 0 to |discrepancies|
        invariant result == Serialize(discrepancies[..i])
        invariant clipboardWrites == old(clipboardWrites)
      {
        var entry := discrepancies[i];
        assert discrepancies[..i + 1] == discrepancies[..i] + [entry];
        SerializeAppend(discrepancies[..i], [entry]);
        assert Serialize([entry]) == entry + "\n" + Serialize([]) == entry + "\n";
        assert result + entry + "\n" == result + (entry + "\n");
        result := result + entry + "\n";
      }
      assert discrepancies[..|discrepancies|] == discrepancies;
      clipboardWrites := clipboardWrites + [result];
    }

    /**
     One input step with the left button held (`pressed`) at (x, y): a click
     on Compare compares the files, a click on Copy copies the report.
     */
    method Update(pressed: bool, x: int, y: int)
      requires Valid()
      modifies this`discrepancies, this`windowSize, this`compareClicked, this`copyClicked, this`clipboardWrites
      ensures Valid()
      ensures compareClicked == (old(compareClicked) || (pressed && InCompareButton(x, y)))
      ensures copyClicked == (old(copyClicked) || (pressed && InCopyButton(x, y)))
      ensures !(pressed && InCompareButton(x, y)) ==>
                discrepancies == old(discrepancies) && windowSize == old(windowSize)
      ensures clipboardWrites ==
                if pressed && InCopyButton(x, y) then old(clipboardWrites) + [Serialize(discrepancies)]
                else old(clipboardWrites)
    {
      if pressed {
        if InCompareButton(x, y) {
          compareClicked := true;
          CompareFiles();
        }
        if InCopyButton(x, y) {
          copyClicked := true;
          CopyToClipboard();
        }
      }
    }

    /** What a frame shows: the buttons, the report once compared, and the copied message while pending. */
    function Frame(): seq<Shape>
      reads this
    {
      BUTTONS
      + (if compareClicked then Rows(discrepancies) else [])
      + (if copyClicked then [COPIED_MESSAGE] else [])
    }

    /** Draws a frame; the copied message is shown once and then cleared. */
    method Draw() returns (frame: seq<Shape>)
      modifies this`copyClicked
      ensures frame == old(Frame())
      ensures !copyClicked
      ensures old(Valid()) ==> Valid()
    {
      frame := BUTTONS;

      var yOffset := 60;
      if compareClicked {
        for i := 0 to |discrepancies|
          invariant frame == BUTTONS + Rows(discrepancies)[..i]
        {
          frame := frame + [Text(discrepancies[i], 10, yOffset + 20 * i)];
        }
        assert Rows(discrepancies)[..|discrepancies|] == Rows(discrepancies);
      }

      if copyClicked {
        frame := frame + [COPIED_MESSAGE];
        copyClicked := false;
      }
    }

    /**
     Size of the game screen for any outside size: 800 wide and tall enough
     for the report; after a comparison it is the size requested for the window.
     */
    function Layout(outsideWidth: int, outsideHeight: int): (size: (int, int))
      reads this
      ensures size == WindowSize(|discrepancies|)
      ensures Valid() && compareClicked ==> size == windowSize
    {
      (800, 60 + |discrepancies| * 20)
    }
  }
}
