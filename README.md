# Unique-lines comparison, modelled in Dafny

The program (`mainfunc.go`) shows a small window with two buttons. Compare
collects the lines of two files, read once at start-up, into sets and lists every distinct non-empty
line that occurs in one file and not in the other, as `<file name>: <line>`.
The lines only in file 1 come first, then the lines only in file 2. Within a
group the order is the iteration order of a Go map, which is unspecified.
The window is then resized to 800 wide and 60 + 20 pixels per entry
tall. Copy puts every entry on the clipboard, each one followed by a
newline. A "Copied to clipboard!" note is drawn once and then cleared.

Layout of the model:

- `line_diff.dfy`, module `LineDiff`: what a comparison report is.
  `IsReport` holds when the report is some duplicate-free enumeration of
  the lines only in file 1, labelled, followed by one of the lines only in
  file 2. No order is fixed inside a group. Lemmas about it: size, grouping,
  the set of entries, membership, no duplicates, and the edge cases.
- `clipboard_text.dfy`, module `ClipboardText`: the copied text
  (`Serialize`), and `SplitLines`, which reads it back.
- `screen.dfy`, module `Screen`: button click areas, window size, and the
  shapes a frame draws.
- `app.dfy`, module `App`: class `Game` with the fields of the Go struct.
  `CompareFiles`, `CopyToClipboard`, `Update`, `Draw` and `Layout` are its
  methods. `CompareFiles` builds the two maps in loops. It then takes keys
  out of each key set in an arbitrary order (`:|`), which stands for Go's
  map iteration. `Valid()` is the object invariant. Before any comparison
  the report is empty and the window has its initial size. After one, the
  report is a comparison of the two files and the window fits it.

Effects on the outside world are fields of `Game`:

- `windowSize` is the size last passed to `SetWindowSize`.
- `clipboardWrites` logs every text passed to the clipboard.

The mouse state is given to `Update` as parameters. `Draw` returns the list
of shapes it would draw.

Two labels `name1: x` and `name2: y` can be equal exactly when one label
prefix (`name: `) starts with the other. For example, with names `a` and
`a: b`, `Label("a", "b: c") == Label("a: b", "c")`. `Distinguishable`
names are those where neither prefix starts with the other;
`LabelsCollide` shows that this is exactly the condition.
`LabelCollisionExample` shows a collision with a line shared by both files.
So the duplicate and shared-line lemmas require distinguishable or equal
names. The membership lemma requires distinguishable names, since with equal
names an entry does not tell which file it came from. The program's own
names `file1.txt` and `file2.txt` are distinguishable, and so are Windows
paths such as `C:\a.txt` and `C:\b.txt`.

## Model

| member | source | states |
|---|---|---|
| `App.Game.CompareFiles` | mainfunc.go:43-75 | The report is reset and then replaced by a comparison of the two files. That is: each distinct non-empty line only in file 1, once, labelled `name1: `, in some order; then the same for file 2. The requested window size is `WindowSize(|report|)`. |
| `App.Game.CopyToClipboard` | mainfunc.go:77-85 | Exactly one text is written to the clipboard, and it is `Serialize(discrepancies)`. The loop's accumulator equals the serialization of the entries seen so far. |
| `App.Game.Update` | mainfunc.go:87-105 | Keeps `Valid()`. A press in the Compare area sets `compareClicked` and recomputes the report. A press in the Copy area sets `copyClicked` and writes the report to the clipboard. Anything else changes nothing. `compareClicked` is never cleared. |
| `App.Game.Draw` | mainfunc.go:107-129 | The frame is the two buttons, then one row per entry if Compare was clicked, then the copied message if it is pending. Afterwards `copyClicked` is false. Nothing else changes and `Valid()` is kept. |
| `App.Game.Layout` | mainfunc.go:131-134 | The width is 800 and the height is `60 + 20 * |discrepancies|`, whatever the outside size. Once a comparison has run, this is the size `CompareFiles` requested for the window. |
| `App.Game.constructor` | mainfunc.go:148-154 | A new game holds the two files and names, an empty report, both flags false, the initial 800x600 window and no clipboard writes. It satisfies `Valid()`. |
| `App.CopiedReportReadsBack` | mainfunc.go:79-82 | Suppose no name or line holds a newline. Then splitting the copied text of any report at its newlines gives back that report exactly. |
| `LineDiff.ReportSize` | mainfunc.go:58-70 | The number of entries is `|lines only in file 1| + |lines only in file 2|`, counting distinct non-empty lines. |
| `LineDiff.ReportGroups` | mainfunc.go:58-70 | Let k be the number of lines only in file 1. The first k entries are `name1`-labelled lines only in file 1. All later entries are `name2`-labelled lines only in file 2. |
| `LineDiff.ReportEntries` | mainfunc.go:48-70 | Whatever the map order, the set of entries is `ExpectedEntries`. That is the labelled lines of file 1 missing from file 2, plus the labelled lines of file 2 missing from file 1, with the empty line excluded. |
| `LineDiff.ReportRepeatable` | mainfunc.go:45-70 | Two comparisons of the same files give the same set of entries and the same number of them. The result depends only on the files and names. |
| `LineDiff.ReportedIff` | mainfunc.go:59-70 | Assume distinguishable names. `name1: x` is reported if and only if x is in file 1, x is not in file 2, and x is not empty. The same holds for file 2. |
| `LineDiff.ReportedLineOnlyInOne` | mainfunc.go:59-70 | Assume the names are equal or distinguishable. A line reported under either name occurs, non-empty, in exactly one of the two files. |
| `LineDiff.SharedAndEmptyLinesNotReported` | mainfunc.go:59-70 | Assume the names are equal or distinguishable. A line that occurs in both files, at any multiplicity, is never reported under either name. The empty line is never reported. |
| `LineDiff.ReportDistinct` | mainfunc.go:48-70 | Assume the names are equal or distinguishable. No entry occurs twice, so duplicate lines in a file collapse to one entry. |
| `LineDiff.ReportSymmetric` | mainfunc.go:58-70 | Comparing file 2 with file 1 gives the same set of entries, and as many, as comparing file 1 with file 2. |
| `LineDiff.SameLinesEmptyReport` | mainfunc.go:45-70 | Files with the same set of distinct lines give an empty report. This includes two empty files. |
| `LineDiff.AppleCherryExample` | mainfunc.go:48-70 | Compare `[apple, banana, apple]` with `[banana, cherry]`. The report has exactly two entries: `file1: apple` and `file2: cherry`. |
| `LineDiff.LabelCollisionExample` | mainfunc.go:61-68 | With names `a` and `a: b`, a possible report holds `a: b: c`, which is also file 1's label for the line `b: c` that both files share. |
| `App.AppleCherryScenario` | mainfunc.go:74 | In the same scenario the window is 800x100 and the copied text reads back as two lines. |
| `LineDiff.LabelsDisjoint` | mainfunc.go:61-68 | Assume distinguishable names. No file-1 entry can be read as carrying file 2's label. |
| `LineDiff.LabelsCollide` | mainfunc.go:61-68 | When the names are not distinguishable, some file-1 label equals some file-2 label. So distinguishability is exactly the condition for labels never to collide. |
| `LineDiff.ColonFreeDistinguishable` | mainfunc.go:61-68 | Two different names without `:` are distinguishable. |
| `LineDiff.FileNamesDistinguishable` | mainfunc.go:144-145 | The program's names `file1.txt` and `file2.txt` are distinguishable, and so are `C:\a.txt` and `C:\b.txt`. |
| `ClipboardText.Serialize` | mainfunc.go:79-82 | The text is empty exactly when there are no entries. Its length is the total entry length plus one per entry. When there is an entry, the text ends in a newline. |
| `ClipboardText.SerializeAppend` | mainfunc.go:80-82 | Serializing `a + b` gives the serialization of `a` followed by that of `b`. This is what lets the accumulating loop build the text one entry at a time. |
| `ClipboardText.SerializeExample` | mainfunc.go:79-82 | The entries `F1: a` and `F2: b` are copied as `F1: a\nF2: b\n`. |
| `ClipboardText.SplitSerialize` | mainfunc.go:79-82 | Suppose no entry holds a newline. Splitting the serialized text at its newlines gives back the entries. |
| `Screen.ButtonsDisjoint` | mainfunc.go:93-101 | No cursor position is in both the Compare area (x 10..110, y 10..40) and the Copy area (x 120..220, y 10..40). So one click triggers at most one action. |
| `Screen.RowsFitWindow` | mainfunc.go:116-122 | Entry i is drawn at (10, 60 + 20i), so rows are 20 pixels apart. Every row starts below the bottom edge of both buttons and lower than the top of the copied message. Every 20-pixel row lies inside the window height `60 + 20n`, which is exactly where another row would start. |
| `Screen.CopiedMessageOverlapsFirstRow` | mainfunc.go:117-127 | The copied message at y = 50 starts less than one row height above the first entry at y = 60, so the two overlap on screen when both are drawn. |
| `Screen.ClickAreasCoverButtons` | mainfunc.go:93-113 | Every pixel of each drawn button, a 100x30 rectangle at (10,10) or (120,10), lies in that button's click area. |

## Left out

- Reading the files (`readLines`) is not modelled. The line lists are given to the constructor. The fatal exit on a read error is not modelled.
- Clipboard initialisation and the clipboard write are foreign calls. The model records only the text written, in `clipboardWrites`. Whether the write succeeds is not modelled.
- The rendering and input library is not modelled. This covers drawing, text printing, mouse state, `SetWindowSize`, the window title and running the game. `Draw` returns the list of shapes it would draw instead. `Update` takes the button state and cursor position as parameters.
- `Update` returns no value. The Go method always returns `nil`.
- `main` is not modelled beyond the fields the struct literal sets and the initial 800x600 window size. Its hard-coded file names appear only in `FileNamesDistinguishable`.
- No order is fixed within a group of report entries. Go's map iteration order is unspecified, so the model chooses keys arbitrarily.
- App.Game.Layout: Go `int` arithmetic is 64-bit. The model does not model overflow of the height `60 + 20 * n`, which would need more than 10^17 entries.
- App.Game.CompareFiles: the same 64-bit overflow of the requested window height `60 + len(discrepancies) * 20` is not modelled.
- App.Game.Draw: the same 64-bit overflow of the row position `60 + 20 * i` is not modelled.
- LineDiff.ReportedIff: the result is stated only for distinguishable file names. With equal names an entry does not tell which file it came from, and with other names that are not distinguishable two different entries can have the same text.
- LineDiff.ReportedLineOnlyInOne: the result is stated only for equal or distinguishable file names. Otherwise a label of a shared line can be the text of another entry.
- LineDiff.SharedAndEmptyLinesNotReported: the result is stated only for equal or distinguishable file names. Otherwise a shared line's label can be the text of another entry, as `LabelCollisionExample` shows.
- LineDiff.ReportDistinct: the result is stated only for equal or distinguishable file names. Otherwise two different entries can have the same text.
- LineDiff.LabelsDisjoint: the result is stated only for distinguishable file names. `LabelsCollide` shows it fails for all other names.
