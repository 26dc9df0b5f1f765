/**
 What the window shows: the two buttons and their click areas, one text row
 per report entry, the "copied" message, and the window size that fits the
 rows.
 */
module Screen {

  const WINDOW_WIDTH := 800
  /** y of the first report row; also the window height of an empty report. */
  const ROWS_TOP := 60
  const ROW_HEIGHT := 20
  /** Window size the program starts with, before any comparison. */
  const INITIAL_WINDOW_SIZE := (800, 600)

  /** The cursor position (x, y) lies in the Compare button's click area (bounds included). */
  predicate InCompareButton(x: int, y: int)
  {
    10 <= x <= 110 && 10 <= y <= 40
  }

  /** The cursor position (x, y) lies in the Copy button's click area (bounds included). */
  predicate InCopyButton(x: int, y: int)
  {
    120 <= x <= 220 && 10 <= y <= 40
  }

  /** No position is in both click areas, so one click triggers at most one action. */
  lemma ButtonsDisjoint(x: int, y: int)
    ensures !(InCompareButton(x, y) && InCopyButton(x, y))
  {
  }

  /** Window size (width, height) for a report of `count` entries. */
  function WindowSize(count: nat): (int, int)
  {
    (WINDOW_WIDTH, ROWS_TOP + count * ROW_HEIGHT)
  }

  datatype Rgba = Rgba(r: nat, g: nat, b: nat, a: nat)

  /** One drawing call: a filled rectangle, or debug text with its top-left corner at (x, y). */
  datatype Shape =
    | Rect(x: int, y: int, w: int, h: int, color: Rgba)
    | Text(s: string, x: int, y: int)

  /** The two buttons, drawn first on every frame. */
  const BUTTONS: seq<Shape> := [
    Rect(10, 10, 100, 30, Rgba(0, 128, 255, 255)),
    Text("Compare", 30, 20),
    Rect(120, 10, 100, 30, Rgba(0, 200, 100, 255)),
    Text("Copy", 140, 20)
  ]

  const COPIED_MESSAGE: Shape := Text("Copied to clipboard!", 10, 50)

  /** Report entry i is printed at x = 10, y = 60 + 20 * i. */
  function Rows(report: seq<string>): seq<Shape>
  {
    seq(|report|, i requires 0 <= i < |report| => Text(report[i], 10, ROWS_TOP + ROW_HEIGHT * i))
  }

  /**
   Row i starts at y = 60 + 20i, below the bottom edge of both buttons and
   lower than the top of the copied message; the window that WindowSize
   gives holds every 20-pixel row and ends exactly where one more row would
   start.
   */
  lemma RowsFitWindow(report: seq<string>)
    ensures |Rows(report)| == |report|
    ensures forall i :: 0 <= i < |report| ==>
      && Rows(report)[i] == Text(report[i], 10, ROWS_TOP + ROW_HEIGHT * i)
      && BUTTONS[0].y + BUTTONS[0].h < Rows(report)[i].y
      && BUTTONS[2].y + BUTTONS[2].h < Rows(report)[i].y
      && COPIED_MESSAGE.y < Rows(report)[i].y
      && Rows(report)[i].y + ROW_HEIGHT <= WindowSize(|report|).1
    ensures WindowSize(|report|).1 == ROWS_TOP + ROW_HEIGHT * |Rows(report)|
    ensures WindowSize(|report|).0 == WINDOW_WIDTH
  {
  }

  /**
   The copied message starts only 10 pixels above the first row, so with
   20-pixel rows the message band (y 50..70) and the first row (y 60..80)
   overlap: after a Copy the message is drawn over the first entry.
   */
  lemma CopiedMessageOverlapsFirstRow(report: seq<string>)
    requires report != []
    ensures COPIED_MESSAGE.y < Rows(report)[0].y < COPIED_MESSAGE.y + ROW_HEIGHT
  {
  }

  /**
   Every pixel of a drawn button lies in its click area; the click areas
   reach one pixel further right and down than the drawn rectangles.
   */
  lemma ClickAreasCoverButtons(x: int, y: int)
    ensures BUTTONS[0].x <= x < BUTTONS[0].x + BUTTONS[0].w && BUTTONS[0].y <= y < BUTTONS[0].y + BUTTONS[0].h
            ==> InCompareButton(x, y)
    ensures BUTTONS[2].x <= x < BUTTONS[2].x + BUTTONS[2].w && BUTTONS[2].y <= y < BUTTONS[2].y + BUTTONS[2].h
            ==> InCopyButton(x, y)
  {
  }
}
