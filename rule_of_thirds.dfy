/** The rule-of-thirds overlay: two vertical and two horizontal lines over a widget. */
module RuleOfThirds {

  /** A line segment from (x1, y1) to (x2, y2) in widget coordinates. */
  datatype Line = Line(x1: int, y1: int, x2: int, y2: int)

  /**
   * The four grid lines of a `width` by `height` widget, in drawing order: the vertical
   * lines at the floor of one and two thirds of the width, spanning the full height, then
   * the horizontal lines at the floor of one and two thirds of the height, spanning the full
   * width.
   */
  function GridLines(width: nat, height: nat): (lines: seq<Line>)
    ensures |lines| == 4
    ensures forall k :: 0 <= k < 2 ==> lines[k].x1 == lines[k].x2 && lines[k].y1 == 0 && lines[k].y2 == height
    ensures forall k :: 2 <= k < 4 ==> lines[k].y1 == lines[k].y2 && lines[k].x1 == 0 && lines[k].x2 == width
    ensures 3 * lines[0].x1 <= width < 3 * lines[0].x1 + 3
    ensures 3 * lines[1].x1 <= 2 * width < 3 * lines[1].x1 + 3
    ensures 3 * lines[2].y1 <= height < 3 * lines[2].y1 + 3
    ensures 3 * lines[3].y1 <= 2 * height < 3 * lines[3].y1 + 3
  {
    [ Line(width / 3, 0, width / 3, height),
      Line(2 * width / 3, 0, 2 * width / 3, height),
      Line(0, height / 3, width, height / 3),
      Line(0, 2 * height / 3, width, 2 * height / 3) ]
  }

  /**
   * Every grid line lies inside the widget, the two vertical lines are in order, and so are
   * the two horizontal ones.
   */
  lemma {:induction false} GridLinesInside(width: nat, height: nat)
    ensures forall l :: l in GridLines(width, height) ==>
      0 <= l.x1 <= l.x2 <= width && 0 <= l.y1 <= l.y2 <= height
    ensures GridLines(width, height)[0].x1 <= GridLines(width, height)[1].x1
    ensures GridLines(width, height)[2].y1 <= GridLines(width, height)[3].y1
  {
    var lines := GridLines(width, height);
    forall l | l in lines
      ensures 0 <= l.x1 <= l.x2 <= width && 0 <= l.y1 <= l.y2 <= height
    {
      var k :| 0 <= k < 4 && lines[k] == l;
    }
  }

  /** The three columns the vertical lines cut differ in width by at most one. */
  lemma ColumnsNearlyEqual(width: nat, height: nat)
    ensures var lines := GridLines(width, height);
      var a, b, c := lines[0].x1, lines[1].x1 - lines[0].x1, width - lines[1].x1;
      -1 <= a - b <= 1 && -1 <= b - c <= 1 && -1 <= a - c <= 1
  {
  }
}
