// The theme's area page: rectangle, circle and triangle, over exact reals.
// A field `parseFloat` reads as NaN is `None`; such input is refused
// before anything is computed.

module Area {
  import opened Base

  /** `Math.PI` as JavaScript prints it. */
  const Pi: real := 3.141592653589793

  const ValidNumbersAlert := "Please enter valid numbers"
  const ValidNumberAlert := "Please enter a valid number"

  datatype RectangleReport = RectangleReport(area: real, perimeter: real)
  datatype CircleReport = CircleReport(area: real, circumference: real)

  /** `calculateRectangle`. */
  function Rectangle(length: Option<real>, width: Option<real>): (r: Result<RectangleReport>)
    ensures r.Err? <==> length.None? || width.None?
    ensures r.Err? ==> r.message == ValidNumbersAlert
    ensures r.Ok? ==> r.value.area == length.value * width.value
    ensures r.Ok? ==> r.value.perimeter == 2.0 * (length.value + width.value)
  {
    if length.None? || width.None? then Err(ValidNumbersAlert)
    else Ok(RectangleReport(length.value * width.value, 2.0 * (length.value + width.value)))
  }

  /** Among rectangles of one perimeter the square has the largest area:
      `perimeter² − 16·area` is four times the square of the difference
      of the sides, so it is never negative and vanishes for a square. */
  lemma SquareIsLargest(length: real, width: real)
    ensures var r := Rectangle(Some(length), Some(width)).value;
            r.perimeter * r.perimeter - 16.0 * r.area == 4.0 * ((length - width) * (length - width))
    ensures var r := Rectangle(Some(length), Some(width)).value;
            r.perimeter * r.perimeter >= 16.0 * r.area
    ensures var r := Rectangle(Some(length), Some(width)).value;
            length == width ==> r.perimeter * r.perimeter == 16.0 * r.area
  {
    var d := length - width;
    PerimeterGap(length, width, d);
    SquareSign(d);
  }

  /** `(2·(l + w))² − 16·l·w = 4·d²` for `d = l − w`. */
  lemma PerimeterGap(length: real, width: real, d: real)
    requires d == length - width
    ensures (2.0 * (length + width)) * (2.0 * (length + width)) - 16.0 * (length * width) == 4.0 * (d * d)
  {
  }

  lemma SquareSign(d: real)
    ensures d * d >= 0.0
    ensures d * d > 0.0 <==> d != 0.0
  {
    if d != 0.0 {
      Square(d);
    }
  }

  lemma Square(d: real)
    requires d != 0.0
    ensures d * d > 0.0
  {
    if d < 0.0 {
      assert d * d == (-d) * (-d);
    }
  }

  /** `calculateCircle`. */
  function Circle(radius: Option<real>): (r: Result<CircleReport>)
    ensures r.Err? <==> radius.None?
    ensures r.Err? ==> r.message == ValidNumberAlert
    ensures r.Ok? ==> r.value.area == Pi * radius.value * radius.value
    ensures r.Ok? ==> r.value.circumference == 2.0 * Pi * radius.value
  {
    if radius.None? then Err(ValidNumberAlert)
    else Ok(CircleReport(Pi * radius.value * radius.value, 2.0 * Pi * radius.value))
  }

  /** The disc's area is half its circumference times its radius. */
  lemma DiscIsHalfCircumferenceTimesRadius(radius: real)
    ensures var c := Circle(Some(radius)).value;
            2.0 * c.area == c.circumference * radius
  {
  }

  /** Doubling the radius quadruples the area and doubles the
      circumference. */
  lemma CircleScaling(radius: real)
    ensures Circle(Some(2.0 * radius)).value.area == 4.0 * Circle(Some(radius)).value.area
    ensures Circle(Some(2.0 * radius)).value.circumference == 2.0 * Circle(Some(radius)).value.circumference
  {
  }

  /** `calculateTriangle`: half of base times height. */
  function Triangle(base: Option<real>, height: Option<real>): (r: Result<real>)
    ensures r.Err? <==> base.None? || height.None?
    ensures r.Err? ==> r.message == ValidNumbersAlert
    ensures r.Ok? ==> 2.0 * r.value == base.value * height.value
  {
    if base.None? || height.None? then Err(ValidNumbersAlert)
    else Ok(0.5 * base.value * height.value)
  }

  /** A triangle has half the area of the rectangle on the same base and
      height, and both pages refuse the same inputs. */
  lemma TriangleIsHalfRectangle(base: Option<real>, height: Option<real>)
    ensures Triangle(base, height).Ok? <==> Rectangle(base, height).Ok?
    ensures Triangle(base, height).Ok?
            ==> 2.0 * Triangle(base, height).value == Rectangle(base, height).value.area
  {
  }
}
