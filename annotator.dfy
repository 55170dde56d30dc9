/**
 * Drawing the kept detections onto the frame (KivyCamera.draw_labels).
 * The set of indices kept by non-maximum suppression is an input; boxes
 * are visited in index order and each kept one gets an outline and an
 * upper-cased label, both in the colour found at the box's own position.
 */
module Annotator {
  import opened Results
  import opened Geometry

  /** One row of the colour table: blue, green and red intensities. */
  datatype Color = Color(blue: real, green: real, red: real)

  datatype Point = Point(x: int, y: int)

  /** The two drawing calls draw_labels makes, with every argument they receive. */
  datatype DrawOp =
    | Rectangle(corner: Point, opposite: Point, color: Color, thickness: int)
    | Text(text: string, origin: Point, color: Color, fontScale: real, thickness: int)

  /** Line width of a box outline. */
  const OutlineThickness: int := 2

  /** The label's origin sits this many pixels above the box's top edge. */
  const LabelOffset: int := 5

  /** Scale and stroke width of the italic label font. */
  const FontScale: real := 1.0
  const TextThickness: int := 1

  predicate IsLower(c: char)
  {
    'a' <= c <= 'z'
  }

  function UpperChar(c: char): char
  {
    if IsLower(c) then (c as int - 32) as char else c
  }

  /** str.upper on the ASCII letters: lower-case letters become capitals, all else stays. */
  function Upper(s: string): (u: string)
    ensures |u| == |s|
    ensures forall i :: 0 <= i < |u| ==> !IsLower(u[i])
    ensures forall i :: 0 <= i < |s| && !IsLower(s[i]) ==> u[i] == s[i]
    ensures forall i :: 0 <= i < |s| && IsLower(s[i]) ==> 'A' <= u[i] <= 'Z' && u[i] as int + 32 == s[i] as int
  {
    seq(|s|, i requires 0 <= i < |s| => UpperChar(s[i]))
  }

  /** Upper-casing twice is upper-casing once. */
  lemma UpperIdempotent(s: string)
    ensures Upper(Upper(s)) == Upper(s)
  {
  }

  /**
   * The frame being annotated. Its pixels are abstracted to the drawing
   * operations applied to it so far, in the order they were applied.
   */
  class Frame {
    var overlays: seq<DrawOp>

    /** A frame as it comes from the camera, with nothing drawn on it. */
    constructor ()
      ensures overlays == []
    {
      overlays := [];
    }
  }

  /**
   * Why drawing stopped at a kept box: its class id is past the end of the
   * class names, or its position is past the end of the colour table.
   */
  datatype DrawFault = UnknownClass(index: nat) | NoColor(index: nat)

  /** Box i is kept but its label or its colour cannot be looked up. */
  predicate Faulty(classIds: seq<nat>, classes: seq<string>, colors: seq<Color>, indexes: set<int>, i: nat)
    requires i < |classIds|
  {
    i in indexes && (classIds[i] >= |classes| || i >= |colors|)
  }

  /** The first n boxes can be drawn without a fault. */
  predicate Drawable(boxes: seq<Box>, classIds: seq<nat>, classes: seq<string>, colors: seq<Color>,
                     indexes: set<int>, n: nat)
  {
    && n <= |boxes| && |classIds| == |boxes|
    && forall i :: 0 <= i < n && i in indexes ==> classIds[i] < |classes| && i < |colors|
  }

  /** The outline cv2.rectangle draws for box b: from (x, y) to (x + w, y + h), two pixels wide. */
  function Outline(b: Box, color: Color): DrawOp
  {
    Rectangle(Point(b.x, b.y), Point(b.x + b.w, b.y + b.h), color, OutlineThickness)
  }

  /** The caption cv2.putText draws for box b: the upper-cased name, five pixels above the top-left corner. */
  function Caption(b: Box, name: string, color: Color): DrawOp
  {
    Text(Upper(name), Point(b.x, b.y - LabelOffset), color, FontScale, TextThickness)
  }

  /** What draw_labels draws for the first n boxes, in the order it draws it. */
  function Annotations(boxes: seq<Box>, classIds: seq<nat>, classes: seq<string>, colors: seq<Color>,
                       indexes: set<int>, n: nat): seq<DrawOp>
    requires Drawable(boxes, classIds, classes, colors, indexes, n)
  {
    if n == 0 then []
    else
      var i := n - 1;
      Annotations(boxes, classIds, classes, colors, indexes, i)
      + if i in indexes then [Outline(boxes[i], colors[i]), Caption(boxes[i], classes[classIds[i]], colors[i])]
        else []
  }

  /** The kept indices below n, in increasing order, each once. */
  function Selected(indexes: set<int>, n: nat): (sel: seq<nat>)
    ensures forall k :: 0 <= k < |sel| ==> sel[k] < n && sel[k] in indexes
    ensures forall k, l :: 0 <= k < l < |sel| ==> sel[k] < sel[l]
    ensures forall i :: 0 <= i < n && i in indexes ==> i in sel
  {
    if n == 0 then [] else Selected(indexes, n - 1) + if n - 1 in indexes then [n - 1] else []
  }

  /**
   * The drawing is two operations per kept index, in increasing index
   * order: the outline from (x, y) to (x + w, y + h), then the upper-cased
   * class name at (x, y - 5), both in the colour at the box's position.
   */
  lemma {:induction false} AnnotationsShape(boxes: seq<Box>, classIds: seq<nat>, classes: seq<string>,
                                            colors: seq<Color>, indexes: set<int>, n: nat)
    requires Drawable(boxes, classIds, classes, colors, indexes, n)
    ensures |Annotations(boxes, classIds, classes, colors, indexes, n)| == 2 * |Selected(indexes, n)|
    ensures forall k :: 0 <= k < |Selected(indexes, n)| ==>
              var i := Selected(indexes, n)[k];
              && Annotations(boxes, classIds, classes, colors, indexes, n)[2 * k] == Outline(boxes[i], colors[i])
              && Annotations(boxes, classIds, classes, colors, indexes, n)[2 * k + 1]
                 == Caption(boxes[i], classes[classIds[i]], colors[i])
  {
    if n > 0 {
      var i := n - 1;
      AnnotationsShape(boxes, classIds, classes, colors, indexes, i);
      var prev := Annotations(boxes, classIds, classes, colors, indexes, i);
      var ops := Annotations(boxes, classIds, classes, colors, indexes, n);
      var sel := Selected(indexes, i);
      if i in indexes {
        assert Selected(indexes, n) == sel + [i];
        assert ops == prev + [Outline(boxes[i], colors[i]), Caption(boxes[i], classes[classIds[i]], colors[i])];
      } else {
        assert Selected(indexes, n) == sel;
        assert ops == prev;
      }
    }
  }

  /** With no kept index among the first n boxes nothing is drawn: the frame is left as it was. */
  lemma {:induction false} NoSelectionNoDrawing(boxes: seq<Box>, classIds: seq<nat>, classes: seq<string>,
                                                colors: seq<Color>, indexes: set<int>, n: nat)
    requires n <= |boxes| && |classIds| == |boxes|
    requires forall i :: 0 <= i < n ==> i !in indexes
    ensures Drawable(boxes, classIds, classes, colors, indexes, n)
    ensures Annotations(boxes, classIds, classes, colors, indexes, n) == []
  {
    if n > 0 {
      NoSelectionNoDrawing(boxes, classIds, classes, colors, indexes, n - 1);
    }
  }

  lemma AppendPair<T>(before: seq<T>, done: seq<T>, x: T, y: T)
    ensures before + done + [x] + [y] == before + (done + [x, y])
  {
  }

  /** Visiting box i extends the drawing by that box's outline and caption when i is kept. */
  lemma AnnotationsStep(boxes: seq<Box>, classIds: seq<nat>, classes: seq<string>, colors: seq<Color>,
                        indexes: set<int>, i: nat)
    requires Drawable(boxes, classIds, classes, colors, indexes, i) && i < |boxes|
    requires i in indexes ==> classIds[i] < |classes| && i < |colors|
    ensures Drawable(boxes, classIds, classes, colors, indexes, i + 1)
    ensures Annotations(boxes, classIds, classes, colors, indexes, i + 1)
            == Annotations(boxes, classIds, classes, colors, indexes, i)
               + if i in indexes then [Outline(boxes[i], colors[i]), Caption(boxes[i], classes[classIds[i]], colors[i])]
                 else []
  {
  }

  /**
   * draw_labels: visits every box position in order and, for a kept one,
   * draws its outline and its label onto img. A kept box whose class name
   * or colour is out of range stops the drawing there, leaving on img what
   * was drawn for the earlier boxes.
   */
  method DrawLabels(boxes: seq<Box>, colors: seq<Color>, classIds: seq<nat>, classes: seq<string>,
                    indexes: set<int>, img: Frame)
    returns (fault: Option<DrawFault>)
    requires |classIds| == |boxes|
    modifies img
    ensures fault.None? <==> Drawable(boxes, classIds, classes, colors, indexes, |boxes|)
    ensures fault.None? ==>
              img.overlays == old(img.overlays) + Annotations(boxes, classIds, classes, colors, indexes, |boxes|)
    ensures fault.Some? ==>
              var i := fault.value.index;
              && i < |boxes|
              && Faulty(classIds, classes, colors, indexes, i)
              && (fault.value.UnknownClass? <==> classIds[i] >= |classes|)
              && Drawable(boxes, classIds, classes, colors, indexes, i)
              && img.overlays == old(img.overlays) + Annotations(boxes, classIds, classes, colors, indexes, i)
  {
    for i := 0 to |boxes|
      invariant Drawable(boxes, classIds, classes, colors, indexes, i)
      invariant img.overlays == old(img.overlays) + Annotations(boxes, classIds, classes, colors, indexes, i)
    {
      if i in indexes {
        var box := boxes[i];
        if classIds[i] >= |classes| {
          return Some(UnknownClass(i));
        }
        var name := classes[classIds[i]];
        if i >= |colors| {
          return Some(NoColor(i));
        }
        var color := colors[i];
        img.overlays := img.overlays + [Outline(box, color)];
        img.overlays := img.overlays + [Caption(box, name, color)];
        AppendPair(old(img.overlays), Annotations(boxes, classIds, classes, colors, indexes, i),
                   Outline(box, color), Caption(box, name, color));
      }
      AnnotationsStep(boxes, classIds, classes, colors, indexes, i);
    }
    return None;
  }
}
