# Yolobject detection core in Dafny

Yolobject is a small Kivy camera app. On every timer tick it:
- reads a camera frame;
- runs a YOLOv3-tiny network over it;
- turns the raw network rows into candidate boxes;
- keeps the boxes chosen by OpenCV's non-maximum suppression (NMS);
- outlines and labels those boxes on the frame.

This project models the two parts of `KivyCamera` that carry the logic:

- **`get_box_dimensions`** is modelled as the method `Decoder.GetBoxDimensions`. It walks every output layer and every row, in order. For each row it:
  - takes the class scores from column 5 onwards;
  - picks the first maximal score (numpy `argmax`);
  - keeps the row only when that score exceeds 0.3;
  - turns the normalised centre and size into pixel values with Python's truncating `int()` (`Geometry.Trunc`, `Geometry.PixelBox`);
  - appends box, confidence and class id to three parallel lists.

  The method is proved against a value-level specification:
  - `Decoder.DecodeRow` handles one row;
  - `Decoder.Candidates` and `Decoder.Origins` give the kept rows and their positions in visiting order.

  A row with no class scores makes `argmax` raise in the source. Here it becomes `Failure(EmptyScores(o, r))` at the first such row.
- **`draw_labels`** is modelled as the method `Annotator.DrawLabels`. The index set that `cv2.dnn.NMSBoxes` returns is an input. Boxes are visited in index order. For each selected index `i` the method draws:
  - an outline from `(x, y)` to `(x + w, y + h)` in `colors[i]`, thickness 2;
  - the upper-cased class name at `(x, y - 5)`, font scale 1, thickness 1.

  The frame is a `Frame` object whose `overlays` field is the list of drawing operations applied to it, in order. The method appends to it in place. A class id outside the class list, or a box position with no colour, makes the source raise `IndexError`. These become `UnknownClass(i)` and `NoColor(i)`, and the frame keeps what was drawn before the fault.

`Pipeline.DrawnBoxesTraceToRows` joins the two halves of one frame update (`update`, main.py:19-22). Every outline the annotator draws is the decoding of one particular network row, with a confidence above the detection threshold.

Four points about the code's behaviour:
- **Colours.** The colour of a box is `colors[i]`, picked by the box's position `i` in the list of boxes (main.py:78).
- **Drawing order.** Selected boxes are drawn in increasing box index (main.py:74-75).
- **Ties.** On tied maximum scores the first class wins, as numpy `argmax` does (main.py:57).
- **Threshold.** A row is kept only when its confidence is strictly above 0.3 (main.py:59).

## Model

| member | source | states |
|---|---|---|
| Scores.ArgMax | main.py:57 | The chosen class index is in range. Its score is at least every other score and strictly above every score before it (the first maximum). |
| Scores.ArgMaxUnique | main.py:57 | An index is the first maximum of the scores exactly when it is the one `ArgMax` picks, so the class choice is uniquely determined. |
| Scores.MaxScore | main.py:58 | The confidence is one of the scores and is at least every score. |
| Scores.MaxScoreAbove | main.py:58-59 | The confidence exceeds a threshold exactly when some class score exceeds it. |
| Geometry.Trunc | main.py:60-65 | Truncation toward zero: the result is within one of its argument, never above a nonnegative argument, and never below a nonpositive one. |
| Geometry.TruncVersusFloor | main.py:64-65 | Truncation agrees with floor exactly on nonnegative values and on whole numbers, so negative half-widths round toward zero. |
| Geometry.PixelBox | main.py:60-66 | Width and height are within one pixel of the scaled sizes, and lie between 0 and those sizes when the sizes are nonnegative. The box centre is within two pixels of the scaled centre. |
| Decoder.RowsWellFormed | main.py:54-56 | Some row of some output lacks class scores exactly when some row of the flattened visiting order does. |
| Decoder.Rows | main.py:54-55 | The visiting order of the nested loops: the rows of the first output, then those of the second, and so on, each output's rows in their own order. |
| Decoder.ScoresOf | main.py:56 | The class scores of a row: its columns from 5 on. |
| Decoder.DecodeRow | main.py:56-68 | A row produces a candidate only with a confidence above 0.3. |
| Decoder.DecodeRowMeaning | main.py:56-66 | A row is kept exactly when some class score exceeds 0.3. A kept row's class is the first maximum of its scores, its confidence is that score, and its box is the truncated pixel box of columns 0-3. |
| Decoder.ObjectnessIgnored | main.py:56-63 | Column 4 (objectness) never changes whether a row is kept or what it yields. |
| Decoder.GeometryDoesNotSelect | main.py:56-59 | Two rows with the same class scores are kept or dropped alike, with the same class and confidence, whatever their box columns. |
| Decoder.Candidates | main.py:54-69 | The specification the loops are proved against: the decodings of the kept rows, in visiting order, with the dropped rows left out. |
| Decoder.Origins | main.py:54-69 | The positions, in visiting order, of the rows that are kept, one per candidate. |
| Decoder.CandidatesFromRows | main.py:54-69 | There are at most as many candidates as rows, and each one has confidence above 0.3. Candidate k is the decoding of row `Origins[k]`. The origins strictly increase, so visiting order is kept. A row appears among the origins exactly when it is kept. |
| Decoder.Columns | main.py:66-68 | The three parallel lists built from a sequence of candidates: at each position, that candidate's box `[x, y, w, h]`, its confidence and its class id. |
| Decoder.GetBoxDimensions | main.py:50-69 | Succeeds exactly when every row has class scores. On success the three lists are, position by position, the boxes, confidences and class ids of the candidates. On failure it names the first row in visiting order that lacks scores. No outputs yields three empty lists. |
| Annotator.Upper | main.py:77 | Same length as the name. No lower-case letter remains. Every other character is unchanged, and each lower-case letter becomes its capital. |
| Annotator.UpperIdempotent | main.py:77 | Upper-casing an already upper-cased name changes nothing. |
| Annotator.Selected | main.py:74-75 | The visited positions are exactly the positions below the box count that are in the index set, in increasing order. |
| Annotator.Annotations | main.py:74-80 | What the draw loop adds to the frame for the first n boxes: for each index below n that is in the suppression set, in increasing order, the outline of that box and then its caption. |
| Annotator.Outline | main.py:79 | The rectangle drawn for a box: corner `(x, y)`, opposite corner `(x + w, y + h)`, the box's colour, line thickness 2. |
| Annotator.Caption | main.py:77-80 | The text drawn for a box: the upper-cased class name, placed at `(x, y - 5)`, in the box's colour, font scale 1 and thickness 1. |
| Annotator.AnnotationsShape | main.py:74-80 | Two operations are drawn per selected box. For the k-th selected box `i` they are the outline of `boxes[i]` in `colors[i]` and then the upper-cased `classes[classIds[i]]` at 5 pixels above its corner, in the same colour. |
| Annotator.NoSelectionNoDrawing | main.py:74-81 | When suppression selects no index, nothing is drawn. |
| Annotator.DrawLabels | main.py:72-81 | Returns no fault exactly when every selected box has a known class and a colour. Then the frame gains exactly the annotations of all boxes. On a fault it names the first selected box whose class or colour is missing, and says which of the two. The frame then gains exactly the annotations of the boxes before it. |
| Pipeline.DrawnBoxesTraceToRows | main.py:19-22 | Each outline drawn for a decoded frame is the box of a network row that the decoder keeps, with a confidence above 0.3. That row is named by its position in visiting order. |

## Left out

- The Kivy application, its clock scheduling, the `VideoCapture` reading and release, the skip of a tick whose camera read fails (`if ret:`), and the `__main__` start-up block (main.py:1-18, 84-99) are outside the model. They are I/O and a UI framework.
- `load_yolo` is not part of this model: it reads network files, reads the class-name file and draws random colours. The class names and the colour table are parameters.
- `detect_objects` and the network forward pass are not part of this model, because they call into OpenCV. The network outputs are a parameter.
- `cv2.dnn.NMSBoxes` (thresholds 0.5 and 0.4) is a call into OpenCV. The set of indices it returns is a parameter of `DrawLabels`, and nothing is assumed about it.
- The `confs` argument of `draw_labels` is dropped because it only feeds `NMSBoxes`.
- Pixel rasterisation, the font face (`FONT_ITALIC`) and text metrics are left out. The frame's flip, `tostring` and texture upload are left out too. The frame is recorded as its list of drawing operations.
- Scores and coordinates are exact reals, not IEEE floats. Rounding, NaN and infinities (which `argmax` and `int()` treat specially) are not modelled. The `float(conf)` conversion is therefore the identity.
- Annotator.Upper: models `str.upper` on ASCII letters only. Other Unicode case mappings (such as one letter becoming two) are not modelled.
- Annotator.DrawLabels: requires `class_ids` to be as long as `boxes`. Its only caller passes the parallel lists built by `get_box_dimensions`.
