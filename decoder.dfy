/**
 * Decoding the detector's raw output into candidate boxes
 * (KivyCamera.get_box_dimensions). Outputs are visited in order, and the
 * rows of each output in order; a row with a best class score above 0.3
 * becomes a box, a confidence and a class id, appended to three parallel
 * lists.
 */
module Decoder {
  import opened Results
  import opened Scores
  import opened Geometry

  /** One row of an output layer: centre x, centre y, width, height, objectness, class scores. */
  type Row = seq<real>

  /** The rows produced by one output layer. */
  type Output = seq<Row>

  /** Class scores start at this column. */
  const FirstScore: nat := 5

  /** A row is kept only when its best class score is strictly above this. */
  const ConfThreshold: real := 0.3

  /** A candidate detection, as one position of the three parallel lists. */
  datatype Candidate = Candidate(box: Box, conf: real, classId: nat)

  /** The three parallel lists get_box_dimensions returns. */
  datatype Detections = Detections(boxes: seq<Box>, confs: seq<real>, classIds: seq<nat>)

  /** argmax of an empty score slice raises; the position is that of the offending row. */
  datatype DecodeError = EmptyScores(output: nat, row: nat)

  /** The score slice detect[5:] is non-empty. */
  predicate HasScores(detect: Row)
  {
    |detect| > FirstScore
  }

  /** The class scores of a row: its columns from FirstScore on. */
  function ScoresOf(detect: Row): seq<real>
    requires HasScores(detect)
  {
    detect[FirstScore..]
  }

  predicate AllHaveScores(rows: seq<Row>)
  {
    forall row :: row in rows ==> HasScores(row)
  }

  /** Every row of every output has a non-empty score slice. */
  predicate WellFormed(outputs: seq<Output>)
  {
    forall o, r :: 0 <= o < |outputs| && 0 <= r < |outputs[o]| ==> HasScores(outputs[o][r])
  }

  /** The rows in visiting order: every row of the first output, then of the second, and so on. */
  function Rows(outputs: seq<Output>): (rows: seq<Row>)
    decreases |outputs|
  {
    if outputs == [] then [] else Rows(outputs[..|outputs| - 1]) + outputs[|outputs| - 1]
  }

  /** Some row of some output lacks class scores exactly when some row of the visiting order does. */
  lemma {:induction false} RowsWellFormed(outputs: seq<Output>)
    decreases |outputs|
    ensures WellFormed(outputs) <==> AllHaveScores(Rows(outputs))
  {
    if outputs != [] {
      var init := outputs[..|outputs| - 1];
      var last := outputs[|outputs| - 1];
      RowsWellFormed(init);
      assert Rows(outputs) == Rows(init) + last;
      if WellFormed(outputs) {
        assert WellFormed(init) by {
          forall o, r | 0 <= o < |init| && 0 <= r < |init[o]|
            ensures HasScores(init[o][r])
          {
            assert init[o] == outputs[o];
          }
        }
        forall row | row in last ensures HasScores(row) {
          var r :| 0 <= r < |last| && last[r] == row;
          assert outputs[|outputs| - 1][r] == row;
        }
      }
      if AllHaveScores(Rows(outputs)) {
        forall o, r | 0 <= o < |outputs| && 0 <= r < |outputs[o]|
          ensures HasScores(outputs[o][r])
        {
          if o < |init| {
            assert init[o] == outputs[o];
          } else {
            assert outputs[o][r] in last;
          }
        }
      }
    }
  }

  /**
   * What one row contributes: nothing when its best class score is at most
   * the threshold, otherwise a candidate made of the argmax class, the score
   * found there and the row's pixel box.
   */
  function DecodeRow(detect: Row, width: int, height: int): (c: Option<Candidate>)
    requires HasScores(detect)
    ensures c.Some? ==> c.value.conf > ConfThreshold
  {
    var scores := ScoresOf(detect);
    var conf := MaxScore(scores);
    if conf > ConfThreshold then Some(Candidate(PixelBox(detect[0], detect[1], detect[2], detect[3], width, height), conf, ArgMax(scores)))
    else None
  }

  /**
   * A row is kept exactly when one of its class scores is above the
   * threshold; its class is then the first position of the best score, its
   * confidence that score, and its box the pixel box of columns 0..3.
   */
  lemma DecodeRowMeaning(detect: Row, width: int, height: int)
    requires HasScores(detect)
    ensures DecodeRow(detect, width, height).Some? <==>
              exists j :: FirstScore <= j < |detect| && detect[j] > ConfThreshold
    ensures DecodeRow(detect, width, height).Some? ==>
              var c := DecodeRow(detect, width, height).value;
              && IsFirstMax(ScoresOf(detect), c.classId)
              && c.conf == ScoresOf(detect)[c.classId]
              && c.box == PixelBox(detect[0], detect[1], detect[2], detect[3], width, height)
  {
    var scores := ScoresOf(detect);
    MaxScoreAbove(scores, ConfThreshold);
    if exists j :: FirstScore <= j < |detect| && detect[j] > ConfThreshold {
      var j :| FirstScore <= j < |detect| && detect[j] > ConfThreshold;
      assert scores[j - FirstScore] > ConfThreshold;
    }
  }

  /** Column 4 (objectness) is never read: changing it changes nothing. */
  lemma ObjectnessIgnored(detect: Row, objectness: real, width: int, height: int)
    requires HasScores(detect)
    ensures DecodeRow(detect[4 := objectness], width, height) == DecodeRow(detect, width, height)
  {
    var changed := detect[4 := objectness];
    assert changed[..4] == detect[..4];
    assert ScoresOf(changed) == ScoresOf(detect);
  }

  /**
   * Columns 0..3 only place the box: two rows with the same class scores
   * are kept or dropped alike, with the same class and confidence.
   */
  lemma GeometryDoesNotSelect(a: Row, b: Row, width: int, height: int)
    requires HasScores(a) && HasScores(b) && a[FirstScore..] == b[FirstScore..]
    ensures DecodeRow(a, width, height).Some? == DecodeRow(b, width, height).Some?
    ensures DecodeRow(a, width, height).Some? ==>
              && DecodeRow(a, width, height).value.classId == DecodeRow(b, width, height).value.classId
              && DecodeRow(a, width, height).value.conf == DecodeRow(b, width, height).value.conf
  {
    assert ScoresOf(a) == ScoresOf(b);
  }

  /** The values present in xs, in order: the filter half of a filter-and-map. */
  function Present<T>(xs: seq<Option<T>>): (ys: seq<T>)
    decreases |xs|
    ensures |ys| <= |xs|
  {
    if xs == [] then []
    else
      Present(xs[..|xs| - 1]) + match xs[|xs| - 1] case None => [] case Some(y) => [y]
  }

  /**
   * The positions of the present values: increasing, and a position is
   * listed exactly when a value is present there.
   */
  function PresentAt<T>(xs: seq<Option<T>>): (src: seq<nat>)
    decreases |xs|
    ensures forall k :: 0 <= k < |src| ==> src[k] < |xs|
    ensures forall k, l :: 0 <= k < l < |src| ==> src[k] < src[l]
  {
    if xs == [] then [] else PresentAt(xs[..|xs| - 1]) + if xs[|xs| - 1].Some? then [|xs| - 1] else []
  }

  /** A position is listed by PresentAt exactly when a value is present there. */
  lemma {:induction false} PresentAtExactly<T>(xs: seq<Option<T>>)
    decreases |xs|
    ensures forall i :: 0 <= i < |xs| ==> (i in PresentAt(xs) <==> xs[i].Some?)
  {
    if xs != [] {
      var last := |xs| - 1;
      var init := xs[..last];
      PresentAtExactly(init);
      assert PresentAt(xs) == PresentAt(init) + if xs[last].Some? then [last] else [];
      forall i | 0 <= i < |xs| ensures i in PresentAt(xs) <==> xs[i].Some? {
        if i < last {
          assert xs[i] == init[i];
        }
      }
    }
  }

  /** Value k of Present(xs) is the one found at position PresentAt(xs)[k]. */
  lemma {:induction false} PresentFollowsPresentAt<T>(xs: seq<Option<T>>)
    decreases |xs|
    ensures |Present(xs)| == |PresentAt(xs)|
    ensures forall k :: 0 <= k < |PresentAt(xs)| ==> xs[PresentAt(xs)[k]] == Some(Present(xs)[k])
  {
    if xs != [] {
      var last := |xs| - 1;
      var init := xs[..last];
      PresentFollowsPresentAt(init);
      var ys, src := Present(init), PresentAt(init);
      assert Present(xs) == ys + match xs[last] case None => [] case Some(y) => [y];
      assert PresentAt(xs) == src + if xs[last].Some? then [last] else [];
      forall k | 0 <= k < |PresentAt(xs)| ensures xs[PresentAt(xs)[k]] == Some(Present(xs)[k]) {
        if k < |src| {
          assert xs[src[k]] == init[src[k]];
        }
      }
    }
  }

  /** The decoding of every row, position by position: the map half. */
  function Decoded(rows: seq<Row>, width: int, height: int): seq<Option<Candidate>>
    requires AllHaveScores(rows)
  {
    seq(|rows|, i requires 0 <= i < |rows| => DecodeRow(rows[i], width, height))
  }

  /** The candidates of a row sequence, in row order. */
  function Candidates(rows: seq<Row>, width: int, height: int): seq<Candidate>
    requires AllHaveScores(rows)
  {
    Present(Decoded(rows, width, height))
  }

  /** The positions, in the row sequence, of the rows that yield a candidate. */
  function Origins(rows: seq<Row>, width: int, height: int): seq<nat>
    requires AllHaveScores(rows)
  {
    PresentAt(Decoded(rows, width, height))
  }

  /**
   * The candidates are the decodings of the kept rows, one per kept row,
   * in row order: candidate k comes from row Origins[k], the origins
   * increase, a row is an origin exactly when it is kept, and so every
   * candidate's confidence is above the threshold and there are at most as
   * many candidates as rows.
   */
  lemma CandidatesFromRows(rows: seq<Row>, width: int, height: int)
    requires AllHaveScores(rows)
    ensures |Candidates(rows, width, height)| == |Origins(rows, width, height)| <= |rows|
    ensures forall k, l :: 0 <= k < l < |Origins(rows, width, height)| ==>
              Origins(rows, width, height)[k] < Origins(rows, width, height)[l]
    ensures forall i :: 0 <= i < |rows| ==>
              (i in Origins(rows, width, height) <==> DecodeRow(rows[i], width, height).Some?)
    ensures forall k :: 0 <= k < |Origins(rows, width, height)| ==>
              && Origins(rows, width, height)[k] < |rows|
              && DecodeRow(rows[Origins(rows, width, height)[k]], width, height)
                 == Some(Candidates(rows, width, height)[k])
    ensures forall c :: c in Candidates(rows, width, height) ==> c.conf > ConfThreshold
  {
    var xs := Decoded(rows, width, height);
    PresentFollowsPresentAt(xs);
    PresentAtExactly(xs);
    forall c | c in Candidates(rows, width, height) ensures c.conf > ConfThreshold {
      var k :| 0 <= k < |Present(xs)| && Present(xs)[k] == c;
      assert xs[PresentAt(xs)[k]] == Some(c);
    }
  }

  /** Appending a row appends that row's candidate, if it has one. */
  lemma CandidatesSnoc(rows: seq<Row>, row: Row, width: int, height: int)
    requires AllHaveScores(rows) && HasScores(row)
    ensures AllHaveScores(rows + [row])
    ensures Candidates(rows + [row], width, height)
              == Candidates(rows, width, height)
                 + match DecodeRow(row, width, height) case None => [] case Some(c) => [c]
  {
    var xs := Decoded(rows, width, height);
    assert Decoded(rows + [row], width, height) == xs + [DecodeRow(row, width, height)];
    assert (xs + [DecodeRow(row, width, height)])[..|xs|] == xs;
  }

  lemma PrefixSnoc<T>(before: seq<T>, s: seq<T>, j: nat)
    requires j < |s|
    ensures before + s[..j + 1] == (before + s[..j]) + [s[j]]
  {
    assert s[..j + 1] == s[..j] + [s[j]];
  }

  /** The rows visited after the first i + 1 outputs. */
  lemma RowsStep(outputs: seq<Output>, i: nat)
    requires i < |outputs|
    ensures Rows(outputs[..i + 1]) == Rows(outputs[..i]) + outputs[i][..|outputs[i]|]
  {
    assert outputs[..i + 1][..i] == outputs[..i];
    assert outputs[i][..|outputs[i]|] == outputs[i];
  }

  /** The three parallel lists of cs: its boxes, confidences and class ids, position by position. */
  function Columns(cs: seq<Candidate>): Detections
  {
    Detections(seq(|cs|, k requires 0 <= k < |cs| => cs[k].box),
               seq(|cs|, k requires 0 <= k < |cs| => cs[k].conf),
               seq(|cs|, k requires 0 <= k < |cs| => cs[k].classId))
  }

  lemma ColumnsSnoc(cs: seq<Candidate>, c: Candidate)
    ensures Columns(cs + [c])
            == Detections(Columns(cs).boxes + [c.box], Columns(cs).confs + [c.conf],
                          Columns(cs).classIds + [c.classId])
  {
  }

  /**
   * get_box_dimensions: nested loops over the outputs and their rows that
   * append to three lists in place. It fails at the first row (in visiting
   * order) whose score slice is empty; otherwise the three lists are the
   * candidates of all rows, position by position.
   */
  method GetBoxDimensions(outputs: seq<Output>, height: int, width: int)
    returns (res: Result<Detections, DecodeError>)
    ensures res.Success? <==> WellFormed(outputs)
    ensures res.Failure? ==>
              var o, r := res.error.output, res.error.row;
              && o < |outputs| && r < |outputs[o]|
              && !HasScores(outputs[o][r])
              && AllHaveScores(Rows(outputs[..o]) + outputs[o][..r])
    ensures res.Success? ==>
              && AllHaveScores(Rows(outputs))
              && res.value == Columns(Candidates(Rows(outputs), width, height))
    ensures outputs == [] ==> res == Success(Detections([], [], []))
  {
    var boxes: seq<Box> := [];
    var confs: seq<real> := [];
    var classIds: seq<nat> := [];
    ghost var cands: seq<Candidate> := [];
    for i := 0 to |outputs|
      invariant AllHaveScores(Rows(outputs[..i]))
      invariant cands == Candidates(Rows(outputs[..i]), width, height)
      invariant Detections(boxes, confs, classIds) == Columns(cands)
    {
      var output := outputs[i];
      assert Rows(outputs[..i]) + output[..0] == Rows(outputs[..i]);
      for j := 0 to |output|
        invariant AllHaveScores(Rows(outputs[..i]) + output[..j])
        invariant cands == Candidates(Rows(outputs[..i]) + output[..j], width, height)
        invariant Detections(boxes, confs, classIds) == Columns(cands)
      {
        var detect := output[j];
        ghost var before := Rows(outputs[..i]) + output[..j];
        PrefixSnoc(Rows(outputs[..i]), output, j);
        if |detect| <= FirstScore {
          return Failure(EmptyScores(i, j));
        }
        CandidatesSnoc(before, detect, width, height);
        var found := DecodeRow(detect, width, height);
        if found.Some? {
          var c := found.value;
          ColumnsSnoc(cands, c);
          boxes := boxes + [c.box];
          confs := confs + [c.conf];
          classIds := classIds + [c.classId];
          cands := cands + [c];
        }
      }
      RowsStep(outputs, i);
    }
    assert outputs[..|outputs|] == outputs;
    RowsWellFormed(outputs);
    return Success(Detections(boxes, confs, classIds));
  }
}
