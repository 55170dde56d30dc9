/**
 * The hand-off inside one frame update: the three lists the decoder
 * returns go to the annotator together with the indices kept by
 * non-maximum suppression.
 */
module Pipeline {
  import opened Results
  import opened Decoder
  import opened Annotator

  /**
   * Every box the annotator outlines for a network output whose rows all
   * carry class scores is
   * the decoding of one row of that output, read at the frame's own width
   * and height: the row at position Origins[i] of the visiting order, with
   * a confidence above the detection threshold.
   */
  lemma {:induction false} DrawnBoxesTraceToRows(outputs: seq<Output>, height: int, width: int,
                                                 classes: seq<string>, colors: seq<Color>, indexes: set<int>)
    requires AllHaveScores(Rows(outputs))
    ensures var rows := Rows(outputs);
            var ds := Columns(Candidates(rows, width, height));
            var sel := Selected(indexes, |ds.boxes|);
            Drawable(ds.boxes, ds.classIds, classes, colors, indexes, |ds.boxes|) ==>
              && |Annotations(ds.boxes, ds.classIds, classes, colors, indexes, |ds.boxes|)| == 2 * |sel|
              && forall k :: 0 <= k < |sel| ==>
                   && Annotations(ds.boxes, ds.classIds, classes, colors, indexes, |ds.boxes|)[2 * k]
                      == Outline(ds.boxes[sel[k]], colors[sel[k]])
                   && ds.confs[sel[k]] > ConfThreshold
                   && sel[k] < |Origins(rows, width, height)|
                   && DecodeRow(rows[Origins(rows, width, height)[sel[k]]], width, height)
                      == Some(Candidate(ds.boxes[sel[k]], ds.confs[sel[k]], ds.classIds[sel[k]]))
  {
    var rows := Rows(outputs);
    var cs := Candidates(rows, width, height);
    var ds := Columns(cs);
    CandidatesFromRows(rows, width, height);
    if Drawable(ds.boxes, ds.classIds, classes, colors, indexes, |ds.boxes|) {
      AnnotationsShape(ds.boxes, ds.classIds, classes, colors, indexes, |ds.boxes|);
      forall k | 0 <= k < |Selected(indexes, |ds.boxes|)|
        ensures ds.confs[Selected(indexes, |ds.boxes|)[k]] > ConfThreshold
      {
        var i := Selected(indexes, |ds.boxes|)[k];
        assert cs[i] in cs;
      }
    }
  }
}
