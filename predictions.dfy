/** `process_labels` and `clean_predicted_data`: the decoded endpoint response
    is reduced to its top label and probability per entry, attached to the
    input rows, and the label column is then rewritten in place. */
module Predictions {
  import opened Records
  import opened LabelCleaning

  /** One entry of the decoded response, `{"label": [...], "prob": [...]}`:
      the ranked candidate labels and their probabilities. Probabilities are
      carried, never computed with. */
  datatype Prediction<P> = Prediction(labels: seq<string>, probs: seq<P>)

  /** The extraction loop of `process_labels`: the first label and the first
      probability of every entry, in response order. An entry with an empty
      list would make the code fail with an index error. */
  method ExtractTopPredictions<P>(results: seq<Prediction<P>>)
    returns (labels: seq<string>, probs: seq<P>)
    requires forall i :: 0 <= i < |results| ==> |results[i].labels| > 0 && |results[i].probs| > 0
    ensures |labels| == |results| && |probs| == |results|
    ensures forall i :: 0 <= i < |results| ==>
              labels[i] == results[i].labels[0] && probs[i] == results[i].probs[0]
  {
    labels, probs := [], [];
    for k := 0 to |results|
      invariant |labels| == k && |probs| == k
      invariant forall i :: 0 <= i < k ==>
                  labels[i] == results[i].labels[0] && probs[i] == results[i].probs[0]
    {
      var item := results[k];
      labels := labels + [item.labels[0]];
      probs := probs + [item.probs[0]];
    }
  }

  /** An element-wise rewrite of one column, as pandas applies
      `Series.replace` and `Series.str.title`. */
  function MapColumn(f: string -> string, column: seq<string>): (r: seq<string>)
    ensures |r| == |column|
    ensures forall i :: 0 <= i < |column| ==> r[i] == f(column[i])
  {
    seq(|column|, i requires 0 <= i < |column| => f(column[i]))
  }

  /** The frame `data_with_prediction`: the input rows with a `label` and a
      `prob` column beside them, row `i` of each column belonging to input
      row `i`. */
  class PredictionTable<P> {
    var records: seq<Record>
    /** The `label` column. */
    var labels: seq<string>
    /** The `prob` column. */
    var probs: seq<P>

    /** Every column has one cell per row. */
    predicate Valid()
      reads this
    {
      |labels| == |records| && |probs| == |records|
    }

    /** The column-wise concatenation that builds the frame. */
    constructor (rows: seq<Record>, labelCells: seq<string>, probCells: seq<P>)
      requires |labelCells| == |rows| && |probCells| == |rows|
      ensures Valid()
      ensures records == rows && labels == labelCells && probs == probCells
    {
      records := rows;
      labels := labelCells;
      probs := probCells;
    }

    /** `clean_predicted_data`: the label column is reassigned three times:
        `__label__` removed, underscores made spaces, title case. Each label
        ends canonical, so a second run changes nothing; the rows and the
        probabilities are untouched. */
    method CleanPredictedData()
      requires Valid()
      modifies this
      ensures Valid()
      ensures records == old(records) && probs == old(probs)
      ensures |labels| == |old(labels)|
      ensures forall i :: 0 <= i < |labels| ==> labels[i] == Canonical(old(labels)[i])
      ensures forall i :: 0 <= i < |labels| ==> Canonical(labels[i]) == labels[i]
    {
      labels := MapColumn(s => RemoveAll(s, LabelPrefix), labels);
      labels := MapColumn(ReplaceUnderscores, labels);
      labels := MapColumn(Ascii.Title, labels);
      forall i | 0 <= i < |labels|
        ensures Canonical(labels[i]) == labels[i]
      {
        CanonicalIdempotent(old(labels)[i]);
      }
    }
  }

  /** `process_labels`: extract the top prediction of every response entry
      and attach the labels and probabilities to the input rows, by position.
      The code does not compare the two lengths; equal lengths are what it
      relies on. */
  method ProcessLabels<P>(data: seq<Record>, results: seq<Prediction<P>>)
    returns (table: PredictionTable<P>)
    requires |results| == |data|
    requires forall i :: 0 <= i < |results| ==> |results[i].labels| > 0 && |results[i].probs| > 0
    ensures fresh(table) && table.Valid()
    ensures table.records == data
    ensures forall i :: 0 <= i < |data| ==>
              table.labels[i] == results[i].labels[0] && table.probs[i] == results[i].probs[0]
  {
    var labels, probs := ExtractTopPredictions(results);
    table := new PredictionTable(data, labels, probs);
  }
}
