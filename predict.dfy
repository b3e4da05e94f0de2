/**
 * The part of the server's /predict route that is not model training: the
 * 0.5 threshold of make_predictions, the three risk counts and the list of
 * the first 20 predictions sent to the browser. The classifier's outcome is
 * an input here: its probabilities, or none when training or prediction
 * raises.
 */
module Predict {
  import opened Wrappers
  import opened Schema
  import opened Risk

  /** (probas > 0.5).astype(int) */
  function Predictions(probas: seq<real>): (labels: seq<int>)
    ensures |labels| == |probas|
    ensures forall i :: 0 <= i < |probas| ==> (labels[i] == 0 || labels[i] == 1) && (labels[i] == 1 <==> probas[i] > 0.5)
  {
    seq(|probas|, i requires 0 <= i < |probas| => Label(probas[i]))
  }

  /** Python's int() on a float: truncation toward zero. */
  function Truncate(x: real): (n: int)
    ensures 0.0 <= x ==> n as real <= x < n as real + 1.0
    ensures x < 0.0 ==> n as real - 1.0 < x <= n as real
  {
    if x >= 0.0 then x.Floor else -((-x).Floor)
  }

  /** One entry of predictions_data. */
  datatype PredictionRow = PredictionRow(idCommande: Option<int>, probability: real, prediction: int)

  /** The order id of an entry: null for a missing value and the truncated
      number otherwise; int() of a text value is not modelled and counts as
      raising (None). */
  function RowId(c: Cell): Option<Option<int>> {
    match c
    case Null => Some(None)
    case Num(x) => Some(Some(Truncate(x)))
    case Str(_) => None
  }

  /** The entries for the first k rows, or None when building one of them raises. */
  function FirstRows(ids: seq<Cell>, probas: seq<real>, labels: seq<int>, k: nat): (r: Option<seq<PredictionRow>>)
    requires |ids| == |probas| == |labels| && k <= |ids|
    ensures r.None? <==> exists i :: 0 <= i < k && ids[i].Str?
    ensures r.Some? ==> && |r.value| == k
                        && forall i :: 0 <= i < k ==>
                             r.value[i] == PredictionRow(RowId(ids[i]).value, probas[i], labels[i])
  {
    if k == 0 then Some([])
    else
      match FirstRows(ids, probas, labels, k - 1)
      case None => None
      case Some(rows) =>
        match RowId(ids[k - 1])
        case None => None
        case Some(id) => Some(rows + [PredictionRow(id, probas[k - 1], labels[k - 1])])
  }

  function Min(a: nat, b: nat): nat { if a <= b then a else b }

  /** predictions_data: the first 20 rows of the result frame. */
  function PredictionsData(ids: seq<Cell>, probas: seq<real>, labels: seq<int>): Option<seq<PredictionRow>>
    requires |ids| == |probas| == |labels|
  {
    FirstRows(ids, probas, labels, Min(20, |ids|))
  }

  /** The loop over every row of the result frame that appends an entry for
      the rows before the 20th. */
  method BuildPredictionsData(ids: seq<Cell>, probas: seq<real>, labels: seq<int>)
    returns (data: Option<seq<PredictionRow>>)
    requires |ids| == |probas| == |labels|
    ensures data == PredictionsData(ids, probas, labels)
  {
    var rows: seq<PredictionRow> := [];
    for i := 0 to |ids|
      invariant FirstRows(ids, probas, labels, Min(20, i)) == Some(rows)
    {
      if i < 20 {
        var id := RowId(ids[i]);
        if id.None? {
          return None;
        }
        rows := rows + [PredictionRow(id.value, probas[i], labels[i])];
      }
    }
    data := Some(rows);
  }

  /** The figures of the response: total orders and the three risk counts. */
  datatype Summary = Summary(totalOrders: nat, highRisk: nat, mediumRisk: nat, lowRisk: nat)

  /** The counts of predict, which partition the orders. */
  function Summarize(probas: seq<real>): (s: Summary)
    ensures s.highRisk + s.mediumRisk + s.lowRisk == s.totalOrders == |probas|
  {
    CountsPartition(probas);
    Summary(|probas|, HighCount(probas), MediumCount(probas), LowCount(probas))
  }

  /** The data of a successful response. */
  datatype PredictResult = PredictResult(summary: Summary, predictions: seq<PredictionRow>, downloadUrl: string)

  datatype PredictResponse =
    | NoAnalysis    // 'Aucune donnée analysée'
    | Failed        // an exception: 'Erreur: ' and its text
    | Predicted(result: PredictResult)

  /** /predict given whether an analysis is stored, the order ids of the
      stored frame and the outcome of train_model and make_predictions (the
      probabilities for its rows, or None when they raise), with the three
      counts sent as Python integers: the response succeeds exactly when an
      analysis is stored, the classifier answers and none of the first 20 ids
      is text. */
  function PredictRoute(hasAnalysis: bool, ids: seq<Cell>, classified: Option<seq<real>>): (r: PredictResponse)
    requires classified.Some? ==> |classified.value| == |ids|
    ensures r == NoAnalysis <==> !hasAnalysis
    ensures r.Predicted? <==> && hasAnalysis && classified.Some?
                              && forall i :: 0 <= i < Min(20, |ids|) ==> !ids[i].Str?
    ensures r.Predicted? ==> && classified.Some?
                             && |r.result.predictions| == Min(20, |ids|)
                             && r.result.summary.totalOrders == |ids|
                             && r.result.summary.highRisk + r.result.summary.mediumRisk + r.result.summary.lowRisk == |ids|
                             && r.result.downloadUrl == "/download"
                             && forall i :: 0 <= i < |r.result.predictions| ==>
                                  && r.result.predictions[i].probability == classified.value[i]
                                  && (r.result.predictions[i].prediction == 1 <==> classified.value[i] > 0.5)
  {
    if !hasAnalysis then NoAnalysis
    else
      match classified
      case None => Failed
      case Some(probas) =>
        var labels := Predictions(probas);
        match PredictionsData(ids, probas, labels)
        case None => Failed
        case Some(rows) => Predicted(PredictResult(Summarize(probas), rows, "/download"))
  }

  // ---------------------------------------------------------------------
  // The route as written: the counts are numpy integers

  /** A number of the response dictionary: a Python int, or a numpy.int64
      such as the .sum() of a boolean array gives. */
  datatype Number = PyInt(n: int) | NumpyInt64(n: int)

  /** jsonify's encoder writes Python integers and raises TypeError on numpy ones. */
  predicate Serializable(values: seq<Number>) {
    forall i :: 0 <= i < |values| ==> values[i].PyInt?
  }

  /** total_orders, high_risk, medium_risk and low_risk as the route builds
      them: len() gives a Python int and each mask's .sum() a numpy.int64. */
  function CountsAsWritten(probas: seq<real>): (c: seq<Number>)
    ensures |c| == 4 && c[0].n == |probas| && c[1].n + c[2].n + c[3].n == c[0].n
    ensures !Serializable(c)
  {
    CountsPartition(probas);
    var c := [PyInt(|probas|), NumpyInt64(HighCount(probas)), NumpyInt64(MediumCount(probas)), NumpyInt64(LowCount(probas))];
    assert !c[1].PyInt?;
    c
  }

  /** /predict as written: the response reaches jsonify only after the
      entries are built, and jsonify raises unless every number is a Python
      int; the except clause turns that into an error answer. */
  function PredictRouteAsWritten(hasAnalysis: bool, ids: seq<Cell>, classified: Option<seq<real>>): PredictResponse
    requires classified.Some? ==> |classified.value| == |ids|
  {
    if !hasAnalysis then NoAnalysis
    else
      match classified
      case None => Failed
      case Some(probas) =>
        var labels := Predictions(probas);
        match PredictionsData(ids, probas, labels)
        case None => Failed
        case Some(rows) =>
          if Serializable(CountsAsWritten(probas)) then Predicted(PredictResult(Summarize(probas), rows, "/download"))
          else Failed
  }

  /** As written, /predict never answers with predictions: with an analysis
      stored, every request ends in the error answer. */
  lemma AsWrittenNeverPredicts(hasAnalysis: bool, ids: seq<Cell>, classified: Option<seq<real>>)
    requires classified.Some? ==> |classified.value| == |ids|
    ensures PredictRouteAsWritten(hasAnalysis, ids, classified) == (if hasAnalysis then Failed else NoAnalysis)
  {
  }

  /** One order with id 1 and probability 0.9: the intended route answers
      with its prediction, the route as written with an error. */
  lemma AsWrittenDiffers()
    ensures PredictRoute(true, [Num(1.0)], Some([0.9])).Predicted?
    ensures PredictRouteAsWritten(true, [Num(1.0)], Some([0.9])) == Failed
  {
    assert Min(20, 1) == 1;
  }
}
