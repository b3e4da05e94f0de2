/**
 * What the browser script shows from the server's answers: the preview
 * table of displayAnalysisResultsOnHomePage, the rows of the prediction
 * table and the gauge of displaySinglePredictionResult. The HTML text is
 * left out; a table is its sequence of cells.
 */
module Display {
  import opened Wrappers
  import opened Text
  import opened Schema
  import opened Risk
  import opened Predict

  /** columnOrder: (key, header label) in display order. */
  const ColumnOrder: seq<(string, string)> := [
    ("id_commande", "id_commande"),
    ("id_client", "id_client"),
    ("id_produit", "id_produit"),
    ("catégorie", "catégorie"),
    ("prix", "prix (€)"),
    ("note_client", "note_client (/5)"),
    ("retour", "retour (0 ou 1)")
  ]

  /** Every key of every preview row. */
  function AllKeys(preview: seq<map<string, Cell>>): (keys: set<string>)
    ensures forall k :: k in keys <==> exists q :: 0 <= q < |preview| && k in preview[q]
  {
    if preview == [] then {}
    else
      var before := AllKeys(preview[..|preview| - 1]);
      assert forall q :: 0 <= q < |preview| - 1 ==> preview[..|preview| - 1][q] == preview[q];
      before + Last(preview).Keys
  }

  /** The forEach loops that fill the allColumns set. */
  method CollectColumns(preview: seq<map<string, Cell>>) returns (allColumns: set<string>)
    ensures allColumns == AllKeys(preview)
  {
    allColumns := {};
    for q := 0 to |preview|
      invariant allColumns == AllKeys(preview[..q])
    {
      assert preview[..q + 1][..q] == preview[..q];
      var keys := preview[q].Keys;
      allColumns := allColumns + keys;
    }
    assert preview[..|preview|] == preview;
  }

  /** The positions, from j on, of the entries whose key is present, in increasing order. */
  function KeptFrom(order: seq<(string, string)>, present: set<string>, j: nat): (pos: seq<nat>)
    requires j <= |order|
    ensures forall i :: 0 <= i < |pos| ==> j <= pos[i] < |order| && order[pos[i]].0 in present
    ensures forall i, i' :: 0 <= i < i' < |pos| ==> pos[i] < pos[i']
    ensures forall t :: j <= t < |order| && order[t].0 in present ==> t in pos
    decreases |order| - j
  {
    if j == |order| then []
    else (if order[j].0 in present then [j] else []) + KeptFrom(order, present, j + 1)
  }

  /** columnOrder.filter(col => allColumns.has(col.key)) */
  function FilterColumns(order: seq<(string, string)>, present: set<string>): (cols: seq<(string, string)>)
    ensures forall c :: c in cols <==> c in order && c.0 in present
  {
    var pos := KeptFrom(order, present, 0);
    var cols := seq(|pos|, i requires 0 <= i < |pos| => order[pos[i]]);
    assert forall t :: 0 <= t < |order| && order[t].0 in present ==> order[t] in cols by {
      forall t | 0 <= t < |order| && order[t].0 in present ensures order[t] in cols {
        var i :| 0 <= i < |pos| && pos[i] == t;
        assert cols[i] == order[t];
      }
    }
    cols
  }

  function ColumnKeys(cols: seq<(string, string)>): (keys: seq<string>)
    ensures |keys| == |cols| && forall i :: 0 <= i < |cols| ==> keys[i] == cols[i].0
  {
    seq(|cols|, i requires 0 <= i < |cols| => cols[i].0)
  }

  lemma ColumnOrderKeysDistinct()
    ensures NoDuplicates(ColumnKeys(ColumnOrder))
  {
  }

  /** The header of the preview table. */
  function DisplayedColumns(preview: seq<map<string, Cell>>): seq<(string, string)> {
    FilterColumns(ColumnOrder, AllKeys(preview))
  }

  /** Filtering takes entries at increasing positions (a subsequence), and
      keeps keys distinct when they were. */
  lemma FilterSpec(order: seq<(string, string)>, present: set<string>)
    ensures var pos := KeptFrom(order, present, 0);
            && |FilterColumns(order, present)| == |pos|
            && (forall i :: 0 <= i < |pos| ==> pos[i] < |order| && FilterColumns(order, present)[i] == order[pos[i]])
            && (forall i, i' :: 0 <= i < i' < |pos| ==> pos[i] < pos[i'])
    ensures NoDuplicates(ColumnKeys(order)) ==> NoDuplicates(ColumnKeys(FilterColumns(order, present)))
  {
    var pos := KeptFrom(order, present, 0);
    var cols := FilterColumns(order, present);
    if NoDuplicates(ColumnKeys(order)) {
      forall i, i' | 0 <= i < i' < |cols| ensures ColumnKeys(cols)[i] != ColumnKeys(cols)[i'] {
        assert ColumnKeys(order)[pos[i]] != ColumnKeys(order)[pos[i']];
      }
    }
  }

  /** The displayed columns are entries of columnOrder taken at increasing
      positions (a subsequence), with no key twice, and are exactly the
      entries of columnOrder whose key some preview row has. */
  lemma DisplayedColumnsSpec(preview: seq<map<string, Cell>>)
    ensures var pos := KeptFrom(ColumnOrder, AllKeys(preview), 0);
            && |DisplayedColumns(preview)| == |pos|
            && (forall i :: 0 <= i < |pos| ==> pos[i] < |ColumnOrder| && DisplayedColumns(preview)[i] == ColumnOrder[pos[i]])
            && (forall i, i' :: 0 <= i < i' < |pos| ==> pos[i] < pos[i'])
    ensures NoDuplicates(ColumnKeys(DisplayedColumns(preview)))
    ensures forall c :: c in DisplayedColumns(preview) <==>
              c in ColumnOrder && exists q :: 0 <= q < |preview| && c.0 in preview[q]
  {
    ColumnOrderKeysDistinct();
    FilterSpec(ColumnOrder, AllKeys(preview));
  }

  /** What a preview cell shows: '' for a missing key, the value with a
      euro sign for a price that is not '', and the value itself otherwise
      (a null value is a value and is shown). */
  datatype Shown = Blank | Plain(v: Cell) | Euro(v: Cell)

  function ShowCell(row: map<string, Cell>, key: string): (s: Shown)
    ensures s == Blank <==> key !in row
    ensures s.Euro? <==> key == "prix" && key in row && row[key] != Str("")
    ensures !s.Blank? ==> s.v == row[key]
  {
    if key !in row then Blank
    else if key == "prix" && row[key] != Str("") then Euro(row[key])
    else Plain(row[key])
  }

  /** The table body: the first ten preview rows, one cell per displayed column. */
  method RenderPreview(preview: seq<map<string, Cell>>, columns: seq<(string, string)>)
    returns (table: seq<seq<Shown>>)
    ensures |table| == Min(10, |preview|)
    ensures forall q :: 0 <= q < |table| ==>
              |table[q]| == |columns| && forall c :: 0 <= c < |columns| ==> table[q][c] == ShowCell(preview[q], columns[c].0)
  {
    var rows := if |preview| < 10 then preview else preview[..10];
    table := [];
    for q := 0 to |rows|
      invariant |table| == q
      invariant forall p :: 0 <= p < q ==>
                  |table[p]| == |columns| && forall c :: 0 <= c < |columns| ==> table[p][c] == ShowCell(preview[p], columns[c].0)
    {
      var line: seq<Shown> := [];
      for c := 0 to |columns|
        invariant |line| == c
        invariant forall d :: 0 <= d < c ==> line[d] == ShowCell(rows[q], columns[d].0)
      {
        line := line + [ShowCell(rows[q], columns[c].0)];
      }
      table := table + [line];
    }
  }

  /** A preview built from a validated frame shows all seven columns, in columnOrder. */
  lemma FullPreviewShowsAllColumns(preview: seq<map<string, Cell>>)
    requires |preview| > 0
    requires forall k :: 0 <= k < |Mapping| ==> Mapping[k].0 in preview[0]
    ensures DisplayedColumns(preview) == ColumnOrder
  {
    var present := AllKeys(preview);
    forall i | 0 <= i < |ColumnOrder| ensures ColumnOrder[i].0 in present {
      var k := if i == 3 then 4 else if i == 4 then 3 else i;
      assert Mapping[k].0 in preview[0];
      assert ColumnOrder[i].0 == Mapping[k].0;
    }
    AllPresentKeepsAll(ColumnOrder, present);
  }

  /** When every key is present, filtering keeps everything. */
  lemma AllPresentKeepsAll(order: seq<(string, string)>, present: set<string>)
    requires forall i :: 0 <= i < |order| ==> order[i].0 in present
    ensures FilterColumns(order, present) == order
  {
    FilterSpec(order, present);
    KeptAll(order, present, 0);
  }

  lemma {:induction false} KeptAll(order: seq<(string, string)>, present: set<string>, j: nat)
    requires j <= |order|
    requires forall i :: 0 <= i < |order| ==> order[i].0 in present
    ensures |KeptFrom(order, present, j)| == |order| - j
    ensures forall i :: 0 <= i < |order| - j ==> KeptFrom(order, present, j)[i] == j + i
    decreases |order| - j
  {
    if j < |order| {
      KeptAll(order, present, j + 1);
      var rest := KeptFrom(order, present, j + 1);
      assert order[j].0 in present;
      assert KeptFrom(order, present, j) == [j] + rest;
      forall i | 0 <= i < |order| - j ensures KeptFrom(order, present, j)[i] == j + i {
        if i > 0 { assert ([j] + rest)[i] == rest[i - 1]; }
      }
    }
  }

  // ---------------------------------------------------------------------
  // Prediction table and single-product gauge

  /** One line of the prediction table: the id (None when `|| ''` blanks it),
      the percentage, 'Oui'/'Non', and the level name and class. */
  datatype PredictionLine = PredictionLine(id: Option<int>, percent: real, answer: string, level: string, riskClass: string)

  function Line(p: PredictionRow): (l: PredictionLine)
    ensures l.id.None? <==> p.idCommande.None? || p.idCommande == Some(0)
    ensures l.id.Some? ==> l.id == p.idCommande
    ensures l.answer == "Oui" <==> p.prediction == 1
    ensures l.level == RiskLevel(p.probability) && l.riskClass == RiskClass(p.probability)
  {
    PredictionLine(
      if p.idCommande.None? || p.idCommande.value == 0 then None else p.idCommande,
      p.probability * 100.0,
      if p.prediction == 1 then "Oui" else "Non",
      RiskLevel(p.probability),
      RiskClass(p.probability))
  }

  /** predictions.slice(0, 20).forEach(...) */
  method RenderPredictions(preds: seq<PredictionRow>) returns (lines: seq<PredictionLine>)
    ensures |lines| == Min(20, |preds|)
    ensures forall i :: 0 <= i < |lines| ==> lines[i] == Line(preds[i])
  {
    lines := [];
    var n := Min(20, |preds|);
    for i := 0 to n
      invariant |lines| == i
      invariant forall j :: 0 <= j < i ==> lines[j] == Line(preds[j])
    {
      lines := lines + [Line(preds[i])];
    }
  }

  /** For a prediction made by the server's rule, the line says 'Oui'
      exactly above 0.5, always for 'Élevé' and never for 'Faible'. */
  lemma LineConsistent(p: PredictionRow)
    requires p.prediction == Label(p.probability)
    ensures Line(p).answer == "Oui" <==> p.probability > 0.5
    ensures Line(p).level == "Élevé" ==> Line(p).answer == "Oui"
    ensures Line(p).level == "Faible" ==> Line(p).answer == "Non"
  {
    LevelAndClassAgree(p.probability);
    LabelFollowsLevel(p.probability);
  }

  /** The single-product result: percentage, class, label and verdict. */
  datatype Gauge = Gauge(percent: real, riskClass: string, riskLabel: string, verdict: string)

  function SingleGauge(probability: real, prediction: int): (g: Gauge)
    ensures g.verdict == "Retour probable" <==> prediction == 1
    ensures g.percent == probability * 100.0
  {
    var percent := probability * 100.0;
    var (c, l) := PercentRisk(percent);
    Gauge(percent, c, l, if prediction == 1 then "Retour probable" else "Retour improbable")
  }

  /** The gauge names the same level as the prediction table would, and for
      a prediction by the server's rule calls a high-risk product a probable
      return and a low-risk one improbable. */
  lemma GaugeAgreesWithTable(probability: real, prediction: int)
    ensures SingleGauge(probability, prediction).riskLabel == RiskLevel(probability)
    ensures SingleGauge(probability, prediction).riskClass == RiskClass(probability)
    ensures prediction == Label(probability) && LevelOf(probability) == High ==>
              SingleGauge(probability, prediction).verdict == "Retour probable"
    ensures prediction == Label(probability) && LevelOf(probability) == Low ==>
              SingleGauge(probability, prediction).verdict == "Retour improbable"
  {
    PercentRiskAgrees(probability);
    LabelFollowsLevel(probability);
  }
}
