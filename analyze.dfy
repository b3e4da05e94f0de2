/**
 * The server's /analyze route: file admission, schema validation, the
 * summary figures and the preview of the first ten rows.
 */
module Analyze {
  import opened Wrappers
  import opened Text
  import opened Schema
  import opened Upload

  /** Every column has as many cells as the first. */
  predicate Rectangular(df: Frame) {
    forall i :: 0 <= i < |df| ==> |df[i].cells| == |df[0].cells|
  }

  function Height(df: Frame): nat {
    if df == [] then 0 else |df[0].cells|
  }

  /** One preview row: column name to value, later columns overwriting
      earlier ones of the same name, as row_dict[col] = ... does. */
  function RowDict(df: Frame, r: nat, upTo: nat): (row: map<string, Cell>)
    requires Rectangular(df) && r < Height(df) && upTo <= |df|
    ensures row.Keys == set i | 0 <= i < upTo :: df[i].name
  {
    if upTo == 0 then map[]
    else RowDict(df, r, upTo - 1)[df[upTo - 1].name := df[upTo - 1].cells[r]]
  }

  /** A row dictionary holds, under each column name, the cell of the last
      column with that name. */
  lemma {:induction false} RowDictValue(df: Frame, r: nat, upTo: nat, i: nat)
    requires Rectangular(df) && r < Height(df) && i < upTo <= |df|
    requires forall j :: i < j < upTo ==> df[j].name != df[i].name
    ensures RowDict(df, r, upTo)[df[i].name] == df[i].cells[r]
  {
    if i < upTo - 1 {
      RowDictValue(df, r, upTo - 1, i);
    }
  }

  /** The preview: one dictionary for each of the first ten rows. */
  function Preview(df: Frame): (rows: seq<map<string, Cell>>)
    requires Rectangular(df)
    ensures |rows| == if Height(df) < 10 then Height(df) else 10
  {
    var n := if Height(df) < 10 then Height(df) else 10;
    seq(n, r requires 0 <= r < n => RowDict(df, r, |df|))
  }

  /** The nested loop over df.head(10).iterrows() and df.columns. */
  method BuildPreview(df: Frame) returns (preview: seq<map<string, Cell>>)
    requires Rectangular(df)
    ensures preview == Preview(df)
  {
    var n := if Height(df) < 10 then Height(df) else 10;
    preview := [];
    for r := 0 to n
      invariant |preview| == r
      invariant forall q :: 0 <= q < r ==> preview[q] == RowDict(df, q, |df|)
    {
      var rowDict: map<string, Cell> := map[];
      for c := 0 to |df|
        invariant rowDict == RowDict(df, r, c)
      {
        rowDict := rowDict[df[c].name := df[c].cells[r]];
      }
      preview := preview + [rowDict];
    }
  }

  /** The three summary figures. The return rate is NotAvailable when there
      is no 'retour' column, and otherwise the mean of its first column,
      Mean(None) standing for the NaN of an empty column. */
  datatype ReturnRate = NotAvailable | Mean(value: Option<real>)
  datatype Stats = Stats(totalOrders: nat, missingValues: nat, returnRate: ReturnRate)

  function CountNull(cells: seq<Cell>): nat {
    if cells == [] then 0 else CountNull(cells[..|cells| - 1]) + (if Last(cells) == Null then 1 else 0)
  }

  /** isnull().sum().sum(): the null cells of every column. */
  function MissingValues(df: Frame): nat {
    if df == [] then 0 else MissingValues(df[..|df| - 1]) + CountNull(Last(df).cells)
  }

  /** A column has no null cell exactly when none is counted. */
  lemma {:induction false} CountNullZero(cells: seq<Cell>)
    ensures CountNull(cells) == 0 <==> Null !in cells
  {
    if cells != [] {
      var p := cells[..|cells| - 1];
      CountNullZero(p);
      assert cells == p + [Last(cells)];
    }
  }

  /** 'Valeurs manquantes' is 0 exactly when no cell of any column is null. */
  lemma {:induction false} MissingValuesZero(df: Frame)
    ensures MissingValues(df) == 0 <==> forall i :: 0 <= i < |df| ==> Null !in df[i].cells
  {
    if df != [] {
      var p := df[..|df| - 1];
      MissingValuesZero(p);
      CountNullZero(Last(df).cells);
      if MissingValues(df) == 0 {
        forall i | 0 <= i < |df| ensures Null !in df[i].cells {
          if i < |p| { assert df[i] == p[i]; }
        }
      } else if CountNull(Last(df).cells) == 0 {
        var i :| 0 <= i < |p| && Null in p[i].cells;
        assert df[i] == p[i];
      }
    }
  }

  /** The number of cells equal to 1. */
  function CountOnes(cells: seq<Cell>): nat {
    if cells == [] then 0 else CountOnes(cells[..|cells| - 1]) + (if Last(cells) == Num(1.0) then 1 else 0)
  }

  /** The count of ones is at most the length; it is the length exactly when
      every cell is 1, and 0 exactly when none is. */
  lemma {:induction false} CountOnesRange(cells: seq<Cell>)
    ensures CountOnes(cells) <= |cells|
    ensures CountOnes(cells) == |cells| <==> forall i :: 0 <= i < |cells| ==> cells[i] == Num(1.0)
    ensures CountOnes(cells) == 0 <==> Num(1.0) !in cells
  {
    if cells != [] {
      var p := cells[..|cells| - 1];
      CountOnesRange(p);
      assert cells == p + [Last(cells)];
      if CountOnes(cells) == |cells| {
        forall i | 0 <= i < |cells| ensures cells[i] == Num(1.0) {
          if i < |p| { assert cells[i] == p[i]; }
        }
      }
    }
  }

  /** The mean of a column of zeros and ones: the share of ones. It is 1
      exactly when every order came back and 0 exactly when none did. */
  function MeanOfBinary(cells: seq<Cell>): (m: Option<real>)
    ensures m.None? <==> cells == []
    ensures m.Some? ==> 0.0 <= m.value <= 1.0
    ensures m.Some? ==> (m.value == 1.0 <==> forall i :: 0 <= i < |cells| ==> cells[i] == Num(1.0))
    ensures m.Some? ==> (m.value == 0.0 <==> Num(1.0) !in cells)
  {
    CountOnesRange(cells);
    if cells == [] then None
    else
      Share(CountOnes(cells), |cells|);
      Some(CountOnes(cells) as real / |cells| as real)
  }

  /** The share c / n of a part of a whole lies in [0, 1], with the ends
      reached exactly by none and by all. */
  lemma Share(c: nat, n: nat)
    requires 0 < n && c <= n
    ensures 0.0 <= c as real / n as real <= 1.0
    ensures c as real / n as real == 1.0 <==> c == n
    ensures c as real / n as real == 0.0 <==> c == 0
  {
    var q := c as real / n as real;
    assert q * n as real == c as real;
    if q == 1.0 {
      assert c as real == n as real;
    }
  }

  /** The figures of a validated frame, whose 'retour' column holds only 0 and 1. */
  function StatsOf(df: Frame): Stats
    requires Rectangular(df)
  {
    var retour := RetourColumns(df);
    Stats(Height(df), MissingValues(df), if retour == [] then NotAvailable else Mean(MeanOfBinary(retour[0])))
  }

  datatype AnalyzeResponse =
    | Rejected(reason: AdmissionError)
    | InvalidSchema(errors: seq<SchemaError>, available: seq<string>)
    | Failed      // an exception: 'Erreur: ' and its text
    | Analyzed(stats: Stats, preview: seq<map<string, Cell>>)

  /** Renaming keeps a frame rectangular and its height. */
  lemma RenamedRectangular(df: Frame)
    requires Rectangular(df)
    ensures Rectangular(Renamed(df)) && Height(Renamed(df)) == Height(df)
  {
    ApplyRenamesPointwise(df, Found(Names(df), Mapping));
  }

  /** clean_and_preprocess_data fills the gaps of 'note_client' with the
      column's mean, and pandas raises on the mean of a column holding text. */
  predicate NoteHasText(df: Frame) {
    exists i, j :: 0 <= i < |df| && df[i].name == "note_client" && 0 <= j < |df[i].cells| && df[i].cells[j].Str?
  }

  /** The preview reads row[col] for every column name; when a name is
      carried by two columns that is a Series, and the `if pd.isna(obj)` of
      convert_to_serializable raises on it. Without rows nothing is read. */
  predicate PreviewRaises(df: Frame) {
    Height(df) > 0 && !NoDuplicates(Names(df))
  }

  /** What /analyze answers once the file is admitted, given what the reader
      produced: a frame, or None when the contents could not be read. */
  function AnalyzeFrame(read: Option<Frame>): (r: AnalyzeResponse)
    requires read.Some? ==> Rectangular(read.value)
    ensures !r.Rejected?
    ensures read.None? ==> r == Failed
    ensures read.Some? && Validate(read.value).Raised? ==> r == Failed
    ensures read.Some? && Validate(read.value).Checked? && !Validate(read.value).valid ==>
              r == InvalidSchema(Validate(read.value).errors, Names(read.value))
    ensures read.Some? && Validate(read.value).Checked? && Validate(read.value).valid ==>
              (r.Analyzed? <==> !NoteHasText(Renamed(read.value)) && !PreviewRaises(Renamed(read.value)))
    ensures r.Analyzed? ==> r.stats.totalOrders == Height(read.value)
    ensures r.Analyzed? ==> r.stats.missingValues == MissingValues(Renamed(read.value))
  {
    match read
    case None => Failed
    case Some(df) =>
      var v := Validate(df);
      if v.Raised? then Failed
      else if !v.valid then InvalidSchema(v.errors, Names(df))
      else
        RenamedRectangular(df);
        var normalized := Renamed(df);
        if NoteHasText(normalized) || PreviewRaises(normalized) then Failed
        else Analyzed(StatsOf(normalized), Preview(normalized))
  }

  /** When no two columns share a name, each preview row maps every column
      name to that column's cell. */
  lemma PreviewExact(df: Frame)
    requires Rectangular(df) && NoDuplicates(Names(df))
    ensures forall q, i :: 0 <= q < |Preview(df)| && 0 <= i < |df| ==>
              df[i].name in Preview(df)[q] && Preview(df)[q][df[i].name] == df[i].cells[q]
  {
    forall q, i | 0 <= q < |Preview(df)| && 0 <= i < |df|
      ensures df[i].name in Preview(df)[q] && Preview(df)[q][df[i].name] == df[i].cells[q]
    {
      forall j | i < j < |df| ensures df[j].name != df[i].name {
        assert Names(df)[i] == df[i].name && Names(df)[j] == df[j].name;
      }
      assert Preview(df)[q] == RowDict(df, q, |df|);
      RowDictValue(df, q, |df|, i);
    }
  }

  /** In a successful response each preview row maps every column name of
      the renamed frame to that column's cell (the renamed frame keeps the
      cells of the file, see Schema.ValidFrameIsCanonical). */
  lemma AnalyzedPreviewExact(read: Option<Frame>)
    requires read.Some? ==> Rectangular(read.value)
    ensures AnalyzeFrame(read).Analyzed? ==>
              forall q, i :: && 0 <= q < |AnalyzeFrame(read).preview| && 0 <= i < |Renamed(read.value)|
                             && q < |Renamed(read.value)[i].cells| ==>
                && Renamed(read.value)[i].name in AnalyzeFrame(read).preview[q]
                && AnalyzeFrame(read).preview[q][Renamed(read.value)[i].name] == Renamed(read.value)[i].cells[q]
  {
    var r := AnalyzeFrame(read);
    if r.Analyzed? {
      var df := read.value;
      ValidFrameIsCanonical(df);
      RenamedRectangular(df);
      var normalized := Renamed(df);
      if Height(normalized) > 0 {
        PreviewExact(normalized);
      }
    }
  }

  /** /analyze given the file name (None when the request has no file part)
      and what the reader chosen by the name produced. Everything after
      reading works on rectangular frames, as pandas makes them. */
  function AnalyzeRoute(filename: Option<string>, read: Option<Frame>): (r: AnalyzeResponse)
    requires read.Some? ==> Rectangular(read.value)
    ensures r.Rejected? <==> ServerAdmission(filename).Err?
    ensures r.Rejected? ==> r.reason == ServerAdmission(filename).error
    ensures !r.Rejected? ==> r == AnalyzeFrame(read)
  {
    match ServerAdmission(filename)
    case Err(e) => Rejected(e)
    case Ok(_) => AnalyzeFrame(read)
  }

  /** A frame that passes always has a 'retour' column, so its return rate
      is never 'N/A'; it is the share of ones when there are rows. */
  lemma ReturnRateAvailable(read: Option<Frame>)
    requires read.Some? ==> Rectangular(read.value)
    ensures AnalyzeFrame(read).Analyzed? ==>
              && AnalyzeFrame(read).stats.returnRate.Mean?
              && (AnalyzeFrame(read).stats.returnRate.value.None? <==> Height(read.value) == 0)
  {
    var r := AnalyzeFrame(read);
    if r.Analyzed? {
      var df := read.value;
      ValidFrameIsCanonical(df);
      RenamedRectangular(df);
      assert Mapping[6].0 == "retour";
      var retour := RetourColumns(Renamed(df));
      RetourColumnsRectangular(Renamed(df));
      assert retour[0] in retour;
    }
  }

  /** Every column named 'retour' is as long as the frame is high. */
  lemma {:induction false} RetourColumnsRectangular(df: Frame)
    requires Rectangular(df)
    ensures forall c :: c in RetourColumns(df) ==> |c| == Height(df)
  {
    if df != [] {
      var rest := df[1..];
      if rest != [] {
        assert Rectangular(rest) by {
          forall i | 0 <= i < |rest| ensures |rest[i].cells| == |rest[0].cells| {
            assert rest[i] == df[i + 1];
          }
        }
        assert Height(rest) == Height(df);
      }
      RetourColumnsRectangular(rest);
    }
  }

  /** A preview row carries every column name of the frame. */
  lemma PreviewRowHasName(df: Frame, q: nat, n: string)
    requires Rectangular(df) && q < Height(df) && q < 10 && n in Names(df)
    ensures q < |Preview(df)| && n in Preview(df)[q]
  {
    var i :| 0 <= i < |df| && Names(df)[i] == n;
    assert Preview(df)[q] == RowDict(df, q, |df|);
  }

  /** A successful response previews the first ten rows, or all of them when
      there are fewer, and each preview row carries every canonical column name. */
  lemma PreviewHasCanonicalColumns(read: Option<Frame>)
    requires read.Some? ==> Rectangular(read.value)
    ensures AnalyzeFrame(read).Analyzed? ==>
              && |AnalyzeFrame(read).preview| == (if Height(read.value) < 10 then Height(read.value) else 10)
              && forall q, k :: 0 <= q < |AnalyzeFrame(read).preview| && 0 <= k < |Mapping| ==>
                   Mapping[k].0 in AnalyzeFrame(read).preview[q]
  {
    var r := AnalyzeFrame(read);
    if r.Analyzed? {
      var df := read.value;
      ValidFrameIsCanonical(df);
      RenamedRectangular(df);
      var normalized := Renamed(df);
      forall q, k | 0 <= q < |r.preview| && 0 <= k < |Mapping| ensures Mapping[k].0 in r.preview[q] {
        PreviewRowHasName(normalized, q, Mapping[k].0);
      }
    }
  }
}
