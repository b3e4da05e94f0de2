/**
 * Which uploaded file names are admitted: the browser's check in
 * handleFileUpload and the server's reader dispatch in the analyze route.
 * The two rules differ, and this module proves how.
 */
module Upload {
  import opened Wrappers
  import opened Text

  /** The extensions the browser lets through. */
  const ValidExtensions: seq<string> := [".xlsx", ".csv"]

  /** '.' + name.split('.').pop().toLowerCase(): a dot followed by the lower-cased
      longest dot-free suffix of the name. */
  function Extension(name: string): (ext: string)
    ensures |ext| >= 1 && ext[0] == '.'
  {
    "." + Lower(Last(Split(name, '.')))
  }

  /** The extension is a dot and the lower-cased longest dot-free suffix of the name. */
  lemma ExtensionShape(name: string)
    ensures IsLastPiece(name, Last(Split(name, '.')), '.')
    ensures Extension(name)[1..] == Lower(Last(Split(name, '.')))
  {
    LastPiece(name, '.');
  }

  predicate ClientAccepts(name: string) {
    Extension(name) in ValidExtensions
  }

  /** The check of handleFileUpload: validExtensions.includes(fileExtension). */
  method CheckExtension(name: string) returns (accepted: bool)
    ensures accepted == ClientAccepts(name)
  {
    var fileExtension := Extension(name);
    accepted := fileExtension in ValidExtensions;
  }

  lemma LowerDot(c: char)
    ensures LowerChar(c) == '.' <==> c == '.'
  {
  }

  /** Lower-casing keeps the dots of a name where they are. */
  lemma LowerKeepsDots(name: string)
    ensures forall i :: 0 <= i < |name| ==> (Lower(name)[i] == '.' <==> name[i] == '.')
  {
    forall i | 0 <= i < |name|
      ensures Lower(name)[i] == '.' <==> name[i] == '.'
    {
      LowerDot(name[i]);
    }
  }

  lemma LastPieceIsToSuffix(name: string, w: string)
    requires '.' !in w
    requires Lower(Last(Split(name, '.'))) == w
    ensures EndsWith(Lower(name), "." + w) || Lower(name) == w
  {
    var t := Last(Split(name, '.'));
    var n, low := |name|, Lower(name);
    LastPiece(name, '.');
    assert Lower(t) == low[n - |t|..];
    if |t| < n {
      LowerKeepsDots(name);
      assert low[n - |t| - 1] == '.';
      assert low[n - |w| - 1..] == "." + w;
    } else {
      assert t == name;
    }
  }

  lemma BareWordIsLastPiece(name: string, w: string)
    requires Lower(name) == w && '.' !in w
    ensures Lower(Last(Split(name, '.'))) == w
  {
    var t := Last(Split(name, '.'));
    LastPiece(name, '.');
    LowerKeepsDots(name);
    assert '.' !in name by {
      assert forall i :: 0 <= i < |name| ==> Lower(name)[i] == w[i];
    }
    assert t == name;
  }

  /** A lower-cased name ending in '.' + w, for a dot-free w, has a dot just
      before its last |w| characters and none after it, and those characters
      lower-case to w. */
  lemma DotBeforeSuffix(name: string, w: string)
    requires EndsWith(Lower(name), "." + w) && '.' !in w
    ensures name[|name| - |w| - 1] == '.'
    ensures '.' !in name[|name| - |w|..] && Lower(name[|name| - |w|..]) == w
  {
    var k := |name| - |w| - 1;
    var low := Lower(name);
    assert low[k..] == "." + w;
    assert low[k] == low[k..][0] == '.';
    LowerDot(name[k]);
    var u := name[k + 1..];
    forall i | 0 <= i < |u| ensures u[i] != '.' && LowerChar(u[i]) == w[i] {
      assert low[k + 1 + i] == low[k..][i + 1] == w[i];
      assert w[i] in w;
      LowerDot(u[i]);
    }
    assert Lower(u) == w;
  }

  lemma DottedSuffixIsLastPiece(name: string, w: string)
    requires EndsWith(Lower(name), "." + w) && '.' !in w
    ensures Lower(Last(Split(name, '.'))) == w
  {
    var t := Last(Split(name, '.'));
    LastPiece(name, '.');
    DotBeforeSuffix(name, w);
    var u := name[|name| - |w|..];
    assert IsLastPiece(name, u, '.');
    LastPieceUnique(name, t, u, '.');
  }

  /** For a dot-free word w, the lower-cased last piece is w exactly when the
      lower-cased name ends in '.' + w or is w itself. */
  lemma LastPieceIs(name: string, w: string)
    requires '.' !in w
    ensures Lower(Last(Split(name, '.'))) == w
        <==> EndsWith(Lower(name), "." + w) || Lower(name) == w
  {
    if Lower(Last(Split(name, '.'))) == w {
      LastPieceIsToSuffix(name, w);
    }
    if Lower(name) == w {
      BareWordIsLastPiece(name, w);
    } else if EndsWith(Lower(name), "." + w) {
      DottedSuffixIsLastPiece(name, w);
    }
  }

  /** For a dot-free word w, the browser's extension is '.' + w exactly when
      the lower-cased name ends in '.' + w or is w itself. */
  lemma ExtensionIs(name: string, w: string)
    requires '.' !in w
    ensures Extension(name) == "." + w <==> EndsWith(Lower(name), "." + w) || Lower(name) == w
  {
    var ext := Extension(name);
    ExtensionShape(name);
    assert ext == "." + w <==> ext[1..] == w;
    LastPieceIs(name, w);
  }

  /** The browser's rule, stated without split(): a name passes exactly when,
      lower-cased, it ends in ".xlsx" or ".csv", or it is the bare word "xlsx"
      or "csv" (a name without any dot is its own last piece). */
  lemma ClientAcceptsIff(name: string)
    ensures ClientAccepts(name)
        <==> || EndsWith(Lower(name), ".xlsx") || EndsWith(Lower(name), ".csv")
             || Lower(name) == "xlsx" || Lower(name) == "csv"
  {
    var xlsx, csv := "xlsx", "csv";
    assert '.' !in xlsx && "." + xlsx == ".xlsx";
    assert '.' !in csv && "." + csv == ".csv";
    ExtensionIs(name, xlsx);
    ExtensionIs(name, csv);
    assert ClientAccepts(name) <==> Extension(name) == ".xlsx" || Extension(name) == ".csv";
  }

  /** How the server reads an admitted upload. */
  datatype Reader = ExcelReader | CsvReader

  /** Why the server turns an upload away before reading it. */
  datatype AdmissionError = NoFilePart | NoFileSelected | UnsupportedFormat

  function AdmissionMessage(e: AdmissionError): string {
    match e
    case NoFilePart => "Aucun fichier fourni"
    case NoFileSelected => "Aucun fichier sélectionné"
    case UnsupportedFormat => "Format de fichier non supporté. Utilisez .xlsx ou .csv"
  }

  /** The analyze route's checks before reading: the request must carry a
      'file' part (None when it does not), its file name must not be empty, and
      the name must end, case-sensitively, in ".xlsx" (read as Excel) or else
      in ".csv" (read as CSV). */
  function ServerAdmission(filename: Option<string>): (r: Result<Reader, AdmissionError>)
    ensures r.Ok? <==> filename.Some? && (EndsWith(filename.value, ".xlsx") || EndsWith(filename.value, ".csv"))
    ensures r == Ok(ExcelReader) <==> filename.Some? && EndsWith(filename.value, ".xlsx")
    ensures r == Err(NoFilePart) <==> filename.None?
    ensures r == Err(UnsupportedFormat)
        <==> filename.Some? && filename.value != [] && !EndsWith(filename.value, ".xlsx") && !EndsWith(filename.value, ".csv")
  {
    match filename
    case None => Err(NoFilePart)
    case Some(name) =>
      if name == "" then Err(NoFileSelected)
      else if EndsWith(name, ".xlsx") then Ok(ExcelReader)
      else if EndsWith(name, ".csv") then Ok(CsvReader)
      else Err(UnsupportedFormat)
  }

  /** A name ending in '.' + w, for a lower-case dot-free w, has the extension '.' + w. */
  lemma SuffixExtension(name: string, w: string)
    requires '.' !in w && Lower(w) == w && EndsWith(name, "." + w)
    ensures Extension(name) == "." + w
  {
    LowerKeepsSuffix(name, "." + w);
    assert Lower("." + w) == "." + w by {
      forall i | 0 <= i < |w| + 1 ensures Lower("." + w)[i] == ("." + w)[i] {
        if i > 0 { assert ("." + w)[i] == w[i - 1] == Lower(w)[i - 1]; }
      }
    }
    ExtensionIs(name, w);
  }

  /** The browser accepts every name ending in ".xlsx"... */
  lemma XlsxSuffixAccepted(name: string)
    requires EndsWith(name, ".xlsx")
    ensures ClientAccepts(name)
  {
    var xlsx := "xlsx";
    assert "." + xlsx == ".xlsx";
    assert Lower(xlsx) == xlsx;
    SuffixExtension(name, xlsx);
  }

  /** ... and every name ending in ".csv". */
  lemma CsvSuffixAccepted(name: string)
    requires EndsWith(name, ".csv")
    ensures ClientAccepts(name)
  {
    var csv := "csv";
    assert "." + csv == ".csv";
    assert Lower(csv) == csv;
    SuffixExtension(name, csv);
  }

  /** Every name the server reads also passes the browser's check. */
  lemma ServerAcceptedIsClientAccepted(name: string)
    requires ServerAdmission(Some(name)).Ok?
    ensures ClientAccepts(name)
  {
    if EndsWith(name, ".xlsx") {
      XlsxSuffixAccepted(name);
    } else {
      CsvSuffixAccepted(name);
    }
  }

  lemma DataCsvLowered()
    ensures Lower("Data.CSV") == "data.csv"
  {
    var low := Lower("Data.CSV");
    assert low[0] == 'd' && low[5] == 'c' && low[6] == 's' && low[7] == 'v';
  }

  /** The converse fails on case: "Data.CSV" passes the browser and is refused
      by the server. */
  lemma UpperCaseExtensionDisagrees()
    ensures ClientAccepts("Data.CSV")
    ensures ServerAdmission(Some("Data.CSV")) == Err(UnsupportedFormat)
  {
    var name := "Data.CSV";
    ClientAcceptsIff(name);
    DataCsvLowered();
    assert EndsWith(Lower(name), ".csv");
    assert name[4..] != ".xlsx" && name[5..] != ".csv";
  }

  /** ... and on names without a dot: "csv" is its own last piece, so the
      browser computes the extension ".csv"; the server refuses it. */
  lemma DotlessNameDisagrees()
    ensures ClientAccepts("csv")
    ensures ServerAdmission(Some("csv")) == Err(UnsupportedFormat)
  {
    var name := "csv";
    ClientAcceptsIff(name);
    assert Lower(name) == "csv";
  }

  lemma SuffixHasDot(name: string, suffix: string)
    requires EndsWith(name, suffix) && suffix != [] && suffix[0] == '.'
    ensures '.' in name
  {
    assert name[|name| - |suffix|] == suffix[0];
  }

  /** The server reads only names that hold a dot. */
  lemma ServerAcceptedHasDot(name: string)
    ensures ServerAdmission(Some(name)).Ok? ==> '.' in name
  {
    if EndsWith(name, ".xlsx") {
      SuffixHasDot(name, ".xlsx");
    } else if EndsWith(name, ".csv") {
      SuffixHasDot(name, ".csv");
    }
  }
}
