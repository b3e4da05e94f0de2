/**
 * The server's schema check (DataProcessor.validate_schema): it looks up each
 * of seven required columns under a list of accepted spellings, reports the
 * ones it cannot find, renames the ones it found to their canonical names and
 * checks that the 'retour' column holds only 0 and 1 and no missing value.
 */
module Schema {
  import opened Wrappers
  import opened Text

  /** A cell of a pandas frame, as far as the schema check looks at it. */
  datatype Cell = Null | Num(x: real) | Str(s: string)

  datatype Column = Column(name: string, cells: seq<Cell>)

  /** A frame as its columns, in column order. */
  type Frame = seq<Column>

  datatype SchemaError =
    | MissingColumn(canonical: string, searched: seq<string>)
    | NonBinaryRetour(values: seq<Cell>)
    | NullRetour

  /** What validate_schema gives back: the (valid, errors, frame-or-None)
      triple, or Raised when the call ends in a Python exception. */
  datatype Validation =
    | Checked(valid: bool, errors: seq<SchemaError>, frame: Option<Frame>)
    | Raised

  /** The required columns, in the order they are checked, each with the
      spellings accepted for it in the order they are tried. */
  const Mapping: seq<(string, seq<string>)> := [
    ("id_commande", ["id_commande", "id commande", "commande_id", "commande", "order_id"]),
    ("id_client", ["id_client", "id client", "client_id", "client", "customer_id"]),
    ("id_produit", ["id_produit", "id produit", "produit_id", "produit", "product_id"]),
    ("prix", ["prix", "price", "montant", "amount", "cout"]),
    ("catégorie", ["catégorie", "categorie", "category", "type", "secteur"]),
    ("note_client", ["note_client", "note client", "note", "rating", "score", "evaluation"]),
    ("retour", ["retour", "returned", "is_returned", "return_status"])
  ]

  function Names(df: Frame): (names: seq<string>)
    ensures |names| == |df| && forall i :: 0 <= i < |df| ==> names[i] == df[i].name
  {
    seq(|df|, i requires 0 <= i < |df| => df[i].name)
  }

  /** A column answers to a spelling when both agree after lower-casing and stripping. */
  predicate Matches(col: string, alias: string) {
    Normalize(col) == Normalize(alias)
  }

  /** The comparison keys of a list of names. */
  function Keys(names: seq<string>): (keys: seq<string>)
    ensures |keys| == |names| && forall j :: 0 <= j < |names| ==> keys[j] == Normalize(names[j])
  {
    seq(|names|, j requires 0 <= j < |names| => Normalize(names[j]))
  }

  /** [col for col in df.columns if col.lower().strip() == key], the keys of
      the columns computed beforehand. */
  function MatchingColumns(names: seq<string>, keys: seq<string>, key: string): (r: seq<string>)
    requires |keys| == |names|
    ensures forall c :: c in r ==> c in names
  {
    if names == [] then []
    else (if keys[0] == key then [names[0]] else []) + MatchingColumns(names[1..], keys[1..], key)
  }

  /** The first position from j on holding the key. */
  function IndexFrom(keys: seq<string>, key: string, j: nat): (r: Option<nat>)
    requires j <= |keys|
    ensures r.Some? ==> j <= r.value < |keys| && keys[r.value] == key
                        && forall i :: j <= i < r.value ==> keys[i] != key
    ensures r.None? ==> forall i :: j <= i < |keys| ==> keys[i] != key
    decreases |keys| - j
  {
    if j == |keys| then None
    else if keys[j] == key then Some(j)
    else IndexFrom(keys, key, j + 1)
  }

  /** The list comprehension is empty exactly when no column has the key,
      and otherwise starts with the first column that has it. */
  lemma {:induction false} MatchingHead(names: seq<string>, keys: seq<string>, key: string)
    requires |keys| == |names|
    ensures MatchingColumns(names, keys, key) == [] <==> IndexFrom(keys, key, 0).None?
    ensures MatchingColumns(names, keys, key) != [] ==>
              MatchingColumns(names, keys, key)[0] == names[IndexFrom(keys, key, 0).value]
  {
    if names != [] {
      MatchingHead(names[1..], keys[1..], key);
      if keys[0] != key {
        var r := IndexFrom(keys[1..], key, 0);
        if r.None? {
          assert forall i :: 0 <= i < |keys| ==> keys[i] != key by {
            forall i | 1 <= i < |keys| ensures keys[i] != key {
              assert keys[i] == keys[1..][i - 1];
            }
          }
        } else {
          assert keys[r.value + 1] == key;
          forall i | 0 <= i < r.value + 1 ensures keys[i] != key {
            if i > 0 { assert keys[i] == keys[1..][i - 1]; }
          }
          assert IndexFrom(keys, key, 0) == Some(r.value + 1);
        }
      }
    }
  }

  /** Trying the spelling keys from position a on: the first one some column
      key equals, with the first such column, as (spelling index, column index). */
  function ResolveFrom(keys: seq<string>, aliasKeys: seq<string>, a: nat): (r: Option<(nat, nat)>)
    requires a <= |aliasKeys|
    ensures r.Some? ==> && a <= r.value.0 < |aliasKeys|
                        && IndexFrom(keys, aliasKeys[r.value.0], 0) == Some(r.value.1)
                        && forall i :: a <= i < r.value.0 ==> IndexFrom(keys, aliasKeys[i], 0).None?
    ensures r.None? ==> forall i :: a <= i < |aliasKeys| ==> IndexFrom(keys, aliasKeys[i], 0).None?
    decreases |aliasKeys| - a
  {
    if a == |aliasKeys| then None
    else match IndexFrom(keys, aliasKeys[a], 0)
      case Some(j) => Some((a, j))
      case None => ResolveFrom(keys, aliasKeys, a + 1)
  }

  /** Resolution of one required column, as (spelling index, column index). */
  function Resolve(names: seq<string>, aliases: seq<string>): Option<(nat, nat)> {
    ResolveFrom(Keys(names), Keys(aliases), 0)
  }

  /** No spelling of the list is answered by any column. */
  predicate Unresolvable(names: seq<string>, aliases: seq<string>) {
    forall i, j :: 0 <= i < |aliases| && 0 <= j < |names| ==> !Matches(names[j], aliases[i])
  }

  /** The first spelling, in list order, that some column answers to wins,
      and among the columns answering to it the first in column order is
      taken; nothing is found exactly when no spelling is answered by any
      column. */
  lemma ResolveFirstAliasWins(names: seq<string>, aliases: seq<string>)
    ensures var r := Resolve(names, aliases);
            r.Some? ==> && r.value.0 < |aliases| && r.value.1 < |names|
                        && Matches(names[r.value.1], aliases[r.value.0])
                        && (forall i, j :: 0 <= i < r.value.0 && 0 <= j < |names| ==> !Matches(names[j], aliases[i]))
                        && (forall j :: 0 <= j < r.value.1 ==> !Matches(names[j], aliases[r.value.0]))
    ensures Resolve(names, aliases).None? <==> Unresolvable(names, aliases)
  {
    var keys, aliasKeys := Keys(names), Keys(aliases);
    var r := ResolveFrom(keys, aliasKeys, 0);
    if r.Some? {
      forall i, j | 0 <= i < r.value.0 && 0 <= j < |names| ensures !Matches(names[j], aliases[i]) {
        assert IndexFrom(keys, aliasKeys[i], 0).None?;
      }
    } else {
      forall i, j | 0 <= i < |aliases| && 0 <= j < |names| ensures !Matches(names[j], aliases[i]) {
        assert IndexFrom(keys, aliasKeys[i], 0).None?;
      }
    }
  }

  /** One error per required column that cannot be resolved, in mapping order. */
  function MissingErrors(names: seq<string>, m: seq<(string, seq<string>)>): seq<SchemaError> {
    if m == [] then []
    else
      var (required, possible) := Last(m);
      MissingErrors(names, m[..|m| - 1])
        + (if Resolve(names, possible).None? then [MissingColumn(required, possible)] else [])
  }

  /** found_columns: (canonical name, name of the column found for it), in mapping order. */
  function Found(names: seq<string>, m: seq<(string, seq<string>)>): seq<(string, string)> {
    if m == [] then []
    else
      var (required, possible) := Last(m);
      Found(names, m[..|m| - 1])
        + match Resolve(names, possible)
          case Some(p) => [(required, names[p.1])]
          case None => []
  }

  /** df.rename(columns={actual: standard}): every column called actual is renamed. */
  function RenameColumns(df: Frame, actual: string, standard: string): Frame {
    seq(|df|, i requires 0 <= i < |df| => if df[i].name == actual then df[i].(name := standard) else df[i])
  }

  /** The rename loop: one rename per found column whose name is not already the canonical one. */
  function ApplyRenames(df: Frame, found: seq<(string, string)>): Frame {
    if found == [] then df
    else
      var (standard, actual) := Last(found);
      var before := ApplyRenames(df, found[..|found| - 1]);
      if standard != actual then RenameColumns(before, actual, standard) else before
  }

  /** The cells of every column called 'retour'. */
  function RetourColumns(df: Frame): (r: seq<seq<Cell>>)
    ensures |r| == 0 <==> "retour" !in Names(df)
  {
    if df == [] then []
    else (if df[0].name == "retour" then [df[0].cells] else []) + RetourColumns(df[1..])
  }

  predicate IsBinary(c: Cell) {
    c == Num(0.0) || c == Num(1.0)
  }

  /** Series.dropna().unique(): the non-null values, each once, in order of first appearance. */
  function DistinctNonNull(cells: seq<Cell>): seq<Cell> {
    if cells == [] then []
    else
      var u := DistinctNonNull(cells[..|cells| - 1]);
      var c := Last(cells);
      if c == Null || c in u then u else u + [c]
  }

  /** [val for val in values if val not in [0, 1]] */
  function NonBinary(values: seq<Cell>): seq<Cell> {
    if values == [] then []
    else (if IsBinary(values[0]) then [] else [values[0]]) + NonBinary(values[1..])
  }

  /** The errors the 'retour' column adds: its distinct non-null values other
      than 0 and 1, if there are any, then the missing-value error. */
  function RetourErrors(cells: seq<Cell>): seq<SchemaError> {
    var invalid := NonBinary(DistinctNonNull(cells));
    (if invalid != [] then [NonBinaryRetour(invalid)] else [])
      + (if Null in cells then [NullRetour] else [])
  }

  /** The outcome once every required column is found and renamed: the
      'retour' column is checked when there is one. Selecting 'retour' when
      two columns carry that name gives a frame instead of a column, and
      .unique() then raises. */
  function RetourCheck(df: Frame): (v: Validation)
    ensures v.Checked? ==> (v.valid <==> v.errors == []) && (v.frame.None? <==> !v.valid)
    ensures v.Checked? && v.valid ==> v.frame == Some(df)
  {
    var retour := RetourColumns(df);
    if |retour| > 1 then Raised
    else
      var errors := if |retour| == 1 then RetourErrors(retour[0]) else [];
      Checked(errors == [], errors, if errors == [] then Some(df) else None)
  }

  /** validate_schema against a column mapping. When a missing column is
      reported nothing is renamed or checked further; otherwise the columns
      are renamed and the 'retour' column checked. */
  function ValidateAgainst(df: Frame, m: seq<(string, seq<string>)>): (v: Validation)
    ensures v.Checked? ==> (v.valid <==> v.errors == []) && (v.frame.None? <==> !v.valid)
    ensures MissingErrors(Names(df), m) != [] ==> v == Checked(false, MissingErrors(Names(df), m), None)
  {
    var names := Names(df);
    var missing := MissingErrors(names, m);
    if missing != [] then Checked(false, missing, None)
    else
      RetourCheck(ApplyRenames(df, Found(names, m)))
  }

  /** validate_schema with its own column mapping. */
  function Validate(df: Frame): Validation {
    ValidateAgainst(df, Mapping)
  }

  /** The column found for one required column, if any. */
  function FoundColumn(names: seq<string>, possible: seq<string>): Option<string> {
    match Resolve(names, possible)
    case Some(p) => Some(names[p.1])
    case None => None
  }

  /** The inner loop of validate_schema: the spellings are tried in order and
      the search stops at the first one that some column answers to. */
  method SearchColumn(names: seq<string>, keys: seq<string>, possible: seq<string>) returns (col: Option<string>)
    requires keys == Keys(names)
    ensures col == FoundColumn(names, possible)
  {
    col := None;
    var isFound := false;
    var a := 0;
    ghost var aliasKeys := Keys(possible);
    while a < |possible| && !isFound
      invariant 0 <= a <= |possible|
      invariant isFound == col.Some?
      invariant !isFound ==> Resolve(names, possible) == ResolveFrom(keys, aliasKeys, a)
      invariant isFound ==> col == FoundColumn(names, possible)
    {
      var matching := MatchingColumns(names, keys, Normalize(possible[a]));
      MatchingHead(names, keys, Normalize(possible[a]));
      if matching != [] {
        col := Some(matching[0]);
        isFound := true;
      }
      a := a + 1;
    }
  }

  /** The outer loop of validate_schema: one search per required column,
      recording the column found or the error for a missing one. */
  method SearchColumns(names: seq<string>, keys: seq<string>, m: seq<(string, seq<string>)>)
    returns (errors: seq<SchemaError>, found: seq<(string, string)>)
    requires keys == Keys(names)
    ensures errors == MissingErrors(names, m) && found == Found(names, m)
  {
    errors, found := [], [];
    for k := 0 to |m|
      invariant errors == MissingErrors(names, m[..k])
      invariant found == Found(names, m[..k])
    {
      var (required, possible) := m[k];
      SearchStep(names, m, k);
      var col := SearchColumn(names, keys, possible);
      if col.Some? {
        found := found + [(required, col.value)];
      } else {
        errors := errors + [MissingColumn(required, possible)];
      }
    }
    assert m[..|m|] == m;
  }

  /** One more required column adds its error or its found column. */
  lemma SearchStep(names: seq<string>, m: seq<(string, seq<string>)>, k: nat)
    requires k < |m|
    ensures MissingErrors(names, m[..k + 1]) == MissingErrors(names, m[..k])
              + (if FoundColumn(names, m[k].1).None? then [MissingColumn(m[k].0, m[k].1)] else [])
    ensures Found(names, m[..k + 1]) == Found(names, m[..k])
              + (if FoundColumn(names, m[k].1).Some? then [(m[k].0, FoundColumn(names, m[k].1).value)] else [])
  {
    assert m[..k + 1][..k] == m[..k] && Last(m[..k + 1]) == m[k];
  }

  /** The rename loop of validate_schema. */
  method RenameFound(df0: Frame, found: seq<(string, string)>) returns (df: Frame)
    ensures df == ApplyRenames(df0, found)
  {
    df := df0;
    for r := 0 to |found|
      invariant df == ApplyRenames(df0, found[..r])
    {
      var (standard, actual) := found[r];
      assert found[..r + 1][..r] == found[..r] && Last(found[..r + 1]) == (standard, actual);
      if standard != actual {
        df := RenameColumns(df, actual, standard);
      }
    }
    assert found[..|found|] == found;
  }

  /** The checks validate_schema makes on the 'retour' column once every
      required column has been found and renamed. */
  method CheckRetour(df: Frame) returns (res: Validation)
    ensures res == RetourCheck(df)
  {
    var errors: seq<SchemaError> := [];
    if "retour" in Names(df) {
      var retour := RetourColumns(df);
      if |retour| > 1 {
        return Raised;
      }
      var values := DistinctNonNull(retour[0]);
      var invalid := NonBinary(values);
      if invalid != [] {
        errors := errors + [NonBinaryRetour(invalid)];
      }
      if Null in retour[0] {
        errors := errors + [NullRetour];
      }
    }
    res := Checked(|errors| == 0, errors, if |errors| == 0 then Some(df) else None);
  }

  /** The body of validate_schema, against a column mapping. */
  method ValidateSchemaAgainst(df: Frame, m: seq<(string, seq<string>)>) returns (res: Validation)
    ensures res == ValidateAgainst(df, m)
  {
    var names := Names(df);
    var keys := Keys(names);
    var errors, found := SearchColumns(names, keys, m);
    if |errors| == 0 {
      var renamed := RenameFound(df, found);
      res := CheckRetour(renamed);
    } else {
      res := Checked(false, errors, None);
    }
  }

  /** validate_schema. */
  method ValidateSchema(df: Frame) returns (res: Validation)
    ensures res == Validate(df)
  {
    res := ValidateSchemaAgainst(df, Mapping);
  }

  // ---------------------------------------------------------------------
  // Properties of the check

  /** Every error the search reports is a missing column of the mapping none
      of whose spellings any column answers to. */
  lemma {:induction false} MissingErrorsSound(names: seq<string>, m: seq<(string, seq<string>)>)
    ensures forall e :: e in MissingErrors(names, m) ==>
              e.MissingColumn? && (e.canonical, e.searched) in m && Unresolvable(names, e.searched)
  {
    if m != [] {
      var p := m[..|m| - 1];
      MissingErrorsSound(names, p);
      ResolveFirstAliasWins(names, Last(m).1);
      forall e | e in MissingErrors(names, m)
        ensures e.MissingColumn? && (e.canonical, e.searched) in m && Unresolvable(names, e.searched)
      {
        if e in MissingErrors(names, p) {
          assert (e.canonical, e.searched) in p;
        }
      }
    }
  }

  /** Every required column of the mapping none of whose spellings any column
      answers to is reported. */
  lemma {:induction false} MissingErrorsComplete(names: seq<string>, m: seq<(string, seq<string>)>)
    ensures forall k :: 0 <= k < |m| && Unresolvable(names, m[k].1) ==>
              MissingColumn(m[k].0, m[k].1) in MissingErrors(names, m)
  {
    if m != [] {
      var p := m[..|m| - 1];
      MissingErrorsComplete(names, p);
      ResolveFirstAliasWins(names, Last(m).1);
      forall k | 0 <= k < |m| && Unresolvable(names, m[k].1)
        ensures MissingColumn(m[k].0, m[k].1) in MissingErrors(names, m)
      {
        if k < |m| - 1 {
          assert m[k] == p[k];
        }
      }
    }
  }

  /** Both directions: the errors are exactly the unresolvable required columns. */
  lemma MissingErrorsExact(names: seq<string>, m: seq<(string, seq<string>)>)
    ensures forall e :: e in MissingErrors(names, m) ==>
              e.MissingColumn? && (e.canonical, e.searched) in m && Unresolvable(names, e.searched)
    ensures forall k :: 0 <= k < |m| && Unresolvable(names, m[k].1) ==>
              MissingColumn(m[k].0, m[k].1) in MissingErrors(names, m)
  {
    MissingErrorsSound(names, m);
    MissingErrorsComplete(names, m);
  }

  /** The canonical names of a mapping are pairwise different. */
  predicate DistinctCanonicals(m: seq<(string, seq<string>)>) {
    forall k, l :: 0 <= k < l < |m| ==> m[k].0 != m[l].0
  }

  /** The canonical names of a mapping, in order. */
  function Canonicals(m: seq<(string, seq<string>)>): (r: seq<string>)
    ensures |r| == |m| && forall k :: 0 <= k < |m| ==> r[k] == m[k].0
  {
    seq(|m|, k requires 0 <= k < |m| => m[k].0)
  }

  /** Each reported error names a required column of the mapping. */
  lemma {:induction false} MissingErrorsFromMapping(names: seq<string>, m: seq<(string, seq<string>)>)
    ensures forall i :: 0 <= i < |MissingErrors(names, m)| ==>
              MissingErrors(names, m)[i].MissingColumn? && MissingErrors(names, m)[i].canonical in Canonicals(m)
  {
    if m != [] {
      var p := m[..|m| - 1];
      MissingErrorsFromMapping(names, p);
      var errs := MissingErrors(names, m);
      var before := MissingErrors(names, p);
      var last := m[|m| - 1];
      assert errs == before + (if Resolve(names, last.1).None? then [MissingColumn(last.0, last.1)] else []);
      forall i | 0 <= i < |errs| ensures errs[i].MissingColumn? && errs[i].canonical in Canonicals(m) {
        if i < |before| {
          assert errs[i] == before[i];
          var k :| 0 <= k < |p| && Canonicals(p)[k] == before[i].canonical;
          assert Canonicals(m)[k] == m[k].0 == p[k].0;
        } else {
          assert Canonicals(m)[|m| - 1] == last.0;
        }
      }
    }
  }

  /** With pairwise different canonical names, no required column is reported
      missing twice. */
  lemma {:induction false} MissingErrorsOncePerColumn(names: seq<string>, m: seq<(string, seq<string>)>)
    requires DistinctCanonicals(m)
    ensures forall i, j :: 0 <= i < j < |MissingErrors(names, m)| ==>
              && MissingErrors(names, m)[i].MissingColumn? && MissingErrors(names, m)[j].MissingColumn?
              && MissingErrors(names, m)[i].canonical != MissingErrors(names, m)[j].canonical
  {
    MissingErrorsFromMapping(names, m);
    if m != [] {
      var p := m[..|m| - 1];
      assert DistinctCanonicals(p);
      MissingErrorsOncePerColumn(names, p);
      MissingErrorsFromMapping(names, p);
      var errs := MissingErrors(names, m);
      var before := MissingErrors(names, p);
      var last := m[|m| - 1];
      assert errs == before + (if Resolve(names, last.1).None? then [MissingColumn(last.0, last.1)] else []);
      assert last.0 !in Canonicals(p);
      forall i, j | 0 <= i < j < |errs|
        ensures errs[i].MissingColumn? && errs[j].MissingColumn? && errs[i].canonical != errs[j].canonical
      {
        assert errs[i] == before[i];
        if j < |before| {
          assert errs[j] == before[j];
        }
      }
    }
  }

  /** An error reported before another names an earlier required column. */
  predicate InMappingOrder(errs: seq<SchemaError>, m: seq<(string, seq<string>)>) {
    forall i, j, k, l ::
      && 0 <= i < j < |errs| && 0 <= k < |m| && 0 <= l < |m|
      && errs[i].MissingColumn? && errs[j].MissingColumn?
      && errs[i].canonical == m[k].0 && errs[j].canonical == m[l].0
      ==> k < l
  }

  /** With pairwise different canonical names, the errors come in mapping order. */
  lemma {:induction false} MissingErrorsInMappingOrder(names: seq<string>, m: seq<(string, seq<string>)>)
    requires DistinctCanonicals(m)
    ensures InMappingOrder(MissingErrors(names, m), m)
  {
    if m != [] {
      var p := m[..|m| - 1];
      var last := m[|m| - 1];
      assert m == p + [last];
      assert DistinctCanonicals(p);
      MissingErrorsInMappingOrder(names, p);
      MissingErrorsFromMapping(names, p);
      var before := MissingErrors(names, p);
      var extra := if Resolve(names, last.1).None? then [MissingColumn(last.0, last.1)] else [];
      assert MissingErrors(names, m) == before + extra;
      OrderExtends(before, p, last, extra);
    }
  }

  /** One step of the above: appending the error of the last required column. */
  lemma OrderExtends(before: seq<SchemaError>, p: seq<(string, seq<string>)>, last: (string, seq<string>),
                     extra: seq<SchemaError>)
    requires DistinctCanonicals(p + [last])
    requires InMappingOrder(before, p)
    requires forall i :: 0 <= i < |before| ==> before[i].MissingColumn? && before[i].canonical in Canonicals(p)
    requires extra == [] || extra == [MissingColumn(last.0, last.1)]
    ensures InMappingOrder(before + extra, p + [last])
  {
    var errs, m := before + extra, p + [last];
    forall i, j, k, l | && 0 <= i < j < |errs| && 0 <= k < |m| && 0 <= l < |m|
                        && errs[i].MissingColumn? && errs[j].MissingColumn?
                        && errs[i].canonical == m[k].0 && errs[j].canonical == m[l].0
      ensures k < l
    {
      assert errs[i] == before[i];
      var k' :| 0 <= k' < |p| && Canonicals(p)[k'] == before[i].canonical;
      assert m[k'].0 == m[k].0;
      assert k == k';
      if j < |before| {
        assert errs[j] == before[j];
        var l' :| 0 <= l' < |p| && Canonicals(p)[l'] == before[j].canonical;
        assert m[l'].0 == m[l].0;
        assert l == l';
        assert p[k'].0 == before[i].canonical && p[l'].0 == before[j].canonical;
      } else {
        assert m[|m| - 1].0 == m[l].0;
        assert l == |m| - 1;
      }
    }
  }

  /** The column found for a required column answers to one of its spellings. */
  lemma FoundColumnMatches(names: seq<string>, aliases: seq<string>)
    ensures FoundColumn(names, aliases).Some? <==> !Unresolvable(names, aliases)
    ensures FoundColumn(names, aliases).Some? ==>
              exists j, a :: && 0 <= j < |names| && 0 <= a < |aliases|
                             && FoundColumn(names, aliases).value == names[j] && Matches(names[j], aliases[a])
  {
    ResolveFirstAliasWins(names, aliases);
    var r := Resolve(names, aliases);
    if r.Some? {
      assert FoundColumn(names, aliases).value == names[r.value.1] && Matches(names[r.value.1], aliases[r.value.0]);
    }
  }

  /** When nothing is missing, one column is found per required column, in mapping order. */
  lemma {:induction false} FoundComplete(names: seq<string>, m: seq<(string, seq<string>)>)
    requires MissingErrors(names, m) == []
    ensures |Found(names, m)| == |m|
    ensures forall k :: 0 <= k < |m| ==>
              FoundColumn(names, m[k].1).Some? && Found(names, m)[k] == (m[k].0, FoundColumn(names, m[k].1).value)
  {
    if m != [] {
      var p := m[..|m| - 1];
      FoundComplete(names, p);
      forall k | 0 <= k < |m|
        ensures FoundColumn(names, m[k].1).Some? && Found(names, m)[k] == (m[k].0, FoundColumn(names, m[k].1).value)
      {
        if k < |m| - 1 {
          assert m[k] == p[k];
        }
      }
    }
  }

  /** The name a column ends up with after the renames, one after the other. */
  function RenamedName(n: string, found: seq<(string, string)>): string {
    if found == [] then n
    else
      var before := RenamedName(n, found[..|found| - 1]);
      var (standard, actual) := Last(found);
      if before == actual then standard else before
  }

  /** Renaming changes names, column by column, and nothing else. */
  lemma {:induction false} ApplyRenamesPointwise(df: Frame, found: seq<(string, string)>)
    ensures |ApplyRenames(df, found)| == |df|
    ensures forall i :: 0 <= i < |df| ==>
              ApplyRenames(df, found)[i] == Column(RenamedName(df[i].name, found), df[i].cells)
  {
    if found != [] {
      ApplyRenamesPointwise(df, found[..|found| - 1]);
    }
  }

  /** No two renames touch the same column name, and no rename produces a
      name another rename starts from. */
  predicate Independent(found: seq<(string, string)>) {
    forall k, l :: 0 <= k < |found| && 0 <= l < |found| && k != l ==>
      found[k].1 != found[l].1 && found[k].0 != found[l].1
  }

  /** Under independent renames a name is renamed at most once: to the
      canonical name of the rename that starts from it, if there is one. */
  lemma {:induction false} RenamedNameIs(n: string, found: seq<(string, string)>)
    requires Independent(found)
    ensures (forall k :: 0 <= k < |found| ==> found[k].1 != n) ==> RenamedName(n, found) == n
    ensures forall k :: 0 <= k < |found| && found[k].1 == n ==> RenamedName(n, found) == found[k].0
  {
    if found != [] {
      var p := found[..|found| - 1];
      assert forall k :: 0 <= k < |p| ==> p[k] == found[k];
      RenamedNameIs(n, p);
    }
  }

  /** The spellings of different required columns never share a key, and each
      required column's first spelling is its canonical name. */
  predicate Separated(m: seq<(string, seq<string>)>) {
    && (forall k :: 0 <= k < |m| ==> |m[k].1| > 0 && m[k].1[0] == m[k].0)
    && (forall k, l, i, j :: 0 <= k < |m| && 0 <= l < |m| && k != l && 0 <= i < |m[k].1| && 0 <= j < |m[l].1| ==>
          Normalize(m[k].1[i]) != Normalize(m[l].1[j]))
  }

  /** The renames of a complete search over a separated mapping are independent. */
  lemma FoundIndependent(names: seq<string>, m: seq<(string, seq<string>)>)
    requires Separated(m)
    requires MissingErrors(names, m) == []
    ensures Independent(Found(names, m))
  {
    FoundComplete(names, m);
    var found := Found(names, m);
    forall k, l | 0 <= k < |found| && 0 <= l < |found| && k != l
      ensures found[k].1 != found[l].1 && found[k].0 != found[l].1
    {
      FoundColumnMatches(names, m[k].1);
      FoundColumnMatches(names, m[l].1);
      var jk, ak :| && 0 <= jk < |names| && 0 <= ak < |m[k].1|
                    && found[k].1 == names[jk] && Matches(names[jk], m[k].1[ak]);
      var jl, al :| && 0 <= jl < |names| && 0 <= al < |m[l].1|
                    && found[l].1 == names[jl] && Matches(names[jl], m[l].1[al]);
      assert Normalize(m[k].1[ak]) != Normalize(m[l].1[al]);
      assert Normalize(m[k].1[0]) != Normalize(m[l].1[al]);
    }
  }

  /** When no required column is missing, renaming keeps the columns and
      their cells, and every canonical name is present afterwards. */
  lemma CanonicalNamesPresent(df: Frame, m: seq<(string, seq<string>)>)
    requires Separated(m)
    requires MissingErrors(Names(df), m) == []
    ensures var renamed := ApplyRenames(df, Found(Names(df), m));
            && |renamed| == |df|
            && (forall i :: 0 <= i < |df| ==> renamed[i].cells == df[i].cells)
            && (forall k :: 0 <= k < |m| ==> m[k].0 in Names(renamed))
  {
    var names := Names(df);
    var found := Found(names, m);
    var renamed := ApplyRenames(df, found);
    FoundComplete(names, m);
    FoundIndependent(names, m);
    ApplyRenamesPointwise(df, found);
    forall k | 0 <= k < |m| ensures m[k].0 in Names(renamed) {
      FoundColumnMatches(names, m[k].1);
      var j, a :| && 0 <= j < |names| && 0 <= a < |m[k].1|
                  && found[k].1 == names[j] && Matches(names[j], m[k].1[a]);
      RenamedNameIs(names[j], found);
      assert renamed[j].name == m[k].0;
      assert Names(renamed)[j] == m[k].0;
    }
  }

  /** When no required column is missing, a column already carrying a
      canonical name keeps it. */
  lemma CanonicalNamesKept(df: Frame, m: seq<(string, seq<string>)>)
    requires Separated(m)
    requires MissingErrors(Names(df), m) == []
    ensures var renamed := ApplyRenames(df, Found(Names(df), m));
            |renamed| == |df| &&
            forall i, k :: 0 <= i < |df| && 0 <= k < |m| && df[i].name == m[k].0 ==> renamed[i].name == m[k].0
  {
    ApplyRenamesPointwise(df, Found(Names(df), m));
    forall i, k | 0 <= i < |df| && 0 <= k < |m| && df[i].name == m[k].0
      ensures ApplyRenames(df, Found(Names(df), m))[i].name == m[k].0
    {
      CanonicalNameKeptAt(df, m, i, k);
    }
  }

  /** One column of the above: the only rename that can start from a
      canonical name is that column's own. */
  lemma CanonicalNameKeptAt(df: Frame, m: seq<(string, seq<string>)>, i: nat, k: nat)
    requires Separated(m)
    requires MissingErrors(Names(df), m) == []
    requires i < |df| && k < |m| && df[i].name == m[k].0
    ensures |ApplyRenames(df, Found(Names(df), m))| == |df|
    ensures ApplyRenames(df, Found(Names(df), m))[i].name == m[k].0
  {
    var names := Names(df);
    var found := Found(names, m);
    FoundComplete(names, m);
    FoundIndependent(names, m);
    ApplyRenamesPointwise(df, found);
    forall l | 0 <= l < |found| && found[l].1 == df[i].name ensures found[l].0 == m[k].0 {
      FoundColumnMatches(names, m[l].1);
      var j, a :| && 0 <= j < |names| && 0 <= a < |m[l].1|
                  && found[l].1 == names[j] && Matches(names[j], m[l].1[a]);
      assert Normalize(m[k].1[0]) == Normalize(m[l].1[a]);
      assert l == k;
    }
    RenamedNameIs(df[i].name, found);
  }

  /** When no required column is missing, a column that answers to no
      spelling keeps its name. */
  lemma OtherNamesKept(df: Frame, m: seq<(string, seq<string>)>)
    requires Separated(m)
    requires MissingErrors(Names(df), m) == []
    ensures var renamed := ApplyRenames(df, Found(Names(df), m));
            |renamed| == |df| &&
            forall i :: 0 <= i < |df| && (forall k, a :: 0 <= k < |m| && 0 <= a < |m[k].1| ==> !Matches(df[i].name, m[k].1[a]))
              ==> renamed[i].name == df[i].name
  {
    var names := Names(df);
    var found := Found(names, m);
    FoundComplete(names, m);
    FoundIndependent(names, m);
    ApplyRenamesPointwise(df, found);
    forall i | 0 <= i < |df| && (forall k, a :: 0 <= k < |m| && 0 <= a < |m[k].1| ==> !Matches(df[i].name, m[k].1[a]))
      ensures ApplyRenames(df, found)[i].name == df[i].name
    {
      forall l | 0 <= l < |found| ensures found[l].1 != df[i].name {
        FoundColumnMatches(names, m[l].1);
      }
      RenamedNameIs(df[i].name, found);
    }
  }

  predicate NoDuplicates<T(==)>(s: seq<T>) {
    forall i, j :: 0 <= i < j < |s| ==> s[i] != s[j]
  }

  /** dropna().unique() keeps exactly the non-null values, each once. */
  lemma {:induction false} DistinctNonNullContents(cells: seq<Cell>)
    ensures forall c :: c in DistinctNonNull(cells) <==> c in cells && c != Null
    ensures NoDuplicates(DistinctNonNull(cells))
  {
    if cells != [] {
      var p := cells[..|cells| - 1];
      DistinctNonNullContents(p);
      assert cells == p + [Last(cells)];
    }
  }

  /** The comprehension keeps exactly the values other than 0 and 1, in order,
      so a list without duplicates stays without duplicates. */
  lemma {:induction false} NonBinaryContents(values: seq<Cell>)
    ensures forall c :: c in NonBinary(values) <==> c in values && !IsBinary(c)
    ensures NonBinary(values) == [] <==> forall c :: c in values ==> IsBinary(c)
    ensures NoDuplicates(values) ==> NoDuplicates(NonBinary(values))
  {
    if values != [] {
      NonBinaryContents(values[1..]);
      assert values == [values[0]] + values[1..];
      if NoDuplicates(values) {
        assert NoDuplicates(values[1..]) by {
          forall i, j | 0 <= i < j < |values[1..]| ensures values[1..][i] != values[1..][j] {
            assert values[1..][i] == values[i + 1] && values[1..][j] == values[j + 1];
          }
        }
        assert values[0] !in values[1..];
      }
    }
  }

  /** The 'retour' column passes exactly when every cell is 0 or 1; the
      missing-value error is reported exactly when a cell is null; and the
      reported invalid values are the distinct non-null values other than 0
      and 1. */
  lemma RetourErrorsMeaning(cells: seq<Cell>)
    ensures RetourErrors(cells) == [] <==> forall c :: c in cells ==> IsBinary(c)
    ensures NullRetour in RetourErrors(cells) <==> Null in cells
    ensures forall v :: NonBinaryRetour(v) in RetourErrors(cells) ==>
              NoDuplicates(v) && forall c :: c in v <==> c in cells && c != Null && !IsBinary(c)
  {
    RetourPassesIffBinary(cells);
    RetourInvalidValues(cells);
  }

  lemma RetourPassesIffBinary(cells: seq<Cell>)
    ensures RetourErrors(cells) == [] <==> forall c :: c in cells ==> IsBinary(c)
  {
    DistinctNonNullContents(cells);
    NonBinaryContents(DistinctNonNull(cells));
    var invalid := NonBinary(DistinctNonNull(cells));
    if forall c :: c in cells ==> IsBinary(c) {
      assert Null !in cells;
      assert invalid == [];
    } else {
      var c :| c in cells && !IsBinary(c);
      if c != Null {
        assert c in invalid;
      }
    }
  }

  lemma RetourInvalidValues(cells: seq<Cell>)
    ensures forall v :: NonBinaryRetour(v) in RetourErrors(cells) ==>
              NoDuplicates(v) && forall c :: c in v <==> c in cells && c != Null && !IsBinary(c)
  {
    DistinctNonNullContents(cells);
    NonBinaryContents(DistinctNonNull(cells));
    var invalid := NonBinary(DistinctNonNull(cells));
    forall v | NonBinaryRetour(v) in RetourErrors(cells)
      ensures v == invalid
    {
      assert RetourErrors(cells) == [NonBinaryRetour(invalid)] + (if Null in cells then [NullRetour] else []);
    }
  }

  // ---------------------------------------------------------------------
  // Facts about the mapping itself

  lemma FirstSpellingIsCanonical()
    ensures forall k :: 0 <= k < |Mapping| ==> |Mapping[k].1| > 0 && Mapping[k].1[0] == Mapping[k].0
  {
  }

  lemma SpellingsDifferAcrossColumns()
    ensures forall k, l, i, j :: 0 <= k < l < |Mapping| && 0 <= i < |Mapping[k].1| && 0 <= j < |Mapping[l].1| ==>
              Mapping[k].1[i] != Mapping[l].1[j]
  {
  }

  lemma PlainSpellings0() ensures forall i :: 0 <= i < |Mapping[0].1| ==> Plain(Mapping[0].1[i]) {}
  lemma PlainSpellings1() ensures forall i :: 0 <= i < |Mapping[1].1| ==> Plain(Mapping[1].1[i]) {}
  lemma PlainSpellings2() ensures forall i :: 0 <= i < |Mapping[2].1| ==> Plain(Mapping[2].1[i]) {}
  lemma PlainSpellings3() ensures forall i :: 0 <= i < |Mapping[3].1| ==> Plain(Mapping[3].1[i]) {}
  lemma PlainSpellings4() ensures forall i :: 0 <= i < |Mapping[4].1| ==> Plain(Mapping[4].1[i]) {}
  lemma PlainSpellings5() ensures forall i :: 0 <= i < |Mapping[5].1| ==> Plain(Mapping[5].1[i]) {}
  lemma PlainSpellings6() ensures forall i :: 0 <= i < |Mapping[6].1| ==> Plain(Mapping[6].1[i]) {}

  /** Every spelling of the mapping is already lower-case and stripped. */
  lemma PlainSpellings()
    ensures forall k, i :: 0 <= k < |Mapping| && 0 <= i < |Mapping[k].1| ==> Plain(Mapping[k].1[i])
  {
    PlainSpellings0(); PlainSpellings1(); PlainSpellings2(); PlainSpellings3();
    PlainSpellings4(); PlainSpellings5(); PlainSpellings6();
    forall k, i | 0 <= k < |Mapping| && 0 <= i < |Mapping[k].1| ensures Plain(Mapping[k].1[i]) {
      if k == 0 {} else if k == 1 {} else if k == 2 {} else if k == 3 {}
      else if k == 4 {} else if k == 5 {} else {}
    }
  }

  /** The mapping's spellings of different columns never share a key, and
      each column is first looked up under its canonical name. */
  lemma MappingSeparated()
    ensures Separated(Mapping)
    ensures DistinctCanonicals(Mapping)
  {
    FirstSpellingIsCanonical();
    SpellingsDifferAcrossColumns();
    PlainSpellings();
    var m := Mapping;
    forall k, l, i, j | 0 <= k < |m| && 0 <= l < |m| && k != l && 0 <= i < |m[k].1| && 0 <= j < |m[l].1|
      ensures Normalize(m[k].1[i]) != Normalize(m[l].1[j])
    {
      NormalizePlain(m[k].1[i]);
      NormalizePlain(m[l].1[j]);
    }
    forall k, l | 0 <= k < l < |m| ensures m[k].0 != m[l].0 {
      assert m[k].0 == m[k].1[0] && m[l].0 == m[l].1[0];
    }
  }

  // ---------------------------------------------------------------------
  // What validate_schema promises

  /** The frame after the renames validate_schema makes. */
  function Renamed(df: Frame): Frame {
    ApplyRenames(df, Found(Names(df), Mapping))
  }

  /** Some required column is reported missing exactly when one of them
      cannot be found under any of its spellings, and the frame is then
      rejected with the missing-column errors alone. */
  lemma ValidateReportsMissing(df: Frame)
    ensures MissingErrors(Names(df), Mapping) != [] <==>
              exists k :: 0 <= k < |Mapping| && Unresolvable(Names(df), Mapping[k].1)
    ensures MissingErrors(Names(df), Mapping) != [] ==>
              Validate(df) == Checked(false, MissingErrors(Names(df), Mapping), None)
  {
    GenericReportsMissing(Names(df), Mapping);
  }

  /** Against any mapping: some error is reported exactly when some entry is unresolvable. */
  lemma GenericReportsMissing(names: seq<string>, m: seq<(string, seq<string>)>)
    ensures MissingErrors(names, m) != [] <==> exists k :: 0 <= k < |m| && Unresolvable(names, m[k].1)
  {
    MissingErrorsExact(names, m);
    var missing := MissingErrors(names, m);
    if missing != [] {
      assert missing[0] in missing;
    }
  }

  /** The missing-column errors name exactly the required columns that cannot
      be found under any spelling, each once. */
  lemma MissingErrorsOfMapping(names: seq<string>)
    ensures forall k :: 0 <= k < |Mapping| && Unresolvable(names, Mapping[k].1) ==>
              MissingColumn(Mapping[k].0, Mapping[k].1) in MissingErrors(names, Mapping)
    ensures forall e :: e in MissingErrors(names, Mapping) ==>
              e.MissingColumn? && (e.canonical, e.searched) in Mapping && Unresolvable(names, e.searched)
    ensures forall i, j :: 0 <= i < j < |MissingErrors(names, Mapping)| ==>
              MissingErrors(names, Mapping)[i].canonical != MissingErrors(names, Mapping)[j].canonical
    ensures InMappingOrder(MissingErrors(names, Mapping), Mapping)
  {
    MappingSeparated();
    MissingErrorsExact(names, Mapping);
    MissingErrorsOncePerColumn(names, Mapping);
    MissingErrorsInMappingOrder(names, Mapping);
  }

  /** A frame that passes carries every canonical column name after the
      renames, has the same columns holding the same cells, keeps the names
      of columns already carrying a canonical name, and leaves the names of
      columns that answer to no spelling alone. */
  lemma ValidFrameIsCanonical(df: Frame)
    requires Validate(df).Checked? && Validate(df).valid
    ensures Validate(df).frame == Some(Renamed(df))
    ensures |Renamed(df)| == |df|
    ensures forall i :: 0 <= i < |df| ==> Renamed(df)[i].cells == df[i].cells
    ensures forall k :: 0 <= k < |Mapping| ==> Mapping[k].0 in Names(Renamed(df))
    ensures forall i, k :: 0 <= i < |df| && 0 <= k < |Mapping| && df[i].name == Mapping[k].0 ==>
              Renamed(df)[i].name == Mapping[k].0
    ensures forall i :: 0 <= i < |df| && (forall k, a :: 0 <= k < |Mapping| && 0 <= a < |Mapping[k].1| ==> !Matches(df[i].name, Mapping[k].1[a]))
              ==> Renamed(df)[i].name == df[i].name
  {
    MappingSeparated();
    CanonicalNamesPresent(df, Mapping);
    CanonicalNamesKept(df, Mapping);
    OtherNamesKept(df, Mapping);
  }

  /** Once every required column is found, the verdict is decided by the
      'retour' column: there is at least one after the renames; with two or
      more the call raises; with exactly one the frame passes exactly when
      every cell of it is 0 or 1, and a missing value is reported exactly
      when one of its cells is null. */
  lemma RetourVerdict(df: Frame)
    requires MissingErrors(Names(df), Mapping) == []
    ensures |RetourColumns(Renamed(df))| >= 1
    ensures Validate(df).Raised? <==> |RetourColumns(Renamed(df))| > 1
    ensures |RetourColumns(Renamed(df))| == 1 ==>
              && Validate(df).Checked?
              && (Validate(df).valid <==> forall c :: c in RetourColumns(Renamed(df))[0] ==> IsBinary(c))
              && (NullRetour in Validate(df).errors <==> Null in RetourColumns(Renamed(df))[0])
  {
    MappingSeparated();
    CanonicalNamesPresent(df, Mapping);
    assert Mapping[6].0 == "retour";
    var retour := RetourColumns(Renamed(df));
    if |retour| == 1 {
      RetourErrorsMeaning(retour[0]);
    }
  }
}
