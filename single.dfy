/**
 * The one-product prediction request: the browser's form check and the JSON
 * body it sends, and the server's required-field check in predict_single.
 */
module Single {
  import opened Wrappers
  import opened Schema

  // ---------------------------------------------------------------------
  // Browser side

  /** A JavaScript number as parseFloat can produce it. */
  datatype JsNumber = NaN | PosInf | NegInf | Finite(value: real)

  /** The form: the category text, parseFloat of the price field, and
      parseFloat of the rating field or null when that field is empty. */
  datatype SingleForm = SingleForm(categorie: string, prix: JsNumber, noteClient: Option<JsNumber>)

  /** predictSingleProduct goes on only with a non-empty category and a price that is not NaN. */
  predicate ClientValid(form: SingleForm) {
    form.categorie != "" && !form.prix.NaN?
  }

  /** JSON.stringify of a number: NaN and the infinities become null. */
  function Stringify(n: JsNumber): (c: Cell)
    ensures c.Num? <==> n.Finite?
    ensures c.Num? ==> c.x == n.value
    ensures c.Null? <==> !n.Finite?
  {
    match n
    case Finite(x) => Num(x)
    case _ => Null
  }

  /** The JSON body of the request, as the server's dictionary. */
  function RequestBody(form: SingleForm): (body: map<string, Cell>)
    ensures body.Keys == {"categorie", "prix", "note_client"}
    ensures body["categorie"] == Str(form.categorie)
    ensures body["prix"] == Stringify(form.prix)
    ensures form.noteClient.None? ==> body["note_client"] == Null
  {
    map["categorie" := Str(form.categorie),
        "prix" := Stringify(form.prix),
        "note_client" := match form.noteClient
                         case None => Null
                         case Some(n) => Stringify(n)]
  }

  // ---------------------------------------------------------------------
  // Server side

  datatype SingleError = NoAnalysis | MissingField(field: string)

  function Message(e: SingleError): string {
    match e
    case NoAnalysis => "Aucune donnée analysée"
    case MissingField(f) => "Champ manquant: " + f
  }

  const RequiredFields: seq<string> := ["categorie", "prix"]

  /** A field is missing when it is absent or null. */
  predicate Missing(data: map<string, Cell>, f: string) {
    f !in data || data[f] == Null
  }

  /** The first of the fields that is missing. */
  function FirstMissing(data: map<string, Cell>, fields: seq<string>): (r: Option<string>)
    ensures r.None? <==> forall i :: 0 <= i < |fields| ==> !Missing(data, fields[i])
    ensures r.Some? ==> exists i :: && 0 <= i < |fields| && fields[i] == r.value && Missing(data, r.value)
                                    && forall j :: 0 <= j < i ==> !Missing(data, fields[j])
  {
    if fields == [] then None
    else if Missing(data, fields[0]) then Some(fields[0])
    else
      var r := FirstMissing(data, fields[1..]);
      if r.Some? then
        var i :| && 0 <= i < |fields[1..]| && fields[1..][i] == r.value && Missing(data, r.value)
                 && forall j :: 0 <= j < i ==> !Missing(data, fields[1..][j]);
        assert fields[i + 1] == r.value;
        r
      else
        r
  }

  /** The checks of predict_single before anything is computed. */
  function SingleCheck(hasAnalysis: bool, data: map<string, Cell>): Option<SingleError> {
    if !hasAnalysis then Some(NoAnalysis)
    else match FirstMissing(data, RequiredFields)
      case Some(f) => Some(MissingField(f))
      case None => None
  }

  /** The server first needs a stored analysis, then reports 'categorie' when
      it is absent or null, then 'prix', and otherwise goes on. */
  lemma SingleCheckMeaning(hasAnalysis: bool, data: map<string, Cell>)
    ensures SingleCheck(hasAnalysis, data) == Some(NoAnalysis) <==> !hasAnalysis
    ensures SingleCheck(hasAnalysis, data) == Some(MissingField("categorie")) <==>
              hasAnalysis && Missing(data, "categorie")
    ensures SingleCheck(hasAnalysis, data) == Some(MissingField("prix")) <==>
              hasAnalysis && !Missing(data, "categorie") && Missing(data, "prix")
    ensures SingleCheck(hasAnalysis, data).None? <==>
              hasAnalysis && !Missing(data, "categorie") && !Missing(data, "prix")
  {
    var r := FirstMissing(data, RequiredFields);
    assert RequiredFields[0] == "categorie" && RequiredFields[1] == "prix";
    if hasAnalysis && r.Some? {
      assert r.value == "categorie" || r.value == "prix";
    }
  }

  /** The check loop of predict_single. */
  method CheckSingleRequest(hasAnalysis: bool, data: map<string, Cell>) returns (err: Option<SingleError>)
    ensures err == SingleCheck(hasAnalysis, data)
  {
    if !hasAnalysis {
      return Some(NoAnalysis);
    }
    var fields := RequiredFields;
    for i := 0 to |fields|
      invariant forall j :: 0 <= j < i ==> !Missing(data, fields[j])
    {
      var field := fields[i];
      if field !in data || data[field] == Null {
        SingleCheckMeaning(hasAnalysis, data);
        return Some(MissingField(field));
      }
    }
    return None;
  }

  // ---------------------------------------------------------------------
  // Both sides together

  /** A form the browser lets through with a finite price passes the
      server's field check whenever an analysis is stored. */
  lemma ValidFormPasses(form: SingleForm, hasAnalysis: bool)
    requires ClientValid(form) && form.prix.Finite? && hasAnalysis
    ensures SingleCheck(hasAnalysis, RequestBody(form)).None?
  {
    SingleCheckMeaning(hasAnalysis, RequestBody(form));
  }

  /** parseFloat("Infinity") is not NaN, so the browser sends the request,
      but JSON turns the price into null and the server answers that the
      price is missing. */
  lemma InfinitePriceReportedMissing(categorie: string, note: Option<JsNumber>)
    requires categorie != ""
    ensures ClientValid(SingleForm(categorie, PosInf, note))
    ensures SingleCheck(true, RequestBody(SingleForm(categorie, PosInf, note))) == Some(MissingField("prix"))
  {
    SingleCheckMeaning(true, RequestBody(SingleForm(categorie, PosInf, note)));
  }

  /** Whatever the browser sends never lacks a field: the category is a
      string, so the server's check can only fail on the price, and only
      when the price is not finite. */
  lemma SentRequestFailsOnlyOnPrice(form: SingleForm)
    requires ClientValid(form)
    ensures SingleCheck(true, RequestBody(form)).Some? <==> !form.prix.Finite?
    ensures SingleCheck(true, RequestBody(form)).Some? ==> SingleCheck(true, RequestBody(form)) == Some(MissingField("prix"))
  {
    SingleCheckMeaning(true, RequestBody(form));
  }
}
