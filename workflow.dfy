/**
 * The browser page's state: the three module globals uploadedFile,
 * analysisData and predictionsData, the last single-product result, the
 * loading overlay, and the handlers that change them. What the handlers do
 * to the outside world (messages shown, requests sent, a timer armed, a
 * download started) is recorded, in order, in a trace of effects.
 */
module Workflow {
  import opened Wrappers
  import opened Schema
  import Upload
  import Single
  import Analyze
  import Predict
  import Display

  /** A file picked by the user; only its name matters to the page. */
  datatype File = File(name: string)

  /** The showMessage types in use: 'success', 'error' and 'info'. */
  datatype Severity = Success | Failure | Info

  /** The data of a successful /analyze answer. */
  datatype AnalysisData = AnalysisData(stats: Analyze.Stats, preview: seq<map<string, Cell>>)

  /** The data of a successful /predict_single answer. */
  datatype SingleOutcome = SingleOutcome(probability: real, prediction: int)

  datatype Request =
    | AnalyzeRequest(file: Option<File>)                     // POST /analyze, form field 'file'
    | PredictRequest(data: Option<AnalysisData>)             // POST /predict, {data: analysisData}
    | PredictSingleRequest(body: map<string, Cell>)          // POST /predict_single

  datatype Effect =
    | ShowMessage(severity: Severity, text: string)
    | Send(request: Request)
    | ScheduleAnalysis        // setTimeout(performAnalysisOnHomePage, 1000)
    | StartDownload(href: string)

  /** How a request ends: an answer with success true and its data, an
      answer with success false and perhaps an error text, or a failure of
      the connection or of the JSON parse. */
  datatype Reply<T> = Succeeded(data: T) | FailedWith(error: Option<string>) | ConnectionError

  const InvalidType := "Type de fichier invalide. Veuillez uploader un fichier .xlsx ou .csv"
  const ConnectionLost := "Erreur de connexion au serveur"
  const FormIncomplete := "Veuillez remplir tous les champs obligatoires"
  const NothingToDownload := "Aucune donnée à télécharger"

  function UploadedMessage(name: string): string {
    "Fichier \"" + name + "\" téléchargé avec succès !"
  }

  /** What handleFileUpload shows and arms: the error alone for a refused
      extension; the success message and the scheduled analysis otherwise. */
  function UploadEffects(name: string): (e: seq<Effect>)
    ensures !Upload.ClientAccepts(name) ==> e == [ShowMessage(Failure, InvalidType)]
    ensures Upload.ClientAccepts(name) ==> |e| == 2 && e[0] == ShowMessage(Success, UploadedMessage(name)) && e[1] == ScheduleAnalysis
    ensures forall i :: 0 <= i < |e| && e[i].ShowMessage? ==> (e[i].severity == Failure <==> !Upload.ClientAccepts(name))
  {
    if Upload.ClientAccepts(name) then [ShowMessage(Success, UploadedMessage(name)), ScheduleAnalysis]
    else [ShowMessage(Failure, InvalidType)]
  }

  /** result.error || fallback: the server's text unless it is absent or empty. */
  function ErrorText(error: Option<string>, fallback: string): (t: string)
    ensures fallback != "" ==> t != ""
    ensures error.Some? && error.value != "" ==> t == error.value
    ensures t != fallback ==> error.Some? && t == error.value
  {
    match error
    case Some(e) => if e != "" then e else fallback
    case None => fallback
  }

  /** predictionsData.download_url || '/download': never an empty link. */
  function DownloadHref(url: string): (href: string)
    ensures href != ""
    ensures url != "" ==> href == url
    ensures url == "" ==> href == "/download"
  {
    if url != "" then url else "/download"
  }

  /** The message a finished request shows: the success text, the server's
      error or the fallback, or the connection error. */
  function ReplyMessage<T>(reply: Reply<T>, success: string, fallback: string): (m: Effect)
    ensures m.ShowMessage?
    ensures m.severity == Success <==> reply.Succeeded?
    ensures reply.Succeeded? ==> m.text == success
    ensures reply.ConnectionError? ==> m.text == ConnectionLost
    ensures reply.FailedWith? ==> m.text == ErrorText(reply.error, fallback)
  {
    match reply
    case Succeeded(_) => ShowMessage(Success, success)
    case FailedWith(e) => ShowMessage(Failure, ErrorText(e, fallback))
    case ConnectionError => ShowMessage(Failure, ConnectionLost)
  }

  class Controller {
    var uploadedFile: Option<File>
    var analysisData: Option<AnalysisData>
    var predictionsData: Option<Predict.PredictResult>
    var singleResult: Option<Display.Gauge>
    var loading: bool
    var effects: seq<Effect>

    /** The page as loaded: the three globals null, nothing shown. */
    constructor()
      ensures uploadedFile == None && analysisData == None && predictionsData == None
      ensures singleResult == None && !loading && effects == []
    {
      uploadedFile := None;
      analysisData := None;
      predictionsData := None;
      singleResult := None;
      loading := false;
      effects := [];
    }

    /** handleFileUpload: a file whose extension the browser refuses leaves
        every global as it was; an accepted one becomes uploadedFile, and
        the analysis is scheduled. No other global changes either way. */
    method HandleFileUpload(file: File)
      modifies this
      ensures uploadedFile == if Upload.ClientAccepts(file.name) then Some(file) else old(uploadedFile)
      ensures effects == old(effects) + UploadEffects(file.name)
      ensures analysisData == old(analysisData) && predictionsData == old(predictionsData)
      ensures singleResult == old(singleResult) && loading == old(loading)
    {
      var accepted := Upload.CheckExtension(file.name);
      if accepted {
        uploadedFile := Some(file);
      }
      effects := effects + UploadEffects(file.name);
    }

    /** removeFile: the three globals become null. */
    method RemoveFile()
      modifies this
      ensures uploadedFile == None && analysisData == None && predictionsData == None
      ensures singleResult == old(singleResult) && loading == old(loading)
      ensures effects == old(effects) + [ShowMessage(Info, "Fichier supprimé")]
    {
      uploadedFile := None;
      analysisData := None;
      predictionsData := None;
      effects := effects + [ShowMessage(Info, "Fichier supprimé")];
    }

    /** performAnalysisOnHomePage up to the request: the overlay is shown and
        whatever uploadedFile is now is sent (none after removeFile). */
    method StartAnalysis()
      modifies this
      ensures loading
      ensures effects == old(effects) + [Send(AnalyzeRequest(old(uploadedFile)))]
      ensures uploadedFile == old(uploadedFile) && analysisData == old(analysisData)
      ensures predictionsData == old(predictionsData) && singleResult == old(singleResult)
    {
      loading := true;
      effects := effects + [Send(AnalyzeRequest(uploadedFile))];
    }

    /** performAnalysisOnHomePage after the answer: analysisData is replaced
        only on success; the overlay is hidden in every case. */
    method FinishAnalysis(reply: Reply<AnalysisData>)
      modifies this
      ensures reply.Succeeded? ==> analysisData == Some(reply.data)
      ensures !reply.Succeeded? ==> analysisData == old(analysisData)
      ensures effects == old(effects) + [ReplyMessage(reply, "Analyse terminée avec succès !", "Erreur lors de l'analyse")]
      ensures !loading
      ensures uploadedFile == old(uploadedFile) && predictionsData == old(predictionsData)
      ensures singleResult == old(singleResult)
    {
      if reply.Succeeded? {
        analysisData := Some(reply.data);
      }
      effects := effects + [ReplyMessage(reply, "Analyse terminée avec succès !", "Erreur lors de l'analyse")];
      loading := false;
    }

    /** performPredictions up to the request: analysisData is sent as it is. */
    method StartPredictions()
      modifies this
      ensures loading
      ensures effects == old(effects) + [Send(PredictRequest(old(analysisData)))]
      ensures uploadedFile == old(uploadedFile) && analysisData == old(analysisData)
      ensures predictionsData == old(predictionsData) && singleResult == old(singleResult)
    {
      loading := true;
      effects := effects + [Send(PredictRequest(analysisData))];
    }

    /** performPredictions after the answer: predictionsData is replaced only
        on success. */
    method FinishPredictions(reply: Reply<Predict.PredictResult>)
      modifies this
      ensures reply.Succeeded? ==> predictionsData == Some(reply.data)
      ensures !reply.Succeeded? ==> predictionsData == old(predictionsData)
      ensures effects == old(effects) + [ReplyMessage(reply, "Prédictions générées avec succès !", "Erreur lors des prédictions")]
      ensures !loading
      ensures uploadedFile == old(uploadedFile) && analysisData == old(analysisData)
      ensures singleResult == old(singleResult)
    {
      if reply.Succeeded? {
        predictionsData := Some(reply.data);
      }
      effects := effects + [ReplyMessage(reply, "Prédictions générées avec succès !", "Erreur lors des prédictions")];
      loading := false;
    }

    /** predictSingleProduct up to the request: an empty category or a NaN
        price shows an error, sends nothing and hides the overlay; otherwise
        the JSON body of the form is sent. */
    method PredictSingle(form: Single.SingleForm)
      modifies this
      ensures !Single.ClientValid(form) ==>
                && effects == old(effects) + [ShowMessage(Failure, FormIncomplete)]
                && !loading
      ensures Single.ClientValid(form) ==>
                && effects == old(effects) + [Send(PredictSingleRequest(Single.RequestBody(form)))]
                && loading
      ensures uploadedFile == old(uploadedFile) && analysisData == old(analysisData)
      ensures predictionsData == old(predictionsData) && singleResult == old(singleResult)
    {
      loading := true;
      if form.categorie == "" || form.prix.NaN? {
        effects := effects + [ShowMessage(Failure, FormIncomplete)];
        loading := false;
        return;
      }
      effects := effects + [Send(PredictSingleRequest(Single.RequestBody(form)))];
    }

    /** predictSingleProduct after the answer: on success the gauge shows the
        probability, its level and the verdict. */
    method FinishPredictSingle(reply: Reply<SingleOutcome>)
      modifies this
      ensures reply.Succeeded? ==> singleResult == Some(Display.SingleGauge(reply.data.probability, reply.data.prediction))
      ensures !reply.Succeeded? ==> singleResult == old(singleResult)
      ensures effects == old(effects) + [ReplyMessage(reply, "Prédiction effectuée avec succès !", "Erreur lors de la prédiction")]
      ensures !loading
      ensures uploadedFile == old(uploadedFile) && analysisData == old(analysisData)
      ensures predictionsData == old(predictionsData)
    {
      if reply.Succeeded? {
        singleResult := Some(Display.SingleGauge(reply.data.probability, reply.data.prediction));
      }
      effects := effects + [ReplyMessage(reply, "Prédiction effectuée avec succès !", "Erreur lors de la prédiction")];
      loading := false;
    }

    /** downloadResults: without predictions only an error is shown; with
        them the link is followed and a success message shown. */
    method DownloadResults()
      modifies this
      ensures old(predictionsData).None? ==> effects == old(effects) + [ShowMessage(Failure, NothingToDownload)]
      ensures old(predictionsData).Some? ==>
                effects == old(effects) + [StartDownload(DownloadHref(old(predictionsData).value.downloadUrl)),
                                           ShowMessage(Success, "Téléchargement commencé")]
      ensures uploadedFile == old(uploadedFile) && analysisData == old(analysisData)
      ensures predictionsData == old(predictionsData) && singleResult == old(singleResult)
      ensures loading == old(loading)
    {
      if predictionsData.None? {
        effects := effects + [ShowMessage(Failure, NothingToDownload)];
        return;
      }
      effects := effects + [StartDownload(DownloadHref(predictionsData.value.downloadUrl)),
                            ShowMessage(Success, "Téléchargement commencé")];
    }
  }

  /** A request the browser sends after removeFile carries no file, and the
      server answers it with 'Aucun fichier fourni'. */
  lemma AnalysisWithoutFileRefused(read: Option<Frame>)
    requires read.Some? ==> Analyze.Rectangular(read.value)
    ensures Analyze.AnalyzeRoute(None, read) == Analyze.Rejected(Upload.NoFilePart)
    ensures Upload.AdmissionMessage(Upload.NoFilePart) == "Aucun fichier fourni"
  {
  }

  /** A predictions result as /predict builds it always links to /download. */
  lemma ServerResultLinksToDownload(hasAnalysis: bool, ids: seq<Cell>, classified: Option<seq<real>>)
    requires classified.Some? ==> |classified.value| == |ids|
    ensures Predict.PredictRoute(hasAnalysis, ids, classified).Predicted? ==>
              DownloadHref(Predict.PredictRoute(hasAnalysis, ids, classified).result.downloadUrl) == "/download"
  {
  }
}
