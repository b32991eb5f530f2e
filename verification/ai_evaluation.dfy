/** `AiEvaluationService`: the three-stage evaluation pipeline (CV, project,
    overall summary) over retrieved context, with the JSON cut-out applied to
    the model's replies and the degraded result that replaces any exception.
    The chat completion endpoint, `JsonDocument.Parse` and number formatting
    are parameters. */
module AiEvaluation {
  import opened Wrappers
  import opened Text
  import opened Rag

  // ---------------------------------------------------------------------
  // The JSON cut-out

  /** `ExtractJsonString(text)`: from the first `{` to the last `}` when the
      last `}` comes after the first `{`, else the text unchanged. */
  function ExtractJsonString(text: string): (r: string)
    ensures |r| <= |text|
  {
    var s := IndexOf(text, '{');
    var e := LastIndexOf(text, '}');
    if s >= 0 && e > s then text[s..e + 1] else text
  }

  /** With the first `{` at `a` and the last `}` at `b > a`, the cut-out is
      exactly `text[a..b]` inclusive: it starts with `{` and ends with `}`. */
  lemma ExtractJsonSpan(text: string, a: nat, b: nat)
    requires a < b < |text|
    requires text[a] == '{' && text[b] == '}'
    requires forall i :: 0 <= i < a ==> text[i] != '{'
    requires forall j :: b < j < |text| ==> text[j] != '}'
    ensures ExtractJsonString(text) == text[a..b + 1]
    ensures ExtractJsonString(text)[0] == '{'
    ensures ExtractJsonString(text)[|ExtractJsonString(text)| - 1] == '}'
  {
    var s := IndexOf(text, '{');
    var e := LastIndexOf(text, '}');
    assert s == a;
    assert e == b;
  }

  /** When no `}` follows any `{` (in particular when there is no `{` or no
      `}` at all), the text comes back unchanged. */
  lemma ExtractJsonUnchanged(text: string)
    requires forall i, j :: 0 <= i < j < |text| && text[i] == '{' ==> text[j] != '}'
    ensures ExtractJsonString(text) == text
  {
  }

  /** Cutting out twice is cutting out once. */
  lemma ExtractJsonIdempotent(text: string)
    ensures ExtractJsonString(ExtractJsonString(text)) == ExtractJsonString(text)
  {
    var s := IndexOf(text, '{');
    var e := LastIndexOf(text, '}');
    if s >= 0 && e > s {
      var r := text[s..e + 1];
      ExtractJsonSpan(r, 0, |r| - 1);
      assert r[0..|r|] == r;
    }
  }

  // ---------------------------------------------------------------------
  // Parsed JSON and `JsonElement` accessors

  /** A parsed JSON value, as `JsonDocument.Parse` returns it. */
  datatype Json =
    | JObject(fields: map<string, Json>)
    | JArray(items: seq<Json>)
    | JString(text: string)
    | JNumber(number: real)
    | JTrue
    | JFalse
    | JNull

  /** `JsonElement.ValueKind`, as its name is printed. */
  function KindName(j: Json): string {
    match j
    case JObject(_) => "Object"
    case JArray(_) => "Array"
    case JString(_) => "String"
    case JNumber(_) => "Number"
    case JTrue => "True"
    case JFalse => "False"
    case JNull => "Null"
  }

  /** The message of the `InvalidOperationException` an accessor raises on an
      element of the wrong kind. */
  function WrongKind(expected: string, j: Json): string {
    "The requested operation requires an element of type '" + expected
      + "', but the target element has type '" + KindName(j) + "'."
  }

  const KeyNotFound: string := "The given key was not present in the dictionary."
  const NullReference: string := "Object reference not set to an instance of an object."

  /** `GetProperty(name)`. */
  function GetProperty(j: Json, name: string): (r: Result<Json>)
    ensures r.Success? <==> j.JObject? && name in j.fields
    ensures r.Success? ==> r.value == j.fields[name]
  {
    if !j.JObject? then Failure(WrongKind("Object", j))
    else if name in j.fields then Success(j.fields[name])
    else Failure(KeyNotFound)
  }

  /** `GetDouble()`. */
  function GetDouble(j: Json): (r: Result<real>)
    ensures r.Success? <==> j.JNumber?
  {
    if j.JNumber? then Success(j.number) else Failure(WrongKind("Number", j))
  }

  /** `GetString() ?? ""`: a JSON `null` reads as the empty string. */
  function GetStringOrEmpty(j: Json): (r: Result<string>)
    ensures r.Success? <==> j.JString? || j.JNull?
  {
    match j
    case JString(s) => Success(s)
    case JNull => Success("")
    case _ => Failure(WrongKind("String", j))
  }

  // ---------------------------------------------------------------------
  // Providers and requests

  /** A chat completion request: the model, the two messages and the options. */
  datatype ChatRequest = ChatRequest(
    model: string,
    system: string,
    user: string,
    temperature: real,
    maxOutputTokens: nat)

  /** What the pipeline calls out to: the embedding endpoint and the cosine's
      last step (for retrieval), the chat endpoint (the text of the first
      content part, `None` for `null`), `JsonDocument.Parse`, and the
      formatting of a `double` into a prompt. Each stage embeds the job title
      with a call of its own, so the endpoint is given twice: as the CV
      stage's call finds it and as the project stage's later call finds it. */
  datatype Providers = Providers(
    embedCv: EmbeddingApi,
    embedProject: EmbeddingApi,
    tail: CosineTail,
    complete: ChatRequest -> Result<Option<string>>,
    parse: string -> Result<Json>,
    formatNumber: real -> string)

  const ChatModel: string := "gpt-4o-mini"
  /** The separator between retrieved chunks in a prompt. */
  const ContextSeparator: string := "\n\n---\n\n"
  const CvSources: seq<string> := ["job_description", "cv_rubric"]
  const ProjectSources: seq<string> := ["case_study", "project_rubric"]
  /** How many chunks each stage retrieves. */
  const ContextSize: int := 3

  const CvSystem: string :=
    "You are an expert technical recruiter evaluating a CV against the Job Description and CV scoring rubric.\n"
    + "Instructions: give JSON with fields: cv_match_rate (0.0-1.0), cv_feedback (string).\n"
    + "Use only the contextual information provided below where relevant."
  const ProjectSystem: string :=
    "You are an expert evaluating a candidate's project report against the case study brief and project rubric.\n"
    + "Return JSON with: project_score (1.0-5.0), project_feedback (string)."
  const SummarySystem: string :=
    "You are an expert synthesizer. Create a 2-3 sentence overall_summary based on CV and Project results. Output plain text."

  /** The texts of the retrieved chunks, in rank order. */
  function Texts(hits: seq<Hit>): seq<string> {
    seq(|hits|, i requires 0 <= i < |hits| => hits[i].doc.text)
  }

  /** `string.Join("\n\n---\n\n", chunks.Select(x => x.Doc.Text))`. */
  function Context(hits: seq<Hit>): string {
    Join(ContextSeparator, Texts(hits))
  }

  function CvRequest(jobTitle: string, context: string, cvText: string): ChatRequest {
    ChatRequest(ChatModel, CvSystem,
      "Job Title: " + jobTitle + "\n\nJob Description / Rubric context:\n" + context
        + "\n\nCandidate CV:\n" + cvText,
      0.2, 800)
  }

  function ProjectRequest(context: string, projectText: string): ChatRequest {
    ChatRequest(ChatModel, ProjectSystem,
      "Case Study / Rubric:\n" + context + "\n\nProject Report:\n" + projectText,
      0.2, 800)
  }

  /** A stage's outcome: a number and a feedback text. */
  datatype Assessment = Assessment(score: real, feedback: string)

  function SummaryRequest(cv: Assessment, project: Assessment, fmt: real -> string): ChatRequest {
    ChatRequest(ChatModel, SummarySystem,
      "CV result: match_rate=" + fmt(cv.score) + ", feedback=" + cv.feedback
        + "\n\nProject result: score=" + fmt(project.score) + ", feedback=" + project.feedback,
      0.1, 300)
  }

  // ---------------------------------------------------------------------
  // The stages

  /** Reads the reply of a scoring stage: cuts out the JSON, parses it, and
      reads the number field and then the feedback field. */
  function ReadAssessment(p: Providers, reply: Option<string>, numberKey: string, feedbackKey: string)
    : (r: Result<Assessment>)
    ensures r.Success? <==>
      && reply.Some?
      && p.parse(ExtractJsonString(reply.value)).Success?
      && var root := p.parse(ExtractJsonString(reply.value)).value;
         && root.JObject? && numberKey in root.fields && feedbackKey in root.fields
         && root.fields[numberKey].JNumber?
         && (root.fields[feedbackKey].JString? || root.fields[feedbackKey].JNull?)
  {
    if reply.None? then Failure(NullReference)
    else
      match p.parse(ExtractJsonString(reply.value))
      case Failure(e) => Failure(e)
      case Success(root) =>
        match GetProperty(root, numberKey)
        case Failure(e) => Failure(e)
        case Success(n) =>
          match GetDouble(n)
          case Failure(e) => Failure(e)
          case Success(score) =>
            match GetProperty(root, feedbackKey)
            case Failure(e) => Failure(e)
            case Success(f) =>
              match GetStringOrEmpty(f)
              case Failure(e) => Failure(e)
              case Success(feedback) => Success(Assessment(score, feedback))
  }

  /** A well-formed reply is read field for field, whatever text surrounds
      the JSON object. */
  lemma ReadAssessmentFields(p: Providers, raw: string, numberKey: string, feedbackKey: string,
                             fields: map<string, Json>, score: real, feedback: string)
    requires p.parse(ExtractJsonString(raw)) == Success(JObject(fields))
    requires numberKey in fields && fields[numberKey] == JNumber(score)
    requires feedbackKey in fields && fields[feedbackKey] in {JString(feedback), JNull}
    requires fields[feedbackKey] == JNull ==> feedback == ""
    ensures ReadAssessment(p, Some(raw), numberKey, feedbackKey) == Success(Assessment(score, feedback))
  {
  }

  /** `EvaluateCVAsync(jobTitle, cvText)` over the table `store`. */
  function EvaluateCv(p: Providers, store: seq<DocumentVector>, jobTitle: string, cvText: string)
    : Result<Assessment>
  {
    match RetrieveSpec(store, jobTitle, CvSources, ContextSize, p.embedCv, p.tail)
    case Failure(e) => Failure(e)
    case Success(hits) =>
      match p.complete(CvRequest(jobTitle, Context(hits), cvText))
      case Failure(e) => Failure(e)
      case Success(reply) => ReadAssessment(p, reply, "cv_match_rate", "cv_feedback")
  }

  /** `EvaluateProjectAsync(jobTitle, projectText)` over the table `store`. */
  function EvaluateProject(p: Providers, store: seq<DocumentVector>, jobTitle: string, projectText: string)
    : Result<Assessment>
  {
    match RetrieveSpec(store, jobTitle, ProjectSources, ContextSize, p.embedProject, p.tail)
    case Failure(e) => Failure(e)
    case Success(hits) =>
      match p.complete(ProjectRequest(Context(hits), projectText))
      case Failure(e) => Failure(e)
      case Success(reply) => ReadAssessment(p, reply, "project_score", "project_feedback")
  }

  /** `SummarizeOverallAsync(cv, project)`: the reply trimmed, or `""` when it
      is `null`. */
  function SummarizeOverall(p: Providers, cv: Assessment, project: Assessment): Result<string> {
    match p.complete(SummaryRequest(cv, project, p.formatNumber))
    case Failure(e) => Failure(e)
    case Success(reply) => Success(if reply.Some? then Trim(reply.value) else "")
  }

  /** The summary keeps every visible character of the reply, in order, and
      has no white space at either end; a `null` reply gives `""`. */
  lemma SummaryIsTrimmedReply(p: Providers, cv: Assessment, project: Assessment)
    requires SummarizeOverall(p, cv, project).Success?
    ensures var reply := p.complete(SummaryRequest(cv, project, p.formatNumber)).value;
      var summary := SummarizeOverall(p, cv, project).value;
      && (reply.None? ==> summary == "")
      && (reply.Some? ==> NonWhiteSpace(summary) == NonWhiteSpace(reply.value))
      && (reply.Some? ==> (summary == "" <==> IsBlank(reply.value)))
      && (summary == [] || (!IsWhiteSpace(summary[0]) && !IsWhiteSpace(summary[|summary| - 1])))
  {
    var reply := p.complete(SummaryRequest(cv, project, p.formatNumber)).value;
    if reply.Some? {
      TrimKeepsNonWhiteSpace(reply.value);
    }
  }

  // ---------------------------------------------------------------------
  // The pipeline

  /** `EvaluationResultModel`. */
  datatype EvaluationResultModel = EvaluationResultModel(
    cvMatchRate: real,
    cvFeedback: string,
    projectScore: real,
    projectFeedback: string,
    overallSummary: string)

  /** The result `EvaluateAsync` returns in place of an exception. */
  function Degraded(message: string): EvaluationResultModel {
    EvaluationResultModel(0.0, "AI evaluation failed: " + message, 1.0,
      "Evaluation failed.", "Pipeline failed due to an exception.")
  }

  datatype Stage = CvStage | ProjectStage | SummaryStage

  /** One run of `EvaluateAsync`: the result and the stages that were
      started, in order. */
  datatype PipelineRun = PipelineRun(result: EvaluationResultModel, stages: seq<Stage>)

  /** The stages of `EvaluateAsync` chained: `cv` and `project` are what the
      CV and project stages give, and the project stage (like the summary)
      only starts when every stage before it succeeded. */
  function Chain(p: Providers, cv: Result<Assessment>, project: Result<Assessment>): PipelineRun {
    match cv
    case Failure(e) => PipelineRun(Degraded(e), [CvStage])
    case Success(cv) =>
      match project
      case Failure(e) => PipelineRun(Degraded(e), [CvStage, ProjectStage])
      case Success(project) =>
        match SummarizeOverall(p, cv, project)
        case Failure(e) => PipelineRun(Degraded(e), [CvStage, ProjectStage, SummaryStage])
        case Success(summary) =>
          PipelineRun(
            EvaluationResultModel(cv.score, cv.feedback, project.score, project.feedback, summary),
            [CvStage, ProjectStage, SummaryStage])
  }

  function RunPipeline(p: Providers, store: seq<DocumentVector>, jobTitle: string, cvText: string,
                       projectText: string): PipelineRun
  {
    Chain(p, EvaluateCv(p, store, jobTitle, cvText), EvaluateProject(p, store, jobTitle, projectText))
  }

  /** The stage order and the failure downgrade of `Chain`. */
  lemma ChainStages(p: Providers, cv: Result<Assessment>, project: Result<Assessment>)
    ensures var run := Chain(p, cv, project);
      && (run.stages == [CvStage] || run.stages == [CvStage, ProjectStage]
          || run.stages == [CvStage, ProjectStage, SummaryStage])
      && (ProjectStage in run.stages <==> cv.Success?)
      && (SummaryStage in run.stages <==> cv.Success? && project.Success?)
      && (cv.Failure? ==> run.result == Degraded(cv.error))
      && (cv.Success? && project.Failure? ==> run.result == Degraded(project.error))
      && (cv.Success? && project.Success? && SummarizeOverall(p, cv.value, project.value).Failure? ==>
            run.result == Degraded(SummarizeOverall(p, cv.value, project.value).error))
  {
  }

  /** `EvaluateAsync(jobTitle, cvText, projectText)`. It never raises. */
  function Evaluate(p: Providers, store: seq<DocumentVector>, jobTitle: string, cvText: string,
                    projectText: string): EvaluationResultModel
  {
    RunPipeline(p, store, jobTitle, cvText, projectText).result
  }

  /** When every stage succeeds, each field is its stage's value, unchanged. */
  lemma EvaluateAllSucceed(p: Providers, store: seq<DocumentVector>, jobTitle: string, cvText: string,
                           projectText: string)
    requires EvaluateCv(p, store, jobTitle, cvText).Success?
    requires EvaluateProject(p, store, jobTitle, projectText).Success?
    requires SummarizeOverall(p, EvaluateCv(p, store, jobTitle, cvText).value,
                              EvaluateProject(p, store, jobTitle, projectText).value).Success?
    ensures var cv := EvaluateCv(p, store, jobTitle, cvText).value;
      var project := EvaluateProject(p, store, jobTitle, projectText).value;
      var r := Evaluate(p, store, jobTitle, cvText, projectText);
      && r.cvMatchRate == cv.score && r.cvFeedback == cv.feedback
      && r.projectScore == project.score && r.projectFeedback == project.feedback
      && r.overallSummary == SummarizeOverall(p, cv, project).value
  {
  }

  /** The stages run in the order CV, project, summary, and a stage starts
      only when every stage before it succeeded. */
  lemma EvaluateStageOrder(p: Providers, store: seq<DocumentVector>, jobTitle: string, cvText: string,
                           projectText: string)
    ensures var stages := RunPipeline(p, store, jobTitle, cvText, projectText).stages;
      && (stages == [CvStage] || stages == [CvStage, ProjectStage]
          || stages == [CvStage, ProjectStage, SummaryStage])
      && (ProjectStage in stages <==> EvaluateCv(p, store, jobTitle, cvText).Success?)
      && (SummaryStage in stages <==>
            EvaluateCv(p, store, jobTitle, cvText).Success?
            && EvaluateProject(p, store, jobTitle, projectText).Success?)
  {
    ChainStages(p, EvaluateCv(p, store, jobTitle, cvText), EvaluateProject(p, store, jobTitle, projectText));
  }

  /** A failing stage turns into the degraded result carrying its message. */
  lemma EvaluateDegrades(p: Providers, store: seq<DocumentVector>, jobTitle: string, cvText: string,
                         projectText: string)
    ensures var cv := EvaluateCv(p, store, jobTitle, cvText);
      var project := EvaluateProject(p, store, jobTitle, projectText);
      var r := Evaluate(p, store, jobTitle, cvText, projectText);
      && (cv.Failure? ==> r == Degraded(cv.error))
      && (cv.Success? && project.Failure? ==> r == Degraded(project.error))
      && (cv.Success? && project.Success? && SummarizeOverall(p, cv.value, project.value).Failure? ==>
            r == Degraded(SummarizeOverall(p, cv.value, project.value).error))
  {
    ChainStages(p, EvaluateCv(p, store, jobTitle, cvText), EvaluateProject(p, store, jobTitle, projectText));
  }

  /** The CV stage asks the model about at most three chunks labelled
      `job_description` or `cv_rubric`, best first, joined with the
      separator; the project stage does the same with `case_study` and
      `project_rubric`. */
  lemma StageContexts(p: Providers, store: seq<DocumentVector>, jobTitle: string, sources: seq<string>,
                      api: EmbeddingApi)
    requires (sources == CvSources && api == p.embedCv) || (sources == ProjectSources && api == p.embedProject)
    requires CreateEmbedding(api, jobTitle).Success?
    ensures var hits := RetrieveSpec(store, jobTitle, sources, ContextSize, api, p.tail).value;
      && |hits| <= 3
      && |hits| == (if |Candidates(store, sources)| < 3 then |Candidates(store, sources)| else 3)
      && (forall h :: h in hits ==> h.doc in store && h.doc.source in sources)
      && SortedByScore(hits)
      && (forall i :: 0 <= i < |hits| ==>
            PlacedAt(Context(hits), JoinOffset(ContextSeparator, Texts(hits), i), hits[i].doc.text))
  {
    var hits := RetrieveSpec(store, jobTitle, sources, ContextSize, api, p.tail).value;
    RetrieveCount(store, jobTitle, sources, ContextSize, api, p.tail);
    RetrieveSelects(store, jobTitle, sources, ContextSize, api, p.tail);
    RetrieveSorted(store, jobTitle, sources, ContextSize, api, p.tail);
    ContextLayout(hits);
  }

  /** The context is the chunk texts, best first (`Texts(hits)[i]` is
      `hits[i].doc.text`): the `i`-th text starts after every earlier text
      and one separator per earlier text, the separator alone fills each gap
      between neighbours, and the context ends with the last text. No hits
      give an empty context. */
  lemma {:induction false} ContextLayout(hits: seq<Hit>)
    ensures |hits| == 0 ==> Context(hits) == ""
    ensures |hits| > 0 ==>
      |Context(hits)| == JoinOffset(ContextSeparator, Texts(hits), |hits| - 1) + |hits[|hits| - 1].doc.text|
    ensures forall i :: 0 <= i < |hits| ==>
      PlacedAt(Context(hits), JoinOffset(ContextSeparator, Texts(hits), i), hits[i].doc.text)
    ensures forall i :: 0 <= i < |hits| - 1 ==>
      JoinOffset(ContextSeparator, Texts(hits), i) + |hits[i].doc.text| + |ContextSeparator|
        == JoinOffset(ContextSeparator, Texts(hits), i + 1)
      && PlacedAt(Context(hits), JoinOffset(ContextSeparator, Texts(hits), i) + |hits[i].doc.text|, ContextSeparator)
  {
    var texts := Texts(hits);
    assert |texts| == |hits| && Context(hits) == Join(ContextSeparator, texts);
    if |hits| > 0 {
      assert texts[|hits| - 1] == hits[|hits| - 1].doc.text;
      JoinLength(ContextSeparator, texts);
    }
    forall i | 0 <= i < |hits|
      ensures PlacedAt(Context(hits), JoinOffset(ContextSeparator, texts, i), hits[i].doc.text)
    {
      assert texts[i] == hits[i].doc.text;
      JoinPlacesString(ContextSeparator, texts, i);
    }
    forall i | 0 <= i < |hits| - 1
      ensures JoinOffset(ContextSeparator, texts, i) + |hits[i].doc.text| + |ContextSeparator|
        == JoinOffset(ContextSeparator, texts, i + 1)
      ensures PlacedAt(Context(hits), JoinOffset(ContextSeparator, texts, i) + |hits[i].doc.text|, ContextSeparator)
    {
      assert texts[i] == hits[i].doc.text;
      JoinPlacesSeparator(ContextSeparator, texts, i);
    }
  }
}
