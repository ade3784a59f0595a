/** Answer evaluation with Gemini: the key check of `CandidateEvaluator.__init__`, the shaping of
    the model's reply in `evaluate_answer`, the fallback and error records, and the routing of
    `evaluate_candidate_answer` to the mock evaluator. The Gemini call is an input (`ApiReply`);
    `json.loads` is the parameter `parse`, `None` standing for a `JSONDecodeError`. */
module Evaluate {
  import opened Wrappers
  import opened Strings
  import opened Env
  import TextScan
  import MockEvaluation

  const KeyPlaceholder: string := "your_gemini_api_key_here"

  const KeyErrorMessage: string :=
    "GEMINI_API_KEY" + " not properly configured. " + "Please set a valid API key in your .env file. "
    + "Get your API key from: https://makersuite.google.com/app/apikey"

  /** A configured evaluator: the key it was built with. */
  datatype Evaluator = Evaluator(apiKey: string)

  /** `CandidateEvaluator()`: a missing, empty or placeholder key raises the key error; a
      failure of `genai.configure` (`configureError`) raises its own ValueError. */
  function InitEvaluator(env: Environment, configureError: Option<string>): (r: Result<Evaluator, string>)
    ensures var key := Get(env, "GEMINI_API_KEY");
      && (key.None? || key.value == "" || key.value == KeyPlaceholder ==> r == Err(KeyErrorMessage))
      && (key.Some? && key.value != "" && key.value != KeyPlaceholder ==>
            (configureError.Some? ==> r == Err("Failed to configure Gemini API: " + configureError.value))
            && (configureError.None? ==> r == Ok(Evaluator(key.value))))
  {
    var key := Get(env, "GEMINI_API_KEY");
    if key.None? || key.value == "" || key.value == KeyPlaceholder then Err(KeyErrorMessage)
    else match configureError
      case Some(e) => Err("Failed to configure Gemini API: " + e)
      case None => Ok(Evaluator(key.value))
  }

  /** The key error names the key, which is what routes it to the mock evaluator. */
  lemma KeyErrorNamesKey()
    ensures Contains(KeyErrorMessage, "GEMINI_API_KEY")
  {
    ContainsInfix("", "GEMINI_API_KEY", KeyErrorMessage[14..]);
    assert "" + "GEMINI_API_KEY" + KeyErrorMessage[14..] == KeyErrorMessage;
  }

  const DetailedKeys: set<string> := {
    "technical_accuracy", "relevance_to_question", "depth_of_understanding",
    "resume_alignment", "communication_clarity", "problem_solving_approach"
  }

  /** One evaluation dictionary with the six detailed scores. */
  datatype ScoreRecord = ScoreRecord(
    overall: int, detailed: map<string, int>, feedback: string, strengths: string,
    areasForImprovement: string, resumeInsights: string, error: bool)

  /** Every key of `DetailedKeys` with the same score. */
  function Uniform(score: int): (m: map<string, int>)
    ensures m.Keys == DetailedKeys
    ensures forall k :: k in m ==> m[k] == score
  {
    map k | k in DetailedKeys :: score
  }

  /** `create_fallback_evaluation`: the middle score 6 everywhere, the raw reply as feedback. */
  function FallbackRecord(text: string): (r: ScoreRecord)
    ensures r.overall == 6 && r.feedback == text && !r.error
    ensures r.detailed.Keys == DetailedKeys && forall k :: k in r.detailed ==> r.detailed[k] == 6
  {
    ScoreRecord(6, Uniform(6), text, "Evaluation completed successfully",
                "Please review the detailed feedback", "Resume analysis included in evaluation", false)
  }

  /** `create_error_response`: zero everywhere, flagged, and the message after
      "Evaluation failed: ". */
  function ErrorRecord(message: string): (r: ScoreRecord)
    ensures r.overall == 0 && r.error && r.feedback == "Evaluation failed: " + message
    ensures r.detailed.Keys == DetailedKeys && forall k :: k in r.detailed ==> r.detailed[k] == 0
  {
    ScoreRecord(0, Uniform(0), "Evaluation failed: " + message, "Unable to evaluate due to error",
                "Please try again or contact support", "Resume analysis could not be completed", true)
  }

  /** The fallback and the error record have the same six detailed keys, and cannot be mistaken
      for each other. */
  lemma {:induction false} RecordsShareKeys(text: string, message: string)
    ensures FallbackRecord(text).detailed.Keys == ErrorRecord(message).detailed.Keys
    ensures FallbackRecord(text) != ErrorRecord(message)
    ensures |DetailedKeys| == 6
  {
    var s: set<string> := {"technical_accuracy"};
    assert "relevance_to_question" !in s;
    s := s + {"relevance_to_question"};
    assert "depth_of_understanding" !in s;
    s := s + {"depth_of_understanding"};
    assert "resume_alignment" !in s;
    s := s + {"resume_alignment"};
    assert "communication_clarity" !in s;
    s := s + {"communication_clarity"};
    assert "problem_solving_approach" !in s;
    s := s + {"problem_solving_approach"};
    assert s == DetailedKeys;
  }

  /** The resume text for the prompt: the extracted text, or a fixed note when none came out. */
  function ResumeText(extracted: string): (r: string)
    ensures r != ""
    ensures extracted != "" ==> r == extracted
  {
    if extracted == "" then "Resume content could not be extracted" else extracted
  }

  /** What `generate_content` gave: no response or one without text, the reply text, or a
      raised error. */
  datatype ApiReply = NoText | Reply(text: string) | Raised(error: string)

  /** What `evaluate_answer` and `evaluate_candidate_answer` return: the parsed JSON of the
      reply, a score record, the mock evaluation, or `{overall_score: 0, error: True, message}`. */
  datatype Evaluation<J> =
    | Parsed(json: J)
    | Scored(record: ScoreRecord)
    | Mocked(mock: MockEvaluation.MockResult)
    | Failed(message: string)

  /** The failure text of an API call that produced no usable reply. */
  function ApiFailure(reply: ApiReply): (m: Option<string>)
    ensures m.None? <==> reply.Reply? && reply.text != ""
  {
    match reply
    case NoText => Some("Invalid response from Gemini API")
    case Raised(e) => Some(e)
    case Reply(t) => if t == "" then Some("Empty response from Gemini API") else None
  }

  /** `evaluate_answer` once the prompt has been sent: an unusable reply gives the error record;
      otherwise the greedy `{...}` span of the reply is parsed, and the fallback record holds the
      raw reply when there is no span or it does not parse. */
  function EvaluateReply<J>(reply: ApiReply, parse: string -> Option<J>): (r: Evaluation<J>)
    ensures ApiFailure(reply).Some? ==>
              r == Scored(ErrorRecord("Gemini API call failed: " + ApiFailure(reply).value + ". "
                                      + "Please check your API key and internet connection."))
    ensures ApiFailure(reply).None? ==>
              var span := TextScan.BraceText(reply.text);
              && (span.Some? && parse(span.value).Some? ==> r == Parsed(parse(span.value).value))
              && (span.None? || parse(span.value).None? ==> r == Scored(FallbackRecord(reply.text)))
  {
    match ApiFailure(reply)
    case Some(m) =>
      Scored(ErrorRecord("Gemini API call failed: " + m + ". " + "Please check your API key and internet connection."))
    case None =>
      match TextScan.BraceText(reply.text)
      case None => Scored(FallbackRecord(reply.text))
      case Some(span) =>
        match parse(span)
        case Some(j) => Parsed(j)
        case None => Scored(FallbackRecord(reply.text))
  }

  /** A reply that is a JSON object from its first to its last character is parsed whole, and one
      without any `{`...`}` pair falls back to the raw text. */
  lemma {:induction false} WholeObjectReply<J>(text: string, parse: string -> Option<J>)
    ensures |text| >= 2 && text[0] == '{' && text[|text| - 1] == '}' && parse(text).Some? ==>
              EvaluateReply(Reply(text), parse) == Parsed(parse(text).value)
    ensures text != "" && (forall i, j :: 0 <= i < j < |text| ==> !(text[i] == '{' && text[j] == '}')) ==>
              EvaluateReply(Reply(text), parse) == Scored(FallbackRecord(text))
  {
    if |text| >= 2 && text[0] == '{' && text[|text| - 1] == '}' {
      TextScan.BraceTextWhole(text);
    }
  }

  /** The reply to an empty or missing response text is the error record, never a score. */
  lemma EmptyReplyIsError<J>(parse: string -> Option<J>)
    ensures EvaluateReply(Reply(""), parse).Scored? && EvaluateReply(Reply(""), parse).record.error
    ensures EvaluateReply(NoText, parse).Scored? && EvaluateReply(NoText, parse).record.overall == 0
  {
  }

  const MockUnavailableMessage: string :=
    "GEMINI_API_KEY" + " not configured and mock evaluation not available. Please set up your API key."

  /** `evaluate_candidate_answer`: evaluate with Gemini, or on a ValueError that names
      `GEMINI_API_KEY` use the mock evaluator (`mockAvailable` says whether its import works);
      any other failure becomes `{overall_score: 0, error: True, message}`. */
  function EvaluateCandidateAnswer<J>(env: Environment, configureError: Option<string>, question: string,
                                      answer: string, reply: ApiReply, parse: string -> Option<J>,
                                      mockAvailable: bool): (r: Evaluation<J>)
    ensures InitEvaluator(env, configureError).Ok? ==> r == EvaluateReply(reply, parse)
    ensures InitEvaluator(env, configureError).Err? ==>
              var msg := InitEvaluator(env, configureError).error;
              && (Contains(msg, "GEMINI_API_KEY") && mockAvailable ==> r == Mocked(MockEvaluation.Evaluate(question, answer)))
              && (Contains(msg, "GEMINI_API_KEY") && !mockAvailable ==> r == Failed(MockUnavailableMessage))
              && (!Contains(msg, "GEMINI_API_KEY") ==> r == Failed(msg))
  {
    match InitEvaluator(env, configureError)
    case Ok(_) => EvaluateReply(reply, parse)
    case Err(msg) =>
      if Contains(msg, "GEMINI_API_KEY") then
        if mockAvailable then Mocked(MockEvaluation.Evaluate(question, answer)) else Failed(MockUnavailableMessage)
      else Failed(msg)
  }

  /** A missing or placeholder key always ends in the mock evaluation, marked as mock, whatever
      Gemini would have replied. */
  lemma {:induction false} MissingKeyUsesMock<J>(env: Environment, configureError: Option<string>, question: string,
                                                 answer: string, reply: ApiReply, parse: string -> Option<J>)
    requires "GEMINI_API_KEY" !in env || env["GEMINI_API_KEY"] == "" || env["GEMINI_API_KEY"] == KeyPlaceholder
    ensures var r := EvaluateCandidateAnswer(env, configureError, question, answer, reply, parse, true);
      r.Mocked? && r.mock.isMock && r.mock == MockEvaluation.Evaluate(question, answer)
  {
    MissingKeyFailsInit(env, configureError);
    KeyErrorNamesKey();
    var m := MockEvaluation.Evaluate(question, answer);
    assert EvaluateCandidateAnswer(env, configureError, question, answer, reply, parse, true) == Mocked(m);
  }

  /** A missing or placeholder key fails the evaluator's construction with the key error. */
  lemma MissingKeyFailsInit(env: Environment, configureError: Option<string>)
    requires "GEMINI_API_KEY" !in env || env["GEMINI_API_KEY"] == "" || env["GEMINI_API_KEY"] == KeyPlaceholder
    ensures InitEvaluator(env, configureError) == Err(KeyErrorMessage)
  {
  }

  /** With a usable key, a configuration failure is reported as a failure with its text, unless
      that text names the key, in which case it goes to the mock evaluator. */
  lemma {:induction false} ConfigureFailureRouting<J>(env: Environment, e: string, question: string, answer: string,
                                                      reply: ApiReply, parse: string -> Option<J>)
    requires "GEMINI_API_KEY" in env && env["GEMINI_API_KEY"] != "" && env["GEMINI_API_KEY"] != KeyPlaceholder
    ensures !Contains(e, "GEMINI_API_KEY") ==>
              EvaluateCandidateAnswer(env, Some(e), question, answer, reply, parse, true) ==
              Failed("Failed to configure Gemini API: " + e)
    ensures Contains(e, "GEMINI_API_KEY") ==>
              EvaluateCandidateAnswer(env, Some(e), question, answer, reply, parse, true) ==
              Mocked(MockEvaluation.Evaluate(question, answer))
  {
    var prefix := "Failed to configure Gemini API: ";
    assert InitEvaluator(env, Some(e)) == Err(prefix + e);
    if Contains(e, "GEMINI_API_KEY") {
      ContainsAppendLeft(prefix, e, "GEMINI_API_KEY");
    } else {
      assert 'E' !in prefix;
      NotContainsAcross(prefix, e, "GEMINI_API_KEY");
    }
  }
}
