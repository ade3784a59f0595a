# HireIQ backend rules in Dafny

HireIQ is a recruiting backend. Recruiters sign in with Google, create candidates and send
them an invitation with a candidate id. Candidates upload a PDF resume and answer interview
questions, which are generated from topics and answered by voice. The answers are scored by
Gemini, or by a mock scorer when no key is configured. Around that glue sit many small rules
that can be stated exactly, and this project models them and proves what they promise.

The model is split into one module per source file:

- `GoogleAuth` (`google_auth.dfy`): the rules of the `google_auth` sign-in view. The token must
  have three dot-separated parts, as in the JWS compact serialisation (section 3.1 of RFC 7515).
  The payload's base64url padding is restored (section 5 of RFC 4648; section 2 of RFC 7515 lets
  the padding be left out). The claims must hold an email. A display name is split into a first
  and a last name. Known users are refreshed and new users are created, in a `UserDirectory` class.
- `Candidates` (`candidates.dfy`): the `Candidate` document and `Candidate.save`. A save stamps
  the update time, fills an empty id, validates the document and respects the two unique
  fields. The lookups by id, by email and by active id are here too. The `candidates` collection
  is a `CandidateStore` class whose invariant is the database's uniqueness.
- `Serializers` (`serializers.dfy`): the candidate representation, `has_resume`, and `create`
  and `update`.
- `CandidateViews` (`candidate_views.dfy`): the candidate endpoints, namely listing, creation,
  id validation, resume upload (its checks in their order, then the record update) and resume
  download (its defaults).
- `GridFsLookup` (`gridfs_lookup.dfy`): finding a resume first in the binary field, then in GridFS.
- `MockEvaluation` (`mock_evaluation.dfy`): the mock scorer, kept exact by counting in tenths.
- `Evaluate` (`evaluate.dfy`):
  - the Gemini key check;
  - the shaping of the reply (the greedy `{...}` span, the fallback record and the error record);
  - the routing of key errors to the mock scorer.
- `Questions` (`questions.dfy`):
  - parsing the topic list line by line;
  - the default hot topics and the JSON fallback of the merge step;
  - flattening categories into topics and sampling them;
  - the one question per topic;
  - the key checks of `get_questions`.
- `VoiceToText` (`voice_to_text.dfy`):
  - the choice of transcription service;
  - the deterministic mock answer;
  - the Google transcript assembly;
  - the Gemini error classification.
- `MigrateInterview` (`migrate_interview.dfy`): the interview-state migration over every stored
  candidate, on the schema the script assumes. On the declared `Candidate` document the script
  aborts at the first candidate, which is modelled too.
- `Cleanup` (`cleanup.dfy`): the `cleanup_candidates` command. It groups candidates by
  recruiter and, on request, deletes them all with a count.
- `Settings` (`settings.dfy`): the production settings. These cover the flags, the HSTS
  default, `ALLOWED_HOSTS` and the CORS and CSRF origin lists.
- `MongoDbUtils` (`mongodb_utils.dfy`): the checks on the Mongo URL and the substitution of the
  password placeholder in it.
- `Health` (`health.dfy`): the health-check status and HTTP code.
- `Middleware` (`middleware.dfy`): the `/api/` CSRF exemption, made on a mutable `Request` object.
- `ConfigHelper` (`config_helper.dfy`): generating the secret key from a supplied sequence of
  draws, and the `SECRET_KEY=` line.

The shared helpers are:

- `Wrappers`: `Option` and `Result`.
- `Env`: the environment as a map.
- `Http`: the status codes.
- `Strings`: Python's `split`, `join`, `strip`, `lower`, `replace`, `int` and `str` on strings.
- `TextScan`: the greedy `\{.*\}` search with `re.DOTALL`.

Things the program gets from outside become inputs to the model:

- the clock becomes `now`;
- `uuid4` and new ObjectIds become fresh-id parameters;
- `random` and `secrets` draws become index sequences;
- every reply from Gemini, Groq, Perplexity and Google Speech becomes an outcome datatype;
- `json.loads` and `base64` decoding become function parameters.

## Model

| member | source | states |
|---|---|---|
| TextScan.BraceSpan | backend/candidates/ml_models/evaluate.py:178 | The match of `\{.*\}` under DOTALL runs from the first '{' to the last '}' after it. There is no match exactly when no '{' comes before a '}'. |
| TextScan.BraceText | backend/candidates/ml_models/questions.py:128-129 | The matched text starts with '{' and ends with '}'. It exists exactly when some '{' precedes some '}'. |
| TextScan.BraceTextWhole | backend/candidates/ml_models/questions.py:128-131 | A text that starts with '{' and ends with '}' is matched whole. |
| GoogleAuth.ThreePartsIffTwoDots | backend/authentication/views.py:32-35 | A token has the three parts the view demands exactly when it holds two dots. |
| GoogleAuth.AddPadding | backend/authentication/views.py:40-42 | The padded payload is the payload followed by fewer than four '='. Its length is a multiple of four. |
| GoogleAuth.AddPaddingAligned | backend/authentication/views.py:40-42 | A payload whose length is already a multiple of four is left unchanged. |
| GoogleAuth.StripThenPadRestores | backend/authentication/views.py:40-45 | A base64url part with its trailing '=' stripped and then re-padded is the original part (section 5 of RFC 4648). |
| GoogleAuth.PaddedPayload | backend/authentication/views.py:32-42 | A token that does not split into three parts is the "Invalid token format" error. Otherwise the result is exactly the second part with its padding added, a multiple of four long. |
| GoogleAuth.NameParts | backend/authentication/views.py:67-68 | The first name holds no space. For a name with a space, first + " " + last is the name. A one-word name is the first name, with an empty last name. |
| GoogleAuth.NewUser | backend/authentication/views.py:63-70 | A created user has the email as its username. Its first and last names recompose the token's name. |
| GoogleAuth.Refreshed | backend/authentication/views.py:75-78 | An existing user's names change only when the token's name is non-empty. A one-word name keeps the old last name. Nothing else about the user changes. |
| GoogleAuth.DisplayName | backend/authentication/views.py:90 | The reply name is the stripped "first last", and exactly the email when that stripped text is empty. So it is never empty while the email is set. |
| GoogleAuth.DisplayNameOfNewUser | backend/authentication/views.py:67-90 | For a new user, the displayed name is exactly the token's name when that name has no surrounding blanks. |
| GoogleAuth.ReadClaims | backend/authentication/views.py:17-107 | Every failure is a 400 with an error body, each with its message: "Invalid JSON", "Token is required", "Invalid Google token: Invalid token format", "Invalid Google token: " plus the decoding error, and "Email not found in token" for a missing or empty email. Otherwise the result is the decoded email and name. |
| GoogleAuth.StoreKeepsValid | backend/authentication/views.py:62-78 | Filing a refreshed or new user under its email keeps the users table well formed: emails are keys and ids are distinct. |
| GoogleAuth.UserDirectory.SignIn | backend/authentication/views.py:16-92 | A rejected request changes no user. An accepted one refreshes the known user or creates a new one with the next id. It replies 200 with the id, the email and the display name. |
| Candidates.Defaults | backend/candidates/models.py:7-17 | A new document is active, has content type 'application/pdf', a fresh candidate id and both timestamps at now. |
| Candidates.Stamp | backend/candidates/models.py:32-35 | A save sets `updated_at` to now. It keeps a non-empty candidate id and gives an empty one the fresh uuid. Nothing else changes. |
| Candidates.Validate | backend/candidates/models.py:7-17 | A document is valid exactly when the email is set and every declared maximum length holds. |
| Candidates.Upsert | backend/candidates/models.py:36 | Writing replaces the document with the same ObjectId, or appends a new one. |
| Candidates.SavedStamps | backend/candidates/models.py:32-36 | A failed save changes nothing. A successful save writes the stamped document. Its candidate id is non-empty and is kept when it was set. |
| Candidates.SavedFails | backend/candidates/models.py:7-36 | A save fails exactly when validation fails or another document holds the id or the email. |
| Candidates.UpsertKeepsInv | backend/candidates/models.py:7-8 | Writing a valid document whose unique keys are free keeps the collection's uniqueness. Every other document is kept. |
| Candidates.SavedKeepsInv | backend/candidates/models.py:7-8 | A save never breaks the uniqueness of ObjectIds, candidate ids and emails. |
| Candidates.FirstWhere | backend/candidates/gridfs_models.py:232-235 | `first()` of a filter: None exactly when no document satisfies the filter, and otherwise one that does and is in the collection. |
| Candidates.FirstWhereUnique | backend/candidates/models.py:41-48 | When exactly one document satisfies the filter, that document is the one found. |
| Candidates.GetById | backend/candidates/models.py:45-50 | None exactly when no document has the id, and otherwise a document with that id. |
| Candidates.GetByEmail | backend/candidates/models.py:38-43 | None exactly when no document has the email, and otherwise a document with that email. |
| Candidates.GetActive | backend/candidates/views.py:152 | None exactly when no active document has the id, and otherwise an active document with that id. |
| Candidates.GetFindsTheMatch | backend/candidates/models.py:38-50 | In a collection that respects uniqueness, each lookup finds the one stored document with the key. The active lookup finds it exactly when it is active. |
| Candidates.CandidateStore.Save | backend/candidates/models.py:32-36 | `Candidate.save()` on the collection: the result and the new collection are those of a save. The uniqueness invariant is kept. |
| Candidates.CandidateStore.Delete | backend/candidates/management/commands/cleanup_candidates.py:60 | `candidate.delete()` removes the document with that ObjectId and keeps the invariant. |
| Candidates.Without | backend/candidates/management/commands/cleanup_candidates.py:60 | The remaining documents are exactly those with another ObjectId. |
| Candidates.WithoutKeepsInv | backend/candidates/management/commands/cleanup_candidates.py:60 | Deleting keeps the collection's uniqueness. |
| Serializers.HasResume | backend/candidates/serializers.py:17-18 | `has_resume` is true exactly when the resume data is non-empty. |
| Serializers.Representation | backend/candidates/serializers.py:33-48 | No instance gives None. An instance gives exactly the eleven keys, 'id' being the ObjectId's string and `has_resume` being true when there is data. |
| Serializers.RepresentationSize | backend/candidates/serializers.py:36-48 | The representation has eleven entries. |
| Serializers.Assign | backend/candidates/serializers.py:29 | `setattr` gives the named attribute its value and leaves every other attribute as it was. |
| Serializers.ApplyAllEffect | backend/candidates/serializers.py:27-31 | After the items of validated data are assigned, each given attribute holds its value and the others are unchanged. |
| Serializers.AssignAll | backend/candidates/serializers.py:28-29 | The assignment loop yields the instance with all items applied in order. |
| Serializers.WithCreator | backend/candidates/serializers.py:22 | The data then names the requesting user as creator and keeps every other item. Its keys stay distinct. |
| Serializers.CreatedByRequester | backend/candidates/serializers.py:20-25 | A created candidate's creator is the string of the requesting user's id, whatever creator the data named. Its other given attributes hold their values. |
| Serializers.UpdateChangesOnlyGiven | backend/candidates/serializers.py:27-31 | A successful update writes the instance with exactly the given attributes changed. It also gets a new update time, and its ObjectId and id are kept. |
| Serializers.Create | backend/candidates/serializers.py:53-57 | `create` saves the candidate built from the data with the requester as creator. |
| Serializers.ConstructFields | backend/candidates/serializers.py:20-25 | The built candidate, before its save, has the requester as creator, the fresh id, the creation time, no resume and the PDF content type. It has the data's email, and the data's active flag or else active. |
| Serializers.Update | backend/candidates/serializers.py:27-31 | `update` saves the instance with the items applied. |
| Serializers.KeepsIdentity | backend/candidates/serializers.py:27-31 | Assignments never touch the ObjectId or the candidate id. |
| CandidateViews.ListForUser | backend/candidates/views.py:23-34 | The list holds exactly the representations of the requester's candidates. |
| CandidateViews.ListForUserInOrder | backend/candidates/views.py:23-34 | The list keeps collection order: the list of two consecutive stretches is the first stretch's list followed by the second's. |
| CandidateViews.RepsOf | backend/candidates/views.py:29-30 | The i-th entry is the representation of the i-th candidate, for every i. |
| CandidateViews.RepsOfMembers | backend/candidates/views.py:29-30 | Every candidate's representation is listed, and nothing else is. |
| CandidateViews.Owned | backend/candidates/views.py:26 | The filtered candidates are exactly those created by that user. |
| CandidateViews.OwnedAppend | backend/candidates/views.py:26 | The filter keeps order: it distributes over concatenation, and keeps a single candidate exactly when its creator matches. |
| CandidateViews.CreateResponse | backend/candidates/views.py:74-87 | A saved candidate gives 201 with its representation. A validation error gives 400 and a unique-key rejection gives 500. |
| CandidateViews.InvitationCarriesId | backend/candidates/views.py:47-69 | The invitation has the subject "Your HireIQ Candidate ID", goes to the candidate's email alone, and its message carries the candidate id. |
| CandidateViews.CreateCandidate | backend/candidates/views.py:41-88 | The email is stripped. A blank email, or one the address check refuses, gives 400 with the form errors, stores nothing and sends no mail. Otherwise the candidate built with the stripped email for the requester is saved, and the reply follows from the save. The invitation is attempted exactly when the save succeeds, and the reply does not depend on its delivery. |
| CandidateViews.ValidateCandidateId | backend/candidates/views.py:92-111 | A missing id gives 400. An active match gives 200 with valid=True. Otherwise the reply is 404 with valid=False. |
| CandidateViews.ValidateStoredId | backend/candidates/views.py:101-111 | A stored candidate's id validates exactly when the candidate is active. |
| CandidateViews.CheckUpload | backend/candidates/views.py:124-148 | The checks come in order: the id, the file, the '.pdf' suffix in any case, then the 10 MiB limit. Each failure has its message. |
| CandidateViews.PdfSuffixAndSizeBoundary | backend/candidates/views.py:137-148 | ".pdf" is accepted in any case. A file of exactly 10485760 bytes passes and one byte more fails. |
| CandidateViews.WithResume | backend/candidates/views.py:158-161 | An upload sets exactly the filename, the data, 'application/pdf' and the size as a decimal string. |
| CandidateViews.NoClashForSameKeys | backend/candidates/views.py:162 | A stored candidate with changed resume fields clashes with no other document. |
| CandidateViews.UploadEffect | backend/candidates/views.py:150-181 | A rejection gives 400 or 404 and changes nothing. An accepted upload writes the resume fields and the save time on that one active candidate and gives 200. Every other document is unchanged. A file name over 255 characters fails validation with 500. |
| CandidateViews.UploadToActive | backend/candidates/views.py:150-181 | For an accepted upload to an active candidate, a file name over 255 characters gives 500 and changes nothing. Otherwise the reply is 200 with the updated representation, and exactly the documents with that id are replaced by the stamped update. |
| CandidateViews.OidMatchesId | backend/candidates/models.py:7 | In a well-formed collection, two documents share an ObjectId exactly when they share a candidate id. |
| CandidateViews.UploadResume | backend/candidates/views.py:120-181 | The view's reply and the collection afterwards are those of the upload rule. |
| CandidateViews.DownloadResume | backend/candidates/views.py:185-213 | An unknown or inactive id gives 404, and so does an empty resume. Otherwise the reply is 200 with the bytes. An empty content type, filename or size falls back to 'application/pdf', "{id}_resume.pdf" and the data length. |
| CandidateViews.DownloadAfterUpload | backend/candidates/views.py:190-205 | Downloading right after a successful upload returns the uploaded bytes, with the uploaded name, the PDF type and the uploaded size. |
| GridFsLookup.FirstActiveGridFs | backend/candidates/gridfs_models.py:232-235 | None exactly when no active GridFS record has the id, and otherwise an active one with it. |
| GridFsLookup.BinaryFieldFirst | backend/candidates/gridfs_models.py:222-228 | An active candidate with resume bytes yields those bytes, whatever GridFS holds. It is reported as binary-field storage. |
| GridFsLookup.GridFsSecond | backend/candidates/gridfs_models.py:232-246 | Without binary bytes, the first active GridFS record with a file id decides. Without such a record the result is None and no resume. |
| GridFsLookup.InactiveIgnored | backend/candidates/gridfs_models.py:222-235 | Inactive records are never considered in either collection. |
| GridFsLookup.ContentImpliesInfo | backend/candidates/gridfs_models.py:222-302 | Content is found only where the info reports a resume, and binary content is reported as binary storage. |
| GridFsLookup.MissingFileReportedAnyway | backend/candidates/gridfs_models.py:237-295 | Without binary bytes, a first active GridFS record whose file cannot be fetched gives no content, yet the info reports that record's file name, size and type as a GridFS resume. |
| MockEvaluation.BaseScore | backend/candidates/mock_evaluation.py:12-21 | The base score is 3 below 20 characters, 8 from 100 characters, and 6 otherwise. |
| MockEvaluation.CountPresent | backend/candidates/mock_evaluation.py:30 | The count of keywords found is at most the number of keywords. |
| MockEvaluation.KeywordCount | backend/candidates/mock_evaluation.py:24-30 | The count of the fifteen keywords found in the lower-cased answer is at most 15. |
| MockEvaluation.BonusTenths | backend/candidates/mock_evaluation.py:31 | The bonus in tenths is min(20, 2k). |
| MockEvaluation.ScoreTenthsExact | backend/candidates/mock_evaluation.py:31-33 | The tenths divided by 10 are exactly `min(10, base + min(2, 0.2·k))` over the reals. |
| MockEvaluation.ScoreBounds | backend/candidates/mock_evaluation.py:31-33 | The score lies in [3, 10] and the bonus adds at most two points. More keywords never lower the score. |
| MockEvaluation.KeywordCountIgnoresCase | backend/candidates/mock_evaluation.py:30 | The keyword count ignores case. |
| MockEvaluation.Evaluate | backend/candidates/mock_evaluation.py:5-51 | The result is marked mock with the reason "GEMINI_API_KEY not configured". The score follows from the stripped length and the keyword count, and the strengths text names the count. |
| MockEvaluation.EvaluateDependsOnLengthAndKeywords | backend/candidates/mock_evaluation.py:12-33 | Answers with the same stripped length and keyword count get the same evaluation, whatever the question. |
| Evaluate.InitEvaluator | backend/candidates/ml_models/evaluate.py:16-31 | A missing, empty or placeholder key raises the key error. A configuration failure raises its own error. Otherwise the evaluator holds the key. |
| Evaluate.MissingKeyFailsInit | backend/candidates/ml_models/evaluate.py:20-24 | A missing, empty or placeholder key fails the construction with the key error, whatever the configuration would do. |
| Evaluate.KeyErrorNamesKey | backend/candidates/ml_models/evaluate.py:20-24 | The key error's message contains "GEMINI_API_KEY". |
| Evaluate.Uniform | backend/candidates/ml_models/evaluate.py:205-212 | Exactly the six detailed keys, all with the same score. |
| Evaluate.FallbackRecord | backend/candidates/ml_models/evaluate.py:203-217 | Overall and detailed scores are all 6, and the feedback is the raw text. |
| Evaluate.ErrorRecord | backend/candidates/ml_models/evaluate.py:229-244 | All scores are 0, `error` is set, and the feedback is "Evaluation failed: " plus the message. |
| Evaluate.RecordsShareKeys | backend/candidates/ml_models/evaluate.py:205-238 | The fallback and error records have the same six detailed keys and are never equal. |
| Evaluate.ResumeText | backend/candidates/ml_models/evaluate.py:144-147 | The resume text is never empty, and is the extracted text when there is one. |
| Evaluate.ApiFailure | backend/candidates/ml_models/evaluate.py:154-164 | A reply is usable exactly when it has a non-empty text. |
| Evaluate.EvaluateReply | backend/candidates/ml_models/evaluate.py:153-187 | An unusable reply gives the error record. A parsable span gives the parsed JSON. No span, or a span that does not parse, gives the fallback record with the raw reply. |
| Evaluate.WholeObjectReply | backend/candidates/ml_models/evaluate.py:178-187 | A reply that is one JSON object is parsed whole. A reply without any '{'…'}' falls back to the raw text. |
| Evaluate.EmptyReplyIsError | backend/candidates/ml_models/evaluate.py:163-171 | An empty or missing response text yields the error record, with score 0. |
| Evaluate.EvaluateCandidateAnswer | backend/candidates/ml_models/evaluate.py:261-294 | A working evaluator evaluates the reply. An error naming GEMINI_API_KEY goes to the mock scorer, or to the no-mock message when the mock is unavailable. Any other error gives `{overall_score: 0, error, message}`. |
| Evaluate.MissingKeyUsesMock | backend/candidates/ml_models/evaluate.py:264-274 | A missing or placeholder key always ends in the mock evaluation, whatever Gemini would reply. |
| Evaluate.ConfigureFailureRouting | backend/candidates/ml_models/evaluate.py:281-287 | With a usable key, a configuration failure whose text does not contain "GEMINI_API_KEY" is reported as a failure with "Failed to configure Gemini API: " and that text. One whose text contains it goes to the mock scorer. |
| Questions.KeepIf | backend/candidates/ml_models/questions.py:64 | The filter keeps at most as many lines as it is given. |
| Questions.KeepIfMembers | backend/candidates/ml_models/questions.py:64 | A line is kept exactly when it is one of the lines and passes the test. |
| Questions.KeepIfAppend | backend/candidates/ml_models/questions.py:64 | The filter keeps order: it distributes over concatenation, and keeps a single line exactly when it passes. |
| Questions.StripEach | backend/candidates/ml_models/questions.py:64 | The i-th result is the i-th line with bullets and blanks stripped from both ends. |
| Questions.KeepMap | backend/candidates/ml_models/questions.py:64 | The one-pass comprehension gives at most as many results as lines. |
| Questions.MapEach | backend/candidates/ml_models/questions.py:64 | The i-th result is the function applied to the i-th line. |
| Questions.KeepMapOfKeepIf | backend/candidates/ml_models/questions.py:64 | The comprehension `[f(t) for t in lines if keep(t)]` is the filter followed by the map. |
| Questions.CleanLinesOfNonBlank | backend/candidates/ml_models/questions.py:64 | The cleaned topics are exactly the non-blank lines, in order, each stripped of bullets and blanks. |
| Questions.CleanLinesHasLine | backend/candidates/ml_models/questions.py:64 | Every non-blank line contributes its stripped text as a topic. |
| Questions.ParseTopics | backend/candidates/ml_models/questions.py:64 | There are exactly as many topics as non-blank lines, at most one more than the line breaks. The i-th topic is the i-th non-blank line stripped of bullets and blanks. |
| Questions.StripBulletsCleaned | backend/candidates/ml_models/questions.py:64 | A stripped line has no bullet at either end and holds only the line's characters. |
| Questions.CleanLinesShape | backend/candidates/ml_models/questions.py:64 | Every cleaned topic has no bullet at either end. |
| Questions.TopicShape | backend/candidates/ml_models/questions.py:64 | Each topic is empty or has no bullet at either end, and holds no line break. A non-blank line made only of '-', '•' and spaces puts the empty topic in the list. |
| Questions.GetInterviewTopics | backend/candidates/ml_models/questions.py:36-68 | A missing PERPLEXITY_API_KEY is the error, before any request. A reply with content gives the parsed topics. An unexpected reply returns the raw data. |
| Questions.MergePromptInputs | backend/candidates/ml_models/questions.py:78-97 | A given recruiter prompt is used as is, and a missing one is the stripped generated text. The topics line joins the given hot topics, or the five defaults, with ", ". |
| Questions.DefaultTopicsLine | backend/candidates/ml_models/questions.py:78-79 | The default topics line is "Arrays, Graphs, Dynamic Programming, Linked List, Hashing". |
| Questions.MergeReply | backend/candidates/ml_models/questions.py:122-134 | The whole reply is parsed first, then the greedy '{'…'}' span. Otherwise the result is `{"raw_output": reply}`. |
| Questions.MergeReplyEmbedded | backend/candidates/ml_models/questions.py:128-131 | An object embedded in text without other braces is found and parsed, when the whole reply is not JSON. |
| Questions.Contribution | backend/candidates/ml_models/questions.py:180 | `extend` with a list adds its topics, and `extend` with a string adds its characters one by one. |
| Questions.AllTopicsMembers | backend/candidates/ml_models/questions.py:178-180 | A topic is collected exactly when some category contributes it. The count is the sum of the contributions. |
| Questions.RawOutputTopicsAreCharacters | backend/candidates/ml_models/questions.py:133 | A `raw_output` fallback contributes the reply's single characters as topics. |
| Questions.FlattenTopics | backend/candidates/ml_models/questions.py:178-180 | The loop collects every category's topics in order. |
| Questions.QuestionText | backend/candidates/ml_models/questions.py:238-241 | A question is the stripped reply, or "Could not generate question for topic: " plus the topic when the call fails. |
| Questions.QuestionMap | backend/candidates/ml_models/questions.py:184-187 | The keys are exactly the selected topics, and each holds its topic's question. |
| Questions.QuestionMapStep | backend/candidates/ml_models/questions.py:185-187 | One more selected topic adds or overwrites that topic's entry. |
| Questions.QuestionCount | backend/candidates/ml_models/questions.py:184-189 | There are at most as many questions as selected topics, and exactly as many when those are distinct. |
| Questions.Sample | backend/candidates/ml_models/questions.py:182 | A sample of size k holds k collected topics. |
| Questions.GenerateQuestionsBounds | backend/candidates/ml_models/questions.py:182-189 | A negative count is the `random.sample` error. Otherwise there are at most min(num_questions, number of topics) questions, each keyed by a collected topic and holding its question. |
| Questions.GenerateQuestionsDistinct | backend/candidates/ml_models/questions.py:182-189 | With distinct topics there are exactly min(num_questions, number of topics) questions. |
| Questions.GenerateQuestions | backend/candidates/ml_models/questions.py:177-189 | The method's loops compute the questions of the specification. |
| Questions.CheckQuestionKeys | backend/candidates/ml_models/questions.py:260-264 | GROQ_API_KEY is checked before PERPLEXITY_API_KEY, and the first one missing is the error. |
| VoiceToText.MockIndex | backend/candidates/ml_models/voiceToText.py:213-216 | The index is always valid: it is the size mod 7, and 6 for a file without a size (1000 mod 7). |
| VoiceToText.TranscribeMock | backend/candidates/ml_models/voiceToText.py:187-220 | A truthy file gets the answer at its size index, and any other file gets the one `random.choice` drew. |
| VoiceToText.MockIsDeterministic | backend/candidates/ml_models/voiceToText.py:213-217 | Truthy files whose sizes agree mod 7 get the same answer, whatever was drawn. |
| VoiceToText.Firsts | backend/candidates/ml_models/voiceToText.py:37-38 | The first alternative of each result, in order. |
| VoiceToText.SpacedIsJoinPlusSpace | backend/candidates/ml_models/voiceToText.py:36-38 | The pieces each followed by a space are the space-joined text and one space. |
| VoiceToText.GoogleTranscriptIsJoin | backend/candidates/ml_models/voiceToText.py:36-40 | The transcript is the first alternatives joined by single spaces and stripped. |
| VoiceToText.TranscribeGoogle | backend/candidates/ml_models/voiceToText.py:33-43 | The loop's transcript is that of the specification. A result without alternatives or a raised error gives "Google transcription failed: …". |
| VoiceToText.ClassifyGeminiError | backend/candidates/ml_models/voiceToText.py:97-107 | "429" or "quota" in any case is a rate limit. Otherwise "api key" in any case is an invalid key. Anything else is a generic failure carrying the text. |
| VoiceToText.QuotaBeforeKey | backend/candidates/ml_models/voiceToText.py:99-104 | An error naming both a quota and an API key counts as a rate limit. |
| VoiceToText.TranscribeAudio | backend/candidates/ml_models/voiceToText.py:110-185 | A missing or placeholder key gives the mock for any service. Only "google" can fail, and "gemini" always gives a text. |
| VoiceToText.ServiceDispatch | backend/candidates/ml_models/voiceToText.py:132-185 | With a usable key, "google" gives Google's result. "gemini" gives its non-empty text, and otherwise the mock after an error, an empty text or a timeout. Every other name gives the mock. |
| MigrateInterview.MigrateOne | backend/migrate_interview_fields.py:43-64 | The three flags end set. A candidate with an evaluation ends completed, at the evaluation time or now. A candidate with questions ends started, at its creation time. Earlier states and times are kept, and the save stamps the record. |
| MigrateInterview.MigrateOneIdempotent | backend/migrate_interview_fields.py:53-62 | A second pass changes none of the interview fields. |
| MigrateInterview.MigrateAll | backend/migrate_interview_fields.py:41-65 | On the schema the script assumes, every record is migrated, in place and in order. |
| MigrateInterview.MigrateAllIdempotent | backend/migrate_interview_fields.py:41-65 | Migrating twice leaves every record's interview state as the first run left it. |
| MigrateInterview.InterviewStore.Migrate | backend/migrate_interview_fields.py:36-65 | On the schema the script assumes, the loop migrates every stored record, and the count equals the number of candidates. |
| MigrateInterview.FirstUndeclared | backend/migrate_interview_fields.py:53-59 | The attribute found is one the loop reads and the document does not declare. None exactly when every attribute read is declared. |
| MigrateInterview.MigrateDeclared | backend/migrate_interview_fields.py:36-76 | The script on the declared documents: an empty collection migrates nothing and succeeds. An aborted run leaves the collection unchanged. |
| MigrateInterview.AsWrittenAbortsOnFirstCandidate | backend/migrate_interview_fields.py:53 | On the declared documents, any non-empty collection aborts at the `evaluation_score` read, with nothing saved. |
| MigrateInterview.AsWrittenVersusIntended | backend/migrate_interview_fields.py:41-76 | On one candidate the script as written aborts, while the migration on the schema the script assumes saves the migrated record. |
| Cleanup.CreatedBy | backend/candidates/management/commands/cleanup_candidates.py:34-38 | A recruiter's group is exactly that recruiter's candidates. |
| Cleanup.CreatorsListed | backend/candidates/management/commands/cleanup_candidates.py:34-38 | The recruiters are listed once each and are exactly the candidates' recruiters. |
| Cleanup.GroupsAreCreatedBy | backend/candidates/management/commands/cleanup_candidates.py:32-38 | The groups are keyed by exactly the recruiters, and each holds that recruiter's candidates in order. |
| Cleanup.GroupSizesSum | backend/candidates/management/commands/cleanup_candidates.py:46-54 | The group sizes in the summary add up to the total. |
| Cleanup.CreatedBySum | backend/candidates/management/commands/cleanup_candidates.py:47-54 | Over distinct keys covering every recruiter, the counts add up to the number of candidates. |
| Cleanup.Handle | backend/candidates/management/commands/cleanup_candidates.py:16-75 | No candidates means the early return, with nothing deleted. Otherwise the summary is reported. With `--delete-all` every candidate is deleted and the count equals the total; without it nothing is deleted. |
| Cleanup.DeleteFirst | backend/candidates/management/commands/cleanup_candidates.py:59-61 | Deleting the first document in iteration order leaves the rest. |
| Settings.Flag | backend/hireiq_backend/settings_production.py:6 | A flag is set exactly when the value, or the default, is "true" in any case. |
| Settings.FlagSpellings | backend/hireiq_backend/settings_production.py:6-21 | "True" and "TRUE" set a flag, while "1" and "yes" do not. |
| Settings.HostList | backend/hireiq_backend/settings_production.py:24 | There is one host per comma-separated part, each stripped. |
| Settings.HostCount | backend/hireiq_backend/settings_production.py:24 | There is one host more than there are commas. |
| Settings.HttpsOrigins | backend/hireiq_backend/settings_production.py:35-36 | The list is "https://" plus each host that is not a local name, in order. |
| Settings.NonLocal | backend/hireiq_backend/settings_production.py:36 | Exactly the hosts outside 'localhost', '127.0.0.1' and '0.0.0.0'. |
| Settings.OriginList | backend/hireiq_backend/settings_production.py:35-40 | The HTTPS origins of the public hosts come first, then the two development origins. |
| Settings.Load | backend/hireiq_backend/settings_production.py:6-49 | Each setting is its variable or its default: debug, the SSL redirect, the HSTS seconds, subdomains and preload, the secure session cookie and the hosts. The CORS and CSRF origin lists are equal. `CSRF_COOKIE_SECURE` keeps its second binding. |
| Settings.EmptyEnvironmentDefaults | backend/hireiq_backend/settings_production.py:6-49 | With nothing set: debug, the SSL redirect and secure session cookies are off. HSTS is 31536000 seconds with subdomains and preload, and the CSRF cookie is secure. The hosts are the two local names and only the development origins are allowed. |
| Settings.HstsDefault | backend/hireiq_backend/settings_production.py:11 | The HSTS default parses to 31536000. |
| Settings.HostsDefault | backend/hireiq_backend/settings_production.py:24 | The default hosts are 'localhost' and '127.0.0.1', and neither is public. |
| Settings.HostListOfTwo | backend/hireiq_backend/settings_production.py:24 | Two comma-free hosts without surrounding blanks are listed as they are. |
| Settings.CsrfCookieLastBindingWins | backend/hireiq_backend/settings_production.py:21-43 | Unset, the CSRF cookie is secure. Set, both bindings agree, so the shadowed one never matters. |
| Settings.OriginsOfHosts | backend/hireiq_backend/settings_production.py:35-49 | A public host gets its HTTPS origin, and a local name gets none. |
| MongoDbUtils.ResolveUrl | backend/hireiq_backend/mongodb_utils.py:13-25 | A missing URL or a missing password is an error, with its message. Every '<db_password>' is replaced by the password, and a URL without the placeholder is kept. |
| MongoDbUtils.DatabaseName | backend/hireiq_backend/mongodb_utils.py:14 | The database name is MONGODB_NAME when that is set, and 'hireiq_db' otherwise. |
| MongoDbUtils.ConnectToMongoDb | backend/hireiq_backend/mongodb_utils.py:8-41 | The result is true exactly when the URL resolves and the connection succeeds. |
| MongoDbUtils.PasswordOnlyForPlaceholder | backend/hireiq_backend/mongodb_utils.py:19-25 | Without the placeholder, the password is never consulted. |
| MongoDbUtils.EveryPlaceholderReplaced | backend/hireiq_backend/mongodb_utils.py:23 | Every occurrence of the placeholder is replaced, not only the first. |
| MongoDbUtils.AtlasUrl | backend/hireiq_backend/mongodb_utils.py:19-25 | An Atlas URL with the placeholder resolves to the URL with the password in its place, for every user, host and set password. |
| Health.Expected | backend/hireiq_backend/health.py:13-40 | 200 exactly when the ping succeeds, and 503 otherwise. The status and the two service entries follow from the ping and the debug setting. |
| Health.DebugOnlyChangesDebugMode | backend/hireiq_backend/health.py:29-33 | Debug mode changes only the debug entry, never the code or the status. |
| Health.HealthCheck | backend/hireiq_backend/health.py:9-40 | The view's code and body are the expected ones. |
| Middleware.ExemptPaths | backend/hireiq_backend/middleware.py:6 | Paths under "/api/" are exempt. "/api", "/apix/", "/API/" and "api/" are not. |
| Middleware.ProcessRequest | backend/hireiq_backend/middleware.py:5-8 | The middleware returns None. An exempt path gets the flag set, and any other request is left as it was. |
| ConfigHelper.CharRange | deployment/config_helper.py:12 | A run of consecutive characters. |
| ConfigHelper.AlphabetDistinct | deployment/config_helper.py:12 | The alphabet has 76 characters, all distinct. |
| ConfigHelper.SecretKey | deployment/config_helper.py:10-13 | The key has 50 characters, each the alphabet character its draw picks. |
| ConfigHelper.SecretKeyInjective | deployment/config_helper.py:13 | Different draws give different keys. |
| ConfigHelper.SecretKeyLine | deployment/config_helper.py:22 | The printed line is "SECRET_KEY=" and the key, 61 characters in all. |

## Left out

- I/O and services:
  - Network calls, database failures, mail delivery (the attempted invitation is modelled), logging, printing and the `500` replies for unexpected exceptions are left out.
  - The replies of Gemini, Groq, Perplexity and Google Speech are inputs, and so are the ping outcome and the connection outcome.
  - `json.loads`, base64 decoding and PDF text extraction are parameters or outcomes.
- Randomness and time:
  - `random.choice`, `random.sample` and `secrets.choice` are supplied draws.
  - `datetime.utcnow`, `uuid4` and new ObjectIds are supplied values.
  - The 15-second thread wait of the Gemini transcription is the outcome `TimedOut`; concurrency is not modelled.
- Text semantics:
  - `lower()` is ASCII lower-casing, so non-ASCII capitals are left as they are. `strip()` removes the characters `str.isspace()` accepts.
  - `int()` accepts optional blanks, an optional sign and decimal digits. The underscore separators Python also accepts are not modelled.
  - Strings are sequences of characters, with no encoding.
- Values:
  - A `None` in an optional string field is modelled as "", since every rule here tests it by truthiness.
  - Datetimes are natural numbers.
  - JSON values are a type parameter.
- Prompts: the prompt texts sent to the language models are not modelled.
- `MockEvaluation.Evaluate`: the float-valued detailed scores and the feedback sentence are left out, because they need float rounding. The overall score is kept exact in tenths.
- Exception texts: the texts of exceptions from outside the program (mongoengine's validation and uniqueness messages, decoding errors) are placeholders.
- `Candidates.Validate`: the format check of `EmailField` is not modelled. Only a missing email fails.
- `CandidateViews.CreateCandidate`: the address check of Django's `EmailValidator` is the parameter `validEmail`, not written out; only the stripping and the blank check of the serializer's `EmailField` are.
- `Candidates.Validate`: the `required` of `created_by_id` is not modelled, since every save path sets that field to the requesting user's id.
- Query order: the `-created_at` ordering of candidate queries is the order of the sequence. `first()` picks the first matching record of that sequence.
- `GoogleAuth.UserDirectory.SignIn`: users are looked up by email, on the assumption that no two Django users share an email. `login()` and the session are not modelled.
- `Questions.GetInterviewTopics`: the request itself is not modelled. A reply that is not a dictionary with the expected entries is the outcome `Unexpected`.
- `Questions.MergeReply`: it works on the reply after `.strip()`, as the merge function passes it.
- `Questions.MergeReply`: `parse` yields only category-shaped JSON, a dictionary of lists and strings. Valid JSON of another shape (such as `[1]` or `{"a": 5}`), which makes the loop of `generate_questions` raise, is modelled as not parsing.
- Hot topics: passing a dictionary-shaped result of `get_interview_topics` to the merge step as its hot topics is not modelled. Joining it would join its keys.
- `Questions.CheckQuestionKeys`: the rest of `get_questions` after the key checks is modelled by its parts. These are resume parsing, the retriever and the chain of calls.
- `transcribe_audio_gemini`: its own key checks cannot be reached from `transcribe_audio`, which has already rejected a missing or placeholder key. Its reply is the outcome `GeminiOutcome`.
- `MigrateInterview.MigrateOne`: it works on the schema the script assumes: the interview fields its docstring lists, plus `evaluation_score`, `evaluation_timestamp` and `interview_questions`. The declared `Candidate` document has none of them; see Findings.
- `MigrateInterview.MigrateAll`: on the schema the script assumes, like `MigrateOne`. On the declared document the script aborts at the first candidate (`MigrateDeclared`).
- `MigrateInterview.InterviewStore.Migrate`: on the schema the script assumes, like `MigrateOne`.
- `MigrateInterview.MigrateOne`, further:
  - the save of each record stamps it and fills an empty id;
  - the validation and uniqueness checks of `Candidate.save` are not repeated there, because the migrated fields are not among the validated ones;
  - a failing save, which aborts the whole loop, is not modelled.
- `Cleanup.Handle`: the per-user email lookup and the printed lines are not modelled.
- Request dispatch: `Health.HealthCheck`, `CandidateViews.ListForUser`, `CandidateViews.CreateCandidate`, `CandidateViews.ValidateCandidateId`, `CandidateViews.UploadResume`, `CandidateViews.DownloadResume` and `GoogleAuth.UserDirectory.SignIn` each start after Django and DRF have dispatched the request. A request with another HTTP method gets 405 before the view runs (`require_GET`, `api_view`). Listing and creation need an authenticated requester (`IsAuthenticated`), and an anonymous one gets 401 or 403. Validation, upload, download and sign-in are open to anonymous callers. The cache headers of `never_cache` are not modelled.
- Not part of this model: `fix_evaluations`, the URL routing, the other views, `GridFSHelper`'s storage operations and `disconnect_from_mongodb`.

## Findings

| source | as written | input that shows it | evidently intended | confidence | as-written member | corrected member |
|---|---|---|---|---|---|---|
| backend/migrate_interview_fields.py:53 | The loop reads `candidate.evaluation_score` and `candidate.interview_questions`, which `Candidate` (backend/candidates/models.py:6-17) does not declare, so the read raises `AttributeError` and the handler at lines 70-74 returns False before any save. | A collection with one candidate. | Every candidate gets its interview flags, as the docstring at lines 5-11 describes, and the count of saved candidates is reported. | not executed | MigrateInterview.AsWrittenAbortsOnFirstCandidate | MigrateInterview.InterviewStore.Migrate |
