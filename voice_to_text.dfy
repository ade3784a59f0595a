/** Audio transcription: the choice of service in `transcribe_audio`, the deterministic mock
    answer, the Google transcript assembly and the classification of Gemini errors. The
    services' replies are inputs; the 15-second wait on the Gemini thread is the outcome
    `TimedOut`; `random.choice` is a supplied index. */
module VoiceToText {
  import opened Wrappers
  import opened Strings

  const PlaceholderKey: string := "your_gemini_api_key_here"

  const MockCount: nat := 7

  /** The seven answers of `mock_answers`, by index. */
  function MockAnswer(i: nat): string
    requires i < MockCount
  {
    match i
    case 0 =>
      "I have over three years of experience in software development, working primarily with Python, Django, and React. I've built several full-stack applications and have experience with database design and API development."
    case 1 =>
      "My greatest strength is my problem-solving ability and attention to detail. I enjoy breaking down complex problems into smaller, manageable tasks and finding efficient solutions. I'm also very collaborative and work well in team environments."
    case 2 =>
      "I'm passionate about creating user-friendly applications that solve real-world problems. I stay updated with the latest technologies and enjoy learning new frameworks and tools that can improve development efficiency."
    case 3 =>
      "I'm looking for opportunities to grow my technical skills, particularly in cloud technologies like AWS and Docker. I want to work on challenging projects that allow me to contribute meaningfully to the team and learn from experienced developers."
    case 4 =>
      "I believe I would be a great fit for this role because of my technical skills, enthusiasm for learning, and collaborative approach to problem-solving. I'm committed to writing clean, maintainable code and delivering high-quality solutions."
    case 5 =>
      "In my previous role, I successfully led the development of a customer management system that improved efficiency by 40%. I worked closely with stakeholders to gather requirements and delivered the project on time and within budget."
    case _ =>
      "I approach challenges by first understanding the problem thoroughly, researching potential solutions, and then implementing the most effective approach. I also believe in asking for help when needed and learning from more experienced team members."
  }

  /** The uploaded audio as the mock reads it: whether the object is truthy, and its `size`
      attribute if it has one. */
  datatype AudioFile = AudioFile(truthy: bool, size: Option<int>)

  /** `file_size % len(mock_answers)` with `getattr(audio_file, 'size', 1000)`; Python's `%`
      by a positive number is never negative, as Dafny's is. */
  function MockIndex(file: AudioFile): (i: nat)
    ensures i < MockCount
    ensures file.size.Some? ==> i == file.size.value % 7
    ensures file.size.None? ==> i == 6
  {
    file.size.GetOr(1000) % MockCount
  }

  /** `transcribe_audio_mock`: the answer at the size index of a truthy file, and otherwise the
      answer `random.choice` drew (`choice`). */
  function TranscribeMock(file: AudioFile, choice: nat): (answer: string)
    requires choice < MockCount
    ensures file.truthy ==> answer == MockAnswer(MockIndex(file))
    ensures !file.truthy ==> answer == MockAnswer(choice)
  {
    if file.truthy then MockAnswer(MockIndex(file)) else MockAnswer(choice)
  }

  /** Two truthy files whose sizes agree modulo 7 get the same mock answer, whatever was drawn. */
  lemma {:induction false} MockIsDeterministic(f: AudioFile, g: AudioFile, c1: nat, c2: nat)
    requires c1 < MockCount && c2 < MockCount
    requires f.truthy && g.truthy && f.size.GetOr(1000) % 7 == g.size.GetOr(1000) % 7
    ensures TranscribeMock(f, c1) == TranscribeMock(g, c2)
  {
  }

  /** What `client.recognize` gave: the alternatives of each result, or a raised error. */
  datatype GoogleOutcome = Recognized(results: seq<seq<string>>) | GoogleRaised(error: string)

  /** The first alternatives of the results. */
  function Firsts(results: seq<seq<string>>): (firsts: seq<string>)
    requires forall i :: 0 <= i < |results| ==> |results[i]| > 0
    ensures |firsts| == |results| && forall i :: 0 <= i < |results| ==> firsts[i] == results[i][0]
  {
    seq(|results|, i requires 0 <= i < |results| => results[i][0])
  }

  /** Each piece followed by a space, concatenated. */
  function Spaced(pieces: seq<string>): string {
    if |pieces| == 0 then "" else pieces[0] + " " + Spaced(pieces[1..])
  }

  lemma {:induction false} SpacedSnoc(pieces: seq<string>, p: string)
    ensures Spaced(pieces + [p]) == Spaced(pieces) + p + " "
  {
    if |pieces| == 0 {
      assert [p][1..] == [];
    } else {
      assert (pieces + [p])[1..] == pieces[1..] + [p];
      SpacedSnoc(pieces[1..], p);
    }
  }

  /** The spaced concatenation is the space-joined text with one space after it. */
  lemma {:induction false} SpacedIsJoinPlusSpace(pieces: seq<string>)
    requires |pieces| > 0
    ensures Spaced(pieces) == Join(pieces, " ") + " "
  {
    if |pieces| > 1 {
      SpacedIsJoinPlusSpace(pieces[1..]);
    } else {
      assert pieces[1..] == [];
    }
  }

  const GoogleFailurePrefix: string := "Google transcription failed: "

  /** `transcribe_audio_google` on the recognizer's outcome: a result without alternatives makes
      the indexing raise, and every error is reported after the failure prefix. */
  function GoogleTranscribe(outcome: GoogleOutcome): Result<string, string> {
    match outcome
    case GoogleRaised(e) => Err(GoogleFailurePrefix + e)
    case Recognized(rs) =>
      if exists i :: 0 <= i < |rs| && |rs[i]| == 0 then Err(GoogleFailurePrefix + "list index out of range")
      else Ok(Strip(Spaced(Firsts(rs))))
  }

  /** The Google transcript is the first alternatives joined by single spaces and stripped: the
      trailing space the loop adds never survives. */
  lemma {:induction false} GoogleTranscriptIsJoin(rs: seq<seq<string>>)
    requires forall i :: 0 <= i < |rs| ==> |rs[i]| > 0
    ensures GoogleTranscribe(Recognized(rs)) == Ok(Strip(Join(Firsts(rs), " ")))
  {
    var firsts := Firsts(rs);
    if |firsts| > 0 {
      SpacedIsJoinPlusSpace(firsts);
      StripCharsAppend(Join(firsts, " "), ' ', Whitespace);
    }
  }

  /** The loop of `transcribe_audio_google`: `transcript += alternatives[0].transcript + " "`. */
  method TranscribeGoogle(outcome: GoogleOutcome) returns (r: Result<string, string>)
    ensures r == GoogleTranscribe(outcome)
  {
    if outcome.GoogleRaised? {
      return Err(GoogleFailurePrefix + outcome.error);
    }
    var rs := outcome.results;
    var transcript := "";
    var firsts: seq<string> := [];
    for i := 0 to |rs|
      invariant forall j :: 0 <= j < i ==> |rs[j]| > 0
      invariant |firsts| == i && forall j :: 0 <= j < i ==> firsts[j] == rs[j][0]
      invariant transcript == Spaced(firsts)
    {
      if |rs[i]| == 0 {
        return Err(GoogleFailurePrefix + "list index out of range");
      }
      SpacedSnoc(firsts, rs[i][0]);
      transcript := transcript + rs[i][0] + " ";
      firsts := firsts + [rs[i][0]];
    }
    assert firsts == Firsts(rs);
    r := Ok(Strip(transcript));
  }

  const RateLimitMessage: string :=
    "Gemini API rate limit exceeded. " + "Please try again later or use Google Speech service."
  const InvalidKeyMessage: string := "Invalid Gemini API key. " + "Please check your API key."

  /** The ValueError `transcribe_audio_gemini` re-raises for an error text: "429" (as written)
      or "quota" (in any case) is a rate limit, checked before "api key" (in any case). */
  function ClassifyGeminiError(e: string): (m: string)
    ensures m == RateLimitMessage <==> Contains(e, "429") || Contains(Lower(e), "quota")
    ensures m == InvalidKeyMessage <==>
              !Contains(e, "429") && !Contains(Lower(e), "quota") && Contains(Lower(e), "api key")
    ensures m != RateLimitMessage && m != InvalidKeyMessage ==> m == "Gemini transcription failed: " + e
  {
    if Contains(e, "429") || Contains(Lower(e), "quota") then RateLimitMessage
    else if Contains(Lower(e), "api key") then InvalidKeyMessage
    else
      var m := "Gemini transcription failed: " + e;
      assert m[..8] == "Gemini t";
      assert RateLimitMessage[..8] == "Gemini A";
      assert InvalidKeyMessage[..8] == "Invalid ";
      m
  }

  /** An error naming both a quota and an API key counts as a rate limit. */
  lemma QuotaBeforeKey()
    ensures ClassifyGeminiError("quota / api key") == RateLimitMessage
  {
    var e := "quota / api key";
    assert Lower(e) == e;
    assert StartsWith(Lower(e), "quota");
    ContainsAt(Lower(e), "quota", 0);
  }

  /** How the Gemini thread ended: with the stripped reply text, with an error, or not within
      the wait. */
  datatype GeminiOutcome = GeminiText(text: string) | GeminiRaised(error: string) | TimedOut

  /** `transcribe_audio`: a missing or placeholder key, the "mock" service and any unknown service
      give the mock answer; "google" gives the Google result, errors included; "gemini" gives a
      non-empty Gemini text and falls back to the mock on an error, an empty text or a timeout. */
  function TranscribeAudio(apiKey: Option<string>, service: string, file: AudioFile, choice: nat,
                           google: GoogleOutcome, gemini: GeminiOutcome): (r: Result<string, string>)
    requires choice < MockCount
    ensures apiKey.None? || apiKey.value == "" || apiKey.value == PlaceholderKey ==> r == Ok(TranscribeMock(file, choice))
    ensures r.Err? ==> service == "google" && r == GoogleTranscribe(google)
    ensures service == "gemini" ==> r.Ok?
  {
    if apiKey.None? || apiKey.value == "" || apiKey.value == PlaceholderKey then Ok(TranscribeMock(file, choice))
    else if service == "mock" then Ok(TranscribeMock(file, choice))
    else if service == "gemini" then
      match gemini
      case GeminiText(t) => if t != "" then Ok(t) else Ok(TranscribeMock(file, choice))
      case _ => Ok(TranscribeMock(file, choice))
    else if service == "google" then GoogleTranscribe(google)
    else Ok(TranscribeMock(file, choice))
  }

  /** With a usable key, each service gets exactly what its branch says. */
  lemma {:induction false} ServiceDispatch(key: string, service: string, file: AudioFile, choice: nat,
                                            google: GoogleOutcome, gemini: GeminiOutcome)
    requires choice < MockCount && key != "" && key != PlaceholderKey
    ensures var r := TranscribeAudio(Some(key), service, file, choice, google, gemini);
      && (service == "google" ==> r == GoogleTranscribe(google))
      && (service == "gemini" && gemini.GeminiText? && gemini.text != "" ==> r == Ok(gemini.text))
      && (service == "gemini" && !(gemini.GeminiText? && gemini.text != "") ==> r == Ok(TranscribeMock(file, choice)))
      && (service != "google" && service != "gemini" ==> r == Ok(TranscribeMock(file, choice)))
  {
  }
}
