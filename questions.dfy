/** Interview question generation: the topic list from Perplexity, the default hot topics and
    the JSON extraction of the Groq topic merge, the flattening of category → topics and the
    selection of topics, the per-topic question, and the key checks of `get_questions`. The AI
    replies are inputs, `json.loads` is the parameter `parse`, and `random.sample` is a supplied
    random order of the topic positions. */
module Questions {
  import opened Wrappers
  import opened Strings
  import opened Env
  import TextScan

  /** The characters `t.strip("-• ")` removes. */
  const BulletChars: set<char> := {'-', '•', ' '}

  /** A line that `str.strip()` does not empty. */
  predicate IsNonBlank(line: string) {
    Strip(line) != ""
  }

  /** The lines that satisfy `keep`, in order. */
  function KeepIf(lines: seq<string>, keep: string -> bool): (r: seq<string>)
    ensures |r| <= |lines|
  {
    if |lines| == 0 then []
    else if keep(lines[0]) then [lines[0]] + KeepIf(lines[1..], keep)
    else KeepIf(lines[1..], keep)
  }

  /** `KeepIf` keeps exactly the lines that satisfy `keep`. */
  lemma {:induction false} KeepIfMembers(lines: seq<string>, keep: string -> bool, l: string)
    ensures l in KeepIf(lines, keep) <==> l in lines && keep(l)
  {
    if |lines| > 0 {
      KeepIfMembers(lines[1..], keep, l);
      assert l in lines <==> l == lines[0] || l in lines[1..] by {
        assert lines == [lines[0]] + lines[1..];
      }
    }
  }

  /** `KeepIf` keeps order: it distributes over concatenation, and one line is kept exactly when
      it satisfies `keep`. */
  lemma {:induction false} KeepIfAppend(a: seq<string>, b: seq<string>, keep: string -> bool)
    ensures KeepIf(a + b, keep) == KeepIf(a, keep) + KeepIf(b, keep)
    ensures forall l :: KeepIf([l], keep) == if keep(l) then [l] else []
    decreases |a|
  {
    if |a| > 0 {
      assert (a + b)[1..] == a[1..] + b;
      KeepIfAppend(a[1..], b, keep);
    } else {
      assert a + b == b;
    }
    forall l
      ensures KeepIf([l], keep) == if keep(l) then [l] else []
    {
      assert [l][1..] == [];
    }
  }

  /** The lines that are not blank, in order. */
  function NonBlank(lines: seq<string>): seq<string> {
    KeepIf(lines, IsNonBlank)
  }

  /** A line stripped of bullets and blanks at both ends. */
  function StripBullets(line: string): string {
    StripChars(line, BulletChars)
  }

  /** `[f(t) for t in lines if keep(t)]`, element by element. */
  function KeepMap(lines: seq<string>, keep: string -> bool, f: string -> string): (r: seq<string>)
    ensures |r| <= |lines|
  {
    if |lines| == 0 then []
    else if keep(lines[0]) then [f(lines[0])] + KeepMap(lines[1..], keep, f)
    else KeepMap(lines[1..], keep, f)
  }

  /** `f` applied to each line, in order. */
  function MapEach(ls: seq<string>, f: string -> string): (r: seq<string>)
    ensures |r| == |ls| && forall i :: 0 <= i < |ls| ==> r[i] == f(ls[i])
  {
    seq(|ls|, i requires 0 <= i < |ls| => f(ls[i]))
  }

  /** The one-pass comprehension is the filter followed by the map. */
  lemma {:induction false} KeepMapOfKeepIf(lines: seq<string>, keep: string -> bool, f: string -> string)
    ensures KeepMap(lines, keep, f) == MapEach(KeepIf(lines, keep), f)
  {
    if |lines| > 0 {
      KeepMapOfKeepIf(lines[1..], keep, f);
      var rest := KeepIf(lines[1..], keep);
      if keep(lines[0]) {
        assert KeepIf(lines, keep) == [lines[0]] + rest;
        assert MapEach([lines[0]] + rest, f) == [f(lines[0])] + MapEach(rest, f);
      }
    }
  }

  /** The cleaned lines: blank lines (by `str.strip()`) dropped, the others stripped of bullets. */
  function CleanLines(lines: seq<string>): seq<string> {
    KeepMap(lines, IsNonBlank, StripBullets)
  }

  /** Each line stripped of bullets, in order. */
  function StripEach(ls: seq<string>): (r: seq<string>)
    ensures |r| == |ls|
    ensures forall i :: 0 <= i < |ls| ==> r[i] == StripChars(ls[i], BulletChars)
  {
    seq(|ls|, i requires 0 <= i < |ls| => StripChars(ls[i], BulletChars))
  }

  /** One topic per non-blank line, in their order: the non-blank lines stripped of bullets. */
  lemma {:induction false} CleanLinesOfNonBlank(lines: seq<string>)
    ensures CleanLines(lines) == StripEach(NonBlank(lines))
  {
    KeepMapOfKeepIf(lines, IsNonBlank, StripBullets);
    var nb := NonBlank(lines);
    assert MapEach(nb, StripBullets) == StripEach(nb);
  }

  /** Every non-blank line gives its topic. */
  lemma CleanLinesHasLine(lines: seq<string>, l: string)
    requires l in lines && IsNonBlank(l)
    ensures StripChars(l, BulletChars) in CleanLines(lines)
  {
    var nb := NonBlank(lines);
    KeepIfMembers(lines, IsNonBlank, l);
    var i :| 0 <= i < |nb| && nb[i] == l;
    CleanLinesOfNonBlank(lines);
    assert CleanLines(lines)[i] == StripChars(l, BulletChars);
  }

  /** `[t.strip("-• ") for t in content.split("\n") if t.strip()]`: one topic per non-blank line,
      in order. */
  function ParseTopics(content: string): (topics: seq<string>)
    ensures |topics| == |NonBlank(Split(content, '\n'))| <= CountChar(content, '\n') + 1
    ensures forall i :: 0 <= i < |topics| ==>
              topics[i] == StripChars(NonBlank(Split(content, '\n'))[i], BulletChars)
  {
    SplitCount(content, '\n');
    CleanLinesOfNonBlank(Split(content, '\n'));
    CleanLines(Split(content, '\n'))
  }

  /** A topic has no bullet character at either end and no character its line did not have. */
  predicate Cleaned(t: string, line: string) {
    (t == "" || (t[0] !in BulletChars && t[|t| - 1] !in BulletChars)) &&
    forall k :: 0 <= k < |t| ==> t[k] in line
  }

  lemma StripBulletsCleaned(line: string)
    ensures Cleaned(StripChars(line, BulletChars), line)
  {
    var left := TrimLeft(line, BulletChars);
    var t := TrimRight(left, BulletChars);
    if t != "" {
      assert t[0] == left[0];
    }
    forall k | 0 <= k < |t|
      ensures t[k] in line
    {
      assert t[k] == left[k];
      assert left[k] == line[|line| - |left| + k];
    }
  }

  predicate TopicOk(t: string) {
    (t == "" || (t[0] !in BulletChars && t[|t| - 1] !in BulletChars)) && '\n' !in t
  }

  lemma CleanLinesShape(lines: seq<string>)
    requires forall j :: 0 <= j < |lines| ==> '\n' !in lines[j]
    ensures forall t :: t in CleanLines(lines) ==> TopicOk(t)
  {
    CleanLinesOfNonBlank(lines);
    var nb := NonBlank(lines);
    forall t | t in CleanLines(lines) ensures TopicOk(t) {
      var i :| 0 <= i < |nb| && StripEach(nb)[i] == t;
      KeepIfMembers(lines, IsNonBlank, nb[i]);
      StripBulletsCleaned(nb[i]);
    }
  }

  /** Each topic has no bullet character at either end and no line break, and a line of the
      content that is not blank but made only of bullet characters gives an empty topic. */
  lemma {:induction false} TopicShape(content: string, line: string)
    ensures forall t :: t in ParseTopics(content) ==> t == "" || (t[0] !in BulletChars && t[|t| - 1] !in BulletChars)
    ensures forall t :: t in ParseTopics(content) ==> '\n' !in t
    ensures (forall i :: 0 <= i < |line| ==> line[i] in BulletChars) ==> StripChars(line, BulletChars) == ""
    ensures line in Split(content, '\n') && IsNonBlank(line) && (forall i :: 0 <= i < |line| ==> line[i] in BulletChars) ==>
              "" in ParseTopics(content)
  {
    if forall i :: 0 <= i < |line| ==> line[i] in BulletChars {
      StripCharsAllIn(line, BulletChars);
      if line in Split(content, '\n') && IsNonBlank(line) {
        CleanLinesHasLine(Split(content, '\n'), line);
      }
    }
    CleanLinesShape(Split(content, '\n'));
  }

  /** What the Perplexity call returned: a response with message content, or a response whose
      shape the code cannot index (kept as `data`). */
  datatype TopicsReply<D> = Content(content: string) | Unexpected(data: D)

  datatype TopicsResult<D> = TopicList(topics: seq<string>) | RawData(data: D)

  /** `get_interview_topics`: the key check, then the parsed topics or the raw response data. */
  function GetInterviewTopics<D>(env: Environment, reply: TopicsReply<D>): (r: Result<TopicsResult<D>, string>)
    ensures !IsSet(Get(env, "PERPLEXITY_API_KEY")) <==> r.Err?
    ensures r.Err? ==> r.error == "PERPLEXITY_API_KEY not found in environment variables"
    ensures r.Ok? && reply.Content? ==> r.value == TopicList(ParseTopics(reply.content))
    ensures r.Ok? && reply.Unexpected? ==> r.value == RawData(reply.data)
  {
    if !IsSet(Get(env, "PERPLEXITY_API_KEY")) then Err("PERPLEXITY_API_KEY not found in environment variables")
    else match reply
      case Content(c) => Ok(TopicList(ParseTopics(c)))
      case Unexpected(d) => Ok(RawData(d))
  }

  const DefaultHotTopics: seq<string> := ["Arrays", "Graphs", "Dynamic Programming", "Linked List", "Hashing"]

  /** A value of the merged category dictionary: a list of topics, or a text. */
  datatype TopicValue = Topics(topics: seq<string>) | Text(text: string)

  /** A parsed category dictionary, as its items in order. */
  type Categories = seq<(string, TopicValue)>

  /** The two inputs the merge prompt is built from: the recruiter instruction (the generated one,
      stripped, when none is given) and the hot topics joined by ", " (the defaults when none are
      given). */
  function MergePromptInputs(hrPrompt: Option<string>, hotTopics: Option<seq<string>>, generated: string): (r: (string, string))
    ensures hrPrompt.Some? ==> r.0 == hrPrompt.value
    ensures hrPrompt.None? ==> r.0 == Strip(generated)
    ensures hotTopics.Some? ==> r.1 == Join(hotTopics.value, ", ")
    ensures hotTopics.None? ==> r.1 == Join(DefaultHotTopics, ", ")
  {
    var topics := if hotTopics.Some? then hotTopics.value else DefaultHotTopics;
    var instruction := if hrPrompt.Some? then hrPrompt.value else Strip(generated);
    (instruction, Join(topics, ", "))
  }

  /** The default hot topics joined for the prompt. */
  lemma DefaultTopicsLine()
    ensures MergePromptInputs(None, None, "").1 ==
              "Arrays" + ", " + "Graphs" + ", " + "Dynamic Programming" + ", " + "Linked List" + ", " + "Hashing"
  {
    JoinFive(DefaultHotTopics, ", ");
  }

  /** `Join` of five parts, written out. */
  lemma JoinFive(t: seq<string>, sep: string)
    requires |t| == 5
    ensures Join(t, sep) == t[0] + sep + t[1] + sep + t[2] + sep + t[3] + sep + t[4]
  {
    assert t[1..][1..] == t[2..] && t[2..][1..] == t[3..] && t[3..][1..] == t[4..];
    assert Join(t[3..], sep) == t[3] + sep + t[4];
    assert Join(t[2..], sep) == t[2] + sep + t[3] + sep + t[4];
    assert Join(t[1..], sep) == t[1] + sep + t[2] + sep + t[3] + sep + t[4];
  }

  /** The JSON extraction of `merge_hr_with_hot_topics` on the stripped reply: the whole reply,
      else the greedy `{...}` span, else `{"raw_output": reply}`. */
  function MergeReply(reply: string, parse: string -> Option<Categories>): (r: Categories)
    ensures parse(reply).Some? ==> r == parse(reply).value
    ensures parse(reply).None? && TextScan.BraceText(reply).Some? && parse(TextScan.BraceText(reply).value).Some? ==>
              r == parse(TextScan.BraceText(reply).value).value
    ensures parse(reply).None? && (TextScan.BraceText(reply).None? || parse(TextScan.BraceText(reply).value).None?) ==>
              r == [("raw_output", Text(reply))]
  {
    match parse(reply)
    case Some(c) => c
    case None =>
      match TextScan.BraceText(reply)
      case None => [("raw_output", Text(reply))]
      case Some(span) =>
        match parse(span)
        case Some(c) => c
        case None => [("raw_output", Text(reply))]
  }

  /** A reply of JSON with commentary around it is read from its first '{' to its last '}'. */
  lemma {:induction false} MergeReplyEmbedded(before: string, obj: string, after: string, parse: string -> Option<Categories>)
    requires '{' !in before && '}' !in after && |obj| >= 2 && obj[0] == '{' && obj[|obj| - 1] == '}'
    requires parse(before + obj + after).None? && parse(obj).Some?
    ensures MergeReply(before + obj + after, parse) == parse(obj).value
  {
    var s := before + obj + after;
    var sp := TextScan.BraceSpan(s);
    assert s[|before|] == '{' && s[|before| + |obj| - 1] == '}';
    assert sp.Some?;
    assert forall k :: 0 <= k < |before| ==> s[k] == before[k];
    assert sp.value.open == |before|;
    assert forall k :: |before| + |obj| <= k < |s| ==> s[k] == after[k - |before| - |obj|];
    assert sp.value.close == |before| + |obj| - 1;
    assert s[|before|..|before| + |obj|] == obj;
  }

  /** The topics a dictionary value contributes to `all_topics.extend(...)`: its list, or the
      characters of a text one by one. */
  function Contribution(v: TopicValue): (r: seq<string>)
    ensures v.Topics? ==> r == v.topics
    ensures v.Text? ==> |r| == |v.text| && forall i :: 0 <= i < |r| ==> r[i] == [v.text[i]]
  {
    match v
    case Topics(ts) => ts
    case Text(t) => seq(|t|, i requires 0 <= i < |t| => [t[i]])
  }

  /** `all_topics`: every category's topics, in dictionary order. */
  function AllTopics(categories: Categories): seq<string> {
    if |categories| == 0 then []
    else AllTopics(categories[..|categories| - 1]) + Contribution(categories[|categories| - 1].1)
  }

  /** A topic is collected exactly when some category contributes it, and the count is the sum
      of the contributions. */
  lemma {:induction false} AllTopicsMembers(categories: Categories, t: string)
    ensures t in AllTopics(categories) <==> exists i :: 0 <= i < |categories| && t in Contribution(categories[i].1)
    ensures |AllTopics(categories)| == TotalContribution(categories)
  {
    if |categories| > 0 {
      var init := categories[..|categories| - 1];
      AllTopicsMembers(init, t);
      assert forall i :: 0 <= i < |init| ==> init[i] == categories[i];
    }
  }

  function TotalContribution(categories: Categories): nat {
    if |categories| == 0 then 0
    else TotalContribution(categories[..|categories| - 1]) + |Contribution(categories[|categories| - 1].1)|
  }

  /** When the merge falls back to `{"raw_output": reply}`, the collected "topics" are the
      single characters of the reply. */
  lemma RawOutputTopicsAreCharacters(reply: string)
    ensures AllTopics([("raw_output", Text(reply))]) == Contribution(Text(reply))
    ensures |AllTopics([("raw_output", Text(reply))])| == |reply|
  {
    var c: Categories := [("raw_output", Text(reply))];
    assert c[..0] == [];
  }

  /** The loop `for main_topic, sub_topics in final_topics.items(): all_topics.extend(sub_topics)`. */
  method FlattenTopics(categories: Categories) returns (all: seq<string>)
    ensures all == AllTopics(categories)
  {
    all := [];
    for i := 0 to |categories|
      invariant all == AllTopics(categories[..i])
    {
      assert categories[..i + 1][..i] == categories[..i];
      all := all + Contribution(categories[i].1);
    }
    assert categories[..|categories|] == categories;
  }

  /** `generate_question`: the stripped reply, or the fallback text when the call raised
      (`reply` is None). */
  function QuestionText(topic: string, reply: Option<string>): (q: string)
    ensures reply.Some? ==> q == Strip(reply.value)
    ensures reply.None? ==> q == "Could not generate question for topic: " + topic
  {
    match reply
    case Some(text) => Strip(text)
    case None => "Could not generate question for topic: " + topic
  }

  /** `generated_questions` after the loop over the selected topics: a later occurrence of a
      topic overwrites an earlier one. */
  function QuestionMap(selected: seq<string>, replies: string -> Option<string>): (m: map<string, string>)
    ensures m.Keys == set t | t in selected
    ensures forall t :: t in m ==> m[t] == QuestionText(t, replies(t))
  {
    if |selected| == 0 then map[]
    else
      var init := selected[..|selected| - 1];
      var t := selected[|selected| - 1];
      assert selected == init + [t];
      QuestionMap(init, replies)[t := QuestionText(t, replies(t))]
  }

  lemma QuestionMapStep(selected: seq<string>, i: nat, replies: string -> Option<string>)
    requires i < |selected|
    ensures QuestionMap(selected[..i + 1], replies) ==
              QuestionMap(selected[..i], replies)[selected[i] := QuestionText(selected[i], replies(selected[i]))]
  {
    assert selected[..i + 1][..i] == selected[..i];
  }

  /** There are never more questions than selected topics, and fewer exactly when a topic was
      selected twice (the same topic listed under two categories). */
  lemma {:induction false} QuestionCount(selected: seq<string>, replies: string -> Option<string>)
    ensures |QuestionMap(selected, replies)| <= |selected|
    ensures Distinct(selected) ==> |QuestionMap(selected, replies)| == |selected|
  {
    SetOfSeqSize(selected);
    assert |QuestionMap(selected, replies)| == |QuestionMap(selected, replies).Keys|;
  }

  lemma {:induction false} SetOfSeqSize(s: seq<string>)
    ensures |set t | t in s| <= |s|
    ensures Distinct(s) ==> |set t | t in s| == |s|
  {
    if |s| > 0 {
      var init := s[..|s| - 1];
      var last := s[|s| - 1];
      assert s == init + [last];
      SetOfSeqSize(init);
      SetOfSnoc(init, last);
      if Distinct(s) {
        DistinctSnoc(init, last);
      }
    }
  }

  /** The elements of a sequence with one more item at the end. */
  lemma SetOfSnoc(init: seq<string>, last: string)
    ensures (set t | t in init + [last]) == (set t | t in init) + {last}
  {
  }

  /** A repetition-free sequence stays so without its last item, which occurs nowhere before. */
  lemma DistinctSnoc(init: seq<string>, last: string)
    requires Distinct(init + [last])
    ensures Distinct(init) && last !in init
  {
    var s := init + [last];
    assert forall i :: 0 <= i < |init| ==> init[i] == s[i];
    forall i | 0 <= i < |init|
      ensures init[i] != last
    {
      assert s[i] != s[|init|];
    }
  }

  predicate Distinct(s: seq<string>) {
    forall i, j :: 0 <= i < j < |s| ==> s[i] != s[j]
  }

  /** `random.sample`'s draw, as a random order of all positions `0 .. n-1`. */
  predicate IsOrder(order: seq<nat>, n: nat) {
    |order| == n && (forall i :: 0 <= i < n ==> order[i] < n) &&
    (forall i, j :: 0 <= i < j < n ==> order[i] != order[j])
  }

  /** `random.sample(all_topics, k)`: the topics at the first `k` positions of the order. */
  function Sample(all: seq<string>, k: nat, order: seq<nat>): (r: seq<string>)
    requires IsOrder(order, |all|) && k <= |all|
    ensures |r| == k && forall t :: t in r ==> t in all
  {
    seq(k, i requires 0 <= i < k => all[order[i]])
  }

  /** `generate_questions` with the topic order of `random.sample` and the Groq replies per topic:
      a negative count is the ValueError of `random.sample`. */
  function GenerateQuestionsSpec(categories: Categories, numQuestions: int, order: seq<nat>,
                                 replies: string -> Option<string>): (r: Result<map<string, string>, string>)
    requires IsOrder(order, |AllTopics(categories)|)
  {
    var all := AllTopics(categories);
    if numQuestions < 0 then Err("Sample larger than population or is negative")
    else
      var k := if numQuestions < |all| then numQuestions else |all|;
      Ok(QuestionMap(Sample(all, k, order), replies))
  }

  /** At most `min(num_questions, len(all_topics))` questions, each keyed by a collected topic
      and holding that topic's question. */
  lemma {:induction false} GenerateQuestionsBounds(categories: Categories, numQuestions: int, order: seq<nat>,
                                                   replies: string -> Option<string>)
    requires IsOrder(order, |AllTopics(categories)|)
    ensures var r := GenerateQuestionsSpec(categories, numQuestions, order, replies);
      && (r.Err? <==> numQuestions < 0)
      && (r.Ok? ==>
            && |r.value| <= numQuestions && |r.value| <= |AllTopics(categories)|
            && (forall t :: t in r.value ==> t in AllTopics(categories) && r.value[t] == QuestionText(t, replies(t))))
  {
    if numQuestions >= 0 {
      var all := AllTopics(categories);
      var k := if numQuestions < |all| then numQuestions else |all|;
      QuestionCount(Sample(all, k, order), replies);
    }
  }

  /** Distinct topics give exactly `min(num_questions, len(all_topics))` questions. */
  lemma {:induction false} GenerateQuestionsDistinct(categories: Categories, numQuestions: nat, order: seq<nat>,
                                                     replies: string -> Option<string>)
    requires IsOrder(order, |AllTopics(categories)|)
    requires Distinct(AllTopics(categories))
    ensures var all := AllTopics(categories);
      |GenerateQuestionsSpec(categories, numQuestions, order, replies).value| == if numQuestions < |all| then numQuestions else |all|
  {
    var all := AllTopics(categories);
    var k := if numQuestions < |all| then numQuestions else |all|;
    var s := Sample(all, k, order);
    forall i, j | 0 <= i < j < |s|
      ensures s[i] != s[j]
    {
      assert s[i] == all[order[i]] && s[j] == all[order[j]];
      assert order[i] != order[j] && order[i] < |all| && order[j] < |all|;
      if order[i] < order[j] {
        assert all[order[i]] != all[order[j]];
      } else {
        assert all[order[j]] != all[order[i]];
      }
    }
    QuestionCount(s, replies);
  }

  /** `generate_questions`: collect the topics, sample them, then ask for one question per
      sampled topic. */
  method GenerateQuestions(categories: Categories, numQuestions: int, order: seq<nat>,
                           replies: string -> Option<string>) returns (r: Result<map<string, string>, string>)
    requires IsOrder(order, |AllTopics(categories)|)
    ensures r == GenerateQuestionsSpec(categories, numQuestions, order, replies)
  {
    var all := FlattenTopics(categories);
    if numQuestions < 0 {
      return Err("Sample larger than population or is negative");
    }
    var k := if numQuestions < |all| then numQuestions else |all|;
    var selected := Sample(all, k, order);
    var generated: map<string, string> := map[];
    for i := 0 to |selected|
      invariant generated == QuestionMap(selected[..i], replies)
    {
      QuestionMapStep(selected, i, replies);
      generated := generated[selected[i] := QuestionText(selected[i], replies(selected[i]))];
    }
    assert selected[..|selected|] == selected;
    r := Ok(generated);
  }

  /** The key checks of `get_questions`: GROQ_API_KEY first, then PERPLEXITY_API_KEY. */
  function CheckQuestionKeys(env: Environment): (r: Option<string>)
    ensures r.None? <==> IsSet(Get(env, "GROQ_API_KEY")) && IsSet(Get(env, "PERPLEXITY_API_KEY"))
    ensures !IsSet(Get(env, "GROQ_API_KEY")) ==> r == Some("GROQ_API_KEY not found in environment variables")
    ensures IsSet(Get(env, "GROQ_API_KEY")) && !IsSet(Get(env, "PERPLEXITY_API_KEY")) ==>
              r == Some("PERPLEXITY_API_KEY not found in environment variables")
  {
    if !IsSet(Get(env, "GROQ_API_KEY")) then Some("GROQ_API_KEY not found in environment variables")
    else if !IsSet(Get(env, "PERPLEXITY_API_KEY")) then Some("PERPLEXITY_API_KEY not found in environment variables")
    else None
  }
}
