/** The evaluator used when no Gemini key is configured: a base score from the stripped answer's
    length, a bonus of 0.2 per technical keyword found (at most 2), and a cap of 10. Scores are
    kept in tenths of a point, where the computation is exact. */
module MockEvaluation {
  import opened Strings

  const TechnicalKeywords: seq<string> := [
    "api", "database", "algorithm", "data structure", "programming",
    "software", "system", "architecture", "framework", "library",
    "function", "class", "object", "method", "variable"
  ]

  /** 3, 6 or 8 points by the length of the stripped answer. */
  function BaseScore(answerLength: nat): (b: nat)
    ensures b == 3 || b == 6 || b == 8
    ensures answerLength < 20 <==> b == 3
    ensures 100 <= answerLength <==> b == 8
  {
    if answerLength < 20 then 3 else if answerLength < 100 then 6 else 8
  }

  /** How many of `keywords` occur in `text`. */
  function CountPresent(keywords: seq<string>, text: string): (n: nat)
    ensures n <= |keywords|
  {
    if |keywords| == 0 then 0
    else (if Contains(text, keywords[0]) then 1 else 0) + CountPresent(keywords[1..], text)
  }

  /** The number of listed keywords occurring in the lower-cased (unstripped) answer. */
  function KeywordCount(answer: string): (k: nat)
    ensures k <= 15
  {
    CountPresent(TechnicalKeywords, Lower(answer))
  }

  /** `min(2, keyword_count * 0.2)` in tenths. */
  function BonusTenths(k: nat): (t: nat)
    ensures t <= 20 && t <= 2 * k
    ensures t == 20 || t == 2 * k
  {
    if 2 * k < 20 then 2 * k else 20
  }

  /** `min(10, base_score + keyword_bonus)` in tenths. */
  function ScoreTenths(base: nat, k: nat): nat {
    var sum := 10 * base + BonusTenths(k);
    if sum < 100 then sum else 100
  }

  /** The tenths are the Python arithmetic read exactly: tenths/10 equals
      `min(10, base + min(2, 0.2 * k))` over the reals. */
  lemma ScoreTenthsExact(base: nat, k: nat)
    ensures var exact := base as real + (if 2.0 < k as real * 0.2 then 2.0 else k as real * 0.2);
      ScoreTenths(base, k) as real / 10.0 == if 10.0 < exact then 10.0 else exact
  {
  }

  /** The score always lies in [3, 10], the bonus adds at most 2 points, and more keywords never
      lower the score. */
  lemma {:induction false} ScoreBounds(base: nat, k: nat, k': nat)
    requires base == 3 || base == 6 || base == 8
    ensures 30 <= ScoreTenths(base, k) <= 100
    ensures ScoreTenths(base, k) <= 10 * base + 20
    ensures k <= k' ==> ScoreTenths(base, k) <= ScoreTenths(base, k')
  {
  }

  /** Keyword search ignores case: the count of an answer is that of its lower-cased form. */
  lemma KeywordCountIgnoresCase(answer: string)
    ensures KeywordCount(Lower(answer)) == KeywordCount(answer)
  {
    assert Lower(Lower(answer)) == Lower(answer);
  }

  /** The dictionary `mock_evaluate_candidate_answer` returns, without the float-valued detailed
      scores and feedback. */
  datatype MockResult = MockResult(
    overallTenths: nat, answerLength: nat, keywordCount: nat, strengths: string,
    areasForImprovement: string, resumeInsights: string, isMock: bool, mockReason: string)

  const MockReason: string := "GEMINI_API_KEY not configured"

  /** `mock_evaluate_candidate_answer`; the question and the resume do not influence the result. */
  function Evaluate(question: string, answer: string): (r: MockResult)
    ensures r.isMock && r.mockReason == MockReason
    ensures r.answerLength == |Strip(answer)| && r.keywordCount == KeywordCount(answer)
    ensures r.overallTenths == ScoreTenths(BaseScore(|Strip(answer)|), KeywordCount(answer))
    ensures 30 <= r.overallTenths <= 100
    ensures Contains(r.strengths, NatToString(r.keywordCount))
  {
    var length := |Strip(answer)|;
    var k := KeywordCount(answer);
    ScoreBounds(BaseScore(length), k, k);
    var prefix := "Answer demonstrates understanding with ";
    ContainsInfix(prefix, NatToString(k), " technical keywords identified.");
    MockResult(
      ScoreTenths(BaseScore(length), k), length, k,
      prefix + NatToString(k) + " technical keywords identified.",
      "Configure " + "GEMINI_API_KEY" + " for detailed AI-powered feedback.",
      "Mock evaluation - resume analysis not available without " + "GEMINI_API_KEY",
      true, MockReason)
  }

  /** Two answers with the same stripped length and the same keywords score the same, whatever
      the question. */
  lemma {:induction false} EvaluateDependsOnLengthAndKeywords(q1: string, q2: string, a1: string, a2: string)
    requires |Strip(a1)| == |Strip(a2)| && KeywordCount(a1) == KeywordCount(a2)
    ensures Evaluate(q1, a1) == Evaluate(q2, a2)
  {
  }
}
