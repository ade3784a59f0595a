/** The match of the regular expression `\{.*\}` under `re.DOTALL`, which both the answer
    evaluator and the topic merger use to dig a JSON object out of a model's reply. */
module TextScan {
  import opened Wrappers

  /** Index of the first occurrence of `c`. */
  function FirstIndex(s: string, c: char): (r: Option<nat>)
    ensures r.None? <==> c !in s
    ensures r.Some? ==> r.value < |s| && s[r.value] == c
    ensures r.Some? ==> forall k :: 0 <= k < r.value ==> s[k] != c
    decreases |s|
  {
    if |s| == 0 then None
    else if s[0] == c then Some(0)
    else match FirstIndex(s[1..], c)
      case None => None
      case Some(k) => Some(k + 1)
  }

  /** Index of the last occurrence of `c`. */
  function LastIndex(s: string, c: char): (r: Option<nat>)
    ensures r.None? <==> c !in s
    ensures r.Some? ==> r.value < |s| && s[r.value] == c
    ensures r.Some? ==> forall k :: r.value < k < |s| ==> s[k] != c
    decreases |s|
  {
    if |s| == 0 then None
    else if s[|s| - 1] == c then Some(|s| - 1)
    else
      assert forall k :: 0 <= k < |s| - 1 ==> s[..|s| - 1][k] == s[k];
      LastIndex(s[..|s| - 1], c)
  }

  /** The matched span, as the index of its opening and of its closing brace. */
  datatype Span = Span(open: nat, close: nat)

  /** `re.search(r'\{.*\}', s, re.DOTALL)`. The leftmost match starts at the first '{' as soon as
      any '}' follows it, and the greedy `.*` stretches it to the last '}'. */
  function BraceSpan(s: string): (r: Option<Span>)
    ensures r.Some? ==> r.value.open < r.value.close < |s|
    ensures r.Some? ==> s[r.value.open] == '{' && s[r.value.close] == '}'
    ensures r.Some? ==> forall k :: 0 <= k < r.value.open ==> s[k] != '{'
    ensures r.Some? ==> forall k :: r.value.close < k < |s| ==> s[k] != '}'
    ensures r.None? <==> !exists i, j :: 0 <= i < j < |s| && s[i] == '{' && s[j] == '}'
  {
    var first := FirstIndex(s, '{');
    var last := LastIndex(s, '}');
    if first.Some? && last.Some? && first.value < last.value then
      Some(Span(first.value, last.value))
    else
      None
  }

  /** The matched text, `match.group()`. */
  function SpanText(s: string, sp: Span): string
    requires sp.open < sp.close < |s|
  {
    s[sp.open..sp.close + 1]
  }

  /** The matched text of a reply, when there is a match. */
  function BraceText(s: string): (r: Option<string>)
    ensures r.Some? ==> |r.value| >= 2 && r.value[0] == '{' && r.value[|r.value| - 1] == '}'
    ensures r.Some? <==> exists i, j :: 0 <= i < j < |s| && s[i] == '{' && s[j] == '}'
  {
    match BraceSpan(s)
    case None => None
    case Some(sp) => Some(SpanText(s, sp))
  }

  /** A text that opens with '{' and closes with '}' is matched as a whole. */
  lemma {:induction false} BraceTextWhole(s: string)
    requires |s| >= 2 && s[0] == '{' && s[|s| - 1] == '}'
    ensures BraceText(s) == Some(s)
  {
    var sp := BraceSpan(s);
    assert sp.Some? by {
      assert 0 < |s| - 1 && s[0] == '{' && s[|s| - 1] == '}';
    }
    assert sp.value.open == 0;
    assert sp.value.close == |s| - 1;
    assert s[0..|s|] == s;
  }
}
