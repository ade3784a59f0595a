/** The deployment helper's secret key: 50 characters drawn from the ASCII letters, the digits
    and 14 punctuation characters. The draws of `secrets.choice` are a supplied sequence of
    indices into the alphabet. */
module ConfigHelper {

  /** The `n` characters from `first` on. */
  function CharRange(first: char, n: nat): (s: string)
    requires first as int + n <= 0xD800
    ensures |s| == n && forall i :: 0 <= i < n ==> s[i] as int == first as int + i
  {
    seq(n, i requires 0 <= i < n => (first as int + i) as char)
  }

  /** `string.ascii_letters`: the lower-case letters, then the upper-case ones. */
  const AsciiLetters: string := CharRange('a', 26) + CharRange('A', 26)

  /** `string.digits`. */
  const Digits: string := CharRange('0', 10)

  const Punctuation: string := "!@#$%^&*(-_=+)"

  const Alphabet: string := AsciiLetters + Digits + Punctuation

  const KeyLength: nat := 50

  /** Where a character sits in the alphabet. */
  function Position(c: char): int {
    if 'a' <= c <= 'z' then c as int - 'a' as int
    else if 'A' <= c <= 'Z' then 26 + c as int - 'A' as int
    else if '0' <= c <= '9' then 52 + c as int - '0' as int
    else match c
      case '!' => 62 case '@' => 63 case '#' => 64 case '$' => 65 case '%' => 66
      case '^' => 67 case '&' => 68 case '*' => 69 case '(' => 70 case '-' => 71
      case '_' => 72 case '=' => 73 case '+' => 74 case ')' => 75
      case _ => -1
  }

  /** Every character of the alphabet is found at its own position. */
  lemma {:induction false} PositionOfAlphabet(i: nat)
    requires i < |Alphabet|
    ensures |Alphabet| == 76 && Position(Alphabet[i]) == i
  {
    if i < 52 {
      assert Alphabet[i] == AsciiLetters[i];
    } else if i < 62 {
      assert Alphabet[i] == Digits[i - 52];
    } else {
      assert Alphabet[i] == Punctuation[i - 62];
      var k := i - 62;
      assert Position(Punctuation[k]) == 62 + k by {
        assert Punctuation == "!@#$%" + "^&*(-" + "_=+)";
      }
    }
  }

  /** The alphabet has 76 characters, no two alike. */
  lemma {:induction false} AlphabetDistinct()
    ensures |Alphabet| == 76
    ensures forall i, j :: 0 <= i < j < |Alphabet| ==> Alphabet[i] != Alphabet[j]
  {
    forall i, j | 0 <= i < j < |Alphabet|
      ensures Alphabet[i] != Alphabet[j]
    {
      PositionOfAlphabet(i);
      PositionOfAlphabet(j);
    }
  }

  /** `generate_django_secret_key` with draw number `k` picking `Alphabet[draws[k]]`. */
  function SecretKey(draws: seq<nat>): (key: string)
    requires |draws| == KeyLength && forall k :: 0 <= k < |draws| ==> draws[k] < |Alphabet|
    ensures |key| == KeyLength
    ensures forall k :: 0 <= k < |key| ==> key[k] in Alphabet && key[k] == Alphabet[draws[k]]
  {
    seq(|draws|, k requires 0 <= k < |draws| => Alphabet[draws[k]])
  }

  /** Different draws give different keys, since the alphabet has no repeated character. */
  lemma {:induction false} SecretKeyInjective(d1: seq<nat>, d2: seq<nat>)
    requires |d1| == KeyLength && forall k :: 0 <= k < |d1| ==> d1[k] < |Alphabet|
    requires |d2| == KeyLength && forall k :: 0 <= k < |d2| ==> d2[k] < |Alphabet|
    requires SecretKey(d1) == SecretKey(d2)
    ensures d1 == d2
  {
    forall k | 0 <= k < KeyLength
      ensures d1[k] == d2[k]
    {
      assert Alphabet[d1[k]] == SecretKey(d1)[k] == SecretKey(d2)[k] == Alphabet[d2[k]];
      PositionOfAlphabet(d1[k]);
      PositionOfAlphabet(d2[k]);
    }
  }

  /** The line `main` prints: "SECRET_KEY=" and the key, 61 characters in all. */
  function SecretKeyLine(draws: seq<nat>): (line: string)
    requires |draws| == KeyLength && forall k :: 0 <= k < |draws| ==> draws[k] < |Alphabet|
    ensures |line| == 11 + KeyLength
    ensures line[..11] == "SECRET_KEY=" && line[11..] == SecretKey(draws)
  {
    "SECRET_KEY=" + SecretKey(draws)
  }
}
