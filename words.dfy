/** The word-validity check `challenge::isASCIIWord`: a match of the regular
    expression `^\w+$` against the whole string. */
module Words {

  /** `\w` of the ECMAScript regular-expression grammar in the classic locale:
      an ASCII letter, an ASCII digit or the underscore. */
  predicate IsWordChar(c: char) {
    ('A' <= c <= 'Z') || ('a' <= c <= 'z') || ('0' <= c <= '9') || c == '_'
  }

  /** The anchored match of `\w+`: one word character, then either the end of
      the input (`$`) or a further match of `\w+` on the rest. */
  predicate IsASCIIWord(s: string)
    decreases |s|
  {
    |s| > 0 && IsWordChar(s[0]) && (|s| == 1 || IsASCIIWord(s[1..]))
  }

  /** The matcher accepts exactly the non-empty strings made of word characters. */
  lemma {:induction false} IsASCIIWordIff(s: string)
    ensures IsASCIIWord(s) <==> |s| > 0 && forall i :: 0 <= i < |s| ==> IsWordChar(s[i])
  {
    if |s| > 1 {
      IsASCIIWordIff(s[1..]);
      assert forall i :: 1 <= i < |s| ==> s[i] == s[1..][i - 1];
    }
  }

  /** Any character outside the class anywhere in the string makes it no word. */
  lemma NotWordAt(s: string, i: nat)
    requires i < |s| && !IsWordChar(s[i])
    ensures !IsASCIIWord(s)
  {
    IsASCIIWordIff(s);
  }

  /** The strings the unit tests reject: the empty string, a sentence and
      punctuation. */
  lemma RejectedExamples()
    ensures !IsASCIIWord("")
    ensures !IsASCIIWord("entire sentence")
    ensures !IsASCIIWord(".,[]%$")
  {
    NotWordAt("entire sentence", 6);
    NotWordAt(".,[]%$", 0);
  }

  /** The strings the unit tests accept: letters with digits, mixed case, the
      plain words they count, and the terminator "end" they use. */
  lemma AcceptedExamples()
    ensures IsASCIIWord("hello24")
    ensures IsASCIIWord("tEsT")
    ensures IsASCIIWord("end")
    ensures IsASCIIWord("one") && IsASCIIWord("test") && IsASCIIWord("TEST")
  {
    IsASCIIWordIff("hello24");
    IsASCIIWordIff("tEsT");
    IsASCIIWordIff("end");
    IsASCIIWordIff("one");
    IsASCIIWordIff("test");
    IsASCIIWordIff("TEST");
  }
}
