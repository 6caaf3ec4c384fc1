/**
 * `toSentenceCase` (src/utils/formatText.ts): the first character upper-cased,
 * every later character lower-cased.  Case mapping is ASCII only.
 */
module FormatText {
  import opened Common

  function ToSentenceCase(text: string): (r: string)
    ensures |r| == |text|
    ensures text == [] ==> r == []
    ensures text != [] ==> r[0] == UpperChar(text[0])
    ensures forall i :: 1 <= i < |text| ==> r[i] == LowerChar(text[i])
  {
    if text == [] then text else [UpperChar(text[0])] + ToLower(text[1..])
  }

  /** A string is in sentence case when no later character is a capital and
      its first character is not a lower-case letter. */
  predicate IsSentenceCase(s: string)
  {
    (|s| > 0 ==> !IsLowerAscii(s[0])) &&
    forall i :: 1 <= i < |s| ==> !IsUpperAscii(s[i])
  }

  /** The result is always in sentence case. */
  lemma {:induction false} SentenceCaseResult(text: string)
    ensures IsSentenceCase(ToSentenceCase(text))
  {
  }

  /** Input already in sentence case comes back unchanged. */
  lemma {:induction false} SentenceCaseFixedPoint(text: string)
    requires IsSentenceCase(text)
    ensures ToSentenceCase(text) == text
  {
    var r := ToSentenceCase(text);
    forall i | 0 <= i < |text|
      ensures r[i] == text[i]
    {
    }
  }

  /** Applying the conversion twice is the same as applying it once. */
  lemma {:induction false} SentenceCaseIdempotent(text: string)
    ensures ToSentenceCase(ToSentenceCase(text)) == ToSentenceCase(text)
  {
    SentenceCaseResult(text);
    SentenceCaseFixedPoint(ToSentenceCase(text));
  }

  /** Characters that are not ASCII letters (spaces, '-', '_') pass through. */
  lemma {:induction false} NonLettersUnchanged(text: string, i: nat)
    requires i < |text| && !IsAsciiLetter(text[i])
    ensures ToSentenceCase(text)[i] == text[i]
  {
  }

  /** The cases of src/utils/formatText.test.ts that change the input. */
  lemma {:induction false} SentenceCaseLowerExample()
    ensures ToSentenceCase("hello world") == "Hello world"
  {
    var r := ToSentenceCase("hello world");
    assert forall i :: 0 <= i < |r| ==> r[i] == "Hello world"[i];
  }

  lemma {:induction false} SentenceCaseUpperExample()
    ensures ToSentenceCase("HELLO WORLD") == "Hello world"
  {
    var r := ToSentenceCase("HELLO WORLD");
    assert forall i :: 0 <= i < |r| ==> r[i] == "Hello world"[i];
  }

  lemma {:induction false} SentenceCaseMixedExample()
    ensures ToSentenceCase("hElLo WoRlD") == "Hello world"
  {
    var r := ToSentenceCase("hElLo WoRlD");
    assert forall i :: 0 <= i < |r| ==> r[i] == "Hello world"[i];
  }

  lemma {:induction false} SentenceCasePunctuationExample()
    ensures ToSentenceCase("hello-world") == "Hello-world"
    ensures ToSentenceCase("hello_world") == "Hello_world"
  {
    var d := ToSentenceCase("hello-world");
    assert forall i :: 0 <= i < |d| ==> d[i] == "Hello-world"[i];
    var e := ToSentenceCase("hello_world");
    assert forall i :: 0 <= i < |e| ==> e[i] == "Hello_world"[i];
  }

  /** The cases of the same tests whose input is already in sentence case or empty. */
  lemma {:induction false} SentenceCaseUnchangedExamples()
    ensures ToSentenceCase("") == ""
    ensures ToSentenceCase("a") == "A" && ToSentenceCase("A") == "A"
    ensures ToSentenceCase("  hello world  ") == "  hello world  "
    ensures ToSentenceCase("Hello world") == "Hello world"
  {
    SentenceCaseFixedPoint("  hello world  ");
    SentenceCaseFixedPoint("Hello world");
    SentenceCaseFixedPoint("A");
  }
}
