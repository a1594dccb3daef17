/**
 The two text heuristics that read control signals out of the assistant's free-text
 replies: the completion-phrase detector and the "is a question" detector, plus the
 topic test that marks the start of the technical-question phase.
 */
module Detect {
  import opened Text

  /** The closed list of phrases that mark the end of the assessment. */
  const CompletionPhrases: seq<string> := [
    "that completes our technical assessment",
    "thank you for your time",
    "generating your detailed report",
    "concludes our technical assessment",
    "finished with the technical questions",
    "completed the assessment"
  ]

  /** The openers that make a message without `?` count as a question. */
  const QuestionStarters: seq<string> := [
    "what", "how", "why", "when", "where", "can you", "could you", "would you",
    "explain", "describe", "tell me"
  ]

  /** `any(phrase in s for phrase in phrases)`. */
  function ContainsAny(s: string, phrases: seq<string>): (r: bool)
    ensures r <==> exists i :: 0 <= i < |phrases| && Contains(s, phrases[i])
  {
    if phrases == [] then false
    else
      var rest := ContainsAny(s, phrases[1..]);
      assert forall i :: 1 <= i < |phrases| ==> phrases[i] == phrases[1..][i - 1];
      Contains(s, phrases[0]) || rest
  }

  /** `any(s.startswith(p) for p in prefixes)`. */
  function StartsWithAny(s: string, prefixes: seq<string>): (r: bool)
    ensures r <==> exists i :: 0 <= i < |prefixes| && prefixes[i] <= s
  {
    if prefixes == [] then false
    else
      var rest := StartsWithAny(s, prefixes[1..]);
      assert forall i :: 1 <= i < |prefixes| ==> prefixes[i] == prefixes[1..][i - 1];
      prefixes[0] <= s || rest
  }

  /** `detect_assessment_complete`: the lower-cased reply contains one of the completion phrases. */
  function DetectAssessmentComplete(message: string): (r: bool)
    ensures r <==> exists i :: 0 <= i < |CompletionPhrases| && Contains(Lower(message), CompletionPhrases[i])
  {
    ContainsAny(Lower(message), CompletionPhrases)
  }

  /** The detector ignores letter case. */
  lemma CompletionIgnoresCase(m: string, n: string)
    requires Lower(m) == Lower(n)
    ensures DetectAssessmentComplete(m) == DetectAssessmentComplete(n)
  {
  }

  /** Text around a completing reply never hides the completion. */
  lemma CompletionInContext(a: string, m: string, b: string)
    requires DetectAssessmentComplete(m)
    ensures DetectAssessmentComplete(a + m + b)
  {
    var i :| 0 <= i < |CompletionPhrases| && Contains(Lower(m), CompletionPhrases[i]);
    LowerAppend(a + m, b);
    LowerAppend(a, m);
    ContainsInContext(Lower(a), Lower(m), Lower(b), CompletionPhrases[i]);
  }

  /** The word "assessment" on its own does not complete the assessment. */
  lemma AssessmentAloneIncomplete()
    ensures !DetectAssessmentComplete("assessment")
  {
    forall i | 0 <= i < |CompletionPhrases|
      ensures !Contains(Lower("assessment"), CompletionPhrases[i])
    {
      NotContainsLonger(Lower("assessment"), CompletionPhrases[i]);
    }
  }

  /** A completion phrase written in any letter case, anywhere in a reply, completes the assessment. */
  lemma PhraseInAnyCase(a: string, x: string, b: string, i: nat)
    requires i < |CompletionPhrases| && Lower(x) == CompletionPhrases[i]
    ensures DetectAssessmentComplete(a + x + b)
  {
    assert Contains(Lower(x), CompletionPhrases[i]) by {
      assert CompletionPhrases[i] <= Lower(x)[0..];
    }
    CompletionInContext(a, x, b);
  }

  /** "...Concludes Our Technical Assessment..." completes the assessment, whatever surrounds it. */
  lemma ConcludesInMixedCase(a: string, b: string)
    ensures DetectAssessmentComplete(a + "Concludes Our Technical Assessment" + b)
  {
    MixedCaseLowers();
    assert CompletionPhrases[3] == "concludes our technical assessment";
    PhraseInAnyCase(a, "Concludes Our Technical Assessment", b, 3);
  }

  lemma MixedCaseLowers()
    ensures Lower("Concludes Our Technical Assessment") == "concludes our technical assessment"
  {
    MixedCaseHalves();
    MixedCaseJoins();
    LowerJoin("Concludes Our", " Technical Assessment", "concludes our", " technical assessment");
  }

  lemma MixedCaseHalves()
    ensures Lower("Concludes Our") == "concludes our"
    ensures Lower(" Technical Assessment") == " technical assessment"
  {
  }

  lemma MixedCaseJoins()
    ensures "Concludes Our" + " Technical Assessment" == "Concludes Our Technical Assessment"
    ensures "concludes our" + " technical assessment" == "concludes our technical assessment"
  {
  }

  /**
   `detect_question_in_message`: the message holds a `?`, or its lower-cased,
   stripped form starts with one of the question openers.
   */
  function DetectQuestion(message: string): (r: bool)
    ensures '?' in message ==> r
    ensures '?' !in message ==>
      (r <==> exists i :: 0 <= i < |QuestionStarters| && QuestionStarters[i] <= Strip(Lower(message)))
  {
    '?' in message || StartsWithAny(Strip(Lower(message)), QuestionStarters)
  }

  /** "I see, thanks." is not a question. */
  lemma AcknowledgementIsNotQuestion()
    ensures !DetectQuestion("I see, thanks.")
  {
    var l := "i see, thanks.";
    assert Lower("I see, thanks.") == l;
    assert forall i :: 0 <= i < |QuestionStarters| ==> QuestionStarters[i][0] != l[0];
    NoOpenerNoQuestion("I see, thanks.", l);
  }

  /** A message without `?` whose trimmed lower-case form starts unlike every opener is not a question. */
  lemma NoOpenerNoQuestion(m: string, l: string)
    requires '?' !in m && Lower(m) == l
    requires l != [] && !IsSpace(l[0]) && !IsSpace(l[|l| - 1])
    requires forall i :: 0 <= i < |QuestionStarters| ==> QuestionStarters[i][0] != l[0]
    ensures !DetectQuestion(m)
  {
    StripUntrimmed(l);
  }

  /** A message ending in `?` is a question. */
  lemma ElaborateIsQuestion()
    ensures DetectQuestion("Can you elaborate?")
  {
    assert "Can you elaborate?"[17] == '?';
  }

  /** Leading whitespace and capitals do not hide an opener: "  Describe X" is a question. */
  lemma IndentedDescribeIsQuestion(ws: string, rest: string)
    requires forall i :: 0 <= i < |ws| ==> IsSpace(ws[i])
    ensures DetectQuestion(ws + "Describe" + rest)
  {
    var m := ws + "Describe" + rest;
    var w := "describe";
    LowerIndentedDescribe(ws, rest);
    DescribeIsOpener();
    StripKeepsLeadingWord(ws, w, Lower(rest));
    OpenerMakesQuestion(m, 9);
  }

  lemma DescribeIsOpener()
    ensures QuestionStarters[9] == "describe"
    ensures !IsSpace("describe"[0]) && !IsSpace("describe"[7])
  {
  }

  lemma LowerIndentedDescribe(ws: string, rest: string)
    requires forall i :: 0 <= i < |ws| ==> IsSpace(ws[i])
    ensures Lower(ws + "Describe" + rest) == ws + "describe" + Lower(rest)
  {
    LowerNoCapitals(ws);
    assert Lower("Describe") == "describe";
    LowerAppend(ws + "Describe", rest);
    LowerAppend(ws, "Describe");
  }

  /** A message whose normalised form starts with an opener is a question. */
  lemma OpenerMakesQuestion(m: string, i: nat)
    requires i < |QuestionStarters|
    ensures QuestionStarters[i] <= Strip(Lower(m)) ==> DetectQuestion(m)
  {
  }

  /**
   Openers are matched as prefixes, not words: a statement that begins with
   "However" counts as a question because it starts with "how".
   */
  lemma HoweverCountsAsQuestion()
    ensures DetectQuestion("However, that is fine.")
  {
    var l := "however, that is fine.";
    assert Lower("However, that is fine.") == l;
    assert QuestionStarters[1] <= l;
    UntrimmedOpener("However, that is fine.", l, 1);
  }

  lemma UntrimmedOpener(m: string, l: string, i: nat)
    requires Lower(m) == l && l != [] && !IsSpace(l[0]) && !IsSpace(l[|l| - 1])
    requires i < |QuestionStarters| && QuestionStarters[i] <= l
    ensures DetectQuestion(m)
  {
    StripUntrimmed(l);
  }

  /** The reply that opens the technical-question phase mentions "technical" and "question", in any case. */
  predicate MentionsTechnicalQuestions(reply: string) {
    Contains(Lower(reply), "technical") && Contains(Lower(reply), "question")
  }

  /**
   The two words open the phase in any letter case, in either order, and anywhere in
   the reply, even inside longer words ("Questionnaire", "nontechnical").
   */
  lemma TechnicalQuestionsAnyCaseAnyOrder(a: string, x: string, b: string, y: string, c: string)
    requires Lower(x) == "question" && Lower(y) == "technical"
    ensures MentionsTechnicalQuestions(a + x + b + y + c)
    ensures MentionsTechnicalQuestions(a + y + b + x + c)
  {
    BothWords(a, x, b, y, c, "question", "technical");
    BothWords(a, y, b, x, c, "technical", "question");
  }

  /** Two parts lower-casing to `v` and `w` put both words in the lower-cased whole. */
  lemma BothWords(a: string, x: string, b: string, y: string, c: string, v: string, w: string)
    requires Lower(x) == v && Lower(y) == w
    ensures Contains(Lower(a + x + b + y + c), v) && Contains(Lower(a + x + b + y + c), w)
  {
    LowerHasWord(a, x, b + y + c, v);
    LowerHasWord(a + x + b, y, c, w);
    ConcatAssoc(a + x, b + y, c);
    ConcatAssoc(a + x, b, y);
  }

  /** A part that lower-cases to `w` puts `w` in the lower-cased whole. */
  lemma LowerHasWord(pre: string, x: string, post: string, w: string)
    requires Lower(x) == w
    ensures Contains(Lower(pre + x + post), w)
  {
    LowerAppend(pre + x, post);
    LowerAppend(pre, x);
    ContainsPrefix(w, w);
    ContainsInContext(Lower(pre), w, Lower(post), w);
  }

  /** Without the word "technical" in any case, no reply opens the phase. */
  lemma NoTechnicalNoPhase(reply: string)
    requires !Contains(Lower(reply), "technical")
    ensures !MentionsTechnicalQuestions(reply)
  {
  }
}
