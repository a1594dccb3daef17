/**
 The prompt builders: the profile summary and question/answer block sent with the
 analysis request, the resume-extraction request, and the scripted closing sentence
 of the system prompt.
 */
module Prompts {
  import opened Text
  import opened Values
  import opened Session
  import opened Config
  import opened Detect
  import opened Utils

  // ---------------------------------------------------------------------------
  // Profile summary for the analysis request
  // ---------------------------------------------------------------------------

  /** The five fields the analysis summary reports, in order; phone and location are not among them. */
  const AnalysisFields: seq<string> := [FullName, Email, YearsOfExperience, DesiredPositions, TechStack]

  /**
   The text after the label in a summary line. It matches the display text of the
   natural rendering, except that the tech stack is written as stored, not flattened.
   */
  function AnalysisText(key: string, v: Value): string {
    if key == YearsOfExperience then ValueText(v) + " years"
    else if key == DesiredPositions then PositionsText(v)
    else ValueText(v)
  }

  /** The line a field contributes to the summary, under the same label as in the natural rendering. */
  function AnalysisLine(info: Profile, key: string): string {
    NaturalLabel(key) + ": " + AnalysisText(key, Get(info, key))
  }

  function AnalysisLineOf(info: Profile): string -> string {
    key => AnalysisLine(info, key)
  }

  /**
   The `parts` list of `format_info_for_analysis`: five tests in a row, each adding
   at most one line, give one line per truthy summary field, in field order.
   */
  function AnalysisParts(info: Profile): (parts: seq<string>)
    ensures parts == Picked(info, AnalysisFields, AnalysisLineOf(info))
  {
    var f := AnalysisLineOf(info);
    PickedChain5(info, f, FullName, Email, YearsOfExperience, DesiredPositions, TechStack);
    IfTruthy(info, FullName, f)
    + (IfTruthy(info, Email, f)
    + (IfTruthy(info, YearsOfExperience, f)
    + (IfTruthy(info, DesiredPositions, f)
    + IfTruthy(info, TechStack, f))))
  }

  /** `format_info_for_analysis`: the summary lines joined with newlines; empty when no summary field is truthy. */
  function FormatInfoForAnalysis(info: Profile): (r: string)
    ensures r == [] <==> TruthyKeys(info, AnalysisFields) == []
  {
    var parts := AnalysisParts(info);
    assert parts != [] ==> parts[0] != [] by {
      if parts != [] {
        var k := TruthyKeys(info, AnalysisFields)[0];
        assert parts[0] == AnalysisLine(info, k);
      }
    }
    Join(parts, "\n")
  }

  /** Profiles that agree on the five summary fields have the same summary. */
  lemma AnalysisDependsOnFields(p: Profile, q: Profile)
    requires Get(p, FullName) == Get(q, FullName) && Get(p, Email) == Get(q, Email)
    requires Get(p, YearsOfExperience) == Get(q, YearsOfExperience)
    requires Get(p, DesiredPositions) == Get(q, DesiredPositions) && Get(p, TechStack) == Get(q, TechStack)
    ensures FormatInfoForAnalysis(p) == FormatInfoForAnalysis(q)
  {
    SameField(p, q, FullName);
    SameField(p, q, Email);
    SameField(p, q, YearsOfExperience);
    SameField(p, q, DesiredPositions);
    SameField(p, q, TechStack);
  }

  lemma SameField(p: Profile, q: Profile, k: string)
    requires Get(p, k) == Get(q, k)
    ensures IfTruthy(p, k, AnalysisLineOf(p)) == IfTruthy(q, k, AnalysisLineOf(q))
  {
  }

  /** Changing the phone number or the location never changes the summary. */
  lemma AnalysisIgnoresContact(info: Profile, key: string, v: Value)
    requires key == PhoneNumber || key == CurrentLocation
    ensures FormatInfoForAnalysis(Put(info, key, v)) == FormatInfoForAnalysis(info)
  {
    var q := Put(info, key, v);
    assert key[0] == 'p' || key[0] == 'c';
    GetPut(info, key, v, FullName);
    GetPut(info, key, v, Email);
    GetPut(info, key, v, YearsOfExperience);
    GetPut(info, key, v, DesiredPositions);
    GetPut(info, key, v, TechStack);
    AnalysisDependsOnFields(q, info);
  }

  /** The summary line of a field is its natural-rendering line, unless it is a categorised tech stack. */
  lemma AnalysisLineIsNatural(info: Profile, key: string)
    requires !(key == TechStack && Get(info, key).Cats?)
    ensures AnalysisLine(info, key) == NaturalLine(info, key)
  {
  }

  /** A categorised tech stack is written as a mapping, `{...}`, instead of being flattened. */
  lemma AnalysisKeepsMapping(info: Profile)
    requires Get(info, TechStack).Cats?
    ensures |AnalysisLine(info, TechStack)| > 12 && AnalysisLine(info, TechStack)[12] == '{'
  {
    var v := Get(info, TechStack);
    var t := ValueText(v);
    assert t[0] == '{';
    assert AnalysisLine(info, TechStack) == "Tech Stack: " + t;
  }

  // ---------------------------------------------------------------------------
  // Question/answer block and the analysis request
  // ---------------------------------------------------------------------------

  /** One recorded pair as the analysis request shows it. */
  function QaEntry(p: QaPair): string {
    "Q: " + p.question + "\nA: " + p.answer
  }

  function QaEntries(qa: seq<QaPair>): (r: seq<string>)
    ensures |r| == |qa|
    ensures forall i :: 0 <= i < |qa| ==> r[i] == QaEntry(qa[i])
  {
    seq(|qa|, i requires 0 <= i < |qa| => QaEntry(qa[i]))
  }

  /** `qa_text`: the entries joined with newlines. */
  function QaBlock(qa: seq<QaPair>): (r: string)
    ensures qa == [] <==> r == []
  {
    var entries := QaEntries(qa);
    assert entries != [] ==> entries[0][0] == 'Q';
    Join(entries, "\n")
  }

  /** Recording one more pair adds a newline and its entry at the end of the block. */
  lemma QaBlockAppend(qa: seq<QaPair>, p: QaPair)
    requires qa != []
    ensures QaBlock(qa + [p]) == QaBlock(qa) + "\n" + QaEntry(p)
  {
    assert QaEntries(qa + [p]) == QaEntries(qa) + [QaEntry(p)];
    JoinAppend(QaEntries(qa), QaEntry(p), "\n");
  }

  /** Every recorded question and answer appears in the block. */
  lemma QaBlockHasEntry(qa: seq<QaPair>, i: nat)
    requires i < |qa|
    ensures Contains(QaBlock(qa), QaEntry(qa[i]))
  {
    JoinContains(QaEntries(qa), "\n", i);
  }

  const AnalysisIntro := "\nAnalyze this candidate's technical interview performance and provide a detailed assessment.\n\nCandidate Information:\n"
  const AnalysisMiddle := "\n\nTechnical Questions & Answers:\n"
  const AnalysisInstructions :=
    "\n\nProvide a comprehensive analysis covering:\n"
    + "1. Overall Technical Competency (score out of 10)\n"
    + "2. Strengths (specific examples from their answers)\n"
    + "3. Areas for Improvement (specific examples)\n"
    + "4. Knowledge Depth Assessment (beginner/intermediate/advanced/expert)\n"
    + "5. Communication Skills (how well they explained concepts)\n"
    + "6. Recommendation (Strong Hire / Hire / Maybe / No Hire) with reasoning\n"
    + "7. Suggested Next Steps\n\n"
    + "Be specific, fair, and constructive in your assessment.\n"

  /**
   `get_analysis_prompt`: the fixed text with the summary and the question/answer block
   in their places. The request opens with the fixed introduction, closes with the
   instructions, and carries both the summary and the whole block.
   */
  function AnalysisPrompt(info: Profile, qa: seq<QaPair>): (r: string)
    ensures AnalysisIntro <= r
    ensures EndsWith(r, AnalysisInstructions)
    ensures Contains(r, FormatInfoForAnalysis(info)) && Contains(r, QaBlock(qa))
  {
    FrameSurrounds(AnalysisIntro, FormatInfoForAnalysis(info), AnalysisMiddle, QaBlock(qa), AnalysisInstructions);
    Frame(AnalysisIntro, FormatInfoForAnalysis(info), AnalysisMiddle, QaBlock(qa), AnalysisInstructions)
  }

  /** Every recorded pair reaches the analysis request. */
  lemma AnalysisPromptHasAnswers(info: Profile, qa: seq<QaPair>, i: nat)
    requires i < |qa|
    ensures Contains(AnalysisPrompt(info, qa), QaEntry(qa[i]))
  {
    QaBlockHasEntry(qa, i);
    FrameHasSecond(AnalysisIntro, FormatInfoForAnalysis(info), AnalysisMiddle, QaBlock(qa), AnalysisInstructions, QaEntry(qa[i]));
  }

  /** Every truthy summary field reaches the analysis request. */
  lemma AnalysisPromptHasField(info: Profile, qa: seq<QaPair>, k: string)
    requires k in AnalysisFields && Truthy(Get(info, k))
    ensures Contains(AnalysisPrompt(info, qa), AnalysisLine(info, k))
  {
    SummaryHasField(info, k);
    FrameHasFirst(AnalysisIntro, FormatInfoForAnalysis(info), AnalysisMiddle, QaBlock(qa), AnalysisInstructions, AnalysisLine(info, k));
  }

  /** The summary holds the line of every truthy summary field. */
  lemma SummaryHasField(info: Profile, k: string)
    requires k in AnalysisFields && Truthy(Get(info, k))
    ensures Contains(FormatInfoForAnalysis(info), AnalysisLine(info, k))
  {
    var parts := AnalysisParts(info);
    PickedHas(info, AnalysisFields, AnalysisLineOf(info), k);
    var j :| 0 <= j < |parts| && parts[j] == AnalysisLine(info, k);
    JoinContains(parts, "\n", j);
  }

  // ---------------------------------------------------------------------------
  // Resume extraction request
  // ---------------------------------------------------------------------------

  /** The type the extraction request gives for each required field, in field order. */
  const FieldTypes: seq<string> := [
    "string", "string", "string", "number", "array of strings", "string",
    "string - comma-separated list of all technologies, languages, frameworks, databases, tools"
  ]

  function FieldLine(i: nat): string
    requires i < |RequiredFields|
  {
    "- " + RequiredFields[i] + " (" + FieldTypes[i] + ")"
  }

  function FieldLines(): (r: seq<string>)
    ensures |r| == |RequiredFields|
    ensures forall i :: 0 <= i < |RequiredFields| ==> r[i] == FieldLine(i)
  {
    seq(|RequiredFields|, i requires 0 <= i < |RequiredFields| => FieldLine(i))
  }

  const ExtractionIntro :=
    "\nExtract the following information from this resume and return ONLY a valid JSON object.\n"
    + "If any field is not found, use null.\n\nRequired fields:\n"
  const ResumeHeading := "\n\nResume text:\n"
  const ExtractionOutro := "\n\nReturn ONLY the JSON object, no explanation or markdown.\n"

  /** Everything the extraction request says before the resume text: the introduction and the field list. */
  function ExtractionHead(): string {
    ExtractionIntro + Join(FieldLines(), "\n") + ResumeHeading
  }

  /**
   `get_extraction_prompt`: the request naming the seven fields, followed by the resume
   text verbatim and the closing instruction. Cutting off the fixed head and tail gives
   the resume text back.
   */
  function ExtractionPrompt(resumeText: string): (r: string)
    ensures Framed(r, ExtractionHead(), resumeText, ExtractionOutro)
  {
    FrameSecondSlice(ExtractionIntro, Join(FieldLines(), "\n"), ResumeHeading, resumeText, ExtractionOutro);
    Frame(ExtractionIntro, Join(FieldLines(), "\n"), ResumeHeading, resumeText, ExtractionOutro)
  }

  /** Different resume texts never give the same extraction request. */
  lemma ExtractionPromptInjective(a: string, b: string)
    requires ExtractionPrompt(a) == ExtractionPrompt(b)
    ensures a == b
  {
    FramedInjective(ExtractionPrompt(a), ExtractionHead(), a, b, ExtractionOutro);
  }

  /** Each required field is named in the extraction request, with its type. */
  lemma ExtractionNamesField(resumeText: string, i: nat)
    requires i < |RequiredFields|
    ensures Contains(ExtractionPrompt(resumeText), "- " + RequiredFields[i] + " (" + FieldTypes[i] + ")")
  {
    JoinContains(FieldLines(), "\n", i);
    FrameHasFirst(ExtractionIntro, Join(FieldLines(), "\n"), ResumeHeading, resumeText, ExtractionOutro, FieldLine(i));
  }

  // ---------------------------------------------------------------------------
  // The scripted closing sentence
  // ---------------------------------------------------------------------------

  const ClosingLead := "That completes our technical assessment"

  /** The sentence the system prompt tells the model to say after the fifth question. */
  const ClosingSentence := ClosingLead + ". Thank you for your time! I'm now generating your detailed report."

  /** A reply that carries the scripted closing sentence, wherever it stands, ends the assessment. */
  lemma ClosingSentenceCompletes(a: string, b: string)
    ensures DetectAssessmentComplete(a + ClosingSentence + b)
  {
    var rest := ". Thank you for your time! I'm now generating your detailed report.";
    ClosingLeadCompletes(a, rest + b);
    Regroup(a, ClosingLead, rest, b);
  }

  lemma ClosingLeadCompletes(a: string, b: string)
    ensures DetectAssessmentComplete(a + ClosingLead + b)
  {
    ClosingLeadLowers();
    assert CompletionPhrases[0] == "that completes our technical assessment";
    PhraseInAnyCase(a, ClosingLead, b, 0);
  }

  lemma ClosingLeadLowers()
    ensures Lower(ClosingLead) == "that completes our technical assessment"
  {
    ClosingLeadHalves();
    ClosingLeadJoins();
    LowerJoin("That completes", " our technical assessment", "that completes", " our technical assessment");
  }

  lemma ClosingLeadHalves()
    ensures Lower("That completes") == "that completes"
    ensures Lower(" our technical assessment") == " our technical assessment"
  {
  }

  lemma ClosingLeadJoins()
    ensures "That completes" + " our technical assessment" == ClosingLead
    ensures "that completes" + " our technical assessment" == "that completes our technical assessment"
  {
    ClosingLeadJoin();
    assert ClosingLead == "That completes our technical assessment";
  }

  lemma ClosingLeadJoin()
    ensures "That completes" + " our technical assessment" == "That completes our technical assessment"
  {
  }

  lemma Regroup(a: string, x: string, y: string, b: string)
    ensures a + x + (y + b) == a + (x + y) + b
  {
  }
}
