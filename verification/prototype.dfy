/**
 The earlier single-file version of the application (`Development/main.py`). Its
 session holds six keys, it has no question phase, no Q&A log and no completion
 detection; it answers an exit word with a fixed farewell without calling the model.
 */
module Prototype {
  import opened Wrappers
  import opened Text
  import opened Values
  import opened Session
  import opened Detect
  import opened Utils
  import Turn

  /** The prototype's session: the six keys it initialises. */
  datatype DevSession = DevSession(
    messages: seq<Message>,
    chatHistory: ChatHistory,
    candidateInfo: Profile,
    modeSelected: bool,
    inputMode: InputMode,
    resumeProcessed: bool)

  /** The values the six keys receive on the first run; the memory object is created at once. */
  const DevInitial := DevSession([], History, [], false, NoMode, false)

  /** The six keys of the current application's session, as the prototype sees them. */
  function Shared(s: Session): DevSession {
    DevSession(s.messages, s.chatHistory, s.candidateInfo, s.modeSelected, s.inputMode, s.resumeProcessed)
  }

  /** "Reset Conversation": the six keys are set back together, with a fresh memory object. */
  function DevReset(s: DevSession): (r: DevSession)
    ensures r == DevInitial
  {
    s.(messages := [], chatHistory := History, candidateInfo := [],
       modeSelected := false, inputMode := NoMode, resumeProcessed := false)
  }

  // ---------------------------------------------------------------------------
  // Exit words
  // ---------------------------------------------------------------------------

  const ExitWords: seq<string> := ["bye", "exit", "quit", "stop"]

  /**
   The exit test: the whole lower-cased message is one of the exit words; nothing is
   trimmed, so only a message of three or four letters without whitespace can exit.
   */
  function IsExit(prompt: string): (r: bool)
    ensures r ==> |prompt| == 3 || |prompt| == 4
    ensures r ==> forall i :: 0 <= i < |prompt| ==> !IsSpace(prompt[i])
  {
    var l := Lower(prompt);
    if l in ExitWords then
      assert forall i :: 0 <= i < |prompt| ==> LowerChar(prompt[i]) == l[i];
      assert forall i :: 0 <= i < |l| ==> 'a' <= l[i] <= 'z';
      true
    else false
  }

  /** Every spelling of an exit word, in any letter case, exits. */
  lemma ExitWordInAnyCase(w: string, prompt: string)
    requires w in ExitWords && |prompt| == |w|
    requires forall i :: 0 <= i < |prompt| ==> LowerChar(prompt[i]) == w[i]
    ensures IsExit(prompt)
  {
    assert Lower(prompt) == w;
  }

  /** The closing message the prototype writes itself. */
  const Farewell := FarewellLead + FarewellRest

  const FarewellLead := "Thank you for your time"

  const FarewellRest := "! Your information has been recorded. Our recruitment team will review " +
    "your profile and get back to you within 2-3 business days. Have a great day! \U{1F44B}"

  /** Upper case still exits. */
  lemma UpperCaseByeExits()
    ensures IsExit("BYE")
  {
    assert Lower("BYE") == "bye" == ExitWords[0];
  }

  /** A leading space defeats the test, and so does a longer word that ends in an exit word. */
  lemma PaddedOrLongerDoesNotExit()
    ensures !IsExit(" bye") && !IsExit("goodbye")
  {
    assert " bye"[0] == ' ';
  }

  /** The prototype's farewell would itself count as completing an assessment in the current detector. */
  lemma FarewellReadsAsCompletion()
    ensures DetectAssessmentComplete(Farewell)
  {
    FarewellLeadLowers();
    assert CompletionPhrases[1] == "thank you for your time";
    PhraseInAnyCase([], FarewellLead, FarewellRest, 1);
    assert [] + FarewellLead + FarewellRest == Farewell;
  }

  lemma FarewellLeadLowers()
    ensures Lower(FarewellLead) == "thank you for your time"
  {
    assert FarewellLead == "Thank you for your time";
    TitleLowers();
  }

  lemma TitleLowers()
    ensures Lower("Thank you for your time") == "thank you for your time"
  {
  }

  // ---------------------------------------------------------------------------
  // Transitions
  // ---------------------------------------------------------------------------

  function DevStartChat(s: DevSession): (r: DevSession)
    ensures s.modeSelected ==> r == s
    ensures !s.modeSelected ==>
      && r.modeSelected && r.inputMode == ChatMode
      && r.messages == s.messages + [Message(Assistant, Turn.ChatGreeting)]
      && r.(modeSelected := false, inputMode := s.inputMode, messages := s.messages) == s
  {
    if s.modeSelected then s
    else s.(modeSelected := true, inputMode := ChatMode,
            messages := s.messages + [Message(Assistant, Turn.ChatGreeting)])
  }

  function DevStartResume(s: DevSession): (r: DevSession)
    ensures s.modeSelected ==> r == s
    ensures !s.modeSelected ==> r == s.(modeSelected := true, inputMode := ResumeMode)
  {
    if s.modeSelected then s
    else DevSession(s.messages, s.chatHistory, s.candidateInfo, true, ResumeMode, s.resumeProcessed)
  }

  function DevUpload(s: DevSession, extracted: Profile): (r: DevSession)
    ensures !(s.modeSelected && s.inputMode == ResumeMode && !s.resumeProcessed) || extracted == [] ==> r == s
    ensures s.modeSelected && s.inputMode == ResumeMode && !s.resumeProcessed && extracted != [] ==>
      && r.candidateInfo == extracted && r.resumeProcessed
      && r.messages == s.messages + [Message(Assistant, Turn.ResumeGreeting(extracted))]
  {
    if s.modeSelected && s.inputMode == ResumeMode && !s.resumeProcessed && extracted != [] then
      s.(candidateInfo := extracted,
         messages := s.messages + [Message(Assistant, Turn.ResumeGreeting(extracted))],
         resumeProcessed := true)
    else s
  }

  /** Mode selection and resume upload are unchanged from the prototype to the current application. */
  lemma ModeStartsAgree(s: Session, extracted: Profile)
    ensures Shared(Turn.StartChat(s)) == DevStartChat(Shared(s))
    ensures Shared(Turn.StartResume(s)) == DevStartResume(Shared(s))
    ensures Shared(Turn.UploadResume(s, extracted)) == DevUpload(Shared(s), extracted)
  {
  }

  /**
   One pass through the prototype's chat interface. It is open as soon as a mode is
   chosen; the review turn is as in the current application; an exit word appends the
   message and the farewell and ends the run before the model is called; any other
   message is appended and followed by the model's reply when the call succeeds.
   */
  function DevRun(s: DevSession, prompt: string, reply: Option<string>): (r: DevSession)
    ensures !s.modeSelected ==> r == s
    ensures s.messages <= r.messages
    ensures r.(messages := s.messages) == s
  {
    if !s.modeSelected then s
    else if s.inputMode == ResumeMode && s.resumeProcessed && |s.messages| == 1 then
      match reply
      case None => s
      case Some(answer) => s.(messages := s.messages + [Message(Assistant, answer)])
    else if prompt == "" then s
    else if IsExit(prompt) then
      s.(messages := s.messages + [Message(User, prompt), Message(Assistant, Farewell)])
    else
      match reply
      case None => s.(messages := s.messages + [Message(User, prompt)])
      case Some(answer) => s.(messages := s.messages + [Message(User, prompt), Message(Assistant, answer)])
  }

  /** On an exit word exactly two messages are added, the last being the farewell, whatever the model would say. */
  lemma ExitSkipsModel(s: DevSession, prompt: string, reply: Option<string>, other: Option<string>)
    requires s.modeSelected && !(s.inputMode == ResumeMode && s.resumeProcessed && |s.messages| == 1)
    requires IsExit(prompt)
    ensures DevRun(s, prompt, reply).messages == s.messages + [Message(User, prompt), Message(Assistant, Farewell)]
    ensures DevRun(s, prompt, reply) == DevRun(s, prompt, other)
  {
  }

  /**
   The current application has no exit check: "bye" is sent to the model and its
   reply is recorded, where the prototype would have answered with its farewell.
   */
  lemma ByeReachesModelOnlyInCurrentApp(s: Session, answer: string)
    requires Turn.ChatOpen(s) && !Turn.ReviewDue(s)
    ensures Turn.Run(s, "bye", Some(answer)).messages[|s.messages| + 1] == Message(Assistant, answer)
    ensures DevRun(Shared(s), "bye", Some(answer)).messages[|s.messages| + 1] == Message(Assistant, Farewell)
  {
    assert Lower("bye") == "bye" == ExitWords[0];
  }
}
