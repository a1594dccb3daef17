/**
 The session-state transitions of the screening application, one per rerun of the
 script: choosing a mode, uploading a resume, the resume-review turn, the chat turn
 and the reset. A rerun that ends the run (`st.rerun()`) is the end of a transition.
 The language model's replies and extraction results are inputs: a reply is
 `Some(text)`, or `None` when the call raised.
 */
module Turn {
  import opened Wrappers
  import opened Text
  import opened Values
  import opened Session
  import opened Config
  import opened Detect
  import opened Utils
  import opened Prompts

  // ---------------------------------------------------------------------------
  // Mode selection and resume upload
  // ---------------------------------------------------------------------------

  const FullNameQuestion := "What's your full name?"

  /** The greeting appended when chat mode starts. */
  const ChatGreeting := "Hello! I'm TalentScout, your AI hiring assistant. I'll help you through " +
    "our initial screening process by collecting some basic information and assessing your " +
    "technical skills. Let's get started!\n\n" + FullNameQuestion

  const ResumeGreetingLead := "Hello! I'm TalentScout, your AI hiring assistant. I've analyzed " +
    "your resume and extracted the following information:\n\n"

  const ResumeGreetingTail := "\n\nLet me verify if I have everything I need, and I'll ask for any missing details."

  /** The greeting appended after a successful extraction: the profile in natural language, framed. */
  function ResumeGreeting(info: Profile): string {
    ResumeGreetingLead + FormatNatural(info) + ResumeGreetingTail
  }

  /** The chat greeting ends by asking for the name, so it reads as a question. */
  lemma ChatGreetingAsksName()
    ensures FullNameQuestion <= ChatGreeting[|ChatGreeting| - |FullNameQuestion|..]
    ensures DetectQuestion(ChatGreeting)
  {
    assert ChatGreeting[|ChatGreeting| - |FullNameQuestion|..] == FullNameQuestion;
    assert ChatGreeting[|ChatGreeting| - 1] == FullNameQuestion[|FullNameQuestion| - 1] == '?';
  }

  /** The resume greeting shows every line of the natural rendering of the extracted profile. */
  lemma ResumeGreetingShowsProfile(info: Profile, k: string)
    requires k in RequiredFields && Truthy(Get(info, k))
    ensures Contains(ResumeGreeting(info), NaturalLine(info, k))
  {
    PickedHas(info, RequiredFields, NaturalLineOf(info), k);
    var parts := NaturalParts(info);
    var i :| 0 <= i < |parts| && parts[i] == NaturalLine(info, k);
    JoinContains(parts, "\n", i);
    ContainsInContext(ResumeGreetingLead, FormatNatural(info), ResumeGreetingTail, NaturalLine(info, k));
  }

  /** "Start Chat": only offered before a mode is chosen; sets chat mode and greets. */
  function StartChat(s: Session): (r: Session)
    ensures s.modeSelected ==> r == s
    ensures !s.modeSelected ==>
      && r.modeSelected && r.inputMode == ChatMode
      && r.messages == s.messages + [Message(Assistant, ChatGreeting)]
      && r.(modeSelected := s.modeSelected, inputMode := s.inputMode, messages := s.messages) == s
  {
    if s.modeSelected then s
    else s.(modeSelected := true, inputMode := ChatMode,
            messages := s.messages + [Message(Assistant, ChatGreeting)])
  }

  /** "Upload Resume": only offered before a mode is chosen; sets resume mode and nothing else. */
  function StartResume(s: Session): (r: Session)
    ensures s.modeSelected ==> r == s
    ensures !s.modeSelected ==>
      && r.modeSelected && r.inputMode == ResumeMode
      && r.(modeSelected := s.modeSelected, inputMode := s.inputMode) == s
  {
    if s.modeSelected then s
    else s.(modeSelected := true, inputMode := ResumeMode)
  }

  /** The uploader is shown once resume mode is chosen and until a resume has been processed. */
  predicate UploadOpen(s: Session) {
    s.modeSelected && s.inputMode == ResumeMode && !s.resumeProcessed
  }

  /**
   A resume upload whose extraction gave `extracted`: a non-empty profile replaces
   `candidate_info` wholesale, adds the greeting and marks the resume processed; an
   empty one changes nothing.
   */
  function UploadResume(s: Session, extracted: Profile): (r: Session)
    ensures !UploadOpen(s) || extracted == [] ==> r == s
    ensures UploadOpen(s) && extracted != [] ==>
      && r.candidateInfo == extracted
      && r.messages == s.messages + [Message(Assistant, ResumeGreeting(extracted))]
      && r.resumeProcessed
      && r.(candidateInfo := s.candidateInfo, messages := s.messages, resumeProcessed := false) == s
  {
    if UploadOpen(s) && extracted != [] then
      s.(candidateInfo := extracted,
         messages := s.messages + [Message(Assistant, ResumeGreeting(extracted))],
         resumeProcessed := true)
    else s
  }

  // ---------------------------------------------------------------------------
  // The last assistant message
  // ---------------------------------------------------------------------------

  /** `i` is the position of the last assistant message in `ms`. */
  predicate LastAssistantAt(ms: seq<Message>, i: nat) {
    i < |ms| && ms[i].role == Assistant && forall j :: i < j < |ms| ==> ms[j].role != Assistant
  }

  /** The reversed scan for the most recent assistant message; `None` when there is none. */
  function LastAssistant(ms: seq<Message>): (r: Option<string>)
    ensures r.None? <==> forall i :: 0 <= i < |ms| ==> ms[i].role != Assistant
  {
    if ms == [] then None
    else if ms[|ms| - 1].role == Assistant then Some(ms[|ms| - 1].content)
    else LastAssistant(ms[..|ms| - 1])
  }

  /** What the scan finds is the content of the last assistant message. */
  lemma {:induction false} LastAssistantFound(ms: seq<Message>) returns (i: nat)
    requires LastAssistant(ms).Some?
    ensures LastAssistantAt(ms, i) && ms[i].content == LastAssistant(ms).value
  {
    if ms[|ms| - 1].role == Assistant {
      i := |ms| - 1;
    } else {
      var init := ms[..|ms| - 1];
      i := LastAssistantFound(init);
      assert init[i] == ms[i];
    }
  }

  /** Conversely, the scan finds the last assistant message. */
  lemma {:induction false} LastAssistantIs(ms: seq<Message>, i: nat)
    requires LastAssistantAt(ms, i)
    ensures LastAssistant(ms) == Some(ms[i].content)
  {
    if i != |ms| - 1 {
      var init := ms[..|ms| - 1];
      assert init[i] == ms[i];
      LastAssistantIs(init, i);
    }
  }

  // ---------------------------------------------------------------------------
  // The chat turn and the resume-review turn
  // ---------------------------------------------------------------------------

  /** The guard of the chat interface: a mode is chosen and the assessment is not complete. */
  predicate ChatOpen(s: Session) {
    s.modeSelected && !s.assessmentComplete
  }

  /** The resume-review turn is due: resume mode, resume processed, and only the greeting so far. */
  predicate ReviewDue(s: Session) {
    s.inputMode == ResumeMode && s.resumeProcessed && |s.messages| == 1
  }

  /**
   The Q&A pair a chat turn records, judged on the transcript before the user message.
   The source's `len(messages) >= 2` test is implied: an assistant message was found.
   */
  function Recorded(s: Session, userInput: string): (r: seq<QaPair>)
    ensures r != [] <==>
      (s.questionPhase &&
       exists i: nat :: LastAssistantAt(s.messages, i) && s.messages[i].content != "" && DetectQuestion(s.messages[i].content))
    ensures forall i: nat :: LastAssistantAt(s.messages, i) && r != [] ==> r == [QaPair(s.messages[i].content, userInput)]
  {
    if s.questionPhase then
      match LastAssistant(s.messages)
      case Some(q) =>
        LastAssistantMeans(s.messages);
        if q != "" && DetectQuestion(q) then [QaPair(q, userInput)] else []
      case None => []
    else []
  }

  /** The scan and the last assistant message, both ways round, as one fact. */
  lemma LastAssistantMeans(ms: seq<Message>)
    ensures LastAssistant(ms).Some? ==> exists i: nat :: LastAssistantAt(ms, i) && ms[i].content == LastAssistant(ms).value
    ensures forall i: nat :: LastAssistantAt(ms, i) ==> LastAssistant(ms) == Some(ms[i].content)
  {
    if LastAssistant(ms).Some? {
      var i := LastAssistantFound(ms);
    }
    forall i: nat | LastAssistantAt(ms, i)
      ensures LastAssistant(ms) == Some(ms[i].content)
    {
      LastAssistantIs(ms, i);
    }
  }

  /**
   A typed message: append it, record a Q&A pair when the previous assistant message
   was a question asked during the question phase, then, if the model answered, append
   the reply, open the question phase on a reply about technical questions, and end
   the assessment on a completion phrase. When the model call raises, the user message
   and the pair recorded before it stay.
   */
  function ChatTurn(s: Session, userInput: string, reply: Option<string>): (r: Session)
    requires ChatOpen(s) && userInput != ""
    ensures |r.messages| == |s.messages| + (if reply.Some? then 2 else 1)
    ensures r.messages[..|s.messages|] == s.messages
    ensures r.messages[|s.messages|] == Message(User, userInput)
    ensures reply.Some? ==> r.messages[|s.messages| + 1] == Message(Assistant, reply.value)
    ensures s.qaPairs <= r.qaPairs && |r.qaPairs| <= |s.qaPairs| + 1
    ensures r.questionPhase <==> s.questionPhase || (reply.Some? && MentionsTechnicalQuestions(reply.value))
    ensures r.assessmentComplete <==> reply.Some? && DetectAssessmentComplete(reply.value)
    ensures r.(messages := s.messages, qaPairs := s.qaPairs, questionPhase := s.questionPhase,
               assessmentComplete := s.assessmentComplete) == s
  {
    var asked := s.(messages := s.messages + [Message(User, userInput)],
                    qaPairs := s.qaPairs + Recorded(s, userInput));
    match reply
    case None => asked
    case Some(answer) =>
      asked.(messages := asked.messages + [Message(Assistant, answer)],
             questionPhase := s.questionPhase || MentionsTechnicalQuestions(answer),
             assessmentComplete := DetectAssessmentComplete(answer))
  }

  /**
   A chat turn records the answer to the last assistant message exactly when the
   question phase was already open and that message is a non-empty question.
   */
  lemma ChatTurnRecordsAnswer(s: Session, userInput: string, reply: Option<string>, i: nat)
    requires ChatOpen(s) && userInput != "" && LastAssistantAt(s.messages, i)
    ensures var q := s.messages[i].content;
      ChatTurn(s, userInput, reply).qaPairs ==
        s.qaPairs + (if s.questionPhase && q != "" && DetectQuestion(q) then [QaPair(q, userInput)] else [])
  {
    LastAssistantIs(s.messages, i);
  }

  /** With no assistant message in the transcript, nothing is recorded. */
  lemma ChatTurnNoQuestionNoPair(s: Session, userInput: string, reply: Option<string>)
    requires ChatOpen(s) && userInput != ""
    requires forall i :: 0 <= i < |s.messages| ==> s.messages[i].role != Assistant
    ensures ChatTurn(s, userInput, reply).qaPairs == s.qaPairs
  {
  }

  /**
   The resume-review turn: the model's reply to the review request is appended and
   may open the question phase; completion is not checked and no pair is recorded.
   */
  function ReviewTurn(s: Session, reply: Option<string>): (r: Session)
    requires ReviewDue(s)
    ensures reply.None? ==> r == s
    ensures reply.Some? ==>
      && r.messages == s.messages + [Message(Assistant, reply.value)]
      && (r.questionPhase <==> s.questionPhase || MentionsTechnicalQuestions(reply.value))
      && r.(messages := s.messages, questionPhase := s.questionPhase) == s
  {
    match reply
    case None => s
    case Some(answer) =>
      s.(messages := s.messages + [Message(Assistant, answer)],
         questionPhase := s.questionPhase || MentionsTechnicalQuestions(answer))
  }

  /**
   One pass through the chat interface with `userInput` typed (`""` when nothing was
   submitted) and `reply` the outcome of the one model call the pass makes.
   */
  function Run(s: Session, userInput: string, reply: Option<string>): (r: Session)
    ensures !ChatOpen(s) ==> r == s
    ensures ChatOpen(s) && !ReviewDue(s) && userInput == "" ==> r == s
    ensures r.assessmentComplete && !s.assessmentComplete ==> ChatOpen(s) && !ReviewDue(s) && reply.Some? && DetectAssessmentComplete(reply.value)
  {
    if !ChatOpen(s) then s
    else if ReviewDue(s) then ReviewTurn(s, reply)
    else if userInput == "" then s
    else ChatTurn(s, userInput, reply)
  }

  /** The review turn fires only when exactly one message exists, and never ends the assessment. */
  lemma ReviewOnlyOnGreeting(s: Session, userInput: string, reply: Option<string>)
    requires ChatOpen(s) && s.inputMode == ResumeMode && s.resumeProcessed && reply.Some?
    ensures var r := Run(s, userInput, reply);
      (|s.messages| == 1 ==> r.messages == s.messages + [Message(Assistant, reply.value)] && !r.assessmentComplete
                               && r.qaPairs == s.qaPairs)
      && (|s.messages| != 1 && userInput != "" ==> r.messages[|s.messages|] == Message(User, userInput))
  {
  }

  /** A reply carrying the scripted closing sentence of the system prompt ends the chat. */
  lemma ClosingSentenceEndsChat(s: Session, userInput: string, a: string, b: string)
    requires ChatOpen(s) && !ReviewDue(s) && userInput != ""
    ensures var r := Run(s, userInput, Some(a + ClosingSentence + b));
      r.assessmentComplete && !ChatOpen(r)
  {
    ClosingSentenceCompletes(a, b);
  }

  /**
   The answer to the reply that opens the question phase is the first pair recorded:
   a reply that announces technical questions and asks one opens the phase, and the
   next message is stored as its answer.
   */
  lemma OpeningQuestionAnswered(s: Session, u1: string, a: string, u2: string, reply2: Option<string>)
    requires ChatOpen(s) && !ReviewDue(s) && !s.questionPhase && u1 != "" && u2 != ""
    requires MentionsTechnicalQuestions(a) && a != "" && DetectQuestion(a) && !DetectAssessmentComplete(a)
    ensures var s1 := Run(s, u1, Some(a));
      s1.qaPairs == s.qaPairs && s1.questionPhase
      && Run(s1, u2, reply2).qaPairs == s.qaPairs + [QaPair(a, u2)]
  {
    var s1 := Run(s, u1, Some(a));
    assert |s1.messages| == |s.messages| + 2;
    assert LastAssistantAt(s1.messages, |s1.messages| - 1);
    ChatTurnRecordsAnswer(s1, u2, reply2, |s1.messages| - 1);
  }

  // ---------------------------------------------------------------------------
  // Reset and whole sessions
  // ---------------------------------------------------------------------------

  /** "Reset Conversation" and "Screen New Candidate": every key is deleted, then re-initialised. */
  function Reset(s: Session): (r: Session)
    ensures r == Defaults
    ensures r.messages == [] && r.qaPairs == [] && r.candidateInfo == [] && r.inputMode == NoMode
    ensures !r.modeSelected && !r.resumeProcessed && !r.questionPhase && !r.assessmentComplete
  {
    InitializeEmpty();
    Initialize(EmptyStore)
  }

  /** What a rerun can do to the session. */
  datatype Event =
    | ChooseChat
    | ChooseResume
    | Upload(extracted: Profile)
    | Submit(userInput: string, reply: Option<string>)
    | ResetAll

  /**
   The start of every pass that gets past the key prompt: the memory object is created
   when there is none yet, and nothing else changes.
   */
  function Connect(s: Session): (r: Session)
    ensures r.chatHistory == History
    ensures r.(chatHistory := s.chatHistory) == s
  {
    s.(chatHistory := History)
  }

  /**
   One rerun. A reset is handled in the sidebar before the memory object is touched and
   ends its pass; every other event happens in a pass that has connected first.
   */
  function Apply(s: Session, e: Event): (r: Session)
    ensures e.ResetAll? ==> r == Defaults
    ensures !e.ResetAll? ==> r.chatHistory == History
  {
    match e
    case ChooseChat => StartChat(Connect(s))
    case ChooseResume => StartResume(Connect(s))
    case Upload(p) => UploadResume(Connect(s), p)
    case Submit(u, reply) => Run(Connect(s), u, reply)
    case ResetAll => Reset(s)
  }

  function Replay(s: Session, events: seq<Event>): Session
    decreases |events|
  {
    if events == [] then s else Replay(Apply(s, events[0]), events[1..])
  }

  predicate NoReset(events: seq<Event>) {
    forall i :: 0 <= i < |events| ==> !events[i].ResetAll?
  }

  /**
   Without a reset, a single rerun only appends to the transcript and the Q&A log,
   never closes the question phase, and never reopens a completed assessment;
   once the assessment is complete the Q&A log is frozen.
   */
  lemma ApplyMonotone(s: Session, e: Event)
    requires !e.ResetAll?
    ensures var r := Apply(s, e);
      && s.messages <= r.messages && s.qaPairs <= r.qaPairs
      && (s.questionPhase ==> r.questionPhase)
      && (s.assessmentComplete ==> r.assessmentComplete && r.qaPairs == s.qaPairs)
  {
    match e
    case ChooseChat =>
    case ChooseResume =>
    case Upload(p) =>
    case Submit(u, reply) => RunMonotone(Connect(s), u, reply);
  }

  lemma RunMonotone(s: Session, userInput: string, reply: Option<string>)
    ensures var r := Run(s, userInput, reply);
      && s.messages <= r.messages && s.qaPairs <= r.qaPairs
      && (s.questionPhase ==> r.questionPhase)
      && (s.assessmentComplete ==> r.assessmentComplete && r.qaPairs == s.qaPairs)
  {
  }

  /** The same holds for any sequence of reruns without a reset. */
  lemma {:induction false} ReplayMonotone(s: Session, events: seq<Event>)
    requires NoReset(events)
    decreases |events|
    ensures var r := Replay(s, events);
      && s.messages <= r.messages && s.qaPairs <= r.qaPairs
      && (s.questionPhase ==> r.questionPhase)
      && (s.assessmentComplete ==> r.assessmentComplete && r.qaPairs == s.qaPairs)
  {
    if events != [] {
      var s1 := Apply(s, events[0]);
      ApplyMonotone(s, events[0]);
      assert NoReset(events[1..]) by {
        forall i | 0 <= i < |events[1..]| ensures !events[1..][i].ResetAll? {
          assert events[1..][i] == events[i + 1];
        }
      }
      ReplayMonotone(s1, events[1..]);
    }
  }

  /** Once the assessment is complete, no chat turn changes the session. */
  lemma CompleteIsTerminal(s: Session, userInput: string, reply: Option<string>)
    requires s.assessmentComplete
    ensures Run(s, userInput, reply) == s
  {
  }
}
