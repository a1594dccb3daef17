/**
 Application constants and session initialisation: every missing session key is
 filled with its default, and keys that are already present keep their values.
 */
module Config {
  import opened Wrappers
  import opened Values
  import opened Session

  const ReportsFolder := "Reports"

  /** The seven profile keys the screening collects, in collection order. */
  const RequiredFields: seq<string> :=
    [FullName, Email, PhoneNumber, YearsOfExperience, DesiredPositions, CurrentLocation, TechStack]

  /** The required fields are seven distinct keys. */
  lemma RequiredFieldsDistinct()
    ensures |RequiredFields| == 7
    ensures forall i, j :: 0 <= i < j < |RequiredFields| ==> RequiredFields[i] != RequiredFields[j]
  {
  }

  /** The value each session key receives when it is missing. */
  const Defaults := Session(
    messages := [],
    chatHistory := NoHistory,
    candidateInfo := [],
    modeSelected := false,
    inputMode := NoMode,
    resumeProcessed := false,
    qaPairs := [],
    assessmentComplete := false,
    voiceEnabled := false,
    questionPhase := false)

  /** `st.session_state` in general: any of the ten keys may be absent. */
  datatype Store = Store(
    messages: Option<seq<Message>>,
    chatHistory: Option<ChatHistory>,
    candidateInfo: Option<Profile>,
    modeSelected: Option<bool>,
    inputMode: Option<InputMode>,
    resumeProcessed: Option<bool>,
    qaPairs: Option<seq<QaPair>>,
    assessmentComplete: Option<bool>,
    voiceEnabled: Option<bool>,
    questionPhase: Option<bool>)

  /** The store after every key has been deleted. */
  const EmptyStore := Store(None, None, None, None, None, None, None, None, None, None)

  /** The store that holds every field of `s`. */
  function Stored(s: Session): Store {
    Store(Some(s.messages), Some(s.chatHistory), Some(s.candidateInfo), Some(s.modeSelected),
          Some(s.inputMode), Some(s.resumeProcessed), Some(s.qaPairs), Some(s.assessmentComplete),
          Some(s.voiceEnabled), Some(s.questionPhase))
  }

  function Fill<T>(slot: Option<T>, default: T): T {
    match slot
    case Some(v) => v
    case None => default
  }

  /** Every key present in `st` holds the same value in `s`. */
  predicate KeepsPresent(st: Store, s: Session) {
    && (st.messages.Some? ==> s.messages == st.messages.value)
    && (st.chatHistory.Some? ==> s.chatHistory == st.chatHistory.value)
    && (st.candidateInfo.Some? ==> s.candidateInfo == st.candidateInfo.value)
    && (st.modeSelected.Some? ==> s.modeSelected == st.modeSelected.value)
    && (st.inputMode.Some? ==> s.inputMode == st.inputMode.value)
    && (st.resumeProcessed.Some? ==> s.resumeProcessed == st.resumeProcessed.value)
    && (st.qaPairs.Some? ==> s.qaPairs == st.qaPairs.value)
    && (st.assessmentComplete.Some? ==> s.assessmentComplete == st.assessmentComplete.value)
    && (st.voiceEnabled.Some? ==> s.voiceEnabled == st.voiceEnabled.value)
    && (st.questionPhase.Some? ==> s.questionPhase == st.questionPhase.value)
  }

  /** Every key absent from `st` holds its default in `s`. */
  predicate DefaultsAbsent(st: Store, s: Session) {
    && (st.messages.None? ==> s.messages == Defaults.messages)
    && (st.chatHistory.None? ==> s.chatHistory == Defaults.chatHistory)
    && (st.candidateInfo.None? ==> s.candidateInfo == Defaults.candidateInfo)
    && (st.modeSelected.None? ==> s.modeSelected == Defaults.modeSelected)
    && (st.inputMode.None? ==> s.inputMode == Defaults.inputMode)
    && (st.resumeProcessed.None? ==> s.resumeProcessed == Defaults.resumeProcessed)
    && (st.qaPairs.None? ==> s.qaPairs == Defaults.qaPairs)
    && (st.assessmentComplete.None? ==> s.assessmentComplete == Defaults.assessmentComplete)
    && (st.voiceEnabled.None? ==> s.voiceEnabled == Defaults.voiceEnabled)
    && (st.questionPhase.None? ==> s.questionPhase == Defaults.questionPhase)
  }

  /** `initialize_session_state()`: add each missing key with its default value. */
  function Initialize(st: Store): (s: Session)
    ensures KeepsPresent(st, s)
    ensures DefaultsAbsent(st, s)
  {
    Session(
      Fill(st.messages, Defaults.messages),
      Fill(st.chatHistory, Defaults.chatHistory),
      Fill(st.candidateInfo, Defaults.candidateInfo),
      Fill(st.modeSelected, Defaults.modeSelected),
      Fill(st.inputMode, Defaults.inputMode),
      Fill(st.resumeProcessed, Defaults.resumeProcessed),
      Fill(st.qaPairs, Defaults.qaPairs),
      Fill(st.assessmentComplete, Defaults.assessmentComplete),
      Fill(st.voiceEnabled, Defaults.voiceEnabled),
      Fill(st.questionPhase, Defaults.questionPhase))
  }

  /** Initialising a store that already holds every key changes nothing. */
  lemma InitializeStored(s: Session)
    ensures Initialize(Stored(s)) == s
  {
  }

  /** Initialising twice is initialising once. */
  lemma InitializeIdempotent(st: Store)
    ensures Initialize(Stored(Initialize(st))) == Initialize(st)
  {
    InitializeStored(Initialize(st));
  }

  /** After every key has been deleted, initialisation yields exactly the defaults. */
  lemma InitializeEmpty()
    ensures Initialize(EmptyStore) == Defaults
  {
  }
}
