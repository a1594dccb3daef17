/**
 The records the application keeps in its per-browser session: the transcript,
 the recorded question/answer pairs, the candidate profile and the phase flags.
 */
module Session {
  import opened Values

  datatype Role = User | Assistant

  /** One transcript entry, `{"role": ..., "content": ...}`. */
  datatype Message = Message(role: Role, content: string)

  /** One technical question and the candidate's answer to it. */
  datatype QaPair = QaPair(question: string, answer: string)

  /** `input_mode`: `None`, `"chat"` or `"resume"`. */
  datatype InputMode = NoMode | ChatMode | ResumeMode

  /**
   `chat_history`: `None`, or a language-model memory object. Its contents belong to
   the language-model library and are not modelled.
   */
  datatype ChatHistory = NoHistory | History

  /** `st.session_state` once every key is present. */
  datatype Session = Session(
    messages: seq<Message>,
    chatHistory: ChatHistory,
    candidateInfo: Profile,
    modeSelected: bool,
    inputMode: InputMode,
    resumeProcessed: bool,
    qaPairs: seq<QaPair>,
    assessmentComplete: bool,
    voiceEnabled: bool,
    questionPhase: bool)
}
