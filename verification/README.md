# TalentScout hiring assistant — a Dafny model

TalentScout is a Streamlit application that screens job candidates. It has two ways in.
In chat mode the candidate answers a language model's questions. In resume mode the
candidate uploads a PDF resume and a language model extracts a profile from it. In both
modes the model then asks technical questions. When it says one of a fixed set of closing
phrases, the application writes a PDF report and a JSON report about the candidate.

This project models the pure logic around the language-model calls:

- `text.dfy` (`Text`): the Python string operations the application relies on — `lower`,
  `strip`, `in`, `split`, `join`, `str(int)` — over ASCII-approximated character classes.
- `values.dfy` (`Values`): the candidate profile as an ordered dictionary of JSON-like
  values, Python truthiness, `dict.get`, the display conversions, and the "one entry per
  truthy key, in a fixed key order" pattern every renderer shares.
- `session.dfy` (`Session`), `config.dfy` (`Config`): the session record, the required
  fields and session initialisation.
- `detect.dfy` (`Detect`): the completion-phrase and question detectors.
- `clock.dfy` (`Clock`): the three `strftime`/`isoformat` renderings of an instant.
- `utils.dfy` (`Utils`): the natural-language profile rendering, report file names,
  locating the JSON object in a model reply, and resume-text cleaning.
- `prompts.dfy` (`Prompts`): the analysis-prompt summary and Q&A block, the analysis and
  extraction prompts, and the scripted closing sentence.
- `report.dfy` (`Report`): the PDF report content (profile table, numbered Q&A, analysis
  paragraphs), the JSON report object with a decoder for round trips, and report paths.
- `turn.dfy` (`Turn`): the session transitions of `main.py`: mode selection, resume
  upload, the resume-review turn, the chat turn, reset, and whole sequences of reruns.
- `prototype.dfy` (`Prototype`): the earlier `Development/main.py`, with its exit words,
  compared against the current application.

Language-model replies, extraction results and instants are parameters. A reply is
`Some(text)`, or `None` when the call raised. In that case the code's mutations made
before the call stay in the session.

Differences between the application's own description and its code. The model follows
the code in each case:

- The required-field list is never used for a merge or a completeness check.
- Chat mode never fills `candidate_info`; only a resume extraction does.
- The exit-word check exists only in the prototype, and it does not trim the message.
- The JSON object in a reply is located greedily, from the first `{` to the last `}`.
  There is no brace balancing.
- The JSON report has four top-level keys; the fourth is `ai_analysis`.
- The PDF and JSON file names each read the clock separately.

One more behaviour follows from the code. The chat interface is guarded only by "a mode is
chosen and the assessment is not complete". So in resume mode a candidate can chat before
uploading. The upload widget also stays offered until a resume is processed, even after
the assessment completes.

## Model

| member | source | states |
|---|---|---|
| Text.Lower | main.py:27 | lower-casing keeps the length and maps each character through the ASCII case map |
| Text.LowerAppend | main.py:27 | lower-casing distributes over concatenation |
| Text.Strip | main.py:41 | the stripped string is no longer than the input and has no whitespace at either end |
| Text.StripSlice | report_generator.py:156 | the stripped string is a slice of the input with only whitespace before and after it |
| Text.StripBlank | report_generator.py:156 | stripping yields the empty string exactly when every character is whitespace |
| Text.StripKeepsLeadingWord | main.py:41 | a word after leading whitespace survives stripping as a prefix |
| Text.Split | report_generator.py:155 | the pieces of `split(sep)` contain no separator, there is at least one, and joining them with the separator gives back the input; each separator taken is the leftmost one after its piece begins, so no piece before a separator overlaps an earlier occurrence |
| Text.JoinAppend | utils.py:69 | joining one more part appends the separator and that part |
| Text.JoinContains | utils.py:69 | every joined part occurs in the joined string |
| Text.NatToStringRoundTrip | report_generator.py:141 | the decimal rendering of a number reads back as that number |
| Text.IndexOf | report_generator.py:155 | the first occurrence of a substring is found, or -1 exactly when there is none |
| Values.Get | utils.py:42 | `dict.get` gives `None` for an absent key, otherwise the value of the first entry with that key |
| Values.Truthy | utils.py:42-57 | a value is false exactly when it is `None`, `False`, `0`, `""`, `[]` or `{}` |
| Values.FlattenTech | utils.py:59-66 | every technology of every category is in the flattened list, and nothing else is; no categories give the empty list, and one category gives its own list, or the `str()` of a non-list value |
| Values.FlattenTechAppend | utils.py:61-65 | flattening proceeds category by category in iteration order; with the one-category case this fixes the flattened list exactly |
| Values.TruthyKeysMember | utils.py:42-67 | a key is selected exactly when it is in the key list and its value is truthy |
| Values.TruthyKeysAppend | utils.py:42-67 | selecting truthy keys distributes over concatenated key lists |
| Values.PickedHas | utils.py:42-67 | every truthy listed key contributes its entry to a rendering |
| Config.RequiredFieldsDistinct | config.py:17-25 | the required fields are seven distinct keys |
| Config.Initialize | config.py:28-45 | every key present in the store keeps its value, and every absent key gets its default |
| Config.InitializeStored | config.py:43-45 | initialising a store that holds every key changes nothing |
| Config.InitializeIdempotent | config.py:43-45 | initialising twice is the same as initialising once |
| Config.InitializeEmpty | main.py:132-133 | after every key is deleted, initialisation yields exactly the defaults |
| Detect.ContainsAny | main.py:28 | true exactly when some phrase occurs in the message |
| Detect.DetectAssessmentComplete | main.py:16-28 | true exactly when the lower-cased message contains one of the six phrases |
| Detect.CompletionIgnoresCase | main.py:27 | messages that agree after lower-casing get the same verdict |
| Detect.CompletionInContext | main.py:28 | text around a completing message never hides the completion |
| Detect.AssessmentAloneIncomplete | main.py:18-25 | "assessment" alone does not complete the assessment |
| Detect.PhraseInAnyCase | main.py:27-28 | a completion phrase in any letter case, anywhere in a reply, completes the assessment |
| Detect.ConcludesInMixedCase | main.py:22 | "Concludes Our Technical Assessment" completes the assessment whatever surrounds it |
| Detect.StartsWithAny | main.py:41 | true exactly when some opener is a prefix of the string |
| Detect.DetectQuestion | main.py:31-41 | a message with `?` is a question; otherwise it is one exactly when its lower-cased, stripped form starts with one of the eleven openers |
| Detect.AcknowledgementIsNotQuestion | main.py:38-41 | "I see, thanks." is not a question |
| Detect.NoOpenerNoQuestion | main.py:38-41 | an untrimmed message without `?` whose first letter starts no opener is not a question |
| Detect.ElaborateIsQuestion | main.py:34-35 | "Can you elaborate?" is a question |
| Detect.IndentedDescribeIsQuestion | main.py:41 | leading whitespace and capitals do not hide the opener "describe" |
| Detect.OpenerMakesQuestion | main.py:41 | a message whose normalised form starts with an opener is a question |
| Detect.HoweverCountsAsQuestion | main.py:38-41 | openers match as prefixes, so a statement starting "However" counts as a question |
| Detect.TechnicalQuestionsAnyCaseAnyOrder | main.py:249 | a reply holding "technical" and "question" in any letter case and either order opens the question phase |
| Detect.NoTechnicalNoPhase | main.py:308 | a reply without "technical" in any letter case never opens the phase |
| Clock.Pad | utils.py:74 | zero-padding gives exactly the width, only digits, and reads back as the number |
| Clock.CompactStamp | utils.py:74 | the file-name stamp is fifteen characters: eight digits, `_`, six digits |
| Clock.CompactStampRoundTrip | utils.py:74 | the stamp reads back as the instant, to the second |
| Clock.CompactStampInjective | utils.py:74 | two stamps are equal exactly when the instants agree to the second |
| Clock.Hour12 | report_generator.py:71 | `%I` lies in 1..12 and, with the meridiem, determines the hour |
| Clock.IsoFormat | report_generator.py:190 | `isoformat()` has 19 characters, or 26 with microseconds, and the separators at fixed places |
| Clock.IsoFormatRoundTrip | report_generator.py:190 | the stored timestamp reads back field by field as the instant, microseconds included |
| Clock.IsoFormatInjective | report_generator.py:190 | two instants get the same timestamp exactly when they are the same instant |
| Utils.NaturalParts | utils.py:38-67 | one line per truthy required field, in the fixed field order |
| Utils.NaturalLabelAt | utils.py:42-67 | the labels are Name, Email, Phone, Experience, Desired Role(s), Location, Tech Stack |
| Utils.NaturalLineInjective | utils.py:42-67 | different fields never render the same line |
| Utils.NaturalLinePresent | utils.py:42-67 | a field's line is rendered exactly when the field is truthy |
| Utils.ZeroExperienceOmitted | utils.py:48-49 | zero years of experience produces no Experience line |
| Utils.FormatNatural | utils.py:38-69 | the rendering is empty exactly when no required field is truthy |
| Utils.FormatNaturalEmpty | utils.py:38-69 | an empty profile renders as the empty string |
| Utils.RemoveDisallowed | utils.py:75 | removal keeps only word characters, whitespace and `-`; the empty name stays empty, and a single character is kept when allowed and deleted, not replaced, otherwise (with RemoveDisallowedAppend this fixes the result for every name) |
| Utils.RemoveDisallowedKeeps | utils.py:75 | a name made only of allowed characters is unchanged by the removal |
| Utils.SpacesToUnderscores | utils.py:75 | each space becomes `_` and every other character stays |
| Utils.SafeName | utils.py:75 | the safe name holds only allowed characters, no spaces, and no whitespace at its ends |
| Utils.SafeNameIdempotent | utils.py:75 | sanitising a safe name changes nothing |
| Utils.SafeNameExample | utils.py:75 | names shaped like "O'Brien / Smith!!" become "OBrien__Smith" |
| Utils.Filename | utils.py:72-76 | the file name is the safe name, `_`, a stamp that reads back as the instant, `.` and the extension |
| Utils.FilenameShape | utils.py:76 | the pieces of the file name sit at fixed offsets |
| Utils.FirstIndex | utils.py:82 | the first occurrence of a character, or -1 exactly when absent |
| Utils.LastIndex | utils.py:82 | the last occurrence of a character, or -1 exactly when absent |
| Utils.LocateObject | utils.py:82 | a span is found exactly when some `{` precedes some `}`; it runs from the first `{` to the last `}` |
| Utils.LocateObjectGreedy | utils.py:82 | two objects in one reply are located as one span from the first `{` to the last `}` |
| Utils.ParseJsonFromResponse | utils.py:79-87 | with no span, or a span that fails to decode, the result is the empty profile; otherwise it is exactly what the span decodes to |
| Utils.ParseJsonIgnoresProse | utils.py:79-87 | prose without braces around an object does not change what is decoded |
| Utils.ParseJsonNoBrace | utils.py:83-85 | a reply without `{` yields the empty profile |
| Utils.CollapseWhitespace | utils.py:30 | the result holds no whitespace but plain spaces, never two spaces in a row, starts like the input, and keeps the visible characters |
| Utils.CollapseIsScan | utils.py:30 | the result is exactly what a left-to-right scan writes when it emits one space for the first whitespace character of each run and nothing for the rest |
| Utils.ReplaceBullets | utils.py:31 | no bullet character remains; the empty text stays empty and a single bullet becomes `, ` while any other single character stays (with ReplaceBulletsAppend this fixes the result for every text) |
| Utils.NoBulletsUnchanged | utils.py:31 | text without bullets is returned unchanged |
| Utils.ReplaceBulletsTidy | utils.py:31 | after collapsing, replacing bullets leaves only plain spaces and no bullets |
| Utils.ReplaceBulletsAppend | utils.py:31 | bullet replacement works character by character |
| Utils.DropSpaceBeforePunct | utils.py:32 | no whitespace is left directly before `.`, `,`, `!` or `?` |
| Utils.DropSpaceTidy | utils.py:32 | dropping those spaces introduces no bullet and no whitespace other than a space |
| Utils.DropSpaceVisible | utils.py:32 | dropping those spaces changes no visible character |
| Utils.DropIsScan | utils.py:32 | the result is exactly what a left-to-right scan writes when it holds back each whitespace run, discards it in front of `.`, `,`, `!` or `?`, and writes it out in front of anything else or at the end |
| Utils.DropScanHoldsRun | utils.py:32 | the scan treats a whole whitespace run as one held unit |
| Utils.DropScanKeeps | utils.py:32 | with no whitespace before closing punctuation the scan writes the text unchanged |
| Utils.DropKeepsTightText | utils.py:32 | text with no whitespace before closing punctuation is returned unchanged, so spaces between words survive |
| Utils.CleanResumeText | utils.py:28-33 | the cleaned text has no whitespace at its ends, no newline, tab or bullet, no whitespace before closing punctuation, and the visible characters of the raw text with bullets replaced |
| Utils.CleanKeepsCleanText | utils.py:29-33 | text with no whitespace at its ends, only single plain spaces, no bullets and no whitespace before closing punctuation is returned unchanged |
| Utils.CollapseKeepsSingleSpaced | utils.py:30 | collapsing leaves text with only single plain spaces unchanged |
| Prompts.AnalysisParts | prompts.py:114-130 | one line per truthy field among name, email, experience, desired roles and tech stack, in that order |
| Prompts.FormatInfoForAnalysis | prompts.py:114-130 | the summary is empty exactly when none of those five fields is truthy |
| Prompts.AnalysisDependsOnFields | prompts.py:114-130 | profiles that agree on the five fields get the same summary |
| Prompts.AnalysisIgnoresContact | prompts.py:114-130 | changing the phone number or location never changes the summary |
| Prompts.AnalysisLineIsNatural | prompts.py:117-127 | every line except a categorised tech stack matches the natural rendering |
| Prompts.AnalysisKeepsMapping | prompts.py:128-129 | a categorised tech stack is written as the mapping itself, not flattened |
| Prompts.QaEntries | prompts.py:90 | one `Q: … A: …` entry per pair, in order |
| Prompts.QaBlock | prompts.py:90 | the Q&A block is empty exactly when there are no pairs |
| Prompts.QaBlockAppend | prompts.py:90 | one more pair appends a newline and its entry |
| Prompts.QaBlockHasEntry | prompts.py:90 | every pair's entry occurs in the block |
| Prompts.AnalysisPrompt | prompts.py:88-111 | the request opens with the fixed introduction, closes with the fixed instructions, and carries the whole profile summary and the whole Q&A block |
| Prompts.AnalysisPromptHasAnswers | prompts.py:88-111 | every question and answer appears in the analysis prompt |
| Prompts.AnalysisPromptHasField | prompts.py:92-96 | every truthy summary field's line appears in the analysis prompt |
| Prompts.SummaryHasField | prompts.py:114-130 | every truthy summary field's line appears in the summary |
| Prompts.FieldLines | prompts.py:72-79 | one field line per required field, in order |
| Prompts.ExtractionPrompt | prompts.py:65-85 | the request is the fixed introduction and field list, then the resume text verbatim, then the fixed closing instruction |
| Prompts.ExtractionPromptInjective | prompts.py:81-82 | different resume texts never give the same request |
| Prompts.ExtractionNamesField | prompts.py:72-79 | each of the seven required fields is named with its type |
| Prompts.ClosingSentenceCompletes | prompts.py:47 | the scripted closing sentence, anywhere in a reply, completes the assessment |
| Report.InfoData | report_generator.py:81-114 | one row per truthy required field, in the fixed order, with its fixed label |
| Report.InfoTable | report_generator.py:116-118 | the table has 1 to 7 rows, and it is exactly the fallback row when no field is truthy |
| Report.ReportLabelAt | report_generator.py:83-114 | the labels are 'Full Name:' … 'Tech Stack:' in field order |
| Report.ReportLabelNotFallback | report_generator.py:118 | no field label equals the fallback label |
| Report.InfoRowInjective | report_generator.py:83-114 | different fields never produce the same row |
| Report.InfoRowPresent | report_generator.py:83-118 | a field's row is in the table exactly when the field is truthy |
| Report.FalsyRowAbsent | report_generator.py:83-118 | a falsy field has no row |
| Report.InfoTableMatchesNatural | report_generator.py:92-114 | when some field is truthy, the table and the natural rendering agree line by line |
| Report.QaItems | report_generator.py:140-147 | the entries are numbered 1..k in order, with question and answer verbatim |
| Report.QaItemsAppend | report_generator.py:140 | one more pair adds one entry numbered one past the last |
| Report.QaItemsRoundTrip | report_generator.py:142-146 | the numbered entries give back the pairs |
| Report.QaHeadingInjective | report_generator.py:141 | different numbers give different question headings |
| Report.NonBlank | report_generator.py:155-157 | no kept piece is blank, and no more pieces are kept than were given |
| Report.NonBlankMember | report_generator.py:155-157 | a piece is kept exactly when it was given and is not blank |
| Report.NonBlankAppend | report_generator.py:155-157 | filtering keeps the original order |
| Report.AnalysisParagraphs | report_generator.py:155-158 | no paragraph is blank or contains a blank-line separator |
| Report.SingleParagraph | report_generator.py:155-158 | an analysis without a blank line is one paragraph, or none when blank |
| Report.ParagraphsCoverAnalysis | report_generator.py:155-158 | every non-blank piece is kept unmodified, and the pieces rejoin to the analysis |
| Report.PdfReport | report_generator.py:71-158 | the table has 1 to 7 rows and the Q&A entries are numbered 1..k, one per pair |
| Report.Keys | report_generator.py:188-200 | the key list follows the members one for one |
| Report.StrsRoundTrip | report_generator.py:194 | a list of strings decodes back from its JSON |
| Report.CatValRoundTrip | report_generator.py:194 | a tech-stack category value decodes back from its JSON |
| Report.CatsRoundTrip | report_generator.py:194 | a categorised tech stack decodes back from its JSON |
| Report.ValueRoundTrip | report_generator.py:194 | every profile value decodes back from its JSON |
| Report.ProfileRoundTrip | report_generator.py:194 | the profile is written unflattened: it decodes back to itself |
| Report.QaRoundTrip | report_generator.py:197 | the Q&A list decodes back from its JSON verbatim |
| Report.JsonReport | report_generator.py:188-200 | read back by key, the report gives exactly the profile, the pairs and the analysis it was written from |
| Report.JsonReportKeys | report_generator.py:188-200 | the report has exactly the four top-level keys, in order |
| Report.JsonReportMetadata | report_generator.py:189-193 | the metadata holds the ISO instant and the two fixed strings |
| Report.JsonReportAssessment | report_generator.py:195-198 | `total_questions` is the number of pairs, and `qa_pairs` decodes to the input list |
| Report.JsonReportProfile | report_generator.py:194-199 | the candidate information decodes to the profile, and the analysis is stored verbatim |
| Report.ReportNameAsWritten | report_generator.py:216 | the code fails exactly when `full_name` is present but not a string |
| Report.NullNameRaises | report_generator.py:216 | a profile whose `full_name` is `null` makes report naming fail |
| Report.ReportName | report_generator.py:216 | the corrected name agrees with the code whenever the code succeeds, uses the stored string name, and falls back to `Unknown_Candidate` for any other value |
| Report.ReportPathShape | report_generator.py:214-219 | every report path is folder, safe name of the corrected name, `_`, its own instant to the second, `.` and its extension |
| Report.ReportPaths | report_generator.py:208-224 | the PDF and JSON paths share the stem of folder, safe name and `_`; each carries its own instant and ends in `.pdf` or `.json` |
| Report.ReportPathsAsWritten | report_generator.py:216-219 | as written, no paths are produced exactly when `full_name` is present but not a string; otherwise they are the paths above |
| Report.NullNameNoPaths | report_generator.py:216-219 | a profile whose `full_name` is `null` gets no report paths |
| Report.PrefixedParts | report_generator.py:218-219 | a file name built as safe name, `_`, stamp, `.` and extension keeps those parts, at shifted positions, behind any folder prefix |
| Turn.ChatGreetingAsksName | main.py:163 | the chat greeting ends with "What's your full name?" and reads as a question |
| Turn.ResumeGreetingShowsProfile | main.py:194-200 | the resume greeting shows every truthy field's natural line |
| Turn.StartChat | main.py:160-165 | starting chat mode sets the mode, appends exactly the greeting and changes nothing else; once a mode is chosen it does nothing |
| Turn.StartResume | main.py:174-177 | starting resume mode sets the mode and changes nothing else |
| Turn.UploadResume | main.py:180-207 | a non-empty extraction replaces the profile wholesale, appends one greeting and marks the resume processed; an empty one changes nothing |
| Turn.LastAssistant | main.py:284-288 | nothing is found exactly when the transcript holds no assistant message |
| Turn.LastAssistantFound | main.py:284-288 | what the scan finds is the content of the last assistant message |
| Turn.LastAssistantIs | main.py:284-288 | the scan finds the last assistant message |
| Turn.ChatTurn | main.py:278-315 | the user message, then the reply when there is one, are appended to an unchanged transcript; at most one pair is added; the phase opens exactly on a reply about technical questions; completion is exactly a completion phrase in the reply; nothing else changes |
| Turn.ChatTurnRecordsAnswer | main.py:283-294 | the answer is recorded exactly when the phase was already open and the last assistant message is a non-empty question, and then the pair is that message and the input |
| Turn.ChatTurnNoQuestionNoPair | main.py:283-290 | with no assistant message, no pair is recorded |
| Turn.Recorded | main.py:283-294 | a pair is recorded exactly when the phase is open and the last assistant message is a non-empty question, and then it is that message with the input |
| Turn.ReviewTurn | main.py:221-252 | the review appends only the reply and may open the question phase; nothing else changes |
| Turn.Run | main.py:210-315 | a closed interface or an empty input changes nothing, and completion is set only by a chat turn whose reply holds a completion phrase |
| Turn.ReviewOnlyOnGreeting | main.py:221 | the review fires only with exactly one message, never completes and records nothing; otherwise the typed message is appended |
| Turn.ClosingSentenceEndsChat | main.py:312-313 | a reply carrying the scripted closing sentence completes the assessment and closes the chat |
| Turn.OpeningQuestionAnswered | main.py:283-309 | the reply that opens the question phase is not recorded in its own turn, and the next message is recorded as its answer |
| Turn.Reset | main.py:132-133 | the reset session is exactly the defaults |
| Turn.Connect | main.py:141-142 | the memory object exists afterwards, and nothing else changes |
| Turn.Apply | main.py:130-145 | a reset leaves exactly the defaults, without a memory object; every other rerun leaves one |
| Turn.ApplyMonotone | main.py:280-313 | without a reset, one rerun only appends to the transcript and the Q&A log, never closes the phase, and never reopens a completed assessment |
| Turn.ReplayMonotone | main.py:210-315 | the same holds over any sequence of reruns without a reset |
| Turn.CompleteIsTerminal | main.py:210 | once the assessment is complete, no chat turn changes the session |
| Prototype.DevReset | Development/main.py:307-313 | reset restores all six keys together to their first-run values |
| Prototype.UpperCaseByeExits | Development/main.py:434 | "BYE" exits |
| Prototype.PaddedOrLongerDoesNotExit | Development/main.py:434 | " bye" and "goodbye" do not exit |
| Prototype.IsExit | Development/main.py:434 | only a message of three or four characters with no whitespace can exit |
| Prototype.ExitWordInAnyCase | Development/main.py:434 | every exit word, in any mix of letter case, exits |
| Prototype.FarewellReadsAsCompletion | Development/main.py:435 | the farewell contains a phrase the current completion detector recognises |
| Prototype.DevStartChat | Development/main.py:337-343 | starting chat mode sets the mode and appends exactly the greeting |
| Prototype.DevStartResume | Development/main.py:352-355 | starting resume mode only sets the mode |
| Prototype.DevUpload | Development/main.py:371-389 | a non-empty extraction replaces the profile, appends one greeting and marks the resume processed; an empty one changes nothing |
| Prototype.ModeStartsAgree | Development/main.py:337-389 | mode selection and resume upload behave as in the current application |
| Prototype.DevRun | Development/main.py:392-453 | a chat pass only appends to the transcript and changes no other key |
| Prototype.ExitSkipsModel | Development/main.py:434-438 | an exit word appends the message and the farewell, whatever the model would have said |
| Prototype.ByeReachesModelOnlyInCurrentApp | main.py:278-304 | the current application sends "bye" to the model and records its reply, where the prototype answers with its farewell |

## Left out

- Language-model calls (the chat chain, extraction, analysis): replies and extraction results are parameters, and the wording of the review request sent to the model is not modelled.
- The language-model memory object: only whether one exists is recorded, not what it holds.
- Passes without an API key: they only show a warning and change nothing, so every modelled rerun assumes a key was entered.
- `json.loads`: decoding is an abstract function that may fail. The JSON report is modelled as a value with a decoder for round trips, not as text.
- PDF reading and layout (`pdfplumber`, `reportlab`): only the table rows, numbered Q&A entries and paragraphs are modelled; fonts, styles, spacers and bytes are not.
- The page loop of `extract_text_from_pdf` (utils.py:20-26): page texts come from `pdfplumber`, so cleaning starts from the text the pages were joined into.
- Filesystem effects (creating the reports folder, writing files, download buttons) and the Streamlit user interface: a rerun is the end of a transition.
- `datetime.now()`: each instant is a parameter.
- `voice_handler.py`: a transcription is just another typed input.
- `test.py`: an interactive script whose exit check duplicates the prototype's.
- `llm_handler.py`, the model name and retry count in `config.py`, and the system prompt text apart from the scripted closing sentence.
- The sidebar summary of collected information: it is display only.
- Upload and chat input in one run: an upload is its own transition. A failed extraction that is followed by a chat message in the same run is modelled as two transitions.
- Text.Lower: ASCII case mapping only; Python's full Unicode lower-casing is not modelled.
- Text.Strip: whitespace is the set of Python's `string.whitespace`; U+001C to U+001F and the non-ASCII spaces, which Python's `str.strip` and `\s` also remove, are not modelled.
- Utils.RemoveDisallowed: `\w` and `\s` are ASCII classes here, not Python's Unicode classes.
- Values.Get: list values are lists of strings only. A list of non-strings, on which `', '.join` would raise, and floating-point numbers are outside the value type.
- Values.CatVal: a tech-stack category holds a list of strings or a scalar; a nested mapping, which utils.py:65 and report_generator.py:111 render with `str(items)`, is outside the value type.
- Values.Profile: a profile is a member list that may repeat a key, which a Python dict cannot; profiles are taken to have distinct keys, and where a key repeats `Get` reads the first member while `json.loads` keeps the last.
- Values.ValueText: `str()` of a string list or mapping uses single quotes with no escaping, which approximates Python's `repr`.
- Values.PositionsText: a non-list desired position is rendered with `str()`, as the code does, without modelling Python's formatting of other value types.
- Report.PdfReport: table cells hold the display text of each value; `reportlab`'s own `str()` of non-string cells is not modelled.
- Clock.Hour12: only the hour arithmetic of `%I` is modelled; `LongDate` has no contract beyond its definition.

## Findings

| source | as written | input that shows it | evidently intended | confidence | as-written member | corrected member |
|---|---|---|---|---|---|---|
| report_generator.py:216 | `candidate_info.get('full_name', 'Unknown_Candidate')` returns `None` when the key is present with a `null` value. The extraction prompt asks for exactly that when no name is found. `re.sub` in `generate_filename` (utils.py:75) then raises `TypeError`, so no report is written. | a profile `{"full_name": null}` | fall back to `Unknown_Candidate` whenever there is no string name | not executed | Report.ReportNameAsWritten, Report.NullNameRaises, Report.ReportPathsAsWritten, Report.NullNameNoPaths | Report.ReportName, Report.ReportPaths |
