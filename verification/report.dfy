/**
 The content of the two assessment reports: the profile table, the numbered
 questions and answers and the analysis paragraphs of the PDF report, the JSON
 report object, and the file names of the pair. Layout, fonts and file writing
 are not modelled.
 */
module Report {
  import opened Wrappers
  import opened Text
  import opened Values
  import opened Session
  import opened Config
  import opened Clock
  import opened Utils

  // ---------------------------------------------------------------------------
  // Profile table
  // ---------------------------------------------------------------------------

  /** A table row: the label cell and the value cell. */
  type Row = (string, string)

  /** The label cell of each required field. */
  function ReportLabel(key: string): string {
    if key == FullName then "Full Name:"
    else if key == Email then "Email:"
    else if key == PhoneNumber then "Phone:"
    else if key == YearsOfExperience then "Experience:"
    else if key == DesiredPositions then "Desired Role(s):"
    else if key == CurrentLocation then "Location:"
    else "Tech Stack:"
  }

  /** The labels of the required fields, in field order. */
  const ReportLabels: seq<string> :=
    ["Full Name:", "Email:", "Phone:", "Experience:", "Desired Role(s):", "Location:", "Tech Stack:"]

  /**
   The row of a field. The value cell shows the same text as the natural rendering:
   "<n> years" for the experience, a list of positions joined with ", ", a
   categorised tech stack flattened, anything else through `str()`.
   */
  function InfoRow(info: Profile, key: string): Row {
    (ReportLabel(key), DisplayText(key, Get(info, key)))
  }

  function InfoRowOf(info: Profile): string -> Row {
    key => InfoRow(info, key)
  }

  /** `info_data` before the guard: the chain of seven tests, one row per truthy required field, in field order. */
  function InfoData(info: Profile): (rows: seq<Row>)
    ensures rows == Picked(info, RequiredFields, InfoRowOf(info))
  {
    var f := InfoRowOf(info);
    PickedChain7(info, f, FullName, Email, PhoneNumber, YearsOfExperience, DesiredPositions, CurrentLocation, TechStack);
    IfTruthy(info, FullName, f)
    + (IfTruthy(info, Email, f)
    + (IfTruthy(info, PhoneNumber, f)
    + (IfTruthy(info, YearsOfExperience, f)
    + (IfTruthy(info, DesiredPositions, f)
    + (IfTruthy(info, CurrentLocation, f)
    + IfTruthy(info, TechStack, f))))))
  }

  /** The row the guard puts in a table that would otherwise be empty. */
  const FallbackRow: Row := ("Info", "Not provided")

  /** The profile table of the PDF report: never empty, and at most one row per required field. */
  function InfoTable(info: Profile): (rows: seq<Row>)
    ensures 1 <= |rows| <= |RequiredFields|
    ensures rows == [FallbackRow] <==> TruthyKeys(info, RequiredFields) == []
  {
    var data := InfoData(info);
    assert data != [] ==> data[0] != FallbackRow by {
      if data != [] {
        var k := TruthyKeys(info, RequiredFields)[0];
        assert data[0] == InfoRow(info, k);
        assert ReportLabel(k)[0] != 'I';
      }
    }
    if data == [] then [FallbackRow] else data
  }

  /** No label is the fallback row's label. */
  lemma ReportLabelNotFallback(k: string)
    ensures ReportLabel(k) != FallbackRow.0
  {
    assert ReportLabel(k)[0] != 'I';
  }

  lemma ReportLabelAt(i: nat)
    requires i < |RequiredFields|
    ensures ReportLabel(RequiredFields[i]) == ReportLabels[i]
  {
  }

  /** No two labels share their first two characters. */
  lemma ReportLabelInitialsDistinct(x: nat, y: nat)
    requires x < 7 && y < 7
    requires ReportLabels[x][0] == ReportLabels[y][0] && ReportLabels[x][1] == ReportLabels[y][1]
    ensures x == y
  {
    if x == 0 {} else if x == 1 {} else if x == 2 {} else if x == 3 {} else if x == 4 {} else if x == 5 {} else {}
  }

  /** Rows of different required fields differ. */
  lemma InfoRowInjective(info: Profile, k: string, k': string)
    requires k in RequiredFields && k' in RequiredFields
    requires InfoRow(info, k) == InfoRow(info, k')
    ensures k == k'
  {
    var i :| 0 <= i < 7 && RequiredFields[i] == k;
    var j :| 0 <= j < 7 && RequiredFields[j] == k';
    ReportLabelAt(i);
    ReportLabelAt(j);
    ReportLabelInitialsDistinct(i, j);
  }

  /** A required field has its row in the table exactly when its value is truthy. */
  lemma InfoRowPresent(info: Profile, k: string)
    requires k in RequiredFields
    ensures InfoRow(info, k) in InfoTable(info) <==> Truthy(Get(info, k))
  {
    if Truthy(Get(info, k)) {
      PickedHas(info, RequiredFields, InfoRowOf(info), k);
    } else {
      FalsyRowAbsent(info, k);
    }
  }

  lemma FalsyRowAbsent(info: Profile, k: string)
    requires k in RequiredFields && !Truthy(Get(info, k))
    ensures InfoRow(info, k) !in InfoTable(info)
  {
    var ks := TruthyKeys(info, RequiredFields);
    var data := InfoData(info);
    ReportLabelNotFallback(k);
    if InfoRow(info, k) in data {
      var i :| 0 <= i < |data| && data[i] == InfoRow(info, k);
      TruthyKeysMember(info, RequiredFields, ks[i]);
      assert ks[i] in ks;
      InfoRowInjective(info, k, ks[i]);
    }
  }

  /**
   The table and the natural rendering list the same fields in the same order, and
   each natural line is the field's natural label followed by the table's value cell.
   */
  lemma InfoTableMatchesNatural(info: Profile)
    requires TruthyKeys(info, RequiredFields) != []
    ensures |InfoTable(info)| == |NaturalParts(info)|
    ensures forall i :: 0 <= i < |InfoTable(info)| ==>
      NaturalParts(info)[i] == NaturalLabel(TruthyKeys(info, RequiredFields)[i]) + ": " + InfoTable(info)[i].1
  {
  }

  // ---------------------------------------------------------------------------
  // Questions and answers
  // ---------------------------------------------------------------------------

  /** One numbered entry of the question/answer section. */
  datatype QaItem = QaItem(number: nat, question: string, answer: string)

  /** `enumerate(qa_pairs, 1)`: the entries numbered from 1, in the order the pairs were recorded. */
  function QaItems(qa: seq<QaPair>): (items: seq<QaItem>)
    ensures |items| == |qa|
    ensures forall i :: 0 <= i < |qa| ==> items[i] == QaItem(i + 1, qa[i].question, qa[i].answer)
  {
    if qa == [] then [] else QaItems(qa[..|qa| - 1]) + [QaItem(|qa|, qa[|qa| - 1].question, qa[|qa| - 1].answer)]
  }

  /** Recording one more pair adds one entry at the end, numbered one past the last. */
  lemma QaItemsAppend(qa: seq<QaPair>, p: QaPair)
    ensures QaItems(qa + [p]) == QaItems(qa) + [QaItem(|qa| + 1, p.question, p.answer)]
  {
    assert (qa + [p])[..|qa|] == qa;
  }

  /** Reading the entries back gives the recorded pairs. */
  lemma QaItemsRoundTrip(qa: seq<QaPair>)
    ensures seq(|qa|, i requires 0 <= i < |qa| => QaPair(QaItems(qa)[i].question, QaItems(qa)[i].answer)) == qa
  {
  }

  /** The bold heading of an entry, `Question {i}:`. */
  function QaHeading(n: nat): string {
    "Question " + NatToString(n) + ":"
  }

  /** Different numbers give different headings. */
  lemma QaHeadingInjective(m: nat, n: nat)
    requires QaHeading(m) == QaHeading(n)
    ensures m == n
  {
    var a := NatToString(m);
    var b := NatToString(n);
    assert |a| == |b|;
    assert a == QaHeading(m)[9..9 + |a|];
    assert b == QaHeading(n)[9..9 + |b|];
    NatToStringRoundTrip(m);
    NatToStringRoundTrip(n);
  }

  // ---------------------------------------------------------------------------
  // Analysis paragraphs
  // ---------------------------------------------------------------------------

  predicate Blank(s: string) {
    Strip(s) == []
  }

  /** The pieces that are not blank, in their original order and unchanged. */
  function NonBlank(pieces: seq<string>): (r: seq<string>)
    ensures |r| <= |pieces|
    ensures forall i :: 0 <= i < |r| ==> !Blank(r[i])
  {
    if pieces == [] then []
    else (if Blank(pieces[0]) then [] else [pieces[0]]) + NonBlank(pieces[1..])
  }

  /** A piece is kept exactly when it is not blank. */
  lemma {:induction false} NonBlankMember(pieces: seq<string>, x: string)
    ensures x in NonBlank(pieces) <==> x in pieces && !Blank(x)
  {
    if pieces != [] {
      NonBlankMember(pieces[1..], x);
      assert pieces == [pieces[0]] + pieces[1..];
    }
  }

  /** Filtering keeps the order: the filter of a concatenation is the concatenation of the filters. */
  lemma {:induction false} NonBlankAppend(a: seq<string>, b: seq<string>)
    ensures NonBlank(a + b) == NonBlank(a) + NonBlank(b)
  {
    if a == [] {
      assert a + b == b;
    } else {
      var x, rest := a[0], a[1..];
      assert a == [x] + rest;
      assert a + b == [x] + (rest + b);
      NonBlankCons(x, rest + b);
      NonBlankCons(x, rest);
      NonBlankAppend(rest, b);
      ConcatAssoc(if Blank(x) then [] else [x], NonBlank(rest), NonBlank(b));
    }
  }

  lemma NonBlankCons(x: string, rest: seq<string>)
    ensures NonBlank([x] + rest) == (if Blank(x) then [] else [x]) + NonBlank(rest)
  {
    assert ([x] + rest)[0] == x;
    assert ([x] + rest)[1..] == rest;
  }

  /** The paragraphs of the analysis section: the non-blank pieces of `analysis.split("\n\n")`. */
  function AnalysisParagraphs(analysis: string): (r: seq<string>)
    ensures forall i :: 0 <= i < |r| ==> !Blank(r[i]) && !Contains(r[i], "\n\n")
  {
    var pieces := Split(analysis, "\n\n");
    var r := NonBlank(pieces);
    assert forall i :: 0 <= i < |r| ==> r[i] in pieces by {
      forall i | 0 <= i < |r| ensures r[i] in pieces {
        NonBlankMember(pieces, r[i]);
      }
    }
    r
  }

  /** Text without a blank line is one paragraph, or none when it is blank. */
  lemma SingleParagraph(analysis: string)
    requires !Contains(analysis, "\n\n")
    ensures AnalysisParagraphs(analysis) == if Blank(analysis) then [] else [analysis]
  {
    assert IndexOf(analysis, "\n\n") == -1;
    assert Split(analysis, "\n\n") == [analysis];
  }

  /** No non-blank text is lost: joining the pieces restores the analysis, and every non-blank piece is a paragraph. */
  lemma ParagraphsCoverAnalysis(analysis: string, x: string)
    requires x in Split(analysis, "\n\n") && !Blank(x)
    ensures x in AnalysisParagraphs(analysis)
    ensures Join(Split(analysis, "\n\n"), "\n\n") == analysis
  {
    NonBlankMember(Split(analysis, "\n\n"), x);
  }

  // ---------------------------------------------------------------------------
  // The PDF report content
  // ---------------------------------------------------------------------------

  /** What the PDF report says, without its layout. */
  datatype PdfContent = PdfContent(
    dateLine: string,
    table: seq<Row>,
    qa: seq<QaItem>,
    paragraphs: seq<string>)

  /** `generate_pdf_report`: the date line, the profile table, the numbered pairs and the analysis paragraphs. */
  function PdfReport(info: Profile, qa: seq<QaPair>, analysis: string, now: Instant): (r: PdfContent)
    requires Valid(now)
    ensures 1 <= |r.table| <= 7 && |r.qa| == |qa|
    ensures forall i :: 0 <= i < |r.qa| ==> r.qa[i].number == i + 1
  {
    PdfContent(LongDate(now), InfoTable(info), QaItems(qa), AnalysisParagraphs(analysis))
  }

  // ---------------------------------------------------------------------------
  // The JSON report
  // ---------------------------------------------------------------------------

  /** A JSON document. Objects keep their members in insertion order. */
  datatype Json =
    | JNull
    | JBool(b: bool)
    | JNum(n: int)
    | JStr(s: string)
    | JArr(items: seq<Json>)
    | JObj(members: seq<(string, Json)>)

  function ScalarJson(a: Scalar): Json {
    match a
    case Null => JNull
    case Bool(b) => JBool(b)
    case Num(n) => JNum(n)
    case Str(s) => JStr(s)
  }

  function StrsJson(xs: seq<string>): (j: seq<Json>)
    ensures |j| == |xs|
  {
    seq(|xs|, i requires 0 <= i < |xs| => JStr(xs[i]))
  }

  function CatValJson(c: CatVal): Json {
    match c
    case Items(xs) => JArr(StrsJson(xs))
    case Leaf(a) => ScalarJson(a)
  }

  function ValueJson(v: Value): Json {
    match v
    case Atom(a) => ScalarJson(a)
    case Strs(xs) => JArr(StrsJson(xs))
    case Cats(cs) => JObj(seq(|cs|, i requires 0 <= i < |cs| => (cs[i].0, CatValJson(cs[i].1))))
  }

  /** The profile as the JSON report writes it: the same members, in the same order. */
  function ProfileJson(p: Profile): Json {
    JObj(seq(|p|, i requires 0 <= i < |p| => (p[i].0, ValueJson(p[i].1))))
  }

  function QaJson(p: QaPair): Json {
    JObj([("question", JStr(p.question)), ("answer", JStr(p.answer))])
  }

  /** The first member called `key`, as a JSON reader looks it up. */
  function Member(members: seq<(string, Json)>, key: string): Option<Json> {
    if members == [] then None
    else if members[0].0 == key then Some(members[0].1)
    else Member(members[1..], key)
  }

  function Keys(members: seq<(string, Json)>): (r: seq<string>)
    ensures |r| == |members|
    ensures forall i :: 0 <= i < |members| ==> r[i] == members[i].0
  {
    seq(|members|, i requires 0 <= i < |members| => members[i].0)
  }

  const ReportType := "Technical Screening Assessment"
  const GeneratedBy := "TalentScout AI"

  /**
   `report_data` of `generate_json_report`. `now` is the instant the metadata is stamped
   with. Read back by key, the report gives the profile, the pairs and the analysis it
   was written from.
   */
  function JsonReport(info: Profile, qa: seq<QaPair>, analysis: string, now: Instant): (r: Json)
    requires Valid(now)
    ensures ReadReport(r) == Some((info, qa, analysis))
  {
    var items := seq(|qa|, i requires 0 <= i < |qa| => QaJson(qa[i]));
    var ta := [("total_questions", JNum(|qa|)), ("qa_pairs", JArr(items))];
    var top := [
      ("report_metadata", JObj([
        ("generated_at", JStr(IsoFormat(now))),
        ("report_type", JStr(ReportType)),
        ("generated_by", JStr(GeneratedBy))])),
      ("candidate_information", ProfileJson(info)),
      ("technical_assessment", JObj(ta)),
      ("ai_analysis", JStr(analysis))
    ];
    ProfileRoundTrip(info);
    QaRoundTrip(qa);
    TopLevelLookups(top);
    PairsLookup(ta);
    JObj(top)
  }

  /**
   A consumer of the report file: the candidate information, the pairs and the analysis,
   each looked up by its key; `None` when any is missing or of the wrong kind.
   */
  function ReadReport(j: Json): Option<(Profile, seq<QaPair>, string)> {
    if !j.JObj? then None
    else
      var ci := Member(j.members, "candidate_information");
      var ta := Member(j.members, "technical_assessment");
      var an := Member(j.members, "ai_analysis");
      if ci.Some? && ci.value.JObj? && ta.Some? && ta.value.JObj? && an.Some? && an.value.JStr? then
        var pairs := Member(ta.value.members, "qa_pairs");
        if pairs.Some? && pairs.value.JArr? then
          match (JsonProfile(ci.value.members), JsonQa(pairs.value.items))
          case (Some(info), Some(qa)) => Some((info, qa, an.value.s))
          case _ => None
        else None
      else None
  }

  /** The four top-level keys start with different letters, so each lookup finds its own member. */
  lemma TopLevelLookups(top: seq<(string, Json)>)
    requires |top| == 4
    requires top[0].0 == "report_metadata" && top[1].0 == "candidate_information"
    requires top[2].0 == "technical_assessment" && top[3].0 == "ai_analysis"
    ensures Member(top, "candidate_information") == Some(top[1].1)
    ensures Member(top, "technical_assessment") == Some(top[2].1)
    ensures Member(top, "ai_analysis") == Some(top[3].1)
  {
    var c, t, a := "candidate_information", "technical_assessment", "ai_analysis";
    assert top[0].0[0] == 'r' && top[1].0[0] == 'c' && top[2].0[0] == 't';
    assert c[0] == 'c' && t[0] == 't' && a[0] == 'a';
    var s1 := top[1..];
    var s2 := s1[1..];
    MemberSkip(top, c);
    MemberSkip(top, t);
    MemberSkip(s1, t);
    MemberSkip(top, a);
    MemberSkip(s1, a);
    MemberSkip(s2, a);
  }

  /** A member with another key is passed over. */
  lemma MemberSkip(ms: seq<(string, Json)>, key: string)
    requires ms != [] && ms[0].0 != key
    ensures Member(ms, key) == Member(ms[1..], key)
  {
  }

  /** The pairs are found under their key, which differs from the count's. */
  lemma PairsLookup(ta: seq<(string, Json)>)
    requires |ta| == 2 && ta[0].0 == "total_questions" && ta[1].0 == "qa_pairs"
    ensures Member(ta, "qa_pairs") == Some(ta[1].1)
  {
    assert ta[0].0[0] == 't';
  }

  // Reading a report back.

  function JsonScalar(j: Json): Option<Scalar> {
    match j
    case JNull => Some(Null)
    case JBool(b) => Some(Bool(b))
    case JNum(n) => Some(Num(n))
    case JStr(s) => Some(Str(s))
    case _ => None
  }

  function JsonStrs(items: seq<Json>): Option<seq<string>> {
    if items == [] then Some([])
    else if !items[0].JStr? then None
    else
      match JsonStrs(items[1..])
      case None => None
      case Some(rest) => Some([items[0].s] + rest)
  }

  function JsonCatVal(j: Json): Option<CatVal> {
    if j.JArr? then
      match JsonStrs(j.items)
      case None => None
      case Some(xs) => Some(Items(xs))
    else
      match JsonScalar(j)
      case None => None
      case Some(a) => Some(Leaf(a))
  }

  function JsonCats(members: seq<(string, Json)>): Option<seq<(string, CatVal)>> {
    if members == [] then Some([])
    else
      match (JsonCatVal(members[0].1), JsonCats(members[1..]))
      case (Some(c), Some(rest)) => Some([(members[0].0, c)] + rest)
      case _ => None
  }

  function JsonValue(j: Json): Option<Value> {
    match j
    case JArr(items) =>
      (match JsonStrs(items)
       case None => None
       case Some(xs) => Some(Strs(xs)))
    case JObj(ms) =>
      (match JsonCats(ms)
       case None => None
       case Some(cs) => Some(Cats(cs)))
    case _ =>
      (match JsonScalar(j)
       case None => None
       case Some(a) => Some(Atom(a)))
  }

  function JsonProfile(members: seq<(string, Json)>): Option<Profile> {
    if members == [] then Some([])
    else
      match (JsonValue(members[0].1), JsonProfile(members[1..]))
      case (Some(v), Some(rest)) => Some([(members[0].0, v)] + rest)
      case _ => None
  }

  function JsonQa(items: seq<Json>): Option<seq<QaPair>> {
    if items == [] then Some([])
    else
      var j := items[0];
      if j.JObj? && Member(j.members, "question").Some? && Member(j.members, "question").value.JStr?
         && Member(j.members, "answer").Some? && Member(j.members, "answer").value.JStr? then
        match JsonQa(items[1..])
        case None => None
        case Some(rest) => Some([QaPair(Member(j.members, "question").value.s, Member(j.members, "answer").value.s)] + rest)
      else None
  }

  lemma {:induction false} StrsRoundTrip(xs: seq<string>)
    ensures JsonStrs(StrsJson(xs)) == Some(xs)
  {
    if xs != [] {
      StrsRoundTrip(xs[1..]);
      assert StrsJson(xs)[1..] == StrsJson(xs[1..]);
      assert StrsJson(xs)[0] == JStr(xs[0]);
      assert [xs[0]] + xs[1..] == xs;
    }
  }

  lemma CatValRoundTrip(c: CatVal)
    ensures JsonCatVal(CatValJson(c)) == Some(c)
  {
    if c.Items? {
      StrsRoundTrip(c.items);
    }
  }

  lemma {:induction false} CatsRoundTrip(cs: seq<(string, CatVal)>)
    ensures JsonCats(seq(|cs|, i requires 0 <= i < |cs| => (cs[i].0, CatValJson(cs[i].1)))) == Some(cs)
  {
    if cs != [] {
      var ms := seq(|cs|, i requires 0 <= i < |cs| => (cs[i].0, CatValJson(cs[i].1)));
      CatsRoundTrip(cs[1..]);
      assert ms[1..] == seq(|cs[1..]|, i requires 0 <= i < |cs[1..]| => (cs[1..][i].0, CatValJson(cs[1..][i].1)));
      CatValRoundTrip(cs[0].1);
      assert [(cs[0].0, cs[0].1)] + cs[1..] == cs;
    }
  }

  /** Every profile value survives the JSON report unchanged. */
  lemma ValueRoundTrip(v: Value)
    ensures JsonValue(ValueJson(v)) == Some(v)
  {
    match v
    case Atom(a) =>
    case Strs(xs) => StrsRoundTrip(xs);
    case Cats(cs) => CatsRoundTrip(cs);
  }

  /** The candidate information section reads back as the profile, members in the same order. */
  lemma {:induction false} ProfileRoundTrip(p: Profile)
    ensures JsonProfile(ProfileJson(p).members) == Some(p)
  {
    if p != [] {
      ProfileRoundTrip(p[1..]);
      assert ProfileJson(p).members[1..] == ProfileJson(p[1..]).members;
      ValueRoundTrip(p[0].1);
      assert [(p[0].0, p[0].1)] + p[1..] == p;
    }
  }

  lemma QaJsonFields(p: QaPair)
    ensures Member(QaJson(p).members, "question") == Some(JStr(p.question))
    ensures Member(QaJson(p).members, "answer") == Some(JStr(p.answer))
  {
    var ms := QaJson(p).members;
    assert ms[0].0 != "answer" by {
      assert ms[0].0[0] == 'q';
    }
    assert ms[1..] == [("answer", JStr(p.answer))];
  }

  /** The pairs section reads back as the recorded pairs, in order. */
  lemma {:induction false} QaRoundTrip(qa: seq<QaPair>)
    ensures JsonQa(seq(|qa|, i requires 0 <= i < |qa| => QaJson(qa[i]))) == Some(qa)
  {
    if qa != [] {
      var items := seq(|qa|, i requires 0 <= i < |qa| => QaJson(qa[i]));
      QaRoundTrip(qa[1..]);
      QaJsonFields(qa[0]);
      assert items[0] == QaJson(qa[0]);
      assert items[1..] == seq(|qa[1..]|, i requires 0 <= i < |qa[1..]| => QaJson(qa[1..][i]));
      assert [QaPair(qa[0].question, qa[0].answer)] + qa[1..] == qa;
    }
  }

  /** The top-level members of the JSON report. */
  function ReportMembers(info: Profile, qa: seq<QaPair>, analysis: string, now: Instant): seq<(string, Json)>
    requires Valid(now)
  {
    JsonReport(info, qa, analysis, now).members
  }

  /** The JSON report is an object with exactly four top-level keys, in this order. */
  lemma JsonReportKeys(info: Profile, qa: seq<QaPair>, analysis: string, now: Instant)
    requires Valid(now)
    ensures JsonReport(info, qa, analysis, now).JObj?
    ensures Keys(ReportMembers(info, qa, analysis, now)) ==
      ["report_metadata", "candidate_information", "technical_assessment", "ai_analysis"]
  {
  }

  /** The metadata names the report type and the generator, and stamps the instant in ISO format. */
  lemma JsonReportMetadata(info: Profile, qa: seq<QaPair>, analysis: string, now: Instant)
    requires Valid(now)
    ensures var meta := ReportMembers(info, qa, analysis, now)[0].1;
      && meta.JObj? && Keys(meta.members) == ["generated_at", "report_type", "generated_by"]
      && meta.members[0].1 == JStr(IsoFormat(now))
      && meta.members[1].1 == JStr(ReportType)
      && meta.members[2].1 == JStr(GeneratedBy)
  {
  }

  /** The question count is the number of pairs, and the pairs read back unchanged and in order. */
  lemma JsonReportAssessment(info: Profile, qa: seq<QaPair>, analysis: string, now: Instant)
    requires Valid(now)
    ensures var ta := ReportMembers(info, qa, analysis, now)[2].1;
      && ta.JObj? && Keys(ta.members) == ["total_questions", "qa_pairs"]
      && ta.members[0].1 == JNum(|qa|)
      && ta.members[1].1.JArr? && JsonQa(ta.members[1].1.items) == Some(qa)
  {
    QaRoundTrip(qa);
  }

  /** The candidate information reads back as the profile, and the analysis is stored verbatim. */
  lemma JsonReportProfile(info: Profile, qa: seq<QaPair>, analysis: string, now: Instant)
    requires Valid(now)
    ensures var top := ReportMembers(info, qa, analysis, now);
      && top[1].1.JObj? && JsonProfile(top[1].1.members) == Some(info)
      && top[3].1 == JStr(analysis)
  {
    ProfileRoundTrip(info);
  }

  // ---------------------------------------------------------------------------
  // Report file names
  // ---------------------------------------------------------------------------

  const UnknownCandidate := "Unknown_Candidate"
  const TypeError := "TypeError: expected string or bytes-like object"

  /**
   `candidate_info.get('full_name', 'Unknown_Candidate')` followed by the `re.sub` of
   `generate_filename`: the fallback is used only when the key is absent, and a
   value that is not a string (such as the `null` the extraction request asks for)
   makes `re.sub` raise.
   */
  function ReportNameAsWritten(info: Profile): (r: Result<string, string>)
    ensures r.Failure? <==> HasKey(info, FullName) && !(Get(info, FullName).Atom? && Get(info, FullName).atom.Str?)
  {
    if !HasKey(info, FullName) then Success(UnknownCandidate)
    else
      match Get(info, FullName)
      case Atom(Str(s)) => Success(s)
      case _ => Failure(TypeError)
  }

  /** A resume whose extraction reports the name as `null` makes report generation raise. */
  lemma NullNameRaises()
    ensures ReportNameAsWritten([(FullName, Atom(Null))]).Failure?
  {
    assert HasKey([(FullName, Atom(Null))], FullName) by {
      assert [(FullName, Atom(Null))][0].0 == FullName;
    }
  }

  /** The name used for the report files: the stored name when it is a string, otherwise the fallback. */
  function ReportName(info: Profile): (r: string)
    ensures ReportNameAsWritten(info).Success? ==> r == ReportNameAsWritten(info).value
    ensures Get(info, FullName).Atom? && Get(info, FullName).atom.Str? ==> r == Get(info, FullName).atom.s
    ensures !(Get(info, FullName).Atom? && Get(info, FullName).atom.Str?) ==> r == UnknownCandidate
  {
    match Get(info, FullName)
    case Atom(Str(s)) => s
    case _ => UnknownCandidate
  }

  /** One report file's path: the reports folder, then `generate_filename(name, ext)`. */
  function ReportPath(info: Profile, t: Instant, ext: string): string
    requires Valid(t)
  {
    ReportsFolder + "/" + Filename(ReportName(info), t, ext)
  }

  /**
   `generate_reports`: the PDF and JSON paths in the reports folder. Each file name
   reads the clock separately, so each takes its own instant.
   */
  function ReportPaths(info: Profile, pdfAt: Instant, jsonAt: Instant): (r: (string, string))
    requires Valid(pdfAt) && Valid(jsonAt)
    ensures StampedPath(r.0, ReportStem(info), "pdf", pdfAt)
    ensures StampedPath(r.1, ReportStem(info), "json", jsonAt)
  {
    ReportPathShape(info, pdfAt, "pdf");
    ReportPathShape(info, jsonAt, "json");
    (ReportPath(info, pdfAt, "pdf"), ReportPath(info, jsonAt, "json"))
  }

  /** The part of every report path of a candidate that comes before the stamp. */
  function ReportStem(info: Profile): string
  {
    ReportsFolder + "/" + SafeName(ReportName(info)) + "_"
  }

  /** `path` is `stem`, then the instant `t` to the second, then `.` and `ext`. */
  predicate StampedPath(path: string, stem: string, ext: string, t: Instant)
  {
    && |path| == |stem| + 16 + |ext|
    && path[..|stem|] == stem
    && path[|stem| + 15..] == "." + ext
    && ParseCompactStamp(path[|stem|..|stem| + 15]) == Some(t.(microsecond := 0))
  }

  /**
   `generate_reports` as written: naming fails, and no path is produced, exactly when
   `full_name` is present but not a string; otherwise the paths are those above.
   */
  function ReportPathsAsWritten(info: Profile, pdfAt: Instant, jsonAt: Instant): (r: Result<(string, string), string>)
    requires Valid(pdfAt) && Valid(jsonAt)
    ensures r.Failure? <==> HasKey(info, FullName) && !(Get(info, FullName).Atom? && Get(info, FullName).atom.Str?)
    ensures r.Success? ==> r.value == ReportPaths(info, pdfAt, jsonAt)
  {
    match ReportNameAsWritten(info)
    case Failure(e) => Failure(e)
    case Success(name) => Success(ReportPaths(info, pdfAt, jsonAt))
  }

  /** With `full_name` stored as `null`, `generate_reports` produces no paths at all. */
  lemma NullNameNoPaths(pdfAt: Instant, jsonAt: Instant)
    requires Valid(pdfAt) && Valid(jsonAt)
    ensures ReportPathsAsWritten([(FullName, Atom(Null))], pdfAt, jsonAt).Failure?
  {
    NullNameRaises();
  }

  /**
   Every report path starts with the same folder, sanitised name and `_`, whatever the
   instant and extension; then come the instant to the second and `.` plus the extension.
   So the PDF and JSON files of one candidate share their stem up to the stamp.
   */
  lemma ReportPathShape(info: Profile, t: Instant, ext: string)
    requires Valid(t)
    ensures var path := ReportPath(info, t, ext);
      var k := |ReportsFolder| + 1 + |SafeName(ReportName(info))| + 1;
      && |path| == k + 16 + |ext|
      && path[..k] == ReportsFolder + "/" + SafeName(ReportName(info)) + "_"
      && path[k + 15..] == "." + ext
      && ParseCompactStamp(path[k..k + 15]) == Some(t.(microsecond := 0))
  {
    var pre, name := ReportsFolder + "/", ReportName(info);
    FilenameParts(name, t, ext);
    PrefixedParts(pre, Filename(name, t, ext), SafeName(name), ext, Some(t.(microsecond := 0)));
  }

  /** `generate_filename`'s result, in the form the path lemmas take it. */
  lemma FilenameParts(name: string, t: Instant, ext: string)
    requires Valid(t)
    ensures var f, safe := Filename(name, t, ext), SafeName(name);
      && safe <= f && |f| == |safe| + 17 + |ext| && f[|safe|] == '_'
      && f[|f| - |ext| - 1..] == "." + ext
      && ParseCompactStamp(f[|safe| + 1..|safe| + 16]) == Some(t.(microsecond := 0))
  {
  }

  /** The parts of a file name `safe + "_" + stamp + "." + ext`, seen behind a prefix. */
  lemma PrefixedParts(pre: string, f: string, safe: string, ext: string, v: Option<Instant>)
    requires safe <= f && |f| == |safe| + 17 + |ext| && f[|safe|] == '_'
    requires f[|f| - |ext| - 1..] == "." + ext
    requires ParseCompactStamp(f[|safe| + 1..|safe| + 16]) == v
    ensures var k := |pre| + |safe| + 1;
      && (pre + f)[..k] == pre + safe + "_"
      && (pre + f)[k + 15..] == "." + ext
      && ParseCompactStamp((pre + f)[k..k + 15]) == v
  {
    var n := |safe|;
    assert f[..n + 1] == safe + "_";
    PrefixedSlices(pre, f, n);
  }

  lemma PrefixedSlices(pre: string, f: string, n: nat)
    requires n + 16 <= |f|
    ensures (pre + f)[..|pre| + n + 1] == pre + f[..n + 1]
    ensures (pre + f)[|pre| + n + 1..|pre| + n + 16] == f[n + 1..n + 16]
    ensures (pre + f)[|pre| + n + 16..] == f[n + 16..]
  {
  }
}
