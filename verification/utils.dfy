/**
 The helper functions of the application: the natural-language rendering of a
 candidate profile, report file names, locating the JSON object in a model reply,
 and the cleaning of text extracted from a resume.
 */
module Utils {
  import opened Wrappers
  import opened Text
  import opened Values
  import opened Config
  import opened Clock

  // ---------------------------------------------------------------------------
  // Natural-language profile rendering
  // ---------------------------------------------------------------------------

  /** The label each required field carries in the natural rendering. */
  function NaturalLabel(key: string): string {
    if key == FullName then "Name"
    else if key == Email then "Email"
    else if key == PhoneNumber then "Phone"
    else if key == YearsOfExperience then "Experience"
    else if key == DesiredPositions then "Desired Role(s)"
    else if key == CurrentLocation then "Location"
    else "Tech Stack"
  }

  /** The line a field contributes: its label and its display text. */
  function NaturalLine(info: Profile, key: string): string {
    NaturalLabel(key) + ": " + DisplayText(key, Get(info, key))
  }

  function NaturalLineOf(info: Profile): string -> string {
    key => NaturalLine(info, key)
  }

  /**
   The `parts` list of `format_candidate_info_natural`: the source's chain of seven
   tests, each adding at most one line, yields exactly one line per truthy required
   field, in field order.
   */
  function NaturalParts(info: Profile): (parts: seq<string>)
    ensures parts == Picked(info, RequiredFields, NaturalLineOf(info))
  {
    var f := NaturalLineOf(info);
    PickedChain7(info, f, FullName, Email, PhoneNumber, YearsOfExperience, DesiredPositions, CurrentLocation, TechStack);
    IfTruthy(info, FullName, f)
    + (IfTruthy(info, Email, f)
    + (IfTruthy(info, PhoneNumber, f)
    + (IfTruthy(info, YearsOfExperience, f)
    + (IfTruthy(info, DesiredPositions, f)
    + (IfTruthy(info, CurrentLocation, f)
    + IfTruthy(info, TechStack, f))))))
  }

  /** The labels of the required fields, in field order. */
  const NaturalLabels: seq<string> :=
    ["Name", "Email", "Phone", "Experience", "Desired Role(s)", "Location", "Tech Stack"]

  lemma NaturalLabelAt(i: nat)
    requires i < |RequiredFields|
    ensures NaturalLabel(RequiredFields[i]) == NaturalLabels[i]
  {
  }

  /** No two labels share their first two characters. */
  lemma LabelInitialsDistinct(x: nat, y: nat)
    requires x < 7 && y < 7
    requires NaturalLabels[x][0] == NaturalLabels[y][0] && NaturalLabels[x][1] == NaturalLabels[y][1]
    ensures x == y
  {
    if x == 0 {} else if x == 1 {} else if x == 2 {} else if x == 3 {} else if x == 4 {} else if x == 5 {} else {}
  }

  /** Lines of different required fields differ in their first two characters. */
  lemma NaturalLineInjective(info: Profile, k: string, k': string)
    requires k in RequiredFields && k' in RequiredFields
    requires NaturalLine(info, k) == NaturalLine(info, k')
    ensures k == k'
  {
    var i :| 0 <= i < 7 && RequiredFields[i] == k;
    var j :| 0 <= j < 7 && RequiredFields[j] == k';
    NaturalLabelAt(i);
    NaturalLabelAt(j);
    NaturalLabelsWide(i);
    NaturalLabelsWide(j);
    LineInitials(NaturalLabels[i], DisplayText(k, Get(info, k)));
    LineInitials(NaturalLabels[j], DisplayText(k', Get(info, k')));
    LabelInitialsDistinct(i, j);
  }

  lemma NaturalLabelsWide(i: nat)
    requires i < 7
    ensures |NaturalLabels[i]| >= 2
  {
  }

  /** A labelled line starts with the first two characters of its label. */
  lemma LineInitials(name: string, text: string)
    requires |name| >= 2
    ensures var l := name + ": " + text; l[0] == name[0] && l[1] == name[1]
  {
  }

  /** A required field has its line in the rendering exactly when its value is truthy. */
  lemma NaturalLinePresent(info: Profile, k: string)
    requires k in RequiredFields
    ensures NaturalLine(info, k) in NaturalParts(info) <==> Truthy(Get(info, k))
  {
    var f := NaturalLineOf(info);
    if Truthy(Get(info, k)) {
      PickedHas(info, RequiredFields, f, k);
    } else {
      forall a | a in RequiredFields && f(a) == f(k)
        ensures a == k
      {
        NaturalLineInjective(info, a, k);
      }
      PickedLacks(info, RequiredFields, f, k);
    }
  }

  /** Zero years of experience is falsy, so no Experience line is written. */
  lemma ZeroExperienceOmitted(info: Profile)
    requires Get(info, YearsOfExperience) == Atom(Num(0))
    ensures NaturalLine(info, YearsOfExperience) !in NaturalParts(info)
  {
    NaturalLinePresent(info, YearsOfExperience);
  }

  /** `format_candidate_info_natural`: the lines joined with newlines; empty exactly when no field is truthy. */
  function FormatNatural(info: Profile): (r: string)
    ensures r == [] <==> TruthyKeys(info, RequiredFields) == []
  {
    var parts := NaturalParts(info);
    assert parts != [] ==> parts[0] != [] by {
      if parts != [] {
        assert parts[0] == NaturalLine(info, TruthyKeys(info, RequiredFields)[0]);
      }
    }
    Join(parts, "\n")
  }

  /** A profile with no entries renders as the empty string. */
  lemma FormatNaturalEmpty()
    ensures FormatNatural([]) == ""
  {
    assert NaturalParts([]) == [];
  }

  // ---------------------------------------------------------------------------
  // File names
  // ---------------------------------------------------------------------------

  /** The ASCII members of `\w`. */
  predicate IsWordChar(c: char) {
    ('a' <= c <= 'z') || ('A' <= c <= 'Z') || IsDigit(c) || c == '_'
  }

  /** The characters `[^\w\s-]` does not match, which survive sanitising. */
  predicate KeptInName(c: char) {
    IsWordChar(c) || IsSpace(c) || c == '-'
  }

  /** `re.sub(r'[^\w\s-]', '', s)`. */
  function RemoveDisallowed(s: string): (r: string)
    ensures |r| <= |s|
    ensures forall i :: 0 <= i < |r| ==> KeptInName(r[i])
    ensures s == [] ==> r == []
    ensures |s| == 1 ==> r == (if KeptInName(s[0]) then s else [])
  {
    if s == [] then []
    else (if KeptInName(s[0]) then [s[0]] else []) + RemoveDisallowed(s[1..])
  }

  /** Only disallowed characters are removed: a string without any is left alone. */
  lemma {:induction false} RemoveDisallowedKeeps(s: string)
    requires forall i :: 0 <= i < |s| ==> KeptInName(s[i])
    ensures RemoveDisallowed(s) == s
  {
    if s != [] {
      RemoveDisallowedKeeps(s[1..]);
    }
  }

  /** Removal works character by character. */
  lemma {:induction false} RemoveDisallowedAppend(a: string, b: string)
    ensures RemoveDisallowed(a + b) == RemoveDisallowed(a) + RemoveDisallowed(b)
  {
    if a == [] {
      assert a + b == b;
    } else {
      assert (a + b)[1..] == a[1..] + b;
      RemoveDisallowedAppend(a[1..], b);
    }
  }

  function SpacesToUnderscores(s: string): (r: string)
    ensures |r| == |s|
    ensures forall i :: 0 <= i < |s| ==> r[i] == if s[i] == ' ' then '_' else s[i]
  {
    seq(|s|, i requires 0 <= i < |s| => if s[i] == ' ' then '_' else s[i])
  }

  lemma StripKept(s: string)
    requires forall i :: 0 <= i < |s| ==> KeptInName(s[i])
    ensures forall i :: 0 <= i < |Strip(s)| ==> KeptInName(Strip(s)[i])
  {
    var lo := StripSlice(s);
    assert forall i :: 0 <= i < |Strip(s)| ==> Strip(s)[i] == s[lo + i];
  }

  /**
   The sanitised name of `generate_filename`: disallowed characters removed, the
   ends stripped, and each space replaced by `_`.
   */
  function SafeName(name: string): (r: string)
    ensures forall i :: 0 <= i < |r| ==> KeptInName(r[i]) && r[i] != ' '
    ensures r == [] || (!IsSpace(r[0]) && !IsSpace(r[|r| - 1]))
  {
    var kept := RemoveDisallowed(name);
    StripKept(kept);
    SpacesToUnderscores(Strip(kept))
  }

  /** Sanitising an already sanitised name changes nothing. */
  lemma SafeNameIdempotent(name: string)
    ensures SafeName(SafeName(name)) == SafeName(name)
  {
    var s := SafeName(name);
    RemoveDisallowedKeeps(s);
    assert RemoveDisallowed(s) == s;
    if s != [] {
      StripUntrimmed(s);
    }
    assert Strip(s) == s;
    NoSpacesUnchanged(s);
  }

  lemma NoSpacesUnchanged(s: string)
    requires forall i :: 0 <= i < |s| ==> s[i] != ' '
    ensures SpacesToUnderscores(s) == s
  {
  }

  predicate AllWordChars(w: string) {
    forall i :: 0 <= i < |w| ==> IsWordChar(w[i])
  }

  lemma KeepWord(w: string, x: string)
    requires AllWordChars(w)
    ensures RemoveDisallowed(w + x) == w + RemoveDisallowed(x)
  {
    RemoveDisallowedAppend(w, x);
    RemoveDisallowedKeeps(w);
  }

  /**
   Names shaped like "O'Brien / Smith!!": the apostrophe, slash and exclamation
   marks disappear, and the two spaces left around the slash become "__", giving
   "OBrien__Smith".
   */
  lemma SafeNameExample(w1: string, w2: string, w3: string)
    requires w1 != [] && w3 != [] && AllWordChars(w1) && AllWordChars(w2) && AllWordChars(w3)
    ensures SafeName(w1 + ("'" + (w2 + (" / " + (w3 + "!!"))))) == w1 + (w2 + ("__" + w3))
  {
    var kept := w1 + (w2 + ("  " + w3));
    RemovePunctuation(w1, w2, w3);
    assert kept[0] == w1[0] && kept[|kept| - 1] == w3[|w3| - 1];
    StripUntrimmed(kept);
    Underscores(w1, w2, w3);
  }

  lemma RemovePunctuation(w1: string, w2: string, w3: string)
    requires AllWordChars(w1) && AllWordChars(w2) && AllWordChars(w3)
    ensures RemoveDisallowed(w1 + ("'" + (w2 + (" / " + (w3 + "!!"))))) == w1 + (w2 + ("  " + w3))
  {
    var t3 := w3 + "!!";
    var t2 := " / " + t3;
    var t1 := "'" + (w2 + t2);
    PunctuationRemoved();
    KeepWord(w3, "!!");
    RemovedBefore(" / ", t3, "  ", w3);
    KeepWord(w2, t2);
    RemovedBefore("'", w2 + t2, [], w2 + ("  " + w3));
    KeepWord(w1, t1);
  }

  lemma PunctuationRemoved()
    ensures RemoveDisallowed("!!") == [] && RemoveDisallowed(" / ") == "  " && RemoveDisallowed("'") == []
  {
  }

  lemma RemovedBefore(a: string, x: string, ra: string, rx: string)
    requires RemoveDisallowed(a) == ra && RemoveDisallowed(x) == rx
    ensures RemoveDisallowed(a + x) == ra + rx
  {
    RemoveDisallowedAppend(a, x);
  }

  lemma Underscores(w1: string, w2: string, w3: string)
    requires AllWordChars(w1) && AllWordChars(w2) && AllWordChars(w3)
    ensures SpacesToUnderscores(w1 + (w2 + ("  " + w3))) == w1 + (w2 + ("__" + w3))
  {
    var kept := w1 + (w2 + ("  " + w3));
    var r := SpacesToUnderscores(kept);
    forall i | 0 <= i < |r|
      ensures r[i] == (w1 + (w2 + ("__" + w3)))[i]
    {
      if i < |w1| {
        assert kept[i] == w1[i];
      } else if i < |w1| + |w2| {
        assert kept[i] == w2[i - |w1|];
      } else if i >= |w1| + |w2| + 2 {
        assert kept[i] == w3[i - |w1| - |w2| - 2];
      }
    }
  }

  /** `generate_filename(name, ext)` at instant `t`: `<safe name>_<YYYYMMDD_HHMMSS>.<ext>`. */
  function Filename(name: string, t: Instant, ext: string): (r: string)
    requires Valid(t)
    ensures SafeName(name) <= r
    ensures |r| == |SafeName(name)| + 17 + |ext|
    ensures r[|SafeName(name)|] == '_'
    ensures r[|r| - |ext| - 1..] == "." + ext
    ensures ParseCompactStamp(r[|SafeName(name)| + 1..|SafeName(name)| + 16]) == Some(t.(microsecond := 0))
  {
    var safe := SafeName(name);
    var stamp := CompactStamp(t);
    FilenameShape(safe, stamp, ext);
    CompactStampRoundTrip(t);
    safe + "_" + stamp + "." + ext
  }

  lemma FilenameShape(safe: string, stamp: string, ext: string)
    requires |stamp| == 15
    ensures var r := safe + "_" + stamp + "." + ext;
      && safe <= r && |r| == |safe| + 17 + |ext| && r[|safe|] == '_'
      && r[|r| - |ext| - 1..] == "." + ext && r[|safe| + 1..|safe| + 16] == stamp
  {
  }

  // ---------------------------------------------------------------------------
  // Locating the JSON object in a model reply
  // ---------------------------------------------------------------------------

  /** The first index of `c` in `s`, or -1. */
  function FirstIndex(s: string, c: char): (r: int)
    ensures r >= -1
    ensures r == -1 <==> c !in s
    ensures r >= 0 ==> r < |s| && s[r] == c && c !in s[..r]
  {
    if s == [] then -1
    else if s[0] == c then 0
    else
      var k := FirstIndex(s[1..], c);
      assert s == [s[0]] + s[1..];
      if k < 0 then -1
      else
        assert s[..k + 1] == [s[0]] + s[1..][..k];
        k + 1
  }

  /** The last index of `c` in `s`, or -1. */
  function LastIndex(s: string, c: char): (r: int)
    ensures r >= -1
    ensures r == -1 <==> c !in s
    ensures r >= 0 ==> r < |s| && s[r] == c && c !in s[r + 1..]
  {
    if s == [] then -1
    else if s[|s| - 1] == c then |s| - 1
    else
      var k := LastIndex(s[..|s| - 1], c);
      assert s == s[..|s| - 1] + [s[|s| - 1]];
      if k < 0 then -1
      else
        assert s[k + 1..] == s[..|s| - 1][k + 1..] + [s[|s| - 1]];
        k
  }

  /**
   The span `[lo, hi)` that `re.search(r'\{.*\}', content, re.DOTALL)` matches:
   from the first `{` to the last `}`, present exactly when some `{` precedes some `}`.
   */
  function LocateObject(content: string): (r: Option<(nat, nat)>)
    ensures r.None? <==> !exists a, b :: 0 <= a < b < |content| && content[a] == '{' && content[b] == '}'
    ensures r.Some? ==>
      && r.value.0 + 1 < r.value.1 <= |content|
      && content[r.value.0] == '{' && content[r.value.1 - 1] == '}'
      && '{' !in content[..r.value.0] && '}' !in content[r.value.1..]
  {
    var lo := FirstIndex(content, '{');
    var last := LastIndex(content, '}');
    if lo >= 0 && last > lo then Some((lo, last + 1))
    else
      NoBraceAfterBrace(content, lo, last);
      None
  }

  /** When the last `}` does not follow the first `{`, no `}` follows any `{`. */
  lemma NoBraceAfterBrace(content: string, lo: int, last: int)
    requires lo == FirstIndex(content, '{') && last == LastIndex(content, '}')
    requires !(lo >= 0 && last > lo)
    ensures !exists a, b :: 0 <= a < b < |content| && content[a] == '{' && content[b] == '}'
  {
    forall a, b | 0 <= a < b < |content| && content[a] == '{'
      ensures content[b] != '}'
    {
      assert content[a] in content;
      if a < lo {
        AbsentBefore(content, '{', lo, a);
      }
      AbsentAfter(content, '}', last + 1, b);
    }
  }

  /** A character missing from `s[..k]` is at no position before `k`. */
  lemma AbsentBefore(s: string, c: char, k: int, j: int)
    requires 0 <= j < k <= |s| && c !in s[..k]
    ensures s[j] != c
  {
    assert s[..k][j] == s[j];
  }

  /** A character missing from `s[k..]` is at no position from `k` on. */
  lemma AbsentAfter(s: string, c: char, k: int, j: int)
    requires 0 <= k <= j < |s| && c !in s[k..]
    ensures s[j] != c
  {
    assert s[k..][j - k] == s[j];
  }

  /** The match is greedy: two objects in one reply give one span covering both. */
  lemma LocateObjectGreedy(a: string, b: string)
    requires '{' !in a && '}' !in a && '{' !in b && '}' !in b
    ensures LocateObject("{" + a + "} {" + b + "}") == Some((0, |a| + |b| + 5))
  {
    var s := "{" + a + "} {" + b + "}";
    var r := LocateObject(s);
    assert s[|a| + 1] == '}';
    var lo, hi := r.value.0, r.value.1;
    assert forall i :: 1 <= i <= |a| ==> s[i] == a[i - 1];
    assert forall i :: |a| + 4 <= i < |s| - 1 ==> s[i] == b[i - |a| - 4];
  }

  /**
   `parse_json_from_response`: the decoding of the located object, or the empty
   profile when there is none or it does not decode. `decode` stands for `json.loads`,
   with `None` for a decoding error.
   */
  function ParseJsonFromResponse(content: string, decode: string -> Option<Profile>): (r: Profile)
    ensures LocateObject(content).None? ==> r == []
    ensures LocateObject(content).Some? && decode(content[LocateObject(content).value.0..LocateObject(content).value.1]).None? ==> r == []
    ensures LocateObject(content).Some? && decode(content[LocateObject(content).value.0..LocateObject(content).value.1]).Some? ==>
      r == decode(content[LocateObject(content).value.0..LocateObject(content).value.1]).value
  {
    match LocateObject(content)
    case None => []
    case Some((lo, hi)) =>
      match decode(content[lo..hi])
      case Some(p) => p
      case None => []
  }

  /** Prose around a single object is ignored: the reply decodes as the object does. */
  lemma ParseJsonIgnoresProse(before: string, obj: string, after: string, decode: string -> Option<Profile>)
    requires |obj| >= 2 && obj[0] == '{' && obj[|obj| - 1] == '}'
    requires '{' !in before && '}' !in after
    ensures ParseJsonFromResponse(before + obj + after, decode) ==
      (match decode(obj) case Some(p) => p case None => [])
  {
    var s := before + obj + after;
    var hi := |before| + |obj|;
    assert s[..|before|] == before && s[hi..] == after;
    assert s[|before|] == '{' && s[hi - 1] == '}';
    FirstIndexAt(s, '{', |before|);
    LastIndexAt(s, '}', hi - 1);
    assert s[|before|..hi] == obj;
  }

  lemma FirstIndexAt(s: string, c: char, k: nat)
    requires k < |s| && s[k] == c && c !in s[..k]
    ensures FirstIndex(s, c) == k
  {
  }

  lemma LastIndexAt(s: string, c: char, k: nat)
    requires k < |s| && s[k] == c && c !in s[k + 1..]
    ensures LastIndex(s, c) == k
  {
  }

  /** A reply without any `{` yields the empty profile. */
  lemma ParseJsonNoBrace(content: string, decode: string -> Option<Profile>)
    requires '{' !in content
    ensures ParseJsonFromResponse(content, decode) == []
  {
  }

  // ---------------------------------------------------------------------------
  // Resume text cleaning
  // ---------------------------------------------------------------------------

  /** The three bullet characters the cleaning replaces: U+2022, U+25CF and U+25AA. */
  predicate IsBullet(c: char) {
    c == '\U{2022}' || c == '\U{25CF}' || c == '\U{25AA}'
  }

  /** The punctuation `[.,!?]` that whitespace is removed before. */
  predicate IsClosingPunct(c: char) {
    c == '.' || c == ',' || c == '!' || c == '?'
  }

  /** `re.sub(r'\s+', ' ', s)`: every run of whitespace becomes one space. */
  function CollapseWhitespace(s: string): (r: string)
    ensures forall i :: 0 <= i < |r| && IsSpace(r[i]) ==> r[i] == ' '
    ensures forall i :: 0 <= i < |r| - 1 ==> !(r[i] == ' ' && r[i + 1] == ' ')
    ensures s != [] ==> r != [] && r[0] == (if IsSpace(s[0]) then ' ' else s[0])
    ensures Visible(r) == Visible(s)
    decreases |s|
  {
    if s == [] then []
    else if IsSpace(s[0]) then
      var rest := LStrip(s);
      assert |rest| < |s|;
      var t := CollapseWhitespace(rest);
      CollapseRunStep(s, rest, t);
      [' '] + t
    else
      var t := CollapseWhitespace(s[1..]);
      CollapseKeepStep(s, t);
      [s[0]] + t
  }

  /**
   A left-to-right scan that writes each visible character, writes one space for the
   first whitespace character of a run and nothing for the others; `inRun` says
   whether the previous character was whitespace.
   */
  function CollapseScan(s: string, inRun: bool): string
    decreases |s|
  {
    if s == [] then []
    else if IsSpace(s[0]) then (if inRun then [] else [' ']) + CollapseScan(s[1..], true)
    else [s[0]] + CollapseScan(s[1..], false)
  }

  /** Collapsing run by run agrees with the character-by-character scan. */
  lemma {:induction false} CollapseIsScan(s: string)
    ensures CollapseWhitespace(s) == CollapseScan(s, false)
    decreases |s|
  {
    if s == [] {
    } else if IsSpace(s[0]) {
      var rest := LStrip(s);
      CollapseIsScan(rest);
      ScanSkipsRun(s[1..]);
      assert LStrip(s[1..]) == rest;
      ScanAfterRun(rest);
    } else {
      CollapseIsScan(s[1..]);
    }
  }

  /** Inside a run, the scan writes nothing until the run ends. */
  lemma {:induction false} ScanSkipsRun(t: string)
    ensures CollapseScan(t, true) == CollapseScan(LStrip(t), true)
    decreases |t|
  {
    if t != [] && IsSpace(t[0]) {
      ScanSkipsRun(t[1..]);
    }
  }

  /** Where a run has ended, the scan no longer depends on having been in it. */
  lemma ScanAfterRun(t: string)
    requires t == [] || !IsSpace(t[0])
    ensures CollapseScan(t, true) == CollapseScan(t, false)
  {
  }

  /** The two spacing facts `CollapseWhitespace` promises of its result. */
  predicate SingleSpaced(r: string) {
    && (forall i :: 0 <= i < |r| && IsSpace(r[i]) ==> r[i] == ' ')
    && (forall i :: 0 <= i < |r| - 1 ==> !(r[i] == ' ' && r[i + 1] == ' '))
  }

  /** A run of whitespace collapsed to one space in front of the collapsed rest. */
  lemma CollapseRunStep(s: string, rest: string, t: string)
    requires s != [] && IsSpace(s[0]) && rest == LStrip(s)
    requires SingleSpaced(t) && Visible(t) == Visible(rest)
    requires rest == [] ==> t == []
    requires rest != [] ==> t != [] && t[0] == rest[0]
    ensures SingleSpaced([' '] + t) && Visible([' '] + t) == Visible(s)
  {
    SpaceBeforeSpaced(t);
    VisibleCons(' ', t);
    LStripVisible(s);
  }

  /** One space in front of a single-spaced text that does not start with whitespace keeps it single-spaced. */
  lemma SpaceBeforeSpaced(t: string)
    requires SingleSpaced(t) && (t == [] || !IsSpace(t[0]))
    ensures SingleSpaced([' '] + t)
  {
    var r := [' '] + t;
    assert forall i :: 1 <= i < |r| ==> r[i] == t[i - 1];
  }

  /** A character that is not whitespace kept in front of the collapsed rest. */
  lemma CollapseKeepStep(s: string, t: string)
    requires s != [] && !IsSpace(s[0])
    requires SingleSpaced(t) && Visible(t) == Visible(s[1..])
    ensures SingleSpaced([s[0]] + t) && Visible([s[0]] + t) == Visible(s)
  {
    var r := [s[0]] + t;
    assert r[1..] == t;
    assert s == [s[0]] + s[1..];
  }

  /** What one character becomes: a bullet turns into ", ". */
  function BulletFree(c: char): string {
    if IsBullet(c) then ", " else [c]
  }

  /** The three `str.replace` calls, which together turn each bullet into ", ". */
  function ReplaceBullets(s: string): (r: string)
    ensures forall i :: 0 <= i < |r| ==> !IsBullet(r[i])
    ensures s == [] ==> r == []
    ensures |s| == 1 ==> r == BulletFree(s[0])
  {
    if s == [] then []
    else
      var r := BulletFree(s[0]) + ReplaceBullets(s[1..]);
      assert forall i :: 0 <= i < |r| - |BulletFree(s[0])| ==> r[i + |BulletFree(s[0])|] == ReplaceBullets(s[1..])[i];
      r
  }

  /** A character the cleaned text may hold: no bullet, and no whitespace but a plain space. */
  predicate Tidy(c: char) {
    !IsBullet(c) && (IsSpace(c) ==> c == ' ')
  }

  predicate AllTidy(s: string) {
    forall i :: 0 <= i < |s| ==> Tidy(s[i])
  }

  predicate SpacesPlain(s: string) {
    forall i :: 0 <= i < |s| && IsSpace(s[i]) ==> s[i] == ' '
  }

  /** Replacing bullets in text whose only whitespace is plain spaces gives tidy text. */
  lemma {:induction false} ReplaceBulletsTidy(s: string)
    requires SpacesPlain(s)
    ensures AllTidy(ReplaceBullets(s))
  {
    if s != [] {
      ReplaceBulletsTidy(s[1..]);
      var r := ReplaceBullets(s);
      var tail := ReplaceBullets(s[1..]);
      var head := BulletFree(s[0]);
      assert r == head + tail;
      forall i | 0 <= i < |r| ensures Tidy(r[i]) {
        if i >= |head| {
          assert r[i] == tail[i - |head|];
        }
      }
    }
  }

  lemma {:induction false} ReplaceBulletsAppend(a: string, b: string)
    ensures ReplaceBullets(a + b) == ReplaceBullets(a) + ReplaceBullets(b)
  {
    if a == [] {
      assert a + b == b;
    } else {
      assert (a + b)[1..] == a[1..] + b;
      ReplaceBulletsAppend(a[1..], b);
    }
  }

  /** Text without bullets is left as it is. */
  lemma {:induction false} NoBulletsUnchanged(s: string)
    requires forall i :: 0 <= i < |s| ==> !IsBullet(s[i])
    ensures ReplaceBullets(s) == s
  {
    if s != [] {
      NoBulletsUnchanged(s[1..]);
      assert s == [s[0]] + s[1..];
    }
  }

  /** Replacing bullets does not depend on the whitespace around them. */
  lemma {:induction false} ReplaceBulletsVisible(s: string)
    ensures Visible(ReplaceBullets(s)) == Visible(ReplaceBullets(Visible(s)))
  {
    if s != [] {
      ReplaceBulletsVisible(s[1..]);
      VisibleAppend(BulletFree(s[0]), ReplaceBullets(s[1..]));
      if IsSpace(s[0]) {
        assert Visible(s) == Visible(s[1..]);
        assert Visible(BulletFree(s[0])) == [];
      } else {
        assert Visible(s) == [s[0]] + Visible(s[1..]);
        ReplaceBulletsAppend([s[0]], Visible(s[1..]));
        assert [s[0]][1..] == [];
        VisibleAppend(BulletFree(s[0]), ReplaceBullets(Visible(s[1..])));
      }
    }
  }

  /**
   `re.sub(r'\s+([.,!?])', r'\1', s)`: a run of whitespace directly followed by
   closing punctuation is removed; every other run is kept as it is.
   */
  function DropSpaceBeforePunct(s: string): (r: string)
    ensures s != [] && !IsSpace(s[0]) ==> r != [] && r[0] == s[0]
    ensures forall i :: 0 <= i < |r| - 1 && IsClosingPunct(r[i + 1]) ==> !IsSpace(r[i])
    decreases |s|
  {
    if s == [] then []
    else if IsSpace(s[0]) then
      var rest := LStrip(s);
      var run := s[..|s| - |rest|];
      assert |rest| < |s|;
      if rest != [] && IsClosingPunct(rest[0]) then
        [rest[0]] + DropSpaceBeforePunct(rest[1..])
      else
        var tail := DropSpaceBeforePunct(rest);
        var r := run + tail;
        assert forall i :: |run| <= i < |r| ==> r[i] == tail[i - |run|];
        r
    else
      var tail := DropSpaceBeforePunct(s[1..]);
      var r := [s[0]] + tail;
      assert forall i :: 1 <= i < |r| ==> r[i] == tail[i - 1];
      r
  }

  /**
   A left-to-right scan that holds back each whitespace run in `held`: closing
   punctuation drops what is held, any other visible character first writes it out,
   and at the end what is held is written out.
   */
  function DropScan(s: string, held: string): string
    decreases |s|
  {
    if s == [] then held
    else if IsSpace(s[0]) then DropScan(s[1..], held + [s[0]])
    else if IsClosingPunct(s[0]) then [s[0]] + DropScan(s[1..], [])
    else held + [s[0]] + DropScan(s[1..], [])
  }

  /** Removing whitespace before punctuation run by run agrees with the scan. */
  lemma {:induction false} DropIsScan(s: string)
    ensures DropSpaceBeforePunct(s) == DropScan(s, [])
    decreases |s|
  {
    if s != [] {
      if IsSpace(s[0]) {
        var rest := LStrip(s);
        if rest != [] {
          DropIsScan(rest[1..]);
        }
        DropRunCase(s, rest);
      } else {
        DropIsScan(s[1..]);
        DropHeadUnfold(s);
        DropScanVisibleHead(s, []);
        assert [] + [s[0]] == [s[0]];
      }
    }
  }

  /** The step of `DropIsScan` at a whitespace run, given the claim for what follows it. */
  lemma DropRunCase(s: string, rest: string)
    requires s != [] && IsSpace(s[0]) && rest == LStrip(s)
    requires rest != [] ==> DropSpaceBeforePunct(rest[1..]) == DropScan(rest[1..], [])
    ensures DropSpaceBeforePunct(s) == DropScan(s, [])
  {
    var run := s[..|s| - |rest|];
    LStripSplit(s);
    DropScanHoldsRun(run, rest, []);
    assert [] + run == run;
    if rest == [] {
      DropKeptUnfold(s, rest);
      assert run + [] == run;
    } else if IsClosingPunct(rest[0]) {
      DropPunctUnfold(s, rest);
      DropScanVisibleHead(rest, run);
    } else {
      DropKeptUnfold(s, rest);
      DropRunKept(rest, run);
    }
  }

  /** After a held run, a character other than closing punctuation writes the run out. */
  lemma DropRunKept(rest: string, run: string)
    requires rest != [] && !IsSpace(rest[0]) && !IsClosingPunct(rest[0])
    requires DropSpaceBeforePunct(rest[1..]) == DropScan(rest[1..], [])
    ensures DropScan(rest, run) == run + DropSpaceBeforePunct(rest)
  {
    var after := DropScan(rest[1..], []);
    DropScanVisibleHead(rest, run);
    DropHeadUnfold(rest);
    ConcatAssoc(run, [rest[0]], after);
  }

  /** One step of the scan at a character that is not whitespace. */
  lemma DropScanVisibleHead(t: string, held: string)
    requires t != [] && !IsSpace(t[0])
    ensures DropScan(t, held) == (if IsClosingPunct(t[0]) then [t[0]] else held + [t[0]]) + DropScan(t[1..], [])
  {
  }

  /** The scan holds back a whole whitespace run before looking past it. */
  lemma {:induction false} DropScanHoldsRun(run: string, t: string, held: string)
    requires forall i :: 0 <= i < |run| ==> IsSpace(run[i])
    ensures DropScan(run + t, held) == DropScan(t, held + run)
    decreases |run|
  {
    if run == [] {
      assert run + t == t;
      assert held + run == held;
    } else {
      var s := run + t;
      assert s[0] == run[0] && s[1..] == run[1..] + t;
      DropScanHoldsRun(run[1..], t, held + [run[0]]);
      ConcatAssoc(held, [run[0]], run[1..]);
      assert [run[0]] + run[1..] == run;
    }
  }

  /** No whitespace before punctuation: the scan writes what it holds and the text unchanged. */
  lemma {:induction false} DropScanKeeps(s: string, held: string)
    requires forall i :: 0 <= i < |s| - 1 && IsClosingPunct(s[i + 1]) ==> !IsSpace(s[i])
    requires held != [] && s != [] ==> !IsClosingPunct(s[0])
    ensures DropScan(s, held) == held + s
    decreases |s|
  {
    if s == [] {
      assert held + s == held;
    } else {
      DropScanKeeps(s[1..], if IsSpace(s[0]) then held + [s[0]] else []);
      if IsSpace(s[0]) {
        ConcatAssoc(held, [s[0]], s[1..]);
      } else if IsClosingPunct(s[0]) {
        assert held == [];
      } else {
        ConcatAssoc(held, [s[0]], s[1..]);
      }
      assert s == [s[0]] + s[1..];
    }
  }

  /**
   Text with no whitespace right before closing punctuation is left as it is: the
   spaces between words survive.
   */
  lemma DropKeepsTightText(s: string)
    requires forall i :: 0 <= i < |s| - 1 && IsClosingPunct(s[i + 1]) ==> !IsSpace(s[i])
    ensures DropSpaceBeforePunct(s) == s
  {
    DropIsScan(s);
    DropScanKeeps(s, []);
    assert [] + s == s;
  }

  /** Tidy text stays tidy when whitespace before punctuation is removed. */
  lemma {:induction false} DropSpaceTidy(s: string)
    requires AllTidy(s)
    ensures AllTidy(DropSpaceBeforePunct(s))
    decreases |s|
  {
    if s != [] {
      if IsSpace(s[0]) {
        var rest := LStrip(s);
        assert rest == s[|s| - |rest|..];
        TidySlice(s, |s| - |rest|, |s|);
        if rest != [] && IsClosingPunct(rest[0]) {
          TidySlice(rest, 1, |rest|);
          DropSpaceTidy(rest[1..]);
          DropPunctUnfold(s, rest);
          TidyJoin([rest[0]], DropSpaceBeforePunct(rest[1..]), DropSpaceBeforePunct(s));
        } else {
          DropSpaceTidy(rest);
          DropKeptUnfold(s, rest);
          TidySlice(s, 0, |s| - |rest|);
          TidyJoin(s[..|s| - |rest|], DropSpaceBeforePunct(rest), DropSpaceBeforePunct(s));
        }
      } else {
        TidySlice(s, 1, |s|);
        DropSpaceTidy(s[1..]);
        DropHeadUnfold(s);
        TidyJoin([s[0]], DropSpaceBeforePunct(s[1..]), DropSpaceBeforePunct(s));
      }
    }
  }

  lemma TidySlice(s: string, lo: nat, hi: nat)
    requires AllTidy(s) && lo <= hi <= |s|
    ensures AllTidy(s[lo..hi])
  {
    assert forall i :: 0 <= i < hi - lo ==> s[lo..hi][i] == s[lo + i];
  }

  lemma TidyJoin(a: string, b: string, r: string)
    requires AllTidy(a) && AllTidy(b) && r == a + b
    ensures AllTidy(r)
  {
    assert forall i :: |a| <= i < |r| ==> r[i] == b[i - |a|];
  }

  lemma DropPunctUnfold(s: string, rest: string)
    requires s != [] && IsSpace(s[0]) && rest == LStrip(s)
    requires rest != [] && IsClosingPunct(rest[0])
    ensures DropSpaceBeforePunct(s) == [rest[0]] + DropSpaceBeforePunct(rest[1..])
  {
  }

  lemma DropKeptUnfold(s: string, rest: string)
    requires s != [] && IsSpace(s[0]) && rest == LStrip(s)
    requires !(rest != [] && IsClosingPunct(rest[0]))
    ensures DropSpaceBeforePunct(s) == s[..|s| - |rest|] + DropSpaceBeforePunct(rest)
  {
  }

  lemma DropHeadUnfold(s: string)
    requires s != [] && !IsSpace(s[0])
    ensures DropSpaceBeforePunct(s) == [s[0]] + DropSpaceBeforePunct(s[1..])
  {
  }

  /** Removing whitespace before punctuation removes whitespace only. */
  lemma {:induction false} DropSpaceVisible(s: string)
    ensures Visible(DropSpaceBeforePunct(s)) == Visible(s)
    decreases |s|
  {
    if s != [] {
      if IsSpace(s[0]) {
        var rest := LStrip(s);
        if rest != [] && IsClosingPunct(rest[0]) {
          DropSpaceVisible(rest[1..]);
          DropPunctUnfold(s, rest);
          DropPunctVisible(s, rest, DropSpaceBeforePunct(rest[1..]), DropSpaceBeforePunct(s));
        } else {
          DropSpaceVisible(rest);
          DropKeptUnfold(s, rest);
          LStripSplit(s);
          VisibleKeepRun(s[..|s| - |rest|], rest, DropSpaceBeforePunct(rest), s, DropSpaceBeforePunct(s));
        }
      } else {
        DropSpaceVisible(s[1..]);
        DropHeadUnfold(s);
        assert s == [s[0]] + s[1..];
        VisibleAppend([s[0]], s[1..]);
        VisibleAppend([s[0]], DropSpaceBeforePunct(s[1..]));
      }
    }
  }

  lemma DropPunctVisible(s: string, rest: string, t: string, d: string)
    requires rest == LStrip(s) && rest != []
    requires Visible(t) == Visible(rest[1..]) && d == [rest[0]] + t
    ensures Visible(d) == Visible(s)
  {
    var h, tail := rest[0], rest[1..];
    SameHeadVisible(h, tail, t);
    assert [h] + tail == rest;
    LStripVisible(s);
  }

  /** Tails with the same visible characters stay so behind the same first character. */
  lemma SameHeadVisible(h: char, tail: string, t: string)
    requires Visible(t) == Visible(tail)
    ensures Visible([h] + t) == Visible([h] + tail)
  {
    VisibleCons(h, t);
    VisibleCons(h, tail);
  }

  lemma LStripSplit(s: string)
    ensures s == s[..|s| - |LStrip(s)|] + LStrip(s)
  {
  }

  lemma VisibleKeepRun(run: string, rest: string, t: string, s: string, d: string)
    requires s == run + rest && Visible(t) == Visible(rest) && d == run + t
    ensures Visible(d) == Visible(s)
  {
    VisibleAppend(run, rest);
    VisibleAppend(run, t);
  }

  /**
   The cleaning steps of `extract_clean_resume_text`: collapse whitespace, replace
   bullets, remove whitespace before punctuation, strip. The result has no whitespace
   at either end, no whitespace other than plain spaces, no bullets and no whitespace
   before closing punctuation, and apart from whitespace its characters are those of
   the raw text with each bullet turned into a comma.
   */
  function CleanResumeText(raw: string): (r: string)
    ensures r == [] || (!IsSpace(r[0]) && !IsSpace(r[|r| - 1]))
    ensures AllTidy(r)
    ensures forall i :: 0 <= i < |r| - 1 && IsClosingPunct(r[i + 1]) ==> !IsSpace(r[i])
    ensures Visible(r) == Visible(ReplaceBullets(raw))
  {
    var collapsed := CollapseWhitespace(raw);
    var unbulleted := ReplaceBullets(collapsed);
    var tight := DropSpaceBeforePunct(unbulleted);
    var r := Strip(tight);
    CleanTidy(collapsed, unbulleted, tight, r);
    CleanTight(tight, r);
    CleanVisible(raw);
    r
  }

  /**
   Text that is already clean comes back unchanged: no whitespace at either end, only
   single plain spaces between words, no bullets and no whitespace before closing
   punctuation.
   */
  lemma CleanKeepsCleanText(s: string)
    requires s == [] || (!IsSpace(s[0]) && !IsSpace(s[|s| - 1]))
    requires SingleSpaced(s)
    requires forall i :: 0 <= i < |s| ==> !IsBullet(s[i])
    requires forall i :: 0 <= i < |s| - 1 && IsClosingPunct(s[i + 1]) ==> !IsSpace(s[i])
    ensures CleanResumeText(s) == s
  {
    CollapseIsScan(s);
    CollapseKeepsSingleSpaced(s, false);
    NoBulletsUnchanged(s);
    DropKeepsTightText(s);
    if s != [] {
      StripUntrimmed(s);
    }
  }

  /** Collapsing leaves single-spaced text as it is. */
  lemma {:induction false} CollapseKeepsSingleSpaced(s: string, inRun: bool)
    requires SingleSpaced(s)
    requires inRun && s != [] ==> !IsSpace(s[0])
    ensures CollapseScan(s, inRun) == s
    decreases |s|
  {
    if s != [] {
      var tail := s[1..];
      assert SingleSpaced(tail) by {
        assert forall i :: 0 <= i < |tail| ==> tail[i] == s[i + 1];
      }
      if IsSpace(s[0]) {
        assert s[0] == ' ';
        if tail != [] {
          assert !(s[0] == ' ' && s[1] == ' ');
        }
        CollapseKeepsSingleSpaced(tail, true);
      } else {
        CollapseKeepsSingleSpaced(tail, false);
      }
      assert s == [s[0]] + tail;
    }
  }

  lemma CleanTidy(collapsed: string, unbulleted: string, tight: string, r: string)
    requires SpacesPlain(collapsed) && unbulleted == ReplaceBullets(collapsed)
    requires tight == DropSpaceBeforePunct(unbulleted) && r == Strip(tight)
    ensures AllTidy(r)
  {
    ReplaceBulletsTidy(collapsed);
    DropSpaceTidy(unbulleted);
    var lo := StripSlice(tight);
    TidySlice(tight, lo, lo + |r|);
  }

  /** Stripping keeps "no whitespace before punctuation". */
  lemma CleanTight(tight: string, r: string)
    requires forall i :: 0 <= i < |tight| - 1 && IsClosingPunct(tight[i + 1]) ==> !IsSpace(tight[i])
    requires r == Strip(tight)
    ensures forall i :: 0 <= i < |r| - 1 && IsClosingPunct(r[i + 1]) ==> !IsSpace(r[i])
  {
    var lo := StripSlice(tight);
    assert forall i :: 0 <= i < |r| ==> r[i] == tight[lo + i];
  }

  /** The cleaning steps, applied in turn, keep the visible characters of the bullet-free text. */
  lemma CleanVisible(raw: string)
    ensures Visible(Strip(DropSpaceBeforePunct(ReplaceBullets(CollapseWhitespace(raw))))) == Visible(ReplaceBullets(raw))
  {
    var collapsed := CollapseWhitespace(raw);
    var unbulleted := ReplaceBullets(collapsed);
    var tight := DropSpaceBeforePunct(unbulleted);
    StripVisible(tight);
    DropSpaceVisible(unbulleted);
    ReplaceBulletsVisible(collapsed);
    ReplaceBulletsVisible(raw);
  }
}
