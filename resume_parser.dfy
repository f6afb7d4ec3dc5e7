/** The heuristic resume parser: fourteen independent extractors over the
    resume text and its lines (the text split on '\n'), composed by
    `parseResume`. Every extractor that scans lines is a method with the
    loop of the JavaScript extractor, proved equal to a specification
    function whose properties are stated as its contract or as lemmas. */
module ResumeParser {
  import opened Wrappers
  import opened SeqUtil
  import opened JsText
  import opened Regex

  // ---------------------------------------------------------------------
  // Parsed records
  // ---------------------------------------------------------------------

  datatype Skill = Skill(name: string, level: string, yearsOfExperience: Option<int>)

  datatype WorkExperience = WorkExperience(
    jobTitle: string, company: string, location: string,
    startDate: Option<int>, endDate: Option<int>, isCurrently: bool, description: string)

  datatype Education = Education(
    degree: string, fieldOfStudy: string, school: string, startDate: Option<int>, endDate: Option<int>)

  datatype Certification = Certification(
    name: string, issuer: string, issueDate: Option<int>, expiryDate: Option<int>,
    credentialId: string, credentialUrl: string)

  datatype Language = Language(name: string, proficiency: string)

  datatype Project = Project(name: string, description: string, technologies: seq<string>, link: string)

  datatype ParsedProfile = ParsedProfile(
    fullName: string, email: string, phone: string, location: string,
    website: string, linkedin: string, github: string, summary: string,
    skills: seq<Skill>, workExperience: seq<WorkExperience>, education: seq<Education>,
    certifications: seq<Certification>, languages: seq<Language>, projects: seq<Project>)

  /** `text.split('\n')`. */
  function Lines(text: string): (lines: seq<string>)
    ensures |lines| >= 1
  {
    Split(text, '\n')
  }

  /** Every line trimmed, `lines.map(l => l.trim())`. */
  function TrimAll(lines: seq<string>): (r: seq<string>)
    ensures |r| == |lines|
    ensures forall i :: 0 <= i < |lines| ==> r[i] == Trim(lines[i])
  {
    seq(|lines|, i requires 0 <= i < |lines| => Trim(lines[i]))
  }

  function Min(a: nat, b: nat): nat { if a <= b then a else b }

  /** A non-empty string. */
  predicate NonBlank(line: string) { line != "" }

  // ---------------------------------------------------------------------
  // Name and location: the first line of some shape
  // ---------------------------------------------------------------------

  /** The test of `extractName`: the trimmed line has 1 to 49 characters. */
  predicate IsNameLine(line: string) { 0 < |Trim(line)| < 50 }

  /** What `extractName` returns for `lines`. */
  function NameOf(lines: seq<string>): (r: string)
    ensures IsTrimmed(r) && |r| < 50
    ensures r == "" <==> forall j :: 0 <= j < |lines| ==> !IsNameLine(lines[j])
  {
    match FirstIndex(lines, IsNameLine, 0)
    case Some(i) => Trim(lines[i])
    case None => ""
  }

  /** The name is the trimmed form of the first line that passes the test. */
  lemma NameIsFirstShortLine(lines: seq<string>, i: nat)
    requires i < |lines| && IsNameLine(lines[i])
    requires forall j :: 0 <= j < i ==> !IsNameLine(lines[j])
    ensures NameOf(lines) == Trim(lines[i])
  {
    FirstIndexAt(lines, IsNameLine, i);
  }

  /** `extractName` (the first line trimmed to 1..49 characters). */
  method ExtractName(text: string) returns (name: string)
    ensures name == NameOf(Lines(text))
  {
    var lines := Lines(text);
    var i := 0;
    while i < |lines|
      invariant 0 <= i <= |lines|
      invariant forall j :: 0 <= j < i ==> !IsNameLine(lines[j])
    {
      var trimmed := Trim(lines[i]);
      if |trimmed| > 0 && |trimmed| < 50 {
        NameIsFirstShortLine(lines, i);
        return trimmed;
      }
      i := i + 1;
    }
    return "";
  }

  /** The test of `extractLocation`: the raw line has a comma and fewer than
      50 characters. */
  predicate IsLocationLine(line: string) { Contains(line, ",") && |line| < 50 }

  /** What `extractLocation` returns for `lines`. */
  function LocationOf(lines: seq<string>): (r: string)
    ensures IsTrimmed(r) && |r| < 50
    ensures r == "" <==> forall j :: 0 <= j < |lines| ==> !IsLocationLine(lines[j])
  {
    match FirstIndex(lines, IsLocationLine, 0)
    case Some(i) =>
      ContainsChar(lines[i], ',');
      TrimEmpty(lines[i]);
      assert !IsSpace(lines[i][IndexOf(lines[i], ',')]);
      Trim(lines[i])
    case None => ""
  }

  /** The location is the trimmed form of the first raw line that passes the
      test. */
  lemma LocationIsFirstCommaLine(lines: seq<string>, i: nat)
    requires i < |lines| && IsLocationLine(lines[i])
    requires forall j :: 0 <= j < i ==> !IsLocationLine(lines[j])
    ensures LocationOf(lines) == Trim(lines[i])
  {
    FirstIndexAt(lines, IsLocationLine, i);
  }

  /** `extractLocation`. */
  method ExtractLocation(text: string) returns (location: string)
    ensures location == LocationOf(Lines(text))
  {
    var lines := Lines(text);
    var i := 0;
    while i < |lines|
      invariant 0 <= i <= |lines|
      invariant forall j :: 0 <= j < i ==> !IsLocationLine(lines[j])
    {
      if Contains(lines[i], ",") && |lines[i]| < 50 {
        LocationIsFirstCommaLine(lines, i);
        return Trim(lines[i]);
      }
      i := i + 1;
    }
    return "";
  }

  // ---------------------------------------------------------------------
  // Regular-expression extractors: the first match, or ''
  // ---------------------------------------------------------------------

  /** `/[\w\.-]+@[\w\.-]+\.\w+/` */
  const EmailPattern: seq<Node> := [
    Repeat(WordDotDash, 1, None), Repeat(Char('@'), 1, Some(1)),
    Repeat(WordDotDash, 1, None), Repeat(Char('.'), 1, Some(1)), Repeat(Word, 1, None)
  ]

  /** `/(?:\+\d{1,3}[-.\s]?)?\(?\d{3}\)?[-.\s]?\d{3}[-.\s]?\d{4}/` */
  const PhonePattern: seq<Node> := [
    Group([Repeat(Char('+'), 1, Some(1)), Repeat(Digit, 1, Some(3)), Repeat(DashDotSpace, 0, Some(1))]),
    Repeat(Char('('), 0, Some(1)), Repeat(Digit, 3, Some(3)), Repeat(Char(')'), 0, Some(1)),
    Repeat(DashDotSpace, 0, Some(1)), Repeat(Digit, 3, Some(3)),
    Repeat(DashDotSpace, 0, Some(1)), Repeat(Digit, 4, Some(4))
  ]

  /** `/(?:https?:\/\/)?(?:www\.)?[\w\.-]+\.\w+/` */
  const WebsitePattern: seq<Node> := [
    Group(Literal("http") + [Repeat(Char('s'), 0, Some(1))] + Literal("://")),
    Group(Literal("www.")),
    Repeat(WordDotDash, 1, None), Repeat(Char('.'), 1, Some(1)), Repeat(Word, 1, None)
  ]

  const LinkedInPrefix := "linkedin.com/in/"
  const GithubPrefix := "github.com/"

  /** `/linkedin\.com\/in\/[\w\-]+/` and `/github\.com\/[\w\-]+/`: a literal
      followed by `[\w-]+`. */
  function ProfileUrlPattern(prefix: string): seq<Node> {
    Literal(prefix) + [Repeat(WordDash, 1, None)]
  }

  /** `extractEmail`: '' or a piece of the text with an '@' after its first
      character. */
  function EmailOf(text: string): (r: string)
    ensures r == "" || Contains(text, r)
    ensures r == "" || '@' in r[1..]
  {
    var r := FirstMatch(EmailPattern, text);
    if r == "" then r
    else
      var (i, e) := SearchFrom(EmailPattern, text, 0).value;
      var rest := EmailPattern[1..];
      assert EmailPattern == [Repeat(WordDotDash, 1, None)] + rest;
      RepeatSound(WordDotDash, 1, None, rest, text, i);
      var m :| i + 1 <= m <= |text| && (forall j :: i <= j < m ==> InClass(text[j], WordDotDash)) &&
               MatchAt(rest, text, m) == Some(e);
      assert rest == [Repeat(Char('@'), 1, Some(1))] + rest[1..];
      MatchAtOnce(Char('@'), rest[1..], text, m);
      assert r[1..][m - i - 1] == '@';
      r
  }

  /** `extractPhone`. */
  function PhoneOf(text: string): (r: string)
    ensures r == "" || Contains(text, r)
  {
    FirstMatch(PhonePattern, text)
  }

  /** `extractWebsite`. */
  function WebsiteOf(text: string): (r: string)
    ensures r == "" || Contains(text, r)
  {
    FirstMatch(WebsitePattern, text)
  }

  /** A match of a literal followed by `[\w-]+` is the literal and at least
      one more character. */
  lemma ProfileUrlShape(prefix: string, text: string)
    ensures var r := FirstMatch(ProfileUrlPattern(prefix), text);
            r == "" || (|r| > |prefix| && r[..|prefix|] == prefix)
  {
    var ns := ProfileUrlPattern(prefix);
    var found := SearchFrom(ns, text, 0);
    if found.Some? {
      var (i, e) := found.value;
      var tail := [Repeat(WordDash, 1, None)];
      LiteralSound(prefix, tail, text, i);
      assert tail == [Repeat(WordDash, 1, None)] + [];
      RepeatSound(WordDash, 1, None, [], text, i + |prefix|);
      var r := text[i..e];
      assert r[..|prefix|] == text[i..i + |prefix|];
    }
  }

  /** `extractLinkedIn`: '' or a piece of the text that starts with
      'linkedin.com/in/' and goes on. */
  function LinkedInOf(text: string): (r: string)
    ensures r == "" || Contains(text, r)
    ensures r == "" || (|r| > |LinkedInPrefix| && r[..|LinkedInPrefix|] == LinkedInPrefix)
  {
    ProfileUrlShape(LinkedInPrefix, text);
    FirstMatch(ProfileUrlPattern(LinkedInPrefix), text)
  }

  /** `extractGithub`: '' or a piece of the text that starts with 'github.com/'
      and goes on. */
  function GithubOf(text: string): (r: string)
    ensures r == "" || Contains(text, r)
    ensures r == "" || (|r| > |GithubPrefix| && r[..|GithubPrefix|] == GithubPrefix)
  {
    ProfileUrlShape(GithubPrefix, text);
    FirstMatch(ProfileUrlPattern(GithubPrefix), text)
  }

  // ---------------------------------------------------------------------
  // Sections: the line after the first line naming a keyword
  // ---------------------------------------------------------------------

  /** `keywords.some(k => line.toLowerCase().includes(k))`. */
  predicate MentionsAny(line: string, keywords: seq<string>) {
    exists k | 0 <= k < |keywords| :: Contains(Lower(line), keywords[k])
  }

  /** The index just after the first line, from `from` on, that mentions a
      keyword. */
  function SectionFrom(lines: seq<string>, keywords: seq<string>, from: nat): (r: Option<nat>)
    requires from <= |lines|
    ensures r.Some? ==> from < r.value <= |lines|
    decreases |lines| - from
  {
    if from == |lines| then None
    else if MentionsAny(lines[from], keywords) then Some(from + 1)
    else SectionFrom(lines, keywords, from + 1)
  }

  /** The index just after the first line that mentions a keyword (the
      `summaryStart`, `workStart`, ... of the extractors), or None for -1. */
  function SectionStart(lines: seq<string>, keywords: seq<string>): (r: Option<nat>)
    ensures r.Some? ==> 1 <= r.value <= |lines|
  {
    SectionFrom(lines, keywords, 0)
  }

  /** The scan from `from` stops right after the first line that mentions a
      keyword, and finds nothing exactly when no line from `from` on does. */
  lemma {:induction false} SectionFromSpec(lines: seq<string>, keywords: seq<string>, from: nat)
    requires from <= |lines|
    ensures var r := SectionFrom(lines, keywords, from);
            (r.Some? ==> MentionsAny(lines[r.value - 1], keywords) &&
                         forall j :: from <= j < r.value - 1 ==> !MentionsAny(lines[j], keywords)) &&
            (r.None? <==> forall j :: from <= j < |lines| ==> !MentionsAny(lines[j], keywords))
    decreases |lines| - from
  {
    if from < |lines| && !MentionsAny(lines[from], keywords) {
      SectionFromSpec(lines, keywords, from + 1);
    }
  }

  /** The section starts right after the first line that mentions a
      keyword, and there is no section exactly when no line mentions one. */
  lemma SectionStartIsFirstHeading(lines: seq<string>, keywords: seq<string>)
    ensures var r := SectionStart(lines, keywords);
            (r.Some? ==> MentionsAny(lines[r.value - 1], keywords) &&
                         forall j :: 0 <= j < r.value - 1 ==> !MentionsAny(lines[j], keywords)) &&
            (r.None? <==> forall j :: 0 <= j < |lines| ==> !MentionsAny(lines[j], keywords))
  {
    SectionFromSpec(lines, keywords, 0);
  }

  /** The heading scan shared by the section extractors. */
  method FindSectionStart(lines: seq<string>, keywords: seq<string>) returns (start: Option<nat>)
    ensures start == SectionStart(lines, keywords)
  {
    var i := 0;
    while i < |lines|
      invariant 0 <= i <= |lines|
      invariant SectionFrom(lines, keywords, i) == SectionStart(lines, keywords)
    {
      if MentionsAny(lines[i], keywords) {
        return Some(i + 1);
      }
      i := i + 1;
    }
    return None;
  }

  /** The trimmed, non-empty lines of `lines[start..start + size]` (clipped
      to the text), one per non-empty line, in order: every non-empty
      trimmed line occurs in the window as often as in the clipped text. */
  function Window(lines: seq<string>, start: nat, size: nat): (w: seq<string>)
    requires start <= |lines|
    ensures |w| <= size
    ensures forall k :: 0 <= k < |w| ==> w[k] != "" && IsTrimmed(w[k])
    ensures IsSubsequence(w, TrimAll(lines[start..Min(start + size, |lines|)]))
    ensures forall j :: start <= j < Min(start + size, |lines|) && Trim(lines[j]) != "" ==> Trim(lines[j]) in w
    ensures forall x :: x != "" ==> multiset(w)[x] == multiset(TrimAll(lines[start..Min(start + size, |lines|)]))[x]
  {
    var trimmed := TrimAll(lines[start..Min(start + size, |lines|)]);
    var w := Filter(trimmed, NonBlank);
    FilterCount(trimmed, NonBlank);
    assert forall j :: start <= j < Min(start + size, |lines|) ==> trimmed[j - start] == Trim(lines[j]);
    w
  }

  /** One step of a window loop: the next line is kept iff it is non-empty
      after trimming. */
  lemma WindowStep(lines: seq<string>, start: nat, i: nat)
    requires start <= i < |lines|
    ensures Filter(TrimAll(lines[start..i + 1]), NonBlank) ==
            Filter(TrimAll(lines[start..i]), NonBlank) + (if Trim(lines[i]) != "" then [Trim(lines[i])] else [])
  {
    assert TrimAll(lines[start..i + 1]) == TrimAll(lines[start..i]) + [Trim(lines[i])];
    FilterAppend(TrimAll(lines[start..i]), [Trim(lines[i])], NonBlank);
    assert [Trim(lines[i])][1..] == [];
  }

  /** One step of a window loop that records `f` of each kept line. */
  lemma WindowMapStep<T>(f: string -> T, lines: seq<string>, start: nat, i: nat)
    requires start <= i < |lines|
    ensures Map(f, Filter(TrimAll(lines[start..i + 1]), NonBlank)) ==
            Map(f, Filter(TrimAll(lines[start..i]), NonBlank)) + (if Trim(lines[i]) != "" then [f(Trim(lines[i]))] else [])
  {
    var w := Filter(TrimAll(lines[start..i]), NonBlank);
    WindowStep(lines, start, i);
    if Trim(lines[i]) != "" {
      MapAppend(f, w, [Trim(lines[i])]);
      assert Map(f, [Trim(lines[i])]) == [f(Trim(lines[i]))];
    } else {
      assert w + [] == w;
    }
  }

  // ---------------------------------------------------------------------
  // Summary
  // ---------------------------------------------------------------------

  const SummaryKeywords: seq<string> := ["summary", "objective", "professional summary", "profile"]

  /** The run of non-blank lines from `from` up to `to`, trimmed, stopping
      at the first blank one. */
  function LeadingNonBlank(lines: seq<string>, from: nat, to: nat): (r: seq<string>)
    requires from <= to <= |lines|
    ensures |r| <= to - from
    decreases (to as int) - (from as int)
  {
    if from == to || Trim(lines[from]) == "" then []
    else [Trim(lines[from])] + LeadingNonBlank(lines, from + 1, to)
  }

  /** The run holds the trimmed lines from `from` on, all non-blank, and it
      ends at `to` or at a blank line. */
  lemma {:induction false} LeadingNonBlankRun(lines: seq<string>, from: nat, to: nat)
    requires from <= to <= |lines|
    ensures var r := LeadingNonBlank(lines, from, to);
            (forall k :: 0 <= k < |r| ==> r[k] == Trim(lines[from + k]) && r[k] != "") &&
            (from + |r| < to ==> Trim(lines[from + |r|]) == "")
    decreases (to as int) - (from as int)
  {
    if from < to && Trim(lines[from]) != "" {
      LeadingNonBlankRun(lines, from + 1, to);
      var r := LeadingNonBlank(lines, from, to);
      var rest := LeadingNonBlank(lines, from + 1, to);
      assert r == [Trim(lines[from])] + rest;
      forall k | 0 <= k < |r| ensures r[k] == Trim(lines[from + k]) && r[k] != "" {
        if k > 0 {
          assert r[k] == rest[k - 1];
        }
      }
    }
  }

  /** The run of at most `size` non-blank lines right after the first line
      that mentions a keyword; empty without such a line. */
  function RunAfterHeading(lines: seq<string>, keywords: seq<string>, size: nat): (r: seq<string>)
    ensures |r| <= size
    ensures SectionStart(lines, keywords).None? ==> r == []
  {
    match SectionStart(lines, keywords)
    case None => []
    case Some(s) => LeadingNonBlank(lines, s, Min(s + size, |lines|))
  }

  /** After a heading, the run holds the trimmed lines that follow it, all
      non-blank, and ends after `size` lines, at the end of the text or
      before the first blank line. */
  lemma RunAfterHeadingShape(lines: seq<string>, keywords: seq<string>, size: nat, s: nat)
    requires SectionStart(lines, keywords) == Some(s)
    ensures var r := RunAfterHeading(lines, keywords, size);
            s + |r| <= |lines| &&
            (forall k :: 0 <= k < |r| ==> r[k] == Trim(lines[s + k]) && r[k] != "") &&
            (|r| < size && s + |r| < |lines| ==> Trim(lines[s + |r|]) == "")
  {
    RunShape(lines, s, size);
  }

  /** The run of at most `size` lines from `s`, as the heading's follower. */
  lemma RunShape(lines: seq<string>, s: nat, size: nat)
    requires s <= |lines|
    ensures var r := LeadingNonBlank(lines, s, Min(s + size, |lines|));
            s + |r| <= |lines| &&
            (forall k :: 0 <= k < |r| ==> r[k] == Trim(lines[s + k]) && r[k] != "") &&
            (|r| < size && s + |r| < |lines| ==> Trim(lines[s + |r|]) == "")
  {
    LeadingNonBlankRun(lines, s, Min(s + size, |lines|));
  }

  /** The summary lines: up to 5 lines after the first summary heading,
      stopping at the first blank line. */
  function SummaryLines(lines: seq<string>): seq<string> {
    RunAfterHeading(lines, SummaryKeywords, 5)
  }

  /** What `extractSummary` returns: the summary lines joined by single
      spaces ('' without a heading). */
  function SummaryOf(lines: seq<string>): string {
    Join(SummaryLines(lines), " ")
  }

  /** `extractSummary`. */
  method ExtractSummary(text: string) returns (summary: string)
    ensures summary == SummaryOf(Lines(text))
  {
    var lines := Lines(text);
    var summaryStart := FindSectionStart(lines, SummaryKeywords);
    if summaryStart.None? {
      return "";
    }
    var summaryLines := SummaryAfter(lines, summaryStart.value);
    return Join(summaryLines, " ");
  }

  /** The loop of `extractSummary` over the 5 lines from `s`: the trimmed
      lines up to the first blank one. */
  method SummaryAfter(lines: seq<string>, s: nat) returns (summaryLines: seq<string>)
    requires s <= |lines|
    ensures summaryLines == LeadingNonBlank(lines, s, Min(s + 5, |lines|))
  {
    var end := Min(s + 5, |lines|);
    summaryLines := [];
    var i := s;
    while i < end
      invariant s <= i <= end
      invariant LeadingNonBlank(lines, s, end) == summaryLines + LeadingNonBlank(lines, i, end)
    {
      var line := Trim(lines[i]);
      if |line| > 0 {
        assert LeadingNonBlank(lines, i, end) == [line] + LeadingNonBlank(lines, i + 1, end);
        summaryLines := summaryLines + [line];
      } else {
        break;
      }
      i := i + 1;
    }
  }

  /** Without a summary heading the summary is empty; a heading on the last
      line leaves it empty too. */
  lemma SummaryWithoutBody(lines: seq<string>)
    requires SectionStart(lines, SummaryKeywords).None? ||
             SectionStart(lines, SummaryKeywords) == Some(|lines|)
    ensures SummaryOf(lines) == ""
  {
  }

  /** The summary holds every word of the summary lines: it is the first
      line, then each further line after one space. */
  lemma {:induction false} JoinWithSpaces(parts: seq<string>)
    requires |parts| >= 2
    ensures Join(parts, " ") == parts[0] + " " + Join(parts[1..], " ")
  {
  }

  // ---------------------------------------------------------------------
  // Skills and languages: fixed-vocabulary scans
  // ---------------------------------------------------------------------

  // The 45-term `commonSkills` list of `extractSkillsFromResume`, written
  // in three consecutive parts.
  const SkillTermsA: seq<string> := [
    "javascript", "python", "java", "react", "node.js", "express", "mongodb",
    "sql", "mysql", "postgresql", "docker", "kubernetes", "aws", "git", "html"
  ]
  const SkillTermsB: seq<string> := [
    "css", "angular", "vue.js", "typescript", "golang", "rust", "c++", "php",
    "project management", "leadership", "communication", "teamwork", "problem solving",
    "agile", "scrum"
  ]
  const SkillTermsC: seq<string> := [
    "devops", "machine learning", "artificial intelligence",
    "data analysis", "power bi", "tableau", "excel", "salesforce", "rest api",
    "graphql", "firebase", "azure", "jenkins", "gitlab", "bitbucket"
  ]
  const SkillVocabulary: seq<string> := SkillTermsA + SkillTermsB + SkillTermsC

  lemma SkillTermsDistinct()
    ensures Distinct(SkillTermsA) && Distinct(SkillTermsB) && Distinct(SkillTermsC)
  {
  }

  lemma SkillTermsDisjointAB()
    ensures Disjoint(SkillTermsA, SkillTermsB)
  {
  }

  lemma SkillTermsDisjointAC()
    ensures Disjoint(SkillTermsA, SkillTermsC)
  {
  }

  lemma SkillTermsDisjointBC()
    ensures Disjoint(SkillTermsB, SkillTermsC)
  {
  }

  lemma SkillTermsLower()
    ensures forall i :: 0 <= i < |SkillTermsA| ==> IsLowerTerm(SkillTermsA[i])
    ensures forall i :: 0 <= i < |SkillTermsB| ==> IsLowerTerm(SkillTermsB[i])
    ensures forall i :: 0 <= i < |SkillTermsC| ==> IsLowerTerm(SkillTermsC[i])
  {
  }

  /** A vocabulary term with a non-upper-case first character. */
  predicate IsLowerTerm(t: string) { t != [] && !IsUpper(t[0]) }

  /** The vocabulary has 45 terms, no repetitions, and every term starts
      with a character that capitalizing changes or keeps apart. */
  lemma SkillVocabularyWellFormed()
    ensures |SkillVocabulary| == 45
    ensures Distinct(SkillVocabulary)
    ensures forall i :: 0 <= i < |SkillVocabulary| ==> IsLowerTerm(SkillVocabulary[i])
  {
    var a, b, c := SkillTermsA, SkillTermsB, SkillTermsC;
    SkillTermsDistinct();
    SkillTermsDisjointAB();
    SkillTermsDisjointAC();
    SkillTermsDisjointBC();
    SkillTermsLower();
    DistinctConcat(a, b);
    assert Disjoint(a + b, c) by {
      forall i, j | 0 <= i < |a + b| && 0 <= j < |c| ensures (a + b)[i] != c[j] {
        if i >= |a| { assert (a + b)[i] == b[i - |a|]; }
      }
    }
    DistinctConcat(a + b, c);
    forall i | 0 <= i < |SkillVocabulary| ensures IsLowerTerm(SkillVocabulary[i]) {
      if i < |a| {
        assert SkillVocabulary[i] == a[i];
      } else if i < |a| + |b| {
        assert SkillVocabulary[i] == b[i - |a|];
      } else {
        assert SkillVocabulary[i] == c[i - |a| - |b|];
      }
    }
  }

  /** `t => textLower.includes(t)`. */
  function Mentions(textLower: string): string -> bool {
    (t: string) => Contains(textLower, t)
  }

  /** The vocabulary terms that occur in the lower-cased text, in vocabulary
      order. */
  function FoundSkillTerms(text: string): seq<string> {
    Filter(SkillVocabulary, Mentions(Lower(text)))
  }

  /** The entry pushed for a found term. */
  function SkillEntry(term: string): Skill {
    Skill(Capitalize(term), "Intermediate", None)
  }

  function SkillNames(skills: seq<Skill>): seq<string> {
    Map((s: Skill) => s.name, skills)
  }

  /** What `extractSkillsFromResume` returns. */
  function SkillsOf(text: string): seq<Skill> {
    Map(SkillEntry, FoundSkillTerms(text))
  }

  /** The scanned skills: at most 45, level 'Intermediate' and no years;
      their names are the capitalized found terms, in vocabulary order,
      without repetitions, and every vocabulary term in the text is among
      them. */
  lemma SkillsOfShape(text: string)
    ensures |SkillsOf(text)| <= 45
    ensures forall k :: 0 <= k < |SkillsOf(text)| ==>
              SkillsOf(text)[k].level == "Intermediate" && SkillsOf(text)[k].yearsOfExperience.None?
    ensures SkillNames(SkillsOf(text)) == Map(Capitalize, FoundSkillTerms(text))
    ensures IsSubsequence(SkillNames(SkillsOf(text)), Map(Capitalize, SkillVocabulary))
    ensures Distinct(SkillNames(SkillsOf(text)))
    ensures forall j :: 0 <= j < |SkillVocabulary| && Contains(Lower(text), SkillVocabulary[j]) ==>
              Capitalize(SkillVocabulary[j]) in SkillNames(SkillsOf(text))
  {
    SkillVocabularyWellFormed();
    var found := FoundSkillTerms(text);
    var names := SkillNames(SkillsOf(text));
    assert names == Map(Capitalize, found);
    SubsequenceMap(Capitalize, found, SkillVocabulary);
    SubsequenceDistinct(found, SkillVocabulary);
    SubsequenceElements(found, SkillVocabulary);
    forall i, j | 0 <= i < |found| && 0 <= j < |found| && Capitalize(found[i]) == Capitalize(found[j])
      ensures i == j
    {
      var x :| 0 <= x < |SkillVocabulary| && SkillVocabulary[x] == found[i];
      var y :| 0 <= y < |SkillVocabulary| && SkillVocabulary[y] == found[j];
      CapitalizeInjective(found[i], found[j]);
    }
    MapDistinct(Capitalize, found);
    forall j | 0 <= j < |SkillVocabulary| && Contains(Lower(text), SkillVocabulary[j])
      ensures Capitalize(SkillVocabulary[j]) in names
    {
      assert Mentions(Lower(text))(SkillVocabulary[j]);
      var k :| 0 <= k < |found| && found[k] == SkillVocabulary[j];
      assert names[k] == Capitalize(SkillVocabulary[j]);
    }
  }

  /** `extractSkillsFromResume`. */
  method ExtractSkillsFromResume(text: string) returns (foundSkills: seq<Skill>)
    ensures foundSkills == SkillsOf(text)
  {
    var textLower := Lower(text);
    foundSkills := [];
    var i := 0;
    while i < |SkillVocabulary|
      invariant 0 <= i <= |SkillVocabulary|
      invariant foundSkills == Map(SkillEntry, Filter(SkillVocabulary[..i], Mentions(textLower)))
    {
      var skill := SkillVocabulary[i];
      FilterPrefixStep(SkillVocabulary, Mentions(textLower), i);
      if Contains(textLower, skill) {
        assert Mentions(textLower)(skill);
        MapAppend(SkillEntry, Filter(SkillVocabulary[..i], Mentions(textLower)), [skill]);
        assert Map(SkillEntry, [skill]) == [Skill(Capitalize(skill), "Intermediate", None)];
        foundSkills := foundSkills + [Skill(Capitalize(skill), "Intermediate", None)];
      } else {
        assert !Mentions(textLower)(skill);
        assert Filter(SkillVocabulary[..i + 1], Mentions(textLower)) == Filter(SkillVocabulary[..i], Mentions(textLower)) + [];
      }
      i := i + 1;
    }
    assert SkillVocabulary[..i] == SkillVocabulary;
  }

  const CommonLanguages: seq<string> := ["English", "Spanish", "French", "German", "Mandarin", "Hindi", "Japanese"]

  lemma CommonLanguagesDistinct()
    ensures Distinct(CommonLanguages)
  {
  }

  /** `l => textLower.includes(l.toLowerCase())`. */
  function MentionsLanguage(textLower: string): string -> bool {
    (l: string) => Contains(textLower, Lower(l))
  }

  function FoundLanguages(text: string): seq<string> {
    Filter(CommonLanguages, MentionsLanguage(Lower(text)))
  }

  function LanguageEntry(name: string): Language {
    Language(name, "Fluent")
  }

  /** What `extractLanguages` returns. */
  function LanguagesOf(text: string): seq<Language> {
    Map(LanguageEntry, FoundLanguages(text))
  }

  function LanguageNames(languages: seq<Language>): seq<string> {
    Map((l: Language) => l.name, languages)
  }

  /** The scanned languages: names from the 7-name list, in its order,
      without repetitions, each 'Fluent', and every listed language whose
      lower-cased name occurs in the lower-cased text is among them. */
  lemma LanguagesOfShape(text: string)
    ensures |LanguagesOf(text)| <= 7
    ensures IsSubsequence(LanguageNames(LanguagesOf(text)), CommonLanguages)
    ensures Distinct(LanguageNames(LanguagesOf(text)))
    ensures forall k :: 0 <= k < |LanguagesOf(text)| ==> LanguagesOf(text)[k].proficiency == "Fluent"
    ensures forall j :: 0 <= j < |CommonLanguages| && Contains(Lower(text), Lower(CommonLanguages[j])) ==>
              CommonLanguages[j] in LanguageNames(LanguagesOf(text))
  {
    var found := FoundLanguages(text);
    assert LanguageNames(LanguagesOf(text)) == found;
    CommonLanguagesDistinct();
    SubsequenceDistinct(found, CommonLanguages);
    forall j | 0 <= j < |CommonLanguages| && Contains(Lower(text), Lower(CommonLanguages[j]))
      ensures CommonLanguages[j] in found
    {
      assert MentionsLanguage(Lower(text))(CommonLanguages[j]);
    }
  }

  /** `extractLanguages`. */
  method ExtractLanguages(text: string) returns (languages: seq<Language>)
    ensures languages == LanguagesOf(text)
  {
    var textLower := Lower(text);
    languages := [];
    var i := 0;
    while i < |CommonLanguages|
      invariant 0 <= i <= |CommonLanguages|
      invariant languages == Map(LanguageEntry, Filter(CommonLanguages[..i], MentionsLanguage(textLower)))
    {
      var lang := CommonLanguages[i];
      FilterPrefixStep(CommonLanguages, MentionsLanguage(textLower), i);
      if Contains(textLower, Lower(lang)) {
        assert MentionsLanguage(textLower)(lang);
        MapAppend(LanguageEntry, Filter(CommonLanguages[..i], MentionsLanguage(textLower)), [lang]);
        assert Map(LanguageEntry, [lang]) == [Language(lang, "Fluent")];
        languages := languages + [Language(lang, "Fluent")];
      } else {
        assert !MentionsLanguage(textLower)(lang);
        assert Filter(CommonLanguages[..i + 1], MentionsLanguage(textLower)) == Filter(CommonLanguages[..i], MentionsLanguage(textLower)) + [];
      }
      i := i + 1;
    }
    assert CommonLanguages[..i] == CommonLanguages;
  }

  // ---------------------------------------------------------------------
  // Work experience
  // ---------------------------------------------------------------------

  const WorkKeywords: seq<string> := ["experience", "work experience", "professional experience"]

  /** `line.match(/^[A-Z\s]+$/)`: only upper-case letters and whitespace,
      at least one character. */
  predicate IsCapsLine(line: string) {
    |line| > 0 && forall j :: 0 <= j < |line| ==> IsUpper(line[j]) || IsSpace(line[j])
  }

  /** The lines `extractWorkExperience` skips: empty ones and long
      all-capitals headings. */
  predicate IsSkippedLine(line: string) {
    line == "" || (IsCapsLine(line) && |line| > 20)
  }

  predicate IsSeparator(c: char) { c == '|' || c == '-' }

  /** `line.includes('|') || line.includes('-')`. */
  predicate HasSeparator(line: string) { Contains(line, "|") || Contains(line, "-") }

  // The end of the match of the separator pattern (greedy whitespace, one
  // '|' or '-', greedy whitespace) that starts at `q`, if any.
  function SeparatorAt(s: string, q: nat): (r: Option<nat>)
    requires q <= |s|
    ensures r.Some? ==> q < r.value <= |s|
  {
    var k := SkipSpaces(s, q);
    if k < |s| && IsSeparator(s[k]) then Some(SkipSpaces(s, k + 1)) else None
  }

  /** The split loop on `s` with the last piece starting at `p` and the next
      match attempt at `q`. */
  function SplitFrom(s: string, p: nat, q: nat): (r: seq<string>)
    requires p <= q <= |s|
    ensures |r| >= 1
    decreases |s| - q
  {
    if q == |s| then [s[p..]]
    else match SeparatorAt(s, q)
      case Some(e) => [s[p..q]] + SplitFrom(s, e, e)
      case None => SplitFrom(s, p, q + 1)
  }

  /** A separator at or after `q` gives at least two pieces. */
  lemma {:induction false} SplitFromCount(s: string, p: nat, q: nat, k: nat)
    requires p <= q <= k < |s| && IsSeparator(s[k])
    ensures |SplitFrom(s, p, q)| >= 2
    decreases |s| - q
  {
    if SeparatorAt(s, q).None? {
      assert k != q;
      SplitFromCount(s, p, q + 1, k);
    }
  }

  /** No piece contains a separator. */
  lemma {:induction false} SplitFromPieces(s: string, p: nat, q: nat)
    requires p <= q <= |s|
    requires forall j :: p <= j < q ==> !IsSeparator(s[j])
    ensures forall i, j :: 0 <= i < |SplitFrom(s, p, q)| && 0 <= j < |SplitFrom(s, p, q)[i]| ==>
              !IsSeparator(SplitFrom(s, p, q)[i][j])
    decreases |s| - q
  {
    if q < |s| {
      match SeparatorAt(s, q)
      case Some(e) =>
        SplitFromPieces(s, e, e);
        assert SplitFrom(s, p, q)[1..] == SplitFrom(s, e, e);
      case None =>
        assert !IsSeparator(s[q]);
        SplitFromPieces(s, p, q + 1);
    }
  }

  /** `line.split(...)` on the separator pattern: the pieces between the separators
      together with the whitespace around them. A line with a separator has
      at least two pieces, and no piece holds a separator. */
  function SplitOnSeparators(line: string): (parts: seq<string>)
    ensures |parts| >= 1
    ensures HasSeparator(line) ==> |parts| >= 2
    ensures forall i, j :: 0 <= i < |parts| && 0 <= j < |parts[i]| ==> !IsSeparator(parts[i][j])
  {
    SplitFromPieces(line, 0, 0);
    ContainsChar(line, '|');
    ContainsChar(line, '-');
    if HasSeparator(line) then
      var k := if '|' in line then IndexOf(line, '|') else IndexOf(line, '-');
      SplitFromCount(line, 0, 0, k);
      SplitFrom(line, 0, 0)
    else
      SplitFrom(line, 0, 0)
  }

  /** A match of the separator pattern: one '|' or '-' with nothing but
      whitespace around it. */
  predicate IsSeparatorMatch(m: string) {
    exists k | 0 <= k < |m| :: IsSeparator(m[k]) && forall j :: 0 <= j < |m| && j != k ==> IsSpace(m[j])
  }

  /** Where the separator pattern first matches from `q` on, or the end of
      `s` when it does not. */
  function NextMatch(s: string, q: nat): (r: nat)
    requires q <= |s|
    ensures q <= r <= |s|
    ensures r < |s| ==> SeparatorAt(s, r).Some?
    ensures forall j :: q <= j < r ==> SeparatorAt(s, j).None?
    decreases |s| - q
  {
    if q == |s| || SeparatorAt(s, q).Some? then q else NextMatch(s, q + 1)
  }

  /** What `SeparatorAt` finds is a match of the separator pattern. */
  lemma MatchIsSeparator(s: string, q: nat, e: nat)
    requires q < |s| && SeparatorAt(s, q) == Some(e)
    ensures IsSeparatorMatch(s[q..e])
  {
    var k := SkipSpaces(s, q);
    assert e == SkipSpaces(s, k + 1);
    var m := s[q..e];
    assert forall j :: 0 <= j < |m| ==> m[j] == s[q + j];
    assert IsSeparator(m[k - q]);
  }

  /** The split loop, one step after a match at `q` ending at `e`. */
  lemma SplitFromCons(s: string, p: nat, q: nat, e: nat)
    requires p <= q < |s| && SeparatorAt(s, q) == Some(e)
    ensures |SplitFrom(s, p, q)| == 1 + |SplitFrom(s, e, e)|
    ensures SplitFrom(s, p, q)[0] == s[p..q] && SplitFrom(s, p, q)[1..] == SplitFrom(s, e, e)
  {
  }

  /** The text from `p` on is its pieces with a match of the separator
      pattern between each two of them. */
  lemma {:induction false} SplitFromWeave(s: string, p: nat, q: nat) returns (seps: seq<string>)
    requires p <= q <= |s|
    ensures |seps| + 1 == |SplitFrom(s, p, q)|
    ensures forall k :: 0 <= k < |seps| ==> IsSeparatorMatch(seps[k])
    ensures Weave(SplitFrom(s, p, q), seps) == s[p..]
    decreases |s| - q
  {
    if q == |s| {
      seps := [];
    } else if SeparatorAt(s, q).None? {
      seps := SplitFromWeave(s, p, q + 1);
    } else {
      var e := SeparatorAt(s, q).value;
      SplitFromCons(s, p, q, e);
      var rest := SplitFromWeave(s, e, e);
      MatchIsSeparator(s, q, e);
      WeaveCons(s, p, q, e, SplitFrom(s, p, q), rest);
      seps := [s[q..e]] + rest;
      assert forall k :: 0 < k < |seps| ==> seps[k] == rest[k - 1];
    }
  }

  /** The first piece of the split loop ends where the pattern first
      matches. */
  lemma {:induction false} SplitFromFirst(s: string, p: nat, q: nat)
    requires p <= q <= |s|
    ensures SplitFrom(s, p, q)[0] == s[p..NextMatch(s, q)]
    decreases |s| - q
  {
    if q < |s| {
      match SeparatorAt(s, q)
      case Some(e) => SplitFromCons(s, p, q, e);
      case None => SplitFromFirst(s, p, q + 1);
    }
  }

  /** A match attempt one whitespace character earlier finds the same
      separator. */
  lemma SeparatorAtSpace(s: string, q: nat)
    requires 0 < q <= |s| && IsSpace(s[q - 1])
    ensures SeparatorAt(s, q - 1) == SeparatorAt(s, q)
  {
    assert SkipSpaces(s, q - 1) == SkipSpaces(s, q);
  }

  /** The matches take all the whitespace after the separators: a piece
      after a match does not start with whitespace. */
  lemma {:induction false} SplitFromStarts(s: string, p: nat, q: nat)
    requires p <= q <= |s|
    ensures var r := SplitFrom(s, p, q);
            forall k :: 0 < k < |r| && r[k] != "" ==> !IsSpace(r[k][0])
    decreases |s| - q
  {
    var r := SplitFrom(s, p, q);
    if q == |s| {
      assert |r| == 1;
    } else if SeparatorAt(s, q).None? {
      assert r == SplitFrom(s, p, q + 1);
      SplitFromStarts(s, p, q + 1);
    } else {
      var e := SeparatorAt(s, q).value;
      var rest := SplitFrom(s, e, e);
      SplitFromCons(s, p, q, e);
      SplitFromStarts(s, e, e);
      SplitFromFirst(s, e, e);
      forall k | 0 < k < |r| && r[k] != "" ensures !IsSpace(r[k][0]) {
        assert r[k] == rest[k - 1];
        if k == 1 {
          assert r[1] == s[e..NextMatch(s, e)];
          assert r[1][0] == s[e];
        }
      }
    }
  }

  /** The split loop skips the positions where the pattern does not match. */
  lemma {:induction false} SplitFromJump(s: string, p: nat, q: nat)
    requires p <= q <= |s|
    ensures SplitFrom(s, p, q) == SplitFrom(s, p, NextMatch(s, q))
    decreases |s| - q
  {
    if q < |s| && SeparatorAt(s, q).None? {
      SplitFromJump(s, p, q + 1);
    }
  }

  /** The first match after a piece start is not preceded by whitespace
      inside the piece. */
  lemma PieceEnd(s: string, p: nat)
    requires p <= |s| && p < NextMatch(s, p) < |s|
    ensures !IsSpace(s[NextMatch(s, p) - 1])
  {
    var m := NextMatch(s, p);
    if IsSpace(s[m - 1]) {
      SeparatorAtSpace(s, m);
      assert false;
    }
  }

  /** The matches take all the whitespace before the separators: a piece
      before a match does not end with whitespace. */
  lemma {:induction false} SplitFromEnds(s: string, p: nat)
    requires p <= |s|
    ensures var r := SplitFrom(s, p, p);
            forall k :: 0 <= k < |r| - 1 && r[k] != "" ==> !IsSpace(r[k][|r[k]| - 1])
    decreases |s| - p
  {
    var r, m := SplitFrom(s, p, p), NextMatch(s, p);
    SplitFromJump(s, p, p);
    if m == |s| {
      assert |r| == 1;
    } else {
      var e := SeparatorAt(s, m).value;
      var rest := SplitFrom(s, e, e);
      SplitFromCons(s, p, m, e);
      SplitFromEnds(s, e);
      forall k | 0 <= k < |r| - 1 && r[k] != "" ensures !IsSpace(r[k][|r[k]| - 1]) {
        if k == 0 {
          assert r[0] == s[p..m];
          PieceEnd(s, p);
        } else {
          assert r[k] == rest[k - 1];
        }
      }
    }
  }

  /** Around every match in the line all whitespace belongs to the match:
      no piece after a match starts with whitespace and no piece before one
      ends with it. With the weave of the line, this fixes the pieces. */
  lemma SplitOnSeparatorsEdges(line: string)
    ensures var r := SplitOnSeparators(line);
            forall k :: 0 < k < |r| && r[k] != "" ==> !IsSpace(r[k][0])
    ensures var r := SplitOnSeparators(line);
            forall k :: 0 <= k < |r| - 1 && r[k] != "" ==> !IsSpace(r[k][|r[k]| - 1])
  {
    SplitFromStarts(line, 0, 0);
    SplitFromEnds(line, 0);
    assert SplitOnSeparators(line) == SplitFrom(line, 0, 0);
  }

  /** The line is its pieces with a match of the separator pattern between
      each two of them, and the first piece is the line up to the first
      match. */
  lemma SplitOnSeparatorsWeave(line: string) returns (seps: seq<string>)
    ensures |seps| + 1 == |SplitOnSeparators(line)|
    ensures forall k :: 0 <= k < |seps| ==> IsSeparatorMatch(seps[k])
    ensures Weave(SplitOnSeparators(line), seps) == line
    ensures SplitOnSeparators(line)[0] == line[..NextMatch(line, 0)]
  {
    seps := SplitFromWeave(line, 0, 0);
    SplitFromFirst(line, 0, 0);
    assert line[0..] == line;
  }

  /** The lines that produce a record. */
  predicate IsWorkLine(line: string) { !IsSkippedLine(line) && HasSeparator(line) }

  /** The object literal pushed for a line and its pieces. */
  function WorkEntry(line: string, parts: seq<string>): WorkExperience
    requires |parts| >= 2
  {
    WorkExperience(Trim(parts[0]), Trim(parts[1]), if |parts| > 2 then Trim(parts[2]) else "",
                   None, None, Contains(Lower(line), "present"), "")
  }

  /** The record pushed for a (trimmed) work line. */
  function WorkRecord(line: string): WorkExperience
    requires HasSeparator(line)
  {
    WorkEntry(line, SplitOnSeparators(line))
  }

  /** The record of a work line: no dates and no description, current iff
      the line mentions 'present' in any case, and title, company and
      location are trimmed pieces without separators (no location for a
      line with a single separator). */
  lemma WorkRecordShape(line: string)
    requires HasSeparator(line)
    ensures var r := WorkRecord(line);
            r.startDate.None? && r.endDate.None? && r.description == "" &&
            (r.isCurrently <==> Contains(Lower(line), "present")) &&
            IsTrimmed(r.jobTitle) && IsTrimmed(r.company) && IsTrimmed(r.location) &&
            (forall j :: 0 <= j < |r.jobTitle| ==> !IsSeparator(r.jobTitle[j])) &&
            (forall j :: 0 <= j < |r.company| ==> !IsSeparator(r.company[j])) &&
            (|SplitOnSeparators(line)| == 2 ==> r.location == "")
  {
    var parts := SplitOnSeparators(line);
    SubstringFree(parts[0]);
    SubstringFree(parts[1]);
  }

  /** The job title of a work line is the line up to the first match of
      the separator pattern, trimmed. */
  lemma WorkRecordTitle(line: string)
    requires HasSeparator(line)
    ensures WorkRecord(line).jobTitle == Trim(line[..NextMatch(line, 0)])
  {
    var _ := SplitOnSeparatorsWeave(line);
  }

  /** Trimming keeps a string free of separators. */
  lemma SubstringFree(s: string)
    requires forall j :: 0 <= j < |s| ==> !IsSeparator(s[j])
    ensures forall j :: 0 <= j < |Trim(s)| ==> !IsSeparator(Trim(s)[j])
  {
    TrimInside(s);
    var i := LeadingSpaces(s);
    forall j | 0 <= j < |Trim(s)| ensures !IsSeparator(Trim(s)[j]) {
      assert Trim(s)[j] == s[i + j];
    }
  }

  /** The records for a sequence of trimmed lines, built line by line. */
  function WorkRecords(trimmed: seq<string>): (r: seq<WorkExperience>)
    ensures |r| <= |trimmed|
    decreases |trimmed|
  {
    if trimmed == [] then []
    else
      var init, last := trimmed[..|trimmed| - 1], trimmed[|trimmed| - 1];
      WorkRecords(init) + (if IsWorkLine(last) then [WorkRecord(last)] else [])
  }

  /** There is exactly one record per work line, in order. */
  lemma {:induction false} WorkRecordsSpec(trimmed: seq<string>)
    ensures |WorkRecords(trimmed)| == |Filter(trimmed, IsWorkLine)|
    ensures forall k :: 0 <= k < |WorkRecords(trimmed)| ==>
              WorkRecords(trimmed)[k] == WorkRecord(Filter(trimmed, IsWorkLine)[k])
    decreases |trimmed|
  {
    if trimmed != [] {
      var init, last := trimmed[..|trimmed| - 1], trimmed[|trimmed| - 1];
      assert trimmed == init + [last];
      FilterAppend(init, [last], IsWorkLine);
      assert [last][1..] == [];
      WorkRecordsSpec(init);
    }
  }

  /** What `extractWorkExperience` returns: a record per work line after the
      first work heading. */
  function WorkOf(lines: seq<string>): seq<WorkExperience> {
    match SectionStart(lines, WorkKeywords)
    case None => []
    case Some(s) => WorkRecords(TrimAll(lines[s..]))
  }

  /** One more line adds its record when it is a work line, and nothing
      otherwise. */
  lemma WorkRecordsStep(lines: seq<string>, s: nat, i: nat)
    requires s <= i < |lines|
    ensures WorkRecords(TrimAll(lines[s..i + 1])) ==
            WorkRecords(TrimAll(lines[s..i])) + (if IsWorkLine(Trim(lines[i])) then [WorkRecord(Trim(lines[i]))] else [])
  {
    var before, after := TrimAll(lines[s..i]), TrimAll(lines[s..i + 1]);
    assert after == before + [Trim(lines[i])];
    assert after[..|after| - 1] == before;
  }

  /** `extractWorkExperience`. */
  method ExtractWorkExperience(text: string) returns (experiences: seq<WorkExperience>)
    ensures experiences == WorkOf(Lines(text))
  {
    experiences := [];
    var lines := Lines(text);
    var workStart := FindSectionStart(lines, WorkKeywords);
    if workStart.Some? {
      experiences := WorkAfter(lines, workStart.value);
    }
  }

  /** The body of the loop of `extractWorkExperience` for one trimmed line:
      what it pushes. */
  method WorkLineEntry(line: string) returns (entry: seq<WorkExperience>)
    ensures entry == if IsWorkLine(line) then [WorkRecord(line)] else []
  {
    entry := [];
    if !(line == "" || (IsCapsLine(line) && |line| > 20)) {
      if Contains(line, "|") || Contains(line, "-") {
        var parts := SplitOnSeparators(line);
        if |parts| >= 2 {
          entry := [WorkEntry(line, parts)];
        }
      }
    }
  }

  /** The loop of `extractWorkExperience` over the lines from `s` to the
      end of the text. */
  method WorkAfter(lines: seq<string>, s: nat) returns (experiences: seq<WorkExperience>)
    requires s <= |lines|
    ensures experiences == WorkRecords(TrimAll(lines[s..]))
  {
    experiences := [];
    var i := s;
    while i < |lines|
      invariant s <= i <= |lines|
      invariant experiences == WorkRecords(TrimAll(lines[s..i]))
    {
      var line := Trim(lines[i]);
      WorkRecordsStep(lines, s, i);
      var entry := WorkLineEntry(line);
      experiences := experiences + entry;
      i := i + 1;
    }
    assert lines[s..i] == lines[s..];
  }

  // ---------------------------------------------------------------------
  // Education, certifications and projects: windows after a heading
  // ---------------------------------------------------------------------

  const EducationKeywords: seq<string> := ["education", "degree", "bachelor", "master", "phd"]
  const CertificationKeywords: seq<string> := ["certification", "certificate", "certified", "credentials"]
  const ProjectKeywords: seq<string> := ["project", "projects", "portfolio"]

  function EducationEntry(line: string): Education {
    Education("Bachelor", "", line, None, None)
  }

  function CertificationEntry(line: string): Certification {
    Certification(line, "", None, None, "", "")
  }

  function ProjectEntry(line: string): Project {
    Project(line, "", [], "")
  }

  /** The window taken after the first heading, or nothing without one. */
  function SectionWindow(lines: seq<string>, keywords: seq<string>, size: nat): (w: seq<string>)
    ensures |w| <= size
    ensures SectionStart(lines, keywords).None? ==> w == []
    ensures SectionStart(lines, keywords).Some? ==> w == Window(lines, SectionStart(lines, keywords).value, size)
  {
    match SectionStart(lines, keywords)
    case None => []
    case Some(s) => Window(lines, s, size)
  }

  /** What `extractEducation` returns: one 'Bachelor' record per non-empty
      line of the 10 after the first education heading, the school being
      the trimmed line. */
  function EducationOf(lines: seq<string>): (r: seq<Education>)
    ensures |r| <= 10
    ensures forall k :: 0 <= k < |r| ==>
              r[k].degree == "Bachelor" && r[k].fieldOfStudy == "" && r[k].school != "" &&
              r[k].startDate.None? && r[k].endDate.None?
    ensures Map((e: Education) => e.school, r) == SectionWindow(lines, EducationKeywords, 10)
  {
    Map(EducationEntry, SectionWindow(lines, EducationKeywords, 10))
  }

  /** What `extractCertifications` returns: one record per non-empty line of
      the 5 after the first certification heading, named by the line. */
  function CertificationsOf(lines: seq<string>): (r: seq<Certification>)
    ensures |r| <= 5
    ensures forall k :: 0 <= k < |r| ==>
              r[k].name != "" && r[k].issuer == "" && r[k].credentialId == "" && r[k].credentialUrl == "" &&
              r[k].issueDate.None? && r[k].expiryDate.None?
    ensures Map((c: Certification) => c.name, r) == SectionWindow(lines, CertificationKeywords, 5)
  {
    Map(CertificationEntry, SectionWindow(lines, CertificationKeywords, 5))
  }

  /** What `extractProjects` returns: one record per non-empty line of the 5
      after the first project heading, named by the line. */
  function ProjectsOf(lines: seq<string>): (r: seq<Project>)
    ensures |r| <= 5
    ensures forall k :: 0 <= k < |r| ==>
              r[k].name != "" && r[k].description == "" && r[k].technologies == [] && r[k].link == ""
    ensures Map((p: Project) => p.name, r) == SectionWindow(lines, ProjectKeywords, 5)
  {
    Map(ProjectEntry, SectionWindow(lines, ProjectKeywords, 5))
  }

  /** `extractEducation`. */
  method ExtractEducation(text: string) returns (education: seq<Education>)
    ensures education == EducationOf(Lines(text))
  {
    education := [];
    var lines := Lines(text);
    var eduStart := FindSectionStart(lines, EducationKeywords);
    if eduStart.Some? {
      education := EducationWindow(lines, eduStart.value);
    }
  }

  /** The loop of `extractEducation` over the 10 lines from `s`: a record per line
      that is non-empty after trimming. */
  method EducationWindow(lines: seq<string>, s: nat) returns (education: seq<Education>)
    requires s <= |lines|
    ensures education == Map(EducationEntry, Window(lines, s, 10))
  {
    education := [];
    var end := Min(s + 10, |lines|);
    var i := s;
    while i < end
      invariant s <= i <= end
      invariant education == Map(EducationEntry, Filter(TrimAll(lines[s..i]), NonBlank))
    {
      var line := Trim(lines[i]);
      WindowMapStep(EducationEntry, lines, s, i);
      if |line| > 0 {
        education := education + [Education("Bachelor", "", line, None, None)];
      }
      i := i + 1;
    }
  }

  /** `extractCertifications`. */
  method ExtractCertifications(text: string) returns (certifications: seq<Certification>)
    ensures certifications == CertificationsOf(Lines(text))
  {
    certifications := [];
    var lines := Lines(text);
    var certStart := FindSectionStart(lines, CertificationKeywords);
    if certStart.Some? {
      certifications := CertificationWindow(lines, certStart.value);
    }
  }

  /** The loop of `extractCertifications` over the 5 lines from `s`: a record per line
      that is non-empty after trimming. */
  method CertificationWindow(lines: seq<string>, s: nat) returns (certifications: seq<Certification>)
    requires s <= |lines|
    ensures certifications == Map(CertificationEntry, Window(lines, s, 5))
  {
    certifications := [];
    var end := Min(s + 5, |lines|);
    var i := s;
    while i < end
      invariant s <= i <= end
      invariant certifications == Map(CertificationEntry, Filter(TrimAll(lines[s..i]), NonBlank))
    {
      var line := Trim(lines[i]);
      WindowMapStep(CertificationEntry, lines, s, i);
      if |line| > 0 {
        certifications := certifications + [Certification(line, "", None, None, "", "")];
      }
      i := i + 1;
    }
  }

  /** `extractProjects`. */
  method ExtractProjects(text: string) returns (projects: seq<Project>)
    ensures projects == ProjectsOf(Lines(text))
  {
    projects := [];
    var lines := Lines(text);
    var projectStart := FindSectionStart(lines, ProjectKeywords);
    if projectStart.Some? {
      projects := ProjectWindow(lines, projectStart.value);
    }
  }

  /** The loop of `extractProjects` over the 5 lines from `s`: a record per line
      that is non-empty after trimming. */
  method ProjectWindow(lines: seq<string>, s: nat) returns (projects: seq<Project>)
    requires s <= |lines|
    ensures projects == Map(ProjectEntry, Window(lines, s, 5))
  {
    projects := [];
    var end := Min(s + 5, |lines|);
    var i := s;
    while i < end
      invariant s <= i <= end
      invariant projects == Map(ProjectEntry, Filter(TrimAll(lines[s..i]), NonBlank))
    {
      var line := Trim(lines[i]);
      WindowMapStep(ProjectEntry, lines, s, i);
      if |line| > 0 {
        projects := projects + [Project(line, "", [], "")];
      }
      i := i + 1;
    }
  }

  // ---------------------------------------------------------------------
  // parseResume
  // ---------------------------------------------------------------------

  /** `resumeText || ''`. */
  function TextOrEmpty(resumeText: Option<string>): string {
    if resumeText.Some? then resumeText.value else ""
  }

  /** The profile `parseResume` builds from the text. */
  function ProfileOf(text: string): ParsedProfile {
    var lines := Lines(text);
    ParsedProfile(
      NameOf(lines), EmailOf(text), PhoneOf(text), LocationOf(lines),
      WebsiteOf(text), LinkedInOf(text), GithubOf(text), SummaryOf(lines),
      SkillsOf(text), WorkOf(lines), EducationOf(lines), CertificationsOf(lines),
      LanguagesOf(text), ProjectsOf(lines))
  }

  /** The profile with every string field '' and every list empty. */
  const EmptyProfile := ParsedProfile("", "", "", "", "", "", "", "", [], [], [], [], [], [])

  /** `parseResume`: every extractor applied to the text (or to '' for a
      missing text). It has no failure outcome. */
  method ParseResume(resumeText: Option<string>) returns (profile: ParsedProfile)
    ensures profile == ProfileOf(TextOrEmpty(resumeText))
  {
    var text := if resumeText.Some? then resumeText.value else "";
    var fullName := ExtractName(text);
    var location := ExtractLocation(text);
    var summary := ExtractSummary(text);
    var skills := ExtractSkillsFromResume(text);
    var workExperience := ExtractWorkExperience(text);
    var education := ExtractEducation(text);
    var certifications := ExtractCertifications(text);
    var languages := ExtractLanguages(text);
    var projects := ExtractProjects(text);
    profile := ParsedProfile(
      fullName, EmailOf(text), PhoneOf(text), location,
      WebsiteOf(text), LinkedInOf(text), GithubOf(text), summary,
      skills, workExperience, education, certifications, languages, projects);
  }

  /** A keyword list of non-empty keywords is mentioned by no empty line,
      so the text '' has no section. */
  lemma EmptyTextHasNoSection(keywords: seq<string>)
    requires forall k :: 0 <= k < |keywords| ==> keywords[k] != ""
    ensures SectionStart(Lines(""), keywords).None?
  {
    assert Lines("") == [""];
    assert !MentionsAny("", keywords);
  }

  /** The text '' mentions no vocabulary term and no language. */
  lemma EmptyTextHasNoTerms()
    ensures FoundSkillTerms("") == [] && FoundLanguages("") == []
  {
    SkillVocabularyWellFormed();
    assert Lower("") == "";
    FilterNone(SkillVocabulary, Mentions(""));
    assert forall i :: 0 <= i < |CommonLanguages| ==> Lower(CommonLanguages[i]) != "";
    FilterNone(CommonLanguages, MentionsLanguage(""));
  }

  /** Every string extractor gives '' on the text ''. */
  lemma EmptyTextStrings()
    ensures NameOf(Lines("")) == "" && LocationOf(Lines("")) == "" && SummaryOf(Lines("")) == ""
    ensures EmailOf("") == "" && PhoneOf("") == "" && WebsiteOf("") == ""
    ensures LinkedInOf("") == "" && GithubOf("") == ""
  {
    assert Lines("") == [""];
    assert !IsNameLine("") && !IsLocationLine("");
    EmptyTextHasNoSection(SummaryKeywords);
  }

  /** Every list extractor gives [] on the text ''. */
  lemma EmptyTextLists()
    ensures SkillsOf("") == [] && LanguagesOf("") == []
    ensures WorkOf(Lines("")) == [] && EducationOf(Lines("")) == []
    ensures CertificationsOf(Lines("")) == [] && ProjectsOf(Lines("")) == []
  {
    EmptyTextHasNoSection(WorkKeywords);
    EmptyTextHasNoSection(EducationKeywords);
    EmptyTextHasNoSection(CertificationKeywords);
    EmptyTextHasNoSection(ProjectKeywords);
    EmptyTextHasNoTerms();
  }

  /** A missing or empty resume text gives '' for every string field and an
      empty list for every list field. */
  lemma ParseEmptyText(resumeText: Option<string>)
    requires resumeText.None? || resumeText == Some("")
    ensures ProfileOf(TextOrEmpty(resumeText)) == EmptyProfile
  {
    assert TextOrEmpty(resumeText) == "";
    EmptyTextStrings();
    EmptyTextLists();
  }
}
