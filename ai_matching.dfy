/** The resume-to-job matching engine: four sub-scores (skills, experience,
    education, content similarity) combined with fixed weights into a rounded
    score and a High/Medium/Low fit. Scores are exact reals; `None` in an
    `Option<real>` score stands for the JavaScript value NaN. */
module AiMatching {
  import opened Wrappers
  import opened SeqUtil
  import opened JsText

  // ---------------------------------------------------------------------
  // Content similarity: Jaccard index of the two token sets
  // ---------------------------------------------------------------------

  /** `normalize`: lower-case, trim, split on runs of whitespace. */
  function Normalize(text: string): seq<string> {
    SplitSpaces(Trim(Lower(text)))
  }

  /** `new Set(normalize(text))`. */
  function TokenSet(text: string): set<string> {
    set w | w in Normalize(text)
  }

  /** `calculateSimilarity`: |intersection| / |union| * 100, with a guard
      for an empty union. */
  function Similarity(text1: string, text2: string): (r: real)
    ensures 0.0 <= r <= 100.0
  {
    var words1 := TokenSet(text1);
    var words2 := TokenSet(text2);
    var intersection := words1 * words2;
    var union := words1 + words2;
    if |union| == 0 then 0.0
    else
      SubsetCardinality(intersection, union);
      Percentage(|intersection|, |union|)
  }

  /** `(part / whole) * 100` for counts. */
  function Percentage(part: nat, whole: nat): (r: real)
    requires part <= whole && whole > 0
    ensures 0.0 <= r <= 100.0
    ensures r == 100.0 <==> part == whole
  {
    assert part as real / whole as real <= 1.0;
    (part as real / whole as real) * 100.0
  }

  lemma SubsetCardinality<T>(a: set<T>, b: set<T>)
    requires a <= b
    ensures |a| <= |b|
  {
    assert a + (b - a) == b;
    assert a * (b - a) == {};
  }

  /** Normalizing always yields at least one token, and the empty token only
      when the text is blank; so no token set is empty. */
  lemma {:induction false} TokenSetNonEmpty(text: string)
    ensures Normalize(text)[0] in TokenSet(text)
    ensures |TokenSet(text)| >= 1
    ensures "" in TokenSet(text) <==> Trim(Lower(text)) == ""
  {
    var t := Trim(Lower(text));
    SplitSpacesTrimmed(t);
    if t != "" {
      assert Normalize(text)[0] == t[0..NextSpace(t, 0)];
      assert t[0] in Normalize(text)[0] by { assert !IsSpace(t[0]); }
    }
  }

  /** The union of two token sets is never empty, so the zero guard of
      `calculateSimilarity` is never taken. */
  lemma UnionNeverEmpty(text1: string, text2: string)
    ensures |TokenSet(text1) + TokenSet(text2)| >= 1
  {
    TokenSetNonEmpty(text1);
  }

  /** Similarity does not depend on the order of its arguments. */
  lemma SimilaritySymmetric(text1: string, text2: string)
    ensures Similarity(text1, text2) == Similarity(text2, text1)
  {
    assert TokenSet(text1) * TokenSet(text2) == TokenSet(text2) * TokenSet(text1);
    assert TokenSet(text1) + TokenSet(text2) == TokenSet(text2) + TokenSet(text1);
  }

  /** A text is fully similar to itself, the empty text included: both token
      sets are {""}, so the result is 100. */
  lemma SimilaritySelf(text: string)
    ensures Similarity(text, text) == 100.0
  {
    TokenSetNonEmpty(text);
    assert TokenSet(text) * TokenSet(text) == TokenSet(text);
    assert TokenSet(text) + TokenSet(text) == TokenSet(text);
  }

  // ---------------------------------------------------------------------
  // Skill vocabulary scan
  // ---------------------------------------------------------------------

  /** `commonSkills` of `extractSkills`: 38 lower-case terms. */
  const MatchSkillVocabulary: seq<string> := [
    "javascript", "python", "java", "react", "node.js", "express", "mongodb",
    "sql", "mysql", "postgresql", "docker", "kubernetes", "aws", "git", "html",
    "css", "angular", "vue.js", "typescript", "golang", "rust", "c++", "php",
    "project management", "leadership", "communication", "teamwork", "problem solving",
    "agile", "scrum", "devops", "machine learning", "artificial intelligence",
    "data analysis", "power bi", "tableau", "excel", "salesforce"
  ]

  /** `extractSkills`: the vocabulary terms that occur in the lower-cased text,
      in vocabulary order, and all of them. */
  function ExtractSkills(text: string): (r: seq<string>)
    ensures IsSubsequence(r, MatchSkillVocabulary)
    ensures forall i :: 0 <= i < |r| ==> Contains(Lower(text), r[i])
    ensures forall i :: 0 <= i < |MatchSkillVocabulary| && Contains(Lower(text), MatchSkillVocabulary[i]) ==>
              MatchSkillVocabulary[i] in r
  {
    var textLower := Lower(text);
    Filter(MatchSkillVocabulary, (skill: string) => Contains(textLower, skill))
  }

  // ---------------------------------------------------------------------
  // Skills match
  // ---------------------------------------------------------------------

  /** The bidirectional, case-insensitive containment test of
      `calculateSkillsMatch`. */
  predicate Overlaps(skill: string, resSkill: string) {
    Contains(Lower(resSkill), Lower(skill)) || Contains(Lower(skill), Lower(resSkill))
  }

  /** `resumeSkills.some(resSkill => ...)` for one required skill. A value that
      is not a string (`None`) throws when `toLowerCase` is called on it, which
      happens as soon as the scan reaches it. */
  function AnyOverlap(skill: Option<string>, resumeSkills: seq<Option<string>>): Result<bool>
  {
    if resumeSkills == [] then Ok(false)
    else
      match (resumeSkills[0], skill)
      case (None, _) => TypeError
      case (_, None) => TypeError
      case (Some(resSkill), Some(s)) =>
        if Overlaps(s, resSkill) then Ok(true) else AnyOverlap(skill, resumeSkills[1..])
  }

  /** `jobRequiredSkills.filter(...).length`, or the error the scan throws. */
  function CountMatched(required: seq<Option<string>>, resumeSkills: seq<Option<string>>): (r: Result<nat>)
    ensures r.Ok? ==> r.value <= |required|
  {
    if required == [] then Ok(0)
    else
      match AnyOverlap(required[0], resumeSkills)
      case TypeError => TypeError
      case Ok(hit) =>
        match CountMatched(required[1..], resumeSkills)
        case TypeError => TypeError
        case Ok(n) => Ok(if hit then n + 1 else n)
  }

  /** `calculateSkillsMatch`. A missing list is modelled as the empty list:
      the source treats the two alike. */
  function SkillsMatch(resumeSkills: seq<Option<string>>, required: seq<Option<string>>): (r: Result<real>)
    ensures |required| == 0 ==> r == Ok(100.0)
    ensures |required| > 0 && |resumeSkills| == 0 ==> r == Ok(0.0)
    ensures r.Ok? ==> 0.0 <= r.value <= 100.0
  {
    if |required| == 0 then Ok(100.0)
    else if |resumeSkills| == 0 then Ok(0.0)
    else
      match CountMatched(required, resumeSkills)
      case TypeError => TypeError
      case Ok(n) => Ok(Percentage(n, |required|))
  }

  /** Strings as JavaScript values that are all strings. */
  function AsValues(ss: seq<string>): (r: seq<Option<string>>)
    ensures |r| == |ss| && forall i :: 0 <= i < |ss| ==> r[i] == Some(ss[i])
  {
    seq(|ss|, i requires 0 <= i < |ss| => Some(ss[i]))
  }

  /** Some resume skill overlaps the required skill. */
  predicate OverlapsSome(skill: string, resumeSkills: seq<string>) {
    exists j :: 0 <= j < |resumeSkills| && Overlaps(skill, resumeSkills[j])
  }

  /** Reference definition: the required skills that overlap some resume skill. */
  function MatchedSkills(required: seq<string>, resumeSkills: seq<string>): seq<string> {
    Filter(required, (skill: string) => OverlapsSome(skill, resumeSkills))
  }

  /** Over strings the `some` scan never throws and finds an overlap iff one exists. */
  lemma {:induction false} AnyOverlapStrings(skill: string, resumeSkills: seq<string>)
    ensures AnyOverlap(Some(skill), AsValues(resumeSkills)) == Ok(OverlapsSome(skill, resumeSkills))
    decreases |resumeSkills|
  {
    if resumeSkills != [] {
      assert AsValues(resumeSkills)[1..] == AsValues(resumeSkills[1..]);
      AnyOverlapStrings(skill, resumeSkills[1..]);
      if !Overlaps(skill, resumeSkills[0]) {
        assert OverlapsSome(skill, resumeSkills) == OverlapsSome(skill, resumeSkills[1..]) by {
          forall j | 0 <= j < |resumeSkills| && Overlaps(skill, resumeSkills[j])
            ensures 0 <= j - 1 < |resumeSkills[1..]| && Overlaps(skill, resumeSkills[1..][j - 1])
          {
          }
        }
      }
    }
  }

  /** Over strings the filter never throws and counts the reference matches. */
  lemma {:induction false} CountMatchedStrings(required: seq<string>, resumeSkills: seq<string>)
    ensures CountMatched(AsValues(required), AsValues(resumeSkills)) == Ok(|MatchedSkills(required, resumeSkills)|)
    decreases |required|
  {
    if required != [] {
      assert AsValues(required)[1..] == AsValues(required[1..]);
      AnyOverlapStrings(required[0], resumeSkills);
      CountMatchedStrings(required[1..], resumeSkills);
    }
  }

  /** When both lists are non-empty and hold only strings, the skills match
      is 100 times the share of required skills that overlap a resume skill. */
  lemma SkillsMatchShare(required: seq<string>, resumeSkills: seq<string>)
    requires |required| > 0 && |resumeSkills| > 0
    ensures SkillsMatch(AsValues(resumeSkills), AsValues(required)) ==
            Ok(Percentage(|MatchedSkills(required, resumeSkills)|, |required|))
  {
    CountMatchedStrings(required, resumeSkills);
  }

  /** The reference count grows with the resume's skill list. */
  lemma {:induction false} MatchedSkillsGrow(required: seq<string>, resumeSkills: seq<string>, extra: string)
    ensures |MatchedSkills(required, resumeSkills)| <= |MatchedSkills(required, resumeSkills + [extra])|
    decreases |required|
  {
    if required != [] {
      var more := resumeSkills + [extra];
      MatchedSkillsGrow(required[1..], resumeSkills, extra);
      if OverlapsSome(required[0], resumeSkills) {
        var j :| 0 <= j < |resumeSkills| && Overlaps(required[0], resumeSkills[j]);
        assert more[j] == resumeSkills[j];
        assert OverlapsSome(required[0], more);
      }
    }
  }

  /** Adding a skill to the resume never lowers the skills match. */
  lemma SkillsMatchMonotone(required: seq<string>, resumeSkills: seq<string>, extra: string)
    ensures SkillsMatch(AsValues(resumeSkills), AsValues(required)).Ok?
    ensures SkillsMatch(AsValues(resumeSkills + [extra]), AsValues(required)).Ok?
    ensures SkillsMatch(AsValues(resumeSkills), AsValues(required)).value <=
            SkillsMatch(AsValues(resumeSkills + [extra]), AsValues(required)).value
  {
    if |required| > 0 {
      SkillsMatchShare(required, resumeSkills + [extra]);
      if |resumeSkills| > 0 {
        SkillsMatchShare(required, resumeSkills);
        MatchedSkillsGrow(required, resumeSkills, extra);
        CountMatchedStrings(required, resumeSkills + [extra]);
        DivideMonotone(|MatchedSkills(required, resumeSkills)|, |MatchedSkills(required, resumeSkills + [extra])|, |required|);
      }
    }
  }

  lemma DivideMonotone(a: nat, b: nat, n: nat)
    requires a <= b <= n && n > 0
    ensures Percentage(a, n) <= Percentage(b, n)
  {
  }

  /** A resume skill name that is not a string, met first, makes the scan throw. */
  lemma SkillsMatchThrowsOnFirstNonString(resumeSkills: seq<Option<string>>, required: seq<Option<string>>)
    requires |required| > 0 && |resumeSkills| > 0 && resumeSkills[0] == None
    ensures SkillsMatch(resumeSkills, required) == TypeError
  {
  }

  /** A required skill that is not a string makes the scan throw. */
  lemma {:induction false} CountMatchedThrowsOnRequiredNonString(required: seq<Option<string>>, resumeSkills: seq<Option<string>>, k: nat)
    requires k < |required| && required[k] == None && |resumeSkills| > 0
    ensures CountMatched(required, resumeSkills) == TypeError
    decreases k
  {
    if k > 0 {
      CountMatchedThrowsOnRequiredNonString(required[1..], resumeSkills, k - 1);
    }
  }

  // ---------------------------------------------------------------------
  // Experience match
  // ---------------------------------------------------------------------

  /** A date field of a work-experience entry as `new Date(...)` reads it:
      `null` (the epoch), a time in milliseconds, or a value that gives an
      Invalid Date (a missing or unparseable value). */
  datatype DateField = NullDate | Instant(ms: int) | Invalid

  datatype WorkEntry = WorkEntry(startDate: DateField, endDate: DateField, isCurrently: bool)

  /** The time value of `new Date(field)`; None for an Invalid Date. */
  function TimeValue(d: DateField): Option<int> {
    match d
    case NullDate => Some(0)
    case Instant(ms) => Some(ms)
    case Invalid => None
  }

  /** `1000 * 60 * 60 * 24 * 365`. */
  const MsPerYear: int := 1000 * 60 * 60 * 24 * 365

  /** `experienceLevels`. */
  const ExperienceLevels: map<string, nat> :=
    map["entry" := 0, "junior" := 2, "mid" := 5, "senior" := 8, "lead" := 12, "executive" := 15]

  /** `experienceLevels[jobExperienceLevel] || 0`. */
  function RequiredYears(level: string): (n: nat)
    ensures level == "entry" ==> n == 0
    ensures level == "junior" ==> n == 2
    ensures level == "mid" ==> n == 5
    ensures level == "senior" ==> n == 8
    ensures level == "lead" ==> n == 12
    ensures level == "executive" ==> n == 15
    ensures level !in ExperienceLevels ==> n == 0
    ensures n <= 15
  {
    if level in ExperienceLevels then ExperienceLevels[level] else 0
  }

  /** The years one entry contributes, `(end - start) / MsPerYear`, with "now"
      as the end of a current position; None when a date is invalid. */
  function EntryYears(e: WorkEntry, now: int): Option<real> {
    var start := TimeValue(e.startDate);
    var end := if e.isCurrently then Some(now) else TimeValue(e.endDate);
    if start.Some? && end.Some? then Some((end.value - start.value) as real / MsPerYear as real) else None
  }

  /** `a + b` where None (NaN) absorbs. */
  function AddYears(a: Option<real>, b: Option<real>): Option<real> {
    if a.Some? && b.Some? then Some(a.value + b.value) else None
  }

  /** `totalYears` after the `forEach` over the entries. */
  function TotalYears(entries: seq<WorkEntry>, now: int): Option<real>
    decreases |entries|
  {
    if entries == [] then Some(0.0)
    else AddYears(TotalYears(entries[..|entries| - 1], now), EntryYears(entries[|entries| - 1], now))
  }

  /** The three-way decision at the end of `calculateExperienceMatch`. A NaN
      total fails `>=`, so it gives 100 only when no years are required. */
  function ExperienceScore(totalYears: Option<real>, requiredYears: nat): Option<real> {
    if totalYears.Some? && totalYears.value >= requiredYears as real then Some(100.0)
    else if requiredYears == 0 then Some(100.0)
    else if totalYears.Some? then Some((totalYears.value / requiredYears as real) * 100.0)
    else None
  }

  /** `calculateExperienceMatch`, with "now" as a parameter. A missing list
      is modelled as the empty list. */
  method CalculateExperienceMatch(resumeExperience: seq<WorkEntry>, jobExperienceLevel: string, now: int)
    returns (score: Option<real>)
    ensures score == ExperienceScore(TotalYears(resumeExperience, now), RequiredYears(jobExperienceLevel))
  {
    var requiredYears := RequiredYears(jobExperienceLevel);
    var totalYears: Option<real> := Some(0.0);
    var i := 0;
    while i < |resumeExperience|
      invariant 0 <= i <= |resumeExperience|
      invariant totalYears == TotalYears(resumeExperience[..i], now)
    {
      var exp := resumeExperience[i];
      var start := TimeValue(exp.startDate);
      var end := if exp.isCurrently then Some(now) else TimeValue(exp.endDate);
      var years: Option<real> := if start.Some? && end.Some?
        then Some((end.value - start.value) as real / MsPerYear as real) else None;
      totalYears := if totalYears.Some? && years.Some? then Some(totalYears.value + years.value) else None;
      assert resumeExperience[..i + 1][..i] == resumeExperience[..i];
      i := i + 1;
    }
    assert resumeExperience[..i] == resumeExperience;
    if totalYears.Some? && totalYears.value >= requiredYears as real {
      score := Some(100.0);
    } else if requiredYears == 0 {
      score := Some(100.0);
    } else if totalYears.Some? {
      score := Some((totalYears.value / requiredYears as real) * 100.0);
    } else {
      score := None;
    }
  }

  /** With no years required (entry level, or a level not in the table) the
      score is 100 whatever the work history, invalid dates included. */
  lemma ExperienceNoRequirement(totalYears: Option<real>, level: string)
    requires RequiredYears(level) == 0
    ensures ExperienceScore(totalYears, RequiredYears(level)) == Some(100.0)
  {
  }

  /** With years required: 100 exactly when the total reaches them, NaN
      exactly when the total is NaN, and otherwise the linear ramp, which stays
      below 100 and is non-negative for a non-negative total. */
  lemma ExperienceRamp(totalYears: Option<real>, requiredYears: nat)
    requires requiredYears > 0
    ensures var r := ExperienceScore(totalYears, requiredYears);
            && (r == Some(100.0) <==> totalYears.Some? && totalYears.value >= requiredYears as real)
            && (r.None? <==> totalYears.None?)
            && (r.Some? ==> r.value <= 100.0)
            && (totalYears.Some? && totalYears.value >= 0.0 ==> r.Some? && r.value >= 0.0)
  {
    if totalYears.Some? && totalYears.value < requiredYears as real {
      var t := totalYears.value;
      var q := requiredYears as real;
      assert t / q < 1.0 by {
        assert t / q * q == t;
      }
      assert t >= 0.0 ==> t / q >= 0.0;
    }
  }

  /** The total is NaN exactly when some entry has an invalid date. */
  lemma {:induction false} TotalYearsUndefined(entries: seq<WorkEntry>, now: int)
    ensures TotalYears(entries, now).None? <==> exists i :: 0 <= i < |entries| && EntryYears(entries[i], now).None?
    decreases |entries|
  {
    if entries != [] {
      var front := entries[..|entries| - 1];
      TotalYearsUndefined(front, now);
      assert forall i :: 0 <= i < |front| ==> front[i] == entries[i];
      if TotalYears(front, now).None? {
        var i :| 0 <= i < |front| && EntryYears(front[i], now).None?;
        assert EntryYears(entries[i], now).None?;
      }
    }
  }

  /** Entries whose durations are all defined and non-negative give a defined,
      non-negative total. */
  lemma {:induction false} TotalYearsNonNegative(entries: seq<WorkEntry>, now: int)
    requires forall i :: 0 <= i < |entries| ==> EntryYears(entries[i], now).Some? && EntryYears(entries[i], now).value >= 0.0
    ensures TotalYears(entries, now).Some? && TotalYears(entries, now).value >= 0.0
    decreases |entries|
  {
    if entries != [] {
      var front := entries[..|entries| - 1];
      assert forall i :: 0 <= i < |front| ==> front[i] == entries[i];
      TotalYearsNonNegative(front, now);
    }
  }

  /** A current position whose start date is null counts from the epoch:
      it contributes `now / MsPerYear` years. */
  lemma CurrentPositionWithNullStart(endDate: DateField, now: int)
    ensures EntryYears(WorkEntry(NullDate, endDate, true), now) == Some(now as real / MsPerYear as real)
  {
  }

  // ---------------------------------------------------------------------
  // Education match
  // ---------------------------------------------------------------------

  /** `calculateEducationMatch`: 50 without education entries, else 100; the
      job description is not read. */
  function EducationMatch<E>(resumeEducation: seq<E>, jobDescription: string): (r: real)
    ensures r == 50.0 <==> |resumeEducation| == 0
    ensures r == 100.0 <==> |resumeEducation| > 0
  {
    if |resumeEducation| == 0 then 50.0 else 100.0
  }

  /** The job description never changes the education match. */
  lemma EducationIgnoresDescription<E>(resumeEducation: seq<E>, d1: string, d2: string)
    ensures EducationMatch(resumeEducation, d1) == EducationMatch(resumeEducation, d2)
  {
  }

  // ---------------------------------------------------------------------
  // The composite match
  // ---------------------------------------------------------------------

  datatype EducationEntry = EducationEntry(degree: string, fieldOfStudy: string, school: string)

  /** The fields of a resume the engine reads: `rawText`, the names of
      `parsedData.skills` (None for a name that is not a string),
      `parsedData.workExperience` and `parsedData.education`. A missing text
      or list is modelled as the empty one, as the source's `|| ''` and
      `|| []` make them. */
  datatype ResumeInput = ResumeInput(
    rawText: string,
    skillNames: seq<Option<string>>,
    workExperience: seq<WorkEntry>,
    education: seq<EducationEntry>)

  /** The fields of a job the engine reads; a missing `experienceLevel` is "". */
  datatype JobInput = JobInput(
    description: string,
    requiredSkills: seq<Option<string>>,
    experienceLevel: string)

  datatype Fit = High | Medium | Low

  /** The rounded sub-scores; `experienceMatch` is None when it is NaN. */
  datatype MatchDetails = MatchDetails(skillsMatch: int, experienceMatch: Option<int>, educationMatch: int, overallFit: Fit)

  /** The engine's result; `matchingScore` is None when it is NaN. */
  datatype MatchResult = MatchResult(matchingScore: Option<int>, matchingDetails: MatchDetails)

  /** The record returned from the `catch` block. */
  const ZeroMatch: MatchResult := MatchResult(Some(0), MatchDetails(0, Some(0), 0, Low))

  const SkillsWeight: real := 0.40
  const ExperienceWeight: real := 0.30
  const EducationWeight: real := 0.10
  const ContentWeight: real := 0.20

  lemma WeightsSumToOne()
    ensures SkillsWeight + ExperienceWeight + EducationWeight + ContentWeight == 1.0
  {
  }

  /** `Math.round`: the nearest integer, halves rounded up. */
  function Round(x: real): (n: int)
    ensures n as real - 0.5 <= x < n as real + 0.5
  {
    (x + 0.5).Floor
  }

  /** `Math.round` on a value that may be NaN. */
  function RoundNumber(x: Option<real>): Option<int> {
    if x.Some? then Some(Round(x.value)) else None
  }

  /** `overallScore`: the weighted sum, NaN when the experience match is. */
  function OverallScore(skills: real, experience: Option<real>, education: real, content: real): Option<real> {
    if experience.Some? then
      Some(skills * SkillsWeight + experience.value * ExperienceWeight + education * EducationWeight + content * ContentWeight)
    else None
  }

  /** Because the weights sum to one, sub-scores in [0, 100] give an overall
      score in [0, 100], and a rounded score in [0, 100]. */
  lemma OverallScoreBounds(skills: real, experience: real, education: real, content: real)
    requires 0.0 <= skills <= 100.0 && 0.0 <= experience <= 100.0
    requires 0.0 <= education <= 100.0 && 0.0 <= content <= 100.0
    ensures var s := OverallScore(skills, Some(experience), education, content).value;
            0.0 <= s <= 100.0 && 0 <= Round(s) <= 100
  {
  }

  /** The job's experience level with `|| 'entry'` applied. */
  function LevelOrEntry(level: string): string {
    if level == "" then "entry" else level
  }

  /** The experience sub-score the engine computes. */
  ghost function ExperienceOf(resume: ResumeInput, job: JobInput, now: int): Option<real> {
    ExperienceScore(TotalYears(resume.workExperience, now), RequiredYears(LevelOrEntry(job.experienceLevel)))
  }

  /** The unrounded overall score the engine computes. */
  ghost function Overall(resume: ResumeInput, job: JobInput, now: int): Option<real>
    requires SkillsMatch(resume.skillNames, job.requiredSkills).Ok?
  {
    OverallScore(SkillsMatch(resume.skillNames, job.requiredSkills).value, ExperienceOf(resume, job, now),
                 EducationMatch(resume.education, job.description), Similarity(resume.rawText, job.description))
  }

  /** What the `try` block of `calculateResumeJobMatch` returns, given the
      sub-scores it computed. */
  ghost predicate Assessed(m: MatchResult, resume: ResumeInput, job: JobInput, now: int)
    requires SkillsMatch(resume.skillNames, job.requiredSkills).Ok?
  {
    var skills := SkillsMatch(resume.skillNames, job.requiredSkills).value;
    var experience := ExperienceOf(resume, job, now);
    var education := EducationMatch(resume.education, job.description);
    var overall := Overall(resume, job, now);
    && m.matchingScore == RoundNumber(overall)
    && m.matchingDetails.skillsMatch == Round(skills)
    && m.matchingDetails.experienceMatch == RoundNumber(experience)
    && m.matchingDetails.educationMatch == Round(education)
    && (m.matchingDetails.overallFit == High <==> overall.Some? && overall.value >= 75.0)
    && (m.matchingDetails.overallFit == Medium <==> overall.Some? && 50.0 <= overall.value < 75.0)
    && (m.matchingDetails.overallFit == Low <==> overall.None? || overall.value < 50.0)
  }

  /** The `try` block: the sub-scores, the weighted sum, the fit decided on
      the unrounded score, and the rounded fields; or the thrown error. */
  method MatchInTry(resume: ResumeInput, job: JobInput, now: int) returns (r: Result<MatchResult>)
    ensures r.TypeError? <==> SkillsMatch(resume.skillNames, job.requiredSkills).TypeError?
    ensures r.Ok? ==> Assessed(r.value, resume, job, now)
  {
    var jobExperienceLevel := LevelOrEntry(job.experienceLevel);
    var skillsMatch := SkillsMatch(resume.skillNames, job.requiredSkills);
    if skillsMatch.TypeError? {
      return TypeError;
    }
    var experienceMatch := CalculateExperienceMatch(resume.workExperience, jobExperienceLevel, now);
    var educationMatch := EducationMatch(resume.education, job.description);
    var contentMatch := Similarity(resume.rawText, job.description);
    var overallScore := OverallScore(skillsMatch.value, experienceMatch, educationMatch, contentMatch);
    var overallFit := Low;
    if overallScore.Some? && overallScore.value >= 75.0 {
      overallFit := High;
    } else if overallScore.Some? && overallScore.value >= 50.0 {
      overallFit := Medium;
    }
    r := Ok(MatchResult(RoundNumber(overallScore),
                        MatchDetails(Round(skillsMatch.value), RoundNumber(experienceMatch), Round(educationMatch), overallFit)));
  }

  /** The fit is decided on the unrounded score: an overall score of 74.6
      is reported as 75, yet its fit is Medium. */
  lemma FitDecidedBeforeRounding(m: MatchResult, resume: ResumeInput, job: JobInput, now: int)
    requires SkillsMatch(resume.skillNames, job.requiredSkills).Ok?
    requires Assessed(m, resume, job, now) && Overall(resume, job, now) == Some(74.6)
    ensures m.matchingScore == Some(75) && m.matchingDetails.overallFit == Medium
  {
    assert Round(74.6) == 75;
  }

  /** Every work entry lasts a defined, non-negative number of years. */
  ghost predicate DurationsNonNegative(entries: seq<WorkEntry>, now: int) {
    forall i :: 0 <= i < |entries| ==> EntryYears(entries[i], now).Some? && EntryYears(entries[i], now).value >= 0.0
  }

  /** `calculateResumeJobMatch`: the `try` block's result, or the all-zero,
      Low record when it throws. The score is a defined integer in [0, 100]
      when no duration is invalid or negative. */
  method CalculateResumeJobMatch(resume: ResumeInput, job: JobInput, now: int) returns (m: MatchResult)
    ensures SkillsMatch(resume.skillNames, job.requiredSkills).TypeError? ==> m == ZeroMatch
    ensures SkillsMatch(resume.skillNames, job.requiredSkills).Ok? ==> Assessed(m, resume, job, now)
    ensures DurationsNonNegative(resume.workExperience, now) ==>
              m.matchingScore.Some? && 0 <= m.matchingScore.value <= 100
  {
    var outcome := MatchInTry(resume, job, now);
    m := if outcome.Ok? then outcome.value else ZeroMatch;
    if outcome.Ok? && DurationsNonNegative(resume.workExperience, now) {
      var exps := resume.workExperience;
      var required := RequiredYears(LevelOrEntry(job.experienceLevel));
      TotalYearsNonNegative(exps, now);
      if required > 0 {
        ExperienceRamp(TotalYears(exps, now), required);
      }
      OverallScoreBounds(SkillsMatch(resume.skillNames, job.requiredSkills).value,
                         ExperienceScore(TotalYears(exps, now), required).value,
                         EducationMatch(resume.education, job.description),
                         Similarity(resume.rawText, job.description));
    }
  }
}
