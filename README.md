# Resume parsing, job matching and input validation — a Dafny model

This project models the server-side logic of a job portal, written in
JavaScript:

- **The matching engine** (`server/utils/aiMatching.js`) scores a resume
  against a job. It computes four sub-scores:
  - content similarity: the Jaccard index of the two texts' token sets;
  - skill overlap: case-insensitive substring tests in both directions;
  - experience: a years ramp driven by a level→years table;
  - education: a presence stub.

  It weights them 0.40/0.30/0.10/0.20, rounds the result, and classifies
  the fit as High, Medium or Low. Any exception gives an all-zero record.
- **The resume parser** (`server/utils/resumeParser.js`) splits the text
  into lines and runs fourteen heuristic extractors over them:
  - the first short line is the name;
  - the first short line with a comma is the location;
  - e-mail, phone, website, LinkedIn and GitHub come from regular
    expressions;
  - summary, education, certification and project sections are windows
    after a keyword line;
  - skills and languages are scans for a fixed vocabulary;
  - work experience comes from splitting lines at `|` and `-`.
- **The keyword index** (`extractKeywords` in
  `server/controllers/resume.controller.js`): the distinct lower-cased words
  of a resume that are longer than three characters and are not stopwords,
  in order of first occurrence, at most 50.
- **The input validators** (`server/middleware/validation.js`): the
  anchored e-mail pattern, the password rule, and the job and application
  form checks, which collect error messages in a fixed order.

Modules:

- `Wrappers`: `Option` and `Result` (`TypeError` is a thrown exception).
- `SeqUtil`: `filter`, `map`, subsequences, distinctness.
- `JsText`: the JavaScript string primitives the code relies on:
  - `trim` and `\s`, over the ECMAScript whitespace set;
  - `toLowerCase` and `toUpperCase`;
  - `includes`;
  - `split('\n')` and `split(/\s+/)`;
  - `join`.
- `Regex`: a small backtracking matcher for the extractors' patterns, with
  the leftmost-match semantics of `String.prototype.match`.
- `AiMatching`, `ResumeParser`, `ResumeKeywords`, `Validation`: the four
  source areas.

The code's loops are methods whose loop invariants are proved against
specification functions:

- the experience sum over the work entries;
- each extractor's heading search;
- each extractor's collecting loop: the windows, the summary run, the
  vocabulary scans and the work lines.

The straight-line code with conditional updates is a method proved against
a function as well:

- `MatchInTry`, with the `overallFit` reassignment;
- `ValidateJobForm` and `ValidateApplicationForm`, with their conditional
  pushes.

Lemmas prove the properties the code promises about those functions.
"Now" is a parameter of the experience computation.

Two behaviours of the code are worth stating:

- `calculateSimilarity("", "")` is 100. Trimming and splitting on `\s+`
  always yield at least one token, possibly the empty one. So the union is
  never empty, and the `union.size === 0` guard
  (server/utils/aiMatching.js:16) cannot fire.
- An unparseable date makes the duration NaN, and NaN spreads to the
  total. When the job's level requires years, it spreads on to the
  experience score and the overall score, and the fit is then Low. With no
  required years (level 'entry', a missing level or an unknown one) the
  experience score is still 100, because `NaN >= 0` fails and the
  `requiredYears === 0` branch returns 100. The model writes NaN as `None`.

## Model

| member | source | states |
|---|---|---|
| AiMatching.Similarity | server/utils/aiMatching.js:7-17 | the similarity lies in [0, 100] |
| AiMatching.Normalize | server/utils/aiMatching.js:8 | `normalize`: the text lower-cased, trimmed and split at whitespace runs |
| AiMatching.TokenSet | server/utils/aiMatching.js:10-11 | `new Set(normalize(text))`: the set of those tokens |
| AiMatching.TokenSetNonEmpty | server/utils/aiMatching.js:8 | normalisation yields at least one token; the empty token is among them exactly when the trimmed lower-cased text is empty |
| AiMatching.UnionNeverEmpty | server/utils/aiMatching.js:14-16 | the union of the two token sets is never empty, so the zero guard is unreachable |
| AiMatching.SimilaritySymmetric | server/utils/aiMatching.js:7-17 | swapping the two texts does not change the similarity |
| AiMatching.SimilaritySelf | server/utils/aiMatching.js:7-17 | a text compared with itself scores 100, the empty text included |
| AiMatching.ExtractSkills | server/utils/aiMatching.js:20-32 | the result is a subsequence of the 38-term vocabulary; every term in it occurs in the lower-cased text; every vocabulary term that occurs is in it |
| AiMatching.CountMatched | server/utils/aiMatching.js:39-44 | when no exception is thrown, the matched count is at most the number of required skills |
| AiMatching.AnyOverlap | server/utils/aiMatching.js:40-43 | the `some` scan for one required skill: true at the first resume skill that contains it or is contained in it, ignoring case; a TypeError as soon as the scan meets a value that is not a string; false after the whole list |
| AiMatching.SkillsMatch | server/utils/aiMatching.js:35-47 | an empty required list gives exactly 100, checked first; an empty resume list then gives exactly 0; any non-failing result lies in [0, 100] |
| AiMatching.AnyOverlapStrings | server/utils/aiMatching.js:40-43 | on string skills, `some` holds exactly when one skill contains the other, ignoring case |
| AiMatching.CountMatchedStrings | server/utils/aiMatching.js:39-44 | on string skills, the filter counts exactly the required skills that overlap some resume skill |
| AiMatching.SkillsMatchShare | server/utils/aiMatching.js:39-46 | with both lists non-empty, the score is 100 × matched ÷ required |
| AiMatching.MatchedSkillsGrow | server/utils/aiMatching.js:39-44 | adding a resume skill never lowers the matched count |
| AiMatching.SkillsMatchMonotone | server/utils/aiMatching.js:35-46 | adding a resume skill never lowers the skill score |
| AiMatching.SkillsMatchThrowsOnFirstNonString | server/utils/aiMatching.js:40-42 | a resume skill name that is not a string, met first, throws |
| AiMatching.CountMatchedThrowsOnRequiredNonString | server/utils/aiMatching.js:41-42 | a required skill that is not a string throws once the resume list is non-empty |
| AiMatching.RequiredYears | server/utils/aiMatching.js:51-60 | the level table, stated level by level, gives entry/junior/mid/senior/lead/executive 0/2/5/8/12/15 years; an unknown level gives 0; never more than 15 |
| AiMatching.TotalYears | server/utils/aiMatching.js:62-69 | `totalYears` after the `forEach`: the durations added in list order from 0, NaN absorbing |
| AiMatching.ExperienceScore | server/utils/aiMatching.js:72-78 | the three-way return: 100 when the total reaches the required years, else 100 when none are required, else the total as a percentage of the required years; a NaN total fails the comparison |
| AiMatching.CalculateExperienceMatch | server/utils/aiMatching.js:50-79 | the `forEach` accumulation and the three-way return give the score of the summed years against the required years |
| AiMatching.ExperienceNoRequirement | server/utils/aiMatching.js:72-75 | with no required years the score is 100, even when the total is NaN |
| AiMatching.ExperienceRamp | server/utils/aiMatching.js:72-78 | with required years, the score is 100 exactly when the total reaches them; it is NaN exactly when the total is; it never exceeds 100; a non-negative total gives a non-negative score |
| AiMatching.TotalYearsUndefined | server/utils/aiMatching.js:62-69 | the total is NaN exactly when some entry's duration is |
| AiMatching.TotalYearsNonNegative | server/utils/aiMatching.js:62-69 | defined, non-negative durations give a defined, non-negative total |
| AiMatching.CurrentPositionWithNullStart | server/utils/aiMatching.js:65-67 | a current position whose start date is null counts from the epoch to now |
| AiMatching.EducationMatch | server/utils/aiMatching.js:82-90 | the education score is 50 exactly for an empty list and 100 exactly for a non-empty one |
| AiMatching.EducationIgnoresDescription | server/utils/aiMatching.js:82-90 | the education score does not depend on the job description |
| AiMatching.WeightsSumToOne | server/utils/aiMatching.js:111-116 | the four weights sum to 1 |
| AiMatching.OverallScore | server/utils/aiMatching.js:118-122 | the weighted sum of the four sub-scores with weights 0.40, 0.30, 0.10 and 0.20; NaN when the experience score is |
| AiMatching.Round | server/utils/aiMatching.js:130-134 | `Math.round` gives the integer within one half below and strictly less than one half above |
| AiMatching.OverallScoreBounds | server/utils/aiMatching.js:118-122 | sub-scores in [0, 100] give an overall score, and a rounded score, in [0, 100] |
| AiMatching.FitDecidedBeforeRounding | server/utils/aiMatching.js:124-130 | an overall score of 74.6 is reported as 75 with fit Medium |
| AiMatching.MatchInTry | server/utils/aiMatching.js:94-137 | the `try` block either throws exactly when the skill match does, or returns the rounded sub-scores and score, with fit High iff the score is ≥ 75, Medium iff it is in [50, 75), Low otherwise |
| AiMatching.CalculateResumeJobMatch | server/utils/aiMatching.js:93-150 | an exception gives the all-zero Low record, otherwise the assessed record; non-negative durations give a defined score in [0, 100] |
| JsText.Trim | server/utils/resumeParser.js:33 | `trim` has no whitespace at either end and is no longer than its input |
| JsText.TrimInside | server/utils/resumeParser.js:33 | the trimmed string occurs in the input right after its leading whitespace, and everything after it is whitespace |
| JsText.TrimEmpty | server/middleware/validation.js:14 | a string trims to "" exactly when it is all whitespace |
| JsText.Lower | server/utils/aiMatching.js:30 | `toLowerCase` keeps the length and maps each character to its lower-case form |
| JsText.Capitalize | server/utils/resumeParser.js:127 | `charAt(0).toUpperCase() + slice(1)` keeps the length, upper-cases the first character and keeps the rest |
| JsText.Split | server/utils/resumeParser.js:31 | `split('\n')` gives at least one piece |
| JsText.SplitPieces | server/utils/resumeParser.js:31 | the pieces of `split('\n')` hold no newline |
| JsText.JoinSplit | server/utils/resumeParser.js:31 | joining the pieces of a split with the separator gives back the text |
| JsText.SplitSpaces | server/utils/aiMatching.js:8 | `split(/\s+/)` gives at least one piece, and no piece holds whitespace |
| JsText.SplitSpacesWeave | server/utils/aiMatching.js:8 | the text is its pieces with a non-empty whitespace run between each two of them |
| JsText.SplitSpacesWords | server/controllers/resume.controller.js:8 | every piece occurs in the text as a whole word, with whitespace or an end of the text on either side |
| JsText.SplitSpacesTrimmed | server/utils/aiMatching.js:8 | a trimmed text splits into non-empty pieces; the empty text splits into the single empty piece |
| JsText.SplitSpacesLower | server/controllers/resume.controller.js:8 | the words of a lower-case text are lower-case |
| JsText.CapitalizeInjective | server/utils/resumeParser.js:127 | capitalising keeps different vocabulary terms apart |
| Regex.SearchFrom | server/utils/resumeParser.js:43 | the match found is the leftmost one: no earlier position matches, and none matches when nothing is found |
| Regex.MatchAt | server/utils/resumeParser.js:43 | a match of the pattern from a position ends at or after it and inside the text |
| Regex.FirstMatch | server/utils/resumeParser.js:43-44 | `match[0]` or '' is '' or a substring of the text |
| ResumeParser.Lines | server/utils/resumeParser.js:31 | splitting at newlines gives at least one line |
| ResumeParser.NameOf | server/utils/resumeParser.js:29-39 | the name is trimmed and shorter than 50, and is '' exactly when no line trims to 1–49 characters |
| ResumeParser.NameIsFirstShortLine | server/utils/resumeParser.js:32-36 | the name is the trimmed form of the first line that trims to 1–49 characters |
| ResumeParser.ExtractName | server/utils/resumeParser.js:29-39 | the loop with early return computes that name |
| ResumeParser.LocationOf | server/utils/resumeParser.js:53-62 | the location is trimmed and shorter than 50, and is '' exactly when no raw line has a comma and fewer than 50 characters |
| ResumeParser.LocationIsFirstCommaLine | server/utils/resumeParser.js:56-59 | the location is the trimmed form of the first such raw line |
| ResumeParser.ExtractLocation | server/utils/resumeParser.js:53-62 | the loop with early return computes that location |
| ResumeParser.EmailOf | server/utils/resumeParser.js:41-45 | the e-mail is '' or a substring of the text with an '@' after its first character |
| ResumeParser.PhoneOf | server/utils/resumeParser.js:47-51 | the phone is '' or a substring of the text |
| ResumeParser.WebsiteOf | server/utils/resumeParser.js:64-68 | the website is '' or a substring of the text |
| ResumeParser.ProfileUrlShape | server/utils/resumeParser.js:70-80 | a profile-URL match starts with its literal prefix and is longer than it |
| ResumeParser.LinkedInOf | server/utils/resumeParser.js:70-74 | the LinkedIn result is '' or a substring starting with 'linkedin.com/in/' |
| ResumeParser.GithubOf | server/utils/resumeParser.js:76-80 | the GitHub result is '' or a substring starting with 'github.com/' |
| ResumeParser.SectionFromSpec | server/utils/resumeParser.js:87-93 | a search from a line reports the line after the first line at or after it that mentions a keyword, or none when no later line does |
| ResumeParser.SectionStartIsFirstHeading | server/utils/resumeParser.js:87-93 | the section starts right after the first line whose lower-case form contains a keyword, and does not exist when no line does |
| ResumeParser.FindSectionStart | server/utils/resumeParser.js:86-93 | the `for` loop with `break` finds that start |
| ResumeParser.Window | server/utils/resumeParser.js:198-209 | a window keeps at most its size of lines; all are non-empty and trimmed; it is a subsequence of the trimmed lines it covers, and holds every non-empty one exactly as often as they do |
| ResumeParser.LeadingNonBlankRun | server/utils/resumeParser.js:97-103 | the run holds the trimmed lines in order and stops at the first blank line |
| ResumeParser.RunAfterHeadingShape | server/utils/resumeParser.js:95-103 | the summary lines are the trimmed lines right after the heading, non-empty, stopped by a blank line or by the limit |
| ResumeParser.RunAfterHeading | server/utils/resumeParser.js:95-107 | at most 5 lines, and none without a heading |
| ResumeParser.SummaryAfter | server/utils/resumeParser.js:96-103 | the collecting loop with `break` gives that run |
| ResumeParser.ExtractSummary | server/utils/resumeParser.js:82-108 | the summary is the run joined with single spaces, or '' without a heading |
| ResumeParser.SummaryOf | server/utils/resumeParser.js:82-108 | what `extractSummary` returns: the summary run joined with single spaces |
| ResumeParser.SummaryWithoutBody | server/utils/resumeParser.js:95-107 | no heading, or a heading on the last line, gives '' |
| ResumeParser.JoinWithSpaces | server/utils/resumeParser.js:104 | joining two or more lines puts exactly one space after the first |
| ResumeParser.SkillVocabularyWellFormed | server/utils/resumeParser.js:111-119 | the vocabulary has 45 distinct terms, none starting with an upper-case letter |
| ResumeParser.SkillsOf | server/utils/resumeParser.js:110-135 | what `extractSkillsFromResume` returns: one record per vocabulary term found in the lower-cased text, in vocabulary order, named by the capitalised term |
| ResumeParser.SkillsOfShape | server/utils/resumeParser.js:110-135 | at most 45 skills, in vocabulary order, with no repetition; each is the capitalised term with level 'Intermediate' and no years; every term that occurs in the lower-cased text is found |
| ResumeParser.ExtractSkillsFromResume | server/utils/resumeParser.js:121-134 | the `forEach` with conditional `push` computes those skills |
| ResumeParser.CommonLanguagesDistinct | server/utils/resumeParser.js:249 | the seven language names are distinct |
| ResumeParser.LanguagesOf | server/utils/resumeParser.js:248-263 | what `extractLanguages` returns: one 'Fluent' record per listed name whose lower-cased form occurs in the lower-cased text, in list order |
| ResumeParser.LanguagesOfShape | server/utils/resumeParser.js:248-263 | at most 7 languages: a subsequence of the list, no repetition, each 'Fluent', and every language that occurs is found |
| ResumeParser.ExtractLanguages | server/utils/resumeParser.js:251-262 | the `forEach` with conditional `push` computes those languages |
| ResumeParser.SplitOnSeparators | server/utils/resumeParser.js:162 | no piece holds '\|' or '-'; a line with a separator gives at least two pieces |
| ResumeParser.SplitOnSeparatorsWeave | server/utils/resumeParser.js:162 | the line is its pieces with a match of `\s*[\|-]\s*` between each two of them, and the first piece is the line up to the first match |
| ResumeParser.SplitOnSeparatorsEdges | server/utils/resumeParser.js:162 | the matches take all the whitespace next to the separators: no piece after a match starts with whitespace, and no piece before one ends with it |
| ResumeParser.WorkLineEntry | server/utils/resumeParser.js:153-174 | one pass of the loop body pushes the record of the line exactly when it is a work line, and nothing otherwise |
| ResumeParser.WorkRecordShape | server/utils/resumeParser.js:161-173 | a record has trimmed title, company and location, without separators in title and company, and no dates or description; it is current exactly when the lower-cased line contains 'present'; with two pieces the location is '' |
| ResumeParser.WorkRecordTitle | server/utils/resumeParser.js:162-165 | the job title is the line up to the first separator match, trimmed |
| ResumeParser.WorkRecords | server/utils/resumeParser.js:152-175 | the records of the trimmed lines, line by line; never more records than lines |
| ResumeParser.WorkRecordsSpec | server/utils/resumeParser.js:152-175 | exactly one record, in order, per line that is non-empty, not a long all-capitals line, and contains '\|' or '-' |
| ResumeParser.WorkAfter | server/utils/resumeParser.js:152-175 | the loop with `continue` and `push` computes those records |
| ResumeParser.ExtractWorkExperience | server/utils/resumeParser.js:137-179 | no heading gives no records, otherwise the records of the lines after it |
| ResumeParser.WorkOf | server/utils/resumeParser.js:137-179 | what `extractWorkExperience` returns: no records without a heading, otherwise the records of the trimmed lines after the first heading |
| ResumeParser.EducationOf | server/utils/resumeParser.js:181-213 | at most 10 entries, degree 'Bachelor', no field or dates, the schools being the window of 10 lines after the heading |
| ResumeParser.EducationWindow | server/utils/resumeParser.js:198-209 | the collecting loop gives one entry per non-empty trimmed line of the window, in order |
| ResumeParser.ExtractEducation | server/utils/resumeParser.js:181-213 | heading search and window together give those entries |
| ResumeParser.CertificationsOf | server/utils/resumeParser.js:215-246 | at most 5 entries, empty issuer and credentials, no dates, the names being the window of 5 lines |
| ResumeParser.CertificationWindow | server/utils/resumeParser.js:230-242 | one certification per non-empty trimmed line of the window, in order |
| ResumeParser.ExtractCertifications | server/utils/resumeParser.js:215-246 | heading search and window together give those entries |
| ResumeParser.ProjectsOf | server/utils/resumeParser.js:265-294 | at most 5 projects, with empty description, technologies and link, the names being the window of 5 lines |
| ResumeParser.ProjectWindow | server/utils/resumeParser.js:280-290 | one project per non-empty trimmed line of the window, in order |
| ResumeParser.ExtractProjects | server/utils/resumeParser.js:265-294 | heading search and window together give those projects |
| ResumeParser.ParseResume | server/utils/resumeParser.js:6-27 | the profile is the fourteen extractors applied to the text, a missing text read as '' |
| ResumeParser.ProfileOf | server/utils/resumeParser.js:6-27 | the parsed profile: each field is its extractor applied to the text or to its lines |
| ResumeParser.ParseEmptyText | server/utils/resumeParser.js:6-27 | a missing or empty text gives '' in every string field and an empty list in every list field |
| ResumeKeywords.Keywords | server/controllers/resume.controller.js:6-11 | a missing or empty text gives no keywords; otherwise the keywords are the first 50, or all when fewer, of the distinct eligible words in order of first occurrence |
| ResumeKeywords.Tokens | server/controllers/resume.controller.js:8 | the words of the lower-cased text, split at whitespace runs |
| ResumeKeywords.EligibleTokens | server/controllers/resume.controller.js:10 | the words longer than three characters that are not stopwords, repetitions included, in order |
| ResumeKeywords.Unique | server/controllers/resume.controller.js:10 | `[...new Set(s)]` holds exactly the elements of `s`, and no more of them |
| ResumeKeywords.UniqueDistinct | server/controllers/resume.controller.js:10 | `Unique` repeats nothing |
| ResumeKeywords.UniqueOrder | server/controllers/resume.controller.js:10 | `Unique` keeps the order of first occurrences |
| ResumeKeywords.KeywordsInFirstOccurrenceOrder | server/controllers/resume.controller.js:8-10 | keywords do not repeat, are words of the lower-cased text, and follow the order in which they first occur there |
| ResumeKeywords.KeywordsAreEligible | server/controllers/resume.controller.js:8-10 | every keyword is longer than 3, lower-case, free of whitespace, and not a stopword |
| ResumeKeywords.KeywordsAreWords | server/controllers/resume.controller.js:8-10 | every keyword occurs in the lower-cased text as a whole word |
| ResumeKeywords.KeywordsComplete | server/controllers/resume.controller.js:10 | with at most 50 distinct eligible words, every eligible word is a keyword |
| ResumeKeywords.KeywordsCount | server/controllers/resume.controller.js:10 | there are as many keywords as distinct eligible words, up to 50 |
| ResumeKeywords.KeywordsFirstFifty | server/controllers/resume.controller.js:10 | every eligible word left out first occurs after every keyword |
| Validation.DomainSuffixShape | server/middleware/validation.js:2 | a `(\.\w{2,3})+` string holds only word characters and dots, and ends with '.' and 2 or 3 word characters |
| Validation.DomainShape | server/middleware/validation.js:2 | the part after '@' holds only word characters, '.' and '-', and has that ending |
| Validation.ValidateEmail | server/middleware/validation.js:1-4 | an address is accepted exactly when it splits at an '@' into a local part of word-character runs joined by at most one '.' or '-' each, and a domain of the same form followed by one or more groups of '.' and 2 or 3 word characters |
| Validation.EmailShape | server/middleware/validation.js:1-4 | an accepted address has exactly one '@', starts with a word character, ends with '.' and 2 or 3 word characters, and uses only word characters, '.', '-' and '@' |
| Validation.EmailAccepted | server/middleware/validation.js:1-4 | 'jo.doe@mail.co.uk' is accepted |
| Validation.EmailWithoutDotRefused | server/middleware/validation.js:1-4 | an address without a '.' is refused |
| Validation.HasCharIn | server/middleware/validation.js:8 | a one-range regex test holds exactly when some character lies in the range |
| Validation.ValidatePassword | server/middleware/validation.js:6-9 | a password is accepted exactly when it has at least 6 characters, an upper-case letter, a lower-case letter and a digit |
| Validation.JobFormErrors | server/middleware/validation.js:12-32 | at most 5 messages |
| Validation.ValidateJobForm | server/middleware/validation.js:11-38 | the conditional pushes collect the failing checks' messages, and `isValid` holds exactly when none is collected |
| Validation.JobFormErrorsSpec | server/middleware/validation.js:12-32 | each message is present exactly when its check fails; the messages keep the order title, description, category, level, location; no message exactly when every check passes |
| Validation.BlankTitleFails | server/middleware/validation.js:14-16 | a title of whitespace only fails |
| Validation.ApplicationFormErrors | server/middleware/validation.js:40-49 | at most 2 messages |
| Validation.ValidateApplicationForm | server/middleware/validation.js:40-55 | the conditional pushes collect the missing ids' messages, and `isValid` holds exactly when none is collected |
| Validation.ApplicationFormErrorsSpec | server/middleware/validation.js:43-49 | the form is valid exactly when both ids are present; each message is present exactly when its id is missing; with two messages the job id comes first |

## Left out

- Case mapping: `toLowerCase` and `toUpperCase` are modelled on ASCII letters only. Other characters are left unchanged. Full Unicode case mapping is a table outside the code.
- String lengths count characters. JavaScript counts UTF-16 code units, so the two differ only outside the Basic Multilingual Plane.
- Floating point: scores, weights and year counts are exact reals. Rounding artefacts of IEEE arithmetic are not modelled.
- AiMatching.RequiredYears: level names that are keys of `Object.prototype`, such as 'constructor', are not modelled. Such a key would give an object instead of a number.
- Dates: a date field is null (the epoch), an instant, or an invalid value. Date parsing itself and the clock are outside the model; "now" is a parameter.
- Exceptions in the matching engine: the model covers only `toLowerCase` on a skill name that is not a string. A resume or job field of the wrong type (a non-array list, a non-string text) is not modelled, and missing lists and texts are taken as empty, as the code's `|| []` and `|| ''` make them.
- Non-string input: the validators, the resume parser and the keyword helper are modelled for string input and absent input only. Truthy values of other types (numbers, objects), on which `trim`, `length`, `split` or `toLowerCase` would throw or behave differently, are not modelled. `validateEmail` and `validatePassword` take strings.
- The e-mail, phone and website patterns are modelled by a small backtracking matcher. Its `Repeat` node is greedy with backtracking, which fixes which match `match` returns. The patterns are written out as node sequences, not parsed from regex text.
- `split(/\s*[|\-]\s*/)`: modelled directly as a scan for separators with the whitespace around them, not through the regex matcher.
- `degreeTypes` (server/utils/resumeParser.js:184) and `degreeKeywords` (server/utils/aiMatching.js:83) are declared there but never used, so they are absent from the model.
- Logging in the `catch` block (`console.error`) is left out.
