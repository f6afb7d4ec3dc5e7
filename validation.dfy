/** The input validators of the server middleware: the e-mail pattern, the
    password rule, and the job and application form checks, which collect
    their error messages in a fixed order. */
module Validation {
  import opened Wrappers
  import opened SeqUtil
  import opened JsText

  // ---------------------------------------------------------------------
  // validateEmail
  // ---------------------------------------------------------------------

  /** The characters `[\.-]`. */
  predicate IsDotOrDash(c: char) { c == '.' || c == '-' }

  /** The language of `\w+([\.-]?\w+)*`: runs of word characters, with at
      most one '.' or '-' between two runs. */
  predicate DottedWords(s: string) {
    |s| > 0 && IsWordChar(s[0]) && IsWordChar(s[|s| - 1]) &&
    (forall i :: 0 <= i < |s| ==> IsWordChar(s[i]) || IsDotOrDash(s[i])) &&
    (forall i :: 0 < i < |s| ==> AfterWordChar(s, i))
  }

  /** A '.' or '-' at `i` follows a word character. */
  predicate AfterWordChar(s: string, i: int)
    requires 0 < i < |s|
  {
    IsDotOrDash(s[i]) ==> IsWordChar(s[i - 1])
  }

  /** The language of `(\.\w{2,3})+`: one or more pieces, each a '.'
      followed by two or three word characters. */
  predicate DomainSuffix(t: string)
    decreases |t|
  {
    |t| >= 3 && t[0] == '.' && IsWordChar(t[1]) && IsWordChar(t[2]) &&
    (|t| == 3 || DomainSuffix(t[3..]) ||
     (IsWordChar(t[3]) && (|t| == 4 || DomainSuffix(t[4..]))))
  }

  /** The language of `\w+([\.-]?\w+)*(\.\w{2,3})+`: dotted words followed
      by one or more short suffixes. */
  predicate IsDomain(d: string) {
    exists k | 0 <= k <= |d| :: DottedWords(d[..k]) && DomainSuffix(d[k..])
  }

  /** `validateEmail(email)`: the whole string matches
      `^\w+([\.-]?\w+)*@\w+([\.-]?\w+)*(\.\w{2,3})+$`, that is, it is a
      local part of dotted words, an '@', and a domain. */
  predicate ValidateEmail(email: string) {
    exists a | 0 <= a < |email| :: email[a] == '@' && DottedWords(email[..a]) && IsDomain(email[a + 1..])
  }

  /** The characters an accepted address may hold. */
  predicate IsEmailChar(c: char) { IsWordChar(c) || IsDotOrDash(c) || c == '@' }

  /** A domain holds only word characters, '.' and '-', and ends with a '.'
      and two or three word characters. */
  lemma DomainShape(d: string)
    requires IsDomain(d)
    ensures forall i :: 0 <= i < |d| ==> IsWordChar(d[i]) || IsDotOrDash(d[i])
    ensures EndsWithShortSuffix(d)
  {
    var k :| 0 <= k <= |d| && DottedWords(d[..k]) && DomainSuffix(d[k..]);
    var host, suffix := d[..k], d[k..];
    DomainSuffixShape(suffix);
    forall i | 0 <= i < |d| ensures IsWordChar(d[i]) || IsDotOrDash(d[i]) {
      if i < k { assert d[i] == host[i]; } else { assert d[i] == suffix[i - k]; }
    }
    assert d == host + suffix;
    ShortSuffixExtends(host, suffix);
  }

  /** A domain suffix holds only word characters and dots, and ends with a
      '.' and two or three word characters. */
  lemma {:induction false} DomainSuffixShape(t: string)
    requires DomainSuffix(t)
    ensures forall i :: 0 <= i < |t| ==> IsWordChar(t[i]) || t[i] == '.'
    ensures EndsWithShortSuffix(t)
    decreases |t|
  {
    if |t| > 3 && DomainSuffix(t[3..]) {
      DomainSuffixShape(t[3..]);
      assert forall i :: 3 <= i < |t| ==> t[i] == t[3..][i - 3];
    } else if |t| > 4 && IsWordChar(t[3]) && DomainSuffix(t[4..]) {
      DomainSuffixShape(t[4..]);
      assert forall i :: 4 <= i < |t| ==> t[i] == t[4..][i - 4];
    }
  }

  /** `s` ends with '.' and two or three word characters. */
  predicate EndsWithShortSuffix(s: string) {
    var n := |s|;
    (n >= 3 && s[n - 3] == '.' && IsWordChar(s[n - 2]) && IsWordChar(s[n - 1])) ||
    (n >= 4 && s[n - 4] == '.' && IsWordChar(s[n - 3]) && IsWordChar(s[n - 2]) && IsWordChar(s[n - 1]))
  }

  /** Whatever comes in front, a string keeps its short suffix. */
  lemma ShortSuffixExtends(p: string, s: string)
    requires EndsWithShortSuffix(s)
    ensures EndsWithShortSuffix(p + s)
  {
    var n, m := |p + s|, |s|;
    assert (p + s)[n - 3] == s[m - 3] && (p + s)[n - 2] == s[m - 2] && (p + s)[n - 1] == s[m - 1];
    if m >= 4 { assert (p + s)[n - 4] == s[m - 4]; }
  }

  /** An accepted address is a local part, an '@' and a domain, neither of
      which holds an '@'. */
  lemma EmailParts(email: string) returns (local: string, domain: string)
    requires ValidateEmail(email)
    ensures email == local + ['@'] + domain
    ensures DottedWords(local) && IsDomain(domain)
  {
    var a :| 0 <= a < |email| && email[a] == '@' && DottedWords(email[..a]) && IsDomain(email[a + 1..]);
    local, domain := email[..a], email[a + 1..];
    assert email == local + ['@'] + domain;
  }

  /** An accepted address has exactly one '@', starts with a word
      character, ends with a '.' and two or three word characters, and holds
      only word characters, '.', '-' and '@'. */
  lemma EmailShape(email: string)
    requires ValidateEmail(email)
    ensures multiset(email)['@'] == 1
    ensures IsWordChar(email[0])
    ensures EndsWithShortSuffix(email)
    ensures forall i :: 0 <= i < |email| ==> IsEmailChar(email[i])
  {
    var local, domain := EmailParts(email);
    DomainShape(domain);
    assert email[0] == local[0];
    ShortSuffixExtends(local + ['@'], domain);
    JoinAtChars(local, domain);
  }

  /** Two pieces without '@' joined by an '@' hold exactly one '@', and
      only the characters of an address when the pieces do. */
  lemma JoinAtChars(local: string, domain: string)
    requires forall i :: 0 <= i < |local| ==> IsWordChar(local[i]) || IsDotOrDash(local[i])
    requires forall i :: 0 <= i < |domain| ==> IsWordChar(domain[i]) || IsDotOrDash(domain[i])
    ensures multiset(local + ['@'] + domain)['@'] == 1
    ensures forall i :: 0 <= i < |local + ['@'] + domain| ==> IsEmailChar((local + ['@'] + domain)[i])
  {
    var email := local + ['@'] + domain;
    assert '@' !in local by {
      assert forall i :: 0 <= i < |local| ==> local[i] != '@';
    }
    assert '@' !in domain by {
      assert forall i :: 0 <= i < |domain| ==> domain[i] != '@';
    }
    assert multiset(email) == multiset(local) + multiset{'@'} + multiset(domain);
    forall i | 0 <= i < |email| ensures IsEmailChar(email[i]) {
      if i < |local| {
        assert email[i] == local[i];
      } else if i > |local| {
        assert email[i] == domain[i - |local| - 1];
      }
    }
  }

  /** A typical address is accepted. */
  lemma EmailAccepted()
    ensures ValidateEmail("jo.doe@mail.co.uk")
  {
    var e := "jo.doe@mail.co.uk";
    assert e[6] == '@';
    assert e[..6] == "jo.doe" && DottedWords("jo.doe");
    var d := e[7..];
    assert d == "mail.co.uk";
    assert d[..4] == "mail" && DottedWords("mail");
    assert d[4..] == ".co.uk";
    assert DomainSuffix(".uk");
    assert ".co.uk"[3..] == ".uk";
    assert DomainSuffix(".co.uk");
    assert IsDomain(d);
  }

  /** An address without a dot is refused. */
  lemma EmailWithoutDotRefused(email: string)
    requires '.' !in email
    ensures !ValidateEmail(email)
  {
    if ValidateEmail(email) {
      EmailShape(email);
    }
  }

  // ---------------------------------------------------------------------
  // validatePassword
  // ---------------------------------------------------------------------

  /** `/[lo-hi]/.test(s)`: some character of `s` lies in the range. */
  function HasCharIn(s: string, lo: char, hi: char): (r: bool)
    ensures r <==> exists i | 0 <= i < |s| :: lo <= s[i] <= hi
    decreases |s|
  {
    if s == [] then false
    else if lo <= s[0] <= hi then true
    else
      assert forall i :: 1 <= i < |s| ==> s[i] == s[1..][i - 1];
      HasCharIn(s[1..], lo, hi)
  }

  /** `validatePassword(password)`. */
  function ValidatePassword(password: string): (ok: bool)
    ensures ok <==> |password| >= 6 &&
                    (exists i | 0 <= i < |password| :: IsUpper(password[i])) &&
                    (exists i | 0 <= i < |password| :: IsLower(password[i])) &&
                    (exists i | 0 <= i < |password| :: IsDigit(password[i]))
  {
    |password| >= 6 && HasCharIn(password, 'A', 'Z') && HasCharIn(password, 'a', 'z') &&
    HasCharIn(password, '0', '9')
  }

  // ---------------------------------------------------------------------
  // Form validators
  // ---------------------------------------------------------------------

  /** The truthiness test `!x` negates, for a field that is absent (None)
      or a string. */
  predicate Truthy(v: Option<string>) { v.Some? && v.value != "" }

  datatype JobLocation = JobLocation(city: Option<string>)

  /** The fields of `jobData` that the validator reads. */
  datatype JobForm = JobForm(
    title: Option<string>, description: Option<string>, category: Option<string>,
    experienceLevel: Option<string>, location: Option<JobLocation>)

  datatype ApplicationForm = ApplicationForm(jobId: Option<string>, resumeId: Option<string>)

  /** The `{ isValid, errors }` object the validators return. */
  datatype Verdict = Verdict(isValid: bool, errors: seq<string>)

  const TitleError := "Job title must be at least 5 characters"
  const DescriptionError := "Job description must be at least 50 characters"
  const CategoryError := "Job category is required"
  const LevelError := "Experience level is required"
  const LocationError := "Job location is required"
  const JobIdError := "Job ID is required"
  const ResumeError := "Resume is required"

  /** The job form's messages in the order the checks run. */
  const JobFormMessages: seq<string> := [TitleError, DescriptionError, CategoryError, LevelError, LocationError]

  predicate TitleFails(job: JobForm) {
    !Truthy(job.title) || |Trim(job.title.value)| < 5
  }

  predicate DescriptionFails(job: JobForm) {
    !Truthy(job.description) || |Trim(job.description.value)| < 50
  }

  predicate CategoryFails(job: JobForm) { !Truthy(job.category) }

  predicate LevelFails(job: JobForm) { !Truthy(job.experienceLevel) }

  predicate LocationFails(job: JobForm) {
    job.location.None? || !Truthy(job.location.value.city)
  }

  /** `[m]` when `failed`, `[]` otherwise. */
  function When(failed: bool, m: string): seq<string> {
    if failed then [m] else []
  }

  /** The messages of the failing checks, in the order of the checks. */
  function JobFormErrors(job: JobForm): (errors: seq<string>)
    ensures |errors| <= 5
  {
    When(TitleFails(job), TitleError) + When(DescriptionFails(job), DescriptionError) +
    When(CategoryFails(job), CategoryError) + When(LevelFails(job), LevelError) +
    When(LocationFails(job), LocationError)
  }

  /** `validateJobForm(jobData)`: the checks push their messages one after
      the other. */
  method ValidateJobForm(job: JobForm) returns (result: Verdict)
    ensures result.errors == JobFormErrors(job)
    ensures result.isValid <==> result.errors == []
  {
    var errors: seq<string> := [];
    if job.title.None? || job.title.value == "" || |Trim(job.title.value)| < 5 {
      errors := errors + [TitleError];
    }
    ghost var e1 := errors;
    assert e1 == When(TitleFails(job), TitleError);
    if job.description.None? || job.description.value == "" || |Trim(job.description.value)| < 50 {
      errors := errors + [DescriptionError];
    }
    ghost var e2 := errors;
    assert e2 == e1 + When(DescriptionFails(job), DescriptionError);
    if job.category.None? || job.category.value == "" {
      errors := errors + [CategoryError];
    }
    ghost var e3 := errors;
    assert e3 == e2 + When(CategoryFails(job), CategoryError);
    if job.experienceLevel.None? || job.experienceLevel.value == "" {
      errors := errors + [LevelError];
    }
    ghost var e4 := errors;
    assert e4 == e3 + When(LevelFails(job), LevelError);
    if job.location.None? || job.location.value.city.None? || job.location.value.city.value == "" {
      errors := errors + [LocationError];
    }
    assert errors == e4 + When(LocationFails(job), LocationError);
    return Verdict(|errors| == 0, errors);
  }

  /** Each message is reported exactly when its check fails, the messages
      keep the order of the checks, and the form is valid exactly when every
      check passes. */
  lemma JobFormErrorsSpec(job: JobForm)
    ensures var e := JobFormErrors(job);
            (TitleError in e <==> TitleFails(job)) &&
            (DescriptionError in e <==> DescriptionFails(job)) &&
            (CategoryError in e <==> CategoryFails(job)) &&
            (LevelError in e <==> LevelFails(job)) &&
            (LocationError in e <==> LocationFails(job))
    ensures IsSubsequence(JobFormErrors(job), JobFormMessages)
    ensures JobFormErrors(job) == [] <==>
            !TitleFails(job) && !DescriptionFails(job) && !CategoryFails(job) &&
            !LevelFails(job) && !LocationFails(job)
  {
    var t, d, c, l, o := TitleFails(job), DescriptionFails(job), CategoryFails(job), LevelFails(job), LocationFails(job);
    var e := JobFormErrors(job);
    assert e == When(t, TitleError) + When(d, DescriptionError) + When(c, CategoryError) +
                When(l, LevelError) + When(o, LocationError);
    WhenSubsequence(t, d, c, l, o, JobFormMessages);
  }

  /** Five conditional messages, concatenated, are a subsequence of the
      five messages. */
  lemma {:induction false} WhenSubsequence(t: bool, d: bool, c: bool, l: bool, o: bool, m: seq<string>)
    requires |m| == 5
    ensures IsSubsequence(When(t, m[0]) + When(d, m[1]) + When(c, m[2]) + When(l, m[3]) + When(o, m[4]), m)
  {
    var tail1 := When(o, m[4]);
    var tail2 := When(l, m[3]) + tail1;
    var tail3 := When(c, m[2]) + tail2;
    var tail4 := When(d, m[1]) + tail3;
    assert m[4..][1..] == [];
    StepSubsequence(o, m[4], [], m[4..]);
    assert When(o, m[4]) + [] == tail1;
    assert m[3..][1..] == m[4..];
    StepSubsequence(l, m[3], tail1, m[3..]);
    assert m[2..][1..] == m[3..];
    StepSubsequence(c, m[2], tail2, m[2..]);
    assert m[1..][1..] == m[2..];
    StepSubsequence(d, m[1], tail3, m[1..]);
    StepSubsequence(t, m[0], tail4, m);
    assert When(t, m[0]) + tail4 ==
           When(t, m[0]) + When(d, m[1]) + When(c, m[2]) + When(l, m[3]) + When(o, m[4]);
  }

  /** Putting an optional head in front keeps a subsequence. */
  lemma StepSubsequence(f: bool, m: string, rest: seq<string>, all: seq<string>)
    requires all != [] && all[0] == m && IsSubsequence(rest, all[1..])
    ensures IsSubsequence(When(f, m) + rest, all)
  {
    if f {
      assert (When(f, m) + rest)[0] == m && (When(f, m) + rest)[1..] == rest;
    } else {
      assert When(f, m) + rest == rest;
      SkipHead(rest, all);
    }
  }

  /** A subsequence of the tail is a subsequence of the whole. */
  lemma SkipHead<T>(a: seq<T>, b: seq<T>)
    requires b != [] && IsSubsequence(a, b[1..])
    ensures IsSubsequence(a, b)
  {
  }

  /** A title of whitespace only fails, however long it is. */
  lemma BlankTitleFails(job: JobForm)
    requires job.title.Some? && forall i :: 0 <= i < |job.title.value| ==> IsSpace(job.title.value[i])
    ensures TitleFails(job)
  {
    TrimEmpty(job.title.value);
  }

  /** The application form's checks. */
  function ApplicationFormErrors(app: ApplicationForm): (errors: seq<string>)
    ensures |errors| <= 2
  {
    When(!Truthy(app.jobId), JobIdError) + When(!Truthy(app.resumeId), ResumeError)
  }

  /** `validateApplicationForm(appData)`. */
  method ValidateApplicationForm(app: ApplicationForm) returns (result: Verdict)
    ensures result.errors == ApplicationFormErrors(app)
    ensures result.isValid <==> result.errors == []
  {
    var errors: seq<string> := [];
    if app.jobId.None? || app.jobId.value == "" {
      errors := errors + [JobIdError];
    }
    if app.resumeId.None? || app.resumeId.value == "" {
      errors := errors + [ResumeError];
    }
    return Verdict(|errors| == 0, errors);
  }

  /** The application form is valid exactly when both ids are present; the
      job id message comes first. */
  lemma ApplicationFormErrorsSpec(app: ApplicationForm)
    ensures ApplicationFormErrors(app) == [] <==> Truthy(app.jobId) && Truthy(app.resumeId)
    ensures (JobIdError in ApplicationFormErrors(app) <==> !Truthy(app.jobId)) &&
            (ResumeError in ApplicationFormErrors(app) <==> !Truthy(app.resumeId))
    ensures |ApplicationFormErrors(app)| == 2 ==> ApplicationFormErrors(app) == [JobIdError, ResumeError]
  {
  }
}
