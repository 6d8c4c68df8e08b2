/** The zod schemas of lib/validations/schemas.ts, with zod 3 behaviour.

    A zod string schema is a chain of checks and transformations that zod
    runs in the order they were declared: every failed check adds one
    issue (a failed check does not stop the chain), and `.trim()`
    replaces the current value at the point where it stands. So in
    `.min(1).max(200).trim()` the bounds test the RAW string and the
    value produced is the trimmed one. `RunChecks` makes that order
    explicit; each field function below is one declared chain. */
module Schemas {
  import opened Common
  import opened JsStrings

  /** One link of a zod string chain. */
  datatype StringCheck =
    | MinLength(bound: nat, message: string)
    | MaxLength(bound: nat, message: string)
    | EmailFormat(message: string)
    | PasswordPattern(message: string)
    | TrimValue

  /** A zod issue: the object path of the offending value and its message. */
  datatype Issue = Issue(path: seq<string>, message: string)

  /** The outcome of `schema.safeParse`: the parsed value, or the issues. */
  datatype Validated<T> = Valid(value: T) | Invalid(issues: seq<Issue>)

  /** What is left after running a chain: the (possibly trimmed) value and
      the messages of the checks that failed, in chain order. */
  datatype ChainResult = ChainResult(output: string, failures: seq<string>)

  /** zod 3's message for a required key that is missing from the object. */
  const RequiredMessage := "Required"

  /** Some character of `s` at an index in `start`..`stop`-1 lies in the
      range `lo`..`hi` (a regular expression character class such as
      `[a-z]`, tried over part of the string). */
  function HasCharIn(s: string, start: nat, stop: nat, lo: char, hi: char): bool
    requires start <= stop <= |s|
    decreases stop - start
  {
    if start == stop then false
    else if lo <= s[start] <= hi then true
    else HasCharIn(s, start + 1, stop, lo, hi)
  }

  /** `HasCharIn` is the existence of a character in range. */
  lemma {:induction false} HasCharInMeans(s: string, start: nat, stop: nat, lo: char, hi: char)
    requires start <= stop <= |s|
    ensures HasCharIn(s, start, stop, lo, hi) <==> (exists i :: start <= i < stop && lo <= s[i] <= hi)
    decreases stop - start
  {
    if start < stop && !(lo <= s[start] <= hi) {
      HasCharInMeans(s, start + 1, stop, lo, hi);
    }
  }

  /** `/^(?=.*[a-z])(?=.*[A-Z])(?=.*\d)/.test(s)`. Each lookahead starts at
      position 0 and `.` does not match a line terminator, so the three
      classes have to occur before the first line terminator. */
  predicate MatchesPasswordPattern(s: string)
  {
    var e := LineEnd(s, 0);
    HasCharIn(s, 0, e, 'a', 'z') && HasCharIn(s, 0, e, 'A', 'Z') && HasCharIn(s, 0, e, '0', '9')
  }

  /** Whether one check accepts the current value; `isEmail` stands for
      zod's built-in email regular expression. */
  predicate Passes(check: StringCheck, s: string, isEmail: string -> bool)
  {
    match check
    case MinLength(bound, _) => |s| >= bound
    case MaxLength(bound, _) => |s| <= bound
    case EmailFormat(_) => isEmail(s)
    case PasswordPattern(_) => MatchesPasswordPattern(s)
    case TrimValue => true
  }

  /** The email predicate given to chains without an `.email()` check, where
      it is never consulted. */
  function NoEmailCheck(s: string): bool
  {
    false
  }

  /** The issue message one check contributes: none, or its own message. */
  function FailureOf(check: StringCheck, s: string, isEmail: string -> bool): (r: seq<string>)
    ensures r == [] <==> Passes(check, s, isEmail)
    ensures r != [] ==> r == [check.message]
  {
    if Passes(check, s, isEmail) then [] else [check.message]
  }

  /** Run a chain in declaration order. */
  function RunChecks(checks: seq<StringCheck>, s: string, isEmail: string -> bool): (r: ChainResult)
    ensures |r.failures| <= |checks|
    decreases |checks|
  {
    if checks == [] then ChainResult(s, [])
    else if checks[0].TrimValue? then RunChecks(checks[1..], Trim(s), isEmail)
    else
      var rest := RunChecks(checks[1..], s, isEmail);
      ChainResult(rest.output, FailureOf(checks[0], s, isEmail) + rest.failures)
  }

  /** One issue per failed check, all at path `[key]`. */
  function IssuesAt(key: string, messages: seq<string>): (r: seq<Issue>)
    ensures |r| == |messages|
    ensures forall i :: 0 <= i < |r| ==> r[i] == Issue([key], messages[i])
  {
    seq(|messages|, i requires 0 <= i < |messages| => Issue([key], messages[i]))
  }

  function IssuesOf<T>(v: Validated<T>): seq<Issue>
  {
    if v.Invalid? then v.issues else []
  }

  /** A required string key: a missing key is one "Required" issue,
      otherwise the chain decides. */
  function StringField(key: string, input: Option<string>, checks: seq<StringCheck>,
                       isEmail: string -> bool): (r: Validated<string>)
    ensures r.Invalid? ==> |r.issues| > 0
    ensures input.None? ==> r == Invalid([Issue([key], RequiredMessage)])
    ensures forall i :: 0 <= i < |IssuesOf(r)| ==> IssuesOf(r)[i].path == [key]
    ensures input.Some? ==>
              var c := RunChecks(checks, input.value, isEmail);
              && (r.Valid? <==> c.failures == [])
              && (r.Valid? ==> r.value == c.output)
              && IssuesOf(r) == IssuesAt(key, c.failures)
  {
    if input.None? then Invalid([Issue([key], RequiredMessage)])
    else
      var c := RunChecks(checks, input.value, isEmail);
      if c.failures == [] then Valid(c.output) else Invalid(IssuesAt(key, c.failures))
  }

  /** A string key followed by `.optional()`: a missing key is accepted and
      stays missing. */
  function OptionalStringField(key: string, input: Option<string>, checks: seq<StringCheck>,
                               isEmail: string -> bool): (r: Validated<Option<string>>)
    ensures r.Invalid? ==> |r.issues| > 0
    ensures input.None? ==> r == Valid(None)
    ensures input.Some? ==>
              var f := StringField(key, input, checks, isEmail);
              && (r.Valid? <==> f.Valid?)
              && (r.Valid? ==> r.value == Some(f.value))
              && IssuesOf(r) == IssuesOf(f)
  {
    if input.None? then Valid(None)
    else
      match StringField(key, input, checks, isEmail)
      case Valid(v) => Valid(Some(v))
      case Invalid(issues) => Invalid(issues)
  }

  // ---------------------------------------------------------------------
  // Unfolding chains

  lemma RunChecksCons(c: StringCheck, rest: seq<StringCheck>, s: string, isEmail: string -> bool)
    ensures RunChecks([c] + rest, s, isEmail)
         == if c.TrimValue? then RunChecks(rest, Trim(s), isEmail)
            else ChainResult(RunChecks(rest, s, isEmail).output,
                             FailureOf(c, s, isEmail) + RunChecks(rest, s, isEmail).failures)
  {
    assert ([c] + rest)[0] == c;
    assert ([c] + rest)[1..] == rest;
  }

  /** Two checks with no `.trim()` between them: the value is unchanged and
      each failed check contributes its message, in order. */
  lemma TwoChecks(a: StringCheck, b: StringCheck, s: string, isEmail: string -> bool)
    requires !a.TrimValue? && !b.TrimValue?
    ensures RunChecks([a, b], s, isEmail)
         == ChainResult(s, FailureOf(a, s, isEmail) + FailureOf(b, s, isEmail))
  {
    RunChecksCons(b, [], s, isEmail);
    assert [b] + [] == [b];
    RunChecksCons(a, [b], s, isEmail);
    assert [a] + [b] == [a, b];
  }

  /** The same for three checks. */
  lemma ThreeChecks(a: StringCheck, b: StringCheck, c: StringCheck, s: string, isEmail: string -> bool)
    requires !a.TrimValue? && !b.TrimValue? && !c.TrimValue?
    ensures RunChecks([a, b, c], s, isEmail)
         == ChainResult(s, FailureOf(a, s, isEmail) + FailureOf(b, s, isEmail) + FailureOf(c, s, isEmail))
  {
    TwoChecks(b, c, s, isEmail);
    RunChecksCons(a, [b, c], s, isEmail);
    assert [a] + [b, c] == [a, b, c];
  }

  /** `.trim()` alone: no issue, the trimmed value. */
  lemma TrimOnly(s: string, isEmail: string -> bool)
    ensures RunChecks([TrimValue], s, isEmail) == ChainResult(Trim(s), [])
  {
    RunChecksCons(TrimValue, [], s, isEmail);
    assert [TrimValue] + [] == [TrimValue];
  }

  /** A check followed by `.trim()`: the check sees the raw value. */
  lemma CheckThenTrim(b: StringCheck, s: string, isEmail: string -> bool)
    requires !b.TrimValue?
    ensures RunChecks([b, TrimValue], s, isEmail) == ChainResult(Trim(s), FailureOf(b, s, isEmail))
  {
    TrimOnly(s, isEmail);
    RunChecksCons(b, [TrimValue], s, isEmail);
    assert [b] + [TrimValue] == [b, TrimValue];
  }

  /** `.min(lo).max(hi).trim()`: both bounds test the raw string, and the
      value produced is the trimmed string. */
  lemma BoundsThenTrim(a: StringCheck, b: StringCheck, s: string, isEmail: string -> bool)
    requires !a.TrimValue? && !b.TrimValue?
    ensures RunChecks([a, b, TrimValue], s, isEmail)
         == ChainResult(Trim(s), FailureOf(a, s, isEmail) + FailureOf(b, s, isEmail))
  {
    CheckThenTrim(b, s, isEmail);
    RunChecksCons(a, [b, TrimValue], s, isEmail);
    assert [a] + [b, TrimValue] == [a, b, TrimValue];
  }

  /** `.trim().min(lo).max(hi)`: the bounds test the trimmed string. */
  lemma TrimThenBounds(a: StringCheck, b: StringCheck, s: string, isEmail: string -> bool)
    requires !a.TrimValue? && !b.TrimValue?
    ensures RunChecks([TrimValue, a, b], s, isEmail)
         == ChainResult(Trim(s), FailureOf(a, Trim(s), isEmail) + FailureOf(b, Trim(s), isEmail))
  {
    TwoChecks(a, b, Trim(s), isEmail);
    RunChecksCons(TrimValue, [a, b], s, isEmail);
    assert [TrimValue] + [a, b] == [TrimValue, a, b];
  }

  // ---------------------------------------------------------------------
  // registerSchema (lib/validations/schemas.ts:4-23)

  const EmailRequired := "Email is required"
  const EmailInvalid := "Invalid email format"
  const EmailTooLong := "Email must be less than 255 characters"
  const PasswordTooShort := "Password must be at least 8 characters"
  const PasswordTooLong := "Password must be less than 100 characters"
  const PasswordWeak := "Password must contain at least one uppercase letter, one lowercase letter, and one number"
  const NameTooLong := "Name must be less than 100 characters"

  const EmailChecks := [MinLength(1, EmailRequired), EmailFormat(EmailInvalid), MaxLength(255, EmailTooLong)]
  const PasswordChecks := [MinLength(8, PasswordTooShort), MaxLength(100, PasswordTooLong), PasswordPattern(PasswordWeak)]
  const NameChecks := [MaxLength(100, NameTooLong)]

  /** The body of `POST /api/register` as its keys arrive (a missing key is None). */
  datatype RegisterInput = RegisterInput(email: Option<string>, password: Option<string>, name: Option<string>)

  /** What `registerSchema.parse` hands on. */
  datatype RegisterData = RegisterData(email: string, password: string, name: Option<string>)

  function EmailField(input: Option<string>, isEmail: string -> bool): (r: Validated<string>)
    ensures r.Valid? <==> input.Some? && 1 <= |input.value| <= 255 && isEmail(input.value)
    ensures r.Valid? ==> r.value == input.value
    ensures input.Some? ==> IssuesOf(r) == IssuesAt("email",
              (if |input.value| < 1 then [EmailRequired] else [])
              + (if isEmail(input.value) then [] else [EmailInvalid])
              + (if |input.value| > 255 then [EmailTooLong] else []))
  {
    match input
    case None => StringField("email", input, EmailChecks, isEmail)
    case Some(v) =>
      ThreeChecks(EmailChecks[0], EmailChecks[1], EmailChecks[2], v, isEmail);
      StringField("email", input, EmailChecks, isEmail)
  }

  function PasswordField(input: Option<string>): (r: Validated<string>)
    ensures r.Valid? <==> input.Some? && 8 <= |input.value| <= 100 && MatchesPasswordPattern(input.value)
    ensures r.Valid? ==> r.value == input.value
    ensures input.Some? ==> IssuesOf(r) == IssuesAt("password",
              (if |input.value| < 8 then [PasswordTooShort] else [])
              + (if |input.value| > 100 then [PasswordTooLong] else [])
              + (if MatchesPasswordPattern(input.value) then [] else [PasswordWeak]))
  {
    match input
    case None => StringField("password", input, PasswordChecks, NoEmailCheck)
    case Some(v) =>
      ThreeChecks(PasswordChecks[0], PasswordChecks[1], PasswordChecks[2], v, NoEmailCheck);
      StringField("password", input, PasswordChecks, NoEmailCheck)
  }

  /** `z.string().max(100).optional().or(z.literal(""))`: zod tries the
      optional string first and the literal "" second; when both fail, zod 3
      reports the issues of the first alternative. */
  function NameField(input: Option<string>): (r: Validated<Option<string>>)
    ensures r.Valid? <==> input.None? || |input.value| <= 100
    ensures r.Valid? ==> r.value == input
    ensures r.Invalid? ==> r.issues == [Issue(["name"], NameTooLong)]
  {
    var first := OptionalStringField("name", input, NameChecks, NoEmailCheck);
    assert input.Some? ==> NameChecks == [NameChecks[0]] + [];
    assert input.Some? ==>
             RunChecks(NameChecks, input.value, NoEmailCheck)
             == ChainResult(input.value, FailureOf(NameChecks[0], input.value, NoEmailCheck));
    if first.Valid? then first
    else if input == Some("") then Valid(Some(""))
    else first
  }

  /** `registerSchema.safeParse(body)`: the keys are validated in the order
      email, password, name and their issues are concatenated in that order. */
  function RegisterSchema(input: RegisterInput, isEmail: string -> bool): (r: Validated<RegisterData>)
    ensures r.Valid? <==>
              && input.email.Some? && 1 <= |input.email.value| <= 255 && isEmail(input.email.value)
              && input.password.Some? && 8 <= |input.password.value| <= 100
              && MatchesPasswordPattern(input.password.value)
              && (input.name.None? || |input.name.value| <= 100)
    ensures r.Valid? ==> r.value == RegisterData(input.email.value, input.password.value, input.name)
    ensures r.Invalid? ==> |r.issues| > 0
    ensures r.Invalid? ==> r.issues == IssuesOf(EmailField(input.email, isEmail))
                                     + IssuesOf(PasswordField(input.password))
                                     + IssuesOf(NameField(input.name))
  {
    var email := EmailField(input.email, isEmail);
    var password := PasswordField(input.password);
    var name := NameField(input.name);
    if email.Valid? && password.Valid? && name.Valid? then
      Valid(RegisterData(email.value, password.value, name.value))
    else
      Invalid(IssuesOf(email) + IssuesOf(password) + IssuesOf(name))
  }

  // ---------------------------------------------------------------------
  // createNoteSchema (lib/validations/schemas.ts:26-37)

  const TitleRequired := "Title is required"
  const TitleTooLong := "Title must be less than 200 characters"
  const ContentRequired := "Content is required"
  const ContentTooLong := "Content must be less than 50,000 characters"
  const MaxTitleLength := 200
  const MaxContentLength := 50000

  const CreateTitleChecks := [MinLength(1, TitleRequired), MaxLength(MaxTitleLength, TitleTooLong), TrimValue]
  const CreateContentChecks := [MinLength(1, ContentRequired), MaxLength(MaxContentLength, ContentTooLong), TrimValue]

  /** A note body as its keys arrive: `{title, content}`, either may be missing. */
  datatype NoteInput = NoteInput(title: Option<string>, content: Option<string>)

  datatype NoteData = NoteData(title: string, content: string)

  function CreateTitleField(input: Option<string>): (r: Validated<string>)
    ensures r.Valid? <==> input.Some? && 1 <= |input.value| <= MaxTitleLength
    ensures r.Valid? ==> r.value == Trim(input.value)
    ensures input.Some? ==> IssuesOf(r) == IssuesAt("title",
              (if |input.value| < 1 then [TitleRequired] else [])
              + (if |input.value| > MaxTitleLength then [TitleTooLong] else []))
  {
    match input
    case None => StringField("title", input, CreateTitleChecks, NoEmailCheck)
    case Some(v) =>
      BoundsThenTrim(CreateTitleChecks[0], CreateTitleChecks[1], v, NoEmailCheck);
      StringField("title", input, CreateTitleChecks, NoEmailCheck)
  }

  function CreateContentField(input: Option<string>): (r: Validated<string>)
    ensures r.Valid? <==> input.Some? && 1 <= |input.value| <= MaxContentLength
    ensures r.Valid? ==> r.value == Trim(input.value)
    ensures input.Some? ==> IssuesOf(r) == IssuesAt("content",
              (if |input.value| < 1 then [ContentRequired] else [])
              + (if |input.value| > MaxContentLength then [ContentTooLong] else []))
  {
    match input
    case None => StringField("content", input, CreateContentChecks, NoEmailCheck)
    case Some(v) =>
      BoundsThenTrim(CreateContentChecks[0], CreateContentChecks[1], v, NoEmailCheck);
      StringField("content", input, CreateContentChecks, NoEmailCheck)
  }

  /** `createNoteSchema.safeParse(body)`. */
  function CreateNoteSchema(input: NoteInput): (r: Validated<NoteData>)
    ensures r.Valid? <==> && input.title.Some? && 1 <= |input.title.value| <= MaxTitleLength
                          && input.content.Some? && 1 <= |input.content.value| <= MaxContentLength
    ensures r.Valid? ==> r.value == NoteData(Trim(input.title.value), Trim(input.content.value))
    ensures r.Invalid? ==> |r.issues| > 0
    ensures r.Invalid? ==> r.issues == IssuesOf(CreateTitleField(input.title)) + IssuesOf(CreateContentField(input.content))
  {
    var title := CreateTitleField(input.title);
    var content := CreateContentField(input.content);
    if title.Valid? && content.Valid? then Valid(NoteData(title.value, content.value))
    else Invalid(IssuesOf(title) + IssuesOf(content))
  }

  // ---------------------------------------------------------------------
  // updateNoteSchema (lib/validations/schemas.ts:40-53)

  const TitleEmpty := "Title cannot be empty"
  const ContentEmpty := "Content cannot be empty"

  const UpdateTitleChecks := [MinLength(1, TitleEmpty), MaxLength(MaxTitleLength, TitleTooLong), TrimValue]
  const UpdateContentChecks := [MinLength(1, ContentEmpty), MaxLength(MaxContentLength, ContentTooLong), TrimValue]

  /** The fields a PATCH may touch; a missing field is left as it is. */
  datatype NoteUpdate = NoteUpdate(title: Option<string>, content: Option<string>)

  function UpdateTitleField(input: Option<string>): (r: Validated<Option<string>>)
    ensures input.None? ==> r == Valid(None)
    ensures input.Some? ==> (r.Valid? <==> 1 <= |input.value| <= MaxTitleLength)
    ensures r.Valid? && input.Some? ==> r.value == Some(Trim(input.value))
    ensures input.Some? ==> IssuesOf(r) == IssuesAt("title",
              (if |input.value| < 1 then [TitleEmpty] else [])
              + (if |input.value| > MaxTitleLength then [TitleTooLong] else []))
  {
    match input
    case None => OptionalStringField("title", input, UpdateTitleChecks, NoEmailCheck)
    case Some(v) =>
      BoundsThenTrim(UpdateTitleChecks[0], UpdateTitleChecks[1], v, NoEmailCheck);
      OptionalStringField("title", input, UpdateTitleChecks, NoEmailCheck)
  }

  function UpdateContentField(input: Option<string>): (r: Validated<Option<string>>)
    ensures input.None? ==> r == Valid(None)
    ensures input.Some? ==> (r.Valid? <==> 1 <= |input.value| <= MaxContentLength)
    ensures r.Valid? && input.Some? ==> r.value == Some(Trim(input.value))
    ensures input.Some? ==> IssuesOf(r) == IssuesAt("content",
              (if |input.value| < 1 then [ContentEmpty] else [])
              + (if |input.value| > MaxContentLength then [ContentTooLong] else []))
  {
    match input
    case None => OptionalStringField("content", input, UpdateContentChecks, NoEmailCheck)
    case Some(v) =>
      BoundsThenTrim(UpdateContentChecks[0], UpdateContentChecks[1], v, NoEmailCheck);
      OptionalStringField("content", input, UpdateContentChecks, NoEmailCheck)
  }

  /** `updateNoteSchema.safeParse(body)`. */
  function UpdateNoteSchema(input: NoteInput): (r: Validated<NoteUpdate>)
    ensures r.Valid? <==> && (input.title.None? || 1 <= |input.title.value| <= MaxTitleLength)
                          && (input.content.None? || 1 <= |input.content.value| <= MaxContentLength)
    ensures r.Valid? ==> && (input.title.None? ==> r.value.title.None?)
                         && (input.title.Some? ==> r.value.title == Some(Trim(input.title.value)))
                         && (input.content.None? ==> r.value.content.None?)
                         && (input.content.Some? ==> r.value.content == Some(Trim(input.content.value)))
    ensures r.Invalid? ==> |r.issues| > 0
    ensures r.Invalid? ==> r.issues == IssuesOf(UpdateTitleField(input.title)) + IssuesOf(UpdateContentField(input.content))
  {
    var title := UpdateTitleField(input.title);
    var content := UpdateContentField(input.content);
    if title.Valid? && content.Valid? then Valid(NoteUpdate(title.value, content.value))
    else Invalid(IssuesOf(title) + IssuesOf(content))
  }

  // ---------------------------------------------------------------------
  // Properties of the schemas

  /** On a password without line terminators the pattern is exactly "has a
      lower-case letter, an upper-case letter and a digit". */
  lemma PasswordPatternSingleLine(s: string)
    requires forall i :: 0 <= i < |s| ==> !IsLineTerminator(s[i])
    ensures MatchesPasswordPattern(s) <==>
              && (exists i :: 0 <= i < |s| && 'a' <= s[i] <= 'z')
              && (exists i :: 0 <= i < |s| && 'A' <= s[i] <= 'Z')
              && (exists i :: 0 <= i < |s| && '0' <= s[i] <= '9')
  {
    LineEndWhole(s);
    HasCharInMeans(s, 0, |s|, 'a', 'z');
    HasCharInMeans(s, 0, |s|, 'A', 'Z');
    HasCharInMeans(s, 0, |s|, '0', '9');
  }

  /** Whatever follows the first line terminator is never looked at. */
  lemma PasswordPatternIgnoresLaterLines(line: string, rest: string)
    requires forall i :: 0 <= i < |line| ==> !IsLineTerminator(line[i])
    requires rest != [] && IsLineTerminator(rest[0])
    ensures MatchesPasswordPattern(line + rest) == MatchesPasswordPattern(line)
  {
    var s := line + rest;
    LineEndIsFirstTerminator(s, 0);
    LineEndWhole(line);
    assert s[|line|] == rest[0];
    assert LineEnd(s, 0) == |line|;
    forall lo: char, hi: char | lo <= hi
      ensures HasCharIn(s, 0, |line|, lo, hi) == HasCharIn(line, 0, |line|, lo, hi)
    {
      HasCharInMeans(s, 0, |line|, lo, hi);
      HasCharInMeans(line, 0, |line|, lo, hi);
      assert forall i :: 0 <= i < |line| ==> s[i] == line[i];
    }
  }

  /** How a password with exactly one failed rule is reported. */
  lemma PasswordOneFailure(p: string, message: string)
    requires message == (if |p| < 8 then PasswordTooShort else if |p| > 100 then PasswordTooLong else PasswordWeak)
    requires (|p| < 8 || |p| > 100) != !MatchesPasswordPattern(p)
    ensures PasswordField(Some(p)) == Invalid([Issue(["password"], message)])
  {
    var r := PasswordField(Some(p));
    assert IssuesOf(r) == IssuesAt("password", [message]);
  }

  /** "Abcdefg\n1" has all three classes, but its digit is on the second line. */
  lemma LineBreakHidesDigit()
    ensures exists i :: 0 <= i < |"Abcdefg\n1"| && '0' <= "Abcdefg\n1"[i] <= '9'
    ensures !MatchesPasswordPattern("Abcdefg\n1")
  {
    assert "Abcdefg\n1"[8] == '1';
  }

  /** A letter class that appears only after a line break does not count. */
  lemma PasswordPatternStopsAtLineBreak()
    ensures PasswordField(Some("Abcdefg\n1")) == Invalid([Issue(["password"], PasswordWeak)])
  {
    LineBreakHidesDigit();
    PasswordOneFailure("Abcdefg\n1", PasswordWeak);
  }

  /** "alllowercase1" has no character in `[A-Z]`. */
  lemma NoUpperCase()
    ensures !MatchesPasswordPattern("alllowercase1")
  {
  }

  /** "alllowercase1" has the length but no upper-case letter. */
  lemma NoUpperCaseRejected()
    ensures PasswordField(Some("alllowercase1")) == Invalid([Issue(["password"], PasswordWeak)])
  {
    NoUpperCase();
    PasswordOneFailure("alllowercase1", PasswordWeak);
  }

  /** "Aa1" has one character of each class. */
  lemma ShortButPatterned()
    ensures MatchesPasswordPattern("Aa1")
  {
  }

  /** "Aa1" has the three classes but is too short. */
  lemma TooShortRejected()
    ensures PasswordField(Some("Aa1")) == Invalid([Issue(["password"], PasswordTooShort)])
  {
    ShortButPatterned();
    PasswordOneFailure("Aa1", PasswordTooShort);
  }

  /** "abcde" has neither an upper-case letter nor a digit. */
  lemma NoUpperCaseShort()
    ensures !MatchesPasswordPattern("abcde")
  {
  }

  /** A five-character, all-lower-case password breaks two rules and gets
      one issue for each, in declaration order. */
  lemma ShortLowerCaseTwoIssues()
    ensures PasswordField(Some("abcde"))
         == Invalid([Issue(["password"], PasswordTooShort), Issue(["password"], PasswordWeak)])
  {
    NoUpperCaseShort();
    var r := PasswordField(Some("abcde"));
    assert IssuesOf(r) == IssuesAt("password", [PasswordTooShort, PasswordWeak]);
  }

  /** "Abcdefg1" has one character of each class on one line. */
  lemma StrongPattern()
    ensures MatchesPasswordPattern("Abcdefg1")
  {
  }

  /** A password meeting every rule is accepted unchanged. */
  lemma StrongPasswordAccepted()
    ensures PasswordField(Some("Abcdefg1")) == Valid("Abcdefg1")
  {
    StrongPattern();
  }

  /** The `.or(z.literal(""))` alternative never changes the outcome: the
      empty name already passes `max(100)`. */
  lemma NameLiteralAlternativeRedundant(input: Option<string>)
    ensures NameField(input) == OptionalStringField("name", input, NameChecks, NoEmailCheck)
  {
    if input == Some("") {
      assert NameChecks == [NameChecks[0]] + [];
      RunChecksCons(NameChecks[0], [], "", NoEmailCheck);
    }
  }

  /** A name of 101 characters is rejected at key "name". */
  lemma NameTooLongRejected(name: string)
    requires |name| == 101
    ensures NameField(Some(name)) == Invalid([Issue(["name"], NameTooLong)])
  {
  }

  /** A title of exactly 200 characters passes; 201 fails at key "title". */
  lemma TitleLengthBoundary(t200: string, t201: string)
    requires |t200| == 200 && |t201| == 201
    ensures CreateTitleField(Some(t200)) == Valid(Trim(t200))
    ensures CreateTitleField(Some(t201)) == Invalid([Issue(["title"], TitleTooLong)])
  {
    assert IssuesOf(CreateTitleField(Some(t201))) == IssuesAt("title", [TitleTooLong]);
  }

  /** The bounds test the raw string, so a whitespace-only title of legal
      length passes and is stored as the empty string. */
  lemma WhitespaceTitleAccepted(title: string, content: string)
    requires 1 <= |title| <= MaxTitleLength && 1 <= |content| <= MaxContentLength
    requires forall i :: 0 <= i < |title| ==> IsTrimmable(title[i])
    ensures CreateNoteSchema(NoteInput(Some(title), Some(content))) == Valid(NoteData("", Trim(content)))
  {
    TrimAllWhiteSpace(title);
  }

  /** The explicit empty string is not an omission in an update. */
  lemma UpdateEmptyStringRejected()
    ensures UpdateTitleField(Some("")) == Invalid([Issue(["title"], TitleEmpty)])
    ensures UpdateContentField(Some("")) == Invalid([Issue(["content"], ContentEmpty)])
    ensures UpdateNoteSchema(NoteInput(Some(""), None)) == Invalid([Issue(["title"], TitleEmpty)])
  {
    assert IssuesOf(UpdateTitleField(Some(""))) == IssuesAt("title", [TitleEmpty]);
    assert IssuesOf(UpdateContentField(Some(""))) == IssuesAt("content", [ContentEmpty]);
  }

  // ---------------------------------------------------------------------
  // The chains with `.trim()` first, as the messages "Title is required" and
  // "Title cannot be empty" intend: the bounds then test the trimmed value.

  const TrimFirstTitleChecks := [TrimValue, MinLength(1, TitleRequired), MaxLength(MaxTitleLength, TitleTooLong)]
  const TrimFirstContentChecks := [TrimValue, MinLength(1, ContentRequired), MaxLength(MaxContentLength, ContentTooLong)]

  function TrimFirstTitleField(input: Option<string>): (r: Validated<string>)
    ensures r.Valid? <==> input.Some? && 1 <= |Trim(input.value)| <= MaxTitleLength
    ensures r.Valid? ==> r.value == Trim(input.value)
  {
    match input
    case None => StringField("title", input, TrimFirstTitleChecks, NoEmailCheck)
    case Some(v) =>
      TrimThenBounds(TrimFirstTitleChecks[1], TrimFirstTitleChecks[2], v, NoEmailCheck);
      StringField("title", input, TrimFirstTitleChecks, NoEmailCheck)
  }

  function TrimFirstContentField(input: Option<string>): (r: Validated<string>)
    ensures r.Valid? <==> input.Some? && 1 <= |Trim(input.value)| <= MaxContentLength
    ensures r.Valid? ==> r.value == Trim(input.value)
  {
    match input
    case None => StringField("content", input, TrimFirstContentChecks, NoEmailCheck)
    case Some(v) =>
      TrimThenBounds(TrimFirstContentChecks[1], TrimFirstContentChecks[2], v, NoEmailCheck);
      StringField("content", input, TrimFirstContentChecks, NoEmailCheck)
  }

  /** `createNoteSchema` with `.trim()` ahead of the bounds: what it accepts
      is never empty and never begins or ends with whitespace. */
  function TrimFirstCreateNoteSchema(input: NoteInput): (r: Validated<NoteData>)
    ensures r.Valid? <==> && input.title.Some? && 1 <= |Trim(input.title.value)| <= MaxTitleLength
                          && input.content.Some? && 1 <= |Trim(input.content.value)| <= MaxContentLength
    ensures r.Valid? ==> && r.value == NoteData(Trim(input.title.value), Trim(input.content.value))
                         && r.value.title != "" && r.value.content != ""
                         && !IsTrimmable(r.value.title[0]) && !IsTrimmable(r.value.content[0])
    ensures r.Invalid? ==> |r.issues| > 0
  {
    var title := TrimFirstTitleField(input.title);
    var content := TrimFirstContentField(input.content);
    if title.Valid? && content.Valid? then Valid(NoteData(title.value, content.value))
    else Invalid(IssuesOf(title) + IssuesOf(content))
  }

  /** The corrected schema rejects the whitespace-only title the declared one lets through. */
  lemma TrimFirstRejectsWhitespaceTitle(title: string, content: string)
    requires 1 <= |title| <= MaxTitleLength && 1 <= |content| <= MaxContentLength
    requires forall i :: 0 <= i < |title| ==> IsTrimmable(title[i])
    ensures CreateNoteSchema(NoteInput(Some(title), Some(content))).Valid?
    ensures TrimFirstCreateNoteSchema(NoteInput(Some(title), Some(content))).Invalid?
  {
    TrimAllWhiteSpace(title);
  }
}
