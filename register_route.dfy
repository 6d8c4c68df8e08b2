/** The registration handler of app/api/register/route.ts over an
    in-memory user table keyed by email.

    bcrypt's `hash` is a function parameter (its salt is whatever the
    caller's function folds in), zod's email regular expression is the
    predicate `isEmail`, the id the database generates is an input, and
    `fault` says which awaited call, if any, throws. */
module RegisterRoute {
  import opened Common
  import opened Schemas

  /** A row of the user table. */
  datatype UserRow = UserRow(id: string, email: string, password: string, name: Option<string>)

  /** The user as the response shows it: there is no password field. */
  datatype PublicUser = PublicUser(id: string, email: string, name: Option<string>)

  /** One entry of `details`: `{ field, message }`. */
  datatype Detail = Detail(field: string, message: string)

  datatype RegisterBody =
    | ErrorBody(error: string)
    | ValidationError(error: string, details: seq<Detail>)
    | Registered(user: PublicUser)

  /** `NextResponse.json(body, { status })`. */
  datatype Reply = Reply(status: int, body: RegisterBody)

  /** Which awaited call throws something other than a `ZodError`. */
  datatype Fault = NoFault | LookupFails | HashFails | InsertFails

  const ValidationFailed := "Validation failed"
  const UserExists := "User already exists"
  const SomethingWentWrong := "Something went wrong"
  const SaltRounds: nat := 12

  /** `error.issues.map(err => ({ field: err.path.join("."), message: err.message }))`. */
  function ToDetails(issues: seq<Issue>): (r: seq<Detail>)
    ensures |r| == |issues|
    ensures forall i :: 0 <= i < |r| ==> r[i] == Detail(Join(issues[i].path, "."), issues[i].message)
  {
    seq(|issues|, i requires 0 <= i < |issues| => Detail(Join(issues[i].path, "."), issues[i].message))
  }

  /** Every issue of `registerSchema` sits at one top-level key, which is
      therefore the detail's `field`. */
  lemma RegisterDetailFields(input: RegisterInput, isEmail: string -> bool)
    requires RegisterSchema(input, isEmail).Invalid?
    ensures var details := ToDetails(RegisterSchema(input, isEmail).issues);
            forall i :: 0 <= i < |details| ==> details[i].field in {"email", "password", "name"}
  {
    var email := IssuesOf(EmailField(input.email, isEmail));
    var password := IssuesOf(PasswordField(input.password));
    var name := IssuesOf(NameField(input.name));
    var issues := RegisterSchema(input, isEmail).issues;
    assert issues == email + password + name;
    forall i | 0 <= i < |issues|
      ensures issues[i].path == ["email"] || issues[i].path == ["password"] || issues[i].path == ["name"]
    {
      if i < |email| {
        assert issues[i] == email[i];
      } else if i < |email| + |password| {
        assert issues[i] == password[i - |email|];
      } else {
        assert issues[i] == name[i - |email| - |password|];
      }
    }
  }

  /** A short, all-lower-case password with a good email gives two details
      for "password", length first. */
  lemma ShortPasswordDetails(email: string, isEmail: string -> bool)
    requires 1 <= |email| <= 255 && isEmail(email)
    ensures RegisterSchema(RegisterInput(Some(email), Some("abcde"), None), isEmail)
         == Invalid([Issue(["password"], PasswordTooShort), Issue(["password"], PasswordWeak)])
    ensures ToDetails([Issue(["password"], PasswordTooShort), Issue(["password"], PasswordWeak)])
         == [Detail("password", PasswordTooShort), Detail("password", PasswordWeak)]
  {
    ShortLowerCaseTwoIssues();
    assert IssuesOf(EmailField(Some(email), isEmail)) == [];
  }

  /** The user table, keyed by the unique email. */
  class UserTable {
    var users: map<string, UserRow>

    /** Each row is filed under its own email. */
    ghost predicate Valid()
      reads this
    {
      forall e :: e in users ==> users[e].email == e
    }

    constructor ()
      ensures Valid() && users == map[]
    {
      users := map[];
    }

    /** `POST /api/register`: `body` is None when the request body is not JSON. */
    method Register(body: Option<RegisterInput>, isEmail: string -> bool, hash: (string, nat) -> string,
                    newId: string, fault: Fault) returns (reply: Reply)
      requires Valid()
      modifies this
      ensures Valid()
      ensures body.None? ==> reply == Reply(500, ErrorBody(SomethingWentWrong))
      ensures body.Some? && RegisterSchema(body.value, isEmail).Invalid? ==>
                reply == Reply(400, ValidationError(ValidationFailed,
                                                    ToDetails(RegisterSchema(body.value, isEmail).issues)))
      ensures body.Some? && RegisterSchema(body.value, isEmail).Valid? ==>
                var data := RegisterSchema(body.value, isEmail).value;
                && (fault == LookupFails ==> reply == Reply(500, ErrorBody(SomethingWentWrong)))
                && (fault != LookupFails && data.email in old(users) ==>
                      reply == Reply(400, ErrorBody(UserExists)))
                && (fault != NoFault && data.email !in old(users) ==>
                      reply == Reply(500, ErrorBody(SomethingWentWrong)))
      ensures reply.status == 201 <==>
                body.Some? && RegisterSchema(body.value, isEmail).Valid? && fault == NoFault
                && RegisterSchema(body.value, isEmail).value.email !in old(users)
      ensures reply.status == 201 ==>
                var data := RegisterSchema(body.value, isEmail).value;
                var row := UserRow(newId, data.email, hash(data.password, SaltRounds), data.name);
                && users == old(users)[data.email := row]
                && reply.body == Registered(PublicUser(row.id, row.email, row.name))
      ensures reply.status != 201 ==> users == old(users)
    {
      if body.None? {
        return Reply(500, ErrorBody(SomethingWentWrong));
      }
      var validated := RegisterSchema(body.value, isEmail);
      if validated.Invalid? {
        return Reply(400, ValidationError(ValidationFailed, ToDetails(validated.issues)));
      }
      var data := validated.value;
      if fault == LookupFails {
        return Reply(500, ErrorBody(SomethingWentWrong));
      }
      if data.email in users {
        return Reply(400, ErrorBody(UserExists));
      }
      if fault == HashFails {
        return Reply(500, ErrorBody(SomethingWentWrong));
      }
      var hashedPassword := hash(data.password, SaltRounds);
      if fault == InsertFails {
        return Reply(500, ErrorBody(SomethingWentWrong));
      }
      var user := UserRow(newId, data.email, hashedPassword, data.name);
      users := users[data.email := user];
      reply := Reply(201, Registered(PublicUser(user.id, user.email, user.name)));
    }
  }

  /** A client of the handler: the same valid body twice in a row. */
  method RegisterTwice(table: UserTable, body: RegisterInput, isEmail: string -> bool,
                       hash: (string, nat) -> string, firstId: string, secondId: string)
    returns (first: Reply, second: Reply)
    requires table.Valid()
    requires RegisterSchema(body, isEmail).Valid?
    requires RegisterSchema(body, isEmail).value.email !in table.users
    modifies table
    ensures first.status == 201
    ensures second == Reply(400, ErrorBody(UserExists))
    ensures |table.users| == |old(table.users)| + 1
  {
    first := table.Register(Some(body), isEmail, hash, firstId, NoFault);
    var snapshot := table.users;
    second := table.Register(Some(body), isEmail, hash, secondId, NoFault);
    assert table.users == snapshot;
  }
}
