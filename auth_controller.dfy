/** AuthController::register: a chain of early exits over the users the
    entity manager holds, keyed by email (the column the database keeps
    unique). The validator's rules for a user and the password hasher are
    parameters: the User entity's constraints are not part of this model. */
module AuthApi {
  import opened Php
  import opened ErrorResponses

  /** A persisted user: its generated id and the stored password. */
  datatype UserRecord = UserRecord(id: int, password: string)

  /** The persisted users, by email. */
  type Users = map<string, UserRecord>

  const EmailTakenCode := "EMAIL_ALREADY_EXISTS"
  const EmailTakenMessage := "Email already exists."

  datatype RegisterResponse =
    | Failure(error: ErrorResponse)                    // an ErrorResponse envelope
    | ServerError                                      // an uncaught TypeError: 500
    | Registered(status: int, id: int, email: string)  // `{id, email}`

  /** The response of a call and the store after it. */
  datatype RegisterOutcome = RegisterOutcome(response: RegisterResponse, users: Users, nextId: int)

  /** register: decode the body, fill a new user with the email and password
      ("" when absent), validate it, replace the password by its hash, then
      insert it unless the email is taken. */
  function RegisterSpec(
    users: Users, nextId: int, body: RequestBody,
    validate: (string, string) -> seq<ConstraintViolation>, hash: string -> string): RegisterOutcome
  {
    if body.Malformed? then RegisterOutcome(Failure(InvalidJson()), users, nextId)
    else
      var email := StringParam(Coalesce(body.data, "email", Str("")));
      var password := StringParam(Coalesce(body.data, "password", Str("")));
      if email.TypeError? || password.TypeError? then RegisterOutcome(ServerError, users, nextId)
      else
        var errors := validate(email.value, password.value);
        if errors != [] then RegisterOutcome(Failure(ValidationError(errors)), users, nextId)
        else if email.value in users then
          RegisterOutcome(Failure(CustomError(EmailTakenCode, EmailTakenMessage)), users, nextId)
        else
          RegisterOutcome(Registered(HttpCreated, nextId, email.value),
                          users[email.value := UserRecord(nextId, hash(password.value))], nextId + 1)
  }

  /** The user being registered; only the fields register touches. User.php
      is not part of this model: the empty email and password a new user is
      given here are never read, since register sets both before use. */
  class User {
    var id: Option<int>
    var email: string
    var password: string

    constructor ()
      ensures id.None? && email == "" && password == ""
    {
      id, email, password := None, "", "";
    }

    method SetEmail(email: string)
      modifies this
      ensures this.email == email && id == old(id) && password == old(password)
    {
      this.email := email;
    }

    method SetPassword(password: string)
      modifies this
      ensures this.password == password && id == old(id) && email == old(email)
    {
      this.password := password;
    }
  }

  class AuthController {
    /** The rows of the user table. */
    var users: Users
    /** The id the database generates next. */
    var nextId: int

    constructor ()
      ensures users == map[] && nextId == 1
    {
      users := map[];
      nextId := 1;
    }

    method Register(
      body: RequestBody,
      validate: (string, string) -> seq<ConstraintViolation>, hash: string -> string)
      returns (response: RegisterResponse)
      modifies this
      ensures RegisterSpec(old(users), old(nextId), body, validate, hash) == RegisterOutcome(response, users, nextId)
    {
      if body.Malformed? {
        return Failure(InvalidJson());
      }
      var user := new User();
      var email := StringParam(Coalesce(body.data, "email", Str("")));
      if email.TypeError? {
        return ServerError;
      }
      user.SetEmail(email.value);
      var password := StringParam(Coalesce(body.data, "password", Str("")));
      if password.TypeError? {
        return ServerError;
      }
      user.SetPassword(password.value);
      var errors := validate(user.email, user.password);
      if |errors| > 0 {
        return Failure(ValidationError(errors));
      }
      var hashed := hash(user.password);
      user.SetPassword(hashed);
      // persist and flush; the unique email column rejects a second row
      if user.email in users {
        return Failure(CustomError(EmailTakenCode, EmailTakenMessage));
      }
      user.id := Some(nextId);
      users := users[user.email := UserRecord(nextId, user.password)];
      nextId := nextId + 1;
      response := Registered(HttpCreated, user.id.value, user.email);
    }
  }

  // ---------------------------------------------------------------------
  // Properties

  /** Ids below the next one, one per user; every stored password is an
      output of the hasher. */
  ghost predicate UsersInvariant(users: Users, nextId: int, hash: string -> string)
  {
    && (forall e :: e in users ==> users[e].id < nextId)
    && (forall e1, e2 :: e1 in users && e2 in users && users[e1].id == users[e2].id ==> e1 == e2)
    && (forall e :: e in users ==> exists raw :: users[e].password == hash(raw))
  }

  /** A body that is not a JSON array is answered 400 INVALID_JSON before
      anything else happens. */
  lemma InvalidJsonComesFirst(users: Users, nextId: int, validate: (string, string) -> seq<ConstraintViolation>, hash: string -> string)
    ensures RegisterSpec(users, nextId, Malformed, validate, hash) == RegisterOutcome(Failure(InvalidJson()), users, nextId)
    ensures IsEnvelope(InvalidJson(), HttpBadRequest, "INVALID_JSON", "The request content is not a valid JSON.")
  {
  }

  /** Absent or null email and password reach the validator as "": the
      request is answered as one that sent two empty strings, whatever the
      validator makes of them. */
  lemma MissingFieldsAreValidatedAsEmpty(
    users: Users, nextId: int, data: PhpArray,
    validate: (string, string) -> seq<ConstraintViolation>, hash: string -> string)
    requires Coalesce(data, "email", Null).Null? && Coalesce(data, "password", Null).Null?
    ensures RegisterSpec(users, nextId, Decoded(data), validate, hash) ==
      RegisterSpec(users, nextId, Decoded([("email", Str("")), ("password", Str(""))]), validate, hash)
    ensures validate("", "") != [] ==>
      RegisterSpec(users, nextId, Decoded(data), validate, hash) ==
      RegisterOutcome(Failure(ValidationError(validate("", ""))), users, nextId)
  {
    var sent: PhpArray := [("email", Str("")), ("password", Str(""))];
    assert Lookup(sent, "email") == Some(Str(""));
    assert Lookup(sent, "password") == Some(Str(""));
  }

  /** An absent or null password reaches the validator as "", next to the
      email as sent. */
  lemma MissingPasswordIsValidatedAsEmpty(
    users: Users, nextId: int, data: PhpArray,
    validate: (string, string) -> seq<ConstraintViolation>, hash: string -> string, email: string)
    requires StringParam(Coalesce(data, "email", Str(""))) == Passed(email)
    requires Coalesce(data, "password", Null).Null?
    ensures RegisterSpec(users, nextId, Decoded(data), validate, hash) ==
      RegisterSpec(users, nextId, Decoded([("email", Str(email)), ("password", Str(""))]), validate, hash)
  {
    var sent: PhpArray := [("email", Str(email)), ("password", Str(""))];
    assert Lookup(sent, "email") == Some(Str(email));
    assert Lookup(sent, "password") == Some(Str(""));
  }

  /** An absent or null email reaches the validator as "", next to the
      password as sent. */
  lemma MissingEmailIsValidatedAsEmpty(
    users: Users, nextId: int, data: PhpArray,
    validate: (string, string) -> seq<ConstraintViolation>, hash: string -> string, password: string)
    requires Coalesce(data, "email", Null).Null?
    requires StringParam(Coalesce(data, "password", Str(""))) == Passed(password)
    ensures RegisterSpec(users, nextId, Decoded(data), validate, hash) ==
      RegisterSpec(users, nextId, Decoded([("email", Str("")), ("password", Str(password))]), validate, hash)
  {
    var sent: PhpArray := [("email", Str("")), ("password", Str(password))];
    assert Lookup(sent, "email") == Some(Str(""));
    assert Lookup(sent, "password") == Some(Str(password));
  }

  /** A validation failure is a 422 VALIDATION_FAILED carrying the
      violations; the store is unchanged and the outcome does not depend on
      the hasher, which is never reached. */
  lemma ValidationFailureStopsEarly(
    users: Users, nextId: int, data: PhpArray,
    validate: (string, string) -> seq<ConstraintViolation>, hash1: string -> string, hash2: string -> string,
    email: string, password: string)
    requires StringParam(Coalesce(data, "email", Str(""))) == Passed(email)
    requires StringParam(Coalesce(data, "password", Str(""))) == Passed(password)
    requires validate(email, password) != []
    ensures var o := RegisterSpec(users, nextId, Decoded(data), validate, hash1);
      && o == RegisterSpec(users, nextId, Decoded(data), validate, hash2)
      && o.users == users && o.nextId == nextId
      && o.response == Failure(ValidationError(validate(email, password)))
      && o.response.error.status == HttpUnprocessableEntity
      && o.response.error.body.error == "VALIDATION_FAILED"
  {
  }

  /** A taken email is a 400 EMAIL_ALREADY_EXISTS with a fixed message; the
      store is unchanged. */
  lemma DuplicateEmailIsRejected(
    users: Users, nextId: int, data: PhpArray,
    validate: (string, string) -> seq<ConstraintViolation>, hash: string -> string,
    email: string, password: string)
    requires StringParam(Coalesce(data, "email", Str(""))) == Passed(email)
    requires StringParam(Coalesce(data, "password", Str(""))) == Passed(password)
    requires validate(email, password) == [] && email in users
    ensures var o := RegisterSpec(users, nextId, Decoded(data), validate, hash);
      && o.users == users && o.nextId == nextId
      && o.response.Failure?
      && IsEnvelope(o.response.error, HttpBadRequest, "EMAIL_ALREADY_EXISTS", "Email already exists.")
  {
  }

  /** A successful registration answers 201 with the new id and the email
      as submitted, and adds exactly one user under that email, whose stored
      password is the hash of the submitted one. */
  lemma RegistrationAddsOneUser(
    users: Users, nextId: int, body: RequestBody,
    validate: (string, string) -> seq<ConstraintViolation>, hash: string -> string)
    ensures var o := RegisterSpec(users, nextId, body, validate, hash);
      o.response.Registered? ==>
        && body.Decoded?
        && o.response.status == HttpCreated
        && StringParam(Coalesce(body.data, "email", Str(""))) == Passed(o.response.email)
        && o.response.email !in users
        && o.users.Keys == users.Keys + {o.response.email}
        && |o.users| == |users| + 1
        && (forall e :: e in users ==> o.users[e] == users[e])
        && o.users[o.response.email].id == o.response.id
        && (exists raw :: StringParam(Coalesce(body.data, "password", Str(""))) == Passed(raw) &&
                          o.users[o.response.email].password == hash(raw))
  {
    var o := RegisterSpec(users, nextId, body, validate, hash);
    if o.response.Registered? {
      var raw := StringParam(Coalesce(body.data, "password", Str(""))).value;
      assert o.users[o.response.email].password == hash(raw);
    }
  }

  /** Registration keeps the invariant: ids stay distinct and below the next
      one, and only hasher outputs are ever stored. */
  lemma RegisterPreservesInvariant(
    users: Users, nextId: int, body: RequestBody,
    validate: (string, string) -> seq<ConstraintViolation>, hash: string -> string)
    requires UsersInvariant(users, nextId, hash)
    ensures var o := RegisterSpec(users, nextId, body, validate, hash);
      UsersInvariant(o.users, o.nextId, hash)
  {
    var o := RegisterSpec(users, nextId, body, validate, hash);
    if o.response.Registered? {
      var raw := StringParam(Coalesce(body.data, "password", Str(""))).value;
      assert o.users[o.response.email].password == hash(raw);
    }
  }

  /** Registering the same email twice: the second attempt is refused. */
  lemma SecondRegistrationIsRefused(
    users: Users, nextId: int, data: PhpArray,
    validate: (string, string) -> seq<ConstraintViolation>, hash: string -> string)
    ensures var o := RegisterSpec(users, nextId, Decoded(data), validate, hash);
      o.response.Registered? ==>
        RegisterSpec(o.users, o.nextId, Decoded(data), validate, hash) ==
          RegisterOutcome(Failure(CustomError(EmailTakenCode, EmailTakenMessage)), o.users, o.nextId)
  {
  }
}
