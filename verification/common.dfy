/** Shared vocabulary of the model: optional values, the field values of the
    dictionary views (`to_dict`), request failures and password credentials. */
module Common {

  datatype Option<+T> = None | Some(value: T)

  /** A field value of a dictionary view. Timestamps are abstract instants
      rather than ISO-8601 strings; `Obj` is a nested JSON object. */
  datatype Value =
    | Null
    | Int(i: int)
    | Str(s: string)
    | Bool(b: bool)
    | Time(t: nat)
    | Obj(fields: map<string, Value>)

  /** A `to_dict` result: field name to value. */
  type Dict = map<string, Value>

  function OptStr(o: Option<string>): Value {
    match o
    case None => Null
    case Some(text) => Str(text)
  }

  function OptId(o: Option<nat>): Value {
    match o
    case None => Null
    case Some(id) => Int(id)
  }

  /** How a request handler can fail; each failure leaves the store as it was. */
  datatype Failure =
    | Unauthenticated       // `login_required`: redirect to the login view
    | AlreadyAuthenticated  // login or register while signed in: redirect to the index
    | NotFound              // `get_or_404` / `first_or_404`
    | PermissionDenied      // neither the owner nor an admin, or not an admin
    | UsernameTaken         // register: "Username already exists"
    | EmailTaken            // register: "Email already exists"
    | InvalidCredentials    // login: "Invalid username or password"
    | IncorrectPassword     // delete-account: "Incorrect password"
    | AlreadyRunning        // scraper start: "Scraper is already running"
    | NotRunning            // scraper stop: "Scraper is not running"
    | UniqueViolation       // commit refused by a unique column; the session rolls back

  datatype Result<+T> = Ok(value: T) | Err(failure: Failure)

  /** A stored password hash. Hashing and checking belong to a foreign library;
      the model keeps only what callers rely on: a hash accepts exactly the
      password it was made from. */
  datatype Credential = Hash(secret: string)

  predicate CheckPassword(c: Credential, attempt: string) {
    c.secret == attempt
  }

  function HashPassword(password: string): (c: Credential)
    ensures forall attempt :: CheckPassword(c, attempt) <==> attempt == password
  {
    Hash(password)
  }

  predicate IsDigits(s: string) {
    forall k :: 0 <= k < |s| ==> '0' <= s[k] <= '9'
  }

  /** Reference reading of a decimal numeral, most significant digit first. */
  function DigitsValue(s: string): nat
    requires IsDigits(s)
  {
    if |s| == 0 then 0 else DigitsValue(s[..|s| - 1]) * 10 + (s[|s| - 1] as int - 48)
  }

  /** Decimal rendering of a natural number, as Python's `str` of an int:
      a numeral without leading zeros that reads back as `n`. */
  function NatToString(n: nat): (r: string)
    ensures |r| >= 1 && IsDigits(r)
    ensures DigitsValue(r) == n
    ensures |r| > 1 ==> r[0] != '0'
  {
    var digit := [(48 + n % 10) as char];
    if n < 10 then digit
    else
      var rest := NatToString(n / 10);
      assert (rest + digit)[..|rest + digit| - 1] == rest;
      rest + digit
  }

  /** Distinct numbers render differently, so an endpoint such as
      `/api/users/<id>` names exactly one id. */
  lemma NatToStringInjective(a: nat, b: nat, prefix: string)
    requires prefix + NatToString(a) == prefix + NatToString(b)
    ensures a == b
  {
    assert NatToString(a) == (prefix + NatToString(a))[|prefix|..];
    assert NatToString(b) == (prefix + NatToString(b))[|prefix|..];
  }
}
