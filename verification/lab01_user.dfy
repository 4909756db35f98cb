/** Lab 1 user record: field validators and the validating constructor
    (labs/lab01/backend/user/user.go). */
module Lab01User {
  import opened Bytes
  import opened Outcomes

  const MaxNameBytes: nat := 30
  const MaxAge: int := 150

  datatype User = User(name: Bytes, age: int, email: Bytes)

  /** ErrInvalidName, ErrInvalidAge, ErrInvalidEmail. */
  datatype UserError = InvalidName | InvalidAge | InvalidEmail

  /** A name is accepted when its byte length, Go's `len`, is 1 to 30. */
  predicate IsValidName(name: Bytes)
    ensures IsValidName(name) <==> 1 <= |name| <= MaxNameBytes
  {
    |name| > 0 && |name| <= MaxNameBytes
  }

  /** An age is accepted when it lies in 0..150, both ends included. */
  predicate IsValidAge(age: int)
    ensures IsValidAge(age) <==> 0 <= age <= MaxAge
  {
    age >= 0 && age <= MaxAge
  }

  /** The shape the check accepts, stated without index searches: a '@' at
      position a > 0 with no '@' before it, and a '.' at position d with no '.'
      after it, where at least one byte separates them and one byte follows d. */
  ghost predicate EmailShape(email: Bytes) {
    exists a, d ::
      && 0 < a
      && a + 1 < d < |email| - 1
      && email[a] == At && At !in email[..a]
      && email[d] == Dot && Dot !in email[d + 1..]
  }

  /** The index-based check of the source: the first '@' must sit after
      position 0, and the last '.' must come after the character following it
      and must not be the final character. It accepts exactly the strings of
      EmailShape. */
  predicate IsValidEmail(email: Bytes)
    ensures IsValidEmail(email) <==> EmailShape(email)
  {
    if email == [] then false
    else
      var at := IndexOf(email, At);
      if at <= 0 then false
      else
        var dot := LastIndexOf(email, Dot);
        if dot <= at + 1 then false
        else if dot >= |email| - 1 then false
        else true
  }

  /** The rejections the source spells out: the empty string, and a first '@'
      that is missing or at position 0. */
  lemma IsValidEmailRejects(email: Bytes)
    ensures email == [] ==> !IsValidEmail(email)
    ensures At !in email ==> !IsValidEmail(email)
    ensures |email| > 0 && email[0] == At ==> !IsValidEmail(email)
  {
  }

  /** Only the first '@' is looked at: "a@b@c.d" passes. */
  lemma SeveralAtsAccepted()
    ensures IsValidEmail([0x61, At, 0x62, At, 0x63, Dot, 0x64])
  {
  }

  /** Validate: the first failing check in the order name, age, email. */
  function Validate(u: User): (r: Option<UserError>)
    ensures r == None <==>
      1 <= |u.name| <= MaxNameBytes && 0 <= u.age <= MaxAge && EmailShape(u.email)
    ensures r == Some(InvalidName) <==> !(1 <= |u.name| <= MaxNameBytes)
    ensures r == Some(InvalidAge) <==>
      1 <= |u.name| <= MaxNameBytes && !(0 <= u.age <= MaxAge)
    ensures r == Some(InvalidEmail) <==>
      1 <= |u.name| <= MaxNameBytes && 0 <= u.age <= MaxAge && !EmailShape(u.email)
  {
    if !IsValidName(u.name) then Some(InvalidName)
    else if !IsValidAge(u.age) then Some(InvalidAge)
    else if !IsValidEmail(u.email) then Some(InvalidEmail)
    else None
  }

  /** NewUser: the user built from the arguments when it validates, otherwise
      no user and the validation error. */
  function NewUser(name: Bytes, age: int, email: Bytes): (r: Result<User, UserError>)
    ensures r.Ok? <==> Validate(User(name, age, email)) == None
    ensures r.Ok? ==> r.value.name == name && r.value.age == age && r.value.email == email
    ensures r.Err? ==> Validate(User(name, age, email)) == Some(r.error)
  {
    var u := User(name, age, email);
    match Validate(u)
    case None => Ok(u)
    case Some(e) => Err(e)
  }
}
