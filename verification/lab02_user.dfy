/** Lab 2 user record and the user map it is kept in
    (labs/lab02/backend/user/user.go). */
module Lab02User {
  import opened Bytes
  import opened Outcomes
  import Context

  const MaxNameBytes: nat := 30

  datatype User = User(name: Bytes, email: Bytes, id: Bytes)

  const EmptyUser := User([], [], [])

  /** "Invalid name", "Invalid email", "Invalid Id". */
  datatype UserError = InvalidName | InvalidEmail | InvalidId

  // ---------------------------------------------------------------------------
  // The e-mail pattern ^[a-zA-Z0-9._%+\-]+@[a-zA-Z0-9.\-]+\.[a-zA-Z]{2,}$

  /** The class [a-zA-Z0-9._%+\-] of the part before '@'. */
  predicate IsLocalByte(c: byte) {
    IsAsciiLetter(c) || IsAsciiDigit(c)
    || c == Dot || c == Underscore || c == Percent || c == Plus || c == Minus
  }

  /** The class [a-zA-Z0-9.\-] of the domain. */
  predicate IsDomainByte(c: byte) {
    IsAsciiLetter(c) || IsAsciiDigit(c) || c == Dot || c == Minus
  }

  predicate AllLocal(s: Bytes) {
    forall k :: 0 <= k < |s| ==> IsLocalByte(s[k])
  }

  predicate AllDomain(s: Bytes) {
    forall k :: 0 <= k < |s| ==> IsDomainByte(s[k])
  }

  predicate AllLetters(s: Bytes) {
    forall k :: 0 <= k < |s| ==> IsAsciiLetter(s[k])
  }

  /** The language of the pattern: the string splits as L '@' D '.' T with L
      a non-empty run of local bytes, D a non-empty run of domain bytes and T
      at least two ASCII letters, anchored at both ends. */
  ghost predicate EmailPattern(s: Bytes) {
    exists i, j ::
      && 0 < i && i + 1 < j && j + 3 <= |s|
      && s[i] == At && s[j] == Dot
      && AllLocal(s[..i]) && AllDomain(s[i + 1..j]) && AllLetters(s[j + 1..])
  }

  /** A matcher for the pattern without backtracking: neither class on the left
      of '@' nor on its right contains '@', so the split is at the first '@';
      letters contain no '.', so the last dot starts the top-level label. It
      accepts exactly the language of the pattern. */
  predicate MatchEmail(s: Bytes)
    ensures MatchEmail(s) <==> EmailPattern(s)
  {
    PatternSplitsAtFirstAt(s);
    var at := IndexOf(s, At);
    var dot := LastIndexOf(s, Dot);
    && 0 < at && at + 1 < dot && dot + 3 <= |s|
    && AllLocal(s[..at]) && AllDomain(s[at + 1..dot]) && AllLetters(s[dot + 1..])
  }

  /** Where the pattern's split points lie: the split is at the first '@'
      (the local class has no '@') and the top-level dot is the last dot
      (letters contain no '.'). */
  lemma SplitPoints(s: Bytes, i: int, j: int)
    requires 0 < i && i + 1 < j && j + 3 <= |s| && s[i] == At && s[j] == Dot
    requires AllLocal(s[..i]) && AllLetters(s[j + 1..])
    ensures IndexOf(s, At) == i && LastIndexOf(s, Dot) == j
  {
    assert !IsLocalByte(At) && !IsAsciiLetter(Dot);
    IndexOfUnique(s, At, i);
    LastIndexOfUnique(s, Dot, j);
  }

  /** So a string of the pattern's language passes the matcher's own test. */
  lemma PatternSplitsAtFirstAt(s: Bytes)
    ensures EmailPattern(s) ==>
      var i := IndexOf(s, At);
      var j := LastIndexOf(s, Dot);
      && 0 < i && i + 1 < j && j + 3 <= |s|
      && AllLocal(s[..i]) && AllDomain(s[i + 1..j]) && AllLetters(s[j + 1..])
  {
    if EmailPattern(s) {
      var i, j :|
        && 0 < i && i + 1 < j && j + 3 <= |s|
        && s[i] == At && s[j] == Dot
        && AllLocal(s[..i]) && AllDomain(s[i + 1..j]) && AllLetters(s[j + 1..]);
      SplitPoints(s, i, j);
    }
  }

  /** Neither the domain class nor the letters contain '@', so an '@' after
      the first one cannot occur in a matching address. */
  lemma NoAtAfterSplit(s: Bytes, p: int, at: int, dot: int)
    requires 0 < at && at + 1 < dot && dot + 3 <= |s| && s[dot] == Dot
    requires s[at] == At && At !in s[..at]
    requires AllDomain(s[at + 1..dot]) && AllLetters(s[dot + 1..])
    requires 0 <= p < |s| && s[p] == At
    ensures p == at
  {
  }

  /** A matching address holds exactly one '@', and it is the first one. */
  lemma MatchEmailOneAt(s: Bytes, p: int)
    requires MatchEmail(s)
    requires 0 <= p < |s| && s[p] == At
    ensures p == IndexOf(s, At)
  {
    NoAtAfterSplit(s, p, IndexOf(s, At), LastIndexOf(s, Dot));
  }

  /** Unlike lab 1's check, a second '@' is refused: "a@b@c.de" does not match. */
  lemma SecondAtRejected()
    ensures !EmailPattern([0x61, At, 0x62, At, 0x63, Dot, 0x64, 0x65])
  {
    var e: Bytes := [0x61, At, 0x62, At, 0x63, Dot, 0x64, 0x65];
    if MatchEmail(e) {
      IndexOfUnique(e, At, 1);
      MatchEmailOneAt(e, 3);
    }
  }

  /** Validate: name length first, then the e-mail pattern, then the id. */
  function Validate(u: User): (r: Option<UserError>)
    ensures r == Some(InvalidName) <==> u.name == [] || |u.name| > MaxNameBytes
    ensures r == Some(InvalidEmail) <==>
      0 < |u.name| <= MaxNameBytes && !EmailPattern(u.email)
    ensures r == Some(InvalidId) <==>
      0 < |u.name| <= MaxNameBytes && EmailPattern(u.email) && u.id == []
    ensures r == None <==>
      0 < |u.name| <= MaxNameBytes && EmailPattern(u.email) && u.id != []
  {
    if u.name == [] || |u.name| > MaxNameBytes then Some(InvalidName)
    else if !MatchEmail(u.email) then Some(InvalidEmail)
    else if u.id == [] then Some(InvalidId)
    else None
  }

  // ---------------------------------------------------------------------------
  // UserManager

  /** The manager: an optional context, represented by the error its `Err()`
      reports once it is done, and the map from user id to user. */
  datatype Manager = Manager(ctx: Option<Context.Error>, users: map<Bytes, User>)

  datatype ManagerError =
    | Invalid(cause: UserError)        // the validation error of AddUser
    | ContextDone(ctxErr: Context.Error)  // ctx.Err() of a manager with a context
    | UserNotFound                      // "User not found" from RemoveUser
    | NotFound                          // "not found" from GetUser

  /** Each user is stored under its own id. */
  ghost predicate KeyedById(m: Manager) {
    forall k :: k in m.users ==> m.users[k].id == k
  }

  /** What every map the manager builds satisfies: each user is stored under its
      own id and passed validation. */
  ghost predicate Valid(m: Manager) {
    && KeyedById(m)
    && forall k :: k in m.users ==> Validate(m.users[k]) == None
  }

  function NewUserManager(): (m: Manager)
    ensures m.ctx == None && |m.users| == 0
    ensures Valid(m)
  {
    Manager(None, map[])
  }

  function NewUserManagerWithContext(ctxErr: Context.Error): (m: Manager)
    ensures m.ctx == Some(ctxErr) && |m.users| == 0
    ensures Valid(m)
  {
    Manager(Some(ctxErr), map[])
  }

  /** AddUser: validation comes first even with a context; with a context the
      map is never touched; otherwise the user overwrites the entry of its id. */
  function AddUser(m: Manager, u: User): (r: (Manager, Option<ManagerError>))
    ensures Validate(u).Some? ==> r == (m, Some(Invalid(Validate(u).value)))
    ensures Validate(u) == None && m.ctx.Some? ==> r == (m, Some(ContextDone(m.ctx.value)))
    ensures r.1 == None <==> Validate(u) == None && m.ctx == None
    ensures r.1 == None ==>
      && r.0.ctx == m.ctx
      && r.0.users.Keys == m.users.Keys + {u.id}
      && r.0.users[u.id] == u
      && forall k :: k in m.users && k != u.id ==> r.0.users[k] == m.users[k]
    ensures r.1.Some? ==> r.0 == m
    ensures Valid(m) ==> Valid(r.0)
  {
    match Validate(u)
    case Some(e) => (m, Some(Invalid(e)))
    case None =>
      match m.ctx
      case Some(e) => (m, Some(ContextDone(e)))
      case None => (m.(users := m.users[u.id := u]), None)
  }

  /** RemoveUser as written: it looks the id up, then deletes the key recorded
      in the stored user's own ID field. */
  function RemoveUser(m: Manager, id: Bytes): (r: (Manager, Option<ManagerError>))
    ensures m.ctx.Some? ==> r == (m, Some(ContextDone(m.ctx.value)))
    ensures m.ctx == None && id !in m.users ==> r == (m, Some(UserNotFound))
    ensures r.1 == None <==> m.ctx == None && id in m.users
    ensures r.1 == None ==> r.0.ctx == m.ctx && r.0.users.Keys <= m.users.Keys
  {
    match m.ctx
    case Some(e) => (m, Some(ContextDone(e)))
    case None =>
      if id !in m.users then (m, Some(UserNotFound))
      else (m.(users := m.users - {m.users[id].id}), None)
  }

  /** On every map the manager builds, RemoveUser deletes exactly the key it was
      given and nothing else, and what remains is still valid. */
  lemma RemoveUserDeletesExactlyId(m: Manager, id: Bytes)
    requires KeyedById(m) && m.ctx == None && id in m.users
    ensures RemoveUser(m, id).0.users == m.users - {id}
    ensures RemoveUser(m, id).0.users.Keys == m.users.Keys - {id}
    ensures Valid(m) ==> Valid(RemoveUser(m, id).0)
  {
  }

  /** GetUser: the stored user, or the empty user with "not found" or the
      context's error. */
  function GetUser(m: Manager, id: Bytes): (r: (User, Option<ManagerError>))
    ensures m.ctx.Some? ==> r == (EmptyUser, Some(ContextDone(m.ctx.value)))
    ensures m.ctx == None && id !in m.users ==> r == (EmptyUser, Some(NotFound))
    ensures m.ctx == None && id in m.users ==> r == (m.users[id], None)
  {
    match m.ctx
    case Some(e) => (EmptyUser, Some(ContextDone(e)))
    case None =>
      if id in m.users then (m.users[id], None) else (EmptyUser, Some(NotFound))
  }

  /** A user added without a context is read back unchanged, and removing it
      makes it unreadable again. */
  lemma AddGetRemoveRoundTrip(m: Manager, u: User)
    requires Valid(m) && m.ctx == None && Validate(u) == None
    ensures GetUser(AddUser(m, u).0, u.id) == (u, None)
    ensures RemoveUser(AddUser(m, u).0, u.id).1 == None
    ensures GetUser(RemoveUser(AddUser(m, u).0, u.id).0, u.id) == (EmptyUser, Some(NotFound))
  {
  }
}
