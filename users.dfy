/** The pure logic of the user directory: the token a registration issues,
    the first-match login decision and the token check of the mutating handlers. */
module UserDirectory {
  import opened Types
  import opened Decimal

  /** The token issued to user `id`: `format!("token{}", id)`. */
  function TokenFor(id: nat): (t: string)
    ensures |t| > 5 && t[..5] == "token" && IsDigits(t[5..])
    ensures Parse(t[5..]) == id
  {
    ParseShow(id);
    var t := "token" + Show(id);
    assert t[5..] == Show(id);
    t
  }

  /** The state every sequence of registrations leaves: the user at position i
      has id i + 1 and the token issued for that id. */
  ghost predicate WellFormed(users: seq<User>) {
    forall i :: 0 <= i < |users| ==> users[i].id == i + 1 && users[i].token == Some(TokenFor(i + 1))
  }

  /** The user `register` appends: the caller's id and token are discarded,
      the password is replaced by its hash. */
  function Registered(users: seq<User>, candidate: User, hashed: string): (u: User)
    ensures u.id == |users| + 1 && u.email == candidate.email && u.password == hashed
    ensures u.token == Some(TokenFor(u.id))
  {
    var id := |users| + 1;
    User(id, candidate.email, hashed, Some(TokenFor(id)))
  }

  /** Passes when some user's token equals the presented one exactly
      (`users.iter().any(|u| u.token.as_ref() == Some(&token))`). */
  predicate TokenValid(users: seq<User>, token: string) {
    exists i :: 0 <= i < |users| && users[i].token == Some(token)
  }

  /** The position of the first user with the given email. */
  function FindUser(users: seq<User>, email: string): (r: Option<nat>)
    ensures r.Some? ==> r.value < |users| && users[r.value].email == email
    ensures r.Some? ==> forall j :: 0 <= j < r.value ==> users[j].email != email
    ensures r.None? <==> forall j :: 0 <= j < |users| ==> users[j].email != email
    decreases |users|
  {
    if users == [] then None
    else if users[0].email == email then Some(0)
    else match FindUser(users[1..], email)
      case None => None
      case Some(k) => Some(k + 1)
  }

  /** Every user holds a token, so `login` may unwrap it. */
  ghost predicate AllHaveTokens(users: seq<User>) {
    forall i :: 0 <= i < |users| ==> users[i].token.Some?
  }

  /** What `login` answers: decided by the first user with the email alone.
      `verify(plain, hash)` stands for the password hash check. */
  function LoginOutcome(users: seq<User>, email: string, password: string,
                        verify: (string, string) -> bool): Result<string>
    requires AllHaveTokens(users)
  {
    match FindUser(users, email)
    case None => Err(UserNotFound)
    case Some(i) =>
      if verify(password, users[i].password) then Ok(users[i].token.value) else Err(InvalidPassword)
  }

  // ----- registration -----

  lemma RegisterPreservesWellFormed(users: seq<User>, candidate: User, hashed: string)
    requires WellFormed(users)
    ensures WellFormed(users + [Registered(users, candidate, hashed)])
  {
    var s := users + [Registered(users, candidate, hashed)];
    forall i | 0 <= i < |s| ensures s[i].id == i + 1 && s[i].token == Some(TokenFor(i + 1)) {
      if i < |users| {
        assert s[i] == users[i];
      }
    }
  }

  lemma WellFormedHaveTokens(users: seq<User>)
    requires WellFormed(users)
    ensures AllHaveTokens(users)
  {
  }

  // ----- tokens -----

  /** Different ids get different tokens. */
  lemma TokenForInjective(m: nat, n: nat)
    ensures TokenFor(m) == TokenFor(n) <==> m == n
  {
  }

  /** In a well-formed directory the token check passes exactly for the tokens
      issued to ids 1..n. */
  lemma TokenValidIssued(users: seq<User>, token: string)
    requires WellFormed(users)
    ensures TokenValid(users, token) <==> exists k :: 1 <= k <= |users| && token == TokenFor(k)
  {
    if exists k :: 1 <= k <= |users| && token == TokenFor(k) {
      var k :| 1 <= k <= |users| && token == TokenFor(k);
      assert users[k - 1].token == Some(token);
    }
  }

  /** A token authorizes exactly one user. */
  lemma TokenNamesOneUser(users: seq<User>, i: nat, j: nat)
    requires WellFormed(users) && i < |users| && j < |users|
    requires users[i].token == users[j].token
    ensures i == j
  {
    TokenForInjective(i + 1, j + 1);
  }

  /** Only strings of the form "token" followed by decimal digits pass; in
      particular the empty string and every string of at most five characters
      fail. */
  lemma TokenValidShape(users: seq<User>, token: string)
    requires WellFormed(users) && TokenValid(users, token)
    ensures |token| > 5 && token[..5] == "token" && IsDigits(token[5..])
  {
  }

  /** The issued tokens are guessable: once anyone has registered, the string
      "token1" passes the check. */
  lemma FirstTokenGuessable(users: seq<User>)
    requires WellFormed(users) && |users| >= 1
    ensures TokenValid(users, "token1")
  {
    assert Show(1) == ['1'];
    assert "token" + ['1'] == "token1";
    assert users[0].token == Some(TokenFor(1));
  }

  // ----- login -----

  /** An email held by nobody but the appended user is found at the end. */
  lemma FindUserAfterNew(users: seq<User>, u: User, email: string)
    requires FindUser(users, email).None? && u.email == email
    ensures FindUser(users + [u], email) == Some(|users|)
  {
    assert (users + [u])[|users|].email == email;
  }

  /** Right after a registration whose email nobody holds yet, logging in with
      the registered password yields the new token and a wrong one is refused. */
  lemma LoginAfterRegister(users: seq<User>, candidate: User, hashed: string, password: string,
                           verify: (string, string) -> bool)
    requires AllHaveTokens(users) && FindUser(users, candidate.email).None?
    ensures AllHaveTokens(users + [Registered(users, candidate, hashed)])
    ensures LoginOutcome(users + [Registered(users, candidate, hashed)], candidate.email, password, verify)
         == if verify(password, hashed) then Ok(TokenFor(|users| + 1)) else Err(InvalidPassword)
  {
    var u := Registered(users, candidate, hashed);
    var s := users + [u];
    assert forall j :: 0 <= j < |users| ==> s[j] == users[j];
    assert AllHaveTokens(s);
    FindUserAfterNew(users, u, candidate.email);
    assert s[|users|] == u;
  }

  /** First match wins: a later registration with an email already held never
      changes what logging in with that email answers. */
  lemma LoginShadowedByEarlierEmail(users: seq<User>, later: seq<User>, email: string, password: string,
                                    verify: (string, string) -> bool)
    requires AllHaveTokens(users) && AllHaveTokens(later)
    requires FindUser(users, email).Some?
    ensures AllHaveTokens(users + later)
    ensures LoginOutcome(users + later, email, password, verify) == LoginOutcome(users, email, password, verify)
  {
    var s := users + later;
    var i := FindUser(users, email).value;
    assert forall j :: 0 <= j < |users| ==> s[j] == users[j];
    assert forall j :: |users| <= j < |s| ==> s[j] == later[j - |users|];
    assert FindUser(s, email) == Some(i);
  }
}
