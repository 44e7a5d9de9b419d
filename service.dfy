/** The shared application state and its six handlers, each taken as one
    atomic step on that state (every handler holds its locks throughout). */
module Service {
  import opened Types
  import opened ItemStore
  import opened UserDirectory
  import opened Auth
  import Decimal

  class AppState {
    var items: seq<Item>
    var users: seq<User>

    /** Registrations are the only writer of `users`, so ids are 1..n in
        order and each user holds the token issued for its id. */
    ghost predicate Valid()
      reads this
    {
      WellFormed(users)
    }

    /** Startup: the items read from the snapshot and no users. */
    constructor (loaded: seq<Item>)
      ensures Valid()
      ensures items == loaded && users == []
    {
      items := loaded;
      users := [];
    }

    /** POST /items. `saved` is the outcome of writing the snapshot. The item
        is appended before the write, and stays appended when the write fails. */
    method CreateItem(header: Option<seq<byte>>, candidate: Item, saved: bool) returns (r: Result<Item>)
      requires Valid()
      modifies this
      ensures Valid() && users == old(users)
      ensures Authorize(old(users), header).Err? ==>
        r == Err(Authorize(old(users), header).error) && items == old(items)
      ensures Authorize(old(users), header).Ok? ==>
        && items == old(items) + [Created(old(items), candidate)]
        && r == (if saved then Ok(Created(old(items), candidate)) else Err(SaveFailed))
      ensures r.Ok? ==> r.value == items[|items| - 1] && r.value.id == NextId(old(items))
      ensures UniqueIds(old(items)) ==> UniqueIds(items)
      ensures IncreasingIds(old(items)) ==> IncreasingIds(items)
    {
      var token := ExtractToken(header);
      if token.None? {
        return Err(MissingAuthorization);
      }
      if !TokenValid(users, token.value) {
        return Err(InvalidToken);
      }
      var newItem := candidate.(id := NextId(items));
      if UniqueIds(items) {
        CreatePreservesUniqueIds(items, candidate);
      }
      if IncreasingIds(items) {
        CreatePreservesIncreasingIds(items, candidate);
      }
      items := items + [newItem];
      if !saved {
        return Err(SaveFailed);
      }
      return Ok(newItem);
    }

    /** GET /items. */
    method GetItems() returns (r: seq<Item>)
      ensures r == items
    {
      r := items;
    }

    /** GET /items/{id}: the first item with that id. */
    method GetItem(id: nat) returns (r: Result<Item>)
      ensures r.Ok? <==> HasId(items, id)
      ensures r.Ok? ==> exists i :: 0 <= i < |items| && items[i] == r.value
      ensures r.Ok? ==> r.value.id == id && r.value == items[Find(items, id).value]
      ensures r.Err? ==> r.error == NoSuchItem(id)
    {
      match Find(items, id)
      case Some(i) => r := Ok(items[i]);
      case None => r := Err(NoSuchItem(id));
    }

    /** PUT /updateitems. Patches the first item of every requested id that
        exists, collects those ids, then writes the snapshot; as in CreateItem
        a failed write does not undo the patch. */
    method UpdateItems(header: Option<seq<byte>>, request: UpdateRequest, saved: bool)
      returns (r: Result<seq<nat>>)
      requires Valid()
      modifies this
      ensures Valid() && users == old(users)
      ensures Authorize(old(users), header).Err? ==>
        r == Err(Authorize(old(users), header).error) && items == old(items)
      ensures Authorize(old(users), header).Ok? ==>
        && items == BulkPatched(old(items), request.ids, request.item)
        && r == (if saved then Ok(FoundIds(old(items), request.ids)) else Err(SaveFailed))
      ensures SameIds(old(items), items)
    {
      var token := ExtractToken(header);
      if token.None? {
        return Err(MissingAuthorization);
      }
      if !TokenValid(users, token.value) {
        return Err(InvalidToken);
      }
      var updated: seq<nat> := [];
      for k := 0 to |request.ids|
        invariant items == ApplyPatch(old(items), request.ids[..k], request.item)
        invariant updated == FoundIds(old(items), request.ids[..k])
        modifies this`items
      {
        var id := request.ids[k];
        ApplyPatchKeepsIds(old(items), request.ids[..k], request.item);
        ApplyPatchStep(old(items), request.ids, request.item, k);
        FoundIdsStep(old(items), request.ids, k);
        HasIdSameIds(old(items), items, id);
        match Find(items, id)
        case Some(i) =>
          items := items[i := Patched(items[i], request.item)];
          updated := updated + [id];
        case None =>
      }
      assert request.ids[..|request.ids|] == request.ids;
      ApplyPatchKeepsIds(old(items), request.ids, request.item);
      ApplyPatchMeetsSpec(old(items), request.ids, request.item);
      if !saved {
        return Err(SaveFailed);
      }
      return Ok(updated);
    }

    /** POST /register. `hashed` is the hash of `candidate.password`; the
        caller's id and token are discarded. The answer is the id and email only. */
    method Register(candidate: User, hashed: string) returns (r: UserSummary)
      requires Valid()
      modifies this
      ensures Valid() && items == old(items)
      ensures users == old(users) + [Registered(old(users), candidate, hashed)]
      ensures r == UserSummary(|old(users)| + 1, candidate.email)
    {
      RegisterPreservesWellFormed(users, candidate, hashed);
      var newUser := candidate.(id := |users| + 1);
      newUser := newUser.(token := Some(TokenFor(newUser.id)));
      newUser := newUser.(password := hashed);
      users := users + [newUser];
      r := UserSummary(newUser.id, newUser.email);
    }

    /** POST /login: the first user with the email decides. */
    method Login(email: string, password: string, verify: (string, string) -> bool)
      returns (r: Result<string>)
      requires Valid()
      ensures AllHaveTokens(users)
      ensures r == LoginOutcome(users, email, password, verify)
    {
      WellFormedHaveTokens(users);
      for k := 0 to |users|
        invariant forall j :: 0 <= j < k ==> users[j].email != email
      {
        var u := users[k];
        if u.email == email {
          if verify(password, u.password) {
            return Ok(u.token.value);
          } else {
            return Err(InvalidPassword);
          }
        }
      }
      return Err(UserNotFound);
    }
  }

  lemma TokenOne()
    ensures TokenFor(1) == "token1"
  {
    assert Decimal.Show(1) == ['1'];
    assert "token" + ['1'] == "token1";
  }

  /** The header "Authorization: Bearer token1", which the first registered user passes. */
  function BearerHeaderOne(users: seq<User>): (header: Option<seq<byte>>)
    requires |users| >= 1 && users[0].token == Some("token1")
    ensures Authorize(users, header) == Ok("token1")
  {
    var t := "token1";
    assert forall i :: 0 <= i < |t| ==> (32 <= t[i] as int < 127 || t[i] == '\t');
    var text := BearerPrefix + t;
    assert forall i :: 0 <= i < |text| ==> text[i] as int < 256;
    ExtractBearer(t);
    assert TokenValid(users, t);
    Some(Bytes(text))
  }

  /** Sign-up scenario: register on a fresh service, then log in with the
      right and with a wrong password. */
  method SignUpScenario(hashed: string, verify: (string, string) -> bool)
    returns (summary: UserSummary, login: Result<string>, refused: Result<string>)
    requires verify("secret1", hashed) && !verify("wrong", hashed)
    ensures summary == UserSummary(1, "a@x.com")
    ensures login == Ok("token1") && refused == Err(InvalidPassword)
  {
    var app := new AppState([]);
    summary := app.Register(User(0, "a@x.com", "secret1", None), hashed);
    TokenOne();
    var alice := User(1, "a@x.com", hashed, Some("token1"));
    assert app.users == [alice];
    assert FindUser([alice], "a@x.com") == Some(0);
    login := app.Login("a@x.com", "secret1", verify);
    refused := app.Login("a@x.com", "wrong", verify);
  }

  /** Create scenario: with the issued token, two creates on an empty store
      get ids 1 and 2. */
  method CreateScenario(hashed: string, price: Price)
    returns (first: Result<Item>, second: Result<Item>, stored: seq<Item>)
    ensures first == Ok(Item(1, "pen", price)) && second == Ok(Item(2, "pen", price))
    ensures stored == [Item(1, "pen", price), Item(2, "pen", price)]
  {
    var app := new AppState([]);
    var _ := app.Register(User(0, "a@x.com", "secret1", None), hashed);
    TokenOne();
    var alice := User(1, "a@x.com", hashed, Some("token1"));
    assert app.users == [alice];
    var header := BearerHeaderOne([alice]);
    var pen := Item(0, "pen", price);
    assert Created([], pen) == Item(1, "pen", price);
    assert Created([Item(1, "pen", price)], pen) == Item(2, "pen", price) by {
      assert MaxId([Item(1, "pen", price)]) == 1;
    }
    first := app.CreateItem(header, pen, true);
    assert app.items == [Item(1, "pen", price)];
    second := app.CreateItem(header, pen, true);
    stored := app.GetItems();
  }

  /** Lookup scenario, on the store the create scenario builds: id 2 is the
      second item, id 99 is not found. */
  method LookupScenario(price: Price) returns (got: Result<Item>, missing: Result<Item>)
    ensures got == Ok(Item(2, "pen", price)) && missing == Err(NoSuchItem(99))
  {
    var app := new AppState([Item(1, "pen", price), Item(2, "pen", price)]);
    assert app.items[0].id == 1 && app.items[1].id == 2;
    got := app.GetItem(2);
    missing := app.GetItem(99);
  }
}
