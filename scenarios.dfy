/** The request scenarios of the repository's test suite, each run against a freshly
    seeded store, with what the model proves they return. */
module Scenarios {
  import opened Json
  import opened Lookup
  import opened ResourceStore

  /** Listing users and products on the seed gives the non-empty seed collections. */
  method ListSeedScenario() returns (users: seq<User>, products: seq<Product>)
    ensures users == SeedUsers && |users| == 2
    ensures products == SeedProducts && |products| == 2
  {
    var s := new Store();
    users := s.GetUsers();
    products := s.GetProducts();
  }

  /** User 1 is found with id 1; user 999 is not found. */
  method GetUserScenario() returns (one: Lookup<User>, missing: Lookup<User>)
    ensures one == Found(User(1, Str("John Doe"), Str("john@example.com")))
    ensures missing == NotFound
  {
    var s := new Store();
    LookupSequential(s.users, 1);
    LookupSequential(s.users, 999);
    one := s.GetUser(1);
    missing := s.GetUser(999);
  }

  /** Product 1 is found with id 1 and carries a price. */
  method GetProductScenario() returns (one: Lookup<Product>)
    ensures one == Found(Product(1, "Laptop", Float("999.99")))
  {
    var s := new Store();
    one := s.GetProduct(1);
  }

  /** Creating a user on the seed yields id 3 with the request's name and email,
      and the new user is then listed last and found by its id. */
  method CreateUserScenario() returns (r: CreateResult, listed: seq<User>, fetched: Lookup<User>)
    ensures r == Created(User(3, Str("Test User"), Str("test@example.com")))
    ensures listed == SeedUsers + [r.user]
    ensures fetched == Found(r.user)
  {
    var s := new Store();
    var body := map["name" := Str("Test User"), "email" := Str("test@example.com")];
    assert "name" in body && "email" in body && body["name"] == Str("Test User");
    r := s.CreateUser(Some(body));
    listed := s.GetUsers();
    fetched := s.GetUser(3);
  }

  /** No body, an empty object, or an object missing `name` or `email` is rejected,
      and the user list stays the seed. */
  method RejectedBodiesScenario() returns (absent: CreateResult, empty: CreateResult,
                                           nameOnly: CreateResult, emailOnly: CreateResult,
                                           listed: seq<User>)
    ensures absent == InvalidRequest && empty == InvalidRequest
    ensures nameOnly == InvalidRequest && emailOnly == InvalidRequest
    ensures listed == SeedUsers
  {
    var s := new Store();
    absent := s.CreateUser(None);
    empty := s.CreateUser(Some(map[]));
    nameOnly := s.CreateUser(Some(map["name" := Str("x")]));
    emailOnly := s.CreateUser(Some(map["email" := Str("x")]));
    listed := s.GetUsers();
  }

  /** Only key presence is validated: a `null` name is accepted and stored as `null`. */
  method NullNameScenario() returns (r: CreateResult)
    ensures r == Created(User(3, Null, Str("x@example.com")))
  {
    var s := new Store();
    var body := map["name" := Null, "email" := Str("x@example.com")];
    assert "name" in body && "email" in body && body["name"] == Null;
    r := s.CreateUser(Some(body));
  }
}
