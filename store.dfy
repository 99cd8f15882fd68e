/** The in-memory resource store: the user and product collections, their list and
    by-id operations, and user creation with its `count + 1` id scheme. */
module ResourceStore {
  import opened Json
  import opened Lookup

  /** A user record. Name and email are stored exactly as the request carried them, untyped. */
  datatype User = User(id: int, name: Value, email: Value)

  /** A product record. The price is kept as an opaque JSON number. */
  datatype Product = Product(id: int, name: string, price: Value)

  function UserId(u: User): int { u.id }
  function ProductId(p: Product): int { p.id }

  const SeedUsers: seq<User> := [
    User(1, Str("John Doe"), Str("john@example.com")),
    User(2, Str("Jane Smith"), Str("jane@example.com"))
  ]

  const SeedProducts: seq<Product> := [
    Product(1, "Laptop", Float("999.99")),
    Product(2, "Smartphone", Float("499.99"))
  ]

  /** The user id invariant: the user at position `i` has id `i + 1`. */
  ghost predicate IdsSequential(users: seq<User>) {
    forall i :: 0 <= i < |users| ==> users[i].id == i + 1
  }

  /** What user creation yields: the created record (HTTP 201) or a rejected request (HTTP 400). */
  datatype CreateResult = Created(user: User) | InvalidRequest

  /** The validation of a creation request: a truthy body holding the keys `name` and `email`.
      Only the presence of the keys is tested; a key whose value is `null` passes. */
  predicate AcceptsBody(body: Option<map<string, Value>>) {
    body.Some? && ObjectIsTruthy(body.value) && "name" in body.value && "email" in body.value
  }

  /** A present object is accepted exactly when it holds both keys, whatever their values
      (`null` included): the truthiness test adds nothing once both keys are present.
      An absent body and the empty object are rejected. */
  lemma AcceptsBodyExactly(obj: map<string, Value>)
    ensures AcceptsBody(Some(obj)) <==> "name" in obj && "email" in obj
    ensures !AcceptsBody(None) && !AcceptsBody(Some(map[]))
  {
  }

  /** The seed satisfies the id invariant, and so do both seeded lookups. */
  lemma SeedIdsSequential()
    ensures IdsSequential(SeedUsers)
    ensures forall i :: 0 <= i < |SeedProducts| ==> SeedProducts[i].id == i + 1
  {
  }

  /** Ids under the invariant are strictly increasing, hence pairwise distinct, and all
      below the id the next creation assigns. */
  lemma SequentialIdsIncreasing(users: seq<User>)
    requires IdsSequential(users)
    ensures forall i, j :: 0 <= i < j < |users| ==> users[i].id < users[j].id
    ensures forall i :: 0 <= i < |users| ==> users[i].id < |users| + 1
  {
  }

  /** Appending a record with id `count + 1` keeps the invariant. */
  lemma AppendKeepsIdsSequential(users: seq<User>, u: User)
    requires IdsSequential(users)
    requires u.id == |users| + 1
    ensures IdsSequential(users + [u])
  {
  }

  /** Under the invariant, looking up `k` finds the user at position `k - 1` when
      `1 <= k <= count`, and nothing otherwise. */
  lemma {:induction false} LookupSequential(users: seq<User>, k: int)
    requires IdsSequential(users)
    ensures Find(users, UserId, k) == if 1 <= k <= |users| then Found(users[k - 1]) else NotFound
  {
    if 1 <= k <= |users| {
      FindReturnsFirst(users, UserId, k, k - 1);
    } else {
      assert forall i :: 0 <= i < |users| ==> UserId(users[i]) != k;
    }
  }

  /** A record appended with id `count + 1` is found by its id, and looking up any
      earlier id gives the same answer as before the append. */
  lemma {:induction false} LookupAfterAppend(users: seq<User>, u: User, k: int)
    requires IdsSequential(users)
    requires u.id == |users| + 1
    ensures Find(users + [u], UserId, u.id) == Found(u)
    ensures k != u.id ==> Find(users + [u], UserId, k) == Find(users, UserId, k)
  {
    AppendKeepsIdsSequential(users, u);
    LookupSequential(users + [u], u.id);
    LookupSequential(users + [u], k);
    LookupSequential(users, k);
    if 1 <= k <= |users| {
      assert (users + [u])[k - 1] == users[k - 1];
    }
  }

  class Store {
    /** The user collection in insertion order. */
    var users: seq<User>
    /** The product collection in insertion order; it is fixed when the store is created. */
    const products: seq<Product>

    ghost predicate Valid()
      reads this
    {
      IdsSequential(users)
    }

    /** The store as the process starts: both collections hold their seed records. */
    constructor ()
      ensures Valid()
      ensures users == SeedUsers && products == SeedProducts
    {
      users := SeedUsers;
      products := SeedProducts;
    }

    /** All users, in insertion order. */
    function GetUsers(): (r: seq<User>)
      reads this
      ensures r == users
    {
      users
    }

    /** All products, in insertion order. */
    function GetProducts(): (r: seq<Product>)
      reads this
      ensures r == products
    {
      products
    }

    /** The first user whose id is `id`, or NotFound (HTTP 404). */
    function GetUser(id: int): (r: Lookup<User>)
      reads this
      ensures r.Found? ==> r.rec in users && r.rec.id == id
      ensures r.NotFound? <==> forall i :: 0 <= i < |users| ==> users[i].id != id
      ensures forall i :: IsFirstMatch(users, UserId, id, i) ==> r == Found(users[i])
    {
      forall i | IsFirstMatch(users, UserId, id, i)
        ensures Find(users, UserId, id) == Found(users[i])
      {
        FindReturnsFirst(users, UserId, id, i);
      }
      Find(users, UserId, id)
    }

    /** The first product whose id is `id`, or NotFound (HTTP 404). */
    function GetProduct(id: int): (r: Lookup<Product>)
      reads this
      ensures r.Found? ==> r.rec in products && r.rec.id == id
      ensures r.NotFound? <==> forall i :: 0 <= i < |products| ==> products[i].id != id
      ensures forall i :: IsFirstMatch(products, ProductId, id, i) ==> r == Found(products[i])
    {
      forall i | IsFirstMatch(products, ProductId, id, i)
        ensures Find(products, ProductId, id) == Found(products[i])
      {
        FindReturnsFirst(products, ProductId, id, i);
      }
      Find(products, ProductId, id)
    }

    /** Validate a creation request and, when it passes, append a user whose id is the
        current count plus one. A rejected request changes nothing. */
    method CreateUser(body: Option<map<string, Value>>) returns (r: CreateResult)
      requires Valid()
      modifies this`users
      ensures Valid()
      ensures !AcceptsBody(body) ==> r == InvalidRequest && users == old(users)
      ensures AcceptsBody(body) ==>
        r == Created(User(|old(users)| + 1, body.value["name"], body.value["email"])) &&
        users == old(users) + [r.user]
      ensures r.Created? ==> GetUser(r.user.id) == Found(r.user)
      ensures r.Created? ==> forall i :: 0 <= i < |old(users)| ==> old(users)[i].id < r.user.id
    {
      if body.None? || !ObjectIsTruthy(body.value) || "name" !in body.value || "email" !in body.value {
        return InvalidRequest;
      }
      var user := User(|users| + 1, body.value["name"], body.value["email"]);
      LookupAfterAppend(users, user, user.id);
      users := users + [user];
      r := Created(user);
    }
  }
}
