# QATest mock REST API: the in-memory resource store

This project models the resource store behind the mock REST API in `app.py`. The API holds two
collections in process memory, users and products. Each is an ordered list of flat records keyed
by an integer `id` and seeded with two records. The API can list either collection, fetch one
record by id (the first in list order with that id, else 404), and create a user. Creation
validates a loosely typed JSON body and assigns `id = number of users + 1`. It appends the record
at the end and returns it with 201; a rejected body gives 400 and changes nothing.

Layout:

- `json.dfy` (module `Json`): the decoded JSON value, an `Option` for an absent body, and the
  truthiness of a JSON object.
- `lookup.dfy` (module `Lookup`): the by-id linear scan `Find` and the `Found(rec) | NotFound`
  result. `Find` is shared by users and products; both handlers run the same `next(...)` scan.
- `store.dfy` (module `ResourceStore`): the `User` and `Product` records and the seed data. It has
  the `Store` class, whose `users` field and `products` constant are sequences; `CreateUser` is the
  only method that assigns `users`, and `products` is fixed when the store is created. It also holds the id
  invariant `IdsSequential` (the user at position `i` has id `i + 1`) and the lemmas about it.
- `scenarios.dfy` (module `Scenarios`): the requests of `test_app.py`, each on a freshly seeded
  store, with the responses the model proves for them.

The handler checks only that the keys `name` and `email` are present (`app.py:30`), so a `null`
value is accepted and stored; the model follows the code (`AcceptsBody`, `Scenarios.NullNameScenario`).

## Model

| member | source | states |
|---|---|---|
| Lookup.Find | app.py:23 | the scan returns a record of the list whose id is the key, and returns NotFound exactly when no record has that id |
| Lookup.FindReturnsFirst | app.py:23 | when position `i` holds the first record with the key, the scan returns that record (first match in list order, as `next` over the generator) |
| ResourceStore.Store.constructor | app.py:6-14 | the store starts with the two seeded users and the two seeded products and satisfies the id invariant |
| ResourceStore.Store.GetUsers | app.py:17-19 | listing users returns the whole user collection in insertion order |
| ResourceStore.Store.GetProducts | app.py:42-44 | listing products returns the whole product collection in insertion order |
| ResourceStore.Store.GetUser | app.py:21-26 | the result is the first user in list order whose id equals the argument; NotFound (404) exactly when no user has that id; reads only, changes nothing |
| ResourceStore.Store.GetProduct | app.py:46-51 | the result is the first product in list order whose id equals the argument; NotFound (404) exactly when no product has that id; reads only, changes nothing |
| ResourceStore.AcceptsBodyExactly | app.py:30 | the validation accepts a present object exactly when it holds both keys `name` and `email`, whatever their values (a `null` passes); an absent body and `{}` are rejected |
| ResourceStore.Store.CreateUser | app.py:28-39 | an absent or empty body, or one missing `name` or `email`, gives InvalidRequest (400) and leaves `users` unchanged; otherwise the new user list is the old one plus one record with id old count + 1 and the body's `name`/`email` values; the invariant is kept (`products` is a constant of the store, so it never changes), the new user is then found by its id, and its id exceeds every earlier id |
| ResourceStore.SeedIdsSequential | app.py:6-14 | the seeded users, and likewise the seeded products, have id `i + 1` at position `i` |
| ResourceStore.SequentialIdsIncreasing | app.py:34 | under the id invariant user ids strictly increase along the list (so they are unique), and all lie below the id the next creation assigns |
| ResourceStore.AppendKeepsIdsSequential | app.py:34-38 | appending a record whose id is the current count + 1 preserves the id invariant |
| ResourceStore.LookupSequential | app.py:23-26 | under the id invariant, looking up `k` finds the user at position `k - 1` when `1 <= k <= count`, and is NotFound otherwise |
| ResourceStore.LookupAfterAppend | app.py:34-38 | after appending a record with id count + 1, that id finds the new record and every other id gives the same lookup result as before |
| Scenarios.ListSeedScenario | test_app.py:10-16 | listing users and products on the seed returns the two seed records of each, so both lists are non-empty |
| Scenarios.GetUserScenario | test_app.py:18-30 | on the seed, user 1 is found with id 1 and a name and email, and user 999 is NotFound |
| Scenarios.GetProductScenario | test_app.py:54-61 | on the seed, product 1 is found with id 1, a name and a price |
| Scenarios.CreateUserScenario | test_app.py:32-44 | creating `{"name": "Test User", "email": "test@example.com"}` on the seed gives id 3 with that name and email; the user is listed last and found by id 3 |
| Scenarios.RejectedBodiesScenario | app.py:30-31 | no body, `{}`, a body with only `name` and a body with only `email` are each rejected, and the user list stays the seed |
| Scenarios.NullNameScenario | app.py:30-36 | a body whose `name` is `null` passes validation, and the created user stores `null` as its name |

## Left out

- HTTP routing, including the `<int:...>` path converter: a non-integer path segment never reaches a handler, so lookups take an `int`.
- JSON serialisation by `jsonify` and status codes: the results `Found`/`NotFound` and `Created`/`InvalidRequest` stand for 200/404 and 201/400.
- Request body parsing by the framework, including malformed JSON and a wrong content type: the body reaches the model already decoded, or as `None`.
- Non-object JSON bodies (an array, a string, a number): for them Python's `in` tests elements or substrings, or raises an error that is not handled in `app.py`. The model takes the body as an optional JSON object.
- Product prices are floats: they are kept as opaque literal text and never computed with.
- Concurrent requests: the read-count, compute-id, append sequence of `create_user` is atomic only when requests are served one at a time, which the model assumes.
- Server start-up (`app.run`, host and port) and the unit-test harness wiring.
- The Python tests share one module-level store, so `test_create_user` also changes what later tests see. The scenarios each use a fresh store instead.
