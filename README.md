# In-memory post and user stores

This project models the two record stores of a small NestJS backend for a users-and-posts
CRUD demo: `PostsService` and `UsersService`. Each service owns a private, mutable list of
records. The list starts with five seeded records, ids 1 to 5. Each service offers:

- `findAll`: the whole list;
- `findOne(id)`: a linear search that throws "not found" for an unknown id;
- `create(dto)`: gives the new record the id `max(existing ids) + 1`, or 1 when the list is
  empty, and appends it;
- `update(id, dto)`: finds the index, throws for an unknown id, and replaces the record with a
  shallow merge of the supplied fields over the old one;
- `remove(id)`: finds the index, throws for an unknown id, and splices the record out.

`PostsService` also has `findByUserId`, which keeps the posts with a given author, in list order.

Layout:

- `wrappers.dfy`, module `Wrappers`: `Option`, `Result` and `Outcome`. It also holds `Error`,
  whose one constructor `NotFound(message)` stands for the thrown `Error`.
- `ids.dfy`, module `Ids`: the part both services share. It holds the id policy (`Max`,
  `NextId`, the loop `ComputeNextId`) and the first-index search (`FirstIndex`, the loop
  `FindIndex`). Both work on the list of ids in store order, with the uniqueness lemmas.
- `posts.dfy`, module `Posts`: the `Post`, `PostDraft` (create DTO) and `PostPatch` (update DTO)
  datatypes, the shallow `Merge`, the author filter `ByUser`, and the class `PostsService`.
  The class's `posts: seq<Post>` field is reassigned by `Create`, `Update` and `Remove`.
- `users.dfy`, module `Users`: the same for `User`, `UserDraft`, `UserPatch` and `UsersService`.

The class invariant `Valid()` says that ids are unique. The constructor establishes it and
every mutating method keeps it. A thrown "not found" becomes `Err(NotFound("Post not found"))`,
or `Fail(...)` for `remove`, which returns nothing. In that case the store is left exactly as
it was. Update DTOs are records of optional fields. This keeps "field left out" apart from
"field supplied with an empty value": a supplied empty title still overwrites. `Post.body` is
optional because the frontend treats it as possibly missing.

## Model

| member | source | states |
|---|---|---|
| `Ids.Max` | project-root/backend/src/posts/posts.service.ts:61 | `Math.max(...ids)` of a non-empty store is one of the ids and is at least every id |
| `Ids.MaxIsGreatestMember` | project-root/backend/src/users/users.service.ts:57 | a member that bounds every id is the maximum, so the scanning loop and `Max` agree |
| `Ids.NextId` | project-root/backend/src/posts/posts.service.ts:58-62 | the id `create` assigns is greater than every id present, hence fresh; it is one more than a present id, or 1 for an empty store |
| `Ids.ComputeNextId` | project-root/backend/src/users/users.service.ts:54-58 | the one-pass scan for the maximum returns exactly the id the policy prescribes (1 when empty) |
| `Ids.FirstIndex` | project-root/backend/src/posts/posts.service.ts:73-77 | `findIndex` yields -1 exactly when the id is absent; otherwise an index holding the id with no earlier index holding it |
| `Ids.FindIndex` | project-root/backend/src/posts/posts.service.ts:50 | the linear search returns the first index holding the id, -1 when there is none |
| `Ids.AppendFreshKeepsUnique` | project-root/backend/src/posts/posts.service.ts:58-65 | appending a record whose id is not present keeps ids unique |
| `Ids.RemoveAtKeepsUnique` | project-root/backend/src/posts/posts.service.ts:90 | splicing out one index keeps ids unique and its id no longer occurs |
| `Ids.FirstIndexOfAppended` | project-root/backend/src/users/users.service.ts:45-61 | a fresh id appended last is found at the last index, so a lookup right after `create` finds the new record |
| `Posts.SeedIds` | project-root/backend/src/posts/posts.service.ts:8-39 | the seeded posts have ids 1 to 5, so the first `create` gives id 6 |
| `Posts.Merge` | project-root/backend/src/posts/posts.service.ts:79 | shallow merge: the id is kept; `userId`, `title` and `body` take the patch's value when supplied and keep the old value otherwise |
| `Posts.MergeStable` | project-root/backend/src/posts/posts.service.ts:79 | a patch that supplies nothing changes nothing, and applying a patch twice equals applying it once |
| `Posts.ByUser` | project-root/backend/src/posts/posts.service.ts:46 | the filter is no longer than the store and holds only posts of the store with that author |
| `Posts.ByUserAppend` | project-root/backend/src/posts/posts.service.ts:46 | filtering a concatenation concatenates the filtered parts, so store order is kept |
| `Posts.ByUserCounts` | project-root/backend/src/posts/posts.service.ts:46 | every post with that author occurs in the filter as often as in the store; every other post not at all |
| `Posts.ByUserMembers` | project-root/backend/src/posts/posts.service.ts:46 | a post is in the filter if and only if it is in the store and has that author |
| `Posts.ByUserEmpty` | project-root/backend/src/posts/posts.service.ts:45-47 | the filter is empty if and only if no post has that author (an empty result, never a failure) |
| `Posts.RemoveAtKeepsUnique` | project-root/backend/src/posts/posts.service.ts:90 | splicing out one post keeps the post ids unique and removes its id from the store |
| `Posts.PostsService.constructor` | project-root/backend/src/posts/posts.service.ts:8-39 | the store starts as the five seeded posts, ids unique |
| `Posts.PostsService.FindAll` | project-root/backend/src/posts/posts.service.ts:41-43 | returns the current contents in insertion order, as a value; nothing changes |
| `Posts.PostsService.FindByUserId` | project-root/backend/src/posts/posts.service.ts:45-47 | returns exactly the posts with that author, in store order; the store is not modified |
| `Posts.PostsService.FindOne` | project-root/backend/src/posts/posts.service.ts:49-55 | fails with "Post not found" if and only if the id is absent; otherwise returns the first post with that id; no mutation |
| `Posts.PostsService.Create` | project-root/backend/src/posts/posts.service.ts:57-67 | the new post gets the next id (greater than every earlier id) and the draft's fields; it is appended last, earlier posts unchanged and in order; ids stay unique |
| `Posts.PostsService.Update` | project-root/backend/src/posts/posts.service.ts:69-82 | an absent id fails with the store unchanged; otherwise only the first matching post is replaced, by its merge with the patch; ids unchanged; the returned post is the stored one |
| `Posts.PostsService.Remove` | project-root/backend/src/posts/posts.service.ts:84-91 | an absent id fails with the store unchanged; otherwise exactly the first matching post is deleted, the rest keep their order, the length drops by one and the id is gone |
| `Posts.SeededScenario` | project-root/backend/src/posts/posts.service.ts:8-91 | on the seeded store `create` gives id 6; after `remove(3)` five posts remain, none with id 3; `update(1, {title: "New"})` changes only the title |
| `Posts.IdReuseScenario` | project-root/backend/src/posts/posts.service.ts:58-66 | the max-plus-one policy reissues an id: create id 6, remove it, and the next `create` gets 6 again |
| `Posts.CreateThenFindOne` | project-root/backend/src/posts/posts.service.ts:49-66 | `findOne(create(draft).id)` returns the draft's fields under the assigned id |
| `Posts.RemoveThenFindOne` | project-root/backend/src/posts/posts.service.ts:49-91 | after `remove(id)`, `findOne(id)` fails with "Post not found"; a successful remove shortens the store by one |
| `Users.SeedIds` | project-root/backend/src/users/users.service.ts:8-39 | the seeded users have ids 1 to 5, so the first `create` gives id 6 |
| `Users.Merge` | project-root/backend/src/users/users.service.ts:75 | shallow merge: the id is kept; `name`, `username` and `email` take the patch's value when supplied and keep the old value otherwise |
| `Users.MergeStable` | project-root/backend/src/users/users.service.ts:75 | a patch that supplies nothing changes nothing, and applying a patch twice equals applying it once |
| `Users.RemoveAtKeepsUnique` | project-root/backend/src/users/users.service.ts:86 | splicing out one user keeps the user ids unique and removes its id from the store |
| `Users.UsersService.constructor` | project-root/backend/src/users/users.service.ts:8-39 | the store starts as the five seeded users, ids unique |
| `Users.UsersService.FindAll` | project-root/backend/src/users/users.service.ts:41-43 | returns the current contents in insertion order, as a value; nothing changes |
| `Users.UsersService.FindOne` | project-root/backend/src/users/users.service.ts:45-51 | fails with "User not found" if and only if the id is absent; otherwise returns the first user with that id; no mutation |
| `Users.UsersService.Create` | project-root/backend/src/users/users.service.ts:53-63 | the new user gets the next id (greater than every earlier id) and the draft's fields; it is appended last, earlier users unchanged; ids stay unique |
| `Users.UsersService.Update` | project-root/backend/src/users/users.service.ts:65-78 | an absent id fails with the store unchanged; otherwise only the first matching user is replaced, by its merge with the patch; ids unchanged; the returned user is the stored one |
| `Users.UsersService.Remove` | project-root/backend/src/users/users.service.ts:80-87 | an absent id fails with the store unchanged; otherwise exactly one user is deleted, the rest keep their order, the length drops by one and the id is gone |
| `Users.SeededScenario` | project-root/backend/src/users/users.service.ts:8-87 | on the seeded store `create` gives id 6; two listings with nothing between are equal; after `remove(6)`, `findOne(6)` fails |
| `Users.CreateThenFindOne` | project-root/backend/src/users/users.service.ts:45-62 | `findOne(create(draft).id)` returns the draft's fields under the assigned id |
| `Users.RemoveThenFindOne` | project-root/backend/src/users/users.service.ts:45-87 | after `remove(id)`, `findOne(id)` fails with "User not found"; a successful remove shortens the store by one |

## Left out

- The `console.log` calls in both `update` methods are debugging output and are not modelled.
- `findAll` returns the live array by reference, so a caller could mutate the store through it.
  The model returns the sequence value, so aliasing and mutation by callers are not captured.
- The seed strings (titles, bodies, names, usernames, emails) are replaced by neutral
  placeholders. The seeded ids (1 to 5) and the posts' `userId`s (1, 1, 2, 2, 3) are kept.
- Ids are unbounded integers. In the source they are JavaScript numbers, exact only up to
  2^53. `Math.max(...)` over a very long array can also throw a `RangeError`, which the model
  does not capture.
- The create and update DTO classes are not part of this model. Drafts and patches carry no
  `id`. A request body that did carry one would overwrite the assigned or existing id through
  the spread at posts.service.ts:63 and :79. That case is not modelled.
- A patch can set `body` to a string. Clearing it by sending the key with an undefined value
  is not modelled, because a JSON request body cannot carry `undefined`.
- No validation is modelled. The source does not check `userId` against the user store, and it
  does not check the DTOs' field types at run time.
- The HTTP controller (routing, `ParseIntPipe`, the mapping of errors to 404) is HTTP glue and is
  not part of this model. So is its rule of filtering by author only when the `userId` query
  string is non-empty, with `parseInt` able to yield NaN. The frontend API client and the React
  components are not part of this model either.
- Concurrency is not modelled. Each operation runs to completion on a single-threaded server,
  and each method here is one atomic step.
