/**
 * The in-memory post store of the backend (`PostsService`): an ordered list of
 * posts seeded with five entries, with list, filter-by-author, get, create,
 * update and remove.
 */
module Posts {
  import opened Wrappers
  import Ids

  /** A post; `userId` names its author but is never checked against the users. */
  datatype Post = Post(id: int, userId: int, title: string, body: Option<string>)

  /** What a caller supplies to `create`: every field but the id. */
  datatype PostDraft = PostDraft(userId: int, title: string, body: Option<string>)

  /** What a caller supplies to `update`: any subset of the fields other than the id. */
  datatype PostPatch = PostPatch(userId: Option<int>, title: Option<string>, body: Option<string>)

  const PostNotFound: Error := NotFound("Post not found")

  /** The ids of a list of posts, in the same order. */
  function IdsOf(ps: seq<Post>): seq<int> {
    seq(|ps|, i requires 0 <= i < |ps| => ps[i].id)
  }

  /** The five posts the store starts with (ids 1 to 5, written by users 1, 1, 2, 2 and 3). */
  function Seed(): seq<Post> {
    [ Post(1, 1, "Post 1", Some("Body of post 1")),
      Post(2, 1, "Post 2", Some("Body of post 2")),
      Post(3, 2, "Post 3", Some("Body of post 3")),
      Post(4, 2, "Post 4", Some("Body of post 4")),
      Post(5, 3, "Post 5", Some("Body of post 5")) ]
  }

  /** The seeded ids are 1 to 5, so the first `create` hands out 6. */
  lemma SeedIds()
    ensures IdsOf(Seed()) == [1, 2, 3, 4, 5]
    ensures Ids.NextId(IdsOf(Seed())) == 6
  {
  }

  /**
   * The shallow merge `{ ...post, ...patch }`: every field the patch supplies
   * overwrites, every field it leaves out keeps its old value, and the id stays.
   */
  function Merge(p: Post, patch: PostPatch): (r: Post)
    ensures r.id == p.id
    ensures r.userId == (if patch.userId.Some? then patch.userId.value else p.userId)
    ensures r.title == (if patch.title.Some? then patch.title.value else p.title)
    ensures r.body == (if patch.body.Some? then patch.body else p.body)
  {
    p.(userId := patch.userId.GetOr(p.userId),
       title := patch.title.GetOr(p.title),
       body := if patch.body.Some? then patch.body else p.body)
  }

  /** A patch that supplies nothing leaves a post as it is, and applying a patch twice is applying it once. */
  lemma MergeStable(p: Post, patch: PostPatch)
    ensures Merge(p, PostPatch(None, None, None)) == p
    ensures Merge(Merge(p, patch), patch) == Merge(p, patch)
  {
  }

  /** `filter((post) => post.userId === userId)`: the posts by one author, in store order. */
  function ByUser(ps: seq<Post>, userId: int): (r: seq<Post>)
    ensures |r| <= |ps|
    ensures forall p :: p in r ==> p in ps && p.userId == userId
  {
    if ps == [] then []
    else
      var last := ps[|ps| - 1];
      ByUser(ps[..|ps| - 1], userId) + (if last.userId == userId then [last] else [])
  }

  /** Filtering a concatenation filters each part: the filter keeps store order. */
  lemma {:induction false} ByUserAppend(a: seq<Post>, b: seq<Post>, userId: int)
    ensures ByUser(a + b, userId) == ByUser(a, userId) + ByUser(b, userId)
  {
    if b == [] {
      assert a + b == a;
    } else {
      var b' := b[..|b| - 1];
      assert (a + b)[..|a + b| - 1] == a + b';
      assert (a + b)[|a + b| - 1] == b[|b| - 1];
      ByUserAppend(a, b', userId);
    }
  }

  /**
   * The filter keeps exactly the posts by `userId`: each of them as many times
   * as it occurs in the store, and no other post.
   */
  lemma {:induction false} ByUserCounts(ps: seq<Post>, userId: int, p: Post)
    ensures multiset(ByUser(ps, userId))[p] == if p.userId == userId then multiset(ps)[p] else 0
  {
    if ps != [] {
      var init := ps[..|ps| - 1];
      assert ps == init + [ps[|ps| - 1]];
      ByUserCounts(init, userId, p);
    }
  }

  /** A post is in the filter exactly when it is in the store and has that author. */
  lemma {:induction false} ByUserMembers(ps: seq<Post>, userId: int)
    ensures forall p :: p in ByUser(ps, userId) <==> p in ps && p.userId == userId
  {
    forall p | p in ps && p.userId == userId
      ensures p in ByUser(ps, userId)
    {
      ByUserCounts(ps, userId, p);
    }
  }

  /** The filter is empty exactly when no post has that author; it never fails. */
  lemma {:induction false} ByUserEmpty(ps: seq<Post>, userId: int)
    ensures ByUser(ps, userId) == [] <==> forall i :: 0 <= i < |ps| ==> ps[i].userId != userId
  {
    ByUserMembers(ps, userId);
    var r := ByUser(ps, userId);
    if r != [] {
      assert r[0] in ps;
    }
  }

  lemma IdsOfAppend(ps: seq<Post>, p: Post)
    ensures IdsOf(ps + [p]) == IdsOf(ps) + [p.id]
  {
  }

  /** Deleting the record at one index keeps the remaining ids unique, and its id no longer occurs. */
  lemma RemoveAtKeepsUnique(ps: seq<Post>, k: int)
    requires 0 <= k < |ps|
    requires Ids.Unique(IdsOf(ps))
    ensures Ids.Unique(IdsOf(ps[..k] + ps[k + 1..]))
    ensures ps[k].id !in IdsOf(ps[..k] + ps[k + 1..])
  {
    var s := ps[..k] + ps[k + 1..];
    assert forall i :: 0 <= i < |s| ==> s[i] == ps[if i < k then i else i + 1];
    assert IdsOf(s) == IdsOf(ps)[..k] + IdsOf(ps)[k + 1..];
    Ids.RemoveAtKeepsUnique(IdsOf(ps), k);
  }

  class PostsService {
    /** The store, in insertion order. */
    var posts: seq<Post>

    /** Ids are unique: the seed has distinct ids and no operation duplicates one. */
    ghost predicate Valid()
      reads this
    {
      Ids.Unique(IdsOf(posts))
    }

    constructor ()
      ensures Valid()
      ensures posts == Seed()
    {
      posts := Seed();
    }

    /** `findAll`: the whole store, in insertion order. */
    method FindAll() returns (r: seq<Post>)
      ensures r == posts
    {
      r := posts;
    }

    /** `findByUserId`: the posts whose author is `userId`, in store order. */
    method FindByUserId(userId: int) returns (r: seq<Post>)
      ensures r == ByUser(posts, userId)
      ensures forall p :: p in r <==> p in posts && p.userId == userId
    {
      r := [];
      var i := 0;
      while i < |posts|
        invariant 0 <= i <= |posts|
        invariant r == ByUser(posts[..i], userId)
      {
        assert posts[..i + 1][..i] == posts[..i];
        if posts[i].userId == userId {
          r := r + [posts[i]];
        }
        i := i + 1;
      }
      assert posts[..i] == posts;
      ByUserMembers(posts, userId);
    }

    /** `findOne`: the first post with that id, or "Post not found". */
    method FindOne(id: int) returns (r: Result<Post, Error>)
      ensures r.Err? <==> id !in IdsOf(posts)
      ensures r.Err? ==> r.error == PostNotFound
      ensures r.Ok? ==> r.value == posts[Ids.FirstIndex(IdsOf(posts), id)]
      ensures r.Ok? ==> r.value in posts && r.value.id == id
    {
      var k := Ids.FindIndex(IdsOf(posts), id);
      if k == -1 {
        r := Err(PostNotFound);
      } else {
        r := Ok(posts[k]);
      }
    }

    /** `create`: appends the draft under the next id and returns the new post. */
    method Create(draft: PostDraft) returns (p: Post)
      requires Valid()
      modifies this
      ensures Valid()
      ensures p.id == Ids.NextId(old(IdsOf(posts)))
      ensures forall q :: q in old(posts) ==> q.id < p.id
      ensures p.userId == draft.userId && p.title == draft.title && p.body == draft.body
      ensures posts == old(posts) + [p]
    {
      var id := Ids.ComputeNextId(IdsOf(posts));
      forall q | q in posts
        ensures q.id < id
      {
        var i :| 0 <= i < |posts| && posts[i] == q;
        assert IdsOf(posts)[i] == q.id;
      }
      p := Post(id, draft.userId, draft.title, draft.body);
      IdsOfAppend(posts, p);
      Ids.AppendFreshKeepsUnique(IdsOf(posts), id);
      posts := posts + [p];
    }

    /**
     * `update`: merges the patch into the first post with that id and returns the
     * result; an unknown id fails with "Post not found" and changes nothing.
     */
    method Update(id: int, patch: PostPatch) returns (r: Result<Post, Error>)
      requires Valid()
      modifies this
      ensures Valid()
      ensures IdsOf(posts) == old(IdsOf(posts))
      ensures r.Err? <==> id !in old(IdsOf(posts))
      ensures r.Err? ==> r.error == PostNotFound && posts == old(posts)
      ensures r.Ok? ==>
        var k := Ids.FirstIndex(old(IdsOf(posts)), id);
        posts == old(posts)[k := Merge(old(posts)[k], patch)] && r.value == posts[k]
    {
      var k := Ids.FindIndex(IdsOf(posts), id);
      if k == -1 {
        return Err(PostNotFound);
      }
      var merged := Merge(posts[k], patch);
      assert IdsOf(posts[k := merged]) == IdsOf(posts);
      posts := posts[k := merged];
      r := Ok(posts[k]);
    }

    /**
     * `remove`: deletes the first post with that id, keeping the others in order;
     * an unknown id fails with "Post not found" and changes nothing.
     */
    method Remove(id: int) returns (r: Outcome<Error>)
      requires Valid()
      modifies this
      ensures Valid()
      ensures r.Fail? <==> id !in old(IdsOf(posts))
      ensures r.Fail? ==> r.error == PostNotFound && posts == old(posts)
      ensures r.Pass? ==>
        var k := Ids.FirstIndex(old(IdsOf(posts)), id);
        posts == old(posts)[..k] + old(posts)[k + 1..]
      ensures r.Pass? ==> |posts| == |old(posts)| - 1 && id !in IdsOf(posts)
    {
      var k := Ids.FindIndex(IdsOf(posts), id);
      if k == -1 {
        return Fail(PostNotFound);
      }
      RemoveAtKeepsUnique(posts, k);
      posts := posts[..k] + posts[k + 1..];
      r := Pass;
    }
  }

  /**
   * On the seeded store: `create` hands out id 6; after `remove(3)` five posts
   * remain and none has id 3; `update(1, { title })` changes only the title.
   */
  method SeededScenario() returns (created: Post, listed: seq<Post>, updated: Result<Post, Error>)
    ensures created == Post(6, 1, "T", Some("B"))
    ensures |listed| == 5 && 3 !in IdsOf(listed)
    ensures updated == Ok(Post(1, 1, "New", Some("Body of post 1")))
  {
    var store := new PostsService();
    SeedIds();
    created := store.Create(PostDraft(1, "T", Some("B")));
    ghost var ids := IdsOf(store.posts);
    assert ids[0] == 1 && ids[1] == 2 && ids[2] == 3;
    assert Ids.FirstIndex(ids, 3) == 2;
    var removed := store.Remove(3);
    assert removed.Pass?;
    assert store.posts[0] == Seed()[0];
    assert IdsOf(store.posts)[0] == 1;
    listed := store.FindAll();
    updated := store.Update(1, PostPatch(None, Some("New"), None));
  }

  /**
   * Ids are reissued: after the newest post is removed, the next `create`
   * hands out its id again.
   */
  method IdReuseScenario() returns (first: Post, second: Post)
    ensures first.id == 6 && second.id == 6
  {
    var store := new PostsService();
    SeedIds();
    first := store.Create(PostDraft(1, "T", None));
    IdsOfAppend(Seed(), first);
    assert Ids.FirstIndex(IdsOf(store.posts), 6) == 5;
    var removed := store.Remove(first.id);
    assert store.posts == Seed();
    second := store.Create(PostDraft(2, "U", None));
  }

  /** `findOne(create(draft).id)` returns the new post: the draft's fields under the assigned id. */
  method CreateThenFindOne(store: PostsService, draft: PostDraft) returns (p: Post, found: Result<Post, Error>)
    requires store.Valid()
    modifies store
    ensures store.Valid()
    ensures found == Ok(Post(p.id, draft.userId, draft.title, draft.body))
  {
    ghost var before := IdsOf(store.posts);
    p := store.Create(draft);
    IdsOfAppend(old(store.posts), p);
    Ids.FirstIndexOfAppended(before, p.id);
    found := store.FindOne(p.id);
  }

  /** After a successful `remove(id)`, `findOne(id)` fails with "Post not found". */
  method RemoveThenFindOne(store: PostsService, id: int) returns (removed: Outcome<Error>, found: Result<Post, Error>)
    requires store.Valid()
    modifies store
    ensures store.Valid()
    ensures removed.Pass? ==> |store.posts| == |old(store.posts)| - 1
    ensures found == Err(PostNotFound)
  {
    removed := store.Remove(id);
    found := store.FindOne(id);
  }
}
