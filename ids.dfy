/**
 * The id policy and the lookup by id that both record stores share.
 * A store is seen here through the sequence of its records' ids, in store order.
 */
module Ids {

  /** No id occurs twice. */
  ghost predicate Unique(ids: seq<int>) {
    forall i, j :: 0 <= i < j < |ids| ==> ids[i] != ids[j]
  }

  /** The largest id of a non-empty store (`Math.max(...ids)`). */
  function Max(ids: seq<int>): (m: int)
    requires |ids| > 0
    ensures m in ids
    ensures forall i :: 0 <= i < |ids| ==> ids[i] <= m
  {
    if |ids| == 1 then ids[0]
    else
      var m' := Max(ids[..|ids| - 1]);
      if m' < ids[|ids| - 1] then ids[|ids| - 1] else m'
  }

  /**
   * The id `create` assigns: one more than the largest id present, or 1 when
   * the store is empty. It is larger than every id present, so it is fresh.
   */
  function NextId(ids: seq<int>): (n: int)
    ensures forall i :: 0 <= i < |ids| ==> ids[i] < n
    ensures n !in ids
    ensures |ids| > 0 ==> n - 1 in ids
    ensures |ids| == 0 ==> n == 1
  {
    if |ids| > 0 then Max(ids) + 1 else 1
  }

  /**
   * `findIndex` on ids: the index of the first occurrence of `id`, or -1 when
   * `id` does not occur.
   */
  function FirstIndex(ids: seq<int>, id: int): (k: int)
    ensures -1 <= k < |ids|
    ensures k == -1 <==> id !in ids
    ensures 0 <= k ==> ids[k] == id && forall j :: 0 <= j < k ==> ids[j] != id
  {
    if |ids| == 0 then -1
    else if ids[0] == id then 0
    else
      var k' := FirstIndex(ids[1..], id);
      if k' == -1 then -1 else k' + 1
  }

  /** Linear search for the first index holding `id`, -1 when there is none. */
  method FindIndex(ids: seq<int>, id: int) returns (k: int)
    ensures k == FirstIndex(ids, id)
  {
    var i := 0;
    while i < |ids| && ids[i] != id
      invariant 0 <= i <= |ids|
      invariant id !in ids[..i]
    {
      i := i + 1;
    }
    k := if i == |ids| then -1 else i;
    assert i == |ids| ==> ids[..i] == ids;
  }

  /** Computes the id `create` assigns, scanning the ids once for their maximum. */
  method ComputeNextId(ids: seq<int>) returns (n: int)
    ensures n == NextId(ids)
  {
    if |ids| == 0 {
      return 1;
    }
    var m := ids[0];
    var i := 1;
    while i < |ids|
      invariant 1 <= i <= |ids|
      invariant m in ids[..i]
      invariant forall j :: 0 <= j < i ==> ids[j] <= m
    {
      if m < ids[i] {
        m := ids[i];
      }
      i := i + 1;
    }
    assert ids[..i] == ids;
    MaxIsGreatestMember(ids, m);
    n := m + 1;
  }

  /** The maximum is determined by being a member that bounds every member. */
  lemma MaxIsGreatestMember(ids: seq<int>, m: int)
    requires m in ids
    requires forall i :: 0 <= i < |ids| ==> ids[i] <= m
    ensures Max(ids) == m
  {
  }

  /** Appending an id that is not present keeps the ids unique. */
  lemma AppendFreshKeepsUnique(ids: seq<int>, n: int)
    requires Unique(ids)
    requires n !in ids
    ensures Unique(ids + [n])
  {
  }

  /** Deleting the id at one index keeps the rest unique, and that id no longer occurs. */
  lemma RemoveAtKeepsUnique(ids: seq<int>, k: int)
    requires 0 <= k < |ids|
    requires Unique(ids)
    ensures Unique(ids[..k] + ids[k + 1..])
    ensures ids[k] !in ids[..k] + ids[k + 1..]
  {
  }

  /** A fresh id appended at the end is found there, at the last index. */
  lemma FirstIndexOfAppended(ids: seq<int>, n: int)
    requires n !in ids
    ensures FirstIndex(ids + [n], n) == |ids|
  {
  }
}
