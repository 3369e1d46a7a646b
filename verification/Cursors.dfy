/** Cursors into an ordered source: a cursor is the id of the last item that was
    processed, and resuming after it means skipping everything up to that item. */
module Cursors {

  datatype Option<+T> = None | Some(value: T)

  predicate Distinct(ids: seq<string>) {
    forall i, j :: 0 <= i < j < |ids| ==> ids[i] != ids[j]
  }

  /** Position of the first occurrence, as Python's list.index. */
  function IndexOf(ids: seq<string>, id: string): (k: nat)
    requires id in ids
    ensures k < |ids| && ids[k] == id && forall i :: 0 <= i < k ==> ids[i] != id
  {
    if ids[0] == id then 0 else 1 + IndexOf(ids[1..], id)
  }

  /** How many leading items a resumed iteration skips. An id that the source does
      not know restarts it from the beginning, as the POP3 connector does. */
  function ResumeIndex(ids: seq<string>, cursor: Option<string>): (k: nat)
    ensures k <= |ids|
  {
    if cursor.Some? && cursor.value in ids then IndexOf(ids, cursor.value) + 1 else 0
  }

  lemma IndexOfUnique(ids: seq<string>, k: nat)
    requires Distinct(ids) && k < |ids|
    ensures IndexOf(ids, ids[k]) == k
  {
    var i := IndexOf(ids, ids[k]);
    assert !(i < k);
  }

  /** Appending to a source moves no position. */
  lemma IndexOfStable(ids: seq<string>, more: seq<string>, id: string)
    requires id in ids && ids <= more
    ensures id in more && IndexOf(more, id) == IndexOf(ids, id)
  {
    var k, k' := IndexOf(ids, id), IndexOf(more, id);
    assert more[k] == id;
  }
}
