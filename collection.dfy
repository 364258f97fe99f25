/** A MongoDB collection held as a table from `_id` to document. */
module Collection {
  import opened Common

  /** The ids of the table below `limit`, in ascending order (the order in
      which the store created the documents). */
  function IdsBelow<T>(table: map<Id, T>, limit: nat): (ids: seq<Id>)
    ensures forall k :: k in ids <==> k in table && k < limit
    ensures forall i, j :: 0 <= i < j < |ids| ==> ids[i] < ids[j]
    decreases limit
  {
    if limit == 0 then []
    else
      var before := IdsBelow(table, limit - 1);
      assert forall i :: 0 <= i < |before| ==> before[i] < limit - 1 by {
        forall i | 0 <= i < |before|
          ensures before[i] < limit - 1
        {
          assert before[i] in before;
        }
      }
      before + (if limit - 1 in table then [limit - 1] else [])
  }
}
