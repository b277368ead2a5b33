/** The scroll-spy rule: the section highlighted in the table of contents is
    the last one reported as intersecting the viewport. */
module ActiveSection {

  /** `undefined` in the page is `None` here. */
  datatype Option<T> = None | Some(value: T)

  /** One observation entry: the observed section's id and whether it
      intersects the viewport region. */
  datatype Entry = Entry(targetId: string, isIntersecting: bool)

  /** `useState(ids[0])`: the first section, or nothing for an empty list. */
  function Initial(ids: seq<string>): (r: Option<string>)
    ensures r.Some? <==> |ids| > 0
    ensures r.Some? ==> r.value == ids[0]
  {
    if |ids| > 0 then Some(ids[0]) else None
  }

  /** The id of the last intersecting entry of a batch, if any. */
  function LastIntersecting(entries: seq<Entry>): (r: Option<string>)
    ensures r.None? <==> forall i :: 0 <= i < |entries| ==> !entries[i].isIntersecting
    ensures r.Some? ==>
      (exists i :: 0 <= i < |entries| && entries[i].isIntersecting && entries[i].targetId == r.value &&
         (forall j :: i < j < |entries| ==> !entries[j].isIntersecting))
  {
    if entries == [] then None
    else
      var n := |entries| - 1;
      if entries[n].isIntersecting then Some(entries[n].targetId)
      else
        var r := LastIntersecting(entries[..n]);
        assert forall i :: 0 <= i < n ==> entries[..n][i] == entries[i];
        r
  }

  /** The highlighted section after one batch: last write wins, and a batch
      with no intersecting entry leaves it as it was. */
  function AfterBatch(active: Option<string>, entries: seq<Entry>): Option<string>
  {
    match LastIntersecting(entries)
    case Some(id) => Some(id)
    case None => active
  }

  /** One more entry on the end of a batch: if it intersects it wins, else
      it changes nothing. */
  lemma AfterBatchSnoc(active: Option<string>, entries: seq<Entry>, e: Entry)
    ensures AfterBatch(active, entries + [e]) ==
      if e.isIntersecting then Some(e.targetId) else AfterBatch(active, entries)
  {
    assert (entries + [e])[..|entries|] == entries;
  }

  /** Two batches delivered one after the other act as their concatenation. */
  lemma {:induction false} AfterBatchConcat(active: Option<string>, b1: seq<Entry>, b2: seq<Entry>)
    ensures AfterBatch(AfterBatch(active, b1), b2) == AfterBatch(active, b1 + b2)
    decreases |b2|
  {
    if b2 == [] {
      assert b1 + b2 == b1;
    } else {
      var n := |b2| - 1;
      assert b2 == b2[..n] + [b2[n]];
      assert b1 + b2 == (b1 + b2[..n]) + [b2[n]];
      AfterBatchConcat(active, b1, b2[..n]);
      AfterBatchSnoc(AfterBatch(active, b1), b2[..n], b2[n]);
      AfterBatchSnoc(active, b1 + b2[..n], b2[n]);
    }
  }

  /** When the sections observed are those of the list, the highlighted
      section stays one of them. */
  lemma AfterBatchStaysInList(active: Option<string>, entries: seq<Entry>, ids: seq<string>)
    requires active.Some? ==> active.value in ids
    ensures (forall i :: 0 <= i < |entries| ==> entries[i].targetId in ids) ==>
      (AfterBatch(active, entries).Some? ==> AfterBatch(active, entries).value in ids)
  {
  }
}
