/** The session service: starting a participant's session for a theme and writing its rows in batches. */
module Sessions {
  import opened Wrappers
  import opened Models
  import opened SessionStore

  const BatchSize := 25

  datatype SessionResponse = SessionResponse(sessionId: string, items: seq<Session>)

  /** The concatenation of the batches, in order. */
  function Flatten(batches: seq<seq<Session>>): seq<Session> {
    if batches == [] then [] else Flatten(batches[..|batches| - 1]) + batches[|batches| - 1]
  }

  function Min(a: int, b: int): int {
    if a <= b then a else b
  }

  /** The batching loop: consecutive slices of 25 items (the last one shorter), in order. */
  method Chunk(items: seq<Session>) returns (batches: seq<seq<Session>>)
    ensures Flatten(batches) == items
    ensures |batches| == (|items| + BatchSize - 1) / BatchSize
    ensures forall j :: 0 <= j < |batches| ==> 0 < |batches[j]| <= BatchSize
    ensures forall j :: 0 <= j < |batches| - 1 ==> |batches[j]| == BatchSize
  {
    var n := |items|;
    batches := [];
    var i := 0;
    while i < n
      invariant i == BatchSize * |batches| && i < n + BatchSize
      invariant Flatten(batches) == items[..Min(i, n)]
      invariant forall j :: 0 <= j < |batches| ==> BatchSize * j < n && batches[j] == items[BatchSize * j..Min(BatchSize * j + BatchSize, n)]
    {
      var batch := items[i..Min(i + BatchSize, n)];
      assert items[..Min(i + BatchSize, n)] == items[..i] + batch;
      batches := batches + [batch];
      i := i + BatchSize;
    }
    assert items[..n] == items;
  }

  /** The rows of a new session: one per item, in the items' order, all under the fresh `sessionId`,
      with the given theme and email, not collected, stamped with the clock reading taken for each. */
  function NewSessionItems(sessionId: string, themeId: string, email: string, items: seq<Item>, clock: nat -> string): (rows: seq<Session>)
    ensures |rows| == |items|
    ensures forall k :: 0 <= k < |items| ==>
              rows[k] == Session(sessionId, items[k].itemId, themeId, email, false, clock(k), None, None)
  {
    seq(|items|, k requires 0 <= k < |items| => Session(sessionId, items[k].itemId, themeId, email, false, clock(k), None, None))
  }

  /** One batch write: its put requests applied in order, after the puts `done` already made on `base`. */
  method WriteBatch(table: SessionTable, ghost base: map<RowKey, SessionRow>, ghost done: seq<Session>, batch: seq<Session>)
    modifies table
    requires table.rows == PutAll(base, done)
    ensures table.rows == PutAll(base, done + batch)
  {
    ghost var written := done;
    for i := 0 to |batch|
      invariant written == done + batch[..i]
      invariant table.rows == PutAll(base, written)
    {
      PutAllSnoc(base, written, batch[i]);
      table.rows := table.rows[KeyOf(batch[i]) := RowOf(batch[i])];
      assert batch[..i + 1] == batch[..i] + [batch[i]];
      assert done + batch[..i + 1] == written + [batch[i]];
      written := written + [batch[i]];
    }
    assert batch[..|batch|] == batch;
  }

  /** `batchWriteSessionItems`: the items cut into batches, each batch written in turn. */
  method BatchWriteSessionItems(table: SessionTable, items: seq<Session>) returns (batches: seq<seq<Session>>)
    modifies table
    ensures Flatten(batches) == items
    ensures table.rows == PutAll(old(table.rows), items)
  {
    batches := Chunk(items);
    for b := 0 to |batches|
      invariant table.rows == PutAll(old(table.rows), Flatten(batches[..b]))
    {
      assert batches[..b + 1][..b] == batches[..b];
      WriteBatch(table, old(table.rows), Flatten(batches[..b]), batches[b]);
    }
    assert batches[..|batches|] == batches;
  }

  /** One more put after a list of puts. */
  lemma PutAllSnoc(rows: map<RowKey, SessionRow>, items: seq<Session>, s: Session)
    ensures PutAll(rows, items + [s]) == PutAll(rows, items)[KeyOf(s) := RowOf(s)]
  {
    assert (items + [s])[..|items|] == items;
  }

  /** `createOrUpdateSession`. `existing` is what the query for `(email, themeId)` returned, `freshId`
      the new uuid, `clock(k)` the time stamp taken for the k-th item. */
  method CreateOrUpdateSession(table: SessionTable, email: string, themeId: string, items: seq<Item>,
                               existing: seq<Session>, freshId: string, clock: nat -> string)
    returns (resp: SessionResponse)
    modifies table
    ensures |existing| > 0 ==> resp == SessionResponse(existing[0].sessionId, existing) && table.rows == old(table.rows)
    ensures |existing| == 0 ==>
              resp == SessionResponse(freshId, NewSessionItems(freshId, themeId, email, items, clock)) &&
              table.rows == PutAll(old(table.rows), resp.items)
  {
    if |existing| > 0 {
      return SessionResponse(existing[0].sessionId, existing);
    }
    var sessionItems := NewSessionItems(freshId, themeId, email, items, clock);
    var _ := BatchWriteSessionItems(table, sessionItems);
    resp := SessionResponse(freshId, sessionItems);
  }

  /** A new session whose items have distinct ids stores exactly the returned rows, each uncollected,
      and leaves every other row alone. */
  lemma NewSessionStored(rows: map<RowKey, SessionRow>, sessionId: string, themeId: string, email: string,
                         items: seq<Item>, clock: nat -> string)
    requires forall i, j :: 0 <= i < j < |items| ==> items[i].itemId != items[j].itemId
    ensures var written := NewSessionItems(sessionId, themeId, email, items, clock);
            var after := PutAll(rows, written);
            (forall k :: 0 <= k < |items| ==>
               RowKey(sessionId, items[k].itemId) in after &&
               SessionAt(RowKey(sessionId, items[k].itemId), after[RowKey(sessionId, items[k].itemId)]) == Some(written[k]) &&
               !after[RowKey(sessionId, items[k].itemId)].isCollected) &&
            (forall key :: key in rows && key.sessionId != sessionId ==> key in after && after[key] == rows[key])
  {
    var written := NewSessionItems(sessionId, themeId, email, items, clock);
    assert forall i, j :: 0 <= i < j < |written| ==> KeyOf(written[i]) != KeyOf(written[j]);
    PutAllStoresEach(rows, written);
    KeysOfExactly(written);
    PutAllFrame(rows, written);
    forall key | key in rows && key.sessionId != sessionId
      ensures key !in KeysOf(written)
    {
    }
  }
}
