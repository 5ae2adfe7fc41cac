/** The record-update function: subscribed to the verification topic, it writes the verdict and its
    evidence onto the session row the message names. */
module UpdateDatabase {
  import opened Wrappers
  import opened SessionStore

  /** The parsed message. `isMatch` is None when the field is absent or not a boolean;
      `itemId` is None when the field is absent. */
  datatype UpdateMessage = UpdateMessage(
    imageKey: string,
    sessionId: string,
    itemId: Option<string>,
    isMatch: Option<bool>,
    allDetectedLabels: seq<string>)

  /** One record of the event: its message text did not parse, parsed to a falsy value, or parsed. */
  datatype Delivery = Unparsable | Falsy | Parsed(msg: UpdateMessage)

  datatype UpdateBody =
    | Updated(message: string, sessionId: string, itemId: string, isCollected: bool)
    | UpdateFailed(error: string)

  datatype UpdateResponse = UpdateResponse(statusCode: int, body: UpdateBody)

  const FailureResponse := UpdateResponse(500, UpdateFailed("Failed to update session record"))

  /** `isMatch === true`: only the boolean true collects the item. */
  function IsCollected(isMatch: Option<bool>): (collected: bool)
    ensures collected <==> isMatch == Some(true)
  {
    match isMatch
    case Some(b) => b
    case None => false
  }

  /** The row after the update: the four SET attributes overwritten, the others kept; a missing row is
      created with the key and those four attributes only. */
  function Overwrite(existing: Option<SessionRow>, m: UpdateMessage, now: string): (row: SessionRow)
    ensures row.isCollected == IsCollected(m.isMatch)
    ensures row.processedAt == now
    ensures row.allDetectedLabels == Some(m.allDetectedLabels)
    ensures row.imageKey == Some(m.imageKey)
    ensures existing.Some? ==> row.themeId == existing.value.themeId && row.email == existing.value.email
    ensures existing.None? ==> row.themeId.None? && row.email.None?
  {
    match existing
    case Some(row) =>
      row.(isCollected := IsCollected(m.isMatch), processedAt := now,
            allDetectedLabels := Some(m.allDetectedLabels), imageKey := Some(m.imageKey))
    case None =>
      SessionRow(None, None, IsCollected(m.isMatch), now, Some(m.allDetectedLabels), Some(m.imageKey))
  }

  /** The table after the update of the row under `key`; every other row is left as it was. */
  function ApplyUpdate(rows: map<RowKey, SessionRow>, key: RowKey, m: UpdateMessage, now: string): (r: map<RowKey, SessionRow>)
    ensures r.Keys == rows.Keys + {key}
    ensures r[key] == Overwrite(if key in rows then Some(rows[key]) else None, m, now)
    ensures forall k :: k in rows && k != key ==> r[k] == rows[k]
  {
    rows[key := Overwrite(if key in rows then Some(rows[key]) else None, m, now)]
  }

  /** Two updates of the same row: the second one's attributes win, whatever the first one wrote. */
  lemma LastWriteWins(rows: map<RowKey, SessionRow>, key: RowKey, m1: UpdateMessage, t1: string, m2: UpdateMessage, t2: string)
    ensures ApplyUpdate(ApplyUpdate(rows, key, m1, t1), key, m2, t2) == ApplyUpdate(rows, key, m2, t2)
  {
    var once := ApplyUpdate(rows, key, m2, t2);
    var twice := ApplyUpdate(ApplyUpdate(rows, key, m1, t1), key, m2, t2);
    assert twice.Keys == once.Keys;
    assert twice[key] == once[key];
  }

  /** Applying the same message twice is applying it once (with the later clock reading). */
  lemma UpdateIdempotent(rows: map<RowKey, SessionRow>, key: RowKey, m: UpdateMessage, t1: string, t2: string)
    ensures ApplyUpdate(ApplyUpdate(rows, key, m, t1), key, m, t2) == ApplyUpdate(rows, key, m, t2)
    ensures ApplyUpdate(ApplyUpdate(rows, key, m, t1), key, m, t1) == ApplyUpdate(rows, key, m, t1)
  {
    LastWriteWins(rows, key, m, t1, m, t2);
    LastWriteWins(rows, key, m, t1, m, t1);
  }

  /** A later non-matching message un-collects an item an earlier message collected. */
  lemma NonMatchReverts(rows: map<RowKey, SessionRow>, key: RowKey, m1: UpdateMessage, t1: string, m2: UpdateMessage, t2: string)
    requires m1.isMatch == Some(true) && m2.isMatch != Some(true)
    ensures ApplyUpdate(rows, key, m1, t1)[key].isCollected
    ensures !ApplyUpdate(ApplyUpdate(rows, key, m1, t1), key, m2, t2)[key].isCollected
  {
  }

  /** The pre-read row is never consulted: the four written attributes are the same whether or not
      the row existed, and whatever it held. */
  lemma UpdateIgnoresExistingRow(rows1: map<RowKey, SessionRow>, rows2: map<RowKey, SessionRow>, key: RowKey, m: UpdateMessage, now: string)
    ensures var a, b := ApplyUpdate(rows1, key, m, now)[key], ApplyUpdate(rows2, key, m, now)[key];
            a.isCollected == b.isCollected && a.processedAt == b.processedAt &&
            a.allDetectedLabels == b.allDetectedLabels && a.imageKey == b.imageKey
  {
  }

  /** Whether the handler gets to its table calls: a first record whose message parsed and names an item. */
  predicate Processable(records: seq<Delivery>) {
    |records| > 0 && records[0].Parsed? && records[0].msg.itemId.Some?
  }

  /** The handler. `getOk` and `updateOk` say whether the pre-read and the update succeed; `now` is the clock. */
  method Handle(table: SessionTable, records: seq<Delivery>, getOk: bool, updateOk: bool, now: string)
    returns (resp: UpdateResponse)
    modifies table
    ensures Processable(records) && getOk && updateOk ==>
              var m := records[0].msg;
              table.rows == ApplyUpdate(old(table.rows), RowKey(m.sessionId, m.itemId.value), m, now) &&
              resp == UpdateResponse(200, Updated("Session record updated successfully", m.sessionId, m.itemId.value, IsCollected(m.isMatch)))
    ensures !(Processable(records) && getOk && updateOk) ==> table.rows == old(table.rows) && resp == FailureResponse
  {
    if |records| == 0 || !records[0].Parsed? {
      return FailureResponse;
    }
    var m := records[0].msg;
    var isCollected := IsCollected(m.isMatch);
    if m.itemId.None? || !getOk {
      // a key without itemId is rejected by the table
      return FailureResponse;
    }
    var key := RowKey(m.sessionId, m.itemId.value);
    if !updateOk {
      return FailureResponse;
    }
    table.rows := ApplyUpdate(table.rows, key, m, now);
    resp := UpdateResponse(200, Updated("Session record updated successfully", m.sessionId, m.itemId.value, isCollected));
  }
}
