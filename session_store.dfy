/** The session table: one row per (sessionId, itemId), written by the session service and by the
    record-update function. */
module SessionStore {
  import opened Wrappers
  import opened Models

  datatype RowKey = RowKey(sessionId: string, itemId: string)

  /** The non-key attributes of a row. A row created by an update of a missing key has no theme or email. */
  datatype SessionRow = SessionRow(
    themeId: Option<string>,
    email: Option<string>,
    isCollected: bool,
    processedAt: string,
    allDetectedLabels: Option<seq<string>>,
    imageKey: Option<string>)

  function KeyOf(s: Session): RowKey {
    RowKey(s.sessionId, s.itemId)
  }

  function RowOf(s: Session): SessionRow {
    SessionRow(Some(s.themeId), Some(s.email), s.isCollected, s.processedAt, s.allDetectedLabels, s.imageKey)
  }

  /** Reads a full session record back from its key and row. */
  function SessionAt(key: RowKey, row: SessionRow): Option<Session> {
    if row.themeId.Some? && row.email.Some? then
      Some(Session(key.sessionId, key.itemId, row.themeId.value, row.email.value, row.isCollected,
                   row.processedAt, row.allDetectedLabels, row.imageKey))
    else None
  }

  /** The keys the sessions in `items` are stored under. */
  function KeysOf(items: seq<Session>): set<RowKey> {
    if items == [] then {} else KeysOf(items[..|items| - 1]) + {KeyOf(items[|items| - 1])}
  }

  /** A key is written exactly when some session of `items` has it. */
  lemma {:induction false} KeysOfExactly(items: seq<Session>)
    ensures forall j :: 0 <= j < |items| ==> KeyOf(items[j]) in KeysOf(items)
    ensures forall k :: k in KeysOf(items) ==> exists j :: 0 <= j < |items| && KeyOf(items[j]) == k
  {
    if items != [] {
      var init := items[..|items| - 1];
      KeysOfExactly(init);
      assert forall j :: 0 <= j < |init| ==> items[j] == init[j];
    }
  }

  /** Put requests for `items`, in order: each replaces the whole row under its key. */
  function PutAll(rows: map<RowKey, SessionRow>, items: seq<Session>): (r: map<RowKey, SessionRow>)
    ensures |items| > 0 ==> KeyOf(items[|items| - 1]) in r && r[KeyOf(items[|items| - 1])] == RowOf(items[|items| - 1])
  {
    if items == [] then rows
    else
      var last := items[|items| - 1];
      PutAll(rows, items[..|items| - 1])[KeyOf(last) := RowOf(last)]
  }

  /** After the puts the keys are the old ones plus those written, and a row no put touches is unchanged. */
  lemma {:induction false} PutAllFrame(rows: map<RowKey, SessionRow>, items: seq<Session>)
    ensures PutAll(rows, items).Keys == rows.Keys + KeysOf(items)
    ensures forall k :: k in rows && k !in KeysOf(items) ==> PutAll(rows, items)[k] == rows[k]
  {
    if items != [] {
      PutAllFrame(rows, items[..|items| - 1]);
    }
  }

  /** A session put under its key reads back as that same session. */
  lemma RowRoundTrip(s: Session)
    ensures SessionAt(KeyOf(s), RowOf(s)) == Some(s)
  {
  }

  /** A session no later put overwrites stays stored under its key. */
  lemma {:induction false} PutAllKeepsLater(rows: map<RowKey, SessionRow>, items: seq<Session>, j: nat)
    requires j < |items|
    requires forall i :: j < i < |items| ==> KeyOf(items[i]) != KeyOf(items[j])
    ensures KeyOf(items[j]) in PutAll(rows, items) && PutAll(rows, items)[KeyOf(items[j])] == RowOf(items[j])
  {
    if j < |items| - 1 {
      var init := items[..|items| - 1];
      assert init[j] == items[j];
      assert forall i :: j < i < |init| ==> init[i] == items[i];
      PutAllKeepsLater(rows, init, j);
      assert KeyOf(items[|items| - 1]) != KeyOf(items[j]);
    }
  }

  /** When no two sessions share a key, each is stored, intact, under its own key. */
  lemma PutAllStoresEach(rows: map<RowKey, SessionRow>, items: seq<Session>)
    requires forall i, j :: 0 <= i < j < |items| ==> KeyOf(items[i]) != KeyOf(items[j])
    ensures forall j :: 0 <= j < |items| ==>
              KeyOf(items[j]) in PutAll(rows, items) && SessionAt(KeyOf(items[j]), PutAll(rows, items)[KeyOf(items[j])]) == Some(items[j])
  {
    forall j | 0 <= j < |items|
      ensures KeyOf(items[j]) in PutAll(rows, items) && SessionAt(KeyOf(items[j]), PutAll(rows, items)[KeyOf(items[j])]) == Some(items[j])
    {
      PutAllKeepsLater(rows, items, j);
      RowRoundTrip(items[j]);
    }
  }

  class SessionTable {
    var rows: map<RowKey, SessionRow>

    constructor (initial: map<RowKey, SessionRow>)
      ensures rows == initial
    {
      rows := initial;
    }
  }
}
