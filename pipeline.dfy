/** How the stages fit together: the key and metadata the upload writes, what the analysis makes of
    them, and how its verdict lands on the session row. */
module Pipeline {
  import opened Wrappers
  import opened Models
  import Text
  import Json
  import Upload
  import AnalyzeImage
  import SessionStore
  import UpdateDatabase

  /** The analysis reads back the session and item ids the upload put into the object key,
      as long as neither id holds a '/' and the key holds no '+'. */
  lemma UploadKeySplits(sessionId: string, itemId: string, ext: string)
    requires '/' !in sessionId && '/' !in itemId
    requires '+' !in sessionId + itemId + ext
    ensures AnalyzeImage.SplitKey(AnalyzeImage.DecodeKey(Upload.ObjectKey(sessionId, itemId, ext))) == (sessionId, Some(itemId))
  {
    var key := Upload.ObjectKey(sessionId, itemId, ext);
    var rest := "image." + ext;
    assert key == sessionId + ['/'] + (itemId + ['/'] + rest);
    assert forall c :: c in key ==> c in sessionId + itemId + ext || c in "/image.";
    assert AnalyzeImage.DecodeKey(key) == key;
    Text.SplitAtFirst(sessionId, '/', itemId + ['/'] + rest);
    Text.SplitAtFirst(itemId, '/', rest);
  }

  /** The required list the upload stores as metadata reads back, through the analysis's fallback
      rules, as exactly the item's terms. */
  lemma UploadMetadataParses(item: Item)
    ensures var text := Json.StringifyArray(Upload.RequiredTerms(item));
            Json.ParseArray(text) == Some(Upload.RequiredTerms(item)) &&
            AnalyzeImage.RequiredList(AnalyzeImage.RequiredListText(AnalyzeImage.StringArray(Json.ParseArray(text).value)))
              == Some(Upload.RequiredTerms(item))
  {
    Json.ArrayRoundTrip(Upload.RequiredTerms(item));
  }

  /** A photo uploaded for an item and analysed: the published message names the upload's session and
      item, and it is a match exactly when one of the item's terms equals a lower-cased label. */
  lemma UploadedPhotoVerdict(bucket: string, sessionId: string, itemId: string, ext: string, item: Item,
                             names: seq<string>, now: int)
    requires '/' !in sessionId && '/' !in itemId
    requires '+' !in sessionId + itemId + ext
    ensures var key := Upload.ObjectKey(sessionId, itemId, ext);
            var head := AnalyzeImage.RequiredListText(AnalyzeImage.StringArray(Upload.RequiredTerms(item)));
            var r := AnalyzeImage.Handle([Some(AnalyzeImage.S3Payload(bucket, key))], Some(head), Some(names), true, now);
            r.statusCode == 200 && r.published.Some? &&
            r.published.value.sessionId == sessionId && r.published.value.itemId == Some(itemId) &&
            (r.published.value.isMatch <==>
               exists t :: t in Upload.RequiredTerms(item) && t in AnalyzeImage.NormalizeLabels(names))
  {
    UploadKeySplits(sessionId, itemId, ext);
  }

  /** Required terms are compared as stored while labels are lower-cased, so an item name with a
      capital letter can never be what matches. */
  lemma CapitalisedNameNeverMatches(item: Item, names: seq<string>)
    requires Text.HasAsciiUpper(item.name)
    ensures item.name !in AnalyzeImage.MatchedItems(Upload.RequiredTerms(item), AnalyzeImage.NormalizeLabels(names))
  {
    AnalyzeImage.UppercaseTermNeverMatches(item.name, Upload.RequiredTerms(item), names);
  }

  /** The synonyms of the wolf seeded in the hunter category, whose name is "Wolf". */
  const WolfSynonyms: seq<string> := ["gray wolf", "timber wolf", "predator", "canine", "pack hunter"]

  /** The lower-cased labels of the two wolf photos below. */
  lemma LowerLabels()
    ensures AnalyzeImage.NormalizeLabels(["Wolf", "Snow", "Outdoors"]) == ["wolf", "snow", "outdoors"]
    ensures AnalyzeImage.NormalizeLabels(["Wolf", "Canine"]) == ["wolf", "canine"]
  {
    assert Text.Lower("Wolf") == "wolf";
    assert Text.Lower("Snow") == "snow";
    assert Text.Lower("Outdoors") == "outdoors";
    assert Text.Lower("Canine") == "canine";
  }

  lemma {:induction false} CountOfConstant(s: seq<string>, t: string)
    requires forall x :: x in s ==> x == t
    ensures multiset(s)[t] == |s|
  {
    if s != [] {
      assert s == [s[0]] + s[1..];
      assert s[0] in s;
      assert forall x :: x in s[1..] ==> x in s;
      CountOfConstant(s[1..], t);
      assert multiset(s) == multiset{s[0]} + multiset(s[1..]);
    }
  }

  /** A photo whose labels are "Wolf", "Snow" and "Outdoors" does not collect the wolf: the label
      "wolf" meets only the capitalised name "Wolf". */
  lemma WolfLabelAloneDoesNotMatch(wolf: Item)
    requires wolf.name == "Wolf" && wolf.synonyms == WolfSynonyms
    ensures AnalyzeImage.MatchedItems(Upload.RequiredTerms(wolf),
                                      AnalyzeImage.NormalizeLabels(["Wolf", "Snow", "Outdoors"])) == []
  {
    LowerLabels();
    var labels: seq<string> := ["wolf", "snow", "outdoors"];
    var required := Upload.RequiredTerms(wolf);
    assert required == ["gray wolf", "timber wolf", "predator", "canine", "pack hunter", "Wolf"];
    assert "Wolf" != "wolf" by { assert "Wolf"[0] != "wolf"[0]; }
    assert forall x :: x in required ==> x !in labels;
    AnalyzeImage.MatchIff(required, labels);
  }

  /** When exactly one required term, occurring once, is among the labels, the match is that term alone. */
  lemma SingleMatch(required: seq<string>, labels: seq<string>, t: string)
    requires t in labels && multiset(required)[t] == 1
    requires forall x :: x in required && x in labels ==> x == t
    ensures AnalyzeImage.MatchedItems(required, labels) == [t]
  {
    var matched := AnalyzeImage.MatchedItems(required, labels);
    CountOfConstant(matched, t);
    assert |matched| == 1;
    assert matched[0] in matched;
  }

  /** With a "Canine" label the wolf is collected, through its synonym "canine" and nothing else. */
  lemma WolfCanineLabelMatches(wolf: Item)
    requires wolf.name == "Wolf" && wolf.synonyms == WolfSynonyms
    ensures AnalyzeImage.MatchedItems(Upload.RequiredTerms(wolf),
                                      AnalyzeImage.NormalizeLabels(["Wolf", "Canine"])) == ["canine"]
  {
    LowerLabels();
    var labels: seq<string> := ["wolf", "canine"];
    var before: seq<string> := ["gray wolf", "timber wolf", "predator"];
    var after: seq<string> := ["pack hunter", "Wolf"];
    var required := Upload.RequiredTerms(wolf);
    assert required == before + ["canine"] + after;
    assert "Wolf" != "wolf" by { assert "Wolf"[0] != "wolf"[0]; }
    assert forall x :: x in before + after ==> x !in labels;
    assert multiset(required) == multiset(before) + multiset{"canine"} + multiset(after);
    assert "canine" !in before && "canine" !in after;
    SingleMatch(required, labels, "canine");
  }

  /** The message the record-update function parses out of a published verification message:
      `JSON.stringify` drops an absent `itemId`, and `isMatch` arrives as a boolean. */
  function ToUpdateMessage(m: AnalyzeImage.VerificationMessage): (u: UpdateDatabase.UpdateMessage)
    ensures u.sessionId == m.sessionId && u.itemId == m.itemId && u.imageKey == m.imageKey
    ensures UpdateDatabase.IsCollected(u.isMatch) == m.isMatch
  {
    UpdateDatabase.UpdateMessage(m.imageKey, m.sessionId, m.itemId, Some(m.isMatch), m.allDetectedLabels)
  }

  /** Delivering a verification message sets the named session row's `isCollected` to the verdict and
      records the image and labels, touching no other row. */
  lemma VerdictRecorded(rows: map<SessionStore.RowKey, SessionStore.SessionRow>, m: AnalyzeImage.VerificationMessage, now: string)
    requires m.itemId.Some?
    ensures var key := SessionStore.RowKey(m.sessionId, m.itemId.value);
            var after := UpdateDatabase.ApplyUpdate(rows, key, ToUpdateMessage(m), now);
            key in after && after[key].isCollected == m.isMatch &&
            after[key].imageKey == Some(m.imageKey) && after[key].allDetectedLabels == Some(m.allDetectedLabels) &&
            forall k :: k in rows && k != key ==> k in after && after[k] == rows[k]
  {
  }

  /** The last two stages end to end: the analysis of the uploaded photo, then the update it triggers. */
  method AnalyseAndRecord(table: SessionStore.SessionTable, bucket: string, sessionId: string, itemId: string, ext: string,
                          item: Item, names: seq<string>, now: int, processedAt: string)
    returns (resp: UpdateDatabase.UpdateResponse)
    requires '/' !in sessionId && '/' !in itemId
    requires '+' !in sessionId + itemId + ext
    modifies table
    ensures resp.statusCode == 200
    ensures var key := SessionStore.RowKey(sessionId, itemId);
            key in table.rows &&
            (table.rows[key].isCollected <==>
               exists t :: t in Upload.RequiredTerms(item) && t in AnalyzeImage.NormalizeLabels(names))
  {
    var key := Upload.ObjectKey(sessionId, itemId, ext);
    var head := AnalyzeImage.RequiredListText(AnalyzeImage.StringArray(Upload.RequiredTerms(item)));
    var analysed := AnalyzeImage.Handle([Some(AnalyzeImage.S3Payload(bucket, key))], Some(head), Some(names), true, now);
    UploadedPhotoVerdict(bucket, sessionId, itemId, ext, item, names, now);
    var m := analysed.published.value;
    resp := UpdateDatabase.Handle(table, [UpdateDatabase.Parsed(ToUpdateMessage(m))], true, true, processedAt);
  }
}
