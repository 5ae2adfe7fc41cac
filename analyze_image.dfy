/** The image-analysis function: triggered by an object landing in the upload bucket, it compares the
    labels detected in the image with the item's required terms and publishes the verdict. */
module AnalyzeImage {
  import opened Wrappers
  import Text

  /** `event.Records[i].s3`: the bucket and the key as the storage event writes it. */
  datatype S3Payload = S3Payload(bucket: string, key: string)

  /** What `JSON.parse` makes of the `requiredlist` metadata text. */
  datatype ParsedJson = StringArray(items: seq<string>) | OtherJson | SyntaxError

  /** The `requiredlist` entry of the object's metadata: absent (or empty), or present and parsed. */
  datatype RequiredListMeta = NoRequiredList | RequiredListText(parsed: ParsedJson)

  /** The message published on the topic. */
  datatype VerificationMessage = VerificationMessage(
    imageKey: string,
    sessionId: string,
    itemId: Option<string>,   // None: the key has no '/', so `split('/')[1]` is undefined
    isMatch: bool,
    matchedItems: seq<string>,
    allDetectedLabels: seq<string>,
    timestamp: int)

  datatype AnalyzeBody =
    | AnalysisComplete(message: string, matchedItems: seq<string>)
    | AnalysisFailed(error: string)

  /** The function's return value, and the message the topic accepted, if it got that far. */
  datatype AnalyzeResult = AnalyzeResult(statusCode: int, body: AnalyzeBody, published: Option<VerificationMessage>)

  const FailureResult := AnalyzeResult(500, AnalysisFailed("Failed to process image"), None)

  /** The object key the event names: every '+' read as a space. */
  function DecodeKey(raw: string): (key: string)
    ensures |key| == |raw| && '+' !in key
    ensures forall i :: 0 <= i < |raw| ==> key[i] == (if raw[i] == '+' then ' ' else raw[i])
    ensures '+' !in raw ==> key == raw
  {
    Text.ReplacePlus(raw)
  }

  /** The required list after the parse fallback: `[]` when the metadata is missing or does not parse;
      `None` when it parses to something that is not an array, on which `filter` throws. */
  function RequiredList(meta: RequiredListMeta): (r: Option<seq<string>>)
    ensures meta.NoRequiredList? ==> r == Some([])
    ensures meta == RequiredListText(SyntaxError) ==> r == Some([])
    ensures meta.RequiredListText? && meta.parsed.StringArray? ==> r == Some(meta.parsed.items)
    ensures r.None? <==> meta == RequiredListText(OtherJson)
  {
    match meta
    case NoRequiredList => Some([])
    case RequiredListText(StringArray(xs)) => Some(xs)
    case RequiredListText(SyntaxError) => Some([])
    case RequiredListText(OtherJson) => None
  }

  /** The detected label names, each lower-cased, same length and order. */
  function NormalizeLabels(names: seq<string>): (labels: seq<string>)
    ensures |labels| == |names|
    ensures forall i :: 0 <= i < |names| ==> labels[i] == Text.Lower(names[i])
    ensures forall l :: l in labels ==> !Text.HasAsciiUpper(l)
  {
    seq(|names|, i requires 0 <= i < |names| => Text.Lower(names[i]))
  }

  /** `requiredList.filter(item => labels.includes(item))`: the required terms that are labels, in the
      required list's order, with its duplicates kept. */
  function MatchedItems(required: seq<string>, labels: seq<string>): (matched: seq<string>)
    ensures Text.IsSubsequence(matched, required)
    ensures forall x :: x in matched ==> x in required && x in labels
    ensures forall x :: x in labels ==> multiset(matched)[x] == multiset(required)[x]
  {
    Text.Filter(required, item => item in labels)
  }

  /** The match verdict holds exactly when some required term is among the labels. */
  lemma MatchIff(required: seq<string>, labels: seq<string>)
    ensures |MatchedItems(required, labels)| > 0 <==> exists x :: x in required && x in labels
    ensures required == [] ==> MatchedItems(required, labels) == []
  {
    var matched := MatchedItems(required, labels);
    if x :| x in required && x in labels {
      assert multiset(required)[x] > 0;
      assert multiset(matched)[x] > 0;
    }
  }

  /** Labels are lower-cased and required terms are not: a term with an upper-case letter never matches. */
  lemma UppercaseTermNeverMatches(term: string, required: seq<string>, names: seq<string>)
    requires Text.HasAsciiUpper(term)
    ensures term !in MatchedItems(required, NormalizeLabels(names))
  {
  }

  /** `s3Key.split('/')[0]` and `s3Key.split('/')[1]`. */
  function SplitKey(key: string): (ids: (string, Option<string>))
    ensures '/' !in ids.0
    ensures ids.1.None? <==> '/' !in key
    ensures ids.1.None? ==> ids.0 == key
    ensures ids.1.Some? ==> '/' !in ids.1.value && Text.StartsWith(key, ids.0 + "/" + ids.1.value)
    ensures ids.1.Some? ==> |key| == |ids.0| + 1 + |ids.1.value| || key[|ids.0| + 1 + |ids.1.value|] == '/'
  {
    var parts := Text.Split(key, '/');
    if |parts| >= 2 then
      Text.JoinStartsWithFirstTwo(parts, '/');
      (parts[0], Some(parts[1]))
    else
      (parts[0], None)
  }

  /** The message for one image: the decoded key and the ids it names, the lower-cased labels,
      the matched terms and the verdict. */
  function BuildMessage(rawKey: string, required: seq<string>, detectedNames: seq<string>, now: int): (m: VerificationMessage)
    ensures m.imageKey == DecodeKey(rawKey)
    ensures (m.sessionId, m.itemId) == SplitKey(m.imageKey)
    ensures m.allDetectedLabels == NormalizeLabels(detectedNames)
    ensures m.matchedItems == MatchedItems(required, m.allDetectedLabels)
    ensures m.isMatch <==> exists x :: x in required && x in m.allDetectedLabels
    ensures m.timestamp == now
  {
    var key := DecodeKey(rawKey);
    var labels := NormalizeLabels(detectedNames);
    var matched := MatchedItems(required, labels);
    MatchIff(required, labels);
    var ids := SplitKey(key);
    VerificationMessage(key, ids.0, ids.1, |matched| > 0, matched, labels, now)
  }

  function Summary(isMatch: bool): string {
    "Image analysis complete: " + (if isMatch then "Match found" else "No match found")
  }

  /** Whether the steps before publishing all succeed: the event carries an s3 payload, the metadata
      read and the label detection answer, and the required list is an array. */
  predicate ReachesPublish(records: seq<Option<S3Payload>>, head: Option<RequiredListMeta>, detected: Option<seq<string>>) {
    |records| > 0 && records[0].Some? && head.Some? && RequiredList(head.value).Some? && detected.Some?
  }

  /** The handler. `head` is the metadata read (None: it failed), `detected` the label names the
      detection service returned (None: it failed), `publishOk` whether the topic accepted the message,
      `now` the clock. Only `Records[0]` is looked at. */
  function Handle(records: seq<Option<S3Payload>>, head: Option<RequiredListMeta>,
                  detected: Option<seq<string>>, publishOk: bool, now: int): (r: AnalyzeResult)
    ensures r.statusCode == 200 || r == FailureResult
    ensures r.statusCode == 200 <==> r.published.Some?
    ensures r.published.Some? <==> ReachesPublish(records, head, detected) && publishOk
    ensures r.published.Some? ==>
              r.published.value == BuildMessage(records[0].value.key, RequiredList(head.value).value, detected.value, now) &&
              r.body == AnalysisComplete(Summary(r.published.value.isMatch), r.published.value.matchedItems)
  {
    if |records| == 0 || records[0].None? then FailureResult
    else if head.None? then FailureResult
    else
      var required := RequiredList(head.value);
      if detected.None? then FailureResult
      else if required.None? then FailureResult
      else
        var m := BuildMessage(records[0].value.key, required.value, detected.value, now);
        if !publishOk then FailureResult
        else AnalyzeResult(200, AnalysisComplete(Summary(m.isMatch), m.matchedItems), Some(m))
  }

  /** Missing or unreadable metadata does not stop the pipeline: the message is still published, as a non-match. */
  lemma MissingMetadataStillPublishes(records: seq<Option<S3Payload>>, meta: RequiredListMeta, names: seq<string>, now: int)
    requires |records| > 0 && records[0].Some?
    requires meta == NoRequiredList || meta == RequiredListText(SyntaxError)
    ensures Handle(records, Some(meta), Some(names), true, now).statusCode == 200
    ensures !Handle(records, Some(meta), Some(names), true, now).published.value.isMatch
  {
  }
}
