# Scavenger hunt: photo verification and group records

A Dafny model of the scavenger-hunt back end. This is the path a participant's photo takes: the
upload controller stores it under `sessionId/itemId/image.ext`, together with the item's required
terms. The image-analysis function compares those terms with the detected labels and publishes a
verdict. The record-update function writes that verdict onto the session row. The model also covers
the services that create the records this path reads and writes: sessions and their batched writes,
teams with their members and team items, item lookups, the team controller's mapping from errors to
HTTP status codes, and the browser-side user store.

Every AWS call is a table or a parameter. DynamoDB tables are `map`s (keyed tables) or `seq`s (tables
read in scan order), the S3 bucket is a `map` from key to object, and the outcomes of metadata reads,
label detection, publishing, gets, puts and scans are boolean or `Option` arguments. Clocks, uuids
and the random team code are arguments too.

Modules, one per source file: `AnalyzeImage`, `UpdateDatabase` (with `SessionStore`, the session
table), `Upload`, `Sessions`, `Items`, `Teams`, `TeamController`, `UserStore`. Shared pieces are
`Models` (the item and session records), `Text` (JavaScript's `split`, `toLowerCase`, `filter` and
`replace`) and `Json` (the compact `JSON.stringify` layout for strings, string arrays and the user
record, with its parser). `Pipeline` states what the stages promise to one another.

Only the detected labels are lower-cased before the comparison (serverless/analyze-image/index.mjs:54).
The required terms are compared as stored, and the seeded item names are capitalised. `Pipeline.WolfLabelAloneDoesNotMatch` shows the
consequence: a photo labelled "Wolf" does not collect the item "Wolf".

## Model

| member | source | states |
|---|---|---|
| AnalyzeImage.DecodeKey | serverless/analyze-image/index.mjs:17 | every '+' of the event's key becomes a space; every other character and the length are kept |
| AnalyzeImage.RequiredList | serverless/analyze-image/index.mjs:29-40 | missing `requiredlist` metadata or text `JSON.parse` rejects gives `[]`; a parsed array is used as is; any other JSON value makes the handler fail |
| AnalyzeImage.NormalizeLabels | serverless/analyze-image/index.mjs:54 | the labels have the detected names' length and order, each lower-cased, and none contains an upper-case letter |
| AnalyzeImage.MatchedItems | serverless/analyze-image/index.mjs:56-59 | the matched terms are a subsequence of the required list; a term is in it exactly when it is required and is a label; every label keeps its number of occurrences from the required list |
| AnalyzeImage.MatchIff | serverless/analyze-image/index.mjs:60 | the match list is non-empty exactly when some required term is a label; an empty required list never matches |
| AnalyzeImage.UppercaseTermNeverMatches | serverless/analyze-image/index.mjs:54-58 | a required term with an upper-case letter is never among the matched terms |
| AnalyzeImage.SplitKey | serverless/analyze-image/index.mjs:63-64 | the session id holds no '/'; the item id is absent exactly when the key has no '/'; otherwise the key starts with `sessionId/itemId` and the item id runs to the end of the key or to the next '/' |
| AnalyzeImage.BuildMessage | serverless/analyze-image/index.mjs:67-75 | the message carries the decoded key, the ids split from it, the lower-cased labels, the matched terms, `isMatch` exactly when some required term is a label, and the clock reading |
| AnalyzeImage.Handle | serverless/analyze-image/index.mjs:9-97 | the result is 200 or the fixed 500 failure; 200 exactly when a message was published; publishing happens exactly when the payload, the metadata read and the detection succeed, the list is an array and the topic accepts; the body summarises the published verdict |
| AnalyzeImage.MissingMetadataStillPublishes | serverless/analyze-image/index.mjs:27-40 | with metadata missing or unparsable the handler still publishes and answers 200, with a non-match |
| UpdateDatabase.IsCollected | serverless/update-database/index.mjs:16 | an item is collected exactly when `isMatch` is the boolean true |
| UpdateDatabase.Overwrite | serverless/update-database/index.mjs:29-43 | the new row has the verdict, the time stamp, the labels and the image key; theme and email are kept from an existing row and absent otherwise |
| UpdateDatabase.ApplyUpdate | serverless/update-database/index.mjs:29-46 | the update upserts the row `(sessionId, itemId)` and leaves every other row unchanged |
| UpdateDatabase.LastWriteWins | serverless/update-database/index.mjs:35-40 | two updates of one row leave what the second alone would leave |
| UpdateDatabase.UpdateIdempotent | serverless/update-database/index.mjs:35-40 | applying one message twice equals applying it once, stamped with the later time |
| UpdateDatabase.NonMatchReverts | serverless/update-database/index.mjs:16-40 | a non-matching message after a matching one resets `isCollected` to false |
| UpdateDatabase.UpdateIgnoresExistingRow | serverless/update-database/index.mjs:26-46 | the written verdict, time stamp, labels and image key do not depend on what the pre-read found |
| UpdateDatabase.Handle | serverless/update-database/index.mjs:7-65 | only the first record is read; with a parsed message naming an item and both table calls succeeding, the row is updated and 200 echoes the ids and the verdict; otherwise nothing changes and the fixed 500 is returned |
| Upload.FileFilter | backend/src/controllers/upload.controller.ts:23-29 | a file is accepted exactly when its MIME type starts with "image/" |
| Upload.Admit | backend/src/controllers/upload.controller.ts:18-30 | an upload is admitted exactly when its type is an image and it is at most 5 MiB |
| Upload.FileExtension | backend/src/controllers/upload.controller.ts:48 | the extension holds no '.'; it is the whole name without a '.', and otherwise the name is some prefix, a '.', then the extension |
| Upload.RequiredTerms | backend/src/controllers/upload.controller.ts:50-51 | the required list is the synonyms, in order, followed by the name |
| Upload.UploadImage | backend/src/controllers/upload.controller.ts:33-75 | never 404; 400 with nothing stored when no file is sent; 500 for an unknown item; otherwise the object stored under `sessionId/itemId/image.ext`, with its type and the JSON of the required list, and 200 with its URL, or 500 with nothing stored when the put fails |
| Items.FromRowIsBijective | backend/src/services/item.service.ts:83-95 | the row-to-item mapping and its inverse undo each other, so no field is lost |
| Items.GetItemById | backend/src/services/item.service.ts:37-57 | an item is returned exactly when some row has the id, with that id and from a stored row; otherwise the error "Item not found" |
| Items.FoundItems | backend/src/services/item.service.ts:59-81 | no more items than ids, each the lookup result of one of the ids, and every id that is found contributes its item |
| Items.FoundItemsAppend | backend/src/services/item.service.ts:65-76 | the ids are looked up independently and in order: the result for `a + b` is the result for `a` followed by the result for `b` |
| Items.FoundItemsOfOne | backend/src/services/item.service.ts:66-71 | one id contributes exactly its item when the lookup succeeds and nothing when it fails |
| Items.GetItemsByIds | backend/src/services/item.service.ts:59-81 | the loop returns the found items in id order, skipping the ids no row has |
| Items.AllFoundLinesUp | backend/src/services/item.service.ts:65-76 | when every id is found, the k-th item is the k-th id's item, duplicates included |
| Items.NoneFoundIsEmpty | backend/src/services/item.service.ts:60-76 | with no id found, or no ids at all, the result is empty |
| Items.ItemsByCategory | backend/src/services/item.service.ts:21-35 | every result is a stored item of the category, and every stored row of the category gives a result |
| Items.ItemsByCategoryInScanOrder | backend/src/services/item.service.ts:21-35 | the result is the category's rows, in scan order, each converted to an item |
| SessionStore.PutAll | backend/src/services/session.service.ts:80-89 | after a list of put requests the last one's row is stored under its key |
| SessionStore.KeysOfExactly | backend/src/services/session.service.ts:80-89 | a key is among the written keys exactly when some put session has it |
| SessionStore.PutAllFrame | backend/src/services/session.service.ts:80-89 | after the puts the keys are the old keys plus those written, and a row no put touches is unchanged |
| SessionStore.RowRoundTrip | backend/src/services/session.service.ts:80-89 | a session stored as a row under its key reads back as the same session |
| SessionStore.PutAllKeepsLater | backend/src/services/session.service.ts:80-89 | a put that no later put of the same key follows leaves its row stored |
| SessionStore.PutAllStoresEach | backend/src/services/session.service.ts:80-89 | with distinct keys every session put reads back intact under its key |
| Sessions.Chunk | backend/src/services/session.service.ts:74-90 | the batches concatenate to the input; there are ceil(n/25) of them; each has 1 to 25 items and all but the last have 25 |
| Sessions.NewSessionItems | backend/src/services/session.service.ts:42-50 | one row per item, in item order, under one session id, with the given theme and email, uncollected |
| Sessions.WriteBatch | backend/src/services/session.service.ts:78-88 | one batch write after earlier puts leaves the table as all those puts followed by the batch's, in order |
| Sessions.BatchWriteSessionItems | backend/src/services/session.service.ts:73-92 | the batches cover the items in order, and writing them one after another leaves the table as putting all items in order |
| Sessions.PutAllSnoc | backend/src/services/session.service.ts:80-88 | one more put after a list of puts is the list extended by that put |
| Sessions.CreateOrUpdateSession | backend/src/services/session.service.ts:28-58 | existing items come back unchanged under the first one's session id and nothing is written; otherwise the new rows are written and returned under the fresh id |
| Sessions.NewSessionStored | backend/src/services/session.service.ts:42-57 | with distinct item ids every returned row is stored uncollected under its key and rows of other sessions are untouched |
| Teams.TeamById | backend/src/services/team.service.ts:107-125 | a team is returned exactly when one has the id, and it is stored with that id |
| Teams.TeamByNameAsWritten | backend/src/services/team.service.ts:127-146 | the lookup as written finds a team exactly when the first scanned team has the name, and then returns that team |
| Teams.AsWrittenAllowsDuplicate | backend/src/services/team.service.ts:53-56 | with the lookup as written, a new team named like the second scanned team (and not the first) passes the check, and the stored names are no longer unique |
| Teams.AsWrittenMissesExistingName | backend/src/services/team.service.ts:127-146 | a second team's existing name goes unnoticed by the lookup as written |
| Teams.TeamByName | backend/src/services/team.service.ts:127-146 | corrected lookup: a team is returned exactly when some team has the name, and it agrees with the written lookup whenever that one finds a team |
| Teams.NameCheckKeepsNamesUnique | backend/src/services/team.service.ts:53-56 | with the corrected lookup, storing a team whose name is free keeps the team names unique |
| Teams.PutTeam | backend/src/services/team.service.ts:68-79 | the put replaces any team with the same id and the new team is then found by its id |
| Teams.PutTeamItem | backend/src/services/team.service.ts:256-265 | the put replaces any row with the same team and item ids and keeps all others |
| Teams.WrittenTeamItems | backend/src/services/team.service.ts:242-269 | every new row is an uncollected row of this team for an item with an id whose put succeeded; each such item gets its row; other teams' rows stay |
| Teams.JoinDecision | backend/src/services/team.service.ts:153-169 | a join succeeds exactly when the team exists, is not completed, the code matches and the user is not yet a member; otherwise the first failing check, in the order team missing, completed, wrong code, already a member, gives its error |
| Teams.TeamService.AddUserToTeam | backend/src/services/team.service.ts:148-181 | the outcome is the join decision, and on success exactly the one membership is added |
| Teams.TeamService.CreateTeamItems | backend/src/services/team.service.ts:235-274 | the loop leaves the team-item table as the puts of the category's items with an id, failed puts skipped |
| Teams.TeamService.CreateTeam | backend/src/services/team.service.ts:41-85 | a missing category fails first, then a name the Limit-1 lookup finds, both with nothing written; otherwise the team is stored uncompleted, the creator joins and the team items are written |
| Teams.CreatorJoins | backend/src/services/team.service.ts:60-81 | the creator's join of a freshly stored open team with its own code always succeeds |
| Teams.QueryTeamItems | backend/src/services/team.service.ts:196-216 | the team's rows, in table order, each as often as in the table, and no others |
| Teams.FindName | backend/src/services/team.service.ts:221-228 | the name of an item with the id when there is one, otherwise "Unknown" |
| Teams.GetTeamItems | backend/src/services/team.service.ts:196-233 | one entry per row of the team, in order, with its item id and collection flag |
| Teams.TeamItemNames | backend/src/services/team.service.ts:218-228 | each entry's name is the stored item's name, or "Unknown" when no item has the id |
| Teams.TeamsWithIds | backend/src/services/team.service.ts:292-293 | the teams whose id is in the set, in scan order, each as often as scanned |
| Teams.GetTeamsByUserId | backend/src/services/team.service.ts:276-298 | exactly the teams, in scan order and each as often as scanned, the user is a member of |
| TeamController.CreateTeamResponse | backend/src/controllers/team.controller.ts:21-44 | 201 exactly on success; 404 exactly for the missing-category message; 400 exactly for the taken-name message; any other failure 500 |
| TeamController.ListTeamsResponse | backend/src/controllers/team.controller.ts:46-56 | 200 with the scanned teams, or 500 when the scan fails |
| TeamController.JoinTeamResponse | backend/src/controllers/team.controller.ts:58-86 | 200 exactly on success; 404 exactly for the missing-team message; 400 exactly for the three refusals; 500 otherwise |
| TeamController.JoinRefusalsAreClientErrors | backend/src/controllers/team.controller.ts:58-86 | a refusal decided by the service is never a 500; 404 exactly for a missing team, 400 exactly for a completed team, a wrong code or a member |
| TeamController.GetTeamItemsResponse | backend/src/controllers/team.controller.ts:88-106 | 404 exactly for a missing team; 200 with the team's items when the query succeeds; 500 otherwise |
| TeamController.GetTeamsByUserIdResponse | backend/src/controllers/team.controller.ts:108-133 | 200 with the user's teams as the service returns them and a count equal to their number; 500 with the error text when a scan fails |
| TeamController.CreateTeamHandler | backend/src/controllers/team.controller.ts:21-44 | missing category gives 404 and a name the Limit-1 lookup finds gives 400, both with nothing written; with the category read and the name scan taken to succeed, a new team for a non-member creator gives 201 with the team and makes the creator a member |
| TeamController.JoinTeamHandler | backend/src/controllers/team.controller.ts:58-86 | the response maps the join decision, and is 200 exactly when the membership was added; with the table calls (the reads and the membership put) taken to succeed, it is never 500 |
| UserStore.UserRoundTrip | frontend/src/stores/userStore.ts:19-31 | the stored text of a user parses back to that user |
| UserStore.Restore | frontend/src/stores/userStore.ts:27-33 | an absent or empty entry keeps the state; a readable entry signs its decoded user in; unreadable text takes the throwing path (None) |
| UserStore.LoginSurvivesReload | frontend/src/stores/userStore.ts:19-31 | `initialize` after `login(u)` on a fresh store signs `u` back in |
| UserStore.LogoutSurvivesReload | frontend/src/stores/userStore.ts:23-33 | `initialize` after `logout` on a fresh store leaves the user signed out |
| UserStore.Store.constructor | frontend/src/stores/userStore.ts:9-15 | the store starts with no user, signed out |
| UserStore.Store.Login | frontend/src/stores/userStore.ts:19-22 | the user's JSON is saved under "currentUser" and the state holds the user, signed in |
| UserStore.Store.Logout | frontend/src/stores/userStore.ts:23-26 | the saved user is removed and the state reset; a second logout changes nothing more |
| UserStore.Store.Initialize | frontend/src/stores/userStore.ts:27-33 | the state becomes what the restore rule gives; unreadable text throws and keeps the state |
| Json.ArrayRoundTrip | backend/src/controllers/upload.controller.ts:59 | the JSON of a string array parses back to that array |
| Pipeline.UploadKeySplits | serverless/analyze-image/index.mjs:63-64 | for ids without '/' and a key without '+', the analysis splits the upload's key back into the upload's session and item ids |
| Pipeline.UploadMetadataParses | backend/src/controllers/upload.controller.ts:59 | the stored required list reads back, through the analysis fallback, as exactly the item's terms |
| Pipeline.UploadedPhotoVerdict | serverless/analyze-image/index.mjs:17-81 | an uploaded photo's message names its session and item and is a match exactly when one of the item's terms is a lower-cased label |
| Pipeline.CapitalisedNameNeverMatches | backend/src/controllers/upload.controller.ts:50-51 | an item name with a capital letter is never what matches |
| Pipeline.WolfLabelAloneDoesNotMatch | backend/src/controllers/seed.controller.ts:58-68 | for the seeded wolf (name "Wolf" and its five synonyms) the labels "Wolf", "Snow", "Outdoors" match nothing |
| Pipeline.WolfCanineLabelMatches | backend/src/controllers/seed.controller.ts:58-68 | for the seeded wolf the labels "Wolf", "Canine" match the synonym "canine" and nothing else |
| Pipeline.ToUpdateMessage | serverless/update-database/index.mjs:10-16 | the update carries the message's ids and key, and its collected flag is the published verdict |
| Pipeline.VerdictRecorded | serverless/update-database/index.mjs:15-46 | delivering a verdict sets the named row's `isCollected` to it, with the image and labels, and touches no other row |
| Pipeline.AnalyseAndRecord | serverless/analyze-image/index.mjs:67-81 | analysing an uploaded photo and delivering the message ends in a 200 and a session row collected exactly when a term matched |

## Left out

- AWS I/O (S3 put and head, Rekognition, SNS, DynamoDB get, put, query, scan, batch write) appears only as tables and as success arguments. Where an operation has such an argument, its `false`/`None` case stands for an exception raised inside the SDK.
- These calls have no failure argument, so the model never sees them throw: the batch writes of `batchWriteSessionItems`; `getCategoryById` in `createTeam`; `getTeamByName` (the scan) in `createTeam`; `getTeamById` and `getTeamUser` in `addUserToTeam`; `getTeamById` in the `getTeamItems` controller; the membership put in `addUserToTeam`; the item Query inside `getItemById`, called from `getItemsByIds` and `uploadImage`; `getSessionItems` in `createOrUpdateSession`, whose result is the plain argument `existing`. In the source, an error from any of them reaches the caller's 500 branch.
- BatchWriteSessionItems: cannot fail. In the source, `Promise.all` can reject after some batches have landed, and the `UnprocessedItems` a batch write returns are ignored without a word.
- Teams.PutTeam: a new team is placed last in the sequence read as scan order, and Teams.PutTeamItem places a new team-item row last in the query order. DynamoDB orders a scan by key hash and a query by the sort key (`item_id`), so the model fixes which team the Limit-1 name check examines (always the oldest) and returns team items in insertion order rather than `item_id` order. The as-written lemmas `Teams.AsWrittenMissesExistingName` and `Teams.AsWrittenAllowsDuplicate` take the scan order as given and do not depend on it.
- Reads are modelled as strongly consistent: a get sees every earlier put. `GetCommand` reads eventually consistently by default, so `Teams.CreatorJoins` (reading the team just written) relies on this.
- Rekognition's `MaxLabels` and `MinConfidence`: the detected label names are an argument.
- `decodeURIComponent`: only the '+' to space step is modelled. Keys are taken to be free of percent escapes, so `Pipeline.UploadKeySplits` assumes ids without '+'.
- Case mapping beyond ASCII: `toLowerCase` is modelled for 'A' to 'Z' only.
- `JSON.parse` of arbitrary text: the metadata parse result is an argument (`AnalyzeImage.ParsedJson`). Only the compact layout that `JSON.stringify` writes is decoded, for string arrays and for the user record. Escapes `\u` with surrogate pairs and insignificant white space are not read.
- An array with non-string elements in the `requiredlist` metadata is `AnalyzeImage.OtherJson` here and ends in the 500 failure, whereas the source filters it (a non-string element never equals a label) and publishes the matches of its string elements.
- Items.GetItemsByIds: a lookup whose Query throws is skipped by the source's try/catch just like an id that is not found, but the model's lookup cannot fail. So the model never shows the consequence in `getTeamItems`: the name "Unknown" for an item that exists.
- UpdateDatabase.UpdateMessage: `sessionId`, `imageKey` and `allDetectedLabels` are always present. A message lacking them makes the DocumentClient marshalling throw (a 500) in the source; only messages built by the analysis function, which always sets them, reach the handler.
- UserStore.Restore: decodes only the compact layout of a user record. Any other JSON value that `JSON.parse` accepts (the source casts it to a user without checking) counts as unreadable here.
- The aliasing of `requiredList` with `item.synonyms` (upload.controller.ts:50-51): the push grows the item's own array. The model builds the list as a new value because the item is request-local and read nowhere else afterwards.
- `Promise.all` concurrency in `batchWriteSessionItems`: the batches are applied in order, each batch's puts in order. DynamoDB's rejection of a batch holding two puts for one key, and of empty key attributes, are not modelled.
- Scan and query pagination (results beyond 1 MB) are not modelled: one call returns every matching row, in table order.
- `getSessionItems` queries the session table by `(email, themeId)`, while the table is keyed by `(sessionId, itemId)` in the update function. The query result is the argument `existing` of `Sessions.CreateOrUpdateSession`.
- Team completion: nothing in the source sets `isCompleted` to true, so no operation does here.
- `uuidv4`, `Math.random` (the team code), `Date.now` and `new Date().toISOString()` are arguments.
- A scan failure in `createTeamItems` (which `createTeam` propagates after the team and the membership are written) and failing puts of the team or the membership are not modelled; failed team-item puts are (`failedPuts`).
- `getTeamItems` throwing when the query returns no `Items` field is the `queryOk` argument of `TeamController.GetTeamItemsResponse`.
- Svelte's subscription mechanism: the store is modelled as its state and its local storage.
- The seed data, the user, category and theme services, the session controller, the routes and the HTTP client are not part of this model; only the seeded wolf item's name and synonyms are used, in `Pipeline.WolfSynonyms`.

## Findings

| source | as written | input that shows it | evidently intended | confidence | as-written member | corrected member |
|---|---|---|---|---|---|---|
| backend/src/services/team.service.ts:127-146 | the duplicate-name check scans with `Limit: 1` and a name filter. DynamoDB applies the limit before the filter, so only the first scanned team is compared | teams scanned as "Wolves", then "Bears"; `createTeam("Bears", …)` finds no duplicate and stores a second "Bears" | reject the name when any stored team has it | high that the limit precedes the filter (documented DynamoDB scan semantics); not executed | Teams.TeamByNameAsWritten, Teams.AsWrittenMissesExistingName, Teams.AsWrittenAllowsDuplicate | Teams.TeamByName, Teams.NameCheckKeepsNamesUnique |
