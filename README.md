# Map markers with snapshot history: a Dafny model

This project models the core of a collaborative map-marker editor. It has three parts:

- **The client's snapshot history** (`MarkerManager`). It holds an append-only list of snapshots, a cursor naming the snapshot on display (-1 for none), and a working map from marker id to marker. Each accepted add or delete appends one whole snapshot of the working map and moves the cursor to it. Restoring an index only moves the cursor and rebuilds the working map; it never touches the history.
- **The sync server's request handling** (`HttpServer`). It keeps one linear snapshot log and serves four fixed endpoints over a minimal HTTP-like protocol: GET all snapshots, POST a marker, DELETE a marker by id, POST a batch of snapshots. Its status-text tables and response framing are modelled too.
- **The marker entity and its JSON field mapping.**

Files and modules:

| file | module | models |
|---|---|---|
| wrappers.dfy | `Wrappers` | `Option` |
| qttypes.dfy | `QtTypes` | Qt types at their boundary: abstract `Double`, `Color` and `DateTime`; JSON values; the `Qt` record of library conversions |
| text.dfy | `Text` | `indexOf`, `split(QChar)`, `left`, decimal formatting, UTF-8 encoding |
| marker.dfy | `MarkerData` | `src/data/marker.cpp` |
| snapshot.dfy | `SnapshotData` | the snapshot value and snapshot descriptions |
| markermanager.dfy | `MarkerManagement` | `src/core/markermanager.cpp`, as the class `MarkerManager` |
| httpwire.dfy | `HttpWire` | response framing and status texts of `backend/server.cpp` |
| server.dfy | `Server` | request parsing, the pure specification `Handle` of `handleRequest`, and the class `HttpServer` |

While an older snapshot is on display (`0 <= cursor < len - 1`), `addMarker` and `deleteMarker` return `false` and change nothing; they do not move to the newest snapshot first. `deleteMarker` checks for an unknown id before it checks for browsing. `BrowsingScenario` walks through this sequence:

- add two markers;
- go back to snapshot 0;
- try a deletion, which is refused;
- restore the latest snapshot, which brings back exactly the earlier marker set;
- delete again, which is accepted and appends a third snapshot.

Behaviour of the code that the model keeps as written:

- **Empty load.** `loadFromSnapshots` with an empty list leaves the cursor and the working map as they were. The cursor can then be out of range for the empty history, and the next add builds on the old working map. `MarkerManager.Valid` allows this: it ties the cursor and the working map to the history only when the history is non-empty.
- **Server POST.** The server's marker POST makes no id-uniqueness check.
- **Server DELETE.** It searches only the newest snapshot and removes only the first marker with the id.
- **Batch upload.** It appends every posted snapshot verbatim, in order.

Parameters stand in for the outside world:

- the clock (`now`, `msecs`) and the random draw (`random`);
- Qt's JSON parsing and serialisation, and its colour and date conversions (the `Qt` record);
- `MapSnapshot`'s JSON mapping (`SnapshotCodec`);
- the snapshot list read by `loadData` (the `HttpServer` constructor argument).

## Model

| member | source | states |
|---|---|---|
| MarkerManagement.MarkerManager.constructor | src/core/markermanager.cpp:3-7 | starts with no snapshots, cursor -1 and an empty working map |
| MarkerManagement.MarkerManager.AddMarker | src/core/markermanager.cpp:9-36 | refused with nothing changed exactly while browsing; otherwise true, history grows by exactly one with the old history as prefix, cursor at the new tip, working map = previous tip's map with `marker.id` mapped to `marker` (overwriting), new snapshot lists exactly that map's values, stamped `now`, described from the note and author |
| MarkerManagement.MarkerManager.DeleteMarker | src/core/markermanager.cpp:38-73 | true iff the id is in the working map and not browsing; otherwise nothing changes; on success one snapshot appended of the previous set minus the id, cursor at the new tip, description quotes the deleted marker's note |
| MarkerManagement.MarkerManager.CurrentMarkers | src/core/markermanager.cpp:75-83 | the markers of the snapshot under a valid cursor, else exactly the working map's values; either way they rebuild the working map |
| MarkerManagement.MarkerManager.FindMarker | src/core/markermanager.cpp:85-102 | working map first, then the first marker with the id in the snapshot under the cursor, else the empty-id default marker |
| MarkerManagement.MarkerManager.FindMarkerFallbackFindsNothing | src/core/markermanager.cpp:91-98 | under the invariant the snapshot scan never finds an id the working map lacks |
| MarkerManagement.MarkerManager.RestoreSnapshot | src/core/markermanager.cpp:104-126 | true iff the index is in range; then cursor = index and working map rebuilt from that snapshot; otherwise nothing changes; history never changes |
| MarkerManagement.MarkerManager.RestoreLatestSnapshot | src/core/markermanager.cpp:128-134 | no-op on an empty history, else cursor at the last index and working map rebuilt from the tip |
| MarkerManagement.MarkerManager.CreateSnapshot | src/core/markermanager.cpp:136-150 | appends one snapshot listing exactly the working map's values; the cursor moves to it; rebuilding from it leaves the working map equal to what it was |
| MarkerManagement.MarkerManager.SnapshotAt | src/core/markermanager.cpp:152-158 | the snapshot at an in-range index, else the default (empty) snapshot |
| MarkerManagement.MarkerManager.LoadFromSnapshots | src/core/markermanager.cpp:160-166 | history replaced wholesale; a non-empty list puts its last snapshot on display; an empty one leaves cursor and working map untouched |
| MarkerManagement.MarkerManager.CreateSnapshotInternal | src/core/markermanager.cpp:168-174 | a snapshot stamped `now` with the given description whose markers are exactly the working map's values, each once |
| MarkerManagement.MapOf | src/core/markermanager.cpp:114-117 | the rebuilt map's keys are exactly the ids in the list and every entry is filed under its own marker's id |
| MarkerManagement.MapOfKeepsLast | src/core/markermanager.cpp:115-116 | for duplicate ids the later marker wins |
| MarkerManagement.MapFromMarkers | src/core/markermanager.cpp:142-145 | the clear-and-refill loop computes the rebuilt map of the snapshot's markers |
| MarkerManagement.Values | src/core/markermanager.cpp:170 | `values()` lists every value of an id-keyed map exactly once, in some order |
| MarkerManagement.EnumerationRebuildsMap | src/core/markermanager.cpp:142-145 | refilling the map from any listing of its values gives the same map back |
| MarkerManagement.EnumerationListsEveryValue | src/core/markermanager.cpp:170 | such a listing misses no value of the map |
| MarkerManagement.FirstWithId | src/core/markermanager.cpp:93-97 | none iff no marker has the id; otherwise the first marker with it |
| MarkerManagement.FirstWithIdAbsent | src/core/markermanager.cpp:87-97 | a list has no marker whose id its rebuilt map lacks |
| SnapshotData.Describe | src/core/markermanager.cpp:27-30 | the description starts with the change prefix, then the first 20 characters of the note; after that comes ` (操作者: X)` exactly when an author X is given, and nothing otherwise |
| MarkerData.GenerateId | src/data/marker.cpp:18-23 | `marker-<ms>-<n>` from the clock reading and a draw below 10000, which are parameters; its properties are carried by `MarkerData.GeneratedIdParses` and `MarkerData.GeneratedIdsDistinct` |
| MarkerData.GeneratedIdParses | src/data/marker.cpp:18-23 | an id `marker-<ms>-<n>` determines the clock reading and the random draw it was built from |
| MarkerData.GeneratedIdsDistinct | src/data/marker.cpp:18-23 | two generated ids coincide only when both millisecond and random draw coincide |
| MarkerData.NewMarker | src/data/marker.cpp:4-16 | the constructor takes every field from the caller except the id, which is always a generated one |
| MarkerData.ToJson | src/data/marker.cpp:25-35 | emits exactly the keys id, x, y, note, color, createTime, createdBy |
| MarkerData.FromJson | src/data/marker.cpp:37-46 | every field from the key `toJson` writes it under, the position from x and y, and the id taken as is; its properties are carried by `MarkerData.FromJsonToJson`, `MarkerData.FromJsonToJsonExact` and `MarkerData.FromJsonKeepsId` |
| MarkerData.FromJsonToJson | src/data/marker.cpp:25-46 | reading back a marker's JSON restores id, position (x and y), note and author exactly; colour and time pass through Qt's own name/ISO conversions |
| MarkerData.FromJsonToJsonExact | src/data/marker.cpp:25-46 | when Qt's colour and time conversions round-trip, the whole marker round-trips |
| MarkerData.FromJsonKeepsId | src/data/marker.cpp:37-39 | `fromJson` takes the JSON id verbatim (or "" when absent) and generates none |
| Text.Left | src/core/markermanager.cpp:27 | `left(n)` has length min(length, n) and is a prefix of the string |
| Text.IndexOf | backend/server.cpp:119 | -1 iff the pattern never occurs, else the first position where it occurs |
| Text.Split | backend/server.cpp:108 | at least one part; exactly one iff the separator does not occur; no part contains the separator |
| Text.JoinSplit | backend/server.cpp:108 | joining the parts with the separator gives back the line |
| Text.ParseNatToString | backend/server.cpp:260 | the decimal text written by `arg` reads back as the same number |
| Server.FirstLine | backend/server.cpp:104-108 | the request line is a prefix of the request, contains no CRLF, and is followed by CRLF unless it is the whole request |
| Server.RequestBody | backend/server.cpp:116-122 | the body is everything after the first blank line, or empty when there is none |
| Server.ParseRequest | backend/server.cpp:104-122 | rejected iff the request line has no space; otherwise method and path contain no space and the body is as above |
| Server.RequestLineTokens | backend/server.cpp:108-115 | method is the text before the first space, path the text up to the next space or the end of the line |
| Server.FirstIndexOfId | backend/server.cpp:184-191 | -1 iff no marker has the id, else the first index with it |
| Server.RemoveAt | backend/server.cpp:187 | one element shorter, everything before and after the removed one in order |
| Server.RemoveFirstWithId | backend/server.cpp:180-191 | the search loop finds the first marker with the id and removes just it; not found leaves the list as it was |
| Server.SnapshotsToJson | backend/server.cpp:133-136 | one JSON element per snapshot, in log order |
| Server.SnapshotsFromJson | backend/server.cpp:222-225 | one snapshot per array element, in request order |
| Server.Handle | backend/server.cpp:129-239 | the response, the new log and whether the log was saved, for each route in the source's order; its properties are carried by the route lemmas below and `Server.HandleOnlyAppends` |
| Server.AddOutcome | backend/server.cpp:141-168 | the marker POST route; its properties are carried by `Server.AddRejectsNonObject` and `Server.AddAppendsOneSnapshot` |
| Server.DeleteOutcome | backend/server.cpp:170-212 | the DELETE route; its properties are carried by `Server.DeleteOnEmptyLog`, `Server.DeleteSearchesOnlyLatest` and `Server.DeleteRemovesFirstMatch` |
| Server.BatchOutcome | backend/server.cpp:214-235 | the batch route; its properties are carried by `Server.BatchRejectsNonArray` and `Server.BatchAppendsInOrder` |
| Server.GetReturnsWholeLog | backend/server.cpp:131-139 | GET answers 200 with every snapshot in order and leaves the log unchanged and unsaved |
| Server.AddRejectsNonObject | backend/server.cpp:142-147 | a marker POST whose body is not a JSON object answers 400 and changes nothing |
| Server.AddAppendsOneSnapshot | backend/server.cpp:149-165 | a valid marker POST appends exactly one snapshot: the latest markers (or none) with the posted marker at the end, no uniqueness check, answered 201 echoing the stored marker |
| Server.DeleteOnEmptyLog | backend/server.cpp:171-178 | DELETE on an empty log answers 404 and changes nothing |
| Server.DeleteSearchesOnlyLatest | backend/server.cpp:180-196 | DELETE of an id absent from the newest snapshot answers 404 with the log unchanged, whatever older snapshots hold |
| Server.DeleteRemovesFirstMatch | backend/server.cpp:172-211 | a successful DELETE appends one snapshot without the first marker carrying the id, others in order, and answers 200 with `markerId` = path suffix |
| Server.BatchRejectsNonArray | backend/server.cpp:215-220 | a batch whose body is not a JSON array answers 400 and changes nothing |
| Server.BatchAppendsInOrder | backend/server.cpp:222-233 | an N-element batch grows the log by exactly N in request order, without deduplication, answered 201 "Uploaded N snapshots" |
| Server.OtherRoutesNotFound | backend/server.cpp:237-238 | any other method or path answers 404 and changes nothing |
| Server.HandleOnlyAppends | backend/server.cpp:129-239 | every request leaves the old log as a prefix of the new one, changes it only when it saves, and answers with a known reason text |
| Server.HttpServer.constructor | backend/server.cpp:10-21 | the log starts as what was loaded from the data file |
| Server.HttpServer.SaveData | backend/server.cpp:71-88 | the log is not changed; one more write of the data file is recorded |
| Server.HttpServer.HandleRequest | backend/server.cpp:129-239 | the response and new log are those of `Handle` on the old log; the file is written exactly when `Handle` says so |
| Server.HttpServer.SnapshotArray | backend/server.cpp:133-137 | the GET loop builds the JSON array of the whole log |
| Server.HttpServer.AddMarker | backend/server.cpp:141-168 | the marker POST branch, in place, agrees with its outcome in `Handle` |
| Server.HttpServer.DeleteMarker | backend/server.cpp:170-212 | the DELETE branch, in place, agrees with its outcome in `Handle` |
| Server.HttpServer.UploadBatch | backend/server.cpp:214-235 | the append loop over the batch agrees with its outcome in `Handle` |
| Server.HttpServer.OnRequestReady | backend/server.cpp:96-127 | a request line without a space answers 400 Bad Request with nothing changed; otherwise dispatches method, path and body |
| HttpWire.PlainReason | backend/server.cpp:243-251 | OK, Created, Bad Request, Not Found, Internal Server Error for 200/201/400/404/500, "Unknown" exactly for every other code |
| HttpWire.ObjectReason | backend/server.cpp:273-280 | the same table without 500, which is "Unknown" |
| HttpWire.ArrayReason | backend/server.cpp:303-307 | known only for 200 |
| HttpWire.HeaderLines | backend/server.cpp:252-261 | the status line, Content-Type, Content-Length, the CORS line only for JSON senders, and Connection, in that order; its properties are carried by `HttpWire.HeaderAnnouncesLength` and `HttpWire.FrameAnnouncesBody` |
| HttpWire.Lines | backend/server.cpp:252-257 | each header line ends in CRLF and one more CRLF closes the header; `HttpWire.LinesBlankAtEnd` proves that this last CRLF is the only blank line |
| HttpWire.Body | backend/server.cpp:268-271 | the body bytes: the message's UTF-8 for `sendResponse`, the compact JSON document for the two JSON senders |
| HttpWire.ResponseHeader | backend/server.cpp:252-320 | the status, reason table, content type and CORS line each sender uses, with the body's byte length |
| HttpWire.Encode | backend/server.cpp:252-320 | the bytes written to the socket are the UTF-8 header followed by the body; `HttpWire.FrameAnnouncesBody` carries the framing property |
| HttpWire.ContentLength | backend/server.cpp:255 | the client's side of the framing: the digits of the first `Content-Length: ` line |
| HttpWire.LinesBlankAtEnd | backend/server.cpp:252-257 | lines that are non-empty and printable end in CRLFCRLF, and no earlier CRLFCRLF occurs |
| HttpWire.FirstBlankLine | backend/server.cpp:257-263 | after such a header is encoded and any body appended, the first CRLFCRLF is the header's last four bytes |
| HttpWire.HeaderLinesPrintable | backend/server.cpp:252-261 | every header line is non-empty and printable ASCII, whatever the status and length |
| HttpWire.HeaderAnnouncesLength | backend/server.cpp:255-260 | reading the header's first Content-Length line gives back exactly the length the header was built with |
| HttpWire.FrameAnnouncesBody | backend/server.cpp:252-320 | in a response's bytes, the first blank line ends exactly the encoded header lines and everything after it is the body; the Content-Length read from those header lines is the body's byte length |
| Text.Utf8Ascii | backend/server.cpp:263 | an ASCII string's UTF-8 bytes are its character codes, one per character |
| HttpWire.PlainAsciiLength | backend/server.cpp:241-261 | a plain ASCII message's Content-Length is its character count |

## Left out

- Qt signals (`snapshotCreated`, `currentSnapshotChanged`, `markersChanged`) and `qDebug`/`qWarning` logging are not modelled: they notify the UI and do not change state.
- File persistence (`loadData`, `saveData`, backend/server.cpp:41-88) is file I/O. `SaveData` only counts the writes in a ghost counter, and the constructor takes the snapshot list that `loadData` would have read.
- Socket plumbing is TCP I/O and is not modelled: `start`, `stop`, `onNewConnection`, and `write`/`flush`/`disconnectFromHost`.
- The request arrives as an already-decoded string; UTF-8 decoding of the raw bytes is not modelled.
- Copying the response body into a `QString` and re-encoding it is modelled as copying the body bytes unchanged. This is exact for valid UTF-8, which a compact JSON document always is.
- `QString::left(20)` counts UTF-16 code units; the model counts Unicode scalar values. The two differ only for characters outside the Basic Multilingual Plane.
- The order of `values()` is left unspecified, because the container type of the working map is not part of this model. `Values` picks keys in an arbitrary order.
- `MapSnapshot` is not part of this model: its JSON mapping (`SnapshotCodec`) is a parameter, and `snapshotId` is not modelled.
- Qt's JSON parser and serialiser, and the colour and date/time conversions, are abstract parameters, so their own behaviour (e.g. alpha dropped by `QColor::name`) is not modelled.
- The `lines.isEmpty()` guard (backend/server.cpp:105) cannot trigger, because splitting always yields at least one part. It is therefore absent from `OnRequestReady`.
- Status codes are natural numbers; the source's `int` is only ever given the constants 200, 201, 400 and 404.
- Not part of this model: the UI shell (mainwindow.cpp), the map widget (src/widgets/mapview.cpp), the asynchronous network client (src/network/apiclient.cpp) and the entry points.
