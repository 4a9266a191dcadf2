/**
 * The sync server: one linear snapshot log shared by every client, four fixed
 * endpoints, and a text request format of which only the request line and the
 * body after the first blank line matter.
 */
module Server {
  import opened Wrappers
  import opened QtTypes
  import opened Text
  import opened MarkerData
  import opened SnapshotData
  import opened HttpWire

  // ---- request parsing ----

  const CRLF := "\r\n"
  const BlankLine := "\r\n\r\n"

  datatype Request = Request(verb: string, path: string, body: string)

  /** The first element of `split("\r\n")`: the text before the first line break. */
  function FirstLine(request: string): (line: string)
    ensures |line| <= |request| && request[..|line|] == line
    ensures forall j :: 0 <= j ==> !OccursAt(line, CRLF, j)
    ensures |line| < |request| ==> OccursAt(request, CRLF, |line|)
  {
    var k := IndexOf(request, CRLF);
    if k < 0 then request
    else
      assert forall j :: 0 <= j ==> OccursAt(request[..k], CRLF, j) ==> OccursAt(request, CRLF, j) by {
        forall j | 0 <= j && OccursAt(request[..k], CRLF, j) ensures OccursAt(request, CRLF, j) {
          assert request[..k][j..j + 2] == request[j..j + 2];
        }
      }
      request[..k]
  }

  /** The text after the first blank line, or "" when there is none. */
  function RequestBody(request: string): (body: string)
    ensures IndexOf(request, BlankLine) >= 0 ==>
              request == request[..IndexOf(request, BlankLine)] + BlankLine + body
    ensures IndexOf(request, BlankLine) < 0 ==> body == ""
  {
    var k := IndexOf(request, BlankLine);
    if k >= 0 then
      assert request == request[..k] + request[k..k + 4] + request[k + 4..];
      request[k + 4..]
    else ""
  }

  /** The request line split at every space; fewer than two parts means a malformed request. */
  function ParseRequest(request: string): (r: Option<Request>)
    ensures r.None? <==> ' ' !in FirstLine(request)
    ensures r.Some? ==> r.value.body == RequestBody(request)
    ensures r.Some? ==> ' ' !in r.value.verb && ' ' !in r.value.path
  {
    var tokens := Split(FirstLine(request), ' ');
    if |tokens| < 2 then None else Some(Request(tokens[0], tokens[1], RequestBody(request)))
  }

  /**
   * The method is the text before the first space of the request line and the path the text
   * between the first and the second space (or the end of the line).
   */
  lemma {:induction false} RequestLineTokens(request: string)
    requires ParseRequest(request).Some?
    ensures var r, line := ParseRequest(request).value, FirstLine(request);
            var n := |r.verb| + 1 + |r.path|;
            n <= |line| && line[..n] == r.verb + " " + r.path && (n == |line| || line[n] == ' ')
  {
    var line := FirstLine(request);
    var tokens := Split(line, ' ');
    JoinSplit(line, ' ');
    var tail := tokens[1..];
    assert line == tokens[0] + [' '] + Join(tail, ' ');
    if |tail| > 1 {
      assert Join(tail, ' ') == tail[0] + [' '] + Join(tail[1..], ' ');
    }
  }

  // ---- the log and its endpoints ----

  const SnapshotsPath := "/api/map/snapshots"
  const MarkersPath := "/api/map/markers"
  const MarkerPrefix := "/api/map/markers/"
  const BatchPath := "/api/map/snapshots/batch"

  /** The markers of the newest snapshot, or none for an empty log. */
  function LatestMarkers(log: seq<Snapshot>): seq<Marker> {
    if log == [] then [] else log[|log| - 1].markers
  }

  /** Position of the first marker with the given id, or -1. */
  function FirstIndexOfId(ms: seq<Marker>, id: string): (k: int)
    ensures -1 <= k < |ms|
    ensures k >= 0 ==> ms[k].id == id && forall j :: 0 <= j < k ==> ms[j].id != id
    ensures k < 0 ==> forall j :: 0 <= j < |ms| ==> ms[j].id != id
  {
    if ms == [] then -1
    else if ms[0].id == id then 0
    else
      var k := FirstIndexOfId(ms[1..], id);
      assert forall j :: 1 <= j < |ms| ==> ms[1..][j - 1] == ms[j];
      if k < 0 then -1 else k + 1
  }

  /** The list without its element at `k`, the others in order (`removeAt`). */
  function RemoveAt(ms: seq<Marker>, k: nat): (r: seq<Marker>)
    requires k < |ms|
    ensures |r| == |ms| - 1
    ensures forall j :: 0 <= j < k ==> r[j] == ms[j]
    ensures forall j :: k <= j < |r| ==> r[j] == ms[j + 1]
  {
    ms[..k] + ms[k + 1..]
  }

  /** The log as the JSON array GET answers with. */
  function SnapshotsToJson(log: seq<Snapshot>, codec: SnapshotCodec): (items: seq<Json>)
    ensures |items| == |log|
    ensures forall i :: 0 <= i < |log| ==> items[i] == codec.toJson(log[i])
  {
    if log == [] then []
    else SnapshotsToJson(log[..|log| - 1], codec) + [codec.toJson(log[|log| - 1])]
  }

  /** The snapshots of an uploaded batch, one per array element, in order. */
  function SnapshotsFromJson(items: seq<Json>, codec: SnapshotCodec): (log: seq<Snapshot>)
    ensures |log| == |items|
    ensures forall i :: 0 <= i < |items| ==> log[i] == codec.fromObject(ObjectOf(items[i]))
  {
    if items == [] then []
    else SnapshotsFromJson(items[..|items| - 1], codec) + [codec.fromObject(ObjectOf(items[|items| - 1]))]
  }

  /** What one request does: the response, the log afterwards, and whether the log was written to disk. */
  datatype Outcome = Outcome(response: Response, log: seq<Snapshot>, saved: bool)

  predicate IsGet(verb: string, path: string) { verb == "GET" && path == SnapshotsPath }
  predicate IsAdd(verb: string, path: string) { verb == "POST" && path == MarkersPath }
  predicate IsDelete(verb: string, path: string) { verb == "DELETE" && StartsWith(path, MarkerPrefix) }
  predicate IsBatch(verb: string, path: string) { verb == "POST" && path == BatchPath }

  function AddOutcome(log: seq<Snapshot>, body: string, now: DateTime, qt: Qt): Outcome {
    match qt.parseDocument(body)
    case ObjectDoc(fields) =>
      var marker := FromJson(fields, qt);
      var snapshot := Snapshot(now, LatestMarkers(log) + [marker], Describe(AddPrefix, marker.note, ""));
      Outcome(JsonObject(201, ToJson(marker, qt)), log + [snapshot], true)
    case _ => Outcome(Plain(400, "Invalid JSON"), log, false)
  }

  function DeleteOutcome(log: seq<Snapshot>, markerId: string, now: DateTime): Outcome {
    if log == [] then Outcome(Plain(404, "No snapshots found"), log, false)
    else
      var ms := log[|log| - 1].markers;
      var k := FirstIndexOfId(ms, markerId);
      if k < 0 then Outcome(Plain(404, "Marker not found"), log, false)
      else
        var snapshot := Snapshot(now, RemoveAt(ms, k), Describe(DeletePrefix, ms[k].note, ""));
        Outcome(JsonObject(200, map["markerId" := JString(markerId)]), log + [snapshot], true)
  }

  function UploadMessage(n: nat): string {
    "Uploaded " + NatToString(n) + " snapshots"
  }

  function BatchOutcome(log: seq<Snapshot>, body: string, qt: Qt, codec: SnapshotCodec): Outcome {
    match qt.parseDocument(body)
    case ArrayDoc(items) =>
      Outcome(JsonObject(201, map["message" := JString(UploadMessage(|items|))]),
              log + SnapshotsFromJson(items, codec), true)
    case _ => Outcome(Plain(400, "Invalid JSON array"), log, false)
  }

  /** `handleRequest` as a function of the log before the request. */
  function Handle(log: seq<Snapshot>, verb: string, path: string, body: string,
                  now: DateTime, qt: Qt, codec: SnapshotCodec): Outcome {
    if IsGet(verb, path) then Outcome(JsonArray(200, SnapshotsToJson(log, codec)), log, false)
    else if IsAdd(verb, path) then AddOutcome(log, body, now, qt)
    else if IsDelete(verb, path) then DeleteOutcome(log, path[|MarkerPrefix|..], now)
    else if IsBatch(verb, path) then BatchOutcome(log, body, qt, codec)
    else Outcome(Plain(404, "Not Found"), log, false)
  }

  // ---- properties of the endpoints ----

  /** GET answers 200 with every snapshot, in log order, and changes nothing. */
  lemma GetReturnsWholeLog(log: seq<Snapshot>, body: string, now: DateTime, qt: Qt, codec: SnapshotCodec)
    ensures var o := Handle(log, "GET", SnapshotsPath, body, now, qt, codec);
            o.log == log && !o.saved && o.response.JsonArray? && o.response.status == 200 &&
            |o.response.items| == |log| &&
            forall i :: 0 <= i < |log| ==> o.response.items[i] == codec.toJson(log[i])
  {
  }

  /** A marker POST whose body is not a JSON object answers 400 and changes nothing. */
  lemma AddRejectsNonObject(log: seq<Snapshot>, body: string, now: DateTime, qt: Qt, codec: SnapshotCodec)
    requires !qt.parseDocument(body).ObjectDoc?
    ensures Handle(log, "POST", MarkersPath, body, now, qt, codec) == Outcome(Plain(400, "Invalid JSON"), log, false)
  {
  }

  /**
   * A marker POST appends exactly one snapshot: the newest marker list (or none) with the
   * posted marker at its end, whatever ids the list already holds; the answer echoes the
   * marker as stored.
   */
  lemma AddAppendsOneSnapshot(log: seq<Snapshot>, body: string, now: DateTime, qt: Qt, codec: SnapshotCodec)
    requires qt.parseDocument(body).ObjectDoc?
    ensures var o := Handle(log, "POST", MarkersPath, body, now, qt, codec);
            var marker := FromJson(qt.parseDocument(body).fields, qt);
            var latest := LatestMarkers(log);
            && |o.log| == |log| + 1 && o.log[..|log|] == log && o.saved
            && o.log[|log|].markers == latest + [marker]
            && |o.log[|log|].markers| == |latest| + 1
            && o.log[|log|].timestamp == now
            && o.response == JsonObject(201, ToJson(marker, qt))
  {
  }

  /** DELETE answers 404 and changes nothing on an empty log. */
  lemma DeleteOnEmptyLog(markerId: string, body: string, now: DateTime, qt: Qt, codec: SnapshotCodec)
    ensures Handle([], "DELETE", MarkerPrefix + markerId, body, now, qt, codec)
            == Outcome(Plain(404, "No snapshots found"), [], false)
  {
    assert (MarkerPrefix + markerId)[..|MarkerPrefix|] == MarkerPrefix;
    assert (MarkerPrefix + markerId)[|MarkerPrefix|..] == markerId;
  }

  /**
   * DELETE answers 404 and changes nothing when the newest snapshot lacks the id, even if an
   * older snapshot has it: only the newest is searched.
   */
  lemma DeleteSearchesOnlyLatest(log: seq<Snapshot>, markerId: string, body: string, now: DateTime,
                                 qt: Qt, codec: SnapshotCodec)
    requires log != []
    requires forall j :: 0 <= j < |LatestMarkers(log)| ==> LatestMarkers(log)[j].id != markerId
    ensures Handle(log, "DELETE", MarkerPrefix + markerId, body, now, qt, codec)
            == Outcome(Plain(404, "Marker not found"), log, false)
  {
    assert (MarkerPrefix + markerId)[..|MarkerPrefix|] == MarkerPrefix;
    assert (MarkerPrefix + markerId)[|MarkerPrefix|..] == markerId;
    assert FirstIndexOfId(LatestMarkers(log), markerId) == -1;
  }

  /**
   * A DELETE of an id the newest snapshot holds appends one snapshot without the first marker
   * carrying it, the others kept in order, and answers 200 with the id from the path.
   */
  lemma DeleteRemovesFirstMatch(log: seq<Snapshot>, markerId: string, body: string, now: DateTime,
                                qt: Qt, codec: SnapshotCodec, k: nat)
    requires log != [] && k < |LatestMarkers(log)|
    requires LatestMarkers(log)[k].id == markerId
    requires forall j :: 0 <= j < k ==> LatestMarkers(log)[j].id != markerId
    ensures var o := Handle(log, "DELETE", MarkerPrefix + markerId, body, now, qt, codec);
            var ms := log[|log| - 1].markers;
            && |o.log| == |log| + 1 && o.log[..|log|] == log && o.saved
            && o.log[|log|].markers == ms[..k] + ms[k + 1..]
            && o.log[|log|].description == Describe(DeletePrefix, ms[k].note, "")
            && o.response == JsonObject(200, map["markerId" := JString(markerId)])
  {
    var path := MarkerPrefix + markerId;
    assert path[..|MarkerPrefix|] == MarkerPrefix && path[|MarkerPrefix|..] == markerId;
    assert FirstIndexOfId(log[|log| - 1].markers, markerId) == k;
  }

  /** A batch whose body is not a JSON array answers 400 and changes nothing. */
  lemma BatchRejectsNonArray(log: seq<Snapshot>, body: string, now: DateTime, qt: Qt, codec: SnapshotCodec)
    requires !qt.parseDocument(body).ArrayDoc?
    ensures Handle(log, "POST", BatchPath, body, now, qt, codec) == Outcome(Plain(400, "Invalid JSON array"), log, false)
  {
  }

  /**
   * A batch of N elements grows the log by exactly N, in request order, with no check
   * against the snapshots already there, and answers 201 "Uploaded N snapshots".
   */
  lemma BatchAppendsInOrder(log: seq<Snapshot>, body: string, now: DateTime, qt: Qt, codec: SnapshotCodec)
    requires qt.parseDocument(body).ArrayDoc?
    ensures var o := Handle(log, "POST", BatchPath, body, now, qt, codec);
            var items := qt.parseDocument(body).items;
            && |o.log| == |log| + |items| && o.log[..|log|] == log && o.saved
            && (forall i :: 0 <= i < |items| ==> o.log[|log| + i] == codec.fromObject(ObjectOf(items[i])))
            && o.response == JsonObject(201, map["message" := JString(UploadMessage(|items|))])
  {
    var o := Handle(log, "POST", BatchPath, body, now, qt, codec);
    var items := qt.parseDocument(body).items;
    forall i | 0 <= i < |items| ensures o.log[|log| + i] == codec.fromObject(ObjectOf(items[i])) {
      assert o.log[|log| + i] == SnapshotsFromJson(items, codec)[i];
    }
  }

  /** Any other method or path answers 404 and changes nothing. */
  lemma OtherRoutesNotFound(log: seq<Snapshot>, verb: string, path: string, body: string,
                            now: DateTime, qt: Qt, codec: SnapshotCodec)
    requires !IsGet(verb, path) && !IsAdd(verb, path) && !IsDelete(verb, path) && !IsBatch(verb, path)
    ensures Handle(log, verb, path, body, now, qt, codec) == Outcome(Plain(404, "Not Found"), log, false)
  {
  }

  /**
   * Across every request the log only grows at its end, it is written to disk exactly when a
   * request was accepted as a change, and every status the handler uses has a known reason text.
   */
  lemma HandleOnlyAppends(log: seq<Snapshot>, verb: string, path: string, body: string,
                          now: DateTime, qt: Qt, codec: SnapshotCodec)
    ensures var o := Handle(log, verb, path, body, now, qt, codec);
            && |log| <= |o.log| && o.log[..|log|] == log
            && (!o.saved ==> o.log == log)
            && Reason(o.response) != "Unknown"
  {
    var o := Handle(log, verb, path, body, now, qt, codec);
    assert (log + [])[..|log|] == log;
    if IsGet(verb, path) {
      assert o.log == log && o.response.status == 200;
    } else if IsAdd(verb, path) {
      assert o == AddOutcome(log, body, now, qt);
    } else if IsDelete(verb, path) {
      assert o == DeleteOutcome(log, path[|MarkerPrefix|..], now);
    } else if IsBatch(verb, path) {
      assert o == BatchOutcome(log, body, qt, codec);
    } else {
      assert o == Outcome(Plain(404, "Not Found"), log, false);
    }
  }

  // ---- the server object ----

  class HttpServer {
    var snapshots: seq<Snapshot>
    /** How often `saveData` has rewritten the data file. */
    ghost var saveCount: nat

    /** `loaded` is what `loadData` read from the data file (empty when there was none). */
    constructor (loaded: seq<Snapshot>)
      ensures snapshots == loaded && saveCount == 0
    {
      snapshots := loaded;
      saveCount := 0;
    }

    /** `saveData`: rewrites the whole file from the log; only the fact that it happened is kept. */
    method SaveData()
      modifies this
      ensures snapshots == old(snapshots) && saveCount == old(saveCount) + 1
    {
      saveCount := saveCount + 1;
    }

    method HandleRequest(verb: string, path: string, body: string,
                         now: DateTime, qt: Qt, codec: SnapshotCodec) returns (resp: Response)
      modifies this
      ensures var o := Handle(old(snapshots), verb, path, body, now, qt, codec);
              resp == o.response && snapshots == o.log &&
              saveCount == old(saveCount) + (if o.saved then 1 else 0)
    {
      if IsGet(verb, path) {
        var items := SnapshotArray(codec);
        return JsonArray(200, items);
      }
      if IsAdd(verb, path) {
        resp := AddMarker(body, now, qt);
        return;
      }
      if IsDelete(verb, path) {
        var markerId := path[|MarkerPrefix|..];
        resp := DeleteMarker(markerId, now, qt);
        return;
      }
      if IsBatch(verb, path) {
        resp := UploadBatch(body, qt, codec);
        return;
      }
      resp := Plain(404, "Not Found");
    }

    /** The GET loop: every snapshot converted to JSON, in log order. */
    method SnapshotArray(codec: SnapshotCodec) returns (items: seq<Json>)
      ensures items == SnapshotsToJson(snapshots, codec)
    {
      items := [];
      var i := 0;
      while i < |snapshots|
        invariant 0 <= i <= |snapshots|
        invariant items == SnapshotsToJson(snapshots[..i], codec)
      {
        assert snapshots[..i + 1][..i] == snapshots[..i];
        items := items + [codec.toJson(snapshots[i])];
        i := i + 1;
      }
      assert snapshots[..|snapshots|] == snapshots;
    }

    method AddMarker(body: string, now: DateTime, qt: Qt) returns (resp: Response)
      modifies this
      ensures var o := AddOutcome(old(snapshots), body, now, qt);
              resp == o.response && snapshots == o.log &&
              saveCount == old(saveCount) + (if o.saved then 1 else 0)
    {
      var doc := qt.parseDocument(body);
      if !doc.ObjectDoc? {
        return Plain(400, "Invalid JSON");
      }
      var marker := FromJson(doc.fields, qt);
      var currentMarkers := [];
      if |snapshots| > 0 {
        currentMarkers := snapshots[|snapshots| - 1].markers;
      }
      currentMarkers := currentMarkers + [marker];
      var description := Describe(AddPrefix, marker.note, "");
      snapshots := snapshots + [Snapshot(now, currentMarkers, description)];
      SaveData();
      resp := JsonObject(201, ToJson(marker, qt));
    }

    method DeleteMarker(markerId: string, now: DateTime, qt: Qt) returns (resp: Response)
      modifies this
      ensures var o := DeleteOutcome(old(snapshots), markerId, now);
              resp == o.response && snapshots == o.log &&
              saveCount == old(saveCount) + (if o.saved then 1 else 0)
    {
      if |snapshots| == 0 {
        return Plain(404, "No snapshots found");
      }
      var found, deleted, currentMarkers := RemoveFirstWithId(snapshots[|snapshots| - 1].markers, markerId, qt);
      if !found {
        return Plain(404, "Marker not found");
      }
      var description := Describe(DeletePrefix, deleted.note, "");
      snapshots := snapshots + [Snapshot(now, currentMarkers, description)];
      SaveData();
      resp := JsonObject(200, map["markerId" := JString(markerId)]);
    }

    method UploadBatch(body: string, qt: Qt, codec: SnapshotCodec) returns (resp: Response)
      modifies this
      ensures var o := BatchOutcome(old(snapshots), body, qt, codec);
              resp == o.response && snapshots == o.log &&
              saveCount == old(saveCount) + (if o.saved then 1 else 0)
    {
      var doc := qt.parseDocument(body);
      if !doc.ArrayDoc? {
        return Plain(400, "Invalid JSON array");
      }
      var items := doc.items;
      var i := 0;
      while i < |items|
        invariant 0 <= i <= |items|
        invariant snapshots == old(snapshots) + SnapshotsFromJson(items[..i], codec)
        invariant saveCount == old(saveCount)
      {
        assert items[..i + 1][..i] == items[..i];
        snapshots := snapshots + [codec.fromObject(ObjectOf(items[i]))];
        i := i + 1;
      }
      assert items[..|items|] == items;
      SaveData();
      resp := JsonObject(201, map["message" := JString(UploadMessage(|items|))]);
    }

    /** `onRequestReady`: parse the request, answer 400 to a malformed request line, else dispatch. */
    method OnRequestReady(request: string, now: DateTime, qt: Qt, codec: SnapshotCodec) returns (resp: Response)
      modifies this
      ensures ParseRequest(request).None? ==>
                resp == Plain(400, "Bad Request") && snapshots == old(snapshots) && saveCount == old(saveCount)
      ensures ParseRequest(request).Some? ==>
                var r := ParseRequest(request).value;
                var o := Handle(old(snapshots), r.verb, r.path, r.body, now, qt, codec);
                resp == o.response && snapshots == o.log &&
                saveCount == old(saveCount) + (if o.saved then 1 else 0)
    {
      var parsed := ParseRequest(request);
      if parsed.None? {
        return Plain(400, "Bad Request");
      }
      var r := parsed.value;
      resp := HandleRequest(r.verb, r.path, r.body, now, qt, codec);
    }
  }

  /**
   * The DELETE search loop: finds the first marker with `markerId`, and removes it from the
   * list, keeping the others in order.
   */
  method RemoveFirstWithId(ms: seq<Marker>, markerId: string, qt: Qt)
    returns (found: bool, deleted: Marker, rest: seq<Marker>)
    ensures found <==> FirstIndexOfId(ms, markerId) >= 0
    ensures found ==> deleted == ms[FirstIndexOfId(ms, markerId)] &&
                      rest == RemoveAt(ms, FirstIndexOfId(ms, markerId))
    ensures !found ==> deleted == DefaultMarker(qt) && rest == ms
  {
    rest := ms;
    found := false;
    deleted := DefaultMarker(qt);
    var i := 0;
    while i < |rest|
      invariant 0 <= i <= |ms| && rest == ms
      invariant forall j :: 0 <= j < i ==> ms[j].id != markerId
    {
      if rest[i].id == markerId {
        deleted := rest[i];
        rest := rest[..i] + rest[i + 1..];
        found := true;
        break;
      }
      i := i + 1;
    }
  }
}
