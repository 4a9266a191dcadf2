/**
 * A marker: a positioned, coloured, annotated point on the map, and its
 * JSON form `{id, x, y, note, color, createTime, createdBy}`.
 */
module MarkerData {
  import opened Wrappers
  import opened QtTypes
  import opened Text

  datatype Point = Point(x: Double, y: Double)

  datatype Marker = Marker(
    id: string,
    position: Point,
    note: string,
    color: Color,
    createTime: DateTime,
    createdBy: string)

  /** `Marker()`: the empty-id marker a failed lookup returns. */
  function DefaultMarker(qt: Qt): Marker {
    Marker("", Point(qt.zero, qt.zero), "", qt.invalidColor, qt.nullDateTime, "")
  }

  // ---- identifiers ----

  const IdPrefix := "marker-"

  /** Exclusive bound of the random suffix (`bounded(10000)`). */
  const RandomBound := 10000

  /**
   * `generateId`: "marker-<ms>-<n>" from the clock reading `msecs` (milliseconds since
   * the epoch) and the random draw `random`; both sources are parameters here.
   */
  function GenerateId(msecs: int, random: nat): string
    requires random < RandomBound
  {
    IdPrefix + IntToString(msecs) + "-" + NatToString(random)
  }

  /** Recovers the clock reading and the random draw from a generated identifier. */
  function ParseGeneratedId(id: string): Option<(int, nat)> {
    if |id| < |IdPrefix| || id[..|IdPrefix|] != IdPrefix then None
    else
      var rest := id[|IdPrefix|..];
      var k := LastIndexOf(rest, '-');
      if k < 0 || !AllDigits(rest[k + 1..]) then None
      else
        match ParseInt(rest[..k])
        case None => None
        case Some(ms) => Some((ms, ParseNat(rest[k + 1..])))
  }

  /** A generated identifier has the documented shape: it determines its clock reading and random draw. */
  lemma GeneratedIdParses(msecs: int, random: nat)
    requires random < RandomBound
    ensures ParseGeneratedId(GenerateId(msecs, random)) == Some((msecs, random))
  {
    var id := GenerateId(msecs, random);
    var a, d := IntToString(msecs), NatToString(random);
    var rest := a + "-" + d;
    assert id == IdPrefix + rest;
    assert id[..|IdPrefix|] == IdPrefix && id[|IdPrefix|..] == rest;
    assert rest[|a|] == '-';
    forall j | |a| < j < |rest|
      ensures rest[j] != '-'
    {
      assert rest[j] == d[j - |a| - 1];
    }
    assert LastIndexOf(rest, '-') == |a|;
    assert rest[..|a|] == a && rest[|a| + 1..] == d;
    ParseIntToString(msecs);
    ParseNatToString(random);
  }

  /** Two identifiers coincide only when both the millisecond and the random draw coincide. */
  lemma GeneratedIdsDistinct(msecs: int, random: nat, msecs': int, random': nat)
    requires random < RandomBound && random' < RandomBound
    requires msecs != msecs' || random != random'
    ensures GenerateId(msecs, random) != GenerateId(msecs', random')
  {
    GeneratedIdParses(msecs, random);
    GeneratedIdParses(msecs', random');
  }

  /**
   * The public constructor: the caller supplies everything except the identifier,
   * which is always freshly generated from the clock reading and the random draw.
   */
  function NewMarker(position: Point, note: string, color: Color, createTime: DateTime,
                     createdBy: string, msecs: int, random: nat): (m: Marker)
    requires random < RandomBound
    ensures ParseGeneratedId(m.id) == Some((msecs, random))
    ensures m.position == position && m.note == note && m.color == color
    ensures m.createTime == createTime && m.createdBy == createdBy
  {
    GeneratedIdParses(msecs, random);
    Marker(GenerateId(msecs, random), position, note, color, createTime, createdBy)
  }

  // ---- JSON ----

  const JsonKeys: set<string> := {"id", "x", "y", "note", "color", "createTime", "createdBy"}

  /** `toJson`: one key per field, the position split into `x` and `y`. */
  function ToJson(m: Marker, qt: Qt): (obj: map<string, Json>)
    ensures obj.Keys == JsonKeys
  {
    map[
      "id" := JString(m.id),
      "x" := JNumber(m.position.x),
      "y" := JNumber(m.position.y),
      "note" := JString(m.note),
      "color" := JString(qt.colorName(m.color)),
      "createTime" := JString(qt.toIsoDate(m.createTime)),
      "createdBy" := JString(m.createdBy)]
  }

  /** `fromJson`: reads the same seven keys; a missing or mistyped one yields that field's default. */
  function FromJson(obj: map<string, Json>, qt: Qt): Marker {
    Marker(
      StringField(obj, "id"),
      Point(DoubleField(obj, "x", qt), DoubleField(obj, "y", qt)),
      StringField(obj, "note"),
      qt.colorFromName(StringField(obj, "color")),
      qt.fromIsoDate(StringField(obj, "createTime")),
      StringField(obj, "createdBy"))
  }

  /**
   * Reading back a marker's JSON restores id, position, note and author exactly; colour and
   * creation time come back as Qt's own name/ISO round trip makes them.
   */
  lemma FromJsonToJson(m: Marker, qt: Qt)
    ensures FromJson(ToJson(m, qt), qt) ==
      m.(color := qt.colorFromName(qt.colorName(m.color)),
         createTime := qt.fromIsoDate(qt.toIsoDate(m.createTime)))
  {
  }

  /** When Qt's colour and time conversions round-trip, so does the whole marker. */
  lemma FromJsonToJsonExact(m: Marker, qt: Qt)
    requires qt.colorFromName(qt.colorName(m.color)) == m.color
    requires qt.fromIsoDate(qt.toIsoDate(m.createTime)) == m.createTime
    ensures FromJson(ToJson(m, qt), qt) == m
  {
    FromJsonToJson(m, qt);
  }

  /** Unlike the constructor, `fromJson` takes the identifier verbatim from the JSON and generates none. */
  lemma FromJsonKeepsId(obj: map<string, Json>, qt: Qt)
    ensures "id" in obj && obj["id"].JString? ==> FromJson(obj, qt).id == obj["id"].s
    ensures !("id" in obj && obj["id"].JString?) ==> FromJson(obj, qt).id == ""
  {
  }
}
