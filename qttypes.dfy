/**
 * The Qt library types the core leans on, seen only at their boundary.
 * Geometry, colours and times are never computed on by the core, only
 * copied and converted, so they are abstract here, and every conversion
 * Qt performs is a field of the record `Qt` passed to whoever needs it.
 */
module QtTypes {

  /** An IEEE 754 double as QPointF and QJsonValue hold it. */
  type Double(==)

  /** A QColor. */
  type Color(==)

  /** A QDateTime. */
  type DateTime(==)

  type byte = b: int | 0 <= b < 256

  /** A QJsonValue that is present (a missing key is simply absent from the object's map). */
  datatype Json =
    | JNull
    | JBool(b: bool)
    | JNumber(n: Double)
    | JString(s: string)
    | JArray(items: seq<Json>)
    | JObject(fields: map<string, Json>)

  /** What QJsonDocument::fromJson makes of a request body. */
  datatype Document = Invalid | ObjectDoc(fields: map<string, Json>) | ArrayDoc(items: seq<Json>)

  /** The library operations the core calls, and the default values of its types. */
  datatype Qt = Qt(
    zero: Double,                                // 0.0, QPointF() and QJsonValue::toDouble's default
    invalidColor: Color,                         // QColor()
    nullDateTime: DateTime,                      // QDateTime()
    colorName: Color -> string,                  // QColor::name
    colorFromName: string -> Color,              // QColor(const QString&)
    toIsoDate: DateTime -> string,               // QDateTime::toString(Qt::ISODate)
    fromIsoDate: string -> DateTime,             // QDateTime::fromString(_, Qt::ISODate)
    parseDocument: string -> Document,           // QJsonDocument::fromJson
    compactObject: map<string, Json> -> seq<byte>, // QJsonDocument(obj).toJson(Compact)
    compactArray: seq<Json> -> seq<byte>         // QJsonDocument(arr).toJson(Compact)
  )

  /** `obj[key].toString()`: the string stored under `key`, or "" when it is missing or not a string. */
  function StringField(obj: map<string, Json>, key: string): string
  {
    if key in obj && obj[key].JString? then obj[key].s else ""
  }

  /** `obj[key].toDouble()`: the number stored under `key`, or 0.0 when it is missing or not a number. */
  function DoubleField(obj: map<string, Json>, key: string, qt: Qt): Double
  {
    if key in obj && obj[key].JNumber? then obj[key].n else qt.zero
  }

  /** `value.toObject()`: the object itself, or an empty object for any other kind of value. */
  function ObjectOf(value: Json): map<string, Json>
  {
    if value.JObject? then value.fields else map[]
  }
}
