/**
 * A snapshot: the complete marker list at one point of the history, with the
 * time it was taken and a description of the change that produced it.
 * Its JSON form is not part of this model; where it is needed it is a parameter.
 */
module SnapshotData {
  import opened QtTypes
  import opened Text
  import opened MarkerData

  datatype Snapshot = Snapshot(timestamp: DateTime, markers: seq<Marker>, description: string)

  /** `MapSnapshot()`: what an out-of-range lookup returns. */
  function DefaultSnapshot(qt: Qt): Snapshot {
    Snapshot(qt.nullDateTime, [], "")
  }

  /** `MapSnapshot::toJson` and `MapSnapshot::fromJson`, whose source is not part of this model. */
  datatype SnapshotCodec = SnapshotCodec(
    toJson: Snapshot -> Json,
    fromObject: map<string, Json> -> Snapshot)

  const AddPrefix := "添加标记: "
  const DeletePrefix := "删除标记: "
  const ActorOpen := " (操作者: "

  /** How much of the note a description quotes. */
  const NoteLength := 20

  /**
   * A snapshot description: the prefix naming the change, the first `NoteLength`
   * characters of the note, and the author in parentheses only when there is one.
   */
  function Describe(prefix: string, note: string, actor: string): (d: string)
    ensures |d| >= |prefix| + |Left(note, NoteLength)|
    ensures d[..|prefix|] == prefix
    ensures d[|prefix|..|prefix| + |Left(note, NoteLength)|] == Left(note, NoteLength)
    ensures |Left(note, NoteLength)| == if |note| <= NoteLength then |note| else NoteLength
    ensures note[..|Left(note, NoteLength)|] == Left(note, NoteLength)
    ensures actor == "" <==> |d| == |prefix| + |Left(note, NoteLength)|
    ensures actor != "" ==> d[|prefix| + |Left(note, NoteLength)|..] == ActorOpen + actor + ")"
  {
    var quoted := prefix + Left(note, NoteLength);
    if actor == "" then quoted else quoted + ActorOpen + actor + ")"
  }
}
