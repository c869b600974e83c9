/** The per-workout normaliser shared by the DAG task and the historical
    loader: a `/api/workout/{id}` detail record becomes one raw record
    (the `current_dict` of the source), and the raw records of a batch
    become output rows by the column conversions. */
module Normalize {
  import opened Wrappers
  import opened Text
  import opened Instructors

  /** The `ride` object of a detail record. `hasInstructorKey` says whether
      `ride` holds an `instructor` key (its value is never read). */
  datatype Ride = Ride(
    title: Option<string>,
    duration: Option<int>,
    instructorId: Option<string>,
    hasInstructorKey: bool)

  /** A detail record; every field the code reads may be missing. */
  datatype WorkoutDetail = WorkoutDetail(
    startTime: Option<int>,
    totalWork: Option<int>,
    fitnessDiscipline: Option<string>,
    ride: Option<Ride>)

  /** The `KeyError`s the batch code can raise. */
  datatype KeyError =
    | MissingField(workoutId: string)  // a key absent from one detail record
    | MissingDateColumn                // `collection_df['date']` on an empty frame

  const Lanebreak: string := "lanebreak"

  /** One `current_dict`: `instructor` still holds an instructor id (or the
      'no instructor' key), `duration` seconds and `totalWork` joules. */
  datatype RawRecord = RawRecord(
    workoutId: string,
    startTime: int,
    title: string,
    instructor: string,
    classType: string,
    duration: int,
    totalWork: int)

  /** One output row. `workoutId` is None once the column is dropped; the
      total output is kept in tenths of a kilojoule. */
  datatype Row = Row(
    workoutId: Option<string>,
    date: int,
    classTitle: string,
    instructor: string,
    classType: string,
    lengthMin: int,
    totalOutputTenths: int,
    riderName: string)

  /** The lanebreak branch and the standard branch of the detail loop. */
  function Extract(id: string, w: WorkoutDetail): Option<RawRecord> {
    if w.ride.None? then None
    else
      var ride := w.ride.value;
      if w.startTime.None? || ride.title.None? || ride.duration.None? || w.totalWork.None? then None
      else if ride.hasInstructorKey then
        Some(RawRecord(id, w.startTime.value, ride.title.value, NoInstructor, Lanebreak,
                       ride.duration.value, w.totalWork.value))
      else if ride.instructorId.None? || w.fitnessDiscipline.None? then None
      else
        Some(RawRecord(id, w.startTime.value, ride.title.value, ride.instructorId.value,
                       w.fitnessDiscipline.value, ride.duration.value, w.totalWork.value))
  }

  /** `(seconds / 60).astype('int')`: the quotient truncated toward zero. */
  function WholeMinutes(seconds: int): (m: int)
    ensures 0 <= seconds ==> 60 * m <= seconds < 60 * m + 60
    ensures seconds < 0 ==> 60 * m - 60 < seconds <= 60 * m
  {
    if seconds >= 0 then seconds / 60 else -((-seconds) / 60)
  }

  /** `round(joules / 1000, 1)` in tenths of a kJ: the integer nearest to
      joules / 100, a tie going to the even neighbour. */
  function RoundTenths(joules: int): (t: int)
    ensures -50 <= joules - 100 * t <= 50
    ensures (joules - 100 * t == 50 || joules - 100 * t == -50) ==> t % 2 == 0
  {
    var q, r := joules / 100, joules % 100;
    if r < 50 then q
    else if r > 50 then q + 1
    else if q % 2 == 0 then q else q + 1
  }

  /** The column conversions of one raw record. */
  function ToRow(raw: RawRecord, riderName: string, names: map<string, string>): Row {
    Row(Some(raw.workoutId), raw.startTime, StripApostrophes(raw.title),
        Resolve(names, raw.instructor), raw.classType, WholeMinutes(raw.duration),
        RoundTenths(raw.totalWork), riderName)
  }

  /** The per-workout normalisation: None when a key is missing. */
  function NormalizeWorkout(id: string, w: WorkoutDetail, riderName: string, names: map<string, string>): Option<Row> {
    match Extract(id, w)
    case None => None
    case Some(raw) => Some(ToRow(raw, riderName, names))
  }

  /** The detail loop: a raw record per id, in order, or the KeyError of the
      first id whose detail record lacks a key. */
  function ExtractAll(ids: seq<string>, fetch: string -> WorkoutDetail): (r: Result<seq<RawRecord>, KeyError>)
    ensures r.Ok? <==> forall i :: 0 <= i < |ids| ==> Extract(ids[i], fetch(ids[i])).Some?
    ensures r.Ok? ==>
              && |r.value| == |ids|
              && forall i :: 0 <= i < |ids| ==> Extract(ids[i], fetch(ids[i])) == Some(r.value[i])
    ensures r.Err? ==>
              exists i :: && 0 <= i < |ids|
                          && r.error == MissingField(ids[i])
                          && Extract(ids[i], fetch(ids[i])).None?
                          && forall j :: 0 <= j < i ==> Extract(ids[j], fetch(ids[j])).Some?
  {
    if ids == [] then Ok([])
    else
      var n := |ids| - 1;
      var init := ids[..n];
      assert forall i :: 0 <= i < n ==> ids[i] == init[i];
      match ExtractAll(init, fetch)
      case Err(e) => Err(e)
      case Ok(raws) =>
        match Extract(ids[n], fetch(ids[n]))
        case None => Err(MissingField(ids[n]))
        case Some(raw) => Ok(raws + [raw])
  }

  /** The column conversions of a batch, as both `get_user_workout_details`
      and `peloton_to_local` apply them. On an empty frame the first
      conversion, of the 'date' column, raises. */
  function Tabulate(raws: seq<RawRecord>, riderName: string, names: map<string, string>): (r: Result<seq<Row>, KeyError>)
    ensures r.Err? <==> raws == []
    ensures r.Err? ==> r.error == MissingDateColumn
    ensures r.Ok? ==> |r.value| == |raws| && forall i :: 0 <= i < |raws| ==> r.value[i] == ToRow(raws[i], riderName, names)
  {
    if raws == [] then Err(MissingDateColumn)
    else Ok(seq(|raws|, i requires 0 <= i < |raws| => ToRow(raws[i], riderName, names)))
  }

  /** A whole batch: every detail record extracted, then tabulated. */
  function Batch(ids: seq<string>, fetch: string -> WorkoutDetail, riderName: string, names: map<string, string>): Result<seq<Row>, KeyError> {
    match ExtractAll(ids, fetch)
    case Err(e) => Err(e)
    case Ok(raws) => Tabulate(raws, riderName, names)
  }

  // ---- the detail loop as the source runs it ----

  lemma {:induction false} ExtractAllErrPersists(ids: seq<string>, fetch: string -> WorkoutDetail, i: nat)
    requires i <= |ids| && ExtractAll(ids[..i], fetch).Err?
    ensures ExtractAll(ids, fetch) == ExtractAll(ids[..i], fetch)
    decreases |ids| - i
  {
    if i < |ids| {
      assert ids[..i + 1][..i] == ids[..i];
      ExtractAllErrPersists(ids, fetch, i + 1);
    } else {
      assert ids[..i] == ids;
    }
  }

  /** The detail loop of `get_user_workout_details` and `peloton_to_local`:
      fetch each detail record and append its raw
      record; the first KeyError ends the loop. */
  method ExtractBatch(ids: seq<string>, fetch: string -> WorkoutDetail) returns (r: Result<seq<RawRecord>, KeyError>)
    ensures r == ExtractAll(ids, fetch)
    ensures r.Ok? ==> |r.value| == |ids| && forall i :: 0 <= i < |ids| ==> r.value[i].workoutId == ids[i]
  {
    var raws: seq<RawRecord> := [];
    for i := 0 to |ids|
      invariant ExtractAll(ids[..i], fetch) == Ok(raws)
    {
      var workout := fetch(ids[i]);
      assert ids[..i + 1][..i] == ids[..i];
      match Extract(ids[i], workout)
      case None =>
        ExtractAllErrPersists(ids, fetch, i + 1);
        return Err(MissingField(ids[i]));
      case Some(raw) =>
        raws := raws + [raw];
    }
    assert ids[..|ids|] == ids;
    r := Ok(raws);
    forall i | 0 <= i < |ids| ensures r.value[i].workoutId == ids[i] {
      ExtractKeepsId(ids[i], fetch(ids[i]));
    }
  }

  // ---- properties ----

  lemma ExtractKeepsId(id: string, w: WorkoutDetail)
    ensures Extract(id, w).Some? ==> Extract(id, w).value.workoutId == id
  {
  }

  /**
   * A ride with an `instructor` key yields a 'lanebreak' row whose
   * instructor is 'no instructor', whatever instructor_id and
   * fitness_discipline hold or whether they are present at all.
   */
  lemma LanebreakRow(id: string, w: WorkoutDetail, riderName: string, roster: seq<Instructor>,
                     discipline: Option<string>, instructorId: Option<string>)
    requires w.ride.Some? && w.ride.value.hasInstructorKey
    requires NormalizeWorkout(id, w, riderName, Directory(roster)).Some?
    ensures var row := NormalizeWorkout(id, w, riderName, Directory(roster)).value;
      row.classType == Lanebreak && row.instructor == NoInstructor
    ensures var w' := w.(fitnessDiscipline := discipline, ride := Some(w.ride.value.(instructorId := instructorId)));
      NormalizeWorkout(id, w', riderName, Directory(roster)) == NormalizeWorkout(id, w, riderName, Directory(roster))
  {
  }

  /**
   * Without an `instructor` key the class type is fitness_discipline and the
   * instructor is the directory's name for instructor_id, or
   * 'no instructor' for an id the directory lacks.
   */
  lemma StandardRow(id: string, w: WorkoutDetail, riderName: string, names: map<string, string>)
    requires w.ride.Some? && !w.ride.value.hasInstructorKey
    requires NormalizeWorkout(id, w, riderName, names).Some?
    ensures w.fitnessDiscipline.Some? && w.ride.value.instructorId.Some?
    ensures var row := NormalizeWorkout(id, w, riderName, names).value;
      var k := w.ride.value.instructorId.value;
      row.classType == w.fitnessDiscipline.value &&
      (k in names ==> row.instructor == names[k]) &&
      (k !in names ==> row.instructor == NoInstructor)
  {
  }

  /** A standard workout fails exactly when a key of its branch is missing. */
  lemma NormalizeFailsIff(id: string, w: WorkoutDetail, riderName: string, names: map<string, string>)
    ensures NormalizeWorkout(id, w, riderName, names).None? <==>
      w.ride.None? || w.startTime.None? || w.totalWork.None? ||
      w.ride.value.title.None? || w.ride.value.duration.None? ||
      (!w.ride.value.hasInstructorKey && (w.ride.value.instructorId.None? || w.fitnessDiscipline.None?))
  {
  }

  /**
   * In every row the title has lost its apostrophes and nothing else, the
   * length is whole minutes truncated, and the output is joules / 1000 in tenths.
   */
  lemma RowConversions(id: string, w: WorkoutDetail, riderName: string, names: map<string, string>)
    requires NormalizeWorkout(id, w, riderName, names).Some?
    ensures var row := NormalizeWorkout(id, w, riderName, names).value;
      var ride := w.ride.value;
      row.workoutId == Some(id) && row.riderName == riderName && row.date == w.startTime.value &&
      row.classTitle == StripApostrophes(ride.title.value) && Apostrophe !in row.classTitle &&
      (ride.duration.value >= 0 ==> row.lengthMin == ride.duration.value / 60) &&
      row.totalOutputTenths == RoundTenths(w.totalWork.value)
  {
  }

  /** 12345 J is 12.3 kJ; 12350 J is a tie and goes to the even 12.4 kJ. */
  lemma RoundExamples()
    ensures RoundTenths(12345) == 123 && RoundTenths(12350) == 124 && RoundTenths(12250) == 122
  {
  }

  /**
   * The batch is all-or-nothing: it yields rows exactly when there is at
   * least one id and every detail record has the keys its branch reads;
   * then there is one row per id, in id order, each the normalisation of
   * that id's record and all carrying the same rider name.
   */
  lemma BatchRows(ids: seq<string>, fetch: string -> WorkoutDetail, riderName: string, names: map<string, string>)
    ensures Batch(ids, fetch, riderName, names).Ok? <==>
      |ids| > 0 && forall i :: 0 <= i < |ids| ==> NormalizeWorkout(ids[i], fetch(ids[i]), riderName, names).Some?
    ensures Batch(ids, fetch, riderName, names).Ok? ==>
      var rows := Batch(ids, fetch, riderName, names).value;
      |rows| == |ids| &&
      forall i :: 0 <= i < |ids| ==>
        Some(rows[i]) == NormalizeWorkout(ids[i], fetch(ids[i]), riderName, names) &&
        rows[i].workoutId == Some(ids[i]) && rows[i].riderName == riderName
  {
    var r := ExtractAll(ids, fetch);
    if r.Ok? {
      forall i | 0 <= i < |ids| ensures r.value[i].workoutId == ids[i] {
        ExtractKeepsId(ids[i], fetch(ids[i]));
      }
    }
  }

  /** An empty id list is the empty-frame KeyError, not an empty result. */
  lemma EmptyBatchFails(fetch: string -> WorkoutDetail, riderName: string, names: map<string, string>)
    ensures Batch([], fetch, riderName, names) == Err(MissingDateColumn)
  {
  }
}
