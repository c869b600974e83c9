/** The historical loader: every workout id of a rider, every detail
    record normalised, and the relational write. */
module HistoricalWorkouts {
  import opened Wrappers
  import opened Pagination
  import opened Instructors
  import opened Normalize
  import opened Relational

  /** `get_user_workout_ids`: request pages 0, 1, 2, ... until one is empty
      and collect every id; also return the rider's name from `/api/me`. */
  method GetUserWorkoutIds(me: Me, pages: Pages) returns (riderName: string, ids: seq<string>, requested: seq<nat>)
    ensures riderName == me.name
    ensures ids == AllIds(pages)
    ensures requested == Requests(FirstEmpty(pages))
  {
    riderName := me.name;
    ids, requested := [], [];
    var count := 0;
    while true
      invariant count <= FirstEmpty(pages)
      invariant ids == Ids(Flatten(pages[..count]))
      invariant |requested| == count && forall i :: 0 <= i < count ==> requested[i] == i
      decreases FirstEmpty(pages) - count
    {
      var data := Page(pages, count);
      requested := requested + [count];
      if data == [] {
        break;
      }
      IdsStep(pages, count);
      ids := ids + Ids(data);
      count := count + 1;
    }
    FirstEmptyUnique(pages, count);
  }

  /** `collection_df.drop('workout_id', axis=1)`. */
  function DropWorkoutId(rows: seq<Row>): (r: seq<Row>)
    ensures |r| == |rows| && forall i :: 0 <= i < |rows| ==> r[i] == rows[i].(workoutId := None)
  {
    seq(|rows|, i requires 0 <= i < |rows| => rows[i].(workoutId := None))
  }

  /** What `get_user_workout_details` returns, or the KeyError it raises. */
  function Details(roster: seq<Instructor>, fetch: string -> WorkoutDetail, riderName: string,
                   ids: seq<string>, returnWorkoutId: bool): Result<seq<Row>, KeyError> {
    match Batch(ids, fetch, riderName, Directory(roster))
    case Err(e) => Err(e)
    case Ok(rows) => Ok(if returnWorkoutId then rows else DropWorkoutId(rows))
  }

  /** `get_user_workout_details`: the directory, the detail loop, the column
      conversions, and the optional drop of the workout_id column. */
  method GetUserWorkoutDetails(roster: seq<Instructor>, fetch: string -> WorkoutDetail, riderName: string,
                               ids: seq<string>, returnWorkoutId: bool) returns (r: Result<seq<Row>, KeyError>)
    ensures r == Details(roster, fetch, riderName, ids, returnWorkoutId)
    ensures r.Ok? ==> |r.value| == |ids|
  {
    var names := BuildDirectory(roster);
    var raws := ExtractBatch(ids, fetch);
    if raws.Err? {
      return Err(raws.error);
    }
    var rows := Tabulate(raws.value, riderName, names);
    if rows.Err? {
      return Err(rows.error);
    }
    if !returnWorkoutId {
      r := Ok(DropWorkoutId(rows.value));
    } else {
      r := rows;
    }
  }

  // ---- properties ----

  /**
   * The details are all-or-nothing and one row per id, in id order, all
   * with the given rider name; the workout_id column is there exactly when
   * it was asked for; every other column is the normalisation of the id's
   * detail record.
   */
  lemma DetailsRows(roster: seq<Instructor>, fetch: string -> WorkoutDetail, riderName: string,
                    ids: seq<string>, returnWorkoutId: bool)
    ensures Details(roster, fetch, riderName, ids, returnWorkoutId).Ok? <==>
      |ids| > 0 && forall i :: 0 <= i < |ids| ==> NormalizeWorkout(ids[i], fetch(ids[i]), riderName, Directory(roster)).Some?
    ensures Details(roster, fetch, riderName, ids, returnWorkoutId).Ok? ==>
      var rows := Details(roster, fetch, riderName, ids, returnWorkoutId).value;
      && |rows| == |ids|
      && forall i :: 0 <= i < |ids| ==>
           && rows[i].riderName == riderName
           && rows[i].workoutId == (if returnWorkoutId then Some(ids[i]) else None)
           && rows[i].(workoutId := Some(ids[i])) ==
                NormalizeWorkout(ids[i], fetch(ids[i]), riderName, Directory(roster)).value
  {
    BatchRows(ids, fetch, riderName, Directory(roster));
  }

  /** With the workout_id column dropped, writing the details to the table commits nothing. */
  lemma DroppedColumnWritesNothing(roster: seq<Instructor>, fetch: string -> WorkoutDetail, riderName: string,
                                   ids: seq<string>, tableExists: bool, t: Table, accepts: Row -> bool)
    requires Details(roster, fetch, riderName, ids, false).Ok?
    ensures var rows := Details(roster, fetch, riderName, ids, false).value;
      Committed(Upsert(tableExists, t, rows, accepts), t) == t
  {
    DetailsRows(roster, fetch, riderName, ids, false);
    var rows := Details(roster, fetch, riderName, ids, false).value;
    DroppedIdsCommitNothing(tableExists, t, rows, accepts);
  }

  /** Loading the same rider's history twice (with workout ids) leaves the table the first load left. */
  lemma ReloadIsNoOp(roster: seq<Instructor>, fetch: string -> WorkoutDetail, riderName: string,
                     ids: seq<string>, t: Table, accepts: Row -> bool)
    requires Details(roster, fetch, riderName, ids, true).Ok?
    ensures var rows := Details(roster, fetch, riderName, ids, true).value;
      var once := Committed(Upsert(true, t, rows, accepts), t);
      Committed(Upsert(true, once, rows, accepts), once) == once
  {
    var rows := Details(roster, fetch, riderName, ids, true).value;
    if InsertAll(t, rows, accepts).Some? {
      InsertAllIdempotent(t, rows, accepts);
    }
  }
}
