/** The DAG task `peloton_to_local`: collect the ids of one rider's
    workouts on the filter date, normalise them, and append them to the
    dated CSV file, or report that there is no data for the date. */
module PelotonToS3 {
  import opened Wrappers
  import opened Text
  import opened Calendar
  import opened Pagination
  import opened Instructors
  import opened Normalize
  import opened CsvSink

  const DataDirectory: string := "/home/x7824/airflow_new/data/"

  /** `f'{year}_{month:02d}_{day:02d}.csv'`. */
  function FileName(d: Date): string
    requires ValidDate(d)
  {
    Decimal(d.year) + "_" + Pad2(d.month) + "_" + Pad2(d.day) + ".csv"
  }

  function OutputPath(d: Date): string
    requires ValidDate(d)
  {
    DataDirectory + FileName(d)
  }

  /** `f"No data for {year}-{month}-{day}"`: nothing padded. */
  function NoDataMessage(d: Date): string
    requires ValidDate(d)
  {
    "No data for " + Decimal(d.year) + "-" + Decimal(d.month) + "-" + Decimal(d.day)
  }

  /** The provider's answers for one rider: `/api/me`, the workout-list
      pages, the instructor roster, and `/api/workout/{id}` for every id. */
  datatype Api = Api(me: Me, pages: Pages, roster: seq<Instructor>, workout: string -> WorkoutDetail)

  /** What one run returns: the path it wrote, or the no-data sentinel. */
  datatype Outcome = Written(path: string, rows: seq<Row>) | NoData(message: string)

  /** The run as a function of the provider's answers and the filter date. */
  function Run(api: Api, filter: Date): Outcome
    requires ValidDate(filter)
  {
    var ids := IdsOnDay(api.pages, DayNumber(filter));
    match Batch(ids, api.workout, api.me.name, Directory(api.roster))
    case Err(_) => NoData(NoDataMessage(filter))
    case Ok(rows) => Written(OutputPath(filter), rows)
  }

  /** The page loop of `peloton_to_local`: request pages 0, 1, 2, ... until one is empty, keeping
      the ids of the items whose UTC start date is `day`. */
  method CollectWorkoutIdsOnDay(pages: Pages, day: int) returns (ids: seq<string>, requested: seq<nat>)
    ensures ids == IdsOnDay(pages, day)
    ensures requested == Requests(FirstEmpty(pages))
  {
    ids, requested := [], [];
    var count := 0;
    while true
      invariant count <= FirstEmpty(pages)
      invariant ids == Ids(OnDay(Flatten(pages[..count]), day))
      invariant |requested| == count && forall i :: 0 <= i < count ==> requested[i] == i
      decreases FirstEmpty(pages) - count
    {
      var data := Page(pages, count);
      requested := requested + [count];
      if data == [] {
        break;
      }
      OnDayStep(pages, count, day);
      ids := ids + Ids(OnDay(data, day));
      count := count + 1;
    }
    FirstEmptyUnique(pages, count);
  }

  /** `peloton_to_local`. The login and the HTTP calls are the `api` input;
      the `KeyError` handler turns every missing key into the sentinel. */
  method PelotonToLocal(api: Api, filter: Date, dir: DataDir) returns (result: string)
    requires ValidDate(filter)
    modifies dir
    ensures match Run(api, filter)
      case Written(path, rows) => result == path && dir.files == WriteFile(old(dir.files), path, rows)
      case NoData(message) => result == message && dir.files == old(dir.files)
  {
    var riderName := api.me.name;
    var ids, requested := CollectWorkoutIdsOnDay(api.pages, DayNumber(filter));
    var names := BuildDirectory(api.roster);
    var raws := ExtractBatch(ids, api.workout);
    if raws.Err? {
      return NoDataMessage(filter);
    }
    var rows := Tabulate(raws.value, riderName, names);
    if rows.Err? {
      return NoDataMessage(filter);
    }
    var path := OutputPath(filter);
    dir.WriteCsv(path, rows.value);
    result := path;
  }

  // ---- properties ----

  /**
   * A run writes exactly when at least one workout falls on the filter date
   * and every such workout's detail record has the keys its branch reads.
   * The rows written are one per kept id, in enumeration order, each the
   * normalisation of that workout, all with the rider's name; lanebreak
   * workouts get class 'lanebreak' and instructor 'no instructor'.
   */
  lemma RunOutcome(api: Api, filter: Date)
    requires ValidDate(filter)
    ensures var ids := IdsOnDay(api.pages, DayNumber(filter));
      Run(api, filter).Written? <==>
        |ids| > 0 && forall i :: 0 <= i < |ids| ==>
          NormalizeWorkout(ids[i], api.workout(ids[i]), api.me.name, Directory(api.roster)).Some?
    ensures var ids := IdsOnDay(api.pages, DayNumber(filter));
      Run(api, filter).Written? ==>
        var rows := Run(api, filter).rows;
        && Run(api, filter).path == OutputPath(filter)
        && |rows| == |ids|
        && forall i :: 0 <= i < |ids| ==>
             && Some(rows[i]) == NormalizeWorkout(ids[i], api.workout(ids[i]), api.me.name, Directory(api.roster))
             && rows[i].workoutId == Some(ids[i])
             && rows[i].riderName == api.me.name
             && (api.workout(ids[i]).ride.value.hasInstructorKey ==>
                   rows[i].classType == Lanebreak && rows[i].instructor == NoInstructor)
    ensures Run(api, filter).NoData? ==> Run(api, filter).message == NoDataMessage(filter)
  {
    var ids := IdsOnDay(api.pages, DayNumber(filter));
    var names := Directory(api.roster);
    BatchRows(ids, api.workout, api.me.name, names);
    if Run(api, filter).Written? {
      forall i | 0 <= i < |ids| && api.workout(ids[i]).ride.value.hasInstructorKey
        ensures Run(api, filter).rows[i].classType == Lanebreak && Run(api, filter).rows[i].instructor == NoInstructor
      {
        LanebreakRow(ids[i], api.workout(ids[i]), api.me.name, api.roster, None, None);
      }
    }
  }

  /** No workout on the filter date is reported as no data, not as an empty file. */
  lemma NoWorkoutsIsNoData(api: Api, filter: Date)
    requires ValidDate(filter) && IdsOnDay(api.pages, DayNumber(filter)) == []
    ensures Run(api, filter) == NoData(NoDataMessage(filter))
  {
  }

  /** The sentinel can never be mistaken for a path. */
  lemma SentinelIsNotAPath(d: Date, e: Date)
    requires ValidDate(d) && ValidDate(e)
    ensures NoDataMessage(d) != OutputPath(e)
  {
    assert NoDataMessage(d)[0] == 'N';
    assert OutputPath(e)[0] == '/';
  }

  lemma SplitConcat(a: string, b: string, c: string, d: string)
    requires a + b == c + d && |a| == |c|
    ensures a == c && b == d
  {
    assert a == (a + b)[..|a|] && c == (c + d)[..|c|];
    assert b == (a + b)[|a|..] && d == (c + d)[|c|..];
  }

  /** The `_MM_DD.csv` part of a file name. */
  function Suffix(d: Date): string
    requires ValidDate(d)
  {
    "_" + Pad2(d.month) + "_" + Pad2(d.day) + ".csv"
  }

  /** Different dates are written to different files. */
  lemma OutputPathInjective(d: Date, e: Date)
    requires ValidDate(d) && ValidDate(e)
    requires OutputPath(d) == OutputPath(e)
    ensures d == e
  {
    var yd, ye := Decimal(d.year), Decimal(e.year);
    assert OutputPath(d) == (DataDirectory + yd) + Suffix(d);
    assert OutputPath(e) == (DataDirectory + ye) + Suffix(e);
    assert |Suffix(d)| == 10 == |Suffix(e)|;
    SplitConcat(DataDirectory + yd, Suffix(d), DataDirectory + ye, Suffix(e));
    SplitConcat(DataDirectory, yd, DataDirectory, ye);
    DecimalInjective(d.year, e.year);
    var sd, se := Suffix(d), Suffix(e);
    assert sd[1..3] == Pad2(d.month) && se[1..3] == Pad2(e.month);
    assert sd[4..6] == Pad2(d.day) && se[4..6] == Pad2(e.day);
    Pad2RoundTrip(d.month);
    Pad2RoundTrip(e.month);
    Pad2RoundTrip(d.day);
    Pad2RoundTrip(e.day);
  }

  /** Below 10, `str(n)` is one digit and `:02d` is that digit after a '0'. */
  lemma PaddingDiffers(n: nat)
    requires n < 10
    ensures |Decimal(n)| == 1 && Pad2(n) == "0" + Decimal(n)
  {
  }

  /** The sentinel writes a month or day below 10 unpadded, with one digit,
      where the file name writes it with two. */
  lemma SentinelUnpadded(d: Date)
    requires ValidDate(d)
    ensures d.month < 10 <==> |Decimal(d.month)| == 1
    ensures d.day < 10 <==> |Decimal(d.day)| == 1
    ensures d.month < 10 ==> Pad2(d.month) == "0" + Decimal(d.month)
    ensures d.day < 10 ==> Pad2(d.day) == "0" + Decimal(d.day)
  {
    if d.month < 10 {
      PaddingDiffers(d.month);
    }
    if d.day < 10 {
      PaddingDiffers(d.day);
    }
  }

  /** 29 May 2023 is written to `2023_05_29.csv`; its sentinel reads `No data for 2023-5-29`. */
  lemma DateFormats()
    ensures FileName(Date(2023, 5, 29)) == "2023_05_29.csv"
    ensures NoDataMessage(Date(2023, 5, 29)) == "No data for 2023-5-29"
  {
    assert Decimal(2023) == "2023" by {
      assert Decimal(2) == "2";
      assert Decimal(20) == "20";
      assert Decimal(202) == "202";
    }
    assert Decimal(29) == "29" by {
      assert Decimal(2) == "2";
    }
  }
}
