/** The instructor directory: an id -> display-name map built from the
    roster of `/api/instructor?limit=100`, then patched with two fixed
    entries. */
module Instructors {

  /** One roster entry. */
  datatype Instructor = Instructor(id: string, name: string)

  /** The key (and display name) used when a workout has no instructor. */
  const NoInstructor: string := "no instructor"

  /** The one id the provider's roster lacks a usable name for. */
  const PatchedId: string := "5a19bfe66e644a2fa3e6387a91ebc5ce"
  const PatchedName: string := "Christine Dercole"

  /** `{x['id']: x['name'] for x in roster}`: a later duplicate id overwrites an earlier one. */
  function RosterMap(roster: seq<Instructor>): map<string, string> {
    if roster == [] then map[]
    else
      var last := roster[|roster| - 1];
      RosterMap(roster[..|roster| - 1])[last.id := last.name]
  }

  /** The finished directory. */
  function Directory(roster: seq<Instructor>): (names: map<string, string>)
    ensures NoInstructor in names && names[NoInstructor] == NoInstructor
    ensures PatchedId in names && names[PatchedId] == PatchedName
  {
    RosterMap(roster)[NoInstructor := NoInstructor][PatchedId := PatchedName]
  }

  /** `names.map(...)` followed by `fillna('no instructor')`. */
  function Resolve(names: map<string, string>, key: string): string {
    if key in names then names[key] else NoInstructor
  }

  /** Entry i is the last roster entry with id k. */
  ghost predicate LastWithId(roster: seq<Instructor>, k: string, i: int) {
    0 <= i < |roster| && roster[i].id == k && forall j :: i < j < |roster| ==> roster[j].id != k
  }

  ghost function RosterIds(roster: seq<Instructor>): set<string> {
    set i | 0 <= i < |roster| :: roster[i].id
  }

  /** The roster map holds exactly the roster's ids, each with the name of its last entry. */
  lemma {:induction false} RosterMapSpec(roster: seq<Instructor>, k: string)
    ensures k in RosterMap(roster) <==> k in RosterIds(roster)
    ensures k in RosterMap(roster) ==> exists i :: LastWithId(roster, k, i) && RosterMap(roster)[k] == roster[i].name
  {
    if roster != [] {
      var n := |roster| - 1;
      var init := roster[..n];
      RosterMapSpec(init, k);
      assert RosterIds(roster) == RosterIds(init) + {roster[n].id} by {
        forall x | x in RosterIds(roster) ensures x in RosterIds(init) + {roster[n].id} {
          var i :| 0 <= i < |roster| && roster[i].id == x;
          if i < n { assert init[i] == roster[i]; }
        }
        forall x | x in RosterIds(init) ensures x in RosterIds(roster) {
          var i :| 0 <= i < |init| && init[i].id == x;
          assert roster[i] == init[i];
        }
      }
      if k == roster[n].id {
        assert LastWithId(roster, k, n);
      } else if k in RosterMap(init) {
        var i :| LastWithId(init, k, i) && RosterMap(init)[k] == init[i].name;
        assert LastWithId(roster, k, i);
      }
    }
  }

  /**
   * The directory's entries apart from the two fixed ones come from the
   * roster, the last entry for an id winning; ids outside the roster are
   * absent and so resolve to 'no instructor'.
   */
  lemma DirectoryFromRoster(roster: seq<Instructor>, k: string)
    requires k != NoInstructor && k != PatchedId
    ensures k in Directory(roster) <==> k in RosterIds(roster)
    ensures k in Directory(roster) ==> exists i :: LastWithId(roster, k, i) && Directory(roster)[k] == roster[i].name
    ensures k !in RosterIds(roster) ==> Resolve(Directory(roster), k) == NoInstructor
  {
    RosterMapSpec(roster, k);
  }

  /** The directory holds the roster's ids and the two fixed ones, and nothing else. */
  lemma DirectoryKeys(roster: seq<Instructor>)
    ensures Directory(roster).Keys == RosterIds(roster) + {NoInstructor, PatchedId}
  {
    forall k ensures k in Directory(roster) <==> k in RosterIds(roster) + {NoInstructor, PatchedId} {
      RosterMapSpec(roster, k);
    }
  }

  /** Two maps that agree at every key other than `k`. */
  ghost predicate AgreeExcept(a: map<string, string>, b: map<string, string>, k: string) {
    forall x :: x != k ==> (x in a <==> x in b) && (x in a ==> a[x] == b[x])
  }

  /** A roster entry, wherever it stands, affects the roster map at its own id only. */
  lemma {:induction false} RosterMapEntry(before: seq<Instructor>, e: Instructor, after: seq<Instructor>)
    ensures AgreeExcept(RosterMap(before + [e] + after), RosterMap(before + after), e.id)
    decreases |after|
  {
    if after == [] {
      assert (before + [e])[..|before|] == before;
      assert before + [e] + after == before + [e];
      assert before + after == before;
    } else {
      var n := |after| - 1;
      var x := after[n];
      var with, without := before + [e] + after, before + after;
      assert with[..|with| - 1] == before + [e] + after[..n];
      assert without[..|without| - 1] == before + after[..n];
      assert with[|with| - 1] == x && without[|without| - 1] == x;
      RosterMapEntry(before, e, after[..n]);
    }
  }

  /** The fixed entries win over whatever the roster says for those ids,
      wherever in the roster such an entry stands. */
  lemma OverridesWin(before: seq<Instructor>, e: Instructor, after: seq<Instructor>)
    requires e.id == PatchedId || e.id == NoInstructor
    ensures Directory(before + [e] + after) == Directory(before + after)
  {
    RosterMapEntry(before, e, after);
    var a, b := RosterMap(before + [e] + after), RosterMap(before + after);
    var da := a[NoInstructor := NoInstructor][PatchedId := PatchedName];
    var db := b[NoInstructor := NoInstructor][PatchedId := PatchedName];
    assert da.Keys == db.Keys;
    assert forall x :: x in da ==> da[x] == db[x];
  }

  /** The directory as `get_user_workout_details` and `peloton_to_local`
      build it: the map entry by entry, then the two fixed entries. */
  method BuildDirectory(roster: seq<Instructor>) returns (names: map<string, string>)
    ensures names == Directory(roster)
    ensures names[NoInstructor] == NoInstructor && names[PatchedId] == PatchedName
  {
    names := map[];
    for i := 0 to |roster|
      invariant names == RosterMap(roster[..i])
    {
      assert roster[..i + 1][..i] == roster[..i];
      names := names[roster[i].id := roster[i].name];
    }
    assert roster[..|roster|] == roster;
    names := names[NoInstructor := NoInstructor];
    names := names[PatchedId := PatchedName];
  }
}
