/** Validation of the volume mounts of a sandbox request. */
module VolumeMounts {
  import opened Wrappers
  import opened MountPaths

  datatype Volume = Volume(id: string, volumeType: string, name: string)
  datatype Mount = Mount(name: string, path: string)
  datatype VolumeMount = VolumeMount(id: string, path: string, volumeType: string, name: string)

  datatype Reason = VolumeNotFound(name: string) | InvalidPath(fault: PathFault) | PathInUse(path: string)
  datatype InvalidMount = InvalidMount(index: nat, reason: Reason)

  datatype ConvertError = VolumeMountsDisabled | DatabaseFailure | InvalidVolumeMounts(mounts: seq<InvalidMount>)

  /** Known name and valid path: such a mount takes its path. */
  predicate Takes(m: Mount, volumes: map<string, Volume>) {
    m.name in volumes && IsValidMountPath(m.path)
  }

  predicate TakenBefore(mounts: seq<Mount>, i: nat, volumes: map<string, Volume>)
    requires i < |mounts|
  {
    exists j :: 0 <= j < i && Takes(mounts[j], volumes) && mounts[j].path == mounts[i].path
  }

  /** Why a mount is refused: unknown name first, then its path, then an earlier mount at the same path. */
  function Refusal(mounts: seq<Mount>, i: nat, volumes: map<string, Volume>): Option<Reason>
    requires i < |mounts|
  {
    var m := mounts[i];
    if m.name !in volumes then Some(VolumeNotFound(m.name))
    else if !IsValidMountPath(m.path) then Some(InvalidPath(MountPathFault(m.path).value))
    else if TakenBefore(mounts, i, volumes) then Some(PathInUse(m.path))
    else None
  }

  /** The refusals of the first n mounts, by increasing index: exactly those, with their reasons. */
  ghost predicate Reports(invalid: seq<InvalidMount>, mounts: seq<Mount>, n: nat, volumes: map<string, Volume>)
    requires n <= |mounts|
  {
    && (forall k :: 0 <= k < |invalid| ==> invalid[k].index < n && Refusal(mounts, invalid[k].index, volumes) == Some(invalid[k].reason))
    && (forall k, l :: 0 <= k < l < |invalid| ==> invalid[k].index < invalid[l].index)
    && (forall i :: 0 <= i < n && Refusal(mounts, i, volumes).Some? ==> InvalidMount(i, Refusal(mounts, i, volumes).value) in invalid)
  }

  /** The volume rows by name; names are unique within a team. */
  method VolumesByName(rows: seq<Volume>) returns (volumes: map<string, Volume>)
    ensures IsIndex(volumes, rows)
  {
    volumes := map[];
    for i := 0 to |rows|
      invariant IsIndex(volumes, rows[..i])
    {
      assert rows[..i + 1] == rows[..i] + [rows[i]];
      volumes := volumes[rows[i].name := rows[i]];
    }
    assert rows[..|rows|] == rows;
  }

  function Reported(i: nat, refusal: Option<Reason>): seq<InvalidMount> {
    if refusal.Some? then [InvalidMount(i, refusal.value)] else []
  }

  lemma ReportsNext(invalid: seq<InvalidMount>, mounts: seq<Mount>, i: nat, volumes: map<string, Volume>)
    requires i < |mounts| && Reports(invalid, mounts, i, volumes)
    ensures Reports(invalid + Reported(i, Refusal(mounts, i, volumes)), mounts, i + 1, volumes)
  {
    var all := invalid + Reported(i, Refusal(mounts, i, volumes));
    forall j | 0 <= j < i + 1 && Refusal(mounts, j, volumes).Some?
      ensures InvalidMount(j, Refusal(mounts, j, volumes).value) in all
    {
      if j == i { assert all[|invalid|] == InvalidMount(j, Refusal(mounts, j, volumes).value); }
    }
  }

  /** The paths the first n mounts take. */
  ghost function Taken(mounts: seq<Mount>, n: nat, volumes: map<string, Volume>): set<string>
    requires n <= |mounts|
  {
    set j | 0 <= j < n && Takes(mounts[j], volumes) :: mounts[j].path
  }

  /** The tests the loop makes, against the paths it has recorded so far. */
  function Check(m: Mount, volumes: map<string, Volume>, usedPaths: set<string>): Option<Reason> {
    if m.name !in volumes then Some(VolumeNotFound(m.name))
    else
      var fault := MountPathFault(m.path);
      if fault.Some? then Some(InvalidPath(fault.value))
      else if m.path in usedPaths then Some(PathInUse(m.path))
      else None
  }

  lemma TakenNext(mounts: seq<Mount>, i: nat, volumes: map<string, Volume>)
    requires i < |mounts|
    ensures Taken(mounts, i + 1, volumes) == Taken(mounts, i, volumes) + if Takes(mounts[i], volumes) then {mounts[i].path} else {}
  {
  }

  lemma TakenIsTakenBefore(mounts: seq<Mount>, i: nat, volumes: map<string, Volume>)
    requires i < |mounts|
    ensures mounts[i].path in Taken(mounts, i, volumes) <==> TakenBefore(mounts, i, volumes)
  {
  }

  lemma CheckIsRefusal(mounts: seq<Mount>, i: nat, volumes: map<string, Volume>)
    requires i < |mounts|
    ensures Check(mounts[i], volumes, Taken(mounts, i, volumes)) == Refusal(mounts, i, volumes)
    ensures Taken(mounts, i + 1, volumes) ==
              if Refusal(mounts, i, volumes).None? then Taken(mounts, i, volumes) + {mounts[i].path} else Taken(mounts, i, volumes)
    ensures Refusal(mounts, i, volumes).None? ==> mounts[i].name in volumes
  {
    TakenNext(mounts, i, volumes);
    TakenIsTakenBefore(mounts, i, volumes);
  }

  ghost predicate AllConverted(results: seq<VolumeMount>, mounts: seq<Mount>, n: nat, volumes: map<string, Volume>)
    requires n <= |mounts|
  {
    |results| == n && forall j :: 0 <= j < n ==>
      mounts[j].name in volumes && results[j] == Converted(mounts[j], volumes[mounts[j].name])
  }

  /** What holds when the first n mounts have been looked at. */
  ghost predicate LookedAt(mounts: seq<Mount>, n: nat, volumes: map<string, Volume>, usedPaths: set<string>, results: seq<VolumeMount>, invalid: seq<InvalidMount>) {
    && n <= |mounts|
    && usedPaths == Taken(mounts, n, volumes)
    && Reports(invalid, mounts, n, volumes)
    && (invalid == [] ==> AllConverted(results, mounts, n, volumes))
  }

  lemma LookedAtRefused(mounts: seq<Mount>, i: nat, volumes: map<string, Volume>, usedPaths: set<string>, results: seq<VolumeMount>, invalid: seq<InvalidMount>)
    requires i < |mounts| && LookedAt(mounts, i, volumes, usedPaths, results, invalid)
    requires Check(mounts[i], volumes, usedPaths).Some?
    ensures LookedAt(mounts, i + 1, volumes, usedPaths, results,
                     invalid + [InvalidMount(i, Check(mounts[i], volumes, usedPaths).value)])
  {
    ReportsNext(invalid, mounts, i, volumes);
    CheckIsRefusal(mounts, i, volumes);
  }

  lemma LookedAtAccepted(mounts: seq<Mount>, i: nat, volumes: map<string, Volume>, usedPaths: set<string>, results: seq<VolumeMount>, invalid: seq<InvalidMount>)
    requires i < |mounts| && LookedAt(mounts, i, volumes, usedPaths, results, invalid)
    requires Check(mounts[i], volumes, usedPaths).None?
    ensures mounts[i].name in volumes
    ensures LookedAt(mounts, i + 1, volumes, usedPaths + {mounts[i].path},
                     results + [Converted(mounts[i], volumes[mounts[i].name])], invalid)
  {
    ReportsNext(invalid, mounts, i, volumes);
    CheckIsRefusal(mounts, i, volumes);
    assert invalid + Reported(i, None) == invalid;
    if invalid == [] { AllConvertedNext(results, mounts, i, volumes); }
  }

  lemma AllConvertedNext(results: seq<VolumeMount>, mounts: seq<Mount>, i: nat, volumes: map<string, Volume>)
    requires i < |mounts| && mounts[i].name in volumes && AllConverted(results, mounts, i, volumes)
    ensures AllConverted(results + [Converted(mounts[i], volumes[mounts[i].name])], mounts, i + 1, volumes)
  {
  }

  /** The loop over the mounts of a request. */
  method CheckMounts(mounts: seq<Mount>, volumes: map<string, Volume>) returns (results: seq<VolumeMount>, invalid: seq<InvalidMount>)
    ensures Reports(invalid, mounts, |mounts|, volumes)
    ensures invalid == [] ==> AllConverted(results, mounts, |mounts|, volumes)
  {
    var usedPaths: set<string> := {};
    results, invalid := [], [];
    for i := 0 to |mounts|
      invariant LookedAt(mounts, i, volumes, usedPaths, results, invalid)
    {
      var refusal := Check(mounts[i], volumes, usedPaths);
      if refusal.Some? {
        LookedAtRefused(mounts, i, volumes, usedPaths, results, invalid);
        invalid := invalid + [InvalidMount(i, refusal.value)];
        continue;
      }
      LookedAtAccepted(mounts, i, volumes, usedPaths, results, invalid);
      usedPaths := usedPaths + {mounts[i].path};
      results := results + [Converted(mounts[i], volumes[mounts[i].name])];
    }
  }

  function Converted(m: Mount, v: Volume): VolumeMount {
    VolumeMount(v.id, m.path, v.volumeType, v.name)
  }

  /** `rows` is the answer of the volume query. */
  method ConvertVolumeMounts(enabled: bool, rows: Result<seq<Volume>, ()>, mounts: seq<Mount>) returns (r: Result<seq<VolumeMount>, ConvertError>)
    ensures mounts == [] ==> r == Ok([])
    ensures mounts != [] && !enabled ==> r == Err(VolumeMountsDisabled)
    ensures mounts != [] && enabled && rows.Err? ==> r == Err(DatabaseFailure)
    ensures mounts != [] && enabled && rows.Ok? ==>
              (r.Ok? <==> AllAccepted(mounts, rows.value)) && (r.Err? ==> r.error.InvalidVolumeMounts? && r.error.mounts != [])
    ensures r.Ok? ==> |r.value| == |mounts|
    ensures r.Ok? && rows.Ok? ==> forall i :: 0 <= i < |mounts| ==> IsMountOf(r.value[i], mounts[i], rows.value)
    ensures r.Err? && r.error.InvalidVolumeMounts? ==> rows.Ok? && exists volumes ::
              IsIndex(volumes, rows.value) && Reports(r.error.mounts, mounts, |mounts|, volumes)
  {
    if mounts == [] { return Ok([]); }
    if !enabled { return Err(VolumeMountsDisabled); }
    if rows.Err? { return Err(DatabaseFailure); }
    var volumes := VolumesByName(rows.value);
    var results, invalid := CheckMounts(mounts, volumes);
    NoRefusals(mounts, rows.value, volumes);
    if invalid != [] {
      assert Refusal(mounts, invalid[0].index, volumes).Some?;
      return Err(InvalidVolumeMounts(invalid));
    }
    return Ok(results);
  }

  ghost predicate IsIndex(volumes: map<string, Volume>, rows: seq<Volume>) {
    && (forall name :: name in volumes ==> volumes[name] in rows && volumes[name].name == name)
    && (forall v :: v in rows ==> v.name in volumes)
  }

  ghost predicate Known(name: string, rows: seq<Volume>) {
    exists v :: v in rows && v.name == name
  }

  ghost predicate IsMountOf(r: VolumeMount, m: Mount, rows: seq<Volume>) {
    exists v :: v in rows && v.name == m.name && r == VolumeMount(v.id, m.path, v.volumeType, m.name)
  }

  /** Every name is known, every path is a normal form, and no two mounts lead to one location. */
  ghost predicate AllAccepted(mounts: seq<Mount>, rows: seq<Volume>) {
    && (forall i :: 0 <= i < |mounts| ==> Known(mounts[i].name, rows) && IsValidMountPath(mounts[i].path))
    && (forall i, j :: 0 <= i < j < |mounts| ==> Location(mounts[i].path) != Location(mounts[j].path))
  }

  /** Comparing raw texts is enough: nothing is refused exactly if all locations differ. */
  lemma NoRefusals(mounts: seq<Mount>, rows: seq<Volume>, volumes: map<string, Volume>)
    requires IsIndex(volumes, rows)
    ensures (forall i :: 0 <= i < |mounts| ==> Refusal(mounts, i, volumes).None?) <==> AllAccepted(mounts, rows)
  {
    assert forall name :: name in volumes <==> Known(name, rows);
    forall i, j | 0 <= i < j < |mounts| && IsValidMountPath(mounts[i].path) && IsValidMountPath(mounts[j].path)
      ensures mounts[i].path == mounts[j].path <==> Location(mounts[i].path) == Location(mounts[j].path)
    {
      AcceptedTextIsLocation(mounts[i].path, mounts[j].path);
    }
    if AllAccepted(mounts, rows) {
      forall i | 0 <= i < |mounts| ensures Refusal(mounts, i, volumes).None? {
        assert Known(mounts[i].name, rows) && IsValidMountPath(mounts[i].path);
        assert !TakenBefore(mounts, i, volumes);
      }
    }
    if forall i :: 0 <= i < |mounts| ==> Refusal(mounts, i, volumes).None? {
      forall i | 0 <= i < |mounts| ensures Takes(mounts[i], volumes) && !TakenBefore(mounts, i, volumes) {
        assert Refusal(mounts, i, volumes).None?;
      }
      assert forall i, j :: 0 <= i < j < |mounts| ==> mounts[i].path != mounts[j].path;
    }
  }

  /**
   The reason a mount is reported with, in terms of the request: an unknown name before
   anything else, then the path's own fault, then an earlier mount of a known volume at the
   same location, the first of which is not reported.
   */
  lemma RefusalReasons(mounts: seq<Mount>, i: nat, rows: seq<Volume>, volumes: map<string, Volume>)
    requires i < |mounts| && IsIndex(volumes, rows)
    ensures var known := exists v :: v in rows && v.name == mounts[i].name;
            match Refusal(mounts, i, volumes)
            case Some(VolumeNotFound(name)) => !known && name == mounts[i].name
            case Some(InvalidPath(fault)) => known && MountPathFault(mounts[i].path) == Some(fault)
            case Some(PathInUse(path)) =>
              && known && path == mounts[i].path && MountPathFault(path) == None
              && exists j :: 0 <= j < i && Known(mounts[j].name, rows) && MountPathFault(mounts[j].path) == None
                             && Location(mounts[j].path) == Location(path)
            case None =>
              && known && MountPathFault(mounts[i].path) == None
              && forall j :: 0 <= j < i && Known(mounts[j].name, rows) && MountPathFault(mounts[j].path) == None ==>
                   Location(mounts[j].path) != Location(mounts[i].path)
  {
    assert forall name :: name in volumes <==> Known(name, rows);
    forall j | 0 <= j < i && IsValidMountPath(mounts[j].path) && IsValidMountPath(mounts[i].path)
      ensures mounts[j].path == mounts[i].path <==> Location(mounts[j].path) == Location(mounts[i].path)
    {
      AcceptedTextIsLocation(mounts[j].path, mounts[i].path);
    }
    assert Known(mounts[i].name, rows) <==> exists v :: v in rows && v.name == mounts[i].name;
    if TakenBefore(mounts, i, volumes) {
      var j :| 0 <= j < i && Takes(mounts[j], volumes) && mounts[j].path == mounts[i].path;
      assert Known(mounts[j].name, rows);
    }
  }
}
