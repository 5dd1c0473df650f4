/** Bootstrap's staged commit of credentials and configuration.

Artifacts are written to a staging directory, the directory is renamed to a generation
name, and a marker file naming that generation is replaced by a rename. Every file
operation may fail, and the process may die during or after any of them (`Crash`): then
nothing more of that bootstrap runs, and a later bootstrap finds the disk as it is.
Renames are atomic; writing a file and removing a directory are not. */
module StateSwap {

  datatype File = CertPem | KeyPem | ServicePrincipal | StorageQueues | WebUiEnvironment

  /** Contents of a file: which bootstrap wrote it, and whether all of it. */
  datatype Blob = Whole(owner: nat) | Torn(owner: nat)

  type Dir = map<File, Blob>

  const STAGING := ".staging"
  const GENERATION_PREFIX := ".state-"

  /** The full artifact set of one bootstrap. */
  predicate Full(d: Dir, owner: nat) {
    d == map[CertPem := Whole(owner), KeyPem := Whole(owner), ServicePrincipal := Whole(owner),
             StorageQueues := Whole(owner), WebUiEnvironment := Whole(owner)]
  }

  datatype Marker = Absent | Garbled | Names(name: string)

  datatype Op = Fine | Error | Crash

  /** How a bootstrap ends. `Aborted` and `Unannounced` return an error, the latter after the commit. */
  datatype End = Skipped | Committed | Unannounced | Aborted | Crashed

  datatype Resolved = Base | Generation(dir: Dir) | Unusable

  class StateDir {
    var dirs: map<string, Dir>
    var marker: Marker
    var markerTmp: Marker

    /** The bootstrap running or run last, as its artifacts identify it. */
    var current: nat
    /** Bootstrap `i` has replaced the marker if `history[i]`. */
    ghost var history: seq<bool>
    /** How many file operations have failed. */
    ghost var faults: nat

    /** The marker, once there, names a directory with the full artifact set of exactly one bootstrap,
        one that replaced the marker itself. */
    ghost predicate Valid()
      reads this
    {
      && |history| == current + 1
      && !marker.Garbled?
      && (marker.Names? ==>
            && marker.name in dirs
            && marker.name != STAGING
            && exists owner :: 0 <= owner < |history| && Full(dirs[marker.name], owner) && history[owner])
    }

    /** No directory but `name`, and neither marker file, was touched. */
    twostate predicate OnlyDir(name: string)
      reads this
    {
      && marker == old(marker) && markerTmp == old(markerTmp) && history == old(history) && current == old(current)
      && forall n :: n != name ==> (n in dirs <==> n in old(dirs)) && (n in dirs ==> dirs[n] == old(dirs)[n])
    }

    /** Not the directory in use. */
    predicate Idle(name: string)
      reads this
    {
      marker.Names? ==> marker.name != name
    }

    /** A rename to this name is not refused. */
    predicate Free(name: string)
      reads this
    {
      name !in dirs || dirs[name] == map[]
    }

    constructor ()
      ensures Valid() && marker.Absent? && history == [false]
    {
      dirs, marker, markerTmp, history, current, faults := map[], Absent, Absent, [false], 0, 0;
    }

    // ---- file operations ----

    method Fate() returns (r: Op)
      modifies this`faults
      ensures faults >= old(faults) && (r.Fine? <==> faults == old(faults))
    {
      var a, b: bool := *, *;
      r := if a then Fine else if b then Error else Crash;
      if !r.Fine? { faults := faults + 1; }
    }

    method CreateDir(name: string) returns (r: Op)
      requires Valid() && name !in dirs
      modifies this`dirs, this`faults
      ensures Valid() && OnlyDir(name)
      ensures r.Fine? ==> name in dirs && dirs[name] == map[]
      ensures faults >= old(faults) && (r.Fine? <==> faults == old(faults))
    {
      r := Fate();
      var made: bool := *;
      if r.Fine? || made { dirs := dirs[name := map[]]; }
    }

    method RemoveDirAll(name: string) returns (r: Op)
      requires Valid() && Idle(name)
      modifies this`dirs, this`faults
      ensures Valid() && OnlyDir(name)
      ensures r.Fine? ==> name !in dirs
      ensures faults >= old(faults) && (r.Fine? <==> faults == old(faults))
    {
      r := Fate();
      var gone: bool, left: set<File> := *, *;
      if r.Fine? || gone {
        dirs := map n | n in dirs && n != name :: dirs[n];
      } else if name in dirs {
        dirs := dirs[name := map f | f in dirs[name] && f in left :: dirs[name][f]];
      }
    }

    method WriteFile(name: string, file: File) returns (r: Op)
      requires Valid() && Idle(name) && name in dirs
      modifies this`dirs, this`faults
      ensures Valid() && OnlyDir(name) && name in dirs
      ensures r.Fine? ==> dirs[name] == old(dirs)[name][file := Whole(current)]
      ensures faults >= old(faults) && (r.Fine? <==> faults == old(faults))
    {
      r := Fate();
      var torn: bool, owner := *, current;
      if r.Fine? {
        dirs := dirs[name := dirs[name][file := Whole(owner)]];
      } else if torn {
        dirs := dirs[name := dirs[name][file := Torn(owner)]];
      }
    }

    /** `rename` of a directory: refused if the target holds anything. */
    method RenameDir(from: string, to: string) returns (r: Op)
      requires Valid() && Idle(from) && from in dirs && from != to && to != STAGING
      modifies this`dirs, this`faults
      ensures Valid()
      ensures marker == old(marker) && (old(Idle(to)) || !r.Fine?)
      ensures r.Error? ==> dirs == old(dirs)
      ensures r.Fine? ==> Idle(to) && dirs == (map n | n in old(dirs) && n != from :: old(dirs)[n])[to := old(dirs)[from]]
      ensures marker.Names? ==> dirs[marker.name] == old(dirs)[marker.name]
      ensures faults >= old(faults) && (r.Fine? ==> faults == old(faults))
      ensures faults == old(faults) && old(Free(to)) ==> r.Fine?
    {
      r := Fate();
      assert marker.Names? ==> CertPem in dirs[marker.name];
      if !Free(to) { return if r.Crash? then Crash else Error; }
      var done: bool := *;
      if r.Fine? || (r.Crash? && done) {
        dirs := (map n | n in dirs && n != from :: dirs[n])[to := dirs[from]];
      }
    }

    method WriteMarkerTmp(name: string) returns (r: Op)
      requires Valid()
      modifies this`markerTmp, this`faults
      ensures Valid()
      ensures r.Fine? ==> markerTmp == Names(name)
      ensures faults >= old(faults) && (r.Fine? <==> faults == old(faults))
    {
      r := Fate();
      markerTmp := if r.Fine? then Names(name) else Garbled;
    }

    /** `rename` of the marker: the moment a bootstrap takes effect. */
    method ReplaceMarker() returns (r: Op)
      requires Valid() && markerTmp.Names? && markerTmp.name != STAGING
      requires markerTmp.name in dirs && Full(dirs[markerTmp.name], current)
      modifies this`marker, this`markerTmp, this`history, this`faults
      ensures Valid() && current == old(current) && |history| == |old(history)|
      ensures r.Fine? ==> marker == old(markerTmp)
      ensures r.Error? ==> marker == old(marker) && history == old(history)
      ensures (marker == old(marker) && history == old(history))
              || (marker == old(markerTmp) && history == old(history)[current := true])
      ensures faults >= old(faults) && (r.Fine? <==> faults == old(faults))
    {
      r := Fate();
      var done: bool := *;
      if r.Fine? || (r.Crash? && done) {
        marker, markerTmp := markerTmp, Absent;
        history := history[current := true];
        assert Full(dirs[marker.name], current) && history[current];
      }
    }

    // ---- the program ----

    /** `active_state_generation_name` and `resolve_effective_state_dir`. */
    method ResolveEffectiveStateDir() returns (r: Resolved)
      requires Valid()
      ensures marker.Absent? ==> r == Base
      ensures marker.Names? ==> r.Generation? && r.dir == dirs[marker.name]
                                && exists owner :: 0 <= owner < |history| && Full(r.dir, owner) && history[owner]
    {
      if marker.Absent? { return Base; }
      if marker.Garbled? || marker.name !in dirs { return Unusable; }
      r := Generation(dirs[marker.name]);
    }

    /** What a bootstrap may have done to the state in use, however it ended. */
    twostate predicate Progress()
      reads this
      requires old(Valid()) && Valid()
    {
      && current == old(current) && |history| == |old(history)|
      && (forall i :: 0 <= i < |history| && i != current ==> history[i] == old(history)[i])
      && ( || (marker == old(marker) && history == old(history)
               && (marker.Names? ==> dirs[marker.name] == old(dirs)[marker.name]))
           || (marker.Names? && Full(dirs[marker.name], current) && history[current]))
    }

    /** Staging has become generation `name`, the generation in use before is gone, nothing else changed. */
    twostate predicate Replaced(name: string)
      reads this
    {
      && name in dirs && STAGING !in dirs
      && (old(marker).Names? && GENERATION_PREFIX <= old(marker).name && old(marker).name != name ==> old(marker).name !in dirs)
      && forall n :: n != name && n != STAGING && old(marker) != Names(n) ==>
           (n in dirs <==> n in old(dirs)) && (n in dirs ==> dirs[n] == old(dirs)[n])
    }

    /** The marker is written beside and renamed into place. */
    method UpdateMarker(name: string) returns (r: Op)
      requires Valid() && name != STAGING && name in dirs && Full(dirs[name], current)
      modifies this`marker, this`markerTmp, this`history, this`faults
      ensures Valid() && current == old(current) && |history| == |old(history)|
      ensures r.Fine? ==> marker == Names(name)
      ensures r.Error? ==> marker == old(marker) && history == old(history)
      ensures (marker == old(marker) && history == old(history))
              || (marker == Names(name) && history == old(history)[current := true])
      ensures faults >= old(faults) && (r.Fine? <==> faults == old(faults))
    {
      r := WriteMarkerTmp(name);
      if r.Fine? { r := ReplaceMarker(); }
    }

    /** `commit_staging`, with the generation name taken from the clock. */
    method CommitStaging(name: string) returns (r: End)
      requires Valid() && Idle(STAGING) && STAGING in dirs && Full(dirs[STAGING], current)
      requires GENERATION_PREFIX <= name
      modifies this
      ensures Valid() && Progress()
      ensures r.Committed? ==> marker == Names(name) && Full(dirs[name], current)
      ensures r.Aborted? ==> marker == old(marker) && history == old(history)
      ensures r.Committed? ==> history[current]
      // A generation that could not be committed is removed again.
      ensures r.Aborted? && faults == old(faults) + 1 && name !in old(dirs) ==> name !in dirs
      ensures !r.Skipped? && !r.Unannounced?
      ensures faults >= old(faults)
      ensures faults == old(faults) && old(Free(name)) ==> r.Committed? && Replaced(name)
    {
      var previous := marker;
      assert name[4] == 't';
      var op := RenameDir(STAGING, name);
      if !op.Fine? { return if op.Crash? then Crashed else Aborted; }
      op := UpdateMarker(name);
      if op.Crash? { return Crashed; }
      if op.Error? {
        markerTmp := Absent;
        op := RemoveDirAll(name);
        return if op.Crash? then Crashed else Aborted;
      }
      if previous.Names? && GENERATION_PREFIX <= previous.name && previous.name != name {
        op := RemoveDirAll(previous.name);
        if op.Crash? { return Crashed; }
      }
      r := Committed;
    }

    /** The staging directory, emptied and filled by this bootstrap alone. */
    method FillStaging() returns (r: Op)
      requires Valid() && Idle(STAGING)
      modifies this`dirs, this`faults
      ensures Valid() && OnlyDir(STAGING)
      ensures r.Fine? ==> STAGING in dirs && Full(dirs[STAGING], current)
      ensures faults >= old(faults) && (r.Fine? <==> faults == old(faults))
    {
      if STAGING in dirs {
        r := RemoveDirAll(STAGING);
        if !r.Fine? { return; }
      }
      r := CreateDir(STAGING);
      if !r.Fine? { return; }
      r := WriteFile(STAGING, CertPem);
      if !r.Fine? { return; }
      r := WriteFile(STAGING, KeyPem);
      if !r.Fine? { return; }
      r := WriteFile(STAGING, ServicePrincipal);
      if !r.Fine? { return; }
      r := WriteFile(STAGING, StorageQueues);
      if !r.Fine? { return; }
      r := WriteFile(STAGING, WebUiEnvironment);
    }

    /** `bootstrap`. Whatever fails, and wherever it dies, the state in use is the old one untouched or
        this bootstrap's full set. */
    method Bootstrap(force: bool, name: string) returns (r: End)
      requires Valid() && GENERATION_PREFIX <= name
      modifies this
      ensures Valid() && Progress()
      ensures r.Committed? || r.Unannounced? ==> marker == Names(name) && Full(dirs[name], current) && history[current]
      // An error leaves the marker exactly when it arose before the marker was replaced.
      ensures r.Skipped? || r.Aborted? ==> marker == old(marker) && history == old(history)
      ensures !force && old(marker).Names? ==> r.Skipped?
      // Without a fault, and with a generation name not in use, it does commit.
      ensures faults == old(faults) && (force || old(marker).Absent?) && old(Free(name)) ==> r.Committed? && Replaced(name)
    {
      if !force && !marker.Absent? { return Skipped; }
      assert Idle(STAGING) && name[4] == 't';
      var op := FillStaging();
      if op.Crash? { return Crashed; }
      if op.Error? {
        var tidy: bool := *;
        if tidy { op := RemoveDirAll(STAGING); }
        return if op.Crash? then Crashed else Aborted;
      }
      r := CommitStaging(name);
      if r.Aborted? {
        op := RemoveDirAll(STAGING);
        if op.Crash? { r := Crashed; }
      } else if r.Committed? {
        op := Fate();  // the last progress display
        r := if op.Fine? then Committed else if op.Error? then Unannounced else Crashed;
      }
    }

    /** Any number of bootstraps, forced or not, each starting from whatever the last one left. */
    method RunBootstraps(requests: seq<(bool, string)>)
      requires Valid()
      requires forall i :: 0 <= i < |requests| ==> GENERATION_PREFIX <= requests[i].1
      modifies this
      ensures Valid()
      ensures old(marker).Names? ==> marker.Names?
      ensures |history| == |old(history)| + |requests|
      // A bootstrap that ended without replacing the marker never becomes the state in use.
      ensures forall i :: 0 <= i < |old(history)| ==> history[i] == old(history)[i]
    {
      for i := 0 to |requests|
        invariant Valid() && (old(marker).Names? ==> marker.Names?)
        invariant |history| == |old(history)| + i
        invariant forall k :: 0 <= k < |old(history)| ==> history[k] == old(history)[k]
      {
        ghost var h := history;
        history, current := history + [false], current + 1;
        assert marker.Names? ==> exists owner :: 0 <= owner < |h| && Full(dirs[marker.name], owner) && h[owner];
        assert Valid();
        var r := Bootstrap(requests[i].0, requests[i].1);
      }
    }
  }
}
