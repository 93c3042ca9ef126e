/** The `syncthing_folder` module: builds a new folder record and reconciles
    one folder of `config['folders']` with the requested state. */
module SyncthingFolder {

  import opened Wrappers
  import opened Json
  import opened Entries
  import opened Document

  /** The parameters run_module reads. `devices` is taken as a list (see
      README, "Left out"); `state` is the raw string. */
  datatype Params = Params(
    id: string,
    folderLabel: Option<string>,  // the `label` parameter (`label` is a Dafny keyword)
    path: Option<string>,
    devices: seq<string>,
    state: string)

  /** The states the argument specification accepts. */
  const StateChoices: set<string> := {"absent", "present", "pause"}

  const PathMissing: string := "You must provide a path when creating"

  /** The fields every new folder carries whatever the parameters. */
  const FolderDefaults: map<string, Value> := map[
    "autoNormalize" := Bool(true),
    "copiers" := Int(0),
    "disableSparseFiles" := Bool(false),
    "disableTempIndexes" := Bool(false),
    "filesystemType" := Str("basic"),
    "fsWatcherDelayS" := Int(10),
    "fsWatcherEnabled" := Bool(true),
    "hashers" := Int(0),
    "ignoreDelete" := Bool(false),
    "ignorePerms" := Bool(false),
    "markerName" := Str(".stfolder"),
    "maxConflicts" := Int(-1),
    "minDiskFree" := Object(map["unit" := Str("%"), "value" := Int(1)]),
    "order" := Str("random"),
    "pullerMaxPendingKiB" := Int(0),
    "pullerPauseS" := Int(0),
    "rescanIntervalS" := Int(3600),
    "scanProgressIntervalS" := Int(0),
    "type" := Str("sendreceive"),
    "useLargeBlocks" := Bool(false),
    "versioning" := Object(map["params" := Object(map[]), "type" := Str("")]),
    "weakHashThresholdPct" := Int(25)
  ]

  /** The entry of a new folder's `devices` list for one device id. */
  function SharedWith(deviceId: string): Value
  {
    Object(map["deviceID" := Str(deviceId), "introducedBy" := Str("")])
  }

  /** The folder dictionary literal before any device is added; `paused`
      is given so that the as-written and the corrected record share it. */
  function Skeleton(p: Params, paused: bool): Entry
  {
    Entry(p.id, paused, FolderDefaults + map[
      "devices" := Array([]),
      "label" := Str(if Truthy(p.folderLabel) then p.folderLabel.value else p.id),
      "path" := OptionalString(p.path)])
  }

  /** The record `create_folder` returns, as written: `paused` holds only for
      the state string 'paused', which the argument specification rejects. */
  function FolderRecord(p: Params): (r: Entry)
    ensures r.key == p.id
    ensures r.paused <==> p.state == "paused"
    ensures r.fields.Keys == FolderDefaults.Keys + {"devices", "label", "path"}
    ensures Truthy(p.folderLabel) ==> r.fields["label"] == Str(p.folderLabel.value)
    ensures !Truthy(p.folderLabel) ==> r.fields["label"] == Str(p.id)
    ensures p.path.Some? ==> r.fields["path"] == Str(p.path.value)
    ensures p.path.None? ==> r.fields["path"] == Null
    ensures r.fields["devices"].Array? && |r.fields["devices"].items| == |p.devices|
    ensures forall k :: 0 <= k < |p.devices| ==>
      r.fields["devices"].items[k] == Object(map["deviceID" := Str(p.devices[k]), "introducedBy" := Str("")])
    ensures forall name :: name in r.fields && name !in {"devices", "label", "path"} ==>
      name in FolderDefaults && r.fields[name] == FolderDefaults[name]
  {
    var shares := seq(|p.devices|, k requires 0 <= k < |p.devices| => SharedWith(p.devices[k]));
    var e := Skeleton(p, p.state == "paused");
    e.(fields := e.fields["devices" := Array(shares)])
  }

  /** `create_folder`: the dictionary literal, then one `devices` entry per
      requested device, in the order given. */
  method CreateFolder(p: Params) returns (folder: Entry)
    ensures folder == FolderRecord(p)
  {
    folder := Skeleton(p, p.state == "paused");
    var shares: seq<Value> := [];
    for k := 0 to |p.devices|
      invariant |shares| == k
      invariant forall j :: 0 <= j < k ==> shares[j] == SharedWith(p.devices[j])
    {
      shares := shares + [SharedWith(p.devices[k])];
    }
    assert shares == seq(|p.devices|, k requires 0 <= k < |p.devices| => SharedWith(p.devices[k]));
    folder := folder.(fields := folder.fields["devices" := Array(shares)]);
  }

  /** Two new folders differ at most in key, label, path and devices: every
      other field is the same constant whatever the parameters. */
  lemma DefaultsIgnoreParams(p: Params, q: Params)
    requires p.state == q.state
    ensures FolderRecord(p).paused == FolderRecord(q).paused
    ensures FolderRecord(p).fields.Keys == FolderRecord(q).fields.Keys
    ensures forall name :: name in FolderRecord(p).fields && name !in {"devices", "label", "path"} ==>
      FolderRecord(p).fields[name] == FolderRecord(q).fields[name]
  {
  }

  /** The documented defaults of a new folder, whatever the parameters. */
  lemma NewFolderDefaults(p: Params)
    ensures var f := FolderRecord(p).fields;
      && f["type"] == Str("sendreceive")
      && f["rescanIntervalS"] == Int(3600)
      && f["markerName"] == Str(".stfolder")
      && f["maxConflicts"] == Int(-1)
      && f["minDiskFree"] == Object(map["unit" := Str("%"), "value" := Int(1)])
      && f["versioning"] == Object(map["params" := Object(map[]), "type" := Str("")])
      && f["weakHashThresholdPct"] == Int(25)
  {
    DefaultField(p, "type");
    DefaultField(p, "rescanIntervalS");
    DefaultField(p, "markerName");
    DefaultField(p, "maxConflicts");
    DefaultField(p, "minDiskFree");
    DefaultField(p, "versioning");
    DefaultField(p, "weakHashThresholdPct");
  }

  /** A field of the template that no parameter sets keeps its template value. */
  lemma DefaultField(p: Params, name: string)
    requires name in FolderDefaults && name !in {"devices", "label", "path"}
    ensures name in FolderRecord(p).fields && FolderRecord(p).fields[name] == FolderDefaults[name]
  {
  }

  /** `run_module` from validation on: `config` is the document the endpoint
      returned, and the outcome's `posted` is the document a post would send. */
  method RunModule(p: Params, config: Config) returns (r: Outcome)
    requires p.state in StateChoices
    modifies config
    ensures config.devices == old(config.devices) && config.others == old(config.others)
    ensures p.state != "absent" && !Truthy(p.path) ==>
      r == Failed(PathMissing) && config.folders == old(config.folders)
    ensures p.state == "absent" || Truthy(p.path) ==>
      var a := Decide(old(config.folders), p.id, p.state);
      && r.Exited?
      && r.changed == Changes(a)
      && config.folders == Apply(old(config.folders), a, FolderRecord(p))
      && (r.posted.Some? <==> r.changed)
      && (r.posted.Some? ==> r.posted.value == config.Current())
    ensures UniqueKeys(old(config.folders)) ==> UniqueKeys(config.folders)
  {
    if p.state != "absent" && !Truthy(p.path) {
      return Failed(PathMissing);
    }
    ghost var before := config.folders;
    var changed := false;
    if p.state == "absent" {
      var idx := 0;
      while idx < |config.folders|
        invariant 0 <= idx <= |config.folders|
        invariant config.folders == before && !changed
        invariant forall j :: 0 <= j < idx ==> before[j].key != p.id
      {
        if config.folders[idx].key == p.id {
          assert FindFirst(before, p.id) == Some(idx);
          config.folders := config.folders[..idx] + config.folders[idx + 1..];
          changed := true;
          break;
        }
        idx := idx + 1;
      }
    } else {
      var i := 0;
      while i < |config.folders|
        invariant 0 <= i <= |config.folders|
        invariant config.folders == before && !changed
        invariant forall j :: 0 <= j < i ==> before[j].key != p.id
      {
        var folder := config.folders[i];
        if folder.key == p.id {
          assert FindFirst(before, p.id) == Some(i);
          var wantPause := p.state == "pause";
          if (wantPause && folder.paused) || (!wantPause && !folder.paused) {
            return Exited(false, None);
          } else {
            config.folders := config.folders[i := folder.(paused := wantPause)];
            changed := true;
            break;
          }
        }
        i := i + 1;
      }
      if !changed {
        var created := CreateFolder(p);
        config.folders := config.folders + [created];
        changed := true;
      }
    }
    if UniqueKeys(before) {
      ReconcileKeepsKeysUnique(before, p.id, p.state, FolderRecord(p));
    }
    var posted := None;
    if changed {
      posted := Some(config.Current());
    }
    return Exited(changed, posted);
  }

  /** Finding, as written: a folder created with state 'pause' starts
      unpaused, so the next run with the same parameters flips it and reports
      a change again. */
  lemma PauseCreationIsNotIdempotent(s: seq<Entry>, p: Params)
    requires p.state == "pause"
    requires forall j :: 0 <= j < |s| ==> s[j].key != p.id
    ensures var r := Reconcile(s, p.id, p.state, FolderRecord(p));
      && !r[|s|].paused
      && Decide(r, p.id, p.state) == SetPaused(|s|, true)
  {
    var r := Reconcile(s, p.id, p.state, FolderRecord(p));
    PresentAppendsWhenMissing(s, p.id, p.state, FolderRecord(p));
    forall j | 0 <= j < |s| ensures r[j].key != p.id {
      assert r[j] == r[..|s|][j];
    }
    assert FindFirst(r, p.id) == Some(|s|);
  }

  /** The record `create_folder` evidently means to build: paused exactly when
      the requested state is 'pause'. */
  function IntendedFolderRecord(p: Params): (r: Entry)
    ensures r.paused <==> WantPause(p.state)
    ensures r.key == FolderRecord(p).key && r.fields == FolderRecord(p).fields
  {
    FolderRecord(p).(paused := WantPause(p.state))
  }

  /** With the intended record, running twice with the same parameters on a
      document never changes anything the second time, for every state (for
      'absent', provided folder ids are unique). */
  lemma IntendedCreationIsIdempotent(s: seq<Entry>, p: Params)
    requires p.state == "absent" ==> UniqueKeys(s)
    ensures var r := Reconcile(s, p.id, p.state, IntendedFolderRecord(p));
      !Changes(Decide(r, p.id, p.state)) && Reconcile(r, p.id, p.state, IntendedFolderRecord(p)) == r
  {
    ReconcileIdempotent(s, p.id, p.state, IntendedFolderRecord(p));
  }

  /** As written, runs with 'present' or 'absent' are idempotent. */
  lemma PresentOrAbsentIsIdempotent(s: seq<Entry>, p: Params)
    requires p.state == "absent" ==> UniqueKeys(s)
    requires p.state == "present" || p.state == "absent"
    ensures var r := Reconcile(s, p.id, p.state, FolderRecord(p));
      !Changes(Decide(r, p.id, p.state)) && Reconcile(r, p.id, p.state, FolderRecord(p)) == r
  {
    ReconcileIdempotent(s, p.id, p.state, FolderRecord(p));
  }

}
