/** The `syncthing_device` module: builds a new device record and reconciles
    one device of `config['devices']` with the requested state. */
module SyncthingDevice {

  import opened Wrappers
  import opened Json
  import opened Entries
  import opened Document

  /** The parameters run_module reads; `state` is the raw string. */
  datatype Params = Params(id: string, name: Option<string>, state: string)

  /** The states the argument specification accepts. */
  const StateChoices: set<string> := {"absent", "present", "pause"}

  const NameMissing: string := "You must provide a name when creating"

  /** The fields every new device carries whatever the parameters. */
  const DeviceDefaults: map<string, Value> := map[
    "addresses" := Array([Str("dynamic")]),
    "allowedNetworks" := Array([]),
    "autoAcceptFolders" := Bool(false),
    "certName" := Str(""),
    "compression" := Str("metadata"),
    "ignoredFolders" := Array([]),
    "introducedBy" := Str(""),
    "introducer" := Bool(false),
    "maxRecvKbps" := Int(0),
    "maxSendKbps" := Int(0),
    "pendingFolders" := Array([]),
    "skipIntroductionRemovals" := Bool(false)
  ]

  /** `create_device`, as written: `paused` holds only for the state string
      'paused', which the argument specification rejects. */
  function CreateDevice(p: Params): (r: Entry)
    ensures r.key == p.id
    ensures r.paused <==> p.state == "paused"
    ensures r.fields.Keys == DeviceDefaults.Keys + {"name"}
    ensures p.name.Some? ==> r.fields["name"] == Str(p.name.value)
    ensures p.name.None? ==> r.fields["name"] == Null
    ensures forall field :: field in r.fields && field != "name" ==>
      field in DeviceDefaults && r.fields[field] == DeviceDefaults[field]
  {
    Entry(p.id, p.state == "paused", DeviceDefaults + map["name" := OptionalString(p.name)])
  }

  /** A field of the template that no parameter sets keeps its template value. */
  lemma DefaultField(p: Params, field: string)
    requires field in DeviceDefaults && field != "name"
    ensures field in CreateDevice(p).fields && CreateDevice(p).fields[field] == DeviceDefaults[field]
  {
  }

  /** The documented defaults of a new device, whatever the parameters. */
  lemma NewDeviceDefaults(p: Params)
    ensures var f := CreateDevice(p).fields;
      && f["addresses"] == Array([Str("dynamic")])
      && f["compression"] == Str("metadata")
      && f["introducer"] == Bool(false)
      && f["introducedBy"] == Str("")
      && f["maxRecvKbps"] == Int(0)
      && f["maxSendKbps"] == Int(0)
      && f["allowedNetworks"] == Array([])
      && f["ignoredFolders"] == Array([])
      && f["pendingFolders"] == Array([])
  {
    DefaultField(p, "addresses");
    DefaultField(p, "compression");
    DefaultField(p, "introducer");
    DefaultField(p, "introducedBy");
    DefaultField(p, "maxRecvKbps");
    DefaultField(p, "maxSendKbps");
    DefaultField(p, "allowedNetworks");
    DefaultField(p, "ignoredFolders");
    DefaultField(p, "pendingFolders");
  }

  /** `run_module` from validation on: `config` is the document the endpoint
      returned, and the outcome's `posted` is the document a post would send. */
  method RunModule(p: Params, config: Config) returns (r: Outcome)
    requires p.state in StateChoices
    modifies config
    ensures config.folders == old(config.folders) && config.others == old(config.others)
    ensures p.state != "absent" && !Truthy(p.name) ==>
      r == Failed(NameMissing) && config.devices == old(config.devices)
    ensures p.state == "absent" || Truthy(p.name) ==>
      var a := Decide(old(config.devices), p.id, p.state);
      && r.Exited?
      && r.changed == Changes(a)
      && config.devices == Apply(old(config.devices), a, CreateDevice(p))
      && (r.posted.Some? <==> r.changed)
      && (r.posted.Some? ==> r.posted.value == config.Current())
    ensures UniqueKeys(old(config.devices)) ==> UniqueKeys(config.devices)
  {
    if p.state != "absent" && !Truthy(p.name) {
      return Failed(NameMissing);
    }
    ghost var before := config.devices;
    var changed := false;
    if p.state == "absent" {
      var idx := 0;
      while idx < |config.devices|
        invariant 0 <= idx <= |config.devices|
        invariant config.devices == before && !changed
        invariant forall j :: 0 <= j < idx ==> before[j].key != p.id
      {
        if config.devices[idx].key == p.id {
          assert FindFirst(before, p.id) == Some(idx);
          config.devices := config.devices[..idx] + config.devices[idx + 1..];
          changed := true;
          break;
        }
        idx := idx + 1;
      }
    } else {
      var i := 0;
      while i < |config.devices|
        invariant 0 <= i <= |config.devices|
        invariant config.devices == before && !changed
        invariant forall j :: 0 <= j < i ==> before[j].key != p.id
      {
        var device := config.devices[i];
        if device.key == p.id {
          assert FindFirst(before, p.id) == Some(i);
          var wantPause := p.state == "pause";
          if (wantPause && device.paused) || (!wantPause && !device.paused) {
            return Exited(false, None);
          } else {
            config.devices := config.devices[i := device.(paused := wantPause)];
            changed := true;
            break;
          }
        }
        i := i + 1;
      }
      if !changed {
        var device := CreateDevice(p);
        config.devices := config.devices + [device];
        changed := true;
      }
    }
    if UniqueKeys(before) {
      ReconcileKeepsKeysUnique(before, p.id, p.state, CreateDevice(p));
    }
    var posted := None;
    if changed {
      posted := Some(config.Current());
    }
    return Exited(changed, posted);
  }

  /** Finding, as written: a device created with state 'pause' starts
      unpaused, so the next run with the same parameters flips it and reports
      a change again. */
  lemma PauseCreationIsNotIdempotent(s: seq<Entry>, p: Params)
    requires p.state == "pause"
    requires forall j :: 0 <= j < |s| ==> s[j].key != p.id
    ensures var r := Reconcile(s, p.id, p.state, CreateDevice(p));
      && !r[|s|].paused
      && Decide(r, p.id, p.state) == SetPaused(|s|, true)
  {
    var r := Reconcile(s, p.id, p.state, CreateDevice(p));
    PresentAppendsWhenMissing(s, p.id, p.state, CreateDevice(p));
    forall j | 0 <= j < |s| ensures r[j].key != p.id {
      assert r[j] == r[..|s|][j];
    }
    assert FindFirst(r, p.id) == Some(|s|);
  }

  /** The record `create_device` evidently means to build: paused exactly when
      the requested state is 'pause'. */
  function IntendedDevice(p: Params): (r: Entry)
    ensures r.paused <==> WantPause(p.state)
    ensures r.key == CreateDevice(p).key && r.fields == CreateDevice(p).fields
  {
    CreateDevice(p).(paused := WantPause(p.state))
  }

  /** With the intended record, running twice with the same parameters on a
      document never changes anything the second time, for every state (for
      'absent', provided device ids are unique). */
  lemma IntendedCreationIsIdempotent(s: seq<Entry>, p: Params)
    requires p.state == "absent" ==> UniqueKeys(s)
    ensures var r := Reconcile(s, p.id, p.state, IntendedDevice(p));
      !Changes(Decide(r, p.id, p.state)) && Reconcile(r, p.id, p.state, IntendedDevice(p)) == r
  {
    ReconcileIdempotent(s, p.id, p.state, IntendedDevice(p));
  }

  /** As written, runs with 'present' or 'absent' are idempotent. */
  lemma PresentOrAbsentIsIdempotent(s: seq<Entry>, p: Params)
    requires p.state == "absent" ==> UniqueKeys(s)
    requires p.state == "present" || p.state == "absent"
    ensures var r := Reconcile(s, p.id, p.state, CreateDevice(p));
      !Changes(Decide(r, p.id, p.state)) && Reconcile(r, p.id, p.state, CreateDevice(p)) == r
  {
    ReconcileIdempotent(s, p.id, p.state, CreateDevice(p));
  }

}
