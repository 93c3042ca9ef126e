# Syncthing folder and device reconciliation

A Dafny model of the two Ansible modules `syncthing_folder` and
`syncthing_device`. Each module fetches the Syncthing configuration document
from the REST endpoint `/rest/system/config`, looks for one folder (by `id`)
or one device (by `deviceID`), and then removes it (`state: absent`), sets its
`paused` flag (`present` / `pause`), or appends a freshly built record when it
is missing. The document is posted back only when something changed.

Files:

- `wrappers.dfy` — `Option`.
- `json.dfy` — JSON values (`Json.Value`), Python truthiness of an optional
  string parameter.
- `entries.dfy` — module `Entries`: a record of a collection (`Entry`: identity
  key, `paused`, every other field carried untouched), the search for the first
  match, the branch a run takes (`Decide`), its effect (`Apply`, `Reconcile`),
  and the lemmas that say what each branch does. The folder and the device
  module run the same algorithm (`syncthing_folder.py` lines 233-260 and
  `syncthing_device.py` lines 197-224 differ only in the collection, the
  key name and the factory that builds the appended record, which is the
  `created` parameter here), so it is stated once here; the rows below cite the folder file.
- `document.dfy` — the fetched document as a class `Config` whose fields each
  module's `RunModule` changes in place, the whole document as a value (`Snapshot`),
  and the outcome of a run (`Failed` with the message, or `Exited` with
  `changed` and the document that would be posted).
- `folder.dfy`, `device.dfy` — the record factories and the imperative
  `RunModule` of each module, with the same loops, `break`s and early exit as
  the Python, each proved equal to `Reconcile` over its collection while
  leaving the other collection and every other top-level key unchanged.

The `state` parameter is modelled as the raw string, so the difference between
the accepted `'pause'` and the `'paused'` the factories test is kept. The
module documentation lists the choice as `paused` (`syncthing_folder.py` line
58) while the argument specification accepts `pause` (line 207), so a record
created with the pause state never starts paused; the model follows the code
and reports this under Findings.

## Model

| member | source | states |
|---|---|---|
| `Entries.FindFirst` | library/storage/syncthing/syncthing_folder.py:235-236 | the index returned holds a record with the requested id and no earlier record has it; none is returned exactly when no record has it |
| `Entries.Decide` | library/storage/syncthing/syncthing_folder.py:233-257 | the branch a run takes: `Remove` exactly for `absent` with a match, at the first match; `SetPaused` exactly for a non-absent state whose first match has the other `paused` value, carrying `state == 'pause'`; `Append` exactly for a non-absent state with no match; otherwise `Keep`; any index lies in range (the branch lemmas below give each branch's effect) |
| `Entries.Apply` | library/storage/syncthing/syncthing_folder.py:237-256 | the effect of a branch: `Keep` leaves the collection as is; `Remove` (the `pop`) drops one record and shifts the later ones down in order; `SetPaused` (the `paused` write) changes only that record's flag; `Append` adds the created record at the end; records before the branch's position are untouched |
| `Entries.Reconcile` | library/storage/syncthing/syncthing_folder.py:233-257 | one run on a collection: its length changes by at most one, every record with another key survives, and every record with another key in the result was already there or is the created one |
| `Entries.AbsentRemovesFirstMatch` | library/storage/syncthing/syncthing_folder.py:233-239 | with `absent`, the first record with the id is removed and only it: one record fewer, the records before it unchanged, the ones after it shifted down by one in the same order; `changed` is true |
| `Entries.AbsentWithoutMatchKeeps` | library/storage/syncthing/syncthing_folder.py:233-239 | with `absent` and no record with the id, the collection is unchanged and `changed` is false |
| `Entries.PresentInWantedStateKeeps` | library/storage/syncthing/syncthing_folder.py:242-247 | with a non-absent state, if the first match already has `paused == (state == 'pause')` nothing changes and nothing is posted |
| `Entries.PresentFlipsOnlyPaused` | library/storage/syncthing/syncthing_folder.py:242-251 | otherwise only that record's `paused` becomes `state == 'pause'`; its key and other fields, every other record and the length are unchanged, nothing is appended; `changed` is true |
| `Entries.PresentAppendsWhenMissing` | library/storage/syncthing/syncthing_folder.py:253-257 | with a non-absent state and no match, exactly the created record is appended at the end and the earlier records are unchanged; `changed` is true |
| `Entries.ChangedIffModified` | library/storage/syncthing/syncthing_folder.py:259-260 | a run reports `changed`, and so posts, exactly when the collection it leaves differs from the one it fetched |
| `Entries.ReconcileKeepsKeysUnique` | library/storage/syncthing/syncthing_folder.py:233-257 | when ids were unique and the created record carries the requested id, ids stay unique after any branch |
| `Entries.ReconcileIdempotent` | library/storage/syncthing/syncthing_folder.py:233-260 | a second run with the same id and state changes nothing, provided the created record has the id and, for a non-absent state, the `paused` value the state asks for; for `absent`, provided ids are unique |
| `SyncthingFolder.FolderRecord` | library/storage/syncthing/syncthing_folder.py:149-193 | the new folder has key `id`; `paused` iff state is `'paused'`; `label` is the label when given and non-empty, else the id; `path` is the path parameter (null when not given); `devices` has one `{deviceID: d, introducedBy: ''}` per requested device, same length and order; every other field is the fixed default |
| `SyncthingFolder.CreateFolder` | library/storage/syncthing/syncthing_folder.py:186-193 | the loop that appends one share entry per device builds exactly `FolderRecord` |
| `SyncthingFolder.NewFolderDefaults` | library/storage/syncthing/syncthing_folder.py:150-184 | a new folder has `type='sendreceive'`, `rescanIntervalS=3600`, `markerName='.stfolder'`, `maxConflicts=-1`, `minDiskFree={unit:'%',value:1}`, `versioning={params:{},type:''}`, `weakHashThresholdPct=25`, whatever the parameters |
| `SyncthingFolder.DefaultsIgnoreParams` | library/storage/syncthing/syncthing_folder.py:150-184 | two new folders built for the same state have the same fields and agree on every field other than `devices`, `label` and `path` |
| `SyncthingFolder.RunModule` | library/storage/syncthing/syncthing_folder.py:222-262 | a non-absent run without a non-empty path fails before the document is touched; otherwise `folders` becomes `Reconcile` of the fetched folders, `changed` is whether the branch changes anything, the document is posted iff `changed` and the posted document is the changed one; `devices` and every other top-level key are unchanged; unique ids stay unique |
| `SyncthingFolder.PauseCreationIsNotIdempotent` | library/storage/syncthing/syncthing_folder.py:172 | as written, a folder created by a `'pause'` run is unpaused, and the next identical run flips it (a second change) |
| `SyncthingFolder.IntendedFolderRecord` | library/storage/syncthing/syncthing_folder.py:172 | the corrected record: the same key and fields, `paused` iff the state is `'pause'` |
| `SyncthingFolder.IntendedCreationIsIdempotent` | library/storage/syncthing/syncthing_folder.py:233-260 | with the corrected record, a second identical run changes nothing, for every state (for `absent`, on unique ids) |
| `SyncthingFolder.PresentOrAbsentIsIdempotent` | library/storage/syncthing/syncthing_folder.py:233-260 | as written, a second identical `present` or `absent` run changes nothing (for `absent`, on unique ids) |
| `SyncthingDevice.CreateDevice` | library/storage/syncthing/syncthing_device.py:139-159 | the new device has key `id`; `paused` iff state is `'paused'`; `name` is the name parameter; every other field is the fixed default |
| `SyncthingDevice.NewDeviceDefaults` | library/storage/syncthing/syncthing_device.py:140-158 | a new device has `addresses=['dynamic']`, `compression='metadata'`, `introducer=false`, `introducedBy=''`, `maxRecvKbps=0`, `maxSendKbps=0` and empty `allowedNetworks`, `ignoredFolders`, `pendingFolders`, whatever the parameters |
| `SyncthingDevice.RunModule` | library/storage/syncthing/syncthing_device.py:186-226 | a non-absent run without a non-empty name fails before the document is touched; otherwise `devices` becomes `Reconcile` of the fetched devices, the document is posted iff `changed`; `folders` and every other top-level key are unchanged; unique ids stay unique |
| `SyncthingDevice.PauseCreationIsNotIdempotent` | library/storage/syncthing/syncthing_device.py:155 | as written, a device created by a `'pause'` run is unpaused, and the next identical run flips it |
| `SyncthingDevice.IntendedDevice` | library/storage/syncthing/syncthing_device.py:155 | the corrected record: the same key and fields, `paused` iff the state is `'pause'` |
| `SyncthingDevice.IntendedCreationIsIdempotent` | library/storage/syncthing/syncthing_device.py:197-224 | with the corrected record, a second identical run changes nothing, for every state (for `absent`, on unique ids) |
| `SyncthingDevice.PresentOrAbsentIsIdempotent` | library/storage/syncthing/syncthing_device.py:197-224 | as written, a second identical `present` or `absent` run changes nothing (for `absent`, on unique ids) |

## Left out

- HTTP transport (`make_headers`, `get_config`, `post_config`): network I/O. The
  fetched document is the `Config` passed to `RunModule`; a post is the
  `posted` document in the outcome. Transport failures, and the undefined
  `result` that `get_config` refers to on its error path, are not modelled.
- API-key discovery from the local `config.xml` and the per-OS default path:
  file and XML I/O.
- Argument parsing by `AnsibleModule`: `RunModule` requires `state` to be one of
  the accepted choices `absent`, `present`, `pause`; the `~` and
  environment-variable expansion of a `path` parameter is not modelled.
- The check-mode early return before the fetch: it reaches no reconciliation.
- `exit_json` / `fail_json`: modelled as the returned `Outcome`; the
  `response` entry of the result is not modelled.
- The `devices` parameter's default `False` is not modelled: `devices` is a
  list of device ids.
- Records without an `id` / `deviceID` or a `paused` field (a Python `KeyError`)
  and non-boolean `paused` values: every record carries a string key and a
  boolean flag.
- A record's identity key and `paused` flag live only in `Entry.key` and
  `Entry.paused`, so by convention `Entry.fields` holds neither `id` /
  `deviceID` nor `paused`, and `Snapshot.others` holds neither `folders` nor
  `devices`; the model does not enforce this convention on a fetched document,
  and the factories' records keep it.
- JSON text: encoding and decoding are not modelled, and objects are maps, so
  the order of members inside an object (and the position of `id` and
  `paused` among a record's fields) is not modelled.
- Entries.ReconcileIdempotent: for `absent` it needs identity keys to be
  unique in the collection, as Syncthing keeps them; with a duplicated id an `absent` run
  removes only the first copy and a second run removes the next.

## Findings

| source | as written | input that shows it | evidently intended | confidence | as-written member | corrected member |
|---|---|---|---|---|---|---|
| library/storage/syncthing/syncthing_folder.py:172 | a new folder is paused only when `state == 'paused'`, a value the argument specification (lines 206-207) rejects, while the reconciliation wants a pause for `'pause'` (line 244) | `state: pause` for an id not in `folders`: the run appends an unpaused folder and reports a change; the identical next run finds it unpaused and flips it, reporting a change again | a folder created with `state: pause` starts paused, so the second run changes nothing | high; not executed | `SyncthingFolder.PauseCreationIsNotIdempotent` | `SyncthingFolder.IntendedCreationIsIdempotent` |
| library/storage/syncthing/syncthing_device.py:155 | a new device is paused only when `state == 'paused'`, which the argument specification (lines 170-171) rejects, while the reconciliation wants a pause for `'pause'` (line 208) | `state: pause` for a device id not in `devices`: the run appends an unpaused device; the identical next run flips it and reports a second change | a device created with `state: pause` starts paused | high; not executed | `SyncthingDevice.PauseCreationIsNotIdempotent` | `SyncthingDevice.IntendedCreationIsIdempotent` |

`RunModule` in both modules keeps the record the code builds, since it models
the shipped behaviour; the corrected records `IntendedFolderRecord` and
`IntendedDevice` are what the idempotence property holds for in every state.
