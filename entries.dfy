/** The create-or-toggle-or-remove reconciliation shared by the folder and the
    device module, stated over one collection of the configuration document
    (`folders` or `devices`). The two modules run the same algorithm on
    different collections and identity keys; the imperative versions in
    SyncthingFolder and SyncthingDevice are proved equal to `Reconcile` here. */
module Entries {

  import opened Wrappers
  import opened Json

  /** One record of `folders` or `devices`: its identity key (`id` for a
      folder, `deviceID` for a device), its `paused` flag, and every other
      field, which reconciliation carries along untouched. */
  datatype Entry = Entry(key: string, paused: bool, fields: map<string, Value>)

  /** Syncthing keeps identity keys unique within a collection. */
  ghost predicate UniqueKeys(s: seq<Entry>)
  {
    forall i, j :: 0 <= i < j < |s| ==> s[i].key != s[j].key
  }

  /** The position of the first record whose key is `key`, if any. */
  function FindFirst(s: seq<Entry>, key: string): (r: Option<nat>)
    ensures r.Some? ==> r.value < |s| && s[r.value].key == key
    ensures r.Some? ==> forall j :: 0 <= j < r.value ==> s[j].key != key
    ensures r.None? ==> forall j :: 0 <= j < |s| ==> s[j].key != key
  {
    if s == [] then None
    else if s[0].key == key then Some(0)
    else match FindFirst(s[1..], key)
      case None => None
      case Some(i) => Some(i + 1)
  }

  /** The `paused` value a non-absent run asks for. */
  function WantPause(state: string): bool
  {
    state == "pause"
  }

  /** What one run does to the collection. */
  datatype Action =
    | Keep                              // nothing to do, nothing posted
    | Remove(at: nat)                   // state 'absent', record found
    | SetPaused(at: nat, paused: bool)  // record found with the other pause state
    | Append                            // record missing, a new one is created

  /** The action's index, if it has one, lies inside a collection of `n` records. */
  predicate Fits(a: Action, n: nat)
  {
    match a
    case Remove(i) => i < n
    case SetPaused(i, _) => i < n
    case _ => true
  }

  /** Whether a run with this action reports `changed` (and posts the document). */
  predicate Changes(a: Action)
  {
    !a.Keep?
  }

  /** The branch a run takes for identity `key` and the raw `state` parameter. */
  function Decide(s: seq<Entry>, key: string, state: string): (a: Action)
    ensures Fits(a, |s|)
    ensures (a.Remove? || a.SetPaused?) ==>
      s[a.at].key == key && forall j :: 0 <= j < a.at ==> s[j].key != key
    ensures a.Remove? <==> state == "absent" && FindFirst(s, key).Some?
    ensures a.SetPaused? ==> state != "absent" && a.paused == WantPause(state) && s[a.at].paused != a.paused
    ensures (state != "absent" && FindFirst(s, key).Some? &&
             s[FindFirst(s, key).value].paused != WantPause(state)) ==> a.SetPaused?
    ensures a.Append? <==> state != "absent" && FindFirst(s, key).None?
  {
    match FindFirst(s, key)
    case None => if state == "absent" then Keep else Append
    case Some(i) =>
      if state == "absent" then Remove(i)
      else if s[i].paused == WantPause(state) then Keep
      else SetPaused(i, WantPause(state))
  }

  /** The collection after the action; `created` is the record a creation appends. */
  function Apply(s: seq<Entry>, a: Action, created: Entry): (r: seq<Entry>)
    requires Fits(a, |s|)
    ensures a.Keep? ==> r == s
    ensures a.Remove? ==> |r| == |s| - 1
    ensures a.SetPaused? ==> |r| == |s|
    ensures a.Append? ==> |r| == |s| + 1
    ensures forall j :: 0 <= j < |s| && (a.Append? || (!a.Keep? && j < a.at)) ==> r[j] == s[j]
    ensures a.Remove? ==> forall j :: a.at <= j < |r| ==> r[j] == s[j + 1]
    ensures a.SetPaused? ==> forall j :: 0 <= j < |s| && j != a.at ==> r[j] == s[j]
    ensures a.SetPaused? ==>
      r[a.at].paused == a.paused && r[a.at].key == s[a.at].key && r[a.at].fields == s[a.at].fields
    ensures a.Append? ==> r[|s|] == created
  {
    match a
    case Keep => s
    case Remove(i) => s[..i] + s[i + 1..]
    case SetPaused(i, p) => s[i := s[i].(paused := p)]
    case Append => s + [created]
  }

  /** The collection after one run. */
  function Reconcile(s: seq<Entry>, key: string, state: string, created: Entry): (r: seq<Entry>)
    ensures |s| - 1 <= |r| <= |s| + 1
    ensures forall e :: e in s && e.key != key ==> e in r
    ensures forall e :: e in r && e.key != key ==> e in s || e == created
  {
    OnlyMatchingRecordIsNew(s, key, state, created);
    Apply(s, Decide(s, key, state), created)
  }

  /** A record of the result whose key is not the requested one was already
      there, or is the created record. */
  lemma OnlyMatchingRecordIsNew(s: seq<Entry>, key: string, state: string, created: Entry)
    ensures forall e :: e in Apply(s, Decide(s, key, state), created) && e.key != key ==>
      e in s || e == created
  {
    var r := Apply(s, Decide(s, key, state), created);
    forall e | e in r && e.key != key ensures e in s || e == created {
      var j :| 0 <= j < |r| && r[j] == e;
      match Decide(s, key, state)
      case Keep =>
      case Remove(i) =>
        if j < i { assert r[j] == s[j]; } else { assert r[j] == s[j + 1]; }
      case SetPaused(i, p) =>
        assert j != i && r[j] == s[j];
      case Append =>
        if j < |s| { assert r[j] == s[j]; }
    }
  }

  /** With state 'absent', the first record with the key, and only it, is
      removed; the records before it and after it keep their order. */
  lemma AbsentRemovesFirstMatch(s: seq<Entry>, key: string, created: Entry, i: nat)
    requires i < |s| && s[i].key == key
    requires forall j :: 0 <= j < i ==> s[j].key != key
    ensures Changes(Decide(s, key, "absent"))
    ensures var r := Reconcile(s, key, "absent", created);
      && |r| == |s| - 1
      && (forall j :: 0 <= j < i ==> r[j] == s[j])
      && (forall j :: i <= j < |r| ==> r[j] == s[j + 1])
  {
    assert FindFirst(s, key) == Some(i);
  }

  /** With state 'absent' and no record with the key, nothing changes. */
  lemma AbsentWithoutMatchKeeps(s: seq<Entry>, key: string, created: Entry)
    requires forall j :: 0 <= j < |s| ==> s[j].key != key
    ensures !Changes(Decide(s, key, "absent"))
    ensures Reconcile(s, key, "absent", created) == s
  {
  }

  /** A present/pause run whose first matching record already has the wanted
      `paused` value changes nothing. */
  lemma PresentInWantedStateKeeps(s: seq<Entry>, key: string, state: string, created: Entry, i: nat)
    requires state != "absent"
    requires i < |s| && s[i].key == key
    requires forall j :: 0 <= j < i ==> s[j].key != key
    requires s[i].paused == (state == "pause")
    ensures !Changes(Decide(s, key, state))
    ensures Reconcile(s, key, state, created) == s
  {
    assert FindFirst(s, key) == Some(i);
  }

  /** Otherwise only the `paused` flag of that record is set to the wanted
      value: its key and other fields, every other record, and the length
      stay as they were. */
  lemma PresentFlipsOnlyPaused(s: seq<Entry>, key: string, state: string, created: Entry, i: nat)
    requires state != "absent"
    requires i < |s| && s[i].key == key
    requires forall j :: 0 <= j < i ==> s[j].key != key
    requires s[i].paused != (state == "pause")
    ensures Changes(Decide(s, key, state))
    ensures var r := Reconcile(s, key, state, created);
      && |r| == |s|
      && r[i].paused == (state == "pause")
      && r[i].key == s[i].key && r[i].fields == s[i].fields
      && (forall j :: 0 <= j < |s| && j != i ==> r[j] == s[j])
  {
    assert FindFirst(s, key) == Some(i);
  }

  /** A present/pause run with no record for the key appends exactly the
      created record at the end. */
  lemma PresentAppendsWhenMissing(s: seq<Entry>, key: string, state: string, created: Entry)
    requires state != "absent"
    requires forall j :: 0 <= j < |s| ==> s[j].key != key
    ensures Changes(Decide(s, key, state))
    ensures var r := Reconcile(s, key, state, created);
      |r| == |s| + 1 && r[..|s|] == s && r[|s|] == created
  {
  }

  /** A run reports `changed`, and so posts, exactly when the collection it
      leaves differs from the one it found. */
  lemma ChangedIffModified(s: seq<Entry>, key: string, state: string, created: Entry)
    ensures Changes(Decide(s, key, state)) <==> Reconcile(s, key, state, created) != s
  {
    match Decide(s, key, state)
    case Keep =>
    case Remove(i) =>
      assert |Reconcile(s, key, state, created)| == |s| - 1;
    case SetPaused(i, p) =>
      assert Reconcile(s, key, state, created)[i].paused != s[i].paused;
    case Append =>
      assert |Reconcile(s, key, state, created)| == |s| + 1;
  }

  /** Reconciliation keeps identity keys unique, provided the created record
      carries the requested key. */
  lemma ReconcileKeepsKeysUnique(s: seq<Entry>, key: string, state: string, created: Entry)
    requires UniqueKeys(s)
    requires created.key == key
    ensures UniqueKeys(Reconcile(s, key, state, created))
  {
    var r := Reconcile(s, key, state, created);
    match Decide(s, key, state)
    case Keep =>
    case Remove(i) =>
      forall a, b | 0 <= a < b < |r| ensures r[a].key != r[b].key {
        var a' := if a < i then a else a + 1;
        var b' := if b < i then b else b + 1;
        assert r[a] == s[a'] && r[b] == s[b'];
      }
    case SetPaused(i, p) =>
    case Append =>
      assert FindFirst(s, key).None?;
  }

  /** Running again with the same identity and state on the collection a run
      produced changes nothing, when the created record has the requested key,
      and, for state 'absent', keys are unique (a duplicate would be removed by
      the next run) and, for any other state, the created record has the
      `paused` value that state asks for. */
  lemma ReconcileIdempotent(s: seq<Entry>, key: string, state: string, created: Entry)
    requires state == "absent" ==> UniqueKeys(s)
    requires created.key == key
    requires state != "absent" ==> created.paused == WantPause(state)
    ensures var r := Reconcile(s, key, state, created);
      !Changes(Decide(r, key, state)) && Reconcile(r, key, state, created) == r
  {
    var r := Reconcile(s, key, state, created);
    match Decide(s, key, state)
    case Keep =>
    case Remove(i) =>
      forall j | 0 <= j < |r| ensures r[j].key != key {
        if j < i {
          assert r[j] == s[j];
        } else {
          assert r[j] == s[j + 1];
        }
      }
    case SetPaused(i, p) =>
      assert FindFirst(s, key) == Some(i);
      assert r == s[i := s[i].(paused := p)];
      assert r[i].key == key && p == WantPause(state);
      forall j | 0 <= j < i ensures r[j].key != key {
        assert r[j] == s[j];
      }
      assert FindFirst(r, key) == Some(i);
    case Append =>
      assert FindFirst(s, key).None? && state != "absent";
      assert r == s + [created];
      forall j | 0 <= j < |s| ensures r[j].key != key {
        assert r[j] == s[j];
      }
      assert r[|s|].key == key;
      assert FindFirst(r, key) == Some(|s|);
  }

}
