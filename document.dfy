/** The configuration document fetched from and posted back to the Syncthing
    REST endpoint, and what one run of a module reports. */
module Document {

  import opened Wrappers
  import opened Json
  import opened Entries

  /** The whole document as a value: the two managed collections and every
      other top-level key, which the modules never look into. */
  datatype Snapshot = Snapshot(folders: seq<Entry>, devices: seq<Entry>, others: map<string, Value>)

  /** The fetched document, which a run changes in place before posting it. */
  class Config {
    var folders: seq<Entry>
    var devices: seq<Entry>
    var others: map<string, Value>

    /** The document as the configuration endpoint returned it. */
    constructor (fetched: Snapshot)
      ensures Current() == fetched
    {
      folders := fetched.folders;
      devices := fetched.devices;
      others := fetched.others;
    }

    /** The document as it now stands, which is what a post would send. */
    function Current(): Snapshot
      reads this
    {
      Snapshot(folders, devices, others)
    }
  }

  /** How a run ends: a validation failure (before anything is fetched), or a
      normal exit reporting `changed` and the document posted, if any. */
  datatype Outcome =
    | Failed(msg: string)
    | Exited(changed: bool, posted: Option<Snapshot>)

}
