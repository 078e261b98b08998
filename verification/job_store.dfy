/** The job store of `src/batch.py`: a JSON file holding a dict from job id to
    `{description, status, result}`. The dict keeps insertion order (Python 3.7+, and
    `json.dump`/`json.load` preserve it), so the model keeps the order of keys too. */
module JobStore {
  import opened Json

  /** The statuses this code ever writes into a record. */
  datatype JobStatus = Processing | Completed | Failed | Expired | Cancelled {

    /** The string stored in the file and shown to the user. */
    function Name(): string {
      match this
      case Processing => "processing"
      case Completed => "completed"
      case Failed => "failed"
      case Expired => "expired"
      case Cancelled => "cancelled"
    }

    predicate IsTerminal() {
      !Processing?
    }
  }

  /** One entry of the store: `{"description": ..., "status": ..., "result": ...}`;
      a result of `None` is `JNull`. */
  datatype JobRecord = JobRecord(description: string, status: JobStatus, result: Json)

  /** A Python dict from job id to record: its keys in insertion order, and their values. */
  datatype Tasks = Tasks(order: seq<string>, entries: map<string, JobRecord>)

  /** Every key is listed once, and exactly the keys of `entries` are listed. */
  ghost predicate WellFormed(t: Tasks) {
    && (forall i, j :: 0 <= i < j < |t.order| ==> t.order[i] != t.order[j])
    && (forall k :: k in t.entries <==> k in t.order)
  }

  type Store = t: Tasks | WellFormed(t) witness Tasks([], map[])

  const Empty: Store := Tasks([], map[])

  /** `len(tasks)`. */
  function Size(s: Store): nat {
    |s.entries|
  }

  /** `tasks[key] = rec`: an existing key keeps its place, a new key goes last. */
  function Put(s: Store, key: string, rec: JobRecord): (r: Store)
    ensures r.entries == s.entries[key := rec]
    ensures key in s.entries ==> r.order == s.order
    ensures key !in s.entries ==> r.order == s.order + [key]
  {
    if key in s.entries then Tasks(s.order, s.entries[key := rec])
    else Tasks(s.order + [key], s.entries[key := rec])
  }

  /** The backing file: absent, or holding a saved store. */
  datatype Disk = Absent | Present(saved: Store)

  /** `save_tasks(tasks)`: the file afterwards holds the whole store. */
  function Save(s: Store): Disk {
    Present(s)
  }

  /** `load_tasks()`: a missing file reads as the empty store; otherwise it reads
      back exactly what was last saved. */
  function Load(d: Disk): (r: Store)
    ensures d.Absent? ==> r == Empty
    ensures d.Present? ==> Save(r) == d
  {
    match d
    case Absent => Empty
    case Present(s) => s
  }

  /** What every writer does: load the whole store, replace one key, save the whole store. */
  function Update(d: Disk, key: string, rec: JobRecord): (r: Disk)
    ensures r.Present?
    ensures Load(r).entries == Load(d).entries[key := rec]
  {
    Save(Put(Load(d), key, rec))
  }

  /** Store invariant: only a completed job carries a result. */
  ghost predicate NoStrayResults(s: Store) {
    forall k :: k in s.entries && s.entries[k].status != Completed ==> s.entries[k].result == JNull
  }

  ghost predicate DiskInvariant(d: Disk) {
    NoStrayResults(Load(d))
  }

  /** A record that obeys the invariant keeps it when written into a store that obeys it. */
  lemma UpdatePreservesInvariant(d: Disk, key: string, rec: JobRecord)
    requires rec.status != Completed ==> rec.result == JNull
    ensures DiskInvariant(d) ==> DiskInvariant(Update(d, key, rec))
  {
  }
}
