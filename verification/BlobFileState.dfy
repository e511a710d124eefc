/** The life-cycle states of a blob file and the events that move it between them. */
module BlobFileState {
  import opened Optional

  datatype FileState =
    | Init          // never seen once the file is registered
    | Normal
    | PendingLSM    // output of a flush or compaction, its indexes not yet in the LSM
    | BeingGC
    | PendingGC     // output of a running GC
    | Obsolete      // deleted in the manifest, waiting for physical deletion
    | ToMerge       // to be merged away by the next compaction
    | ToGC

  datatype FileEvent =
    | FlushCompleted
    | CompactionCompleted
    | GCCompleted
    | GCBegin
    | GCOutput
    | FlushOrCompactionOutput
    | DbRestart
    | Delete
    | NeedMerge
    | Reset
    | NeedGC

  /** The state after an event, or None where an assertion of the source fails. */
  function Transit(s: FileState, e: FileEvent): Option<FileState> {
    match e
    case FlushCompleted =>
      if s == PendingLSM then Some(Normal)
      else if s in {PendingGC, Normal, BeingGC, Obsolete} then Some(s)
      else None
    case GCCompleted =>
      if s == Obsolete then Some(Obsolete)
      else if s in {PendingGC, BeingGC} then Some(Normal)
      else None
    case CompactionCompleted => if s == PendingLSM then Some(Normal) else None
    case GCBegin => if s == Normal then Some(BeingGC) else None
    case GCOutput => if s == Init then Some(PendingGC) else None
    case FlushOrCompactionOutput => if s == Init then Some(PendingLSM) else None
    case DbRestart => if s == Init then Some(Normal) else None
    case Delete => if s != Obsolete then Some(Obsolete) else None
    case NeedMerge => if s in {ToGC, Obsolete} then Some(s) else Some(ToMerge)
    case Reset => Some(Normal)
    case NeedGC => if s == Obsolete then Some(s) else Some(ToGC)
  }

  /** Where an assertion fails, which ends the process, the state stays as it is. */
  function Moved(s: FileState, e: FileEvent): FileState {
    match Transit(s, e)
    case Some(t) => t
    case None => s
  }
}
