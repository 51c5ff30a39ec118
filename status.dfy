/** The lifecycle states of a download task and the names under which they are persisted. */
module DownloadStatus {
  import opened Wrappers

  /** The seven states, in declaration order. */
  datatype Status = IDLE | PREPARING | DOWNLOADING | PAUSED | CANCELED | FINISHED | ERROR

  /** Every state exactly once, in declaration order. */
  const AllStatuses: seq<Status> := [IDLE, PREPARING, DOWNLOADING, PAUSED, CANCELED, FINISHED, ERROR]

  /** A state that cannot be resumed. */
  predicate IsTerminal(s: Status) {
    s == FINISHED || s == CANCELED || s == ERROR
  }

  /** The enum constant's position in the declaration. */
  function Ordinal(s: Status): (r: nat)
    ensures r < |AllStatuses| && AllStatuses[r] == s
  {
    match s
    case IDLE => 0
    case PREPARING => 1
    case DOWNLOADING => 2
    case PAUSED => 3
    case CANCELED => 4
    case FINISHED => 5
    case ERROR => 6
  }

  /** The enum constant's name, the string stored in a record's status field. */
  function Name(s: Status): string {
    match s
    case IDLE => "IDLE"
    case PREPARING => "PREPARING"
    case DOWNLOADING => "DOWNLOADING"
    case PAUSED => "PAUSED"
    case CANCELED => "CANCELED"
    case FINISHED => "FINISHED"
    case ERROR => "ERROR"
  }

  /** The state a stored name denotes (valueOf), or None for a string that names none. */
  function FromName(n: string): (r: Option<Status>)
    ensures r.Some? ==> Name(r.value) == n
  {
    if n == "IDLE" then Some(IDLE)
    else if n == "PREPARING" then Some(PREPARING)
    else if n == "DOWNLOADING" then Some(DOWNLOADING)
    else if n == "PAUSED" then Some(PAUSED)
    else if n == "CANCELED" then Some(CANCELED)
    else if n == "FINISHED" then Some(FINISHED)
    else if n == "ERROR" then Some(ERROR)
    else None
  }

  /** The seven states are pairwise distinct and the list holds each of them. */
  lemma AllStatusesExact()
    ensures |AllStatuses| == 7
    ensures forall i, j :: 0 <= i < j < |AllStatuses| ==> AllStatuses[i] != AllStatuses[j]
    ensures forall s: Status :: s in AllStatuses
  {
    forall s: Status ensures s in AllStatuses {
      assert AllStatuses[Ordinal(s)] == s;
    }
  }

  /** isTerminal holds exactly for FINISHED, CANCELED and ERROR. */
  lemma TerminalStates(s: Status)
    ensures IsTerminal(s) <==> s in {FINISHED, CANCELED, ERROR}
    ensures !IsTerminal(s) <==> s in {IDLE, PREPARING, DOWNLOADING, PAUSED}
  {
  }

  /** Name and FromName are inverse: names round-trip, and distinct states have distinct names. */
  lemma NameRoundTrip(s: Status)
    ensures FromName(Name(s)) == Some(s)
  {
  }

  lemma NameInjective(s: Status, t: Status)
    ensures Name(s) == Name(t) ==> s == t
  {
    NameRoundTrip(s);
    NameRoundTrip(t);
  }
}
