/**
  The part of a transaction its threads share behind one mutex
  (src/pipeline/artifact.rs). Each method does to the fields what the corresponding
  steps of the report's life do to the core; an operation admits itself, changes the
  registry and ends in three critical sections, between which nobody else is admitted.
*/
module ArtifactTransaction {
  import opened Wrappers
  import opened ArtifactPaths
  import opened ArtifactStore

  class TransactionCore {
    const root: Path
    var phase: Phase
    var active: nat
    var artifacts: map<string, Kind>
    var destination: Path

    function View(): Core
      reads this
    {
      Core(phase, active, artifacts, destination)
    }

    constructor (root: Path)
      ensures View() == Core(Open, 0, map[], root) && this.root == root
    {
      this.root := root;
      phase, active, artifacts, destination := Open, 0, map[], root;
    }

    /** Admitted only while open and idle; a refusal says why and changes nothing. */
    method BeginOperation() returns (refusal: Option<Refusal>)
      modifies this`active
      ensures refusal == Admission(old(View()))
      ensures refusal.None? <==> old(phase).Open? && old(active) == 0
      ensures active == if refusal.None? then 1 else old(active)
      ensures refusal.None? ==> Admission(View()) == Some(OperationActive)
    {
      match phase
      case Open =>
        if active == 0 {
          active := 1;
          return None;
        }
        return Some(OperationActive);
      case Preparing => return Some(IsPreparing);
      case Prepared => return Some(AlreadyPrepared);
      case Committed => return Some(AlreadyCommitted);
    }

    method EndOperation()
      modifies this`active
      ensures active == if old(active) == 0 then 0 else old(active) - 1
    {
      active := if active == 0 then 0 else active - 1;
    }

    /** Seals the transaction and hands out the registry and destination it is sealed with. */
    method BeginCommit() returns (sealed: Result<(map<string, Kind>, Path), Refusal>)
      modifies this`phase
      ensures sealed.Ok? <==> old(phase).Open? && active == 0
      ensures sealed.Ok? ==> phase == Preparing && sealed.value == (artifacts, destination) && Admission(View()).Some?
      ensures sealed.Err? ==> phase == old(phase) && Admission(old(View())) == Some(sealed.error)
    {
      match phase
      case Open =>
        if active == 0 {
          phase := Preparing;
          return Ok((artifacts, destination));
        }
        return Err(OperationActive);
      case Preparing => return Err(IsPreparing);
      case Prepared => return Err(AlreadyPrepared);
      case Committed => return Err(AlreadyCommitted);
    }

    /** A whole registration: refused outright, or admitted, applied and left, with the transaction idle again. */
    method RegisterFile(name: string, kind: Kind, present: bool) returns (registered: bool)
      modifies this
      ensures registered <==> Admission(old(View())).None? && ValidArtifactName(name) && present
      ensures View() == if registered then old(View()).(artifacts := old(artifacts)[name := kind]) else old(View())
    {
      var refusal := BeginOperation();
      if refusal.Some? {
        return false;
      }
      registered := ValidArtifactName(name) && present;
      if registered {
        artifacts := artifacts[name := kind];
      }
      EndOperation();
    }

    method UnregisterFile(name: string) returns (done: bool)
      modifies this
      ensures done <==> Admission(old(View())).None? && ValidArtifactName(name)
      ensures View() == if done then old(View()).(artifacts := old(artifacts) - {name}) else old(View())
    {
      var refusal := BeginOperation();
      if refusal.Some? {
        return false;
      }
      done := ValidArtifactName(name);
      if done {
        artifacts := artifacts - {name};
      }
      EndOperation();
    }

    /** Only the root and its siblings are accepted, so the destination can always be recorded and resolved again. */
    method SetDestinationRoot(to: Path) returns (done: bool)
      requires WellFormed(to)
      modifies this
      ensures done <==> Admission(old(View())).None? && DestinationPolicy(root, to).Ok?
      ensures View() == if done then old(View()).(destination := to) else old(View())
      ensures done ==> DestinationFromPolicy(root, DestinationPolicy(root, destination).value) == Ok(destination)
    {
      var refusal := BeginOperation();
      if refusal.Some? {
        return false;
      }
      done := DestinationPolicy(root, to).Ok?;
      if done {
        DestinationRoundTrip(root, to);
        destination := to;
      }
      EndOperation();
    }
  }
}
