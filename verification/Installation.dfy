/** Replicas racing to create a database's installation id. */
module Installations {
  import opened Prelude

  type Replica = nat
  type Id = string

  /** Where a replica's call stands. */
  datatype Stage =
    | Calling
    | Missed
    | Inserted
    | Read(id: Id)
    | Returned(id: Id)
    | Raised

  /** The committed row, the insert not yet committed, and the replicas. */
  datatype World = World(row: Option<Id>, writer: Option<(Replica, Id)>, stages: map<Replica, Stage>)

  datatype Event =
    | Look(r: Replica)
    | Insert(r: Replica, id: Id)
    | Select(r: Replica)
    | Commit(r: Replica)
    | Abort(r: Replica)
    | Restart(r: Replica)

  function StageOf(w: World, r: Replica): Stage {
    if r in w.stages then w.stages[r] else Calling
  }

  function At(w: World, r: Replica, stage: Stage): World {
    w.(stages := w.stages[r := stage])
  }

  predicate Writes(w: World, r: Replica) {
    w.writer.Some? && w.writer.value.0 == r
  }

  /** What a replica's transaction sees: its own insert, or the committed row. */
  function Visible(w: World, r: Replica): Option<Id> {
    if Writes(w, r) then Some(w.writer.value.1) else w.row
  }

  /** One step of the world; an event that is not enabled changes nothing. */
  function Perform(w: World, e: Event): World {
    match e
    case Look(r) =>
      if StageOf(w, r) != Calling then w
      else At(w, r, if w.row.Some? && w.row.value != "" then Returned(w.row.value) else Missed)
    case Insert(r, id) =>
      // An insert waits for another one of the same key; it does nothing when the row is there.
      if StageOf(w, r) != Missed || w.writer.Some? || id == "" then w
      else if w.row.Some? then At(w, r, Inserted)
      else At(w.(writer := Some((r, id))), r, Inserted)
    case Select(r) =>
      if StageOf(w, r) != Inserted then w
      else
        var seen := Visible(w, r);
        if seen == None || seen.value == "" then At(Rollback(w, r), r, Raised) else At(w, r, Read(seen.value))
    case Commit(r) =>
      if !StageOf(w, r).Read? then w
      else
        var w' := if Writes(w, r) then w.(row := Some(w.writer.value.1), writer := None) else w;
        At(w', r, Returned(StageOf(w, r).id))
    case Abort(r) => if StageOf(w, r).Returned? then w else At(Rollback(w, r), r, Raised)
    case Restart(r) => At(Rollback(w, r), r, Calling)
  }

  /** An abort, or a crash, takes an uncommitted insert with it. */
  function Rollback(w: World, r: Replica): World {
    if Writes(w, r) then w.(writer := None) else w
  }

  function Exec(w: World, events: seq<Event>): World {
    if events == [] then w else Perform(Exec(w, events[..|events| - 1]), events[|events| - 1])
  }

  /** An id that has been read is committed or about to be; an uncommitted insert is the only one, of an empty table. */
  predicate Inv(w: World) {
    && (w.row.Some? ==> w.writer == None)
    && (w.writer.Some? ==> w.writer.value.1 != "")
    && (forall r :: r in w.stages ==>
          match w.stages[r]
          case Returned(id) => w.row == Some(id)
          case Read(id) => Visible(w, r) == Some(id)
          case Inserted => Visible(w, r).Some?
          case _ => !Writes(w, r))
    && (w.writer.Some? ==> w.writer.value.0 in w.stages)
  }

  lemma StepKeepsInv(w: World, e: Event)
    requires Inv(w)
    ensures Inv(Perform(w, e))
    ensures w.row.Some? ==> Perform(w, e).row == w.row
  {
  }

  lemma {:induction false} ExecKeepsInv(w: World, events: seq<Event>)
    requires Inv(w)
    ensures Inv(Exec(w, events)) && (w.row.Some? ==> Exec(w, events).row == w.row)
  {
    if events != [] {
      ExecKeepsInv(w, events[..|events| - 1]);
      StepKeepsInv(Exec(w, events[..|events| - 1]), events[|events| - 1]);
    }
  }

  lemma {:induction false} ExecSplits(w: World, first: seq<Event>, later: seq<Event>)
    ensures Exec(w, first + later) == Exec(Exec(w, first), later)
  {
    if later == [] {
      assert first + later == first;
    } else {
      ExecSplits(w, first, later[..|later| - 1]);
      assert (first + later)[..|first + later| - 1] == first + later[..|later| - 1];
    }
  }

  /** A database no replica has called yet, whatever it holds. */
  predicate Fresh(w: World) {
    w.writer == None && w.stages == map[]
  }

  /**
   * For any number of replicas and any interleaving of reads, inserts, commits, aborts and crashes: whenever two calls
   * return, however far apart, they return the same id, which is the committed row's, and a committed row never changes.
   */
  lemma ReplicasAgree(w: World, first: seq<Event>, later: seq<Event>, r: Replica, s: Replica)
    requires Fresh(w)
    requires StageOf(Exec(w, first), r).Returned? && StageOf(Exec(w, first + later), s).Returned?
    ensures StageOf(Exec(w, first), r).id == StageOf(Exec(w, first + later), s).id
    ensures Exec(w, first).row == Exec(w, first + later).row == Some(StageOf(Exec(w, first), r).id)
    ensures w.row.Some? ==> Exec(w, first).row == w.row
  {
    ExecKeepsInv(w, first);
    ExecSplits(w, first, later);
    ExecKeepsInv(Exec(w, first), later);
  }

  /** The events of one call that nothing interrupts. */
  function CallEvents(r: Replica, id: Id): seq<Event> {
    [Look(r), Insert(r, id), Select(r), Commit(r)]
  }

  class Database {
    var row: Option<Id>

    constructor (row: Option<Id>)
      ensures this.row == row
    {
      this.row := row;
    }

    /**
     * One uninterrupted call: the stored id, or a new one that is then stored. A stored id that is empty is neither
     * returned nor replaced: the call raises, as it does for a row that has disappeared.
     */
    method LoadInstallationId(r: Replica, generated: Id) returns (id: Option<Id>)
      requires generated != ""
      modifies this
      ensures row == if old(row).Some? then old(row) else Some(generated)
      ensures id == if row.value != "" then row else None
      ensures var w := Exec(World(old(row), None, map[]), CallEvents(r, generated));
              && w.row == row && w.writer == None
              && StageOf(w, r) == if id.Some? then Returned(id.value) else Raised
    {
      ghost var start := World(row, None, map[]);
      ghost var w1 := Perform(start, Look(r));
      ghost var w2 := Perform(w1, Insert(r, generated));
      ghost var w3 := Perform(w2, Select(r));
      CallUnfolds(start, r, generated);
      if row.Some? && row.value != "" {
        return row;
      }
      if row == None {
        row := Some(generated);
      }
      id := if row.value == "" then None else row;
      assert w3 == Exec(start, CallEvents(r, generated)[..3]);
    }
  }

  lemma CallUnfolds(w: World, r: Replica, id: Id)
    ensures var events := CallEvents(r, id);
            && Exec(w, events[..3]) == Perform(Perform(Perform(w, Look(r)), Insert(r, id)), Select(r))
            && Exec(w, events) == Perform(Exec(w, events[..3]), Commit(r))
  {
    var events := CallEvents(r, id);
    assert events[..3][..2] == events[..2] && events[..2][..1] == events[..1] && events[..1][..0] == [];
    assert Exec(w, events[..1]) == Perform(w, Look(r));
    assert Exec(w, events[..2]) == Perform(Exec(w, events[..1]), Insert(r, id));
  }
}
