/** The rotation and the generate-once writer as they run on a host, each a run of the transition system. */
module RotationHosts {
  import opened Prelude
  import opened Rotation

  datatype Outcome = Done | Failed | Crashed

  lemma ExecSnoc(names: seq<Name>, w: World, events: seq<Event>, e: Event)
    ensures Exec(names, w, events + [e]) == Perform(names, Exec(names, w, events), e)
  {
    assert (events + [e])[..|events|] == events;
  }

  /** The value a rotation gives a role: the pending one when there is a pending set, else a newly generated one. */
  function Candidate(pending: Option<map<Name, string>>, generated: map<Name, string>, n: Name): string {
    if pending.Some? then (if n in pending.value then pending.value[n] else "")
    else if n in generated then generated[n] else ""
  }

  predicate Generated(n: Name, pending: Option<map<Name, string>>, values: map<Name, string>, generated: map<Name, string>) {
    n in generated && n in values && values[n] == generated[n]
    && pending.Some? && n in pending.value && pending.value[n] == generated[n]
  }

  lemma WriteLands(names: seq<Name>, w: World, text: string)
    requires w.run.Generating? && w.run.n < |names| && w.disk.pending.Some?
    ensures var name := names[w.run.n];
            Perform(names, w, Write(text))
            == World(w.disk.(pending := Some(w.disk.pending.value[name := text])),
                     if IsSecret(text) then Generating(w.run.values[name := text], w.run.n + 1) else w.run)
  {
  }

  lemma GenerationEnds(names: seq<Name>, w: World)
    requires w.run.Generating? && w.run.n == |names|
    ensures Perform(names, w, Advance) == w.(run := Prepared(w.run.values))
  {
  }

  predicate Kept(n: Name, before: map<Name, string>, after: map<Name, string>) {
    if n in before then n in after && after[n] == before[n] else n !in after
  }

  class Host {
    var db: map<Name, string>
    var active: map<Name, string>
    var pending: Option<map<Name, string>>

    function State(): Disk
      reads this
    {
      Disk(db, active, pending)
    }

    constructor (db: map<Name, string>, active: map<Name, string>, pending: Option<map<Name, string>>)
      ensures State() == Disk(db, active, pending)
    {
      this.db, this.active, this.pending := db, active, pending;
    }

    /**
     * One rotation. Unless `steady`, the process may die between any two steps; writing candidate number `broken`, when
     * there is one (past the last file, syncing their directory), raises. Whatever happens is a run of the transition
     * system. A steady run is `Done` exactly when the pending set is complete, or absent and then generated without an
     * exception, and the database says it committed; it then ends with the active files equal to the database and
     * nothing pending, having reused a complete pending set. An exception while generating leaves nothing behind.
     */
    method Rotate(names: seq<Name>, generated: map<Name, string>, broken: nat, reply: Reply, steady: bool)
      returns (outcome: Outcome, ghost trace: seq<Event>)
      requires DistinctNames(names)
      requires forall n :: n in names ==> n in generated && IsSecret(generated[n])
      modifies this
      ensures State() == Exec(names, World(old(State()), Idle), trace).disk
      ensures steady ==> outcome != Crashed
      ensures steady ==> (outcome == Done <==>
                reply == Committed && (if old(pending) == None then broken > |names| else Complete(names, old(pending))))
      ensures steady && old(pending) == None && broken <= |names| ==> State() == old(State())
      ensures outcome == Done ==>
                && pending == None
                && Holds(names, active, db)
                && (forall n :: n in names ==> active[n] == Candidate(old(pending), generated, n))
      ensures old(pending).Some? && !Complete(names, old(pending)) ==> State() == old(State())
      ensures reply == Rejected ==> db == old(db)
      ensures steady && reply != Rejected && (if old(pending) == None then broken > |names| else Complete(names, old(pending)))
              ==> forall n :: n in names ==> n in db && db[n] == Candidate(old(pending), generated, n)
      ensures reply != Committed ==> active == old(active)
      ensures forall n :: n !in names ==> Kept(n, old(db), db) && Kept(n, old(active), active)
    {
      ghost var start := World(State(), Idle);
      trace := [BeginRotation];
      ghost var w := Perform(names, start, BeginRotation);
      ExecSnoc(names, start, [], BeginRotation);
      if !steady { if * { return Crashed, trace; } }

      var values: map<Name, string>;
      values, outcome, w, trace := Prepare(names, generated, broken, steady, start, w, trace);
      if outcome != Done { return; }

      ExecSnoc(names, start, trace, Answer(reply));
      w, trace := Perform(names, w, Answer(reply)), trace + [Answer(reply)];
      if reply != Rejected {
        db := db + values;
      }
      if reply != Committed {
        return Failed, trace;
      }
      if !steady { if * { return Crashed, trace; } }

      outcome, w, trace := Publish(names, values, steady, start, w, trace);
      if outcome != Done { return; }
      outcome, w, trace := RemovePending(names, steady, start, w, trace);
    }

    /** `_prepare_candidates`: load a complete pending set, refuse an incomplete one, or generate one file by file. */
    method Prepare(names: seq<Name>, generated: map<Name, string>, broken: nat, steady: bool,
                   ghost start: World, ghost w0: World, ghost trace0: seq<Event>)
      returns (values: map<Name, string>, outcome: Outcome, ghost w: World, ghost trace: seq<Event>)
      requires DistinctNames(names)
      requires forall n :: n in names ==> n in generated && IsSecret(generated[n])
      requires w0 == Exec(names, start, trace0) && w0 == World(State(), Inspected)
      modifies this`pending
      ensures w == Exec(names, start, trace) && w.disk == State()
      ensures steady ==> outcome != Crashed
      ensures steady ==> (outcome == Done <==> if old(pending) == None then broken > |names| else Complete(names, old(pending)))
      ensures old(pending) == None && outcome == Failed ==> pending == None
      ensures outcome == Done ==>
                && w.run == Prepared(values) && Complete(names, pending)
                && (forall n :: n in values ==> n in names)
                && (forall n :: n in names ==> n in values && values[n] == Candidate(old(pending), generated, n))
      ensures old(pending).Some? ==> pending == old(pending)
      ensures old(pending).Some? && !Complete(names, old(pending)) ==> outcome != Done
    {
      values := map[];
      ExecSnoc(names, start, trace0, Advance);
      w, trace := Perform(names, w0, Advance), trace0 + [Advance];
      if pending.Some? {
        if !Complete(names, pending) {
          return values, Failed, w, trace;
        }
        values := Candidates(names, pending.value);
        return values, Done, w, trace;
      }
      pending := Some(map[]);
      values, outcome, w, trace := Generate(names, generated, broken, steady, start, w, trace);
    }

    /**
     * Generating the candidates file by file; a file may exist before its value has reached the disk. An exception
     * removes the pending directory.
     */
    method Generate(names: seq<Name>, generated: map<Name, string>, broken: nat, steady: bool,
                    ghost start: World, ghost w0: World, ghost trace0: seq<Event>)
      returns (values: map<Name, string>, outcome: Outcome, ghost w: World, ghost trace: seq<Event>)
      requires DistinctNames(names)
      requires forall n :: n in names ==> n in generated && IsSecret(generated[n])
      requires w0 == Exec(names, start, trace0) && w0 == World(State(), Generating(map[], 0)) && pending == Some(map[])
      modifies this`pending
      ensures w == Exec(names, start, trace) && w.disk == State()
      ensures steady ==> outcome == if broken <= |names| then Failed else Done
      ensures outcome == Failed ==> pending == None
      ensures outcome == Done ==> w.run == Prepared(values) && Complete(names, pending)
      ensures outcome == Done ==> forall n :: n in values ==> n in names
      ensures outcome == Done ==> forall n :: n in names ==> n in values && values[n] == generated[n]
    {
      hide Perform, Exec;
      values, w, trace := map[], w0, trace0;
      for i := 0 to |names|
        invariant i <= broken
        invariant w == Exec(names, start, trace) && w == World(State(), Generating(values, i))
        invariant pending.Some? && forall n :: n in values ==> n in names
        invariant forall j :: 0 <= j < i ==> Generated(names[j], pending, values, generated)
        invariant db == old(db) && active == old(active)
      {
        if !steady {
          if * { return values, Crashed, w, trace; }
        }
        if i == broken || !steady {
          if * {
            ExecSnoc(names, start, trace, Write(""));
            WriteLands(names, w, "");
            w, trace := Perform(names, w, Write("")), trace + [Write("")];
            pending := Some(pending.value[names[i] := ""]);
            if i != broken { return values, Crashed, w, trace; }
          }
        }
        if i == broken {
          outcome, w, trace := Abandon(names, steady, start, w, trace);
          return;
        }
        var value := generated[names[i]];
        ExecSnoc(names, start, trace, Write(value));
        WriteLands(names, w, value);
        w, trace := Perform(names, w, Write(value)), trace + [Write(value)];
        pending := Some(pending.value[names[i] := value]);
        values := values[names[i] := value];
      }
      if broken == |names| {
        outcome, w, trace := Abandon(names, steady, start, w, trace);
        return;
      }
      ExecSnoc(names, start, trace, Advance);
      GenerationEnds(names, w);
      w, trace := Perform(names, w, Advance), trace + [Advance];
      forall n | n in names
        ensures Generated(n, pending, values, generated)
      {
        var j :| 0 <= j < |names| && names[j] == n;
      }
      outcome := Done;
    }

    /** What an exception while generating triggers: the pending directory is removed, and the exception goes on. */
    method Abandon(names: seq<Name>, steady: bool, ghost start: World, ghost w0: World, ghost trace0: seq<Event>)
      returns (outcome: Outcome, ghost w: World, ghost trace: seq<Event>)
      requires w0 == Exec(names, start, trace0) && w0.disk == State() && w0.run.Generating? && pending.Some?
      modifies this`pending
      ensures w == Exec(names, start, trace) && w.disk == State()
      ensures outcome != Done && (steady ==> outcome == Failed)
      ensures outcome == Failed ==> pending == None
    {
      ExecSnoc(names, start, trace0, Raise);
      w, trace := Perform(names, w0, Raise), trace0 + [Raise];
      outcome, w, trace := RemovePending(names, steady, start, w, trace);
      if outcome == Done {
        outcome := Failed;
      }
    }

    /** `_publish_candidates`: replace the active files one by one, each atomically. */
    method Publish(names: seq<Name>, values: map<Name, string>, steady: bool,
                   ghost start: World, ghost w0: World, ghost trace0: seq<Event>)
      returns (outcome: Outcome, ghost w: World, ghost trace: seq<Event>)
      requires DistinctNames(names) && forall n :: n in names ==> n in values
      requires w0 == Exec(names, start, trace0) && w0 == World(State(), Publishing(values, 0))
      modifies this`active
      ensures w == Exec(names, start, trace) && w.disk == State()
      ensures steady ==> outcome == Done
      ensures outcome != Failed
      ensures outcome == Done ==> w.run == Removing(true)
      ensures outcome == Done ==> forall n :: n in names ==> n in active && active[n] == values[n]
      ensures forall n :: n !in names ==> Kept(n, old(active), active)
    {
      w, trace := w0, trace0;
      for i := 0 to |names|
        invariant w == Exec(names, start, trace) && w == World(State(), Publishing(values, i))
        invariant forall j :: 0 <= j < i ==> names[j] in active && active[names[j]] == values[names[j]]
        invariant forall n :: n !in names ==> Kept(n, old(active), active)
      {
        if !steady { if * { return Crashed, w, trace; } }
        ExecSnoc(names, start, trace, Advance);
        w, trace := Perform(names, w, Advance), trace + [Advance];
        active := active[names[i] := values[names[i]]];
      }
      ExecSnoc(names, start, trace, Advance);
      w, trace := Perform(names, w, Advance), trace + [Advance];
      outcome := Done;
    }

    method UnlinkOne(names: seq<Name>, name: Name, ghost start: World, ghost w0: World, ghost trace0: seq<Event>)
      returns (ghost w: World, ghost trace: seq<Event>)
      requires w0 == Exec(names, start, trace0) && w0.disk == State() && w0.run.Removing? && pending.Some?
      modifies this`pending
      ensures w == Exec(names, start, trace) && w == World(State(), w0.run)
      ensures pending.Some? && pending.value.Keys == old(pending).value.Keys - {name}
    {
      ExecSnoc(names, start, trace0, Unlink(name));
      w, trace := Perform(names, w0, Unlink(name)), trace0 + [Unlink(name)];
      pending := Some(pending.value - {name});
    }

    method RemoveDirectory(names: seq<Name>, ghost start: World, ghost w0: World, ghost trace0: seq<Event>)
      returns (ghost w: World, ghost trace: seq<Event>)
      requires w0 == Exec(names, start, trace0) && w0.disk == State() && w0.run.Removing? && pending == Some(map[])
      modifies this`pending
      ensures w == Exec(names, start, trace) && w.disk == State() && pending == None
    {
      ExecSnoc(names, start, trace0, Advance);
      w, trace := Perform(names, w0, Advance), trace0 + [Advance];
      pending := None;
    }

    /** Removing the pending directory: its files one by one in any order, then itself. */
    method RemovePending(names: seq<Name>, steady: bool, ghost start: World, ghost w0: World, ghost trace0: seq<Event>)
      returns (outcome: Outcome, ghost w: World, ghost trace: seq<Event>)
      requires w0 == Exec(names, start, trace0) && w0.disk == State() && w0.run.Removing? && pending.Some?
      modifies this`pending
      ensures w == Exec(names, start, trace) && w.disk == State()
      ensures steady ==> outcome == Done
      ensures outcome != Failed
      ensures outcome == Done ==> pending == None
    {
      w, trace := w0, trace0;
      var files := pending.value.Keys;
      while files != {}
        invariant pending.Some? && pending.value.Keys == files
        invariant w == Exec(names, start, trace) && w == World(State(), w0.run)
        decreases files
      {
        if !steady { if * { return Crashed, w, trace; } }
        var name :| name in files;
        w, trace := UnlinkOne(names, name, start, w, trace);
        files := files - {name};
      }
      if !steady { if * { return Crashed, w, trace; } }
      assert pending == Some(map[]);
      w, trace := RemoveDirectory(names, start, w, trace);
      outcome := Done;
    }

    /**
     * `ensure_secret_files`: create every missing secret, keep every valid one, and stop at a malformed one. It too is a
     * run of the transition system, whatever names it is asked for.
     */
    method EnsureSecretFiles(names: seq<Name>, wanted: seq<Name>, generated: map<Name, string>, steady: bool)
      returns (outcome: Outcome, ghost trace: seq<Event>)
      requires forall n :: n in wanted ==> n in generated && IsSecret(generated[n])
      modifies this`active
      ensures State() == Exec(names, World(old(State()), Idle), trace).disk
      ensures IsSubmap(old(active), active)
      ensures forall n :: n in active ==> n in old(active) || (n in wanted && active[n] == generated[n])
      ensures steady ==> outcome != Crashed
      ensures steady ==> (outcome == Done <==> forall n :: n in wanted && n in old(active) ==> IsSecret(old(active)[n]))
      ensures outcome == Done ==> forall n :: n in wanted ==> n in active && IsSecret(active[n])
    {
      ghost var start := World(State(), Idle);
      ExecSnoc(names, start, [], BeginEnsure(wanted));
      trace := [BeginEnsure(wanted)];
      ghost var w := Perform(names, start, BeginEnsure(wanted));
      for i := 0 to |wanted|
        invariant w == Exec(names, start, trace) && w == World(State(), Ensuring(wanted, i))
        invariant IsSubmap(old(active), active)
        invariant forall n :: n in active ==> n in old(active) || (n in wanted && active[n] == generated[n])
        invariant forall j :: 0 <= j < i ==> wanted[j] in active && IsSecret(active[wanted[j]])
      {
        if !steady { if * { return Crashed, trace; } }
        var name := wanted[i];
        var e := if name in active then Advance else Write(generated[name]);
        ExecSnoc(names, start, trace, e);
        w, trace := Perform(names, w, e), trace + [e];
        if name in active && !IsSecret(active[name]) {
          return Failed, trace;
        }
        if name !in active {
          active := active[name := generated[name]];
        }
      }
      return Done, trace;
    }
  }
}
