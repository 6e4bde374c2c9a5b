/**
 * Rotating the database passwords: a transition system over the database roles, the active secret files and the
 * pending directory, in which a run under the lock may stop between any two steps.
 */
module Rotation {
  import opened Prelude
  import Hex

  type Name = string

  /** The 64 lower-case hexadecimal digits every secret consists of. */
  predicate IsSecret(s: string) {
    |s| == 64 && forall i :: 0 <= i < |s| ==> '0' <= s[i] <= '9' || 'a' <= s[i] <= 'f'
  }

  /** What survives a crash: role passwords, active files, and the pending directory with its files, if it exists. */
  datatype Disk = Disk(db: map<Name, string>, active: map<Name, string>, pending: Option<map<Name, string>>)

  /** What the process holding the lock is about to do. */
  datatype Run =
    | Idle
    | Inspected
    | Generating(values: map<Name, string>, n: nat)
    | Prepared(values: map<Name, string>)
    | Publishing(values: map<Name, string>, n: nat)
    | Removing(published: bool)
    | Ensuring(wanted: seq<Name>, n: nat)

  datatype World = World(disk: Disk, run: Run)

  /** How the database call ends: its transaction may commit and the call still be reported as failed. */
  datatype Reply = Committed | CommittedButFailed | Rejected

  datatype Event =
    | BeginRotation
    | BeginEnsure(wanted: seq<Name>)
    | Crash
    | Raise
    | Advance
    | Write(text: string)
    | Answer(reply: Reply)
    | Unlink(name: Name)

  predicate Complete(names: seq<Name>, pending: Option<map<Name, string>>) {
    pending.Some? && forall n :: n in names ==> n in pending.value && IsSecret(pending.value[n])
  }

  function Candidates(names: seq<Name>, files: map<Name, string>): map<Name, string>
    requires forall n :: n in names ==> n in files
  {
    map n | n in names :: files[n]
  }

  /** One step of the world; an event that is not enabled changes nothing. */
  function Perform(names: seq<Name>, w: World, e: Event): World {
    match e
    case BeginRotation => if w.run.Idle? then w.(run := Inspected) else w
    case BeginEnsure(wanted) => if w.run.Idle? then w.(run := Ensuring(wanted, 0)) else w
    case Crash => w.(run := Idle)
    case Raise => w.(run := if w.run.Generating? then Removing(false) else Idle)
    case Advance => PerformAdvance(names, w)
    case Write(text) => PerformWrite(names, w, text)
    case Answer(reply) =>
      if !w.run.Prepared? then w
      else if reply == Rejected then w.(run := Idle)
      else World(w.disk.(db := w.disk.db + w.run.values), if reply == Committed then Publishing(w.run.values, 0) else Idle)
    case Unlink(name) =>
      if w.run.Removing? && w.disk.pending.Some? then w.(disk := w.disk.(pending := Some(w.disk.pending.value - {name})))
      else w
  }

  function PerformAdvance(names: seq<Name>, w: World): World {
    match w.run
    case Inspected =>
      if w.disk.pending == None then World(w.disk.(pending := Some(map[])), Generating(map[], 0))
      else if Complete(names, w.disk.pending) then w.(run := Prepared(Candidates(names, w.disk.pending.value)))
      else w.(run := Idle)
    case Generating(values, n) => if n == |names| then w.(run := Prepared(values)) else w
    case Publishing(values, n) =>
      if n == |names| then w.(run := Removing(true))
      else if n < |names| && names[n] in values then
        World(w.disk.(active := w.disk.active[names[n] := values[names[n]]]), Publishing(values, n + 1))
      else w
    case Removing(_) =>
      if w.disk.pending == Some(map[]) then World(w.disk.(pending := None), Idle) else w
    case Ensuring(wanted, n) =>
      if n >= |wanted| then w.(run := Idle)
      else if wanted[n] !in w.disk.active then w
      else w.(run := if IsSecret(w.disk.active[wanted[n]]) then Ensuring(wanted, n + 1) else Idle)
    case _ => w
  }

  /** Writing a pending file creates it, possibly cut short, before it holds the whole value; an active file appears at once. */
  function PerformWrite(names: seq<Name>, w: World, text: string): World {
    match w.run
    case Generating(values, n) =>
      if n < |names| && w.disk.pending.Some? then
        var disk := w.disk.(pending := Some(w.disk.pending.value[names[n] := text]));
        World(disk, if IsSecret(text) then Generating(values[names[n] := text], n + 1) else w.run)
      else w
    case Ensuring(wanted, n) =>
      if n < |wanted| && wanted[n] !in w.disk.active && IsSecret(text) then
        World(w.disk.(active := w.disk.active[wanted[n] := text]), Ensuring(wanted, n + 1))
      else w
    case _ => w
  }

  function Exec(names: seq<Name>, w: World, events: seq<Event>): World {
    if events == [] then w
    else Perform(names, Exec(names, w, events[..|events| - 1]), events[|events| - 1])
  }

  // ----- safety

  predicate Holds(names: seq<Name>, files: map<Name, string>, db: map<Name, string>) {
    forall n :: n in names ==> n in files && n in db && files[n] == db[n]
  }

  /** The operator can reach the database: the active files, or else a complete pending set, hold its passwords. */
  predicate Safe(names: seq<Name>, disk: Disk) {
    Holds(names, disk.active, disk.db)
    || (Complete(names, disk.pending) && Holds(names, disk.pending.value, disk.db))
  }

  predicate Present(names: seq<Name>, files: map<Name, string>) {
    forall n :: n in names ==> n in files
  }

  /** What is true of the world at each stage of the run that holds the lock. */
  predicate Inv(names: seq<Name>, w: World) {
    var d := w.disk;
    && Present(names, d.active)
    && match w.run
       case Idle => Safe(names, d)
       case Inspected => Safe(names, d)
       case Ensuring(_, _) => Safe(names, d)
       case Generating(values, n) =>
         && Holds(names, d.active, d.db) && d.pending.Some? && n <= |names|
         && (forall i :: 0 <= i < n ==> names[i] in values && names[i] in d.pending.value
                                        && d.pending.value[names[i]] == values[names[i]] && IsSecret(values[names[i]]))
         && forall i :: n <= i < |names| && names[i] in d.pending.value ==> !IsSecret(d.pending.value[names[i]])
       case Prepared(values) => Safe(names, d) && IsPending(names, d, values)
       case Publishing(values, n) =>
         && IsPending(names, d, values) && Holds(names, values, d.db) && n <= |names|
         && forall i :: 0 <= i < n ==> d.active[names[i]] == values[names[i]]
       case Removing(_) => Holds(names, d.active, d.db)
  }

  predicate IsPending(names: seq<Name>, d: Disk, values: map<Name, string>) {
    Complete(names, d.pending) && forall n :: n in names ==> n in values && values[n] == d.pending.value[n]
  }

  ghost predicate DistinctNames(names: seq<Name>) {
    forall i, j :: 0 <= i < j < |names| ==> names[i] != names[j]
  }

  lemma AdvanceKeepsInv(names: seq<Name>, w: World)
    requires Inv(names, w) && DistinctNames(names)
    ensures Inv(names, PerformAdvance(names, w))
  {
  }

  lemma WriteKeepsInv(names: seq<Name>, w: World, text: string)
    requires Inv(names, w) && DistinctNames(names)
    ensures Inv(names, PerformWrite(names, w, text))
  {
  }

  lemma StepKeepsInv(names: seq<Name>, w: World, e: Event)
    requires Inv(names, w) && DistinctNames(names)
    ensures Inv(names, Perform(names, w, e))
  {
    hide PerformAdvance, PerformWrite;
    match e
    case Advance => AdvanceKeepsInv(names, w);
    case Write(text) => WriteKeepsInv(names, w, text);
    case _ =>
  }

  lemma {:induction false} ExecKeepsInv(names: seq<Name>, w: World, events: seq<Event>)
    requires Inv(names, w) && DistinctNames(names)
    ensures Inv(names, Exec(names, w, events))
  {
    if events != [] {
      ExecKeepsInv(names, w, events[..|events| - 1]);
      StepKeepsInv(names, Exec(names, w, events[..|events| - 1]), events[|events| - 1]);
    }
  }

  /**
   * Starting with active files that are the database's passwords, no sequence of rotations, ensure runs, crashes,
   * failures and failed or falsely failed database calls ever reaches a state whose passwords are lost.
   */
  lemma PasswordsAreNeverLost(names: seq<Name>, disk: Disk, events: seq<Event>)
    requires DistinctNames(names) && Holds(names, disk.active, disk.db)
    ensures Safe(names, Exec(names, World(disk, Idle), events).disk)
  {
    ExecKeepsInv(names, World(disk, Idle), events);
  }

  /**
   * A complete pending set is reused, never regenerated: from any reachable state, the only events that change it
   * remove files from it, and only while the active files already hold the database's passwords.
   */
  lemma CompletePendingIsReused(names: seq<Name>, disk: Disk, events: seq<Event>, e: Event)
    requires DistinctNames(names) && Holds(names, disk.active, disk.db)
    ensures var w := Exec(names, World(disk, Idle), events);
            var w' := Perform(names, w, e);
            Complete(names, w.disk.pending) && w'.disk.pending != w.disk.pending ==>
              && Holds(names, w.disk.active, w.disk.db)
              && (w'.disk.pending == None || IsSubmap(w'.disk.pending.value, w.disk.pending.value))
  {
    ExecKeepsInv(names, World(disk, Idle), events);
  }

  predicate IsSubmap(a: map<Name, string>, b: map<Name, string>) {
    forall n :: n in a ==> n in b && a[n] == b[n]
  }

  /** Under the same lock, making sure of secret files only ever adds missing ones. */
  lemma EnsureOnlyAdds(names: seq<Name>, w: World, e: Event)
    requires w.run.Ensuring?
    ensures var d := Perform(names, w, e).disk;
            d.db == w.disk.db && d.pending == w.disk.pending && IsSubmap(w.disk.active, d.active)
  {
  }

  /** A secret is what 32 bytes are written as in lower-case hexadecimal. */
  lemma SecretIff(s: string)
    ensures IsSecret(s) <==> exists bytes: seq<Hex.Byte> :: |bytes| == 32 && Hex.HexOf(bytes) == s
  {
    if IsSecret(s) {
      var bytes := Hex.HexIsWritten(s);
    }
    forall bytes: seq<Hex.Byte> | |bytes| == 32 && Hex.HexOf(bytes) == s
      ensures IsSecret(s)
    {
      Hex.WrittenIsHex(bytes);
    }
  }
}
