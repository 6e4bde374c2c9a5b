/** Following one answer through a session's stream, across reconnections. */
module Stream {
  import opened Prelude

  /** A message id as it appears in a part: missing, a string, or another value with its rendering. */
  datatype Id = Missing | Named(name: string) | Odd(rendered: string)

  datatype Part =
    | Start(id: Id, inputs: seq<string>)
    | InputFailed(input: string, reason: string)
    | TextDelta(text: string)
    | Error(reason: string)
    | Interaction(question: Option<string>)
    | Finish
    | Other

  /** A line of the stream, decoded. */
  datatype Line = Skip | Sentinel | Cursor(seqno: nat) | Carries(part: Part)

  /** What has been seen of the response to one input. */
  datatype Reading = Reading(
    inputId: string, responseId: Option<string>, reading: bool, over: bool,
    parts: nat, chunks: seq<string>, errors: seq<string>, pending: Option<string>)

  function Begin(inputId: string): Reading {
    Reading(inputId, None, false, false, 0, [], [], None)
  }

  function Rendered(id: Id): string {
    match id
    case Missing => ""
    case Named(name) => name
    case Odd(rendered) => rendered
  }

  function Take(a: Reading, p: Part): Reading {
    match p
    case Start(id, inputs) =>
      var response := if a.inputId in inputs then Some(Rendered(id)) else a.responseId;
      a.(responseId := response, reading := response.Some? && id == Named(response.value))
    case InputFailed(input, reason) =>
      if input == a.inputId then a.(errors := a.errors + [reason], over := true) else a
    case _ =>
      if !a.reading then a
      else
        var a := a.(parts := a.parts + 1);
        match p
        case TextDelta(text) => a.(chunks := a.chunks + [text])
        case Error(reason) => a.(errors := a.errors + [reason])
        case Interaction(question) => if question.Some? then a.(pending := question) else a
        case Finish => a.(reading := false, over := true)
        case _ => a
  }

  /** One fold of `Take` over a log, up to the part that ends the answer. */
  function Fold(a: Reading, log: seq<Part>): Reading
    decreases |log|
  {
    if a.over || log == [] then a else Fold(Take(a, log[0]), log[1..])
  }

  /** One connection: its lines up to the sentinel or the end of the answer, and the position to resume from. */
  function ReadLines(a: Reading, position: nat, lines: seq<Line>): (Reading, nat)
    decreases |lines|
  {
    if lines == [] then (a, position)
    else
      match lines[0]
      case Skip => ReadLines(a, position, lines[1..])
      case Sentinel => (a, position)
      case Cursor(n) => ReadLines(a, if n != 0 then n else position, lines[1..])
      case Carries(p) =>
        var a' := Take(a, p);
        if a'.over then (a', position) else ReadLines(a', position, lines[1..])
  }

  /** A connection, and whether it broke off: a refusal, a transport error, or the deadline. */
  datatype Connection = Connection(lines: seq<Line>, failed: bool)

  /** Connection after connection until the answer is over; `None` when one fails first, or none is left. */
  function Follow(a: Reading, position: nat, connections: seq<Connection>): Option<Reading>
    decreases |connections|
  {
    if a.over then Some(a)
    else if connections == [] then None
    else
      var (a', position') := ReadLines(a, position, connections[0].lines);
      if connections[0].failed && !a'.over then None else Follow(a', position', connections[1..])
  }

  // ----- what the deployment promises of a connection

  /** The parts a connection carries before its sentinel. */
  function PartsOf(lines: seq<Line>): seq<Part> {
    if lines == [] || lines[0].Sentinel? then []
    else (if lines[0].Carries? then [lines[0].part] else []) + PartsOf(lines[1..])
  }

  /** The position its cursors leave a reader at who came from `position`. */
  function CursorOf(lines: seq<Line>, position: nat): nat {
    if lines == [] || lines[0].Sentinel? then position
    else CursorOf(lines[1..], if lines[0].Cursor? && lines[0].seqno != 0 then lines[0].seqno else position)
  }

  /**
   * The connections cut the log, from `position` on, at `cuts`: each carries the parts from the previous cut to its own,
   * and its last cursor covers what it carried (the last connection's need not).
   */
  ghost predicate CutsLog(log: seq<Part>, position: nat, connections: seq<Connection>, cuts: seq<nat>)
    decreases |connections|
  {
    && |cuts| == |connections|
    && (connections != [] ==>
          && position <= cuts[0] <= |log|
          && PartsOf(connections[0].lines) == log[position..cuts[0]]
          && (|connections| > 1 ==> CursorOf(connections[0].lines, position) == cuts[0])
          && CutsLog(log, cuts[0], connections[1..], cuts[1..]))
  }

  /** The lines a connection is read to: those before its sentinel. */
  lemma {:induction false} SentinelEnds(before: seq<Line>, after: seq<Line>, position: nat)
    requires Sentinel !in before
    ensures PartsOf(before + [Sentinel] + after) == PartsOf(before)
    ensures CursorOf(before + [Sentinel] + after, position) == CursorOf(before, position)
    decreases |before|
  {
    var all := before + [Sentinel] + after;
    if before != [] {
      assert all[1..] == before[1..] + [Sentinel] + after;
      SentinelEnds(before[1..], after, if before[0].Cursor? && before[0].seqno != 0 then before[0].seqno else position);
    }
  }

  /** One more line before any sentinel: a part is carried, a cursor moves the position unless it is zero. */
  lemma {:induction false} OneMoreLine(before: seq<Line>, l: Line, position: nat)
    requires Sentinel !in before && l != Sentinel
    ensures PartsOf(before + [l]) == PartsOf(before) + if l.Carries? then [l.part] else []
    ensures CursorOf(before + [l], position) ==
            if l.Cursor? && l.seqno != 0 then l.seqno else CursorOf(before, position)
    decreases |before|
  {
    var all := before + [l];
    if before != [] {
      assert all[1..] == before[1..] + [l];
      OneMoreLine(before[1..], l, if before[0].Cursor? && before[0].seqno != 0 then before[0].seqno else position);
    } else {
      assert all[1..] == [];
    }
  }

  lemma {:induction false} FoldSplits(a: Reading, x: seq<Part>, y: seq<Part>)
    ensures Fold(a, x + y) == Fold(Fold(a, x), y)
    decreases |x|
  {
    if x == [] {
      assert x + y == y;
    } else if !a.over {
      assert (x + y)[1..] == x[1..] + y;
      FoldSplits(Take(a, x[0]), x[1..], y);
    }
  }

  /** Reading a connection folds over the parts it carries; unless the answer ends, it resumes where the cursors say. */
  lemma {:induction false} ReadingFolds(a: Reading, position: nat, lines: seq<Line>)
    requires !a.over
    ensures var (a', position') := ReadLines(a, position, lines);
            a' == Fold(a, PartsOf(lines)) && (!a'.over ==> position' == CursorOf(lines, position))
    decreases |lines|
  {
    if lines == [] || lines[0].Sentinel? {
      assert Fold(a, []) == a;
    } else {
      match lines[0]
      case Skip =>
        assert [] + PartsOf(lines[1..]) == PartsOf(lines[1..]);
        ReadingFolds(a, position, lines[1..]);
      case Cursor(n) =>
        assert [] + PartsOf(lines[1..]) == PartsOf(lines[1..]);
        ReadingFolds(a, if n != 0 then n else position, lines[1..]);
      case Carries(p) =>
        assert ([p] + PartsOf(lines[1..]))[1..] == PartsOf(lines[1..]);
        if !Take(a, p).over {
          ReadingFolds(Take(a, p), position, lines[1..]);
        }
    }
  }

  /** All the parts that connections carry, one connection after the other. */
  function Delivered(connections: seq<Connection>): seq<Part> {
    if connections == [] then [] else PartsOf(connections[0].lines) + Delivered(connections[1..])
  }

  /** The connections read at all: up to the first that failed, which is read as far as it goes. */
  function Usable(connections: seq<Connection>): seq<Connection> {
    if connections == [] then []
    else if connections[0].failed then [connections[0]]
    else [connections[0]] + Usable(connections[1..])
  }

  lemma DeliveredBy(first: Connection, rest: seq<Connection>)
    ensures Delivered([first] + rest) == PartsOf(first.lines) + Delivered(rest)
  {
    assert ([first] + rest)[1..] == rest;
  }

  /**
   * Whatever the connections carry: an answer is followed to its end exactly when what they deliver, up to the first
   * that failed, ends it; it is then one fold over all of it.
   */
  lemma {:induction false} FollowingFolds(a: Reading, position: nat, connections: seq<Connection>)
    ensures Follow(a, position, connections).Some? <==> Fold(a, Delivered(Usable(connections))).over
    ensures Follow(a, position, connections).Some? ==>
              && Follow(a, position, connections).value.over
              && Follow(a, position, connections).value == Fold(a, Delivered(connections)) == Fold(a, Delivered(Usable(connections)))
    decreases |connections|
  {
    hide ReadLines, PartsOf;
    if !a.over && connections != [] {
      var first, rest := connections[0], connections[1..];
      var (a', position') := ReadLines(a, position, first.lines);
      ReadingFolds(a, position, first.lines);
      assert connections == [first] + rest;
      DeliveredBy(first, rest);
      DeliveredBy(first, []);
      DeliveredBy(first, Usable(rest));
      FoldSplits(a, PartsOf(first.lines), Delivered(rest));
      FoldSplits(a, PartsOf(first.lines), Delivered(Usable(rest)));
      FoldSplits(a, PartsOf(first.lines), []);
      assert Delivered([]) == [];
      FollowingFolds(a', position', rest);
    }
  }

  lemma {:induction false} UsableCutsLog(log: seq<Part>, position: nat, connections: seq<Connection>, cuts: seq<nat>)
    requires position <= |log| && CutsLog(log, position, connections, cuts)
    ensures |Usable(connections)| <= |connections| == |cuts|
    ensures CutsLog(log, position, Usable(connections), cuts[..|Usable(connections)|])
    decreases |connections|
  {
    hide PartsOf, CursorOf;
    if connections != [] && !connections[0].failed {
      UsableCutsLog(log, cuts[0], connections[1..], cuts[1..]);
      var n := |Usable(connections[1..])|;
      assert cuts[..n + 1][1..] == cuts[1..][..n];
      assert Usable(connections)[1..] == Usable(connections[1..]);
    }
  }

  /** Connections that cut a log deliver it up to the last cut, each part once. */
  lemma {:induction false} CutsDeliverOnce(log: seq<Part>, position: nat, connections: seq<Connection>, cuts: seq<nat>)
    returns (end: nat)
    requires position <= |log| && CutsLog(log, position, connections, cuts)
    ensures position <= end <= |log| && Delivered(connections) == log[position..end]
    decreases |connections|
  {
    if connections == [] {
      end := position;
    } else {
      end := CutsDeliverOnce(log, cuts[0], connections[1..], cuts[1..]);
      assert log[position..end] == log[position..cuts[0]] + log[cuts[0]..end];
    }
  }

  /**
   * Cut into connections whose last cursors cover what they carried, a log is folded once from the first position, as
   * far as the connections that could be read deliver it.
   */
  lemma CutsFoldTheLog(a: Reading, log: seq<Part>, position: nat, connections: seq<Connection>, cuts: seq<nat>) returns (end: nat)
    requires position <= |log| && CutsLog(log, position, connections, cuts)
    ensures position <= end <= |log| && Delivered(Usable(connections)) == log[position..end]
    ensures Follow(a, position, connections).Some? <==> Fold(a, log[position..end]).over
    ensures Follow(a, position, connections).Some? ==>
              Follow(a, position, connections).value == Fold(a, log[position..]) && Fold(a, log[position..]).over
  {
    hide Follow, Fold, CutsLog, Delivered, Usable;
    FollowingFolds(a, position, connections);
    UsableCutsLog(log, position, connections, cuts);
    end := CutsDeliverOnce(log, position, Usable(connections), cuts[..|Usable(connections)|]);
    assert log[position..] == log[position..end] + log[end..];
    FoldSplits(a, log[position..end], log[end..]);
    OverStaysOver(Fold(a, log[position..end]), log[end..]);
  }

  lemma OverStaysOver(a: Reading, log: seq<Part>)
    ensures a.over ==> Fold(a, log) == a
  {
  }

  /**
   * However a log is cut into connections, the answer is the same: readers that get equally far both follow it to its
   * end or neither does, and whoever does has one fold over the log up to the first part that ends it.
   */
  lemma ReconnectionsDoNotMatter(
    inputId: string, log: seq<Part>, position: nat,
    first: seq<Connection>, firstCuts: seq<nat>, second: seq<Connection>, secondCuts: seq<nat>)
    requires position <= |log|
    requires CutsLog(log, position, first, firstCuts) && CutsLog(log, position, second, secondCuts)
    ensures var a, b := Follow(Begin(inputId), position, first), Follow(Begin(inputId), position, second);
            && (Delivered(Usable(first)) == Delivered(Usable(second)) ==> a == b)
            && (a.Some? ==> a.value == Fold(Begin(inputId), log[position..]))
            && (a.Some? && b.Some? ==> a == b)
  {
    hide Follow, Fold, CutsLog, Delivered, Usable;
    var _ := CutsFoldTheLog(Begin(inputId), log, position, first, firstCuts);
    var _ := CutsFoldTheLog(Begin(inputId), log, position, second, secondCuts);
  }

  // ----- what the fold collects, said of the log itself

  /** The last `start` before `n`. */
  function LastStart(log: seq<Part>, n: nat): (j: Option<nat>)
    requires n <= |log|
    ensures j.Some? ==> j.value < n && log[j.value].Start?
    ensures forall k :: (if j.Some? then j.value < k else 0 <= k) && k < n ==> !log[k].Start?
  {
    if n == 0 then None else if log[n - 1].Start? then Some(n - 1) else LastStart(log, n - 1)
  }

  /** The last `start` before `n` that lists the input. */
  function LastListing(log: seq<Part>, inputId: string, n: nat): (j: Option<nat>)
    requires n <= |log|
    ensures j.Some? ==> j.value < n && log[j.value].Start? && inputId in log[j.value].inputs
    ensures forall k :: (if j.Some? then j.value < k else 0 <= k) && k < n ==> !(log[k].Start? && inputId in log[k].inputs)
  {
    if n == 0 then None
    else if log[n - 1].Start? && inputId in log[n - 1].inputs then Some(n - 1)
    else LastListing(log, inputId, n - 1)
  }

  /** The part at `n` belongs to the response that answers the input: its `start` bears the id of one that lists it. */
  predicate Belongs(log: seq<Part>, inputId: string, n: nat)
    requires n <= |log|
  {
    var start, listing := LastStart(log, n), LastListing(log, inputId, n);
    start.Some? && listing.Some? && log[start.value].id == Named(Rendered(log[listing.value].id))
  }

  /**
   * Whose parts follow a `start`: those of the answer exactly when the start bears, as a text, the id of the last start
   * that lists the input; so a start that lists it begins the answer unless it bears no id, and a bare start of the same
   * id takes it up again.
   */
  lemma StartBelongs(log: seq<Part>, inputId: string, n: nat)
    requires n < |log| && log[n].Start?
    ensures inputId in log[n].inputs ==> (Belongs(log, inputId, n + 1) <==> log[n].id.Named?)
    ensures inputId !in log[n].inputs ==>
              (Belongs(log, inputId, n + 1) <==>
                 exists m :: 0 <= m < n && log[m].Start? && inputId in log[m].inputs
                             && (forall k :: m < k < n ==> !(log[k].Start? && inputId in log[k].inputs))
                             && log[n].id == Named(Rendered(log[m].id)))
    ensures Rendered(Missing) == "" && (forall name :: Rendered(Named(name)) == name) && (forall s :: Rendered(Odd(s)) == s)
  {
    var listing := LastListing(log, inputId, n);
    assert LastStart(log, n + 1) == Some(n);
  }

  /** Any other part leaves it as it is. */
  lemma OthersKeepBelonging(log: seq<Part>, inputId: string, n: nat)
    requires n < |log| && !log[n].Start?
    ensures Belongs(log, inputId, n + 1) == Belongs(log, inputId, n)
    ensures !Belongs(log, inputId, 0)
  {
  }

  /** The part at `n` ends the answer: the response finishes, or the input is refused. */
  predicate Ends(log: seq<Part>, inputId: string, n: nat)
    requires n < |log|
  {
    (log[n].Finish? && Belongs(log, inputId, n)) || (log[n].InputFailed? && log[n].input == inputId)
  }

  /** The text of the answer among the first `n` parts. */
  function Texts(log: seq<Part>, inputId: string, n: nat): seq<string>
    requires n <= |log|
  {
    if n == 0 then []
    else Texts(log, inputId, n - 1) +
         if log[n - 1].TextDelta? && Belongs(log, inputId, n - 1) then [log[n - 1].text] else []
  }

  function Errors(log: seq<Part>, inputId: string, n: nat): seq<string>
    requires n <= |log|
  {
    if n == 0 then []
    else Errors(log, inputId, n - 1) +
         if log[n - 1].Error? && Belongs(log, inputId, n - 1) then [log[n - 1].reason]
         else if log[n - 1].InputFailed? && log[n - 1].input == inputId then [log[n - 1].reason]
         else []
  }

  /** The question the answer last paused on among the first `n` parts. */
  function Question(log: seq<Part>, inputId: string, n: nat): Option<string>
    requires n <= |log|
  {
    if n == 0 then None
    else if log[n - 1].Interaction? && log[n - 1].question.Some? && Belongs(log, inputId, n - 1) then log[n - 1].question
    else Question(log, inputId, n - 1)
  }

  /** How many of the first `n` parts belong to the answer, its starts left out. */
  function Read(log: seq<Part>, inputId: string, n: nat): nat
    requires n <= |log|
  {
    if n == 0 then 0
    else
      var p := log[n - 1];
      Read(log, inputId, n - 1) + if !p.Start? && !p.InputFailed? && Belongs(log, inputId, n - 1) then 1 else 0
  }

  /** What a reader that has folded the first `n` parts, none of which ended the answer, holds. */
  ghost predicate Holds(a: Reading, log: seq<Part>, inputId: string, n: nat)
    requires n <= |log|
  {
    var listing := LastListing(log, inputId, n);
    && a.inputId == inputId && !a.over
    && a.responseId == (if listing.Some? then Some(Rendered(log[listing.value].id)) else None)
    && a.reading == Belongs(log, inputId, n)
    && a.chunks == Texts(log, inputId, n) && a.errors == Errors(log, inputId, n)
    && a.pending == Question(log, inputId, n) && a.parts == Read(log, inputId, n)
  }

  lemma TakeHolds(a: Reading, log: seq<Part>, inputId: string, n: nat)
    requires n < |log| && Holds(a, log, inputId, n)
    ensures var a' := Take(a, log[n]);
            && a'.chunks == Texts(log, inputId, n + 1) && a'.errors == Errors(log, inputId, n + 1)
            && a'.pending == Question(log, inputId, n + 1) && a'.parts == Read(log, inputId, n + 1)
            && (a'.over <==> Ends(log, inputId, n))
            && (!a'.over ==> Holds(a', log, inputId, n + 1))
  {
  }

  /**
   * The answer, said of the log: folding stops just after the first part that ends it, having collected exactly the
   * texts, errors and last question of the parts before that belong to the response whose `start` lists the input.
   */
  lemma {:induction false} FoldCollectsTheAnswer(a: Reading, log: seq<Part>, inputId: string, n: nat) returns (end: nat)
    requires n <= |log| && Holds(a, log, inputId, n)
    ensures n <= end <= |log|
    ensures var r := Fold(a, log[n..]);
            && r.chunks == Texts(log, inputId, end) && r.errors == Errors(log, inputId, end)
            && r.pending == Question(log, inputId, end) && r.parts == Read(log, inputId, end)
            && (forall k :: n <= k < end - 1 ==> !Ends(log, inputId, k))
            && (if r.over then n < end && Ends(log, inputId, end - 1)
                else end == |log| && forall k :: n <= k < end ==> !Ends(log, inputId, k))
    decreases |log| - n
  {
    hide Take, Belongs, Texts, Errors, Question, Read, Ends, LastListing;
    if n == |log| {
      end := n;
    } else {
      assert log[n..][0] == log[n] && log[n..][1..] == log[n + 1..];
      TakeHolds(a, log, inputId, n);
      var a' := Take(a, log[n]);
      if a'.over {
        end := n + 1;
      } else {
        end := FoldCollectsTheAnswer(a', log, inputId, n + 1);
      }
    }
  }

  lemma BeginHolds(log: seq<Part>, inputId: string)
    ensures Holds(Begin(inputId), log, inputId, 0)
  {
  }

  /**
   * End to end: however the log is cut into connections, the answer followed to its end is what the log says it is from
   * the starting position to the first part that ends it: the texts, errors and last question of the parts that belong
   * to the response whose `start` lists the input.
   */
  lemma FollowedAnswer(inputId: string, log: seq<Part>, position: nat, connections: seq<Connection>, cuts: seq<nat>)
    returns (end: nat)
    requires position <= |log| && CutsLog(log, position, connections, cuts)
    requires Follow(Begin(inputId), position, connections).Some?
    ensures position < end <= |log|
    ensures var answer, seen, n := Follow(Begin(inputId), position, connections).value, log[position..], end - position;
            && answer.over && Ends(seen, inputId, n - 1) && (forall k :: 0 <= k < n - 1 ==> !Ends(seen, inputId, k))
            && answer.chunks == Texts(seen, inputId, n) && answer.errors == Errors(seen, inputId, n)
            && answer.pending == Question(seen, inputId, n) && answer.parts == Read(seen, inputId, n)
  {
    hide Follow, Fold, Belongs, Texts, Errors, Question, Read, Ends, Holds, CutsLog;
    var seen := log[position..];
    var _ := CutsFoldTheLog(Begin(inputId), log, position, connections, cuts);
    BeginHolds(seen, inputId);
    assert seen[0..] == seen;
    var n := FoldCollectsTheAnswer(Begin(inputId), seen, inputId, 0);
    end := position + n;
  }

  /** An answer is followed to its end exactly when the connections that could be read deliver a part that ends it. */
  lemma AnswerIsReachedIff(inputId: string, log: seq<Part>, position: nat, connections: seq<Connection>, cuts: seq<nat>)
    requires position <= |log| && CutsLog(log, position, connections, cuts)
    ensures var seen := Delivered(Usable(connections));
            Follow(Begin(inputId), position, connections).Some? <==> exists k :: 0 <= k < |seen| && Ends(seen, inputId, k)
  {
    hide Follow, Fold, Belongs, Texts, Errors, Question, Read, Ends, Holds, CutsLog, Delivered, Usable;
    var _ := CutsFoldTheLog(Begin(inputId), log, position, connections, cuts);
    var seen := Delivered(Usable(connections));
    BeginHolds(seen, inputId);
    assert seen[0..] == seen;
    var end := FoldCollectsTheAnswer(Begin(inputId), seen, inputId, 0);
  }

  // ----- cursors that lag

  /** Each connection carries the log from where the reader stands to its own cut; its last cursor may lie behind that. */
  ghost predicate Replays(log: seq<Part>, position: nat, connections: seq<Connection>, cuts: seq<nat>)
    decreases |connections|
  {
    && |cuts| == |connections|
    && (connections != [] ==>
          && position <= cuts[0] <= |log|
          && PartsOf(connections[0].lines) == log[position..cuts[0]]
          && CursorOf(connections[0].lines, position) <= cuts[0]
          && Replays(log, CursorOf(connections[0].lines, position), connections[1..], cuts[1..]))
  }

  /** The log as it is then seen: what lies between each last cursor and its cut is there twice. */
  function Replayed(log: seq<Part>, position: nat, connections: seq<Connection>, cuts: seq<nat>): seq<Part>
    requires Replays(log, position, connections, cuts)
    decreases |connections|
  {
    if connections == [] then []
    else log[position..cuts[0]] + Replayed(log, CursorOf(connections[0].lines, position), connections[1..], cuts[1..])
  }

  lemma {:induction false} ReplaysDeliver(log: seq<Part>, position: nat, connections: seq<Connection>, cuts: seq<nat>)
    requires Replays(log, position, connections, cuts)
    ensures Delivered(connections) == Replayed(log, position, connections, cuts)
    decreases |connections|
  {
    hide PartsOf, CursorOf;
    if connections != [] {
      ReplaysDeliver(log, CursorOf(connections[0].lines, position), connections[1..], cuts[1..]);
    }
  }

  /** Wherever cursors lag, the answer is that of the log with the stretches behind them repeated. */
  lemma LaggingCursorsRepeat(inputId: string, log: seq<Part>, position: nat, connections: seq<Connection>, cuts: seq<nat>)
    requires Replays(log, position, connections, cuts) && Follow(Begin(inputId), position, connections).Some?
    ensures Follow(Begin(inputId), position, connections).value == Fold(Begin(inputId), Replayed(log, position, connections, cuts))
  {
    hide Follow, Fold, Replays, Replayed, Delivered;
    FollowingFolds(Begin(inputId), position, connections);
    ReplaysDeliver(log, position, connections, cuts);
  }

  predicate Lists(p: Part, inputId: string) {
    p.Start? && inputId in p.inputs
  }

  /** The response known after a stretch of the log. */
  function ResponseAfter(inputId: string, response: Option<string>, w: seq<Part>): Option<string> {
    if w == [] then response
    else if Lists(w[|w| - 1], inputId) then Some(Rendered(w[|w| - 1].id))
    else ResponseAfter(inputId, response, w[..|w| - 1])
  }

  /** Whether the response is being read after a stretch that does not end it. */
  function ReadingAfter(inputId: string, response: Option<string>, reading: bool, w: seq<Part>): bool {
    if w == [] then reading
    else if w[|w| - 1].Start? then
      var known := ResponseAfter(inputId, response, w);
      known.Some? && w[|w| - 1].id == Named(known.value)
    else ReadingAfter(inputId, response, reading, w[..|w| - 1])
  }

  lemma {:induction false} FoldGoesOn(a: Reading, w: seq<Part>)
    requires !Fold(a, w).over
    ensures !a.over && Fold(a, w).inputId == a.inputId
    ensures Fold(a, w).responseId == ResponseAfter(a.inputId, a.responseId, w)
    ensures Fold(a, w).reading == ReadingAfter(a.inputId, a.responseId, a.reading, w)
    decreases |w|
  {
    if w != [] {
      var v, p := w[..|w| - 1], w[|w| - 1];
      assert w == v + [p] && [p][1..] == [];
      FoldSplits(a, v, [p]);
      OverStaysOver(Fold(a, v), [p]);
      FoldGoesOn(a, v);
      assert Fold(a, w) == Take(Fold(a, v), p);
    }
  }

  lemma {:induction false} ResponseIsKnown(inputId: string, response: Option<string>, w: seq<Part>)
    ensures ResponseAfter(inputId, ResponseAfter(inputId, response, w), w) == ResponseAfter(inputId, response, w)
    ensures (forall p :: p in w ==> !Lists(p, inputId)) ==> ResponseAfter(inputId, response, w) == response
    decreases |w|
  {
    if w != [] && !Lists(w[|w| - 1], inputId) {
      ResponseIsKnown(inputId, response, w[..|w| - 1]);
      assert ResponseAfter(inputId, response, w) == ResponseAfter(inputId, response, w[..|w| - 1]);
    }
  }

  /** Going over a stretch a second time leaves the reader where the first time left it. */
  lemma {:induction false} ReadingIsKnown(inputId: string, response: Option<string>, reading: bool, w: seq<Part>)
    ensures ReadingAfter(inputId, ResponseAfter(inputId, response, w), ReadingAfter(inputId, response, reading, w), w)
         == ReadingAfter(inputId, response, reading, w)
    decreases |w|
  {
    if w != [] {
      ResponseIsKnown(inputId, response, w);
      if !w[|w| - 1].Start? {
        ReadingIsKnown(inputId, response, reading, w[..|w| - 1]);
      }
    }
  }

  lemma TakeAlike(a: Reading, b: Reading, p: Part)
    requires a.inputId == b.inputId && a.responseId == b.responseId && a.reading == b.reading && !a.over && !b.over
    ensures var a', b' := Take(a, p), Take(b, p);
            && a'.inputId == b'.inputId && a'.responseId == b'.responseId && a'.reading == b'.reading && a'.over == b'.over
            && a.chunks <= a'.chunks && b'.chunks == b.chunks + a'.chunks[|a.chunks|..]
            && a.errors <= a'.errors && b'.errors == b.errors + a'.errors[|a.errors|..]
  {
  }

  /** Readers in the same place collect the same from there on. */
  lemma {:induction false} CollectAlike(a: Reading, b: Reading, y: seq<Part>) returns (chunks: seq<string>, errors: seq<string>)
    requires !a.over && !b.over && a.inputId == b.inputId && a.responseId == b.responseId && a.reading == b.reading
    ensures Fold(a, y).chunks == a.chunks + chunks && Fold(b, y).chunks == b.chunks + chunks
    ensures Fold(a, y).errors == a.errors + errors && Fold(b, y).errors == b.errors + errors
    ensures Fold(a, y).over == Fold(b, y).over
    decreases |y|
  {
    hide Take;
    chunks, errors := [], [];
    if y != [] {
      var a', b' := Take(a, y[0]), Take(b, y[0]);
      TakeAlike(a, b, y[0]);
      chunks, errors := a'.chunks[|a.chunks|..], a'.errors[|a.errors|..];
      if !a'.over {
        var more, worse := CollectAlike(a', b', y[1..]);
        chunks, errors := chunks + more, errors + worse;
      }
    }
  }

  /**
   * When repeating a stretch matters: if it ends the answer, the answer ends there; otherwise its texts and errors are
   * those of the log without the repetition exactly when going over the stretch again adds none.
   */
  lemma RepetitionMattersIff(a: Reading, w: seq<Part>, y: seq<Part>)
    requires !Fold(a, w).over
    ensures var b := Fold(a, w);
            var c := Fold(b, w);
            if c.over then Fold(b, w + y) == c
            else
              && Fold(b, w + y).over == Fold(b, y).over
              && (Fold(b, w + y).chunks == Fold(b, y).chunks && Fold(b, w + y).errors == Fold(b, y).errors
                  <==> c.chunks == b.chunks && c.errors == b.errors)
  {
    hide Fold, ResponseAfter, ReadingAfter;
    var b := Fold(a, w);
    var c := Fold(b, w);
    FoldSplits(b, w, y);
    OverStaysOver(c, y);
    if !c.over {
      FoldGoesOn(a, w);
      FoldGoesOn(b, w);
      ResponseIsKnown(a.inputId, a.responseId, w);
      ReadingIsKnown(a.inputId, a.responseId, a.reading, w);
      var chunks, errors := CollectAlike(c, b, y);
      assert c.chunks + chunks == b.chunks + chunks ==> c.chunks == b.chunks by {
        SameBefore(c.chunks, b.chunks, chunks);
      }
      assert c.errors + errors == b.errors + errors ==> c.errors == b.errors by {
        SameBefore(c.errors, b.errors, errors);
      }
    }
  }

  lemma SameBefore(a: seq<string>, b: seq<string>, c: seq<string>)
    ensures a + c == b + c ==> a == b
  {
    if a + c == b + c {
      assert |a| == |b|;
      assert a == (a + c)[..|a|] && b == (b + c)[..|b|];
    }
  }

  const OTHERS := [TextDelta("z"), Finish, Start(Named("r"), ["i"])]

  /** A repeated stretch can end the answer early, with the text of another response. */
  lemma RepetitionEndsEarly()
    ensures var a := Take(Begin("i"), Start(Named("o"), []));
            var b := Fold(a, OTHERS);
            && !b.over && b.chunks == []
            && Fold(b, [TextDelta("a"), Finish]).chunks == ["a"]
            && Fold(b, OTHERS).over && Fold(b, OTHERS).chunks == ["z"]
  {
    assert OTHERS[1..] == [Finish, Start(Named("r"), ["i"])] && OTHERS[1..][1..] == [Start(Named("r"), ["i"])];
    assert OTHERS[1..][1..][1..] == [];
    var a := Take(Begin("i"), Start(Named("o"), []));
    var b := Fold(a, OTHERS);
    assert b == Take(a, OTHERS[2]) by {
      assert Fold(Take(a, OTHERS[2]), []) == Take(a, OTHERS[2]);
      assert Fold(a, OTHERS[1..][1..]) == Take(a, OTHERS[2]);
      assert Fold(a, OTHERS[1..]) == Fold(a, OTHERS[1..][1..]);
    }
    var own := [TextDelta("a"), Finish];
    assert own[1..] == [Finish] && own[1..][1..] == [];
    assert Fold(Take(b, own[0]), own[1..]) == Take(Take(b, own[0]), Finish);
    assert Fold(Take(b, OTHERS[0]), OTHERS[1..]) == Take(Take(b, OTHERS[0]), Finish);
  }

  /** A cursor that lags behind what was delivered makes the next connection deliver it twice. */
  lemma LaggingCursorRepeatsText()
    ensures var log := [Start(Named("r"), ["i"]), TextDelta("a"), Finish];
            var broken := Connection([Carries(log[0]), Carries(log[1]), Sentinel], false);
            var whole := Connection([Carries(log[0]), Carries(log[1]), Carries(log[2])], false);
            && PartsOf(broken.lines) == log[0..2] && CursorOf(broken.lines, 0) == 0
            && PartsOf(whole.lines) == log[0..3]
            && Fold(Begin("i"), log).chunks == ["a"]
            && Follow(Begin("i"), 0, [broken, whole]).Some?
            && Follow(Begin("i"), 0, [broken, whole]).value.chunks == ["a", "a"]
  {
    var log := [Start(Named("r"), ["i"]), TextDelta("a"), Finish];
    var broken := [Carries(log[0]), Carries(log[1]), Sentinel];
    var whole := [Carries(log[0]), Carries(log[1]), Carries(log[2])];
    assert broken[1..] == [Carries(log[1]), Sentinel] && broken[1..][1..] == [Sentinel];
    assert whole[1..] == [Carries(log[1]), Carries(log[2])] && whole[1..][1..] == [Carries(log[2])];
    assert log[1..] == [TextDelta("a"), Finish] && log[1..][1..] == [Finish];
    assert PartsOf(broken) == log[0..2] && CursorOf(broken, 0) == 0 by {
      assert PartsOf(broken[1..][1..]) == [] && CursorOf(broken[1..][1..], 0) == 0;
      assert PartsOf(broken[1..]) == [log[1]] + PartsOf(broken[1..][1..]);
      assert CursorOf(broken[1..], 0) == CursorOf(broken[1..][1..], 0);
    }
    assert PartsOf(whole) == log[0..3] by {
      assert PartsOf(whole[1..][1..][1..]) == [];
      assert PartsOf(whole[1..][1..]) == [log[2]] + PartsOf(whole[1..][1..][1..]);
      assert PartsOf(whole[1..]) == [log[1]] + PartsOf(whole[1..][1..]);
    }
    var a := Take(Take(Begin("i"), log[0]), log[1]);
    assert ReadLines(Begin("i"), 0, broken) == (a, 0) by {
      assert ReadLines(a, 0, broken[1..][1..]) == (a, 0);
      assert ReadLines(Take(Begin("i"), log[0]), 0, broken[1..]) == ReadLines(a, 0, broken[1..][1..]);
    }
    var b := Take(Take(a, log[0]), log[1]);
    assert ReadLines(a, 0, whole) == (Take(b, Finish), 0) by {
      assert ReadLines(b, 0, whole[1..][1..]) == (Take(b, Finish), 0);
      assert ReadLines(Take(a, log[0]), 0, whole[1..]) == ReadLines(b, 0, whole[1..][1..]);
    }
    var connections := [Connection(broken, false), Connection(whole, false)];
    assert connections[1..] == [Connection(whole, false)];
    assert Follow(Take(b, Finish), 0, connections[1..][1..]) == Some(Take(b, Finish));
    assert Fold(Begin("i"), log) == Take(a, Finish) by {
      assert Fold(a, log[1..][1..]) == Take(a, Finish);
      assert Fold(Take(Begin("i"), log[0]), log[1..]) == Fold(a, log[1..][1..]);
    }
  }
}
