/** The answer as an object each part updates, and the loop that reads connection after connection into it. */
module StreamReaders {
  import opened Prelude
  import opened Stream

  class Answer {
    const inputId: string
    var responseId: Option<string>
    var reading: bool
    var over: bool
    var parts: nat
    var chunks: seq<string>
    var errors: seq<string>
    var pending: Option<string>

    function View(): Reading
      reads this
    {
      Reading(inputId, responseId, reading, over, parts, chunks, errors, pending)
    }

    constructor (inputId: string)
      ensures View() == Begin(inputId)
    {
      this.inputId := inputId;
      responseId, reading, over, parts, chunks, errors, pending := None, false, false, 0, [], [], None;
    }

    method TakePart(p: Part)
      modifies this
      ensures View() == Take(old(View()), p)
    {
      if p.Start? {
        if inputId in p.inputs {
          responseId := Some(Rendered(p.id));
        }
        reading := responseId.Some? && p.id == Named(responseId.value);
        return;
      }
      if p.InputFailed? {
        if p.input == inputId {
          errors := errors + [p.reason];
          over := true;
        }
        return;
      }
      if !reading {
        return;
      }
      parts := parts + 1;
      match p {
        case TextDelta(text) => chunks := chunks + [text];
        case Error(reason) => errors := errors + [reason];
        case Interaction(question) =>
          if question.Some? {
            pending := question;
          }
        case Finish =>
          reading := false;
          over := true;
        case _ =>
      }
    }

    /** One connection: where to resume from, or `None` when it broke off before the answer was over. */
    method ReadStream(position: nat, connection: Connection) returns (next: Option<nat>)
      requires !over
      modifies this
      ensures var (a, p) := ReadLines(old(View()), position, connection.lines);
              View() == a && next == if connection.failed && !a.over then None else Some(p)
    {
      var lines := connection.lines;
      var at: nat := position;
      ghost var goal := ReadLines(View(), position, lines);
      var i := 0;
      while i < |lines|
        invariant 0 <= i <= |lines| && !over
        invariant goal == ReadLines(View(), at, lines[i..])
      {
        assert lines[i..][0] == lines[i] && lines[i..][1..] == lines[i + 1..];
        var line := lines[i];
        if line.Sentinel? {
          break;
        }
        i := i + 1;
        if line.Skip? {
          continue;
        }
        if line.Cursor? {
          at := if line.seqno != 0 then line.seqno else at;
          continue;
        }
        TakePart(line.part);
        if over {
          break;
        }
      }
      if connection.failed && !over {
        return None;
      }
      return Some(at);
    }
  }

  /** Reading until the answer is over; `None` when a connection breaks off, or no more is to come. */
  method SendTask(inputId: string, start: nat, connections: seq<Connection>) returns (result: Option<Reading>)
    ensures result == Follow(Begin(inputId), start, connections)
  {
    var answer := new Answer(inputId);
    var position: nat := start;
    var n := 0;
    while !answer.over
      invariant n <= |connections|
      invariant Follow(answer.View(), position, connections[n..]) == Follow(Begin(inputId), start, connections)
      decreases |connections| - n
    {
      if n == |connections| {
        return None;
      }
      assert connections[n..][0] == connections[n] && connections[n..][1..] == connections[n + 1..];
      var next := answer.ReadStream(position, connections[n]);
      if next == None {
        return None;
      }
      position := next.value;
      n := n + 1;
    }
    return Some(answer.View());
  }
}
