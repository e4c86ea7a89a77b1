/** Server-side streaming: what a streaming dispatcher does to its StreamWriter, and what reaches the client. */
module Streams {
  import opened Bytes
  import opened Limits
  import opened Wire

  datatype Key = Key(object_: int, property: nat)

  /** What the service does to its transports: answer the connection being served, or notify the subscribers of a
      property. */
  datatype Event = Emit(m: ToClient) | PushTo(typeId: nat, key: Key, value: bytes)

  /** What user code does while it serves a request. */
  datatype Action = Write(chunk: bytes) | End | Abort | Push(object_: int, property: nat, value: bytes)

  datatype Ending = Returned | Threw(text: bytes)

  /** User code's whole reaction to one request: its actions in order, the response it leaves in the buffer, and
      whether it throws. A factory may also return no object. */
  datatype Reaction = Reaction(actions: seq<Action>, response: bytes, ending: Ending, made: bool)

  const UNKNOWN_METHOD: nat := 3
  // Error texts are not modelled.
  const WRITE_AFTER_END: bytes := []

  /** Which object notifications reach the subscription registry: those of live objects that are linked to it. */
  type Links = map<int, nat>

  function Pushes(links: Links, a: Action): seq<Event> {
    if a.Push? && a.object_ in links then [PushTo(links[a.object_], Key(a.object_, a.property), a.value)] else []
  }

  /** The events of a dispatcher body from a given writer state, and how it leaves: with the writer ended or not,
      and by a write-after-end exception or not. */
  datatype Body = Body(events: seq<Event>, ended: bool, threw: bool)

  function RunBody(links: Links, seqId: nat, actions: seq<Action>, ended: bool): Body
    decreases actions
  {
    if actions == [] then Body([], ended, false)
    else
      var rest := actions[1..];
      match actions[0]
      case Write(chunk) =>
        if ended then Body([], true, true) else Before([Emit(Stream(seqId, chunk))], RunBody(links, seqId, rest, ended))
      case End =>
        if ended then RunBody(links, seqId, rest, true) else Before([Emit(StreamEnd(seqId))], RunBody(links, seqId, rest, true))
      case Abort => RunBody(links, seqId, rest, true)
      case Push(_, _, _) => Before(Pushes(links, actions[0]), RunBody(links, seqId, rest, ended))
  }

  function Before(events: seq<Event>, b: Body): Body { b.(events := events + b.events) }

  /** Serving a streaming call: an exception aborts the writer and is answered by an error; otherwise the writer's
      destructor ends the stream if nobody has. */
  function StreamEvents(links: Links, seqId: nat, r: Reaction): seq<Event> {
    var body := RunBody(links, seqId, r.actions, false);
    body.events + Closing(seqId, body.ended, if body.threw then Threw(WRITE_AFTER_END) else r.ending)
  }

  function Closing(seqId: nat, ended: bool, ending: Ending): seq<Event> {
    match ending
    case Threw(text) => ErrorEvents(seqId, UNKNOWN_METHOD, text)
    case Returned => if ended then [] else [Emit(StreamEnd(seqId))]
  }

  /** create_error_message throws on a text over 1 MB: nothing is sent, and the connection's loop ends by that exception. */
  function ErrorEvents(seqId: nat, code: nat, text: bytes): seq<Event> {
    if |text| <= MAX_TEXT then [Emit(Error(seqId, code, text))] else []
  }

  /** The messages for the connection being served. */
  function Emits(events: seq<Event>): seq<ToClient> {
    if events == [] then []
    else (if events[0].Emit? then [events[0].m] else []) + Emits(events[1..])
  }

  lemma {:induction false} EmitsConcat(a: seq<Event>, b: seq<Event>)
    ensures Emits(a + b) == Emits(a) + Emits(b)
  {
    if a == [] {
      assert a + b == b;
    } else {
      EmitsConcat(a[1..], b);
      assert (a + b)[1..] == a[1..] + b;
      var first := if a[0].Emit? then [a[0].m] else [];
      assert Emits(a) == first + Emits(a[1..]) && Emits(a + b) == first + Emits(a[1..] + b);
      Assoc(first, Emits(a[1..]), Emits(b));
    }
  }

  // ---------------------------------------------------------------- what the client is sent

  /** The chunks written before the writer is first ended or aborted. */
  function Chunks(actions: seq<Action>): seq<bytes> {
    if actions == [] || actions[0].End? || actions[0].Abort? then []
    else (if actions[0].Write? then [actions[0].chunk] else []) + Chunks(actions[1..])
  }

  /** What follows the first end() or abort(). */
  function AfterStop(actions: seq<Action>): (r: seq<Action>)
    ensures r != [] ==> r[0].End? || r[0].Abort?
  {
    if actions == [] then []
    else if actions[0].End? || actions[0].Abort? then actions
    else AfterStop(actions[1..])
  }

  predicate WritesLater(actions: seq<Action>) {
    exists k :: 0 <= k < |actions| && actions[k].Write?
  }

  function ChunkMessages(seqId: nat, chunks: seq<bytes>): (r: seq<ToClient>)
    ensures |r| == |chunks|
  {
    if chunks == [] then [] else [Stream(seqId, chunks[0])] + ChunkMessages(seqId, chunks[1..])
  }

  /** The text of the exception that ends a dispatcher, if one does. */
  function FailText(r: Reaction): Option<bytes> {
    if WritesLater(AfterStop(r.actions)) then Some(WRITE_AFTER_END)
    else match r.ending case Threw(text) => Some(text) case Returned => None
  }

  predicate ErrorSent(r: Reaction) { FailText(r).Some? && |FailText(r).value| <= MAX_TEXT }

  /** The exception leaves the connection's loop instead of becoming an error reply. */
  predicate StreamEscapes(r: Reaction) { FailText(r).Some? && |FailText(r).value| > MAX_TEXT }

  /** The terminators a trace sends: a stream_end and/or an error, or none at all. */
  function Terminators(seqId: nat, r: Reaction): seq<ToClient> { EndMark(seqId, AfterStop(r.actions)) + CloseMark(seqId, r) }

  /** What is sent once the dispatcher is through. */
  function CloseMark(seqId: nat, r: Reaction): seq<ToClient> {
    if ErrorSent(r) then [Error(seqId, UNKNOWN_METHOD, FailText(r).value)]
    else if AfterStop(r.actions) == [] && FailText(r).None? then [StreamEnd(seqId)] else []
  }

  /** After the writer has ended only pushes get out. */
  lemma {:induction false} EndedBody(links: Links, seqId: nat, actions: seq<Action>)
    ensures var b := RunBody(links, seqId, actions, true);
            b.ended && Emits(b.events) == [] && (b.threw <==> WritesLater(actions))
  {
    if actions != [] {
      var tail := actions[1..];
      EndedBody(links, seqId, tail);
      PushesEmitNothing(links, actions[0], RunBody(links, seqId, tail, true).events);
      if !actions[0].Write? {
        LaterFromNext(actions);
      }
    }
  }

  lemma EmitsOne(m: ToClient, rest: seq<Event>)
    ensures Emits([Emit(m)] + rest) == [m] + Emits(rest)
  {
    assert ([Emit(m)] + rest)[1..] == rest;
  }

  lemma PushesEmitNothing(links: Links, a: Action, rest: seq<Event>)
    ensures Emits(Pushes(links, a) + rest) == Emits(rest)
  {
    var p := Pushes(links, a);
    if p == [] {
      assert p + rest == rest;
    } else {
      assert (p + rest)[1..] == rest;
    }
  }

  /** The stream_end that a first end() sends. */
  function EndMark(seqId: nat, stop: seq<Action>): seq<ToClient> {
    if stop != [] && stop[0].End? then [StreamEnd(seqId)] else []
  }

  lemma {:induction false} BodyShape(links: Links, seqId: nat, actions: seq<Action>)
    ensures var b := RunBody(links, seqId, actions, false); var stop := AfterStop(actions);
            && Emits(b.events) == ChunkMessages(seqId, Chunks(actions)) + EndMark(seqId, stop)
            && (b.ended <==> stop != []) && (b.threw <==> WritesLater(stop))
  {
    if actions != [] {
      hide Pushes, WritesLater;
      var tail := actions[1..];
      match actions[0] {
        case Write(chunk) =>
          BodyShape(links, seqId, tail);
          EmitsOne(Stream(seqId, chunk), RunBody(links, seqId, tail, false).events);
          assert Chunks(actions)[1..] == Chunks(tail);
          Assoc([Stream(seqId, chunk)], ChunkMessages(seqId, Chunks(tail)), EndMark(seqId, AfterStop(tail)));
        case Push(_, _, _) =>
          BodyShape(links, seqId, tail);
          PushesEmitNothing(links, actions[0], RunBody(links, seqId, tail, false).events);
          assert Chunks(actions) == Chunks(tail);
        case End =>
          EndedBody(links, seqId, tail);
          EmitsOne(StreamEnd(seqId), RunBody(links, seqId, tail, true).events);
          LaterFromNext(actions);
        case Abort =>
          EndedBody(links, seqId, tail);
          LaterFromNext(actions);
      }
    }
  }

  lemma LaterFromNext(actions: seq<Action>)
    requires actions != [] && !actions[0].Write?
    ensures WritesLater(actions) <==> WritesLater(actions[1..])
  {
    if WritesLater(actions) {
      var k :| 0 <= k < |actions| && actions[k].Write?;
      assert actions[1..][k - 1].Write?;
    }
    if WritesLater(actions[1..]) {
      var k :| 0 <= k < |actions[1..]| && actions[1..][k].Write?;
      assert actions[k + 1].Write?;
    }
  }

  /** For every trace: the client is sent exactly the chunks written before the stream was ended, in order and
      empty ones included, and then the terminators. */
  lemma StreamShape(links: Links, seqId: nat, r: Reaction)
    ensures Emits(StreamEvents(links, seqId, r)) == ChunkMessages(seqId, Chunks(r.actions)) + Terminators(seqId, r)
  {
    hide Closing, WritesLater, AfterStop, Chunks, RunBody, CloseMark, ErrorSent, EndMark;
    var body := RunBody(links, seqId, r.actions, false);
    var ending := if body.threw then Threw(WRITE_AFTER_END) else r.ending;
    var closing := Closing(seqId, body.ended, ending);
    BodyShape(links, seqId, r.actions);
    ClosingShape(seqId, body.ended, ending, r);
    EmitsConcat(body.events, closing);
    Assoc(ChunkMessages(seqId, Chunks(r.actions)), EndMark(seqId, AfterStop(r.actions)), Emits(closing));
  }

  lemma ClosingShape(seqId: nat, ended: bool, ending: Ending, r: Reaction)
    requires ended <==> AfterStop(r.actions) != []
    requires ending == if WritesLater(AfterStop(r.actions)) then Threw(WRITE_AFTER_END) else r.ending
    ensures Emits(Closing(seqId, ended, ending)) == CloseMark(seqId, r)
  {
    hide WritesLater, AfterStop;
    var closing := Closing(seqId, ended, ending);
    if closing != [] {
      EmitsOne(closing[0].m, []);
      assert [closing[0]] + [] == closing;
    }
    assert Emits([]) == [];
  }

  /** The dispatcher discipline: never end() and then fail with an error that is sent, never abort() without such an
      error, and never fail otherwise with a text over 1 MB. */
  predicate Disciplined(r: Reaction) {
    var stop := AfterStop(r.actions);
    if stop == [] then !StreamEscapes(r) else if stop[0].End? then !ErrorSent(r) else ErrorSent(r)
  }

  /** Exactly one terminator is sent if and only if the dispatcher keeps that discipline; the terminator is then
      the error when one is sent and stream_end otherwise. */
  lemma OneTerminatorIff(seqId: nat, r: Reaction)
    ensures |Terminators(seqId, r)| == 1 <==> Disciplined(r)
    ensures Disciplined(r) ==> (Terminators(seqId, r)[0].Error? <==> ErrorSent(r))
  {
  }

  /** end() followed by a throw sends two terminators; abort() followed by a normal return, or a throw with a text over
      1 MB, sends none. */
  lemma UndisciplinedExamples(seqId: nat, long: bytes)
    requires |long| > MAX_TEXT
    ensures Terminators(seqId, Reaction([End], [], Threw([]), true)) == [StreamEnd(seqId), Error(seqId, UNKNOWN_METHOD, [])]
    ensures Terminators(seqId, Reaction([Abort], [], Returned, true)) == []
    ensures Terminators(seqId, Reaction([], [], Threw(long), true)) == []
  {
    assert [End][0] == End && [Abort][0] == Abort;
    var e, a := [End], [Abort];
    assert AfterStop(e) == e && AfterStop(a) == a;
    assert !WritesLater(e) && !WritesLater(a) && !WritesLater([]);
  }

  // ---------------------------------------------------------------- the writer itself

  /** Where a connection's messages and the notifications go, in the order they are sent. */
  class Sink {
    var events: seq<Event>

    constructor ()
      ensures events == []
    {
      events := [];
    }

    method Send(e: Event)
      modifies this
      ensures events == old(events) + [e]
    {
      events := events + [e];
    }
  }

  class StreamWriter {
    var sink: Sink
    var sequenceId: nat
    var ended: bool

    constructor (sink: Sink, sequenceId: nat)
      ensures this.sink == sink && this.sequenceId == sequenceId && !ended
    {
      this.sink, this.sequenceId, this.ended := sink, sequenceId, false;
    }

    /** False is the "cannot write after stream ended" exception. */
    method Write(chunk: bytes) returns (ok: bool)
      modifies sink
      ensures ok == !ended
      ensures sink.events == old(sink.events) + if ok then [Emit(Stream(sequenceId, chunk))] else []
    {
      if ended {
        return false;
      }
      sink.Send(Emit(Stream(sequenceId, chunk)));
      ok := true;
    }

    method Abort()
      modifies this`ended
      ensures ended
    {
      ended := true;
    }

    /** Also what the destructor runs. */
    method End()
      modifies this`ended, sink
      ensures ended
      ensures sink.events == old(sink.events) + if old(ended) then [] else [Emit(StreamEnd(sequenceId))]
    {
      if ended {
        return;
      }
      ended := true;
      sink.Send(Emit(StreamEnd(sequenceId)));
    }

    /** Move assignment: the old stream is ended first, and the source never ends the stream a second time. */
    method MoveFrom(other: StreamWriter)
      modifies this, other`ended, sink
      ensures this != other ==> sink == old(other.sink) && sequenceId == old(other.sequenceId) && ended == old(other.ended) && other.ended
      ensures this != other ==> old(sink).events == old(sink.events) + if old(ended) then [] else [Emit(StreamEnd(old(sequenceId)))]
      ensures this == other ==> sink == old(sink) && ended == old(ended) && sink.events == old(sink.events)
    {
      if this != other {
        End();
        sink, sequenceId, ended := other.sink, other.sequenceId, other.ended;
        other.ended := true;
      }
    }
  }

  /** The chunks of a finished stream, read one by one. */
  class StreamReader {
    const sequenceId: nat
    var chunks: seq<bytes>
    var index: nat
    var complete: bool

    constructor (sequenceId: nat)
      ensures this.sequenceId == sequenceId && chunks == [] && index == 0 && !complete
    {
      this.sequenceId, chunks, index, complete := sequenceId, [], 0, false;
    }

    method AddChunk(chunk: bytes)
      modifies this`chunks
      ensures chunks == old(chunks) + [chunk]
    {
      chunks := chunks + [chunk];
    }

    method SetComplete()
      modifies this`complete
      ensures complete
    {
      complete := true;
    }

    predicate Next()
      reads this
    {
      index < |chunks|
    }

    /** None is the "no chunk available" exception. */
    method Chunk() returns (c: Option<bytes>)
      modifies this`index
      ensures c == if old(Next()) then Some(chunks[old(index)]) else None
      ensures index == old(index) + if c.Some? then 1 else 0
    {
      if index >= |chunks| {
        return None;
      }
      c := Some(chunks[index]);
      index := index + 1;
    }
  }

  /** The loop every caller of a reader writes: it yields the remaining chunks in order. */
  method ReadAll(reader: StreamReader) returns (got: seq<bytes>)
    requires reader.index <= |reader.chunks|
    modifies reader`index
    ensures got == reader.chunks[old(reader.index)..] && !reader.Next()
  {
    got := [];
    ghost var start := reader.index;
    while reader.Next()
      invariant start <= reader.index <= |reader.chunks| && got == reader.chunks[start..reader.index]
      decreases |reader.chunks| - reader.index
    {
      var c := reader.Chunk();
      got := got + [c.value];
    }
  }

  lemma Assoc<T>(a: seq<T>, b: seq<T>, c: seq<T>)
    ensures (a + b) + c == a + (b + c)
    ensures a + [] == a && [] + c == c
  {
  }

  /** Running a dispatcher with a writer, as handle_message does. */
  method ServeStream(sink: Sink, links: Links, seqId: nat, r: Reaction) returns (escaped: bool)
    modifies sink
    ensures sink.events == old(sink.events) + StreamEvents(links, seqId, r) && escaped == StreamEscapes(r)
  {
    var writer := new StreamWriter(sink, seqId);
    ghost var start := sink.events;
    ghost var body := RunBody(links, seqId, r.actions, false);
    var threw := false;
    var i := 0;
    assert r.actions[0..] == r.actions;
    while i < |r.actions|
      invariant 0 <= i <= |r.actions| && writer.sink == sink && writer.sequenceId == seqId && !threw
      invariant var rest := RunBody(links, seqId, r.actions[i..], writer.ended);
                && start + body.events == sink.events + rest.events
                && body.ended == rest.ended && body.threw == rest.threw
    {
      assert r.actions[i..][1..] == r.actions[i + 1..];
      ghost var sent, next := sink.events, r.actions[i + 1..];
      var a := r.actions[i];
      match a {
        case Write(chunk) =>
          Assoc(sent, [Emit(Stream(seqId, chunk))], RunBody(links, seqId, next, false).events);
          var ok := writer.Write(chunk);
          if !ok {
            threw := true;
            break;
          }
        case End =>
          Assoc(sent, [Emit(StreamEnd(seqId))], RunBody(links, seqId, next, true).events);
          writer.End();
        case Abort => writer.Abort();
        case Push(o, p, v) =>
          Assoc(sent, Pushes(links, a), RunBody(links, seqId, next, writer.ended).events);
          if o in links {
            sink.Send(PushTo(links[o], Key(o, p), v));
          }
      }
      i := i + 1;
    }
    var ending := if threw then Threw(WRITE_AFTER_END) else r.ending;
    BodyShape(links, seqId, r.actions);
    assert start + body.events == sink.events;
    Assoc(start, body.events, Closing(seqId, body.ended, ending));
    escaped := CloseStream(sink, writer, ending);
  }

  /** The exception handler and the writer's destructor; true when the handler itself throws. */
  method CloseStream(sink: Sink, writer: StreamWriter, ending: Ending) returns (escaped: bool)
    requires writer.sink == sink
    modifies sink, writer
    ensures sink.events == old(sink.events) + Closing(writer.sequenceId, old(writer.ended), ending)
    ensures writer.sequenceId == old(writer.sequenceId)
    ensures escaped <==> ending.Threw? && |ending.text| > MAX_TEXT
  {
    escaped := false;
    match ending {
      case Threw(text) =>
        writer.Abort();
        if |text| > MAX_TEXT {
          return true;
        }
        sink.Send(Emit(Error(writer.sequenceId, UNKNOWN_METHOD, text)));
      case Returned => writer.End();
    }
  }
}
