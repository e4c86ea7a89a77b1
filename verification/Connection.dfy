/** One connection as a protocol: a client that issues requests and waits, two FIFO channels, and the history of
    what was asked, answered, returned and notified. */
module Connection {
  import opened Bytes
  import opened Framing
  import opened Limits
  import opened Wire
  import opened Streams
  import opened Service
  import opened Client

  /** What the client is blocked on: the reply or the stream of its request number `index`. */
  datatype Pending = Idle | Unary(index: nat) | Streaming(index: nat)

  datatype Mode = Blocking | Streamed | OneWay

  /** The service's handling of one request: what was asked, how user code reacted, the state it was handled in, and
      the messages sent to the asking connection. */
  datatype Answered = Answered(request: Request, reaction: Reaction, server: Server, tracking: Tracking, outs: seq<ToClient>)

  /** A payload the client handed to its caller for request number `index`. */
  datatype Return = Return(index: nat, payload: bytes)

  /** `garbled` says that a receive has thrown on a message over the limit, which leaves the client reading from inside that
      message; `readBefore` is how many replies had been read when the latest request was issued. */
  datatype Conn = Conn(
    addr: nat, open: bool, escaped: bool,
    garbled: bool,
    pending: Pending, readBefore: nat,
    up: seq<ToServer>, down: seq<ToClient>,
    tracking: Tracking,
    issued: seq<Request>, answers: seq<Answered>, consumed: seq<ToClient>, returned: seq<Return>, chunks: seq<bytes>,
    pushed: seq<ToClient>, seen: seq<ToClient>, dispatched: seq<ToClient>)

  function NewConn(addr: nat): Conn {
    Conn(addr, true, false, false, Idle, 0, [], [], Tracking({}, {}), [], [], [], [], [], [], [], [])
  }

  /** The 32-bit sequence id of the k-th request of a connection (next_seq_ starts at 1 and wraps). */
  function SeqOf(k: nat): nat { (k + 1) % U32_COUNT }

  /** Client steps and deliveries do not touch the service's side of a connection. */
  predicate SameService(a: Conn, b: Conn) {
    a.addr == b.addr && a.open == b.open && a.escaped == b.escaped && a.tracking == b.tracking
  }

  // ---------------------------------------------------------------- client steps

  function Issue(c: Conn, request: Request, mode: Mode): (d: Conn)
    ensures SameService(c, d)
    requires c.pending.Idle?
  {
    var k := |c.issued|;
    c.(up := c.up + [Ask(SeqOf(k), request)], issued := c.issued + [request], chunks := [], readBefore := |c.consumed|,
       pending := match mode case Blocking => Unary(k) case Streamed => Streaming(k) case OneWay => Idle)
  }

  /** A call that throws without its reply. */
  function Fail(c: Conn): Conn { c.(pending := Idle) }

  /** The oldest message leaves the channel. */
  function Taken(c: Conn): (d: Conn)
    ensures SameService(c, d)
    requires c.down != []
  {
    var m := c.down[0];
    if m.Notify? then c.(down := c.down[1..], seen := c.seen + [m]) else c.(down := c.down[1..], consumed := c.consumed + [m])
  }

  /** receive throws behind the header of a message over the limit; only a size that wraps around could let it go on. */
  function Jammed(c: Conn): (d: Conn)
    ensures SameService(c, d)
    requires c.down != []
  {
    Taken(c).(garbled := true, pending := if Encodable(c.down[0]) then Idle else c.pending)
  }

  /** What the client does with whatever it reads from then on. */
  function Misread(c: Conn, m: ToClient): (d: Conn)
    ensures SameService(c, d)
    requires c.garbled
  {
    if c.pending.Unary? then OnReply(c, m) else if c.pending.Streaming? then OnStream(c, m) else if m.Notify? then Dispatched(c, m) else c
  }

  function Dispatched(c: Conn, m: ToClient): (d: Conn)
    ensures SameService(c, d)
    requires m.Notify?
  {
    c.(dispatched := c.dispatched + [m])
  }

  /** One round of recv_reply's or call_streaming's loop. */
  function Receive(c: Conn): (d: Conn)
    ensures SameService(c, d)
    requires !c.pending.Idle? && c.down != [] && !c.garbled
  {
    var m := c.down[0];
    if !Sendable(m) then Jammed(c) else if c.pending.Unary? then OnReply(Taken(c), m) else OnStream(Taken(c), m)
  }

  /** What stays as it is while the client acts on a message it has taken. */
  predicate SameChannels(c: Conn, d: Conn) {
    && d.up == c.up && d.down == c.down && d.issued == c.issued && d.answers == c.answers
    && d.consumed == c.consumed && d.seen == c.seen && d.pushed == c.pushed
    && d.garbled == c.garbled && d.readBefore == c.readBefore
  }

  function OnReply(c: Conn, m: ToClient): (d: Conn)
    ensures SameService(c, d)
    requires c.pending.Unary?
    ensures SameChannels(c, d) && (d.pending == c.pending || d.pending.Idle?) && d.chunks == c.chunks
    ensures d.returned == c.returned || (m.Result? && m.seqId == SeqOf(c.pending.index)
                                         && d.returned == c.returned + [Return(c.pending.index, m.payload)])
  {
    if m.Notify? then Dispatched(c, m)
    else if m.seqId != SeqOf(c.pending.index) then Fail(c)
    else if m.Result? then c.(pending := Idle, returned := c.returned + [Return(c.pending.index, m.payload)])
    else if m.Error? then c.(pending := Idle)
    else Fail(c)
  }

  function OnStream(c: Conn, m: ToClient): (d: Conn)
    ensures SameService(c, d)
    requires c.pending.Streaming?
    ensures SameChannels(c, d) && d.returned == c.returned && (d.pending == c.pending || d.pending.Idle?)
  {
    if m.Notify? || m.seqId != SeqOf(c.pending.index) || m.Result? then Fail(c)
    else if m.Stream? then c.(chunks := c.chunks + [m.chunk])
    else c.(pending := Idle)
  }

  /** poll_notifications: reads one message and drops it unless it is a notification. */
  function Poll(c: Conn): (d: Conn)
    ensures SameService(c, d)
    requires c.pending.Idle? && c.down != [] && !c.garbled
  {
    if !Sendable(c.down[0]) then Jammed(c) else if c.down[0].Notify? then Dispatched(Taken(c), c.down[0]) else Taken(c)
  }

  /** Fire-and-forget messages. */
  function Control(c: Conn, m: ToServer): (d: Conn)
    ensures SameService(c, d)
    requires !m.Ask?
  {
    c.(up := c.up + [m])
  }

  // ---------------------------------------------------------------- service steps

  /** A complete stream: chunks, then one terminator, all with the request's id. */
  predicate IsStream(outs: seq<ToClient>, q: nat) {
    && outs != [] && CarrySeq(outs, q)
    && (outs[|outs| - 1].StreamEnd? || outs[|outs| - 1].Error?)
    && forall k :: 0 <= k < |outs| - 1 ==> outs[k].Stream?
  }

  /** The answer that the waiting client can read to its end. */
  predicate Proper(p: Pending, q: nat, outs: seq<ToClient>) {
    match p
    case Idle => false
    case Unary(_) => |outs| == 1 && IsOutcome(outs[0], q)
    case Streaming(_) => IsStream(outs, q)
  }

  /** The service has handled the connection's oldest message, a request answered as `a` says, and `ms` arrive
      downstream. */
  function Serviced(c: Conn, t: Tracking, a: Answered, ms: seq<ToClient>): Conn
    requires c.up != []
  {
    var m := c.up[0];
    var d := c.(up := c.up[1..], tracking := t);
    Delivered(if m.Ask? then d.(answers := c.answers + [a]) else d, ms)
  }

  function Delivered(c: Conn, ms: seq<ToClient>): (d: Conn)
    ensures SameService(c, d)
  {
    c.(down := c.down + ms, pushed := c.pushed + Notices(ms))
  }

  // ---------------------------------------------------------------- the invariant

  function AsksIn(up: seq<ToServer>): seq<ToServer> {
    if up == [] then [] else (if up[0].Ask? then [up[0]] else []) + AsksIn(up[1..])
  }

  function AsksFrom(issued: seq<Request>, k: nat): seq<ToServer>
    decreases |issued| - k
  {
    if k >= |issued| then [] else [Ask(SeqOf(k), issued[k])] + AsksFrom(issued, k + 1)
  }

  function AllOuts(answers: seq<Answered>): seq<ToClient> {
    if answers == [] then [] else answers[0].outs + AllOuts(answers[1..])
  }

  /** The k-th answer belongs to the k-th request. */
  predicate AnswerFits(a: Answered, request: Request, q: nat) {
    a.request == request && CarrySeq(a.outs, q)
  }

  /** The caller of request number r.index was given exactly what the service produced for that request. */
  predicate ReturnFits(answers: seq<Answered>, r: Return) {
    r.index < |answers| && Result(SeqOf(r.index), r.payload) in answers[r.index].outs
  }

  predicate Waiting(c: Conn, i: nat) {
    |c.answers| == i && Replies(c.down) == []
  }

  /** Nothing is left over from earlier requests: whatever reply is on its way is the awaited one. */
  predicate InOrder(c: Conn): (r: bool)
    ensures r ==> !c.garbled
  {
    && !c.garbled
    && match c.pending
       case Idle => |c.answers| == |c.issued| && Replies(c.down) == []
       case Unary(i) =>
         Waiting(c, i) ||
         (|c.answers| == i + 1 && |c.answers[i].outs| == 1 && IsOutcome(c.answers[i].outs[0], SeqOf(i))
          && Replies(c.down) == c.answers[i].outs)
       case Streaming(i) =>
         (Waiting(c, i) && c.chunks == []) ||
         (|c.answers| == i + 1 && IsStream(c.answers[i].outs, SeqOf(i)) && Replies(c.down) != []
          && ChunkMessages(SeqOf(i), c.chunks) + Replies(c.down) == c.answers[i].outs)
  }

  /** Every notification taken off the channel has been dispatched. */
  predicate Told(c: Conn) { c.dispatched == c.seen }

  /** Everything answered and notified so far is within the limits. */
  predicate AllWithin(c: Conn) { AllSendable(AllOuts(c.answers)) && AllSendable(c.pushed) }

  /** The answers to the requests ahead of number i. */
  function Earlier(c: Conn, i: nat): seq<ToClient> { AllOuts(c.answers[..if i < |c.answers| then i else |c.answers|]) }

  /** Requests reach the service in order: what waits upstream is what has not been answered. */
  ghost predicate UpInv(up: seq<ToServer>, issued: seq<Request>, answered: nat) {
    answered <= |issued| && AsksIn(up) == AsksFrom(issued, answered)
  }

  ghost predicate AnswersInv(issued: seq<Request>, answers: seq<Answered>) {
    |answers| <= |issued| && forall k :: 0 <= k < |answers| ==> AnswerFits(answers[k], issued[k], SeqOf(k))
  }

  /** Replies reach the client in order: those it consumed and those still downstream are all that was answered. */
  ghost predicate DownInv(consumed: seq<ToClient>, down: seq<ToClient>, answers: seq<Answered>) {
    consumed + Replies(down) == AllOuts(answers)
  }

  ghost predicate NoticeInv(seen: seq<ToClient>, down: seq<ToClient>, pushed: seq<ToClient>) {
    seen + Notices(down) == pushed
  }

  predicate PendingInv(pending: Pending, issued: seq<Request>) {
    !pending.Idle? ==> pending.index + 1 == |issued|
  }

  ghost predicate ReturnsInv(issued: seq<Request>, answers: seq<Answered>, returned: seq<Return>) {
    forall r :: r in returned ==> r.index < |issued| && (|issued| <= U32_COUNT ==> ReturnFits(answers, r))
  }

  /** While a call waits, the client has read nothing but notifications and the chunks it handed over. */
  predicate ReadInv(c: Conn) {
    && c.readBefore <= |c.consumed|
    && (c.pending.Unary? ==> c.chunks == [])
    && (!c.pending.Idle? ==> |c.consumed| == c.readBefore + |c.chunks| && c.readBefore <= |Earlier(c, c.pending.index)|)
  }

  ghost predicate ConnInv(c: Conn) {
    && UpInv(c.up, c.issued, |c.answers|)
    && AnswersInv(c.issued, c.answers)
    && DownInv(c.consumed, c.down, c.answers)
    && PendingInv(c.pending, c.issued)
    && NoticeInv(c.seen, c.down, c.pushed)
    && (!c.garbled ==> ReturnsInv(c.issued, c.answers, c.returned) && ReadInv(c))
    && (c.garbled ==> !AllWithin(c))
  }

  // ---------------------------------------------------------------- small facts

  lemma {:induction false} RepliesConcat(a: seq<ToClient>, b: seq<ToClient>)
    ensures Replies(a + b) == Replies(a) + Replies(b)
  {
    if a == [] {
      assert a + b == b;
    } else {
      RepliesConcat(a[1..], b);
      assert (a + b)[1..] == a[1..] + b;
      RepliesStep(a);
      RepliesStep(a + b);
      Assoc(Replies([a[0]]), Replies(a[1..]), Replies(b));
    }
  }

  lemma {:induction false} NoticesConcat(a: seq<ToClient>, b: seq<ToClient>)
    ensures Notices(a + b) == Notices(a) + Notices(b)
  {
    if a == [] {
      assert a + b == b;
    } else {
      NoticesConcat(a[1..], b);
      assert (a + b)[1..] == a[1..] + b;
      NoticesStep(a);
      NoticesStep(a + b);
      Assoc(Notices([a[0]]), Notices(a[1..]), Notices(b));
    }
  }

  lemma {:induction false} AsksConcat(a: seq<ToServer>, m: ToServer)
    ensures AsksIn(a + [m]) == AsksIn(a) + if m.Ask? then [m] else []
  {
    if a == [] {
      assert a + [m] == [m] && [m][1..] == [];
    } else {
      AsksConcat(a[1..], m);
      assert (a + [m])[1..] == a[1..] + [m];
    }
  }

  lemma {:induction false} AsksFromGrows(issued: seq<Request>, request: Request, k: nat)
    requires k <= |issued|
    ensures AsksFrom(issued + [request], k) == AsksFrom(issued, k) + [Ask(SeqOf(|issued|), request)]
    decreases |issued| - k
  {
    var more := issued + [request];
    if k < |issued| {
      AsksFromGrows(issued, request, k + 1);
    } else {
      assert AsksFrom(more, k + 1) == [];
    }
  }

  lemma {:induction false} AllOutsGrows(answers: seq<Answered>, a: Answered)
    ensures AllOuts(answers + [a]) == AllOuts(answers) + a.outs
  {
    if answers == [] {
      assert answers + [a] == [a] && [a][1..] == [];
    } else {
      AllOutsGrows(answers[1..], a);
      assert (answers + [a])[1..] == answers[1..] + [a];
    }
  }

  /** Every reply on the wire belongs to some answered request. */
  lemma {:induction false} FindOut(answers: seq<Answered>, m: ToClient) returns (k: nat)
    requires m in AllOuts(answers)
    ensures k < |answers| && m in answers[k].outs
  {
    if m in answers[0].outs {
      k := 0;
    } else {
      k := FindOut(answers[1..], m);
      k := k + 1;
    }
  }

  /** Sequence ids identify requests as long as a connection issues no more than 2^32 of them. */
  lemma SeqOfInjective(i: nat, j: nat)
    requires i < U32_COUNT && j < U32_COUNT && SeqOf(i) == SeqOf(j)
    ensures i == j
  {
  }

  lemma ChunkMessagesGrow(q: nat, chunks: seq<bytes>, chunk: bytes)
    ensures ChunkMessages(q, chunks + [chunk]) == ChunkMessages(q, chunks) + [Stream(q, chunk)]
  {
    if chunks == [] {
      assert chunks + [chunk] == [chunk] && [chunk][1..] == [];
    } else {
      ChunkMessagesGrow(q, chunks[1..], chunk);
      assert (chunks + [chunk])[1..] == chunks[1..] + [chunk];
    }
  }

  // ---------------------------------------------------------------- every step keeps the invariant

  lemma IssueKeeps(c: Conn, request: Request, mode: Mode)
    requires ConnInv(c) && c.pending.Idle?
    ensures ConnInv(Issue(c, request, mode))
  {
    AsksConcat(c.up, Ask(SeqOf(|c.issued|), request));
    AsksFromGrows(c.issued, request, |c.answers|);
    assert c.answers[..|c.answers|] == c.answers;
    assert |c.consumed| <= |c.consumed + Replies(c.down)| == |AllOuts(c.answers)|;
  }

  lemma ControlKeeps(c: Conn, m: ToServer)
    requires ConnInv(c) && !m.Ask?
    ensures ConnInv(Control(c, m))
  {
    AsksConcat(c.up, m);
  }

  lemma NoticesArrive(seen: seq<ToClient>, down: seq<ToClient>, pushed: seq<ToClient>, ms: seq<ToClient>)
    requires NoticeInv(seen, down, pushed)
    ensures NoticeInv(seen, down + ms, pushed + Notices(ms))
  {
    NoticesConcat(down, ms);
    Assoc(seen, Notices(down), Notices(ms));
  }

  lemma RepliesArrive(consumed: seq<ToClient>, down: seq<ToClient>, answers: seq<Answered>, a: Answered, ms: seq<ToClient>)
    requires DownInv(consumed, down, answers) && Replies(ms) == a.outs
    ensures DownInv(consumed, down + ms, answers + [a])
  {
    RepliesConcat(down, ms);
    AllOutsGrows(answers, a);
    Assoc(consumed, Replies(down), a.outs);
  }

  lemma NoRepliesArrive(consumed: seq<ToClient>, down: seq<ToClient>, answers: seq<Answered>, ms: seq<ToClient>)
    requires Replies(ms) == []
    ensures Replies(down + ms) == Replies(down)
    ensures DownInv(consumed, down, answers) ==> DownInv(consumed, down + ms, answers)
  {
    RepliesConcat(down, ms);
    assert Replies(down) + [] == Replies(down);
  }

  lemma StillNotSendable(a: seq<ToClient>, b: seq<ToClient>)
    requires AllSendable(a + b)
    ensures AllSendable(a)
  {
    hide Sendable;
    forall k | 0 <= k < |a|
      ensures Sendable(a[k])
    {
      assert (a + b)[k] == a[k];
    }
  }

  lemma DeliverKeeps(c: Conn, ms: seq<ToClient>)
    requires ConnInv(c) && Replies(ms) == []
    ensures ConnInv(Delivered(c, ms))
  {
    hide UpInv, DownInv, NoticeInv, AnswersInv, ReturnsInv, ReadInv, AllSendable, AllOuts, Replies, Notices;
    DeliveryReadsNothing(c, ms);
    NoticesArrive(c.seen, c.down, c.pushed, ms);
    NoRepliesArrive(c.consumed, c.down, c.answers, ms);
    if AllSendable(c.pushed + Notices(ms)) {
      StillNotSendable(c.pushed, Notices(ms));
    }
  }

  lemma DeliveryReadsNothing(c: Conn, ms: seq<ToClient>)
    ensures ReadInv(Delivered(c, ms)) == ReadInv(c)
  {
    hide AllOuts, Notices;
  }

  lemma AskTaken(up: seq<ToServer>, issued: seq<Request>, k: nat)
    requires UpInv(up, issued, k) && up != []
    ensures if up[0].Ask? then k < |issued| && up[0] == Ask(SeqOf(k), issued[k]) && UpInv(up[1..], issued, k + 1)
            else UpInv(up[1..], issued, k)
  {
    if up[0].Ask? {
      assert AsksIn(up)[1..] == AsksIn(up[1..]);
      assert AsksFrom(issued, k)[0] == up[0];
      assert AsksFrom(issued, k)[1..] == AsksFrom(issued, k + 1);
    }
  }

  lemma ServicedKeeps(c: Conn, t: Tracking, a: Answered, ms: seq<ToClient>)
    requires ConnInv(c) && c.up != []
    requires Replies(ms) == if c.up[0].Ask? then a.outs else []
    requires c.up[0].Ask? ==> AnswerFits(a, c.up[0].request, c.up[0].seqId)
    ensures ConnInv(Serviced(c, t, a, ms))
  {
    AskTaken(c.up, c.issued, |c.answers|);
    if c.up[0].Ask? {
      RequestServed(c, t, a, ms);
    } else {
      hide UpInv, DownInv, NoticeInv, AnswersInv, ReturnsInv, AllSendable;
      NoticesArrive(c.seen, c.down, c.pushed, ms);
      NoRepliesArrive(c.consumed, c.down, c.answers, ms);
      if AllSendable(c.pushed + Notices(ms)) {
        StillNotSendable(c.pushed, Notices(ms));
      }
    }
  }

  lemma RequestServed(c: Conn, t: Tracking, a: Answered, ms: seq<ToClient>)
    requires ConnInv(c) && c.up != [] && c.up[0].Ask? && Replies(ms) == a.outs && AnswerFits(a, c.up[0].request, c.up[0].seqId)
    ensures ConnInv(Serviced(c, t, a, ms))
  {
    hide UpInv, DownInv, NoticeInv, InOrder, Proper, Replies, Notices, AnswerFits, AllSendable, AllOuts, Earlier;
    AskTaken(c.up, c.issued, |c.answers|);
    NoticesArrive(c.seen, c.down, c.pushed, ms);
    RepliesArrive(c.consumed, c.down, c.answers, a, ms);
    AllOutsGrows(c.answers, a);
    if AllSendable(c.pushed + Notices(ms)) && AllSendable(AllOuts(c.answers) + a.outs) {
      StillNotSendable(c.pushed, Notices(ms));
      StillNotSendable(AllOuts(c.answers), a.outs);
    }
    if !c.pending.Idle? {
      EarlierGrows(c, t, a, ms, c.pending.index);
    }
  }

  lemma EarlierGrows(c: Conn, t: Tracking, a: Answered, ms: seq<ToClient>, i: nat)
    requires c.up != [] && c.up[0].Ask?
    ensures |Earlier(Serviced(c, t, a, ms), i)| >= |Earlier(c, i)|
  {
    hide Notices, AllOuts;
    if |c.answers| < i {
      AllOutsGrows(c.answers, a);
      assert c.answers[..|c.answers|] == c.answers && (c.answers + [a])[..|c.answers| + 1] == c.answers + [a];
    } else {
      assert (c.answers + [a])[..i] == c.answers[..i];
    }
  }

  /** Serving a request leaves nothing over exactly when the answer is one that the caller can read to its end. */
  lemma ServedInOrderIff(c: Conn, t: Tracking, a: Answered, ms: seq<ToClient>)
    requires ConnInv(c) && c.up != [] && c.up[0].Ask? && Replies(ms) == a.outs && InOrder(c)
    requires CarrySeq(a.outs, c.up[0].seqId)
    ensures InOrder(Serviced(c, t, a, ms)) <==> Proper(c.pending, c.up[0].seqId, a.outs)
  {
    hide DownInv, NoticeInv, AnswersInv, ReturnsInv, ReadInv, AllWithin, Notices;
    AskTaken(c.up, c.issued, |c.answers|);
    RepliesConcat(c.down, ms);
    assert Replies(c.down) == [] && [] + a.outs == a.outs;
    assert ChunkMessages(c.up[0].seqId, []) == [];
  }

  lemma NoticeTaken(seen: seq<ToClient>, down: seq<ToClient>, pushed: seq<ToClient>)
    requires NoticeInv(seen, down, pushed) && down != []
    ensures if down[0].Notify? then NoticeInv(seen + [down[0]], down[1..], pushed) else NoticeInv(seen, down[1..], pushed)
  {
    NoticesStep(down);
    Assoc(seen, [down[0]], Notices(down[1..]));
    assert [] + Notices(down[1..]) == Notices(down[1..]);
  }

  lemma ReplyTaken(consumed: seq<ToClient>, down: seq<ToClient>, answers: seq<Answered>)
    requires DownInv(consumed, down, answers) && down != []
    ensures if down[0].Notify? then DownInv(consumed, down[1..], answers) && Replies(down[1..]) == Replies(down)
            else DownInv(consumed + [down[0]], down[1..], answers) && Replies(down) == [down[0]] + Replies(down[1..])
  {
    RepliesStep(down);
    Assoc(consumed, [down[0]], Replies(down[1..]));
    assert [] + Replies(down[1..]) == Replies(down[1..]);
  }

  /** What a round leaves to the messages themselves. */
  lemma TakenMovesMessages(c: Conn)
    requires ConnInv(c) && c.down != []
    ensures var d := Taken(c); DownInv(d.consumed, d.down, d.answers) && NoticeInv(d.seen, d.down, d.pushed)
  {
    NoticeTaken(c.seen, c.down, c.pushed);
    ReplyTaken(c.consumed, c.down, c.answers);
  }

  /** A receive only throws on a message that was really sent. */
  lemma JammedKeeps(c: Conn)
    requires ConnInv(c) && c.down != [] && !Sendable(c.down[0])
    ensures ConnInv(Jammed(c))
  {
    hide UpInv, AnswersInv, ReturnsInv, ReadInv, Sendable, Encodable;
    TakenMovesMessages(c);
    var m := c.down[0];
    if m.Notify? {
      NoticesStep(c.down);
      assert (c.seen + Notices(c.down))[|c.seen|] == m == c.pushed[|c.seen|];
    } else {
      RepliesStep(c.down);
      assert (c.consumed + Replies(c.down))[|c.consumed|] == m == AllOuts(c.answers)[|c.consumed|];
    }
  }

  /** A round changes only what the client did with the message. */
  lemma ReceiveFrame(c: Conn)
    requires !c.pending.Idle? && c.down != [] && !c.garbled && Sendable(c.down[0])
    ensures var d := Receive(c); SameChannels(Taken(c), d) && (d.pending == c.pending || d.pending.Idle?)
    ensures var d, m := Receive(c), c.down[0];
            d.returned == c.returned || (c.pending.Unary? && m.Result? && m.seqId == SeqOf(c.pending.index)
                                         && d.returned == c.returned + [Return(c.pending.index, m.payload)])
  {
    hide Sendable;
    var t := Taken(c);
    assert t.pending == c.pending && t.returned == c.returned;
  }

  lemma PollKeeps(c: Conn)
    requires ConnInv(c) && c.pending.Idle? && c.down != [] && !c.garbled
    ensures ConnInv(Poll(c))
  {
    hide UpInv, AnswersInv, ReturnsInv, Sendable, AllWithin;
    if Sendable(c.down[0]) {
      TakenMovesMessages(c);
    } else {
      JammedKeeps(c);
    }
  }

  /** While nothing is left over, polling meets only notifications. */
  lemma PollInOrderIff(c: Conn)
    requires ConnInv(c) && InOrder(c) && c.pending.Idle? && c.down != []
    ensures InOrder(Poll(c)) <==> Sendable(c.down[0])
  {
    hide Sendable;
    ReplyTaken(c.consumed, c.down, c.answers);
  }

  lemma MisreadKeeps(c: Conn, m: ToClient)
    requires ConnInv(c) && c.garbled
    ensures ConnInv(Misread(c, m))
  {
    hide UpInv, DownInv, NoticeInv, AnswersInv, AllSendable;
  }

  lemma ReceiveKeeps(c: Conn)
    requires ConnInv(c) && !c.pending.Idle? && c.down != [] && !c.garbled
    ensures ConnInv(Receive(c))
  {
    if Sendable(c.down[0]) {
      hide UpInv, DownInv, NoticeInv, AnswersInv, ReturnsInv, ReadInv, Sendable, AllWithin, Receive;
      TakenMovesMessages(c);
      ReceiveFrame(c);
      ReceiveKeepsReturns(c);
      ReceiveKeepsReads(c);
    } else {
      JammedKeeps(c);
    }
  }

  lemma ReceiveKeepsReads(c: Conn)
    requires ReadInv(c) && !c.pending.Idle? && c.down != [] && !c.garbled && Sendable(c.down[0])
    ensures ReadInv(Receive(c))
  {
    hide Sendable, AllOuts;
    ReceiveFrame(c);
    assert Earlier(Receive(c), c.pending.index) == Earlier(c, c.pending.index);
  }

  lemma ReceiveKeepsReturns(c: Conn)
    requires ConnInv(c) && !c.pending.Idle? && c.down != [] && !c.garbled && Sendable(c.down[0])
    ensures ReturnsInv(c.issued, c.answers, Receive(c).returned)
  {
    hide Sendable;
    ReceiveFrame(c);
    if Receive(c).returned != c.returned && |c.issued| <= U32_COUNT {
      ReturnIsOwn(c);
    }
  }

  /** The reply with the awaited id is an answer to the awaited request. */
  lemma ReturnIsOwn(c: Conn)
    requires ConnInv(c) && c.pending.Unary? && c.down != [] && |c.issued| <= U32_COUNT
    requires c.down[0].Result? && c.down[0].seqId == SeqOf(c.pending.index)
    ensures ReturnFits(c.answers, Return(c.pending.index, c.down[0].payload))
  {
    var m := c.down[0];
    assert (c.consumed + Replies(c.down))[|c.consumed|] == m;
    var k := FindOut(c.answers, m);
    assert AnswerFits(c.answers[k], c.issued[k], SeqOf(k));
    SeqOfInjective(k, c.pending.index);
  }

  // ---------------------------------------------------------------- when nothing is left over

  lemma UnaryKeepsOrder(c: Conn)
    requires ConnInv(c) && InOrder(c) && c.pending.Unary? && c.down != [] && !c.down[0].Notify? && Sendable(c.down[0])
    ensures InOrder(Receive(c)) && Receive(c).pending.Idle?
  {
    hide Sendable;
    ReplyTaken(c.consumed, c.down, c.answers);
    assert Replies(c.down) == c.answers[c.pending.index].outs;
    assert c.answers[c.pending.index].outs[0] == c.down[0];
  }

  /** The next message of a stream is one more chunk, or its last message. */
  lemma NextOfStream(outs: seq<ToClient>, q: nat, chunks: seq<bytes>, m: ToClient, rest: seq<ToClient>)
    requires IsStream(outs, q) && ChunkMessages(q, chunks) + ([m] + rest) == outs
    ensures !m.Notify? && m.seqId == q
    ensures if m.Stream? then rest != [] && ChunkMessages(q, chunks + [m.chunk]) + rest == outs
            else rest == [] && (m.StreamEnd? || m.Error?)
  {
    var n := |chunks|;
    assert outs[n] == m && |outs| == n + 1 + |rest|;
    if m.Stream? {
      ChunkMessagesGrow(q, chunks, m.chunk);
      Assoc(ChunkMessages(q, chunks), [m], rest);
    }
  }

  lemma StreamKeepsOrder(c: Conn)
    requires ConnInv(c) && InOrder(c) && c.pending.Streaming? && c.down != [] && !c.down[0].Notify? && Sendable(c.down[0])
    ensures InOrder(Receive(c))
  {
    hide Sendable;
    ReplyTaken(c.consumed, c.down, c.answers);
    var i := c.pending.index;
    NextOfStream(c.answers[i].outs, SeqOf(i), c.chunks, c.down[0], Replies(c.down[1..]));
  }

  /** A round leaves nothing over exactly when it meets no message over the limit, and no notification while streaming. */
  lemma ReceiveInOrderIff(c: Conn)
    requires ConnInv(c) && InOrder(c) && !c.pending.Idle? && c.down != []
    ensures InOrder(Receive(c)) <==> Sendable(c.down[0]) && (c.pending.Streaming? ==> !c.down[0].Notify?)
  {
    if Sendable(c.down[0]) && !c.down[0].Notify? {
      if c.pending.Unary? { UnaryKeepsOrder(c); } else { StreamKeepsOrder(c); }
    } else {
      hide Sendable;
      ReplyTaken(c.consumed, c.down, c.answers);
    }
  }

  /** poll_notifications until the channel is empty. */
  function PollAll(c: Conn): Conn
    decreases |c.down|
  {
    if c.pending.Idle? && c.down != [] && !c.garbled then PollAll(Poll(c)) else c
  }

  /** Draining the channel clears what one-way calls and failed ones have left, once all of it has arrived. */
  lemma {:induction false} DrainingRestoresOrderIff(c: Conn)
    requires ConnInv(c) && c.pending.Idle? && !c.garbled
    decreases |c.down|
    ensures InOrder(PollAll(c)) <==> |c.answers| == |c.issued| && AllSendable(c.down)
  {
    hide Sendable, ConnInv;
    if c.down != [] {
      PollKeeps(c);
      AllSendableStep(c.down);
      if Sendable(c.down[0]) {
        DrainingRestoresOrderIff(Poll(c));
      } else {
        assert Poll(c).garbled && PollAll(Poll(c)) == Poll(c);
      }
    }
  }

  // ---------------------------------------------------------------- when a call gets its own reply

  /** recv_reply as a whole: receiving until the call is over. */
  function ReceiveAll(c: Conn): Conn
    decreases |c.down|
  {
    if c.pending.Unary? && c.down != [] && !c.garbled then ReceiveAll(Receive(c)) else c
  }

  /** The rounds its loop makes. */
  function Rounds(c: Conn): nat
    decreases |c.down|
  {
    if c.pending.Unary? && c.down != [] && !c.garbled then 1 + Rounds(Receive(c)) else 0
  }

  /** One round of the wait: a notification, the end of the wait, or the exception. */
  lemma WaitRound(c: Conn)
    requires c.pending.Unary? && c.down != [] && !c.garbled
    ensures var d, m := Receive(c), c.down[0];
            && d.down == c.down[1..] && d.answers == c.answers && d.pushed == c.pushed && d.issued == c.issued
            && (if !Sendable(m) then d.garbled && d.returned == c.returned && d.dispatched == c.dispatched
                else !d.garbled &&
                     if m.Notify? then d.pending == c.pending && d.dispatched == c.dispatched + [m] && d.returned == c.returned
                     else d.pending.Idle? && d.dispatched == c.dispatched
                          && d.returned == c.returned + if m.Result? && m.seqId == SeqOf(c.pending.index)
                                                        then [Return(c.pending.index, m.payload)] else [])
  {
    hide Sendable, Encodable;
    assert c.returned + [] == c.returned;
  }

  /** What a wait over a channel leaves behind: an exception if it meets a message over the limit first. */
  predicate WaitEnds(c: Conn, d: Conn, a: Awaited, inbox: seq<ToClient>)
    requires c.pending.Unary? && |inbox| <= |c.down|
  {
    && d.dispatched == c.dispatched + a.notices
    && d.returned == c.returned + (if a.wait.Got? && a.wait.m.Result? then [Return(c.pending.index, a.wait.m.payload)] else [])
    && (if !a.wait.Nothing? then d.pending.Idle? && !d.garbled && d.down == a.rest + c.down[|inbox|..]
        else if inbox == c.down then d.pending == c.pending && !d.garbled && d.down == []
        else d.garbled)
  }

  lemma ReadableStep(ms: seq<ToClient>)
    requires ms != [] && Sendable(ms[0])
    ensures var r, later := Readable(ms), Readable(ms[1..]);
            && r == [ms[0]] + later && r != [] && r[0] == ms[0] && r[1..] == later && |r| == 1 + |later|
            && ms[|r|..] == ms[1..][|later|..] && later + ms[|r|..] == ms[1..] && (r == ms <==> later == ms[1..])
  {
    hide Sendable;
    assert [ms[0]] + ms[1..] == ms;
    assert ms[1..][..|Readable(ms[1..])|] + ms[1..][|Readable(ms[1..])|..] == ms[1..];
  }

  /** The rounds of the loop add up to Await over what can be read: the same notifications dispatched, the same message
      taken, the same messages left; and there is one round for each notification ahead and one for the message that ends
      the wait. */
  lemma {:induction false} ReceiveAllIsAwait(c: Conn)
    requires c.pending.Unary? && !c.garbled
    decreases |c.down|
    ensures var inbox := Readable(c.down); var a := Await(inbox, SeqOf(c.pending.index));
            && WaitEnds(c, ReceiveAll(c), a, inbox)
            && Rounds(c) == |a.notices| + if a.wait.Nothing? && inbox == c.down then 0 else 1
  {
    hide Receive, Sendable, WaitEnds, Readable;
    if c.down == [] {
      EmptyWait(c);
    } else if !Sendable(c.down[0]) {
      WaitStops(c);
    } else {
      ReadableStep(c.down);
      WaitRound(c);
      if c.down[0].Notify? {
        ReceiveAllIsAwait(Receive(c));
        WaitGoesOn(c);
      } else {
        WaitStops(c);
      }
    }
  }

  lemma EmptyWait(c: Conn)
    requires c.pending.Unary? && !c.garbled && c.down == []
    ensures Readable(c.down) == [] && WaitEnds(c, c, Awaited(Nothing, [], []), [])
  {
    assert c.dispatched + [] == c.dispatched && c.returned + [] == c.returned;
  }

  lemma WaitStops(c: Conn)
    requires c.pending.Unary? && !c.garbled && c.down != [] && (Sendable(c.down[0]) ==> !c.down[0].Notify?)
    ensures var inbox := Readable(c.down); var a := Await(inbox, SeqOf(c.pending.index));
            && WaitEnds(c, Receive(c), a, inbox) && ReceiveAll(c) == Receive(c) && a.notices == [] && Rounds(c) == 1
            && !(a.wait.Nothing? && inbox == c.down)
  {
    hide Receive, Sendable;
    WaitRound(c);
    assert c.dispatched + [] == c.dispatched && c.returned + [] == c.returned;
    assert ReceiveAll(Receive(c)) == Receive(c) && Rounds(Receive(c)) == 0;
    if Sendable(c.down[0]) {
      ReadableStep(c.down);
    }
  }

  lemma WaitGoesOn(c: Conn)
    requires c.pending.Unary? && !c.garbled && c.down != [] && Sendable(c.down[0]) && c.down[0].Notify?
    requires var d, later := Receive(c), Readable(c.down[1..]);
             d.pending == c.pending && d.down == c.down[1..] && WaitEnds(d, ReceiveAll(d), Await(later, SeqOf(c.pending.index)), later)
    ensures var inbox := Readable(c.down); WaitEnds(c, ReceiveAll(c), Await(inbox, SeqOf(c.pending.index)), inbox)
  {
    hide Receive, Sendable, Readable;
    WaitRound(c);
    ReadableStep(c.down);
    Assoc(c.dispatched, [c.down[0]], Await(Readable(c.down[1..]), SeqOf(c.pending.index)).notices);
  }

  /** What the call hands its caller is what the connection returns: a payload exactly when the wait adds that payload as the
      return of the awaited request, and anything else, thrown, exactly when it adds nothing. */
  lemma OutcomeIsReturn(c: Conn)
    requires c.pending.Unary? && !c.garbled
    ensures var i, r, d := c.pending.index, OutcomeOf(Await(Readable(c.down), SeqOf(c.pending.index)).wait), ReceiveAll(c);
            && (forall b :: r == Payload(b) <==> d.returned == c.returned + [Return(i, b)])
            && (!r.Payload? <==> d.returned == c.returned)
  {
    hide ReceiveAll, Rounds;
    ReceiveAllIsAwait(c);
    OutcomeIsFirstReply(Readable(c.down), SeqOf(c.pending.index));
    AwaitTakesFirstReply(Readable(c.down), SeqOf(c.pending.index));
    var r, d, i := OutcomeOf(Await(Readable(c.down), SeqOf(c.pending.index)).wait), ReceiveAll(c), c.pending.index;
    forall b
      ensures r == Payload(b) <==> d.returned == c.returned + [Return(i, b)]
    {
      if d.returned == c.returned + [Return(i, b)] {
        assert d.returned[|c.returned|] == Return(i, b);
      }
    }
  }

  /** When the waiting request was issued, the client had read every answer message of the requests before it: none was
      unread, and none came later. */
  predicate NothingOwed(c: Conn)
    requires !c.pending.Idle?
  {
    |Earlier(c, c.pending.index)| <= c.readBefore
  }

  lemma {:induction false} AllOutsSplit(answers: seq<Answered>, i: nat)
    requires i < |answers|
    ensures AllOuts(answers) == AllOuts(answers[..i]) + answers[i].outs + AllOuts(answers[i + 1..])
  {
    var tail := AllOuts(answers[i + 1..]);
    if i == 0 {
      assert answers[..0] == [];
    } else {
      AllOutsSplit(answers[1..], i - 1);
      assert answers[1..][..i - 1] == answers[..i][1..] && answers[1..][i - 1 + 1..] == answers[i + 1..];
      Assoc(answers[0].outs, AllOuts(answers[..i][1..]) + answers[i].outs, tail);
      Assoc(answers[0].outs, AllOuts(answers[..i][1..]), answers[i].outs);
    }
  }

  lemma FirstReadable(down: seq<ToClient>)
    requires Replies(Readable(down)) != []
    ensures Replies(down) != [] && Replies(down)[0] == Replies(Readable(down))[0]
  {
    var r := Readable(down);
    assert down == r + down[|r|..];
    RepliesConcat(r, down[|r|..]);
  }

  /** The first reply to come: of an earlier request if it was owed, the first message of the own answer otherwise. */
  lemma NextReply(c: Conn)
    requires ConnInv(c) && !c.garbled && c.pending.Unary? && Replies(c.down) != []
    ensures var i, m := c.pending.index, Replies(c.down)[0];
            if NothingOwed(c) then i < |c.answers| && c.answers[i].outs != [] && m == c.answers[i].outs[0]
            else exists j :: 0 <= j < i && j < |c.answers| && m in c.answers[j].outs
  {
    var i, m := c.pending.index, Replies(c.down)[0];
    var earlier := Earlier(c, i);
    assert (c.consumed + Replies(c.down))[c.readBefore] == m == AllOuts(c.answers)[c.readBefore];
    if i < |c.answers| {
      AllOutsSplit(c.answers, i);
      assert c.answers[i + 1..] == [] && AllOuts(c.answers) == earlier + c.answers[i].outs + [];
    } else {
      assert c.answers[..|c.answers|] == c.answers;
    }
    if !NothingOwed(c) {
      assert earlier[c.readBefore] == m;
      var j := FindOut(c.answers[..if i < |c.answers| then i else |c.answers|], m);
      assert m in c.answers[j].outs;
    }
  }

  /** In every reachable state with at most 2^32 requests, a blocking call whose first reply has arrived ends, and it ends
      with the first message of its own answer if and only if nothing was owed when it was issued. Otherwise it throws. */
  lemma OwnReplyIff(c: Conn)
    requires ConnInv(c) && !c.garbled && c.pending.Unary? && Replies(Readable(c.down)) != []
    ensures var i, a, d := c.pending.index, Await(Readable(c.down), SeqOf(c.pending.index)), ReceiveAll(c);
            && d.pending.Idle? && !d.garbled
            && (NothingOwed(c) ==> i < |c.answers| && c.answers[i].outs != [] && a.wait == Got(c.answers[i].outs[0]))
            && (|c.issued| <= U32_COUNT ==> (NothingOwed(c) <==> a.wait.Got?) && (a.wait.Mismatch? ==> d.returned == c.returned))
            && (NothingOwed(c) ==> var m := c.answers[i].outs[0];
                  d.returned == c.returned + if m.Result? then [Return(i, m.payload)] else [])
  {
    var i := c.pending.index;
    FirstReadable(c.down);
    var m := Replies(c.down)[0];
    NextReply(c);
    ReceiveAllIsAwait(c);
    AwaitTakesFirstReply(Readable(c.down), SeqOf(i));
    assert c.returned + [] == c.returned;
    if NothingOwed(c) {
      assert AnswerFits(c.answers[i], c.issued[i], SeqOf(i));
    } else if |c.issued| <= U32_COUNT {
      var j :| 0 <= j < i && j < |c.answers| && m in c.answers[j].outs;
      assert AnswerFits(c.answers[j], c.issued[j], SeqOf(j));
      if m.seqId == SeqOf(i) {
        SeqOfInjective(i, j);
      }
    }
  }

  /** With nothing left over, nothing is owed. */
  lemma InOrderOwesNothing(c: Conn)
    requires ConnInv(c) && InOrder(c) && c.pending.Unary? && Replies(c.down) != []
    ensures NothingOwed(c) && |c.answers[c.pending.index].outs| == 1
    ensures c.answers[c.pending.index].request == c.issued[c.pending.index]
  {
    var i := c.pending.index;
    AllOutsSplit(c.answers, i);
    assert c.answers[i + 1..] == [] && AllOuts(c.answers) == Earlier(c, i) + c.answers[i].outs + [];
    assert AnswerFits(c.answers[i], c.issued[i], SeqOf(i));
  }

  /** So a call on a connection with nothing left over gets exactly its reply, behind any number of notifications, and
      again leaves nothing; if every notification so far was dispatched, so were those. */
  lemma OrderlyWait(c: Conn)
    requires ConnInv(c) && InOrder(c) && c.pending.Unary? && Replies(Readable(c.down)) != []
    ensures var d, i := ReceiveAll(c), c.pending.index;
            && ConnInv(d) && InOrder(d) && d.pending.Idle?
            && i < |c.answers| && i < |c.issued| && c.answers[i].request == c.issued[i] && |c.answers[i].outs| == 1
            && d.returned == c.returned + (if c.answers[i].outs[0].Result? then [Return(i, c.answers[i].outs[0].payload)] else [])
            && (Told(c) ==> d.dispatched + Notices(d.down) == c.pushed)
  {
    hide ReceiveAll, NothingOwed, InOrder;
    FirstReadable(c.down);
    InOrderOwesNothing(c);
    OwnReplyIff(c);
    OrderThroughWait(c);
  }

  lemma {:induction false} OrderThroughWait(c: Conn)
    requires ConnInv(c) && InOrder(c) && c.pending.Unary? && Replies(Readable(c.down)) != []
    decreases |c.down|
    ensures var d := ReceiveAll(c); ConnInv(d) && InOrder(d) && (Told(c) ==> Told(d)) && d.pushed == c.pushed
  {
    hide ConnInv, InOrder, Sendable, Receive, Told;
    assert Sendable(c.down[0]);
    ReceiveKeeps(c);
    ReceiveInOrderIff(c);
    WaitRound(c);
    if Told(c) {
      ToldThroughWait(c);
    }
    ReadableStep(c.down);
    if c.down[0].Notify? {
      RepliesStep(Readable(c.down));
      OrderThroughWait(Receive(c));
    } else {
      assert ReceiveAll(Receive(c)) == Receive(c);
    }
  }

  lemma ToldThroughWait(c: Conn)
    requires c.pending.Unary? && c.down != [] && !c.garbled && Sendable(c.down[0]) && Told(c)
    ensures Told(Receive(c))
  {
    hide Sendable;
  }

  // ---------------------------------------------------------------- when a stream is delivered

  /** call_streaming as a whole. */
  function StreamAll(c: Conn): Conn
    decreases |c.down|
  {
    if c.pending.Streaming? && c.down != [] && !c.garbled then StreamAll(Receive(c)) else c
  }

  lemma StreamRound(c: Conn)
    requires c.pending.Streaming? && c.down != [] && !c.garbled
    ensures var d, m := Receive(c), c.down[0];
            && d.down == c.down[1..] && d.answers == c.answers
            && (if !Sendable(m) then d.garbled && d.chunks == c.chunks
                else !d.garbled &&
                     if m.Stream? && m.seqId == SeqOf(c.pending.index) then d.pending == c.pending && d.chunks == c.chunks + [m.chunk]
                     else d.pending.Idle? && d.chunks == c.chunks)
  {
    hide Sendable, Encodable;
  }

  /** The rounds of the streaming loop add up to Collect over what can be read: same chunks, same messages left. */
  lemma {:induction false} StreamAllIsCollect(c: Conn)
    requires c.pending.Streaming? && !c.garbled
    decreases |c.down|
    ensures var inbox := Readable(c.down); var k := Collect(inbox, SeqOf(c.pending.index)); var d := StreamAll(c);
            && d.chunks == c.chunks + k.chunks
            && (if k.ending != TimedOut then d.pending.Idle? && !d.garbled && d.down == k.rest + c.down[|inbox|..]
                else if inbox == c.down then d.pending == c.pending && !d.garbled && d.down == []
                else d.garbled)
  {
    hide Receive, Sendable, Readable;
    assert c.chunks + [] == c.chunks;
    if c.down == [] {
      assert Readable([]) == [];
    } else {
      StreamRound(c);
      var d, m := Receive(c), c.down[0];
      if !Sendable(m) {
        assert StreamAll(d) == d;
        NothingReadable(c.down);
      } else {
        ReadableStep(c.down);
        if d.pending.Streaming? {
          StreamAllIsCollect(d);
          Assoc(c.chunks, [m.chunk], Collect(Readable(d.down), SeqOf(c.pending.index)).chunks);
        } else {
          assert StreamAll(d) == d;
        }
      }
    }
  }

  lemma NothingReadable(ms: seq<ToClient>)
    requires ms != [] && !Sendable(ms[0])
    ensures Readable(ms) == []
  {
  }

  /** Once the answer is in the channel, a streaming call with nothing left over from before hands over all of its chunks
      and leaves nothing, if and only if no notification and nothing over the limit comes ahead of the answer's end. */
  lemma {:induction false} OrderlyStreamCompletesIff(c: Conn)
    requires ConnInv(c) && InOrder(c) && c.pending.Streaming? && |c.answers| == c.pending.index + 1
    decreases |c.down|
    ensures var d, n := StreamAll(c), |Replies(c.down)|; var outs := c.answers[c.pending.index].outs;
            && (d.pending.Idle? && InOrder(d) <==> Unbroken(c.down, n))
            && (Unbroken(c.down, n) ==> d.down == c.down[n..] && d.chunks == StreamChunks(outs) && ConnInv(d))
  {
    hide ConnInv, Receive, Sendable, Unbroken, StreamChunks;
    assert c.down != [] by { NothingOfNothing(c); }
    var m, rest := c.down[0], c.down[1..];
    UnbrokenStep(c.down, |Replies(c.down)|);
    StreamRound(c);
    ReceiveKeeps(c);
    ReceiveInOrderIff(c);
    if !Sendable(m) || m.Notify? {
      assert StreamAll(Receive(c)) == Receive(c);
    } else {
      NextOfAnswer(c);
      if m.Stream? {
        var n := |Replies(c.down)|;
        OrderlyStreamCompletesIff(Receive(c));
        if Unbroken(rest, n - 1) {
          UnbrokenTail(c.down, n);
        }
      } else {
        NothingBroken(rest);
        assert StreamAll(Receive(c)) == Receive(c);
      }
    }
  }

  lemma UnbrokenTail(down: seq<ToClient>, n: nat)
    requires down != [] && n > 0 && Unbroken(down[1..], n - 1)
    ensures n <= |down| && down[n..] == down[1..][n - 1..]
  {
  }

  lemma NothingOfNothing(c: Conn)
    requires InOrder(c) && c.pending.Streaming? && |c.answers| == c.pending.index + 1
    ensures c.down != [] && Replies(c.down) != []
  {
  }

  lemma NextOfAnswer(c: Conn)
    requires ConnInv(c) && InOrder(c) && c.pending.Streaming? && |c.answers| == c.pending.index + 1
    requires c.down != [] && !c.down[0].Notify?
    ensures var i, m := c.pending.index, c.down[0];
            && m.seqId == SeqOf(i) && |Replies(c.down)| == 1 + |Replies(c.down[1..])|
            && (m.Stream? || (Replies(c.down[1..]) == [] && StreamChunks(c.answers[i].outs) == c.chunks))
  {
    var i, m, rest := c.pending.index, c.down[0], Replies(c.down[1..]);
    ReplyTaken(c.consumed, c.down, c.answers);
    NextOfStream(c.answers[i].outs, SeqOf(i), c.chunks, m, rest);
    if !m.Stream? {
      ChunksOfStream(SeqOf(i), c.chunks, m);
      assert [m] + rest == [m];
    }
  }

  /** The chunks among the messages of a stream. */
  function StreamChunks(outs: seq<ToClient>): seq<bytes> {
    if outs == [] then [] else (if outs[0].Stream? then [outs[0].chunk] else []) + StreamChunks(outs[1..])
  }

  lemma {:induction false} ChunksOfStream(q: nat, chunks: seq<bytes>, terminator: ToClient)
    requires !terminator.Stream?
    ensures StreamChunks(ChunkMessages(q, chunks) + [terminator]) == chunks
  {
    var outs := ChunkMessages(q, chunks) + [terminator];
    if chunks == [] {
      assert outs == [terminator] && outs[1..] == [];
    } else {
      assert outs[0] == Stream(q, chunks[0]) && outs[1..] == ChunkMessages(q, chunks[1..]) + [terminator];
      ChunksOfStream(q, chunks[1..], terminator);
      assert [chunks[0]] + chunks[1..] == chunks;
    }
  }

  // ---------------------------------------------------------------- the 32-bit limit is needed

  /** A client that fires off `n` one-way calls. */
  function IssueMany(c: Conn, request: Request, n: nat): (d: Conn)
    requires c.pending.Idle?
    ensures d.pending.Idle? && |d.issued| == |c.issued| + n && d.down == c.down && d.returned == c.returned && d.garbled == c.garbled
  {
    if n == 0 then c else Issue(IssueMany(c, request, n - 1), request, OneWay)
  }

  /** Ids repeat after 2^32 requests: a call may then be given the unread reply to a request made 2^32 calls earlier. */
  lemma WrappedIdReturnsOldReply(addr: nat, first: Answered, request: Request, stale: bytes)
    requires first.outs == [Result(SeqOf(0), stale)] && |stale| <= MAX_PAYLOAD
    ensures var asked := Issue(NewConn(addr), request, OneWay);
            var answered := Serviced(asked, asked.tracking, first, first.outs);
            var waiting := Issue(IssueMany(answered, request, U32_COUNT - 1), request, Blocking);
            && waiting.pending == Unary(U32_COUNT) && waiting.down != []
            && Receive(waiting).returned == [Return(U32_COUNT, stale)] && |Receive(waiting).answers| == 1
  {
    var asked := Issue(NewConn(addr), request, OneWay);
    assert asked.up == [Ask(SeqOf(0), request)];
    var answered := Serviced(asked, asked.tracking, first, first.outs);
    var many := IssueMany(answered, request, U32_COUNT - 1);
    assert |many.issued| == U32_COUNT && many.down == first.outs;
    assert SeqOf(U32_COUNT) == SeqOf(0);
    var waiting := Issue(many, request, Blocking);
    assert Taken(waiting).pending == waiting.pending && Taken(waiting).returned == [];
    IssueManyKeepsAnswers(answered, request, U32_COUNT - 1);
  }

  /** The size limit is needed as well: a call whose result is over it throws, and the next call can be given a result that
      was never sent, from inside that payload (Limits.EmbeddedFrameIsRead shows such bytes). */
  lemma OversizedResultMisleads(c: Conn, request: Request, evil: bytes)
    requires ConnInv(c) && c.pending.Unary? && !c.garbled && c.down != [] && c.down[0].Result?
    requires Encodable(c.down[0]) && !Sendable(c.down[0])
    ensures var i, next := |c.issued|, Issue(Receive(c), request, Blocking);
            && next.garbled && next.pending == Unary(i) && |next.answers| <= i
            && Misread(next, Result(SeqOf(i), evil)).returned == c.returned + [Return(i, evil)]
  {
    hide Sendable, Encodable;
  }

  lemma {:induction false} IssueManyKeepsAnswers(c: Conn, request: Request, n: nat)
    requires c.pending.Idle?
    ensures IssueMany(c, request, n).answers == c.answers
  {
    if n > 0 {
      IssueManyKeepsAnswers(c, request, n - 1);
    }
  }
}
