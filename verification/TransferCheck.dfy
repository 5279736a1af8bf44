/**
 The checker of the transfer scenarios: every chunk an endpoint is handed is
 compared with what was sent, errors are remembered, and a final check decides
 whether the scenario went well.
 */
module TransferCheck {
  import opened Words
  import opened Callbacks

  /** The bits of the error word. */
  datatype Failure =
    | DataOnUnknownStream
    | ReceivedLargerThanSent
    | FinReceivedTwice
    | CannotSendResponse
    | CannotSendQuery
    | DataDoesNotMatch

  const DATA_FAILURES: set<Failure> := {ReceivedLargerThanSent, DataDoesNotMatch}

  /** The failures that tell of what the channels were handed. */
  const CHANNEL_FAILURES: set<Failure> := {ReceivedLargerThanSent, DataDoesNotMatch, FinReceivedTwice}

  /** How a direction came to its end: it was told so, or the checker marked it. */
  datatype End = Told | Marked

  /** It was told an end after it had come to one. */
  ghost predicate EndedAgain(ends: seq<End>) {
    exists i :: 0 < i < |ends| && ends[i].Told?
  }

  lemma OneMoreEnd(ends: seq<End>, end: End)
    ensures EndedAgain(ends + [end]) <==> EndedAgain(ends) || (end.Told? && ends != [])
  {
    var more := ends + [end];
    if i :| 0 < i < |ends| && ends[i].Told? {
      assert more[i].Told?;
    }
    if end.Told? && ends != [] {
      assert more[|ends|].Told?;
    }
  }

  /** The callback context of one endpoint. */
  class Endpoint {
    const clientMode: bool
    var errors: set<Failure>

    constructor (clientMode: bool)
      ensures this.clientMode == clientMode && errors == {}
    {
      this.clientMode, errors := clientMode, {};
    }
  }

  /** What was received in one direction, the ends it came to, and how. */
  datatype Direction = Direction(data: seq<Byte>, ends: seq<End>, received: CallbackEvent)

  /** One direction of a stream: what is sent, the buffer it is received in, how many bytes
      came, and how the direction ended. `data` is everything received so far, `fitted`
      the part of it that came before there was no room any more. */
  class Channel {
    const src: seq<Byte>
    const rcv: array<Byte>
    var recvNb: nat
    var received: CallbackEvent
    ghost var data: seq<Byte>
    ghost var fitted: seq<Byte>
    ghost var ends: seq<End>

    /** The buffer starts with what fitted, which is everything unless there is too much. */
    ghost predicate Valid()
      reads this, rcv
    {
      && rcv.Length == |src| && |data| == recvNb && |fitted| <= |src|
      && fitted <= data && (|data| <= |src| ==> fitted == data)
      && rcv[..|fitted|] == fitted
      && (received == NoEvent <==> ends == [])
    }

    ghost function Value(): Direction
      reads this
    {
      Direction(data, ends, received)
    }

    /** What was received is so far what was sent. */
    ghost predicate Faithful()
      reads this
    {
      data <= src
    }

    /** The channel gives reason for the failure: it received more than was sent, or something
        else, or an end too many. */
    ghost predicate Shows(f: Failure)
      reads this
    {
      match f
      case ReceivedLargerThanSent => |data| > |src|
      case DataDoesNotMatch => !(fitted <= src)
      case FinReceivedTwice => EndedAgain(ends)
      case _ => false
    }

    lemma FaithfulExactly()
      requires Valid()
      ensures Faithful() <==> !Shows(ReceivedLargerThanSent) && !Shows(DataDoesNotMatch)
    {
    }

    constructor (src: seq<Byte>)
      ensures Valid() && Faithful() && fresh(rcv) && this.src == src
      ensures data == [] && fitted == [] && received == NoEvent && ends == []
    {
      this.src := src;
      rcv := new Byte[|src|](_ => 0);
      recvNb, received, data, fitted, ends := 0, NoEvent, [], [], [];
    }
  }

  /** The errors a chunk gives rise to. */
  function ChunkFailures(src: seq<Byte>, nb: nat, bytes: seq<Byte>): set<Failure> {
    if nb + |bytes| > |src| then {ReceivedLargerThanSent}
    else if src[nb..nb + |bytes|] != bytes then {DataDoesNotMatch}
    else {}
  }

  function FinFailures(received: CallbackEvent, event: CallbackEvent): set<Failure> {
    if event != NoEvent && received != NoEvent then {FinReceivedTwice} else {}
  }

  /** What fits, once a chunk has come. */
  function Fitted(src: seq<Byte>, fitted: seq<Byte>, nb: nat, bytes: seq<Byte>): seq<Byte> {
    if nb + |bytes| <= |src| then fitted + bytes else fitted
  }

  /** A chunk fails for its size exactly when more than what was sent has come with it, and for
      its contents exactly when it makes what fits differ from what was sent. */
  lemma ChunkFails(src: seq<Byte>, fitted: seq<Byte>, nb: nat, bytes: seq<Byte>)
    requires |fitted| <= nb && (nb <= |src| ==> |fitted| == nb)
    ensures ChunkFailures(src, nb, bytes) <= DATA_FAILURES
    ensures ReceivedLargerThanSent in ChunkFailures(src, nb, bytes) <==> nb + |bytes| > |src|
    ensures !(Fitted(src, fitted, nb, bytes) <= src)
       <==> !(fitted <= src) || DataDoesNotMatch in ChunkFailures(src, nb, bytes)
  {
    if nb + |bytes| <= |src| {
      var more := fitted + bytes;
      if more <= src {
        assert src[..nb] == more[..nb] == fitted;
        assert src[nb..nb + |bytes|] == more[nb..] == bytes;
      }
      if fitted <= src && src[nb..nb + |bytes|] == bytes {
        assert src[..nb + |bytes|] == src[..nb] + src[nb..nb + |bytes|];
      }
    }
  }

  /** An end is a failure exactly when it is told after the direction had come to one. */
  lemma EndFails(received: CallbackEvent, ends: seq<End>, event: CallbackEvent)
    requires received == NoEvent <==> ends == []
    ensures FinFailures(received, event) <= {FinReceivedTwice}
    ensures EndedAgain(ends + if event != NoEvent then [Told] else [])
       <==> EndedAgain(ends) || FinFailures(received, event) != {}
  {
    hide EndedAgain;
    OneMoreEnd(ends, Told);
    assert ends + [] == ends;
  }

  method CopyInto(buffer: array<Byte>, at: nat, bytes: seq<Byte>)
    requires at + |bytes| <= buffer.Length
    modifies buffer
    ensures buffer[..at + |bytes|] == old(buffer[..at]) + bytes
  {
    forall k | 0 <= k < |bytes| {
      buffer[at + k] := bytes[k];
    }
  }

  method ReceiveEnd(event: CallbackEvent, c: Channel, e: Endpoint)
    requires c.Valid()
    modifies c`received, c`ends, e
    ensures c.Valid() && e.errors == old(e.errors) + FinFailures(old(c.received), event)
    ensures c.received == if event != NoEvent then event else old(c.received)
    ensures c.ends == old(c.ends) + if event != NoEvent then [Told] else []
  {
    if event != NoEvent {
      if c.received != NoEvent {
        e.errors := e.errors + {FinReceivedTwice};
      }
      c.received := event;
      c.ends := c.ends + [Told];
    }
  }

  /** Copies a chunk behind what was received before, if there is room, and compares it
      with what was sent. */
  method ReceiveBytes(bytes: seq<Byte>, c: Channel, e: Endpoint)
    requires c.Valid()
    modifies c`recvNb, c`data, c`fitted, c.rcv, e
    ensures c.Valid() && c.data == old(c.data) + bytes
    ensures c.fitted == Fitted(c.src, old(c.fitted), |old(c.data)|, bytes)
    ensures e.errors == old(e.errors) + ChunkFailures(c.src, |old(c.data)|, bytes)
  {
    if c.recvNb + |bytes| > c.rcv.Length {
      e.errors := e.errors + {ReceivedLargerThanSent};
    } else {
      CopyInto(c.rcv, c.recvNb, bytes);
      c.fitted := c.fitted + bytes;
      if c.src[c.recvNb..c.recvNb + |bytes|] != bytes {
        e.errors := e.errors + {DataDoesNotMatch};
      }
    }
    c.recvNb := c.recvNb + |bytes|;
    c.data := c.data + bytes;
  }

  /** A chunk, and possibly an end: the failures it adds are exactly those the channel gives
      reason for from now on. */
  method ReceiveStreamData(bytes: seq<Byte>, event: CallbackEvent, c: Channel, e: Endpoint)
    requires c.Valid()
    modifies c, c.rcv, e
    ensures c.Valid() && c.data == old(c.data) + bytes && c.recvNb == old(c.recvNb) + |bytes|
    ensures c.received == if event != NoEvent then event else old(c.received)
    ensures c.ends == old(c.ends) + if event != NoEvent then [Told] else []
    ensures var more := ChunkFailures(c.src, |old(c.data)|, bytes) + FinFailures(old(c.received), event);
            && e.errors == old(e.errors) + more
            && more <= CHANNEL_FAILURES
            && forall f :: f in CHANNEL_FAILURES ==> (c.Shows(f) <==> old(c.Shows(f)) || f in more)
  {
    hide ChunkFailures, FinFailures, EndedAgain;
    ChunkFails(c.src, c.fitted, |c.data|, bytes);
    EndFails(c.received, c.ends, event);
    ReceiveBytes(bytes, c, e);
    ReceiveEnd(event, c, e);
  }

  // ----- The scenario -----

  /** What an endpoint was handed of a stream. */
  datatype Chunk = Chunk(bytes: seq<Byte>, event: CallbackEvent)

  function Text(chunks: seq<Chunk>): seq<Byte> {
    if chunks == [] then [] else Text(chunks[..|chunks| - 1]) + chunks[|chunks| - 1].bytes
  }

  /** How many of the chunks ended the direction. */
  function Endings(chunks: seq<Chunk>): nat {
    if chunks == [] then 0
    else Endings(chunks[..|chunks| - 1]) + if chunks[|chunks| - 1].event != NoEvent then 1 else 0
  }

  /** How many of the queries ended without a response being due: reset, or when there is none. */
  function Unanswered(chunks: seq<Chunk>, noResponse: bool): nat {
    if chunks == [] then 0
    else
      var event := chunks[|chunks| - 1].event;
      Unanswered(chunks[..|chunks| - 1], noResponse)
      + if event == StreamReset || (event != NoEvent && noResponse) then 1 else 0
  }

  function CountEnds(ends: seq<End>, end: End): nat {
    if ends == [] then 0 else CountEnds(ends[..|ends| - 1], end) + if ends[|ends| - 1] == end then 1 else 0
  }

  /** A channel received exactly what its endpoint was handed, and was told as many ends. */
  ghost predicate Holds(data: seq<Byte>, ends: seq<End>, chunks: seq<Chunk>) {
    data == Text(chunks) && CountEnds(ends, Told) == Endings(chunks)
  }

  lemma OneMoreChunk(data: seq<Byte>, ends: seq<End>, chunks: seq<Chunk>, chunk: Chunk)
    requires Holds(data, ends, chunks)
    ensures Holds(data + chunk.bytes, ends + if chunk.event != NoEvent then [Told] else [], chunks + [chunk])
  {
    assert (chunks + [chunk])[..|chunks|] == chunks;
    assert (ends + [Told])[..|ends|] == ends && ends + [] == ends;
  }

  lemma OneMoreQuery(chunks: seq<Chunk>, chunk: Chunk, noResponse: bool, ends: seq<End>)
    requires CountEnds(ends, Marked) == Unanswered(chunks, noResponse)
    ensures var over := chunk.event == StreamReset || (chunk.event != NoEvent && noResponse);
            CountEnds(ends + if over then [Marked] else [], Marked) == Unanswered(chunks + [chunk], noResponse)
  {
    assert (chunks + [chunk])[..|chunks|] == chunks;
    assert (ends + [Marked])[..|ends|] == ends && ends + [] == ends;
  }

  lemma AnotherEnd(ends: seq<End>, end: End, other: End)
    ensures CountEnds(ends + [other], end) == CountEnds(ends, end) + if other == end then 1 else 0
  {
    assert (ends + [other])[..|ends|] == ends;
  }

  /** The two directions of a stream, and what the endpoints were handed of it. */
  datatype StreamState = StreamState(q: Direction, r: Direction, toClient: seq<Chunk>, toServer: seq<Chunk>)

  /** The client asks on even streams, the server on odd ones: queries are what the other
      endpoint is handed, responses what the asking one is. The end of the responses
      is marked once for every query that ended without a response being due. */
  ghost predicate Route(streamId: nat, noResponse: bool, toClient: seq<Chunk>, toServer: seq<Chunk>,
                        qData: seq<Byte>, qEnds: seq<End>, rData: seq<Byte>, rEnds: seq<End>)
  {
    var (queries, responses) := if streamId % 2 == 0 then (toServer, toClient) else (toClient, toServer);
    && Holds(qData, qEnds, queries) && Holds(rData, rEnds, responses)
    && CountEnds(qEnds, Marked) == 0 && CountEnds(rEnds, Marked) == Unanswered(queries, noResponse)
  }

  lemma RouteQuery(streamId: nat, noResponse: bool, toClient: seq<Chunk>, toServer: seq<Chunk>,
                   qData: seq<Byte>, qEnds: seq<End>, rData: seq<Byte>, rEnds: seq<End>, chunk: Chunk)
    requires Route(streamId, noResponse, toClient, toServer, qData, qEnds, rData, rEnds)
    ensures var atClient := streamId % 2 != 0;
            var over := chunk.event == StreamReset || (chunk.event != NoEvent && noResponse);
            Route(streamId, noResponse,
                  toClient + (if atClient then [chunk] else []), toServer + (if atClient then [] else [chunk]),
                  qData + chunk.bytes, qEnds + (if chunk.event != NoEvent then [Told] else []),
                  rData + [], rEnds + (if over then [Marked] else []))
  {
    hide Text, Endings, Unanswered, CountEnds;
    var (queries, responses) := if streamId % 2 == 0 then (toServer, toClient) else (toClient, toServer);
    OneMoreChunk(qData, qEnds, queries, chunk);
    OneMoreQuery(queries, chunk, noResponse, rEnds);
    AnotherEnd(qEnds, Marked, Told);
    AnotherEnd(rEnds, Told, Marked);
    assert qEnds + [] == qEnds && rEnds + [] == rEnds && rData + [] == rData && responses + [] == responses;
  }

  lemma RouteResponse(streamId: nat, noResponse: bool, toClient: seq<Chunk>, toServer: seq<Chunk>,
                      qData: seq<Byte>, qEnds: seq<End>, rData: seq<Byte>, rEnds: seq<End>, chunk: Chunk)
    requires Route(streamId, noResponse, toClient, toServer, qData, qEnds, rData, rEnds)
    ensures var atClient := streamId % 2 == 0;
            Route(streamId, noResponse,
                  toClient + (if atClient then [chunk] else []), toServer + (if atClient then [] else [chunk]),
                  qData + [], qEnds + [],
                  rData + chunk.bytes, rEnds + (if chunk.event != NoEvent then [Told] else []))
  {
    hide Text, Endings, Unanswered, CountEnds;
    var (queries, responses) := if streamId % 2 == 0 then (toServer, toClient) else (toClient, toServer);
    OneMoreChunk(rData, rEnds, responses, chunk);
    AnotherEnd(rEnds, Marked, Told);
    assert qEnds + [] == qEnds && rEnds + [] == rEnds && qData + [] == qData && queries + [] == queries;
  }

  class TestStream {
    const streamId: nat
    const previousStreamId: nat
    const q: Channel
    const r: Channel
    var qSent: bool
    ghost var toClient: seq<Chunk>
    ghost var toServer: seq<Chunk>

    ghost function State(): StreamState
      reads this, q, r
    {
      StreamState(q.Value(), r.Value(), toClient, toServer)
    }

    /** A response, which an endpoint is handed on streams of its own, goes to r. */
    ghost predicate ResponseTaken(v: StreamState, w: StreamState, chunk: Chunk,
                                  before: set<Failure>, errors: set<Failure>)
    {
      && w.q == v.q
      && w.r == Direction(v.r.data + chunk.bytes, v.r.ends + (if chunk.event != NoEvent then [Told] else []),
                          if chunk.event != NoEvent then chunk.event else v.r.received)
      && errors == before + (ChunkFailures(r.src, |v.r.data|, chunk.bytes) + FinFailures(v.r.received, chunk.event))
    }

    /** A query goes to q. When it ends it is answered, if no error has been seen, unless no
        response is due: then r has come to its end as well. */
    ghost predicate QueryTaken(v: StreamState, w: StreamState, chunk: Chunk,
                               before: set<Failure>, errors: set<Failure>, responseAccepted: bool)
    {
      var over := chunk.event == StreamReset || (chunk.event != NoEvent && |r.src| == 0);
      var more := before + (ChunkFailures(q.src, |v.q.data|, chunk.bytes) + FinFailures(v.q.received, chunk.event));
      && w.q == Direction(v.q.data + chunk.bytes, v.q.ends + (if chunk.event != NoEvent then [Told] else []),
                          if chunk.event != NoEvent then chunk.event else v.q.received)
      && w.r == (if over then Direction(v.r.data, v.r.ends + [Marked], StreamFin) else v.r)
      && errors == more + (if chunk.event != NoEvent && !over && more == {} && !responseAccepted
                           then {CannotSendResponse} else {})
    }

    /** A chunk at the client or the server: what it is, where it goes, and the errors the
        endpoint has after it. */
    ghost predicate ChunkTaken(v: StreamState, w: StreamState, chunk: Chunk, atClient: bool,
                               before: set<Failure>, errors: set<Failure>, responseAccepted: bool)
    {
      && w.toClient == v.toClient + (if atClient then [chunk] else [])
      && w.toServer == v.toServer + (if atClient then [] else [chunk])
      && if (streamId % 2 == 0) == atClient then ResponseTaken(v, w, chunk, before, errors)
         else QueryTaken(v, w, chunk, before, errors, responseAccepted)
    }

    /** Its own end ends a response; its end ends a query if no response is due, and a reset does. */
    predicate Finishes(event: CallbackEvent, atClient: bool) {
      event == StreamReset || (event != NoEvent && ((streamId % 2 == 0) == atClient || |r.src| == 0))
    }

    /** Every direction received what was handed to the endpoint at its end. */
    ghost predicate Routed()
      reads this, q, r
    {
      Route(streamId, |r.src| == 0, toClient, toServer, q.data, q.ends, r.data, r.ends)
    }

    constructor (streamId: nat, previousStreamId: nat, q: Channel, r: Channel)
      ensures this.streamId == streamId && this.previousStreamId == previousStreamId
      ensures this.q == q && this.r == r && !qSent && toClient == [] && toServer == []
    {
      this.streamId, this.previousStreamId, this.q, this.r, qSent := streamId, previousStreamId, q, r, false;
      toClient, toServer := [], [];
    }
  }

  class Scenario {
    const streams: seq<TestStream>
    const client: Endpoint
    const server: Endpoint
    var testFinished: bool

    ghost function Channels(): set<Channel> {
      (set s | s in streams :: s.q) + (set s | s in streams :: s.r)
    }

    ghost function Buffers(): set<array<Byte>> {
      set c | c in Channels() :: c.rcv
    }

    /** Every direction is a channel of its own, with a buffer of its own. */
    ghost predicate Separate() {
      && client != server && client.clientMode && !server.clientMode
      && (forall i, j :: 0 <= i < |streams| && 0 <= j < |streams| ==> streams[i].q != streams[j].r)
      && (forall i, j :: 0 <= i < j < |streams| ==>
            streams[i] != streams[j] && streams[i].q != streams[j].q && streams[i].r != streams[j].r)
      && (forall c, d :: c in Channels() && d in Channels() && c != d ==> c.rcv != d.rcv)
    }

    ghost function Errors(): set<Failure>
      reads client, server
    {
      client.errors + server.errors
    }

    /** The errors of both endpoints together tell exactly whether some direction received
        more than was sent, whether some direction received something else than was sent,
        and whether some direction was told an end after it had come to one. */
    ghost predicate Balanced()
      reads client, server, Channels(), Buffers()
    {
      && (forall c :: c in Channels() ==> c.Valid())
      && (forall f :: f in CHANNEL_FAILURES ==> (f in Errors() <==> exists c :: c in Channels() && c.Shows(f)))
    }

    ghost predicate Sound()
      reads client, server, Channels(), Buffers()
    {
      Separate() && Balanced()
    }

    /** And every direction received exactly what its endpoint was handed. */
    ghost predicate Valid()
      reads client, server, Channels(), Buffers(), streams
    {
      Sound() && forall s :: s in streams ==> s.Routed()
    }

    /** No data error means that every direction received a prefix of what was sent. */
    lemma DataErrorsExactly()
      requires Balanced()
      ensures DATA_FAILURES !! Errors() <==> forall c :: c in Channels() ==> c.Faithful()
    {
      hide Channel.Shows, Channel.Faithful, Channel.Valid;
      forall c | c in Channels()
        ensures c.Faithful() <==> !c.Shows(ReceivedLargerThanSent) && !c.Shows(DataDoesNotMatch)
      {
        c.FaithfulExactly();
      }
      assert DATA_FAILURES !! Errors()
        <==> ReceivedLargerThanSent !in Errors() && DataDoesNotMatch !in Errors();
    }

    constructor (streams: seq<TestStream>, client: Endpoint, server: Endpoint)
      requires client != server && client.clientMode && !server.clientMode
      requires forall i, j :: 0 <= i < |streams| && 0 <= j < |streams| ==> streams[i].q != streams[j].r
      requires forall i, j :: 0 <= i < j < |streams| ==>
                 streams[i] != streams[j] && streams[i].q != streams[j].q && streams[i].r != streams[j].r
      requires client.errors == {} && server.errors == {}
      requires var all := (set s | s in streams :: s.q) + (set s | s in streams :: s.r);
               && (forall c :: c in all ==> c.Valid() && c.data == [] && c.ends == [])
               && (forall s :: s in streams ==> s.toClient == [] && s.toServer == [])
               && (forall c, d :: c in all && d in all && c != d ==> c.rcv != d.rcv)
      ensures Valid() && this.streams == streams && this.client == client && this.server == server
    {
      this.streams, this.client, this.server, testFinished := streams, client, server, false;
    }

    lemma ChannelsAreValid(c: Channel)
      requires Balanced() && c in Channels()
      ensures c.Valid()
    {
    }

    lemma ChannelsApart(c: Channel)
      requires Sound() && c in Channels()
      ensures |c.data| == c.recvNb && (c.received == NoEvent <==> c.ends == [])
      ensures forall d :: d in Channels() && d != c ==> d.rcv != c.rcv
      ensures client != server
    {
    }

    /** One chunk on one channel keeps the books straight. */
    method Receive(bytes: seq<Byte>, event: CallbackEvent, c: Channel, e: Endpoint)
      requires Sound() && c in Channels() && e in {client, server}
      modifies c, c.rcv, e
      ensures Sound()
      ensures c.data == old(c.data) + bytes
      ensures e.errors
           == old(e.errors) + (ChunkFailures(c.src, |old(c.data)|, bytes) + FinFailures(old(c.received), event))
      ensures c.received == if event != NoEvent then event else old(c.received)
      ensures c.ends == old(c.ends) + if event != NoEvent then [Told] else []
    {
      hide Separate, Channel.Valid, Channel.Shows, ChunkFailures, FinFailures;
      ghost var more := ChunkFailures(c.src, |c.data|, bytes) + FinFailures(c.received, event);
      ChannelsApart(c);
      ReceiveStreamData(bytes, event, c, e);
      assert Errors() == old(Errors()) + more;
      assert forall d :: d in Channels() && d != c ==> d.rcv != c.rcv && d.Valid();
      assert forall d, f :: d in Channels() && d != c ==> d.Shows(f) == old(d.Shows(f));
    }

    /** A channel's part in the books is the same. */
    twostate predicate SameBooks(c: Channel)
      reads c, c.rcv
    {
      c.Valid() == old(c.Valid()) && forall f :: f in CHANNEL_FAILURES ==> c.Shows(f) == old(c.Shows(f))
    }

    method MarkSent(s: TestStream)
      modifies s`qSent
      ensures s.qSent && Balanced() == old(Balanced())
    {
      s.qSent := true;
      assert forall d :: d in Channels() ==> SameBooks(d);
    }

    method SetFinished(finished: bool)
      modifies this`testFinished
      ensures testFinished == finished && Balanced() == old(Balanced())
    {
      testFinished := finished;
      assert forall d :: d in Channels() ==> SameBooks(d);
    }

    /** Of which streams the query was sent. */
    ghost function Sent(): seq<bool>
      reads streams
    {
      seq(|streams|, i requires 0 <= i < |streams| reads streams => streams[i].qSent)
    }

    /** The queries waiting for a stream were started, all of them or up to the first,
        number k, that the connection refused. */
    ghost predicate QueriesStarted(before: seq<bool>, after: seq<bool>, finished: bool,
                                   streamId: nat, accepts: nat -> bool, k: nat)
      requires |before| == |after| == |streams|
    {
      && k <= |streams|
      && (k < |streams| ==> streams[k].previousStreamId == streamId && !accepts(k))
      && (forall i: nat :: i < k && streams[i].previousStreamId == streamId ==> accepts(i))
      && (forall i :: 0 <= i < |streams| ==>
            after[i] == (before[i] || (i < k && streams[i].previousStreamId == streamId)))
      && (finished <==> forall i :: 0 <= i < k ==> streams[i].previousStreamId != streamId)
    }

    /** Starts the queries that wait for a stream: all of them in order, up to the first
        the connection refuses. The test is finished when none was started. */
    method QueueInitialQueries(streamId: nat, accepts: nat -> bool) returns (ok: bool, ghost k: nat)
      requires Separate()
      modifies this`testFinished, streams`qSent
      ensures Balanced() == old(Balanced())
      ensures QueriesStarted(old(Sent()), Sent(), testFinished, streamId, accepts, k) && (ok <==> k == |streams|)
    {
      hide Balanced;
      ok := true;
      var moreStream := false;
      var i := 0;
      while ok && i < |streams|
        invariant Balanced() == old(Balanced()) && i <= |streams|
        invariant !ok ==> i < |streams| && streams[i].previousStreamId == streamId && !accepts(i)
        invariant forall j: nat :: j < i && streams[j].previousStreamId == streamId ==> accepts(j)
        invariant forall j :: 0 <= j < |streams| ==>
                    streams[j].qSent == (old(streams[j].qSent) || (j < i && streams[j].previousStreamId == streamId))
        invariant moreStream <==> exists j :: 0 <= j < i && streams[j].previousStreamId == streamId
        decreases |streams| - i, ok
      {
        if streams[i].previousStreamId == streamId {
          ok := accepts(i);
          if ok {
            MarkSent(streams[i]);
            moreStream := true;
          }
        }
        if ok {
          i := i + 1;
        }
      }
      SetFinished(!moreStream);
      k := i;
    }

    /** The first stream with the given id, or the number of streams. */
    method Find(streamId: nat) returns (i: nat)
      ensures i <= |streams| && (i < |streams| ==> streams[i].streamId == streamId)
      ensures forall j :: 0 <= j < i ==> streams[j].streamId != streamId
    {
      i := 0;
      while i < |streams|
        invariant i <= |streams| && forall j :: 0 <= j < i ==> streams[j].streamId != streamId
      {
        if streams[i].streamId == streamId {
          break;
        }
        i := i + 1;
      }
    }

    ghost predicate FirstWith(i: nat, streamId: nat) {
      i < |streams| && streams[i].streamId == streamId && forall j :: 0 <= j < i ==> streams[j].streamId != streamId
    }

    method AddFailure(cb: Endpoint, f: Failure)
      requires cb in {client, server} && f !in CHANNEL_FAILURES
      modifies cb
      ensures cb.errors == old(cb.errors) + {f} && Balanced() == old(Balanced())
    {
      cb.errors := cb.errors + {f};
      assert forall c :: c in Channels() ==> SameBooks(c);
    }

    method MarkEnded(c: Channel)
      requires c.Valid()
      modifies c`received, c`ends
      ensures c.received == StreamFin && c.ends == old(c.ends) + [Marked] && Balanced() == old(Balanced())
    {
      OneMoreEnd(c.ends, Marked);
      c.received := StreamFin;
      c.ends := c.ends + [Marked];
      assert forall d :: d in Channels() ==> SameBooks(d);
    }

    /** What the end of a query leads to: no response is due, or it is sent. */
    method EndQuery(s: TestStream, event: CallbackEvent, cb: Endpoint, responseAccepted: bool) returns (over: bool)
      requires Sound() && cb in {client, server} && s in streams
      modifies cb, s.r`received, s.r`ends
      ensures Sound()
      ensures over <==> event == StreamReset || (event != NoEvent && |s.r.src| == 0)
      ensures s.r.Value() == if over then Direction(s.r.data, old(s.r.ends) + [Marked], StreamFin) else old(s.r.Value())
      ensures cb.errors
           == old(cb.errors) + if event != NoEvent && !over && old(cb.errors) == {} && !responseAccepted
                               then {CannotSendResponse} else {}
    {
      hide Balanced;
      over := false;
      if event != NoEvent {
        if |s.r.src| == 0 || event == StreamReset {
          ChannelsAreValid(s.r);
          MarkEnded(s.r);
          over := true;
        } else if cb.errors == {} && !responseAccepted {
          AddFailure(cb, CannotSendResponse);
        }
      }
    }

    lemma StreamsApart(s: TestStream)
      requires Separate() && s in streams
      ensures s.q != s.r && s.q in Channels() && s.r in Channels()
      ensures forall t :: t in streams && t != s ==> {t.q, t.r} !! {s.q, s.r}
    {
    }

    method Record(s: TestStream, chunk: Chunk, atClient: bool)
      modifies s`toClient, s`toServer
      ensures s.toClient == old(s.toClient) + if atClient then [chunk] else []
      ensures s.toServer == old(s.toServer) + if atClient then [] else [chunk]
      ensures Balanced() == old(Balanced())
    {
      if atClient {
        s.toClient := s.toClient + [chunk];
      } else {
        s.toServer := s.toServer + [chunk];
      }
      assert forall d :: d in Channels() ==> SameBooks(d);
    }

    /** A response goes to r. */
    method TakeResponse(s: TestStream, bytes: seq<Byte>, event: CallbackEvent, cb: Endpoint)
      requires Valid() && cb in {client, server} && s in streams && (s.streamId % 2 == 0) == cb.clientMode
      modifies cb, s.r, s.r.rcv, s`toClient, s`toServer
      ensures Valid()
      ensures forall accepted :: s.ChunkTaken(old(s.State()), s.State(), Chunk(bytes, event), cb.clientMode,
                                              old(cb.errors), cb.errors, accepted)
    {
      hide Balanced, Separate, Route, ChunkFailures, FinFailures;
      StreamsApart(s);
      RouteResponse(s.streamId, |s.r.src| == 0, s.toClient, s.toServer, s.q.data, s.q.ends, s.r.data, s.r.ends,
                    Chunk(bytes, event));
      assert s.q.data + [] == s.q.data && s.q.ends + [] == s.q.ends;
      Receive(bytes, event, s.r, cb);
      Record(s, Chunk(bytes, event), cb.clientMode);
    }

    method ReceiveQuery(s: TestStream, bytes: seq<Byte>, event: CallbackEvent, cb: Endpoint, responseAccepted: bool)
      returns (over: bool)
      requires Sound() && cb in {client, server} && s in streams
      modifies cb, s.q, s.q.rcv, s.r`received, s.r`ends
      ensures Sound()
      ensures s.QueryTaken(old(s.State()), s.State(), Chunk(bytes, event), old(cb.errors), cb.errors, responseAccepted)
      ensures over <==> event == StreamReset || (event != NoEvent && |s.r.src| == 0)
    {
      hide Balanced, Separate, ChunkFailures, FinFailures;
      StreamsApart(s);
      Receive(bytes, event, s.q, cb);
      over := EndQuery(s, event, cb, responseAccepted);
    }

    /** A query goes to q, and when it ends r may come to its end as well. */
    method TakeQuery(s: TestStream, bytes: seq<Byte>, event: CallbackEvent, cb: Endpoint, responseAccepted: bool)
      returns (over: bool)
      requires Valid() && cb in {client, server} && s in streams && (s.streamId % 2 == 0) != cb.clientMode
      modifies cb, s.q, s.q.rcv, s.r`received, s.r`ends, s`toClient, s`toServer
      ensures Valid()
      ensures s.ChunkTaken(old(s.State()), s.State(), Chunk(bytes, event), cb.clientMode,
                           old(cb.errors), cb.errors, responseAccepted)
      ensures over <==> event == StreamReset || (event != NoEvent && |s.r.src| == 0)
    {
      hide Balanced, Separate, Route, ChunkFailures, FinFailures, Channel.Valid;
      StreamsApart(s);
      RouteQuery(s.streamId, |s.r.src| == 0, s.toClient, s.toServer, s.q.data, s.q.ends, s.r.data, s.r.ends,
                 Chunk(bytes, event));
      assert s.r.data + [] == s.r.data;
      over := ReceiveQuery(s, bytes, event, cb, responseAccepted);
      assert s.r.ends == old(s.r.ends) + if over then [Marked] else [];
      Record(s, Chunk(bytes, event), cb.clientMode);
    }

    method FollowUp(streamId: nat, finished: bool, cb: Endpoint, accepts: nat -> bool) returns (ghost k: nat)
      requires Sound() && cb in {client, server}
      modifies this`testFinished, streams`qSent, cb
      ensures Sound()
      ensures if finished && old(cb.errors) == {} then
                && QueriesStarted(old(Sent()), Sent(), testFinished, streamId, accepts, k)
                && cb.errors == if k < |streams| then {CannotSendQuery} else {}
              else testFinished == old(testFinished) && Sent() == old(Sent()) && cb.errors == old(cb.errors)
    {
      hide Balanced;
      k := 0;
      if finished && cb.errors == {} {
        var ok;
        ok, k := QueueInitialQueries(streamId, accepts);
        if !ok {
          AddFailure(cb, CannotSendQuery);
        }
      }
    }

    /** A chunk for a stream goes to one direction. Tells whether the exchange is over. */
    method Take(s: TestStream, bytes: seq<Byte>, event: CallbackEvent, cb: Endpoint, responseAccepted: bool)
      returns (finished: bool)
      requires Valid() && cb in {client, server} && s in streams
      modifies cb, Channels(), Buffers(), s`toClient, s`toServer
      ensures Valid()
      ensures s.ChunkTaken(old(s.State()), s.State(), Chunk(bytes, event), cb.clientMode,
                           old(cb.errors), cb.errors, responseAccepted)
      ensures forall t :: t in streams && t != s ==> t.State() == old(t.State())
      ensures Sent() == old(Sent())
      ensures finished <==> s.Finishes(event, cb.clientMode)
    {
      hide Balanced, Separate, Route, TestStream.ChunkTaken, Channel.Valid;
      StreamsApart(s);
      if (s.streamId % 2 == 0) == cb.clientMode {
        TakeResponse(s, bytes, event, cb);
        finished := event != NoEvent;
      } else {
        finished := TakeQuery(s, bytes, event, cb, responseAccepted);
      }
    }

    /** A chunk for a stream is delivered; when that ends the exchange and no error has
        been seen, the queries waiting for the stream are started. */
    method HandOver(s: TestStream, bytes: seq<Byte>, event: CallbackEvent, cb: Endpoint,
                    responseAccepted: bool, accepts: nat -> bool)
      returns (ghost errors: set<Failure>, ghost k: nat)
      requires Valid() && cb in {client, server} && s in streams
      modifies this, streams, cb, Channels(), Buffers()
      ensures Valid()
      ensures s.ChunkTaken(old(s.State()), s.State(), Chunk(bytes, event), cb.clientMode,
                           old(cb.errors), errors, responseAccepted)
      ensures forall t :: t in streams && t != s ==> t.State() == old(t.State())
      ensures if s.Finishes(event, cb.clientMode) && errors == {} then
                && QueriesStarted(old(Sent()), Sent(), testFinished, s.streamId, accepts, k)
                && cb.errors == if k < |streams| then {CannotSendQuery} else {}
              else testFinished == old(testFinished) && Sent() == old(Sent()) && cb.errors == errors
    {
      hide Balanced, Separate, Route, TestStream.ChunkTaken, TestStream.Finishes, QueriesStarted;
      var finished := Take(s, bytes, event, cb, responseAccepted);
      errors := cb.errors;
      k := FollowUp(s.streamId, finished, cb, accepts);
    }

    /** One callback at one endpoint: the end of the connection and requests to stop
        sending change nothing here, an unknown stream is an error, anything else is a
        chunk for the first stream with the given id. Errors are never forgotten. */
    method Callback(streamId: nat, bytes: seq<Byte>, event: CallbackEvent, cb: Endpoint,
                    responseAccepted: bool, accepts: nat -> bool)
      returns (ghost i: nat, ghost errors: set<Failure>, ghost k: nat)
      requires Valid() && cb in {client, server}
      modifies this, streams, cb, Channels(), Buffers()
      ensures Valid() && old(cb.errors) <= cb.errors
      ensures event != Close && event != ApplicationClose ==>
                FirstWith(i, streamId) || (i == |streams| && forall j :: 0 <= j < i ==> streams[j].streamId != streamId)
      ensures if event == Close || event == ApplicationClose then unchanged(this, streams, cb, Channels())
              else if i == |streams| then
                cb.errors == old(cb.errors) + {DataOnUnknownStream} && unchanged(this, streams, Channels())
              else if event == StopSending then unchanged(this, streams, cb, Channels())
              else
                && streams[i].ChunkTaken(old(streams[i].State()), streams[i].State(), Chunk(bytes, event),
                                         cb.clientMode, old(cb.errors), errors, responseAccepted)
                && (forall t :: t in streams && t != streams[i] ==> t.State() == old(t.State()))
                && if streams[i].Finishes(event, cb.clientMode) && errors == {} then
                     && QueriesStarted(old(Sent()), Sent(), testFinished, streamId, accepts, k)
                     && cb.errors == if k < |streams| then {CannotSendQuery} else {}
                   else testFinished == old(testFinished) && Sent() == old(Sent()) && cb.errors == errors
    {
      hide Balanced, Separate, Route, TestStream.Finishes, QueriesStarted, ChunkFailures, FinFailures;
      i, errors, k := 0, cb.errors, 0;
      if event == Close || event == ApplicationClose {
        return;
      }
      var found := Find(streamId);
      i := found;
      if found >= |streams| {
        AddFailure(cb, DataOnUnknownStream);
        return;
      }
      if event == StopSending {
        return;
      }
      errors, k := HandOver(streams[found], bytes, event, cb, responseAccepted, accepts);
    }

    /** The verdict on the scenario: when it is zero, every direction of every stream has
        received exactly the bytes that were sent on it, and its buffer holds them. */
    method FinalCheck() returns (ret: int)
      requires Valid()
      ensures ret == 0 <==>
                && client.errors == {} && server.errors == {}
                && forall i :: 0 <= i < |streams| ==>
                     && streams[i].q.recvNb == |streams[i].q.src| && streams[i].r.recvNb == |streams[i].r.src|
                     && streams[i].q.received != NoEvent && streams[i].r.received != NoEvent
      ensures ret == 0 ==> forall c :: c in Channels() ==> c.data == c.src && c.rcv[..] == c.src
      ensures ret == 0 ==> forall s :: s in streams ==>
                && s.q.src == Text(if s.streamId % 2 == 0 then s.toServer else s.toClient)
                && s.r.src == Text(if s.streamId % 2 == 0 then s.toClient else s.toServer)
    {
      ret := 0;
      if server.errors != {} || client.errors != {} {
        return -1;
      }
      var i := 0;
      while ret == 0 && i < |streams|
        invariant i <= |streams|
        invariant ret == 0 ==> forall j :: 0 <= j < i ==>
                    && streams[j].q.recvNb == |streams[j].q.src| && streams[j].r.recvNb == |streams[j].r.src|
                    && streams[j].q.received != NoEvent && streams[j].r.received != NoEvent
        invariant ret != 0 ==> i < |streams|
        invariant ret != 0 ==>
                    || streams[i].q.recvNb != |streams[i].q.src| || streams[i].r.recvNb != |streams[i].r.src|
                    || streams[i].q.received == NoEvent || streams[i].r.received == NoEvent
        decreases |streams| - i, ret == 0
      {
        if streams[i].q.recvNb != |streams[i].q.src| {
          ret := -1;
        } else if streams[i].r.recvNb != |streams[i].r.src| {
          ret := -1;
        } else if streams[i].q.received == NoEvent || streams[i].r.received == NoEvent {
          ret := -1;
        } else {
          i := i + 1;
        }
      }
    }
  }
}
