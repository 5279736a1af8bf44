/** The demo server's stream table: commands are collected chunk by chunk and answered once. */
module ServerStreams {
  import opened Words
  import opened Callbacks

  /** What a stream may be told; the end of the connection is no business of its streams. */
  type StreamEvent = e: CallbackEvent | e != Close && e != ApplicationClose witness NoEvent

  const COMMAND_MAX: nat := 2100

  datatype Status = Idle | Finished

  const CARRIAGE_RETURN: Byte := 13
  const LINE_FEED: Byte := 10

  predicate EndsLine(bytes: seq<Byte>) {
    CARRIAGE_RETURN in bytes || LINE_FEED in bytes
  }

  // ----- One stream as a value -----

  /** Everything accepted so far, and how many replies, each ending the stream, were queued. */
  datatype StreamValue = StreamValue(status: Status, accepted: seq<Byte>, replies: nat)

  const NEW_STREAM: StreamValue := StreamValue(Idle, [], 0)

  datatype Input = Input(bytes: seq<Byte>, event: StreamEvent)

  predicate Abandons(event: StreamEvent) {
    event == StopSending || event == StreamReset
  }

  /** There is no more to accept, or no room for it. */
  predicate Refuses(v: StreamValue, length: nat) {
    v.status == Finished || |v.accepted| + length > COMMAND_MAX - 1
  }

  predicate Completes(input: Input) {
    input.event == StreamFin || EndsLine(input.bytes)
  }

  function After(v: StreamValue, input: Input): StreamValue {
    if Abandons(input.event) then v.(status := Finished)
    else if Refuses(v, |input.bytes|) then v
    else if Completes(input) then StreamValue(Finished, v.accepted + input.bytes, v.replies + 1)
    else v.(accepted := v.accepted + input.bytes)
  }

  function AfterAll(inputs: seq<Input>): StreamValue {
    if inputs == [] then NEW_STREAM else After(AfterAll(inputs[..|inputs| - 1]), inputs[|inputs| - 1])
  }

  /** Input number k is accepted: the stream is not finished and the bytes fit. */
  predicate TakenIn(inputs: seq<Input>, k: nat)
    requires k < |inputs|
  {
    !Abandons(inputs[k].event) && !Refuses(AfterAll(inputs[..k]), |inputs[k].bytes|)
  }

  function AcceptedBytes(inputs: seq<Input>): seq<Byte> {
    if inputs == [] then []
    else
      var earlier := AcceptedBytes(inputs[..|inputs| - 1]);
      if TakenIn(inputs, |inputs| - 1) then earlier + inputs[|inputs| - 1].bytes else earlier
  }

  ghost predicate SomeCompleted(inputs: seq<Input>) {
    exists k :: 0 <= k < |inputs| && TakenIn(inputs, k) && Completes(inputs[k])
  }

  ghost predicate SomeAbandoned(inputs: seq<Input>) {
    exists k :: 0 <= k < |inputs| && Abandons(inputs[k].event)
  }

  lemma LastInput(inputs: seq<Input>)
    requires inputs != []
    ensures var n := |inputs| - 1;
            && (SomeCompleted(inputs) <==> SomeCompleted(inputs[..n]) || (TakenIn(inputs, n) && Completes(inputs[n])))
            && (SomeAbandoned(inputs) <==> SomeAbandoned(inputs[..n]) || Abandons(inputs[n].event))
  {
    hide After, Completes, Abandons, Refuses, AfterAll;
    var n := |inputs| - 1;
    var earlier := inputs[..n];
    forall k: nat | k < n
      ensures TakenIn(inputs, k) == TakenIn(earlier, k) && inputs[k] == earlier[k]
    {
      assert inputs[..k] == earlier[..k];
    }
  }

  /** Over the whole life of a stream: the command is exactly the chunks taken in and fits
      the buffer, and it is answered at most once, namely if and only if some chunk
      taken in completes it, after which nothing is taken in any more. */
  lemma {:induction false} StreamLife(inputs: seq<Input>)
    ensures var v := AfterAll(inputs);
            && v.accepted == AcceptedBytes(inputs) && |v.accepted| <= COMMAND_MAX - 1
            && v.replies == (if SomeCompleted(inputs) then 1 else 0)
            && (v.status == Finished <==> SomeCompleted(inputs) || SomeAbandoned(inputs))
  {
    hide SomeCompleted, SomeAbandoned, Completes, Abandons;
    if inputs == [] {
      NothingHappened();
    } else {
      StreamLife(inputs[..|inputs| - 1]);
      LastInput(inputs);
    }
  }

  lemma NothingHappened()
    ensures !SomeCompleted([]) && !SomeAbandoned([])
  {
  }

  /** The life of a stream told from its first input on, with so much room for the command:
      what is too long is passed over, an abandoned stream is finished without reply, and
      the first chunk accepted that has a line end, or comes with the FIN, is answered
      and ends it. */
  function Life(inputs: seq<Input>, room: nat): StreamValue {
    if inputs == [] then StreamValue(Idle, [], 0)
    else
      var Input(bytes, event) := inputs[0];
      if event == StopSending || event == StreamReset then StreamValue(Finished, [], 0)
      else if |bytes| > room then Life(inputs[1..], room)
      else if event == StreamFin || 13 in bytes || 10 in bytes then StreamValue(Finished, bytes, 1)
      else
        var rest := Life(inputs[1..], room - |bytes|);
        rest.(accepted := bytes + rest.accepted)
  }

  function AfterFrom(v: StreamValue, inputs: seq<Input>): StreamValue
    decreases |inputs|
  {
    if inputs == [] then v else AfterFrom(After(v, inputs[0]), inputs[1..])
  }

  lemma {:induction false} AfterLast(v: StreamValue, inputs: seq<Input>, last: Input)
    ensures AfterFrom(v, inputs + [last]) == After(AfterFrom(v, inputs), last)
    decreases |inputs|
  {
    hide After;
    if inputs == [] {
      assert ([] + [last])[1..] == [];
    } else {
      assert (inputs + [last])[1..] == inputs[1..] + [last];
      AfterLast(After(v, inputs[0]), inputs[1..], last);
    }
  }

  lemma {:induction false} AfterAllFromNew(inputs: seq<Input>)
    ensures AfterAll(inputs) == AfterFrom(NEW_STREAM, inputs)
  {
    hide After;
    if inputs != [] {
      var n := |inputs| - 1;
      AfterAllFromNew(inputs[..n]);
      AfterLast(NEW_STREAM, inputs[..n], inputs[n]);
      assert inputs[..n] + [inputs[n]] == inputs;
    }
  }

  lemma {:induction false} LifeGoesOn(v: StreamValue, inputs: seq<Input>)
    requires v.status == Idle && |v.accepted| <= 2099
    ensures var rest := Life(inputs, 2099 - |v.accepted|);
            AfterFrom(v, inputs) == StreamValue(rest.status, v.accepted + rest.accepted, v.replies + rest.replies)
    decreases |inputs|
  {
    if inputs == [] {
      assert v.accepted + [] == v.accepted;
    } else {
      var w := After(v, inputs[0]);
      if w.status == Idle {
        LifeGoesOn(w, inputs[1..]);
        if w != v {
          var rest := Life(inputs[1..], 2099 - |w.accepted|);
          assert v.accepted + inputs[0].bytes + rest.accepted == v.accepted + (inputs[0].bytes + rest.accepted);
        }
      } else {
        FinishedStays(w, inputs[1..]);
        assert v.accepted + [] == v.accepted;
      }
    }
  }

  lemma {:induction false} FinishedStays(v: StreamValue, inputs: seq<Input>)
    requires v.status == Finished
    ensures AfterFrom(v, inputs) == v
    decreases |inputs|
  {
    if inputs != [] {
      FinishedStays(v, inputs[1..]);
    }
  }

  lemma AfterAllIsLife(inputs: seq<Input>)
    ensures AfterAll(inputs) == Life(inputs, 2099)
  {
    hide AfterAll, AfterFrom, Life;
    AfterAllFromNew(inputs);
    LifeGoesOn(NEW_STREAM, inputs);
    var life := Life(inputs, 2099);
    assert [] + life.accepted == life.accepted;
  }

  // ----- The objects -----

  class Stream {
    const streamId: nat
    const command: array<Byte>
    var status: Status
    var commandLength: nat
    var responseLength: nat
    ghost var replies: nat
    /** Everything the stream was told. */
    ghost var inputs: seq<Input>

    /** The length leaves a byte to spare for the terminator. */
    ghost predicate Sized()
      reads this
    {
      command.Length == COMMAND_MAX && commandLength < COMMAND_MAX
    }

    ghost function Value(): StreamValue
      requires Sized()
      reads this, command
    {
      StreamValue(status, command[..commandLength], replies)
    }

    /** The stream is what its inputs make of it. */
    ghost predicate Valid()
      reads this, command
    {
      Sized() && Value() == AfterAll(inputs) && (responseLength != 0 ==> status == Finished)
    }

    constructor (streamId: nat)
      ensures Valid() && fresh(command) && this.streamId == streamId && inputs == []
    {
      this.streamId := streamId;
      command := new Byte[COMMAND_MAX](_ => 0);
      status, commandLength, responseLength, replies, inputs := Idle, 0, 0, 0, [];
    }

    method Append(bytes: seq<Byte>)
      requires Sized() && !Refuses(Value(), |bytes|)
      modifies this`commandLength, command
      ensures Sized() && Value() == old(Value()).(accepted := old(Value()).accepted + bytes)
    {
      forall k | 0 <= k < |bytes| {
        command[commandLength + k] := bytes[k];
      }
      assert command[..commandLength] == old(command[..commandLength]);
      assert command[..commandLength + |bytes|] == command[..commandLength] + bytes;
      commandLength := commandLength + |bytes|;
    }

    /** Puts the terminator behind the command. */
    method Terminate()
      requires Sized()
      modifies command
      ensures Value() == old(Value()) && command[commandLength] == 0
    {
      ghost var text := command[..commandLength];
      command[commandLength] := 0;
      assert command[..commandLength] == text;
    }

    method HasLineEnd(bytes: seq<Byte>) returns (present: bool)
      ensures present == EndsLine(bytes)
    {
      present := false;
      var i := 0;
      while i < |bytes|
        invariant i <= |bytes| && !EndsLine(bytes[..i])
      {
        if bytes[i] == CARRIAGE_RETURN || bytes[i] == LINE_FEED {
          return true;
        }
        i := i + 1;
      }
      assert bytes[..i] == bytes;
    }

    /** One input; `reset` tells whether the stream is reset, `response` is the length of the
        answer the request turns out to be worth. */
    method Handle(bytes: seq<Byte>, event: StreamEvent, response: nat) returns (reset: bool)
      requires Valid()
      modifies this, command
      ensures Valid() && inputs == old(inputs) + [Input(bytes, event)]
      ensures Value() == After(old(Value()), Input(bytes, event))
      ensures if event == StopSending || event == StreamReset then
                reset && Value() == old(Value()).(status := Finished)
              else if old(status) == Finished || old(commandLength) + |bytes| > 2099 then
                reset && Value() == old(Value())
              else
                && !reset
                && command[..commandLength] == old(command[..commandLength]) + bytes && command[commandLength] == 0
                && if event == StreamFin || 13 in bytes || 10 in bytes then
                     status == Finished && replies == old(replies) + 1 && responseLength == response
                   else
                     status == Idle && replies == old(replies)
    {
      hide AfterAll;
      AfterOneMore(inputs, Input(bytes, event));
      inputs := inputs + [Input(bytes, event)];
      if event == StopSending || event == StreamReset {
        status := Finished;
        return true;
      }
      if status == Finished || commandLength + |bytes| > COMMAND_MAX - 1 {
        return true;
      }
      reset := false;
      var crlfPresent := HasLineEnd(bytes);
      Append(bytes);
      if (event == StreamFin || crlfPresent) && responseLength == 0 {
        Terminate();
        status := Finished;
        responseLength := response;
        replies := replies + 1;
      } else if responseLength == 0 {
        Terminate();
      }
    }
  }

  lemma AfterOneMore(inputs: seq<Input>, input: Input)
    ensures AfterAll(inputs + [input]) == After(AfterAll(inputs), input)
  {
    hide After;
    assert (inputs + [input])[..|inputs|] == inputs;
  }

  /** What happened to the streams of a connection, in order. */
  type History = seq<(nat, Input)>

  function InputsOf(history: History, streamId: nat): seq<Input> {
    if history == [] then []
    else
      var (id, input) := history[|history| - 1];
      InputsOf(history[..|history| - 1], streamId) + if id == streamId then [input] else []
  }

  lemma InputsOneMore(history: History, id: nat, input: Input, streamId: nat)
    ensures InputsOf(history + [(id, input)], streamId)
         == InputsOf(history, streamId) + if id == streamId then [input] else []
  {
    assert (history + [(id, input)])[..|history|] == history;
  }

  class Context {
    var streams: seq<Stream>
    ghost var history: History

    ghost function Buffers(): set<object>
      reads this
    {
      set t | t in streams :: t.command
    }

    ghost function Footprint(): set<object>
      reads this
    {
      {this} + (set t: Stream | t in streams) + Buffers()
    }

    /** Stream ids are pairwise distinct, and so are the buffers; whatever was told a stream
        was told one in the table, and each was told exactly its share of the history. */
    ghost predicate Sound()
      reads this, streams, Buffers()
    {
      && (forall s :: s in streams ==> s.Valid() && s.inputs == InputsOf(history, s.streamId))
      && (forall i, j :: 0 <= i < j < |streams| ==>
            streams[i].streamId != streams[j].streamId && streams[i].command != streams[j].command)
      && (forall id: nat :: InputsOf(history, id) != [] ==> Knows(id))
    }

    /** Besides, every stream in the table was told something. */
    ghost predicate Valid()
      reads this, streams, Buffers()
    {
      Sound() && forall s :: s in streams ==> s.inputs != []
    }

    ghost predicate Knows(streamId: nat)
      reads this
    {
      exists t :: t in streams && t.streamId == streamId
    }

    constructor ()
      ensures Valid() && streams == [] && history == []
    {
      streams, history := [], [];
    }

    /** The position of a stream in the table, or the size of the table. */
    method Find(streamId: nat) returns (i: nat)
      ensures i <= |streams| && (i < |streams| ==> streams[i].streamId == streamId)
      ensures i == |streams| ==> !Knows(streamId)
    {
      i := 0;
      while i < |streams| && streams[i].streamId != streamId
        invariant i <= |streams|
        invariant forall j :: 0 <= j < i ==> streams[j].streamId != streamId
      {
        i := i + 1;
      }
    }

    /** Puts a new stream in front of the table. */
    method Create(streamId: nat) returns (s: Stream)
      requires Sound() && !Knows(streamId)
      modifies this`streams
      ensures Sound() && s.streamId == streamId
      ensures streams == [s] + old(streams) && fresh(s) && fresh(s.command) && s.Value() == NEW_STREAM
    {
      hide AfterAll, InputsOf;
      NewStreamToldNothing();
      s := new Stream(streamId);
      streams := [s] + streams;
      assert forall id: nat :: old(Knows(id)) ==> Knows(id) by {
        assert forall t :: t in old(streams) ==> t in streams;
      }
    }

    /** The context of a stream, put in front of the table when it is not there yet. */
    method FindOrCreate(streamId: nat) returns (s: Stream)
      requires Sound()
      modifies this`streams
      ensures Sound() && s in streams && s.streamId == streamId && s.Valid()
      ensures fresh(Footprint() - old(Footprint()))
      ensures if old(Knows(streamId)) then streams == old(streams)
              else streams == [s] + old(streams) && fresh(s) && fresh(s.command) && s.Value() == NEW_STREAM
    {
      hide AfterAll, InputsOf;
      var i := Find(streamId);
      if i < |streams| {
        s := streams[i];
      } else {
        s := Create(streamId);
      }
    }

    /** Tells one stream of the table, and puts it into the history. */
    method Tell(s: Stream, input: Input, response: nat) returns (reset: bool)
      requires Sound() && s in streams
      modifies this`history, s, s.command
      ensures Sound() && history == old(history) + [(s.streamId, input)] && s.Valid() && s.inputs != []
      ensures s.Value() == After(old(s.Value()), input)
      ensures old(s.status) == Finished ==> s.Value() == old(s.Value())
      ensures forall t :: t in streams && t != s ==> t.command != s.command
    {
      hide After, AfterAll, InputsOf, Refuses, Abandons;
      assert forall t :: t in streams && t != s ==> t.command != s.command;
      FinishedForGood(s.Value(), input);
      reset := s.Handle(input.bytes, input.event, response);
      history := history + [(s.streamId, input)];
      assert forall t :: t in streams && t != s ==> t.Valid() && t.inputs == old(t.inputs);
      assert forall id: nat :: Knows(id) == old(Knows(id));
      forall id: nat
        ensures InputsOf(history, id) == InputsOf(old(history), id) + if id == s.streamId then [input] else []
      {
        InputsOneMore(old(history), s.streamId, input, id);
      }
    }

    /** One input to one stream, created for it if need be; the other streams are
        untouched, and a finished stream stays as it is. */
    method Receive(streamId: nat, bytes: seq<Byte>, event: StreamEvent, response: nat)
      returns (s: Stream, reset: bool)
      requires Valid()
      modifies Footprint()
      ensures Valid() && fresh(Footprint() - old(Footprint()))
      ensures history == old(history) + [(streamId, Input(bytes, event))]
      ensures s in streams && s.streamId == streamId
      ensures if old(Knows(streamId)) then
                streams == old(streams) && s.Value() == After(old(s.Value()), Input(bytes, event))
              else
                && streams == [s] + old(streams) && fresh(s) && fresh(s.command)
                && s.Value() == After(NEW_STREAM, Input(bytes, event))
      ensures forall t :: t in old(streams) && t != s ==> unchanged(t) && unchanged(t.command)
      ensures old(Knows(streamId)) && old(s.status) == Finished ==> s.Value() == old(s.Value())
    {
      hide Sound, After, AfterAll, InputsOf;
      s := FindOrCreate(streamId);
      reset := Tell(s, Input(bytes, event), response);
    }

    /** What the table says of any stream at any time: the command is exactly the chunks
        of its history that were taken in, at most 2099 bytes; there is one reply if and
        only if one of these completed it, else none; and it is finished exactly if one
        did, or it was abandoned. */
    lemma EveryStreamAnswersOnce(s: Stream)
      requires Valid() && s in streams
      ensures var inputs := InputsOf(history, s.streamId);
              && s.commandLength <= 2099
              && s.Value() == Life(inputs, 2099)
              && s.command[..s.commandLength] == AcceptedBytes(inputs)
              && s.replies == (if SomeCompleted(inputs) then 1 else 0)
              && (s.status == Finished <==> SomeCompleted(inputs) || SomeAbandoned(inputs))
    {
      hide AfterAll, Life, SomeCompleted, SomeAbandoned;
      StreamLife(s.inputs);
      AfterAllIsLife(s.inputs);
    }
  }

  lemma NewStreamToldNothing()
    ensures AfterAll([]) == NEW_STREAM
  {
  }

  lemma FinishedForGood(v: StreamValue, input: Input)
    ensures v.status == Finished ==> After(v, input) == v
  {
  }

  /** The callback of a connection, which keeps the context between calls: none before
      the first event, and none any more once the connection has ended. */
  class Connection {
    var context: Context?

    ghost function Footprint(): set<object>
      reads this, context
    {
      if context == null then {} else context.Footprint()
    }

    ghost predicate Valid()
      reads this, Footprint()
    {
      context != null ==> context.Valid()
    }

    constructor ()
      ensures Valid() && context == null
    {
      context := null;
    }

    /** Makes a context unless there is one. */
    method NeedContext()
      requires Valid()
      modifies this
      ensures context != null && context.Valid() && fresh(Footprint() - old(Footprint()))
      ensures if old(context) == null then fresh(context) && context.history == [] else context == old(context)
    {
      hide After, AfterAll, InputsOf;
      if context == null {
        context := new Context();
      }
    }

    /** What the connection comes to hold is new, so that callbacks can follow each other. */
    method Callback(streamId: nat, bytes: seq<Byte>, event: CallbackEvent, response: nat)
      requires Valid()
      modifies this, Footprint()
      ensures Valid() && fresh(Footprint() - old(Footprint()))
      ensures if EndsConnection(event) then context == null
              else
                var told := (streamId, Input(bytes, event));
                && context != null
                && if old(context) == null then fresh(context) && context.history == [told]
                   else context == old(context) && context.history == old(context.history) + [told]
    {
      hide Context.Valid, Context.Sound, After, AfterAll, InputsOf;
      if event == Close || event == ApplicationClose {
        context := null;
        return;
      }
      NeedContext();
      var s, reset := context.Receive(streamId, bytes, event, response);
    }

    /** Any callbacks one after the other, from the start of the connection: the context
        holds exactly the history since the connection was last closed. */
    method CallAll(calls: seq<Call>)
      requires Valid() && context == null
      modifies this
      ensures Valid() && fresh(Footprint() - {this})
      ensures Holds(HistorySince(calls))
    {
      hide After, AfterAll, InputsOf, EndsConnection;
      var i := 0;
      while i < |calls|
        invariant i <= |calls| && Valid() && fresh(Footprint() - {this})
        invariant Holds(HistorySince(calls[..i]))
      {
        assert calls[..i + 1][..i] == calls[..i];
        Callback(calls[i].streamId, calls[i].bytes, calls[i].event, calls[i].response);
        i := i + 1;
      }
      assert calls[..i] == calls;
    }

    ghost predicate Holds(history: Option<History>)
      reads this, context
    {
      if history.None? then context == null else context != null && context.history == history.value
    }
  }

  datatype Call = Call(streamId: nat, bytes: seq<Byte>, event: CallbackEvent, response: nat)

  predicate EndsConnection(event: CallbackEvent) {
    event == Close || event == ApplicationClose
  }

  /** What the streams were told since the connection was last closed; nothing if it was not used since. */
  function HistorySince(calls: seq<Call>): Option<History> {
    if calls == [] then None
    else
      var last := calls[|calls| - 1];
      if EndsConnection(last.event) then None
      else
        var earlier := HistorySince(calls[..|calls| - 1]);
        var told := (last.streamId, Input(last.bytes, last.event));
        Some(if earlier.None? then [told] else earlier.value + [told])
  }
}
