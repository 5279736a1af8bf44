/** The demo client: a scenario of documents to fetch, each on a stream opened when another ends. */
module ClientScenario {
  import opened Callbacks

  /** An entry of the scenario; a previous stream of zero means from the start. */
  datatype Entry = Entry(streamId: nat, previousStreamId: nat)

  /** A stream context; it is open as long as it has a file. */
  datatype Stream = Stream(streamId: nat, open: bool, receivedLength: nat)

  function CountOpen(s: seq<Stream>): nat {
    if s == [] then 0 else (if s[0].open then 1 else 0) + CountOpen(s[1..])
  }

  function OpenWith(s: seq<Stream>, id: nat): nat {
    if s == [] then 0 else (if s[0].open && s[0].streamId == id then 1 else 0) + OpenWith(s[1..], id)
  }

  lemma {:induction false} AfterUpdate(s: seq<Stream>, i: nat, x: Stream)
    requires i < |s| && s[i].open && x.streamId == s[i].streamId
    ensures CountOpen(s[i := x]) == CountOpen(s) - if x.open then 0 else 1
    ensures forall id :: OpenWith(s[i := x], id) == OpenWith(s, id) - if id == x.streamId && !x.open then 1 else 0
  {
    var t := s[i := x];
    if i > 0 {
      assert t[1..] == s[1..][i - 1 := x];
      AfterUpdate(s[1..], i - 1, x);
    } else {
      assert t[1..] == s[1..];
    }
  }

  lemma {:induction false} NoneOpen(s: seq<Stream>)
    requires forall i :: 0 <= i < |s| ==> !s[i].open
    ensures CountOpen(s) == 0
  {
    if s != [] {
      NoneOpen(s[1..]);
    }
  }

  /** The first context with the given id, or the number of contexts. */
  function FirstWith(s: seq<Stream>, id: nat): (i: nat)
    ensures i <= |s| && (i < |s| ==> s[i].streamId == id) && forall j :: 0 <= j < i ==> s[j].streamId != id
  {
    if s == [] || s[0].streamId == id then 0 else 1 + FirstWith(s[1..], id)
  }

  /** The contexts that the first n entries put in front of the list when a stream ends. */
  function Started(demo: seq<Entry>, ended: nat, canOpen: nat -> bool, n: nat): seq<Stream>
    requires n <= |demo|
  {
    if n == 0 then []
    else
      var earlier := Started(demo, ended, canOpen, n - 1);
      if demo[n - 1].previousStreamId == ended then [Stream(demo[n - 1].streamId, canOpen(n - 1), 0)] + earlier
      else earlier
  }

  /** The list, the counters, and a history: how often each stream id was opened with a
      file, ended by FIN, or closed in another way. */
  datatype Books = Books(
    streams: seq<Stream>, nbOpen: int, nbClient: int,
    openings: multiset<nat>, fins: multiset<nat>, others: multiset<nat>)

  /** The counters agree with the list, and every context opened with a file is accounted for. */
  ghost predicate Balanced(b: Books) {
    && b.nbOpen == CountOpen(b.streams)
    && b.nbClient == |b.openings|
    && forall id: nat :: b.openings[id] == b.fins[id] + b.others[id] + OpenWith(b.streams, id)
  }

  lemma BalancedAfterOpening(b: Books, id: nat, canOpen: bool)
    requires Balanced(b)
    ensures var s := [Stream(id, canOpen, 0)] + b.streams;
            Balanced(if canOpen then Books(s, b.nbOpen + 1, b.nbClient + 1, b.openings + multiset{id}, b.fins, b.others)
                     else b.(streams := s))
  {
    assert ([Stream(id, canOpen, 0)] + b.streams)[1..] == b.streams;
  }

  lemma BalancedAfterUpdate(b: Books, i: nat, x: Stream)
    requires Balanced(b) && i < |b.streams| && b.streams[i].open && x.streamId == b.streams[i].streamId
    ensures x.open ==> Balanced(b.(streams := b.streams[i := x]))
    ensures !x.open ==>
              var c := b.(streams := b.streams[i := x], nbOpen := b.nbOpen - 1);
              && Balanced(c.(fins := b.fins + multiset{x.streamId}))
              && Balanced(c.(others := b.others + multiset{x.streamId}))
  {
    AfterUpdate(b.streams, i, x);
  }

  /** An entry has been started exactly once for every FIN accepted on the stream it
      waits for, and entries that wait for none once per launch. */
  ghost predicate StartedOnce(demo: seq<Entry>, started: multiset<nat>, launches: nat, fins: multiset<nat>) {
    forall e :: 0 <= e < |demo| ==>
      started[e] == if demo[e].previousStreamId == 0 then launches else fins[demo[e].previousStreamId]
  }

  /** One more start of every entry that waits for a stream. */
  ghost predicate StartedMore(demo: seq<Entry>, before: multiset<nat>, after: multiset<nat>, ended: nat, n: nat) {
    forall e :: 0 <= e < |demo| ==>
      after[e] == before[e] + if e < n && demo[e].previousStreamId == ended then 1 else 0
  }

  lemma OneMoreFin(demo: seq<Entry>, before: multiset<nat>, after: multiset<nat>,
                   launches: nat, fins: multiset<nat>, id: nat)
    requires StartedOnce(demo, before, launches, fins)
    ensures id != 0 && StartedMore(demo, before, after, id, |demo|) ==>
              StartedOnce(demo, after, launches, fins + multiset{id})
    ensures id == 0 ==> StartedOnce(demo, before, launches, fins + multiset{id})
    ensures StartedMore(demo, before, after, 0, |demo|) ==> StartedOnce(demo, after, launches + 1, fins)
  {
  }

  /** The contexts made for a stream id, open or not; none is ever removed. */
  function CountWith(s: seq<Stream>, id: nat): nat {
    if s == [] then 0 else (if s[0].streamId == id then 1 else 0) + CountWith(s[1..], id)
  }

  /** How often the first n entries were started, of those for the stream id. */
  function StartsOf(demo: seq<Entry>, started: multiset<nat>, id: nat, n: nat): nat
    requires n <= |demo|
  {
    if n == 0 then 0
    else StartsOf(demo, started, id, n - 1) + if demo[n - 1].streamId == id then started[n - 1] else 0
  }

  /** There is a context for every start of an entry, for the entry's own stream. */
  ghost predicate Matched(demo: seq<Entry>, s: seq<Stream>, started: multiset<nat>) {
    forall id: nat :: CountWith(s, id) == StartsOf(demo, started, id, |demo|)
  }

  lemma {:induction false} OneMoreStart(demo: seq<Entry>, started: multiset<nat>, i: nat, id: nat, n: nat)
    requires i < |demo| && n <= |demo|
    ensures StartsOf(demo, started + multiset{i}, id, n)
         == StartsOf(demo, started, id, n) + if i < n && demo[i].streamId == id then 1 else 0
  {
    if n > 0 {
      OneMoreStart(demo, started, i, id, n - 1);
    }
  }

  lemma MatchedAfterStart(demo: seq<Entry>, s: seq<Stream>, started: multiset<nat>, i: nat, open: bool)
    requires Matched(demo, s, started) && i < |demo|
    ensures Matched(demo, [Stream(demo[i].streamId, open, 0)] + s, started + multiset{i})
  {
    var more := [Stream(demo[i].streamId, open, 0)] + s;
    assert more[1..] == s;
    forall id: nat
      ensures CountWith(more, id) == StartsOf(demo, started + multiset{i}, id, |demo|)
    {
      OneMoreStart(demo, started, i, id, |demo|);
    }
  }

  lemma {:induction false} SameIds(s: seq<Stream>, i: nat, x: Stream, id: nat)
    requires i < |s| && x.streamId == s[i].streamId
    ensures CountWith(s[i := x], id) == CountWith(s, id)
  {
    var t := s[i := x];
    if i > 0 {
      assert t[1..] == s[1..][i - 1 := x];
      SameIds(s[1..], i - 1, x, id);
    } else {
      assert t[1..] == s[1..];
    }
  }

  lemma MatchedAfterUpdate(demo: seq<Entry>, s: seq<Stream>, started: multiset<nat>, i: nat, x: Stream)
    requires Matched(demo, s, started) && i < |s| && x.streamId == s[i].streamId
    ensures Matched(demo, s[i := x], started)
  {
    forall id: nat
      ensures CountWith(s[i := x], id) == CountWith(s, id)
    {
      SameIds(s, i, x, id);
    }
  }

  /** One start for every launch, or for every FIN on the stream waited for, of each of
      the first n entries for the stream id. */
  function DueStarts(demo: seq<Entry>, launches: nat, fins: multiset<nat>, id: nat, n: nat): nat
    requires n <= |demo|
  {
    if n == 0 then 0
    else
      DueStarts(demo, launches, fins, id, n - 1)
      + if demo[n - 1].streamId != id then 0
        else if demo[n - 1].previousStreamId == 0 then launches
        else fins[demo[n - 1].previousStreamId]
  }

  lemma {:induction false} StartsAreDue(demo: seq<Entry>, started: multiset<nat>, launches: nat, fins: multiset<nat>,
                                        id: nat, n: nat)
    requires n <= |demo| && StartedOnce(demo, started, launches, fins)
    ensures StartsOf(demo, started, id, n) == DueStarts(demo, launches, fins, id, n)
  {
    if n > 0 {
      StartsAreDue(demo, started, launches, fins, id, n - 1);
    }
  }

  lemma NoStarts(demo: seq<Entry>, id: nat, n: nat)
    requires n <= |demo|
    ensures StartsOf(demo, multiset{}, id, n) == 0
  {
  }

  lemma OneInFront(demo: seq<Entry>, ended: nat, canOpen: nat -> bool, i: nat, s: seq<Stream>, before: seq<Stream>)
    requires i < |demo| && demo[i].previousStreamId == ended && before == Started(demo, ended, canOpen, i) + s
    ensures [Stream(demo[i].streamId, canOpen(i), 0)] + before == Started(demo, ended, canOpen, i + 1) + s
  {
  }

  lemma NothingStarted(demo: seq<Entry>, started: multiset<nat>, ended: nat)
    ensures StartedMore(demo, started, started, ended, 0)
  {
  }

  lemma OneMoreEntry(demo: seq<Entry>, before: multiset<nat>, after: multiset<nat>, ended: nat, i: nat)
    requires StartedMore(demo, before, after, ended, i) && i < |demo|
    ensures var more := if demo[i].previousStreamId == ended then after + multiset{i} else after;
            StartedMore(demo, before, more, ended, i + 1)
  {
  }

  class Client {
    const demo: seq<Entry>
    var streams: seq<Stream>
    var nbOpenStreams: int
    var nbClientStreams: int
    ghost var openings: multiset<nat>
    ghost var fins: multiset<nat>
    ghost var others: multiset<nat>
    /** How often the scenario was launched, and each of its entries started. */
    ghost var launches: nat
    ghost var started: multiset<nat>

    ghost function Value(): Books
      reads this
    {
      Books(streams, nbOpenStreams, nbClientStreams, openings, fins, others)
    }

    ghost predicate Valid()
      reads this
    {
      Balanced(Value()) && StartedOnce(demo, started, launches, fins) && Matched(demo, streams, started)
    }

    constructor (demo: seq<Entry>)
      ensures Valid() && this.demo == demo && streams == [] && nbOpenStreams == 0 && launches == 0
    {
      this.demo := demo;
      streams, nbOpenStreams, nbClientStreams := [], 0, 0;
      openings, fins, others, launches, started := multiset{}, multiset{}, multiset{}, 0, multiset{};
      new;
      forall id: nat
        ensures StartsOf(demo, started, id, |demo|) == 0
      {
        NoStarts(demo, id, |demo|);
      }
    }

    /** Puts a context in front of the list, open if its file can be created. */
    method OpenStream(streamId: nat, canOpen: bool)
      requires Balanced(Value())
      modifies this`streams, this`nbOpenStreams, this`nbClientStreams, this`openings
      ensures Balanced(Value()) && streams == [Stream(streamId, canOpen, 0)] + old(streams)
    {
      hide Balanced;
      BalancedAfterOpening(Value(), streamId, canOpen);
      streams := [Stream(streamId, false, 0)] + streams;
      if canOpen {
        streams := streams[0 := Stream(streamId, true, 0)];
        nbOpenStreams := nbOpenStreams + 1;
        nbClientStreams := nbClientStreams + 1;
        openings := openings + multiset{streamId};
      }
      assert streams == [Stream(streamId, canOpen, 0)] + old(streams);
    }

    /** Opens a stream for every entry that waits for the one that ended. */
    method StartStreams(ended: nat, canOpen: nat -> bool)
      requires Balanced(Value()) && Matched(demo, streams, started)
      modifies this`streams, this`nbOpenStreams, this`nbClientStreams, this`openings, this`started
      ensures Balanced(Value()) && Matched(demo, streams, started)
      ensures streams == Started(demo, ended, canOpen, |demo|) + old(streams)
      ensures StartedMore(demo, old(started), started, ended, |demo|)
    {
      hide Balanced, StartedMore, Matched, CountWith, StartsOf;
      NothingStarted(demo, started, ended);
      var i := 0;
      while i < |demo|
        invariant i <= |demo| && Balanced(Value()) && Matched(demo, streams, started)
        invariant streams == Started(demo, ended, canOpen, i) + old(streams)
        invariant StartedMore(demo, old(started), started, ended, i)
      {
        OneMoreEntry(demo, old(started), started, ended, i);
        if demo[i].previousStreamId == ended {
          ghost var before := streams;
          MatchedAfterStart(demo, streams, started, i, canOpen(i));
          OpenStream(demo[i].streamId, canOpen(i));
          started := started + multiset{i};
          OneInFront(demo, ended, canOpen, i, old(streams), before);
        }
        i := i + 1;
      }
    }

    method LaunchScenario(canOpen: nat -> bool)
      requires Valid()
      modifies this
      ensures Valid() && launches == old(launches) + 1 && fins == old(fins)
      ensures streams == Started(demo, 0, canOpen, |demo|) + old(streams)
    {
      hide Balanced, StartedOnce, StartedMore, Matched, Started;
      launches := launches + 1;
      StartStreams(0, canOpen);
      OneMoreFin(demo, old(started), started, old(launches), fins, 0);
    }

    /** The file of context i is closed, because of a FIN or otherwise. */
    method CloseStream(i: nat, byFin: bool)
      requires Balanced(Value()) && i < |streams| && streams[i].open
      modifies this`streams, this`nbOpenStreams, this`fins, this`others
      ensures Balanced(Value()) && streams == old(streams)[i := old(streams)[i].(open := false)]
      ensures fins == if byFin then old(fins) + multiset{streams[i].streamId} else old(fins)
    {
      hide Balanced;
      BalancedAfterUpdate(Value(), i, streams[i].(open := false));
      if byFin {
        fins := fins + multiset{streams[i].streamId};
      } else {
        others := others + multiset{streams[i].streamId};
      }
      streams := streams[i := streams[i].(open := false)];
      nbOpenStreams := nbOpenStreams - 1;
    }

    /** Closes every open context. */
    method CloseAll()
      requires Balanced(Value()) && Matched(demo, streams, started)
      modifies this`streams, this`nbOpenStreams, this`fins, this`others
      ensures Balanced(Value()) && nbOpenStreams == 0 && fins == old(fins)
      ensures Matched(demo, streams, started)
      ensures |streams| == |old(streams)|
      ensures forall i :: 0 <= i < |streams| ==> streams[i] == old(streams[i]).(open := false)
    {
      var i := 0;
      while i < |streams|
        invariant i <= |streams| == |old(streams)| && Balanced(Value()) && fins == old(fins)
        invariant Matched(demo, streams, started)
        invariant forall j :: 0 <= j < |streams| ==>
                    streams[j] == if j < i then old(streams[j]).(open := false) else old(streams[j])
      {
        hide Balanced, Matched;
        if streams[i].open {
          MatchedAfterUpdate(demo, streams, started, i, streams[i].(open := false));
          CloseStream(i, false);
        }
        i := i + 1;
      }
      NoneOpen(streams);
    }

    /** Bytes, and possibly the FIN, for the open context i. */
    method Receive(i: nat, length: nat, fin: bool, canOpen: nat -> bool)
      requires Valid() && i < |streams| && streams[i].open
      modifies this
      ensures Valid() && launches == old(launches)
      ensures var x := old(streams)[i].(receivedLength := old(streams)[i].receivedLength + length, open := !fin);
              var id := x.streamId;
              if fin then
                && fins == old(fins) + multiset{id}
                && streams == (if id == 0 then [] else Started(demo, id, canOpen, |demo|)) + old(streams)[i := x]
              else fins == old(fins) && streams == old(streams)[i := x]
    {
      hide Balanced, StartedOnce, StartedMore, Started, Matched;
      var x := streams[i].(receivedLength := streams[i].receivedLength + length);
      BalancedAfterUpdate(Value(), i, x);
      MatchedAfterUpdate(demo, streams, started, i, x);
      streams := streams[i := x];
      if fin {
        MatchedAfterUpdate(demo, streams, started, i, x.(open := false));
        CloseStream(i, true);
        ghost var closed := old(streams)[i := x.(open := false)];
        assert streams == closed;
        if x.streamId != 0 {
          StartStreams(x.streamId, canOpen);
          assert streams == Started(demo, x.streamId, canOpen, |demo|) + closed;
        } else {
          assert streams == [] + closed;
        }
        OneMoreFin(demo, old(started), started, launches, old(fins), x.streamId);
      }
    }

    /** One callback: the end of the connection closes everything, a stream that is unknown
        or closed is ignored, a reset closes its stream and starts nothing, and only an
        accepted FIN starts the streams that wait for it. */
    method Callback(streamId: nat, length: nat, event: CallbackEvent, canOpen: nat -> bool)
      requires Valid()
      modifies this
      ensures Valid() && launches == old(launches)
      ensures var i := FirstWith(old(streams), streamId);
              if event == Close || event == ApplicationClose then
                && fins == old(fins) && nbOpenStreams == 0 && |streams| == |old(streams)|
                && forall j :: 0 <= j < |streams| ==> streams[j] == old(streams[j]).(open := false)
              else if i == |old(streams)| || !old(streams)[i].open || event == StopSending then unchanged(this)
              else if event == StreamReset then
                && fins == old(fins) && started == old(started)
                && streams == old(streams)[i := old(streams)[i].(open := false)]
              else
                var fin := event == StreamFin;
                var x := old(streams)[i].(receivedLength := old(streams)[i].receivedLength + length, open := !fin);
                && fins == (if fin then old(fins) + multiset{streamId} else old(fins))
                && streams == (if fin && streamId != 0 then Started(demo, streamId, canOpen, |demo|) else [])
                              + old(streams)[i := x]
    {
      hide Balanced, StartedOnce, Matched;
      if event == Close || event == ApplicationClose {
        CloseAll();
        return;
      }
      var i := FirstWith(streams, streamId);
      if i == |streams| || !streams[i].open {
        return;
      }
      if event == StreamReset {
        MatchedAfterUpdate(demo, streams, started, i, streams[i].(open := false));
        CloseStream(i, false);
      } else if event != StopSending {
        Receive(i, length, event == StreamFin, canOpen);
      }
    }

    /** There are as many contexts for a stream id as the entries for it were due: one for
        every launch, or for every FIN accepted on the stream waited for. */
    lemma ContextsAreDue(id: nat)
      requires Valid()
      ensures CountWith(streams, id) == DueStarts(demo, launches, fins, id, |demo|)
    {
      StartsAreDue(demo, started, launches, fins, id, |demo|);
    }

    /** The FINs on a stream never outnumber the contexts opened for it, and an entry
        that waits for the stream is started exactly as often. */
    lemma DependentsFollowFins(e: nat)
      requires Valid() && e < |demo| && demo[e].previousStreamId != 0
      ensures started[e] == fins[demo[e].previousStreamId] <= openings[demo[e].previousStreamId] <= nbClientStreams
    {
      MultiplicityBelowSize(openings, demo[e].previousStreamId);
    }
  }

  lemma MultiplicityBelowSize(m: multiset<nat>, x: nat)
    ensures m[x] <= |m|
  {
    var rest := m[x := 0];
    assert m == rest[x := m[x]];
  }
}
