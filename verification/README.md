# A verified model of the picoquic test tools and demo

The repository builds a QUIC stack's test tools and a demo client and server. This
project models the parts that carry state and arithmetic of their own, in Dafny, and
proves what they are for. `dafny verify dfyconfig.toml` checks everything.

**The two-link simulator** (`SimLink`, `SimLinkTest`, `LinkRuns`, `SimRound`, `SimLoops`,
`SimRuns`). A link is a linked queue with first and last pointers, a clock that says when
its transmitter is free, a limit on the queueing delay, and a pointer to a 64-bit loss
mask that both links share. `SimLink.Link` keeps those fields; its methods are proved
against functions on the link's abstract value, and the theorems are about runs of those
functions. A round of the simulation is given an *oracle*: what the QUIC endpoints would
answer in that round. Every theorem quantifies over all oracles, so over all endpoints.
The simulated time is passed in and out, as the original passes a pointer to it.

**The ACK frame** (`Varint`, `AckFrame`, `AckVerdict`, `AckReader`, `AckWriter`,
`AckRoundTrip`).
Numbers are encoded as section 16 of RFC 9000 says; the block layout is the older draft's,
where the gap counts the missing packets exactly and every block after the first carries a
count, so it is not that of section 19.3 of RFC 9000.

**The option parser** (`Getopt`, `GetoptRuns`, `GetoptLaws`, `CommandLine`). Calls of a
parser with a hidden scanning pointer, in a loop that moves the index itself, against a
parse of the argument list that has no state.

**The stream scenarios** (`Callbacks`, `TransferCheck`, `ClientScenario`, `ServerStreams`). The checker
that compares everything received with what was sent, the client that opens streams when
others end, and the server that answers each stream at most once.

## What the proofs found

- A stateless packet jumps time forward by 100000, so a later round may set time back;
  `SimRuns.TimeGoesBackExactly` says when, `SimRuns.StatelessSetsTimeBack` gives a run.
- The status of a failed prepare is overwritten by that of a delivery in the same round: the
  round reports success exactly when something queued arrives before the wake time and is
  accepted (`SimLoops.RoundStatus`); `SimRuns.FailureGoesUnreported` gives a run.
- The reader accepts what the writer wrote exactly when no number was left out for lack of
  room and packet number zero is not acknowledged (`AckRoundTrip.ReaderAcceptsWriter`).
- An argument is obeyed as options and then taken for the server's name as well, exactly
  when it follows nothing but complete options and has a dash beyond its first letter, after
  letters that take no argument (`GetoptLaws.ObeyedYetLeft`,
  `CommandLine.TakenTwiceExactly`, `CommandLine.DashedClusterNamesServer`).
- The usage text gives -s two numbers, but the code reads both halves of the seed from the
  second: the result is as promised exactly when the two are the same number, unless the
  seed does not matter in the end (`CommandLine.SeedIsOneNumberTwice`).
- A -l, or a -v with a valid version, means what it should exactly when something follows its
  argument; at the end of the command line it is refused (`CommandLine.LastWordsAreRefused`).

## Model

| member | source | states |
|---|---|---|
| SimLink.Link.constructor | picoquictest/sim_link.c:36-56 | a new link is empty, its clock at the current time |
| SimLink.Link.NextArrivalTime | picoquictest/sim_link.c:83-92 | the arrival of the head if that is earlier than the given time |
| SimLink.NextArrivalIsEarliest | picoquictest/sim_link.c:83-92 | looking at the head alone gives the minimum over all queued arrivals and the given time |
| SimLink.Link.Dequeue | picoquictest/sim_link.c:94-109 | takes the head off exactly when its arrival is not in the future; both pointers become null together |
| SimLink.TestLoss | picoquictest/sim_link.c:111-125 | the last bit of the mask, which is rotated in place; no mask, no loss |
| SimLink.Link.Append | picoquictest/sim_link.c:144-151 | the linked queue stays acyclic, ends at the last packet, and refines a sequence that grows at its end |
| SimLink.Link.Submit | picoquictest/sim_link.c:127-158 | the whole new value of the link and of the mask: refused when the queue is full, otherwise lost or appended; what that amounts to over runs is the subject of the laws below |
| SimLink.TransmitTime | picoquictest/sim_link.c:131-133 | the time is rate times length in units of 2^20 picoseconds, rounded down, but at least one unit |
| SimLink.SubmittedStaysOrdered | picoquictest/sim_link.c:130-151 | arrivals strictly increase along the queue, none later than the clock plus the latency |
| SimLink.Link.Delete | picoquictest/sim_link.c:58-68 | terminates and releases every packet of the queue |
| SimLinkTest.SimLinkOneTest | picoquictest/sim_link.c:160-214 | for any number of packets, mask and limit the loop ends with dequeued plus dropped equal to the packets; without a limit the drops are the set bits of the cyclic mask |
| SimLinkTest.SimLinkSuite | picoquictest/sim_link.c:216-236 | the three calls expect the right numbers of losses |
| LinkRuns.QueueTimeClosedForm | picoquictest/sim_link.c:130-137 | after any sequence of submits and dequeues the clock is the maximum of the start plus all transmit times and, over each admitted packet, its submit time plus the transmit times from it on |
| LinkRuns.RefusedExactly | picoquictest/sim_link.c:130-157 | after any run a packet is refused exactly if there is a limit and some bound of the clock reaches the time plus the limit; otherwise it is admitted as it is |
| LinkRuns.TakenExactly | picoquictest/sim_link.c:94-109 | after any run a dequeue delivers exactly if some queued packet has arrived, and then the one that arrived first |
| LinkRuns.DeliveredThenQueued | picoquictest/sim_link.c:94-158 | what was delivered followed by what waits is what waited at first followed by the surviving admissions, in order |
| LinkRuns.SentAndDropped | picoquictest/sim_link.c:135-157 | every submit is counted once, and the packets sent are the survivors |
| LinkRuns.FinishesApart | picoquictest/sim_link.c:131-137 | two admitted packets finish at least as far apart as everything admitted after the first takes to transmit |
| LinkRuns.RateBound | picoquictest/sim_link.c:131-151 | every delivered packet has an admission, in the same order; two delivered packets arrive at least as far apart as everything admitted after the first, up to and including the second, takes to transmit |
| LinkRuns.RunThroughput | picoquictest/sim_link.c:131-137 | the packets admitted between any two points of a run take as long as their bytes do at the link's rate, up to one unit of time for each packet, either way |
| LinkRuns.ByteRateBound | picoquictest/sim_link.c:131-151 | two delivered packets arrive at least as far apart as the bytes admitted after the first take at the link's rate |
| LinkRuns.TestLinkArrival | picoquictest/tls_api_test.c:617-618 | on the links of the tests a packet of 1440 bytes arrives after 11098 |
| LinkRuns.AtMostOneArrivalPerTick | picoquictest/sim_link.c:130-151 | at most b - a delivered packets arrive in [a, b) |
| LinkRuns.SharedMaskDecidesFates | picoquictest/sim_link.c:111-139 | in any interleaving of two links admission i is lost exactly when bit i mod 64 of the starting mask is set; refusals consume no bit |
| LinkRuns.SharedMaskReturns | picoquictest/sim_link.c:119-121 | the mask is back at its start after every 64 admissions |
| LinkRuns.EachLinkRunsAlone | picoquictest/tls_api_test.c:810-811 | each link of the pair runs as a single link does with the losses the shared mask dealt to it |
| SimRound.Prompt | picoquictest/tls_api_test.c:662-722 | asks the sources in turn, with the precedence and delay of each |
| SimRound.NextWake | picoquictest/tls_api_test.c:728-745 | the next time is 5000 after the bumped time unless somebody is up and everybody up wants to wake later, and then it is the first of those wake times |
| SimRound.Simulation.Poll | picoquictest/tls_api_test.c:747-796 | picks the link that delivers next and takes its packet at its arrival time |
| SimRound.Simulation.OneSimRound | picoquictest/tls_api_test.c:654-801 | the whole outcome of a round: links, mask, time, status, activity, packet sent, packet delivered |
| SimRound.RoundMeets | picoquictest/tls_api_test.c:662-798 | the outcome told from the answers and the queues alone: who sends what and when; which packet is delivered, the first of all that arrive before the wake time, the server's on a tie; the status, with a failure of the client or of the server behind a silent client |
| SimRound.OneOutcome | picoquictest/tls_api_test.c:662-798 | no other outcome agrees with that |
| SimLoops.QuietRoundEnds | picoquictest/tls_api_test.c:728-796 | a round without traffic ends 10000 after its start or at the first later wake time, before any queued arrival |
| SimLoops.RoundProgress | picoquictest/tls_api_test.c:724-796 | a round is active exactly if it submits or delivers one packet; any other moves time by at least 10000 |
| SimLoops.RoundStatus | picoquictest/tls_api_test.c:690-780 | exactly when a round reports success, in terms of the queues and answers before it; after a failed prepare, of either endpoint, exactly when something queued arrives before the wake time and is accepted |
| SimLoops.QuietTimePasses | picoquictest/tls_api_test.c:728-796 | k quiet rounds take at least 10000 k and leave the links alone |
| SimLoops.Configure | picoquictest/tls_api_test.c:810-814 | both links point at one mask and share the limit |
| SimLoops.ConnectionLoop | picoquictest/tls_api_test.c:803-830 | runs exactly the rounds counted, stops for one of four reasons and no later, counts exactly the inactive rounds at the end, and when it stops for idleness at least 5120000 have passed since the last activity; the links can be used further |
| SimLoops.DataSendingLoop | picoquictest/tls_api_test.c:832-872 | the same for the sending loop, with its own reasons and 2560000; a failing round is not counted as inactive |
| SimLoops.ScenarioLoops | picoquictest/tls_api_test.c:1095-1130 | the handshake and then the transfer on the same links, the second from the queues and the time the first left, with the mask set anew |
| SimRuns.PolledSettles | picoquictest/tls_api_test.c:747-796 | no queued packet is passed over, and one delivered is delivered at its own arrival time |
| SimRuns.RoundSettles | picoquictest/tls_api_test.c:724-797 | every queued arrival stays at or after the time set by the last round that did not send |
| SimRuns.DeliveryOrder | picoquictest/tls_api_test.c:654-797 | over any run deliveries on both links together come in the order of their arrival times, each at exactly its own |
| SimRuns.TimeIsMonotone | picoquictest/tls_api_test.c:669-796 | without stateless packets time never decreases between rounds and nothing queued is overdue |
| SimRuns.TimeGoesBackExactly | picoquictest/tls_api_test.c:669-796 | a round sets time back exactly when it does not send and something queued is overdue |
| SimRuns.StatelessSetsTimeBack | picoquictest/tls_api_test.c:669-681 | three rounds from empty links, both endpoints up throughout, after which time has gone back |
| SimRuns.FailureGoesUnreported | picoquictest/tls_api_test.c:690-780 | two rounds from empty links, the second of which fails to prepare a packet and reports success |
| SimRuns.InFlightBound | picoquictest/sim_link.c:130-151 | with a limit and no stateless packets at most limit plus latency plus the largest transmit time packets are in flight |
| SimRuns.RoundsAreLinkRuns | picoquictest/tls_api_test.c:654-801 | a run of rounds is a run of the two links, and the endpoints are handed what the links deliver |
| SimRuns.HandedOverIsWhatSurvived | picoquictest/tls_api_test.c:750-773 | what an endpoint was handed followed by what waits is, byte for byte and in order, what the other end submitted and the link did not refuse or lose |
| SimRuns.RoundsShareTheMask | picoquictest/tls_api_test.c:810-811 | admission i of a run, on either link, is lost exactly when bit i mod 64 of the mask is set |
| SimRuns.NothingIsMadeUp | picoquictest/tls_api_test.c:667-797 | over any run whatever is queued on a link or handed over from it was prepared, byte for byte, by the endpoint at its sending end |
| Varint.DecodeEncode | picoquictest/intformattest.c:193-222 | an encoded number decodes to itself, whatever follows it |
| Varint.EncodeDecode | picoquictest/intformattest.c:206-220 | a decoded number encodes back to the same bytes exactly when they were its shortest form |
| Varint.TableRows | picoquictest/intformattest.c:114-189 | every row of the test table decodes as it says, and its number encodes this way exactly if the row is canonical |
| AckFrame.MaskIsUnionModulo64 | picoquictest/sacktest.c:114-120 | bit k of the mask is set exactly when some marked number is k modulo 64 |
| AckFrame.AcceptedFrame | picoquictest/sacktest.c:167-216 | in an accepted frame blocks descend without overlap, every marked number is between 1 and the largest, and the numbers up to the largest are shared out between blocks, gaps and what lies below |
| AckVerdict.AcceptedExactly | picoquictest/sacktest.c:130-216 | a frame parses exactly if its bytes are numbers, in any encodings and with nothing left over, four and two for every block counted, whose ranges and gaps leave number zero alone; and what is parsed is what they say |
| AckVerdict.AcceptsIsVerdict | picoquictest/sacktest.c:122-232 | the verdict in terms of these numbers: the expected values are among them, and the mask has exactly the bits of the numbers received |
| AckVerdict.HeaderSkipsDelay | picoquictest/sacktest.c:143-165 | largest and count are read back and the next number is the first range, however long the delay in between is encoded |
| AckVerdict.DelayDoesNotMatter | picoquictest/sacktest.c:149-153 | frames that differ in the delay only get the same verdict |
| AckReader.AckRangeMask | picoquictest/sacktest.c:114-120 | the loop, which wraps at zero, marks the given range |
| AckReader.ReadBlocks | picoquictest/sacktest.c:177-209 | ends whatever count is claimed, and reads and marks exactly the blocks of the parse |
| AckReader.BasicAckParse | picoquictest/sacktest.c:122-232 | returns zero exactly when the frame is made of numbers that describe ranges above zero, to its end, and shows the expected values and mask |
| AckWriter.BuildTestAck | picoquictest/ack_of_ack_test.c:181-206 | the bytes written, for any buffer that has the two bytes written unchecked, including what is left out for lack of room; the rest of the buffer stays as it is |
| AckRoundTrip.ExpectedMaskIsUnion | picoquictest/sacktest.c:239-256 | the expected mask is that of the union of the ranges modulo 64 |
| AckRoundTrip.ReaderAcceptsWriter | picoquictest/ack_of_ack_test.c:181-206 | for any such buffer the reader accepts what was written exactly when everything fitted, header included, and the lowest range starts at 1 or above |
| AckRoundTrip.RoomyBufferRoundTrip | picoquictest/ack_of_ack_test.c:208-221 | with nineteen bytes of room and sixteen per further range only packet number zero stands in the way |
| Getopt.Globals.Getopt | picoquicfirst/getopt.c:53-103 | one call: the new value of every global and of the scanning pointer, and the code returned: the letter, a question mark, or a colon if the option string asks for it |
| GetoptRuns.StepProgress | picoquicfirst/getopt.c:58-102 | a call that returns an option goes past an argument or a letter, and the index stays within the arguments |
| GetoptRuns.RunIsParse | picoquicfirst/getopt.c:53-103 | repeated calls, with the caller's moves of the index, yield exactly the options and final index of a parse without state |
| GetoptRuns.ClusterRunIsParse | picoquicfirst/getopt.c:70-86 | the same when resumed inside a cluster |
| GetoptLaws.ClusteringIsTransparent | picoquicfirst/getopt.c:83-86 | letters without argument may be split off a cluster |
| GetoptLaws.FlagsClusterFreely | picoquicfirst/getopt.c:64-86 | "-1rz" and "-1 -r -z": same options, same operands left |
| GetoptLaws.ArgumentsAttachFreely | picoquicfirst/getopt.c:87-101 | "-p4443" and "-p 4443": same options, same operands left |
| GetoptLaws.DashEndsInsideCluster | picoquicfirst/getopt.c:75-76 | a dash inside a cluster ends the run after the letters before it, with the index still at the cluster |
| GetoptLaws.ClusterStays | picoquicfirst/getopt.c:70-101 | the index stays at a cluster exactly when it has a dash that is no option after letters that take no argument |
| GetoptLaws.ObeyedYetLeft | picoquicfirst/getopt.c:58-102 | an argument is reported as options and the index stays at it exactly when it has such a dash beyond its first letter |
| GetoptLaws.LeftAfterReporting | picoquicfirst/getopt.c:58-102 | of a whole command line: the index ends at argument k with letters of it reported exactly when the arguments before it are complete options and it has such a dash |
| GetoptLaws.Continues | picoquicfirst/getopt.c:58-69 | parsing continues after complete options as if it started there, also for a caller whose demands the following arguments meet |
| GetoptLaws.AllWrittenParses | picoquicfirst/getopt.c:58-102 | any options written down, with the arguments they and their caller take, are parsed to just these options |
| GetoptLaws.WholeLine | picoquicfirst/getopt.c:58-102 | with operands behind them the operands are left: from the first argument without dash, from a lone dash, or after two dashes |
| GetoptLaws.LastLetterLacksArgument | picoquicfirst/getopt.c:90-99 | a letter that takes an argument, at the end of the arguments, lacks it |
| GetoptLaws.AlikeAfter | picoquicfirst/getopt.c:58-102 | arguments that parse alike may replace each other after such a beginning |
| CommandLine.Handle | picoquicfirst/picoquicdemo.c:1763-1837 | what one option does to the settings, with the index moved by -s and -i |
| CommandLine.ParseCommandLine | picoquicfirst/picoquicdemo.c:1760-1851 | the loop ends, keeps the index within the arguments, and gives the settings the stateless parse means |
| CommandLine.AlikeMeansSame | picoquicfirst/picoquicdemo.c:1762-1851 | command lines that parse alike give the same settings |
| CommandLine.OptionsMean | picoquicfirst/picoquicdemo.c:1762-1851 | after complete options whatever follows has the meaning it has on its own, on top of the settings made |
| CommandLine.FilesAreSet | picoquicfirst/picoquicdemo.c:1764-1819 | -c sets the certificate, -k the key, -l the log file, and the rest means what it means after that |
| CommandLine.NumbersAreSet | picoquicfirst/picoquicdemo.c:1770-1836 | -p sets the port, -m the largest packet, each if in range, and -t asks for timing |
| CommandLine.VersionIsSet | picoquicfirst/picoquicdemo.c:1776-1785 | -v sets the version if it is valid |
| CommandLine.ConnectionIdIsSet | picoquicfirst/picoquicdemo.c:1801-1812 | -i takes two more arguments, the complement of a mask and a value, and is refused without them |
| CommandLine.FlagsAreSet | picoquicfirst/picoquicdemo.c:1786-1832 | -1, -r and -z set their flags, -h ends in the usage message |
| CommandLine.UnknownIsIgnored | picoquicfirst/picoquicdemo.c:1762-1838 | a letter that is no option is passed over |
| CommandLine.OperandsAreSet | picoquicfirst/picoquicdemo.c:1840-1851 | the first operand names the server, the second is its port, which must be positive |
| CommandLine.OperandsAfterDashes | picoquicfirst/picoquicdemo.c:1840-1851 | the same after two dashes, whatever the operands look like |
| CommandLine.NothingSet | picoquicfirst/picoquicdemo.c:1731-1751 | the settings without any argument |
| CommandLine.TakenTwiceExactly | picoquicfirst/picoquicdemo.c:1762-1844 | of any command line, exactly the arguments with such a dash that follow nothing but options are both obeyed and left as an operand |
| CommandLine.DashedClusterNamesServer | picoquicfirst/picoquicdemo.c:1840-1851 | such an argument sets what its letters set and names the server, with the next argument as the port, unless a letter asks for help |
| CommandLine.ServerNamedByFlags | picoquicfirst/picoquicdemo.c:1840-1851 | "-1-x 4443" serves once and connects to the server "-1-x" |
| CommandLine.SeedIsOneNumberTwice | picoquicfirst/picoquicdemo.c:1792-1800 | "-s a b" makes the seed of b and b; it is that of a and b exactly if these are equal, or the rest is in error or sets the seed again |
| CommandLine.LastWordsAreRefused | picoquicfirst/picoquicdemo.c:1776-1819 | "-v V", and likewise "-l F", is refused at the end of the command line, and means what it should exactly if something follows or V is invalid |
| TransferCheck.ChunkFails | picoquictest/tls_api_test.c:219-227 | a chunk fails for its size exactly when more than was sent has come with it, and for its contents exactly when it makes what fits differ from what was sent |
| TransferCheck.ReceiveStreamData | picoquictest/tls_api_test.c:214-238 | data, counter, buffer, end and exact errors after a chunk, which are exactly the faults the direction shows from now on |
| TransferCheck.Scenario.QueueInitialQueries | picoquictest/tls_api_test.c:240-270 | which queries are started, and whether the test is finished |
| TransferCheck.Scenario.Callback | picoquictest/tls_api_test.c:272-391 | errors are never forgotten; on even streams queries are what the server was handed and responses what the client was, on odd streams the other way round, over whole runs and for ends as well; over both endpoints each data error and that of a second end is present exactly when some direction shows it |
| TransferCheck.Scenario.DataErrorsExactly | picoquictest/tls_api_test.c:214-238 | the data errors are absent exactly when every direction received a prefix of what was sent |
| TransferCheck.Scenario.FinalCheck | picoquictest/tls_api_test.c:1136-1150 | exactly when the verdict is zero, and that then every direction received exactly what was sent, in its buffer and as it was handed to the right endpoint |
| ClientScenario.Client.OpenStream | picoquicfirst/picoquicdemo.c:1142-1160 | a context goes to the front of the list, counted only if its file can be created |
| ClientScenario.Client.StartStreams | picoquicfirst/picoquicdemo.c:1177-1190 | every entry waiting for the stream is started once, in order |
| ClientScenario.Client.LaunchScenario | picoquicfirst/picoquicdemo.c:1288-1296 | starts every entry that waits for no stream |
| ClientScenario.Client.CloseAll | picoquicfirst/picoquicdemo.c:1211-1221 | the end of the connection closes everything and the counter is zero |
| ClientScenario.Client.Callback | picoquicfirst/picoquicdemo.c:1192-1286 | the open counter always equals the number of open contexts, and only an accepted FIN starts streams |
| ClientScenario.Client.DependentsFollowFins | picoquicfirst/picoquicdemo.c:1182-1188 | entries are started exactly as often as FINs were accepted on the stream they wait for, never more often than it was opened |
| ClientScenario.Client.ContextsAreDue | picoquicfirst/picoquicdemo.c:1142-1188 | there are as many contexts for a stream id as the entries for it were due: one for every launch or for every FIN accepted on the stream waited for |
| ServerStreams.Stream.Handle | picoquicfirst/picoquicdemo.c:301-407 | one chunk, FIN or reset: what is accepted into the buffer and terminated there, refused beyond 2099 bytes or after the end, or answered at a line end or FIN |
| ServerStreams.Context.FindOrCreate | picoquicfirst/picoquicdemo.c:279-299 | ids stay pairwise distinct, a new stream goes to the front |
| ServerStreams.Context.Receive | picoquicfirst/picoquicdemo.c:279-407 | one input to one stream, the others untouched, a finished one unchanged; each stream was told exactly its share of the history; what is added is new |
| ServerStreams.Context.EveryStreamAnswersOnce | picoquicfirst/picoquicdemo.c:279-407 | of every stream in the table, at any time: the command is the chunks of its history that were accepted, at most 2099 bytes; one reply exactly if one of them completed it, else none; finished exactly if one did or it was abandoned |
| ServerStreams.Connection.Callback | picoquicfirst/picoquicdemo.c:242-411 | the end of the connection detaches the context, the first event after that makes a new one, and any other event is told to the context; what is added is new |
| ServerStreams.Connection.CallAll | picoquicfirst/picoquicdemo.c:242-411 | after any sequence of callbacks there is a context exactly if the connection was used since it was last closed, and it holds exactly what was told since |
| ServerStreams.StreamLife | picoquicfirst/picoquicdemo.c:301-399 | the same of any inputs to one stream, which every stream of the table keeps to |
| ServerStreams.AfterAllIsLife | picoquicfirst/picoquicdemo.c:301-399 | the same life told forwards: what is too long is passed over, and the first accepted chunk with a line end or FIN is answered and ends it |

## Left out

- Times, counters and the product of length and rate are unbounded: 64-bit overflow is not modelled, except for the wrap of the packet number in `AckReader.AckRangeMask` and the bound on times in `SimLinkTest.SimLinkOneTest`.
- Allocation failures, and the floating-point rate of a new link: the picoseconds per byte are a parameter, and so are the packet buffer's size and the ACK frame type, whose definitions are not part of this model.
- A packet's buffer is modelled by its used part, so its length is the number of its bytes; a 64-bit mask is modelled as its 64 bits.
- The endpoints (packet preparation, wake times, connection states, stateless packets) are an oracle; a prepare that fails is taken to leave a packet of length zero, since the original would otherwise submit to a null link.
- SimLink.Link.Delete: releasing memory is modelled as walking the list, not as freeing.
- AckWriter.BuildTestAck: a number without room is written not at all and counts as length zero, which is how the varint encoder is taken to behave; the frame type and the count of blocks, which the original writes without a check, are required to be in the buffer.
- Getopt.Globals.Getopt: printing of messages and the flag that enables it.
- CommandLine.ParseCommandLine: number conversions, version parsing and the packet size limit are parameters, and an unsigned long has 64 bits; printing the usage and exiting is a result without settings.
- TransferCheck.Scenario.Callback: the library calls that send responses and queries are answers given with the call; the event set for a direction without response is taken to be the FIN event.
- ClientScenario.Client.OpenStream: the query handed to the library, the request text, the socket and the file's contents are not modelled; the list of contexts is a sequence of values.
- ServerStreams.Connection.Callback: the wait for a DNS answer and the request's processing are an answer given with the call.
- The lists of selective acknowledgements that `ack_of_ack_test.c` fills, compares and frees.
- Sockets, logging, files, TLS, and every test that only calls the library, whose bodies are not part of this model.
