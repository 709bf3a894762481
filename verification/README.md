# A Dafny model of the WireGuard listener module

The repository is a set of Caddy modules that accept connections from several listeners at once,
among them listeners inside a userspace WireGuard tunnel. This project models the four parts of it
that are protocols or codecs and proves what they promise:

- **Fan-in** (`ChannelListener`, `FanIn`, `FanInRuns`, `MultiWrapper`): the close protocol of one merged
  listener, and any number of `listen` goroutines feeding any number of merged listeners through
  one unbuffered channel. The compare-and-swap and the `close(done)` after it are two steps, and a
  `select` may take any ready case, so a held connection may be delivered after `done` has closed.
- **Lifecycles** (`Forwards`, `Tunnels`, `TunnelRuns`, `Wireguard`, `CloseRace`): the stack of
  functions that stops port forwards, the cancel tree of the connections one forwarder tunnels, and who runs the
  closers that the options of `wg.New` register, also when calls of `Close` overlap.
- **The configuration protocol of WireGuard** (`Scanner`, `Decimal`, `Hex`, `Address`, `Ipc`,
  `IpcText`, `IpcTheorems`, `IpcFailures`, `Injective`, `WgConfig`, `ServerTheorems`, `DeviceTheorems`):
  printer and reader of `key=value` lines, the number, key, subnet and endpoint codecs below them, and the texts of
  server and client configurations. Hex is section 8 of RFC 4648, CIDR section 3.1 of RFC 4632;
  the meaning of `replace_peers`, `public_key` and the peer keys is that of the section
  "Configuration Protocol" of https://www.wireguard.com/xplatform/.
- **The port pair grammar** (`PortPair`): `[<host>:]<src>:<dst>[/<tcp|udp>]`.

A state machine's states hold what the model itself writes, so the main laws of the concurrent parts
are stated over the steps of a run: which connections its Accept steps brought in, how often it
closed an end, which error the step gave that began a call.

A `char` stands for one byte of a text. An error is a number; `errors.Join` is the list of the
errors it was given, in order, with nil left out, and the empty list is nil. What the environment
decides (whether a listen fails, what a closer returns, how many bytes a read gives, which ready
case a `select` takes) is a parameter, a step of a machine or a nondeterministic choice, so every
result below holds for all of them.

Where the code and its comments disagree, the model follows the code:

- `IdentitySubnet` says "ipv6/128" (pkg/wg/wgapi/api.go:118); an IPv4 address in it prints as `/32`.
- `IPCGet.Reset` says that without it `Value` returns only the first data
  (pkg/wg/wgapi/parser.go:18); `Value` drains the buffer, so a second use works without `Reset`
  if all lines of the first text read (`ReadTwice`, `UseTwice`, and the input in
  `SecondUseDiffers`).
- `cleanUp` is said to close any open resources on failure (pkg/wg/options.go:32), but `New` defers
  it only after every option has applied (pkg/wg/connection.go:22-27). `ReleasedExactlyIf` says when nothing is left open, and
  `OptionFailureLeavesOpen` gives an input that leaves a network stack open.
- A `Uint64` is printed through `int` (pkg/wg/wgapi/internal/value/values.go:89): from 2^63 on the
  text is negative and does not read back (`UintRoundTrip`, `Uint64TopBitFails`).
- A subnet whose mask has a gap prints in hex; the mask 0.0.0.1 prints as `00000001`, which reads
  as `/1` (`GappedMaskMisreads`). `NetRoundTrip` says that contiguous masks are exactly the ones
  that survive.
- `ParseKey` decodes into 32 bytes (pkg/wg/wgapi/internal/parser/parsers.go:68-69); a text that
  begins with 66 hex digits makes the decoder write past them. The model keeps this as an outcome
  of its own, `BoundsPanic`; `PanicsExactly` says which texts lead to it, and `PanicsOnZeros` is one.
- `PortPair.UnmarshalText` does not reset the protocol (forward.go:77-85), nor anything else if it
  fails. `ProtoExactly` and `RejectedExactly` say when its outcome does not depend on what was
  parsed before; `ProtoIsKept` is an input on which it does.

## Model

| member | source | states |
|---|---|---|
| ChannelListener.CloseProtocol | pkg/channel-listener/channel-listener.go:35-69 | over every run of any number of Close, CloseWithErr and Accept calls: done closes at most once, done closed implies the error is set, the error never changes once set, and every error Accept returns is that error |
| ChannelListener.FirstErrorWins | pkg/channel-listener/channel-listener.go:57-69 | the error is the one of the first swap of the run, nil read as net.ErrClosed, and every refused Accept returned that one |
| ChannelListener.ErrorOfFirstSwap | pkg/channel-listener/channel-listener.go:36-69 | over the steps of every run: the stored error is the very error given by the step that began the call which swaps first, net.ErrClosed only if that gave nil or it was an Accept on a closed input, none without a swap; every refused Accept returned it |
| ChannelListener.ReturnsWhatItReceived | pkg/channel-listener/channel-listener.go:41-48 | a call has returned a connection if and only if a step of the run handed it that connection |
| ChannelListener.FirstWasOffered | pkg/channel-listener/channel-listener.go:61-67 | the error that is swapped in first was given to some call or is that of a closed input |
| ChannelListener.StepKeepsInv | pkg/channel-listener/channel-listener.go:35-69 | every step of every caller keeps the invariant, the error and done |
| ChannelListener.CallsDrain | pkg/channel-listener/channel-listener.go:36-51 | once done is closed every unfinished call has an enabled step of its own that brings it nearer its end and leaves other calls alone |
| ChannelListener.CloseCompletes | pkg/channel-listener/channel-listener.go:65-67 | when the error is set and done is open, the caller that won the swap can close it |
| ChannelListener.Listener.CloseWithErr | pkg/channel-listener/channel-listener.go:61-69 | a first close stores the given error, net.ErrClosed only for nil, a later one changes nothing; the state is that of the protocol's call, swap and close steps |
| ChannelListener.Listener.Close | pkg/channel-listener/channel-listener.go:55 | the same with a nil error |
| ChannelListener.Listener.Accept | pkg/channel-listener/channel-listener.go:35-51 | returns the received connection or the stored error, closing first on a closed input; result and state are those of the protocol's steps for the arm the select took |
| FanIn.StepKeepsInv | merge-listener-wrapper.go:82-114 | every step of every goroutine, consumer and closer keeps structure, totals, delivery log and per-worker order |
| FanIn.RunKeepsInv | merge-listener-wrapper.go:82-114 | the invariant holds along every run |
| FanInRuns.Conservation | merge-listener-wrapper.go:95-114 | in every run the connections of its Accept steps are, counted with multiplicity, those returned by Accept plus those closed by listen plus those held; one is returned per Send step and one closed by a worker per Drop step, the ones its fates name, only with done closed; a worker holds what it accepted and did not settle, at most one |
| FanInRuns.ExactlyOneFate | merge-listener-wrapper.go:95-114 | a connection that the Accept steps bring in once is in exactly one of: returned once, closed once, held by one worker |
| FanInRuns.MergedStream | merge-listener-wrapper.go:85-113 | there is one delivery per Send step; the deliveries interleave the workers' streams and have the returned connections; each stream is what the worker's Send steps settle of its Accept steps, in order, with at most one pending, and is complete up to it while done is open |
| FanInRuns.RunHistory | merge-listener-wrapper.go:95-114 | a worker's accepted connections are those of its Accept steps in order, and their fates those of its Send and Drop steps |
| FanInRuns.AllAreAccepted | merge-listener-wrapper.go:97 | the workers have together accepted exactly what the Accept steps brought in |
| FanInRuns.WorkersOfEveryCall | merge-listener-wrapper.go:82-88 | call m of WrapListener makes merged listener m and starts exactly one worker for each of the listeners known by then, its own included; nothing else starts one |
| FanInRuns.OpenUntilClosed | merge-listener-wrapper.go:71-75 | a listener is open if and only if no step of the run closed it |
| FanInRuns.GetsThrough | merge-listener-wrapper.go:97-112 | whether or not a listener is done, a worker in its Accept can still take any connection and any merged listener then return it |
| FanIn.SentInterleaves | merge-listener-wrapper.go:110-112 | a delivery log interleaves what each worker sent |
| FanIn.MergedEvolves | merge-listener-wrapper.go:82-114 | no step of the fan-in can break a merged listener's own invariant, reopen it or change its error |
| FanIn.ShutdownTerminates | merge-listener-wrapper.go:95-114 | once no listener hands out connections, worker steps plus what fuel remains never exceed the fuel there was: shutdown is bounded |
| FanIn.StuckExactlyIfBlocked | merge-listener-wrapper.go:95-114 | a worker has no enabled step exactly if it finished or holds a connection nobody accepts while done is open; with done closed only finished workers are stuck |
| FanIn.FailureReachesDone | merge-listener-wrapper.go:98-103 | from any state in which one worker's Accept has failed, at most two steps close done |
| FanIn.EveryListenReturns | merge-listener-wrapper.go:95-114 | with the listeners and done closed, a run has boundedly many worker steps, and no worker can move any more if and only if every listen has returned |
| FanIn.RunsOwnProtocol | merge-listener-wrapper.go:84-87 | seen from any one merged listener, every run of the fan-in is a run of the close protocol |
| FanInRuns.FirstErrorPassedOn | merge-listener-wrapper.go:98-103 | over the steps of every run: a merged listener's error is the very err of the failed Accept of one of its own workers, or given to the closing call, that swaps first, and net.ErrClosed only for nil; every refused Accept returned it |
| MultiWrapper.MultiWrapper.constructor | merge-listener-wrapper.go:51-67 | starts in the protocol's initial state, knowing the provisioned listeners |
| MultiWrapper.MultiWrapper.WrapListener | merge-listener-wrapper.go:82-89 | the loop starts exactly one worker per listener known so far, the new one included: one WrapListener step |
| MultiWrapper.MultiWrapper.Cleanup | merge-listener-wrapper.go:71-78 | closes every known listener once, in order, joins the errors in that order, and is a run of CloseSource steps after which no listener is open |
| MultiWrapper.ClosingIsARun | merge-listener-wrapper.go:71-75 | closing all listeners one by one is a run of the protocol and ends with all closed |
| Tunnels.RunKeepsInv | forward.go:112-147 | every interleaving of accept, dial, copy end and cancel keeps each pair's invariant |
| TunnelRuns.NoLeak | forward.go:112-147 | when the listener has stopped and nothing forced is left to do, the run has closed every accepted connection exactly once, the far end once per successful dial, and every goroutine has returned |
| TunnelRuns.PairOfSteps | forward.go:115-147 | how often each end was closed, whether it was dialled, what cancelled the pair and where its copies stand is exactly what the steps of the pair say |
| TunnelRuns.LoopOfSteps | forward.go:112-118 | one pair per Accept step; the loop goes on until an Accept fails, which cancels it |
| TunnelRuns.DialStartsCopies | forward.go:126-137 | right after a successful dial either copy may be the first to end, and neither end of a live pair can be closed |
| TunnelRuns.DialsOnce | forward.go:126 | a pair is dialled at most once |
| TunnelRuns.CauseBeforeClose | forward.go:113-137 | before any close of an end came the loop's end, a cancellation, a failed dial or an ended copy of that pair |
| TunnelRuns.WholeTunnel | forward.go:114-139 | there is a run in which a peer ends either copy and the tunnel is torn down whole while the loop goes on |
| TunnelRuns.OneCopyEndsBoth | forward.go:133-137 | if one copy direction of a pair has ended, a run that settles has dialled it and closed each of its ends exactly once |
| TunnelRuns.OtherPairsStay | forward.go:119-139 | a step of one pair changes no other |
| Tunnels.CancelledPairCloses | forward.go:119-131 | a cancelled pair that has settled closed both its ends |
| Tunnels.HealthyStaysOpen | forward.go:119-137 | a pair nothing has cancelled or ended has none of its ends closed |
| Tunnels.SettlesInTime | forward.go:112-147 | after the listener stops every run is no longer than the fuel of the pairs: the tunnels come to rest |
| Forwards.Forwards.Start | forward.go:95-110 | opens a listener for each forwarder up to the first that fails, returns that failure, and puts exactly their closes and cancels on the stack, in order |
| Forwards.Forwards.StopAll | forward.go:158-166 | calls every function on the stack, last pushed first, empties it and joins the results in call order |
| Forwards.Forwards.Stop | forward.go:149-151 | stops everything and keeps the forwarders |
| Forwards.Forwards.Cleanup | forward.go:153-156 | stops everything and drops the forwarders |
| Forwards.ClosedExactlyOnce | forward.go:95-166 | over every sequence of Start (also failing midway), Stop and Cleanup: each opened listener's close and cancel is either still on the stack or was called exactly once; after a stop all were called; cancel came right before close |
| Forwards.OpenedInAll | forward.go:95-156 | over every sequence of calls: the forwarders are there until a Cleanup drops them, a Stop keeps them, and as many listeners were opened as the Starts got through |
| Forwards.StopsInReverse | forward.go:158-166 | a stop calls what was registered since the last stop in exact reverse order |
| Forwards.ReverseTearsDown | forward.go:102-105 | reversing a stack of pushed pairs puts each cancel before its close |
| Prelude.JoinAllKeeps | forward.go:163 | joining the results one by one loses no error and adds none, and is nil if and only if every result was |
| Wireguard.New | pkg/wg/connection.go:20-55 | over the option list itself: created if and only if no option fails, one gives a device, and the configuration, if given, and Up succeed; the object owns the options' closers in order, the default bind's close exactly without OptionBind, the device's close and Down; a later failure has run everything registered by then, the device's close included, and joins the errors; an option's failure returns its error and runs nothing |
| Wireguard.FromOptionsHolds | pkg/wg/options.go:82-106 | each OptionCloser and each netstack opened by an option registers its closer once, and options register nothing else |
| Wireguard.FromOptionsAppend | pkg/wg/options.go:82-106 | closers are registered in option order |
| Wireguard.Wireguard.Close | pkg/wg/connection.go:72-80 | one call at a time: the first runs every closer once in reverse order and joins the results; later calls run none and return the first call's error |
| CloseRace.OverlappingCloses | pkg/wg/connection.go:72-80 | however calls overlap, the closers run in reverse order and none twice; each call returns the joined errors of the closers whose results were in by its load; the call that won the swap returns all of them, after all have run |
| CloseRace.StepKeepsInv | pkg/wg/connection.go:72-80 | every swap, closer call, join, clear and load of every call keeps what the closers and the errors are |
| CloseRace.CompleteExactly | pkg/wg/connection.go:79 | a load after some of the results returns the whole error if and only if no later closer fails |
| CloseRace.AfterTheLoop | pkg/wg/connection.go:73-79 | once the winner has left its loop every load returns the whole error |
| CloseRace.FinishesAlone | pkg/wg/connection.go:72-80 | from every reachable state a call can run to its end by itself, within its fuel |
| CloseRace.AloneIsClose | pkg/wg/connection.go:72-80 | a call nothing overlaps runs all closers in reverse and returns their joined errors |
| CloseRace.LateReaderSeesPart | pkg/wg/connection.go:73-79 | a run of two calls in which the second returns no error although the one closer fails |
| Wireguard.Lifetime | pkg/wg/connection.go:20-80 | New followed by any number of Close calls: the closers that ran, in order, device down before device closed before bind before options in reverse, and the same joined error from every Close |
| Wireguard.CloseAgain | pkg/wg/connection.go:72-80 | any positive number of Close calls runs the closers once and returns one error |
| Wireguard.Apply | pkg/wg/options.go:22-30 | the options up to the first failing one, and its error |
| Wireguard.FirstFailureStays | pkg/wg/options.go:22-30 | options after the first failing one change nothing |
| Wireguard.CleanUp | pkg/wg/options.go:33-39 | on failure runs every closer in registration order and joins the results after the error; otherwise nothing |
| Wireguard.ReleasedExactlyIf | pkg/wg/connection.go:20-27 | a New that fails has run every closer registered by then if and only if no option failed after one that registers |
| Wireguard.OptionFailureLeavesOpen | pkg/wg/connection.go:22-27 | an option list for which New fails with an open network stack that nothing closes |
| Scanner.ScanAll | pkg/wg/wgapi/internal/parser/scanner.go:16-30 | for every way of cutting the bytes into reads the loop yields the lines of the whole text, fails exactly if an unterminated tail remains, and terminates |
| Scanner.LineScanner.Scan | pkg/wg/wgapi/internal/parser/scanner.go:16-30 | one token is the next newline-terminated line; without one everything is read and the error tells a clean end from an unterminated one |
| Scanner.SplitUnique | pkg/wg/wgapi/internal/parser/scanner.go:16-30 | splitting newline-terminated lines and a tail gives back those lines and that tail |
| Scanner.SplitJoins | pkg/wg/wgapi/internal/parser/scanner.go:16-30 | lines and tail of a text make up that text and contain no newline |
| Decimal.ParseUint | pkg/wg/wgapi/internal/parser/parsers.go:52-55 | the 64-bit loop accepts exactly the digit strings below the bound in spite of wrap-around, and saturates with a range error |
| Decimal.ParseInt64 | pkg/wg/wgapi/internal/parser/parsers.go:62-65 | accepts exactly the signed digit strings in the range of 64 bits |
| Decimal.ValueOfPrint | pkg/wg/wgapi/internal/value/values.go:89 | the value of a printed number is that number, and it has no leading zero |
| Decimal.PrintOfValue | pkg/wg/wgapi/internal/value/values.go:89 | a numeral without leading zeros is what its value prints as |
| Decimal.Numerals | pkg/wg/wgapi/internal/value/values.go:89 | numbers print in the ten decimal digits, highest first |
| Decimal.ReadsNumerals | pkg/wg/wgapi/internal/parser/parsers.go:53 | another digit makes the value ten times as large plus the digit |
| Decimal.NumStringText | pkg/wg/wgapi/internal/value/values.go:89 | what numString prints for every number, a minus sign and the distance to 2^64 from 2^63 on |
| Decimal.UintRoundTrip | pkg/wg/wgapi/internal/value/values.go:89 | an unsigned number printed by numString reads back if and only if it is below 2^63 |
| Decimal.Uint64TopBitFails | pkg/wg/wgapi/internal/value/values.go:89 | 2^63 does not read back |
| Decimal.Int64RoundTrip | pkg/wg/wgapi/internal/value/values.go:32 | every signed 64-bit number reads back, negatives included |
| Hex.Decode | pkg/wg/wgapi/internal/parser/parsers.go:69 | the in-place decoder succeeds exactly on an even number of hex digits that fit, writes just the decoded bytes, and runs off the array exactly on enough hex digits |
| Hex.ParseKey | pkg/wg/wgapi/internal/parser/parsers.go:67-76 | succeeds exactly on 64 hex digits and returns their bytes; fails out of bounds exactly if the text begins with 66 |
| Hex.KeyRoundTrip | pkg/wg/wgapi/internal/value/values.go:57 | the printed form of any 32 bytes reads back as them |
| Hex.EncodeText | pkg/wg/wgapi/internal/value/values.go:57 | every byte prints as two of the sixteen lower-case digits, the high one first |
| Hex.OnlyHexDigits | pkg/wg/wgapi/internal/parser/parsers.go:69 | the digits read are those sixteen in either case |
| Hex.PrintParsedKey | pkg/wg/wgapi/internal/parser/parsers.go:67-76 | printing a parsed key gives its text in lower case |
| Address.QuadRoundTrip | pkg/wg/wgapi/internal/parser/parsers.go:17-23 | a printed dotted quad reads back |
| Address.QuadUnique | pkg/wg/wgapi/internal/parser/parsers.go:17-23 | a text that reads as an address is what the address prints as |
| Address.QuadText | pkg/wg/wgapi/internal/value/values.go:47 | the text of an address: its four numbers in order with dots between |
| Address.FormsOfAddress | pkg/wg/wgapi/api.go:121 | an IPv4 address is stored in four bytes or in sixteen after ten zeros and two 255, and in no other way |
| Address.MaskRoundTrip | pkg/wg/wgapi/internal/value/values.go:52 | the length of a prefix mask is its number of ones |
| Address.ContiguousMask | pkg/wg/wgapi/internal/value/values.go:52 | a mask that has a length is the prefix mask of that length |
| Address.NetRoundTrip | pkg/wg/wgapi/internal/value/values.go:49-52 | a printed subnet reads back, in canonical form, if and only if its mask is contiguous |
| Address.NetText | pkg/wg/wgapi/internal/value/values.go:52 | the text of a subnet: its address, a slash, and the length of a prefix mask or any other mask in hex |
| Address.GappedMaskMisreads | pkg/wg/wgapi/internal/value/values.go:52 | the mask 0.0.0.1 reads back as another mask |
| Address.PrintedNetIsStable | pkg/wg/wgapi/internal/value/values.go:49-52 | a subnet and its canonical form print alike if and only if the address has no host bits |
| Address.ParsedNetBits | pkg/wg/wgapi/internal/parser/parsers.go:17-23 | bit by bit, a parsed subnet keeps the prefix bits of its address, clears all host bits and has the mask of its length |
| Address.IdentitySubnetIsOneAddress | pkg/wg/wgapi/api.go:119-124 | for IPv4 it stores a 128-bit mask, prints as /32 and reads back as that single address |
| Address.AddrRoundTrip | pkg/wg/wgapi/internal/value/values.go:44-47 | a printed endpoint reads back in its 16-byte form if and only if its port is below 65536 |
| Address.AddrText | pkg/wg/wgapi/internal/value/values.go:47 | the text of an endpoint: its address, a colon and its port |
| Address.PortForms | pkg/wg/wgapi/internal/parser/parsers.go:79 | a plus sign and no port at all are read too, a negative port is not |
| Ipc.KeysAreDistinct | pkg/wg/wgapi/internal/key/keys.go:3-81 | every one of the twenty names finds its own key in the table and holds neither = nor newline |
| Ipc.FindParser | pkg/wg/wgapi/parser.go:39-42 | the table finds the key with the given name, or there is none |
| Ipc.Parse | pkg/wg/wgapi/parser.go:53-74 | running the parser of a key's kind gives what the kind's reader says |
| Ipc.ValueRoundTrip | pkg/wg/wgapi/internal/value/values.go:14-57 | a printed value of any kind reads back in canonical form if and only if it survives: numbers below 2^63, ports below 65536, contiguous masks |
| Ipc.ValueReadsItself | pkg/wg/wgapi/internal/value/values.go:14-57 | a printed value reads back as itself if and only if it survives and is canonical |
| Ipc.PrintStaysOnLine | pkg/wg/wgapi/internal/value/values.go:14-57 | no printed value holds a newline |
| Ipc.WGConfig | pkg/wg/wgapi/api.go:33-43 | the buffer loop writes exactly the newline-terminated lines of the entries; what each key's line is, the rows of IpcText say |
| IpcText.KeyLines | pkg/wg/wgapi/internal/key/keys.go:5-13 | the lines `private_key=`, `public_key=` and `preshared_key=` with the key in hex |
| IpcText.UnsignedLines | pkg/wg/wgapi/api.go:58-100 | the lines `listen_port=` and `persistent_keepalive_interval=` |
| IpcText.MarkLine | pkg/wg/wgapi/api.go:102 | the line `fwmark=` |
| IpcText.CounterLines | pkg/wg/wgapi/api.go:86-88 | the lines `rx_bytes=` and `tx_bytes=` |
| IpcText.SignedLines | pkg/wg/wgapi/api.go:79-127 | the lines `errno=`, `last_handshake_time_sec=` and `last_handshake_time_nsec=` |
| IpcText.TrueLines | pkg/wg/wgapi/api.go:62-68 | the lines `replace_peers=true`, `remove=true`, `update_only=true` and `replace_allowed_ips=true` |
| IpcText.OneLines | pkg/wg/wgapi/api.go:70-74 | the lines `protocol_version=1`, `get=1` and `set=1` |
| IpcText.EndpointLine | pkg/wg/wgapi/api.go:96 | the line `endpoint=` |
| IpcText.AllowedLine | pkg/wg/wgapi/api.go:98 | the line `allowed_ip=` |
| Ipc.IPCGet.Value | pkg/wg/wgapi/parser.go:24-51 | the scanner loop returns what decoding the whole buffer gives, however the reads come, and leaves a suffix of it, empty unless it met a blank line or a bad one |
| IpcText.ReadsPrivateKey | pkg/wg/wgapi/parser.go:71 | a line `private_key=` gives that key's entry if and only if its value is exactly 64 hex digits, and with that value |
| IpcText.ReadsPublicKey | pkg/wg/wgapi/parser.go:72 | a line `public_key=` gives that key's entry if and only if its value is exactly 64 hex digits, and with that value |
| IpcText.ReadsPresharedKey | pkg/wg/wgapi/parser.go:73 | a line `preshared_key=` gives that key's entry if and only if its value is exactly 64 hex digits, and with that value |
| IpcText.ReadsListenPort | pkg/wg/wgapi/parser.go:66 | a line `listen_port=` gives that key's entry if and only if its value is a number below 2^16, and with that value |
| IpcText.ReadsPersistentKeepalive | pkg/wg/wgapi/parser.go:67 | a line `persistent_keepalive_interval=` gives that key's entry if and only if its value is a number below 2^16, and with that value |
| IpcText.ReadsFWMark | pkg/wg/wgapi/parser.go:65 | a line `fwmark=` gives that key's entry if and only if its value is a number below 2^32, and with that value |
| IpcText.ReadsRXBytes | pkg/wg/wgapi/parser.go:63 | a line `rx_bytes=` gives that key's entry if and only if its value is a number below 2^64, and with that value |
| IpcText.ReadsTXBytes | pkg/wg/wgapi/parser.go:64 | a line `tx_bytes=` gives that key's entry if and only if its value is a number below 2^64, and with that value |
| IpcText.ReadsErrno | pkg/wg/wgapi/parser.go:68 | a line `errno=` gives that key's entry if and only if its value is a signed number of 64 bits, and with that value |
| IpcText.ReadsLastHandshakeTimeSec | pkg/wg/wgapi/parser.go:69 | a line `last_handshake_time_sec=` gives that key's entry if and only if its value is a signed number of 64 bits, and with that value |
| IpcText.ReadsLastHandshakeTimeNSec | pkg/wg/wgapi/parser.go:70 | a line `last_handshake_time_nsec=` gives that key's entry if and only if its value is a signed number of 64 bits, and with that value |
| IpcText.ReadsReplacePeers | pkg/wg/wgapi/parser.go:56 | a line `replace_peers=` gives that key's entry if and only if its value is `true`, and with that value |
| IpcText.ReadsRemove | pkg/wg/wgapi/parser.go:57 | a line `remove=` gives that key's entry if and only if its value is `true`, and with that value |
| IpcText.ReadsUpdateOnly | pkg/wg/wgapi/parser.go:58 | a line `update_only=` gives that key's entry if and only if its value is `true`, and with that value |
| IpcText.ReadsReplaceAllowedIPs | pkg/wg/wgapi/parser.go:59 | a line `replace_allowed_ips=` gives that key's entry if and only if its value is `true`, and with that value |
| IpcText.ReadsProtocolVersion | pkg/wg/wgapi/parser.go:62 | a line `protocol_version=` gives that key's entry if and only if its value is `1`, and with that value |
| IpcText.ReadsGet | pkg/wg/wgapi/parser.go:60 | a line `get=` gives that key's entry if and only if its value is `1`, and with that value |
| IpcText.ReadsSet | pkg/wg/wgapi/parser.go:61 | a line `set=` gives that key's entry if and only if its value is `1`, and with that value |
| IpcText.ReadsEndpoint | pkg/wg/wgapi/parser.go:54 | a line `endpoint=` gives that key's entry if and only if its value is what reads as an endpoint, and with that value |
| IpcText.ReadsAllowedIP | pkg/wg/wgapi/parser.go:55 | a line `allowed_ip=` gives that key's entry if and only if its value is what reads as a subnet, and with that value |
| IpcTheorems.RoundTrip | pkg/wg/wgapi/parser.go:24-51 | decoding the text of any list of entries over all keys gives the list in canonical form with no error if and only if every value survives |
| IpcTheorems.RoundTripExact | pkg/wg/wgapi/parser.go:24-51 | it gives exactly that list if and only if every value also is canonical |
| IpcTheorems.EntryRoundTrip | pkg/wg/wgapi/parser.go:34-48 | one printed line is non-empty, has no newline and reads back exactly if its value survives |
| IpcTheorems.AcceptedExactly | pkg/wg/wgapi/parser.go:24-51 | a text is accepted if and only if up to its end or its first blank line it is newline-terminated lines of a known key, = and a value its parser accepts; the result is those entries |
| IpcTheorems.BlankLineEnds | pkg/wg/wgapi/parser.go:30-32 | text after a blank line never changes the result, error or not |
| IpcFailures.FailsExactly | pkg/wg/wgapi/parser.go:34-47 | the reading fails with a line's error if and only if assignments come first and the next line fails with that error |
| IpcFailures.LineErrors | pkg/wg/wgapi/parser.go:34-42 | which line fails for want of an equals sign and which for its name |
| IpcFailures.UnterminatedExactly | pkg/wg/wgapi/internal/parser/scanner.go:24-27 | the missing last newline is reported if and only if every line before it is an assignment and something follows the last newline |
| IpcFailures.PanicsExactly | pkg/wg/wgapi/internal/parser/parsers.go:67-69 | Value runs into the bounds check if and only if assignments are followed by a line that gives a key at least 66 leading hex digits |
| IpcFailures.PanicsOnZeros | pkg/wg/wgapi/internal/parser/parsers.go:67-69 | one such text: 66 zeros for a public key |
| IpcFailures.ReadTwice | pkg/wg/wgapi/parser.go:13-51 | a second write and read without Reset decodes some suffix of the first text and then the second; just the second if all lines of the first are assignments, terminated or not |
| IpcFailures.UseTwice | pkg/wg/wgapi/parser.go:13-51 | two printed lists that survive, read one after the other through one buffer without Reset, both come back |
| IpcFailures.SecondUseDiffers | pkg/wg/wgapi/parser.go:18-19 | an input on which the second reading is not the data of the first use |
| Injective.EncodeInjective | pkg/wg/wgapi/api.go:33-43 | two typed lists have one text if and only if they have the same keys and, up to the stored length of addresses and masks, the same values in the same order; numbers from 2^63 on, bad ports and gapped masks included |
| Injective.OneTextOneForm | pkg/wg/wgapi/api.go:33-43 | lists with one text have one canonical form |
| Injective.EntryInjective | pkg/wg/wgapi/api.go:35-40 | two entries print the same line if and only if they are the same entry |
| Injective.ValueInjective | pkg/wg/wgapi/internal/value/values.go:14-57 | two values of one kind print alike if and only if they are the same |
| Injective.MaskInjective | pkg/wg/wgapi/internal/value/values.go:52 | different masks print differently: a length has at most two digits, a mask in hex has eight |
| WgConfig.Peer.WGConfig | pkg/wg/wgapi/wgconfig/server-config.go:51-61 | the text is `public_key=`, `preshared_key=` and the `allowed_ip=` lines in order |
| WgConfig.Server.AddPeer | pkg/wg/wgapi/wgconfig/server-config.go:43-49 | adds one fresh peer at the end with its identity subnet and leaves the others |
| WgConfig.Server.WGConfig | pkg/wg/wgapi/wgconfig/server-config.go:24-35 | the concatenated readers give `private_key=`, `listen_port=` and then the text of every peer, in order |
| WgConfig.Client.WGConfig | pkg/wg/wgapi/wgconfig/client-config.go:19-38 | the concatenated readers give `private_key=`, `replace_peers=true`, `public_key=`, `endpoint=`, `preshared_key=`, `persistent_keepalive_interval=` only if set, and the `allowed_ip=` lines in order |
| WgConfig.EmptySubnetText | pkg/wg/wgapi/api.go:106-116 | the subnet that AllowAllIPs sets prints as 0.0.0.0/0 |
| ServerTheorems.RegroupEntries | pkg/wg/wgapi/wgconfig/server-config.go:24-61 | grouping a server's entries at each public_key gives the server back |
| ServerTheorems.ServerReads | pkg/wg/wgapi/wgconfig/server-config.go:24-61 | a server's text reads back as its canonical entries if and only if every mask is contiguous |
| ServerTheorems.ServerRoundTrip | pkg/wg/wgapi/wgconfig/server-config.go:24-61 | reading and regrouping the text gives back key, port and peers in order with preshared keys and canonical allowed IPs if and only if every mask is contiguous |
| ServerTheorems.DecodeKeepsKeys | pkg/wg/wgapi/parser.go:24-51 | a printed list that reads without an error comes back with one entry of the right type under each of its keys, in order |
| ServerTheorems.DifferentServersDifferentTexts | pkg/wg/wgapi/wgconfig/server-config.go:24-61 | servers that differ in canonical form have different texts, whatever their masks |
| ServerTheorems.AddPeersAndReadBack | pkg/wg/wgapi/wgconfig/server-config.go:43-49 | any sequence of AddPeer calls, printed, written to an IPCGet and read back, gives one peer per call in call order, each allowed its own address as a /32 |
| DeviceTheorems.ClientDecodes | pkg/wg/wgapi/wgconfig/client-config.go:19-38 | a client's text reads back as its canonical entries if and only if its port is below 65536 and its masks are contiguous |
| DeviceTheorems.ClientLeavesOnePeer | pkg/wg/wgapi/wgconfig/client-config.go:19-38 | applied to any prior device, the decoded text leaves exactly one peer with the configured endpoint, preshared key, keepalive and allowed IPs in order, if and only if the port is below 65536 and the masks are contiguous |
| DeviceTheorems.DifferentClientsDifferentTexts | pkg/wg/wgapi/wgconfig/client-config.go:19-38 | clients that differ in canonical form have different texts, whatever their ports and masks |
| DeviceTheorems.ApplyAppend | pkg/wg/wgapi/wgconfig/client-config.go:28-36 | applying concatenated texts is applying one after the other |
| DeviceTheorems.RemoveRemoves | pkg/wg/wgapi/api.go:64 | remove takes just that peer off any device |
| DeviceTheorems.UpdateOnlyCreatesNothing | pkg/wg/wgapi/api.go:66 | update_only creates no peer |
| DeviceTheorems.ReplaceAllowedClears | pkg/wg/wgapi/api.go:68 | replace_allowed_ips clears just that peer's allowed IPs |
| DeviceTheorems.AllowedMoves | pkg/wg/wgapi/api.go:98 | allowed_ip puts a subnet at the end of its peer's list and takes it from every other peer |
| PortPair.PortPair.UnmarshalText | forward.go:59-91 | fields and result are those of the successive cuts, also where it stops halfway |
| PortPair.AcceptsExactly | forward.go:59-91 | a text is accepted if and only if it renders legal parts, and then the fields are what those parts mean, on any value |
| PortPair.AcceptsGrammar | forward.go:59-91 | a text is accepted if and only if it is a host part (none, empty, or a dotted quad, with its colon), digits below 65536, a colon, digits below 65536, and nothing, /tcp or /udp |
| PortPair.ReadingIsUnique | forward.go:60-77 | a text has at most one reading, legal or not |
| PortPair.ReadingExists | forward.go:60-63 | exactly the texts with a colon have a reading |
| PortPair.RenderCuts | forward.go:60-77 | cutting the rendering of parts gives the parts back |
| PortPair.RoundTrip | forward.go:59-91 | host, both ports and protocol come back from their rendering |
| PortPair.NoColonChangesNothing | forward.go:60-63 | a text without a colon is rejected and leaves every field as it was |
| PortPair.ProtoExactly | forward.go:77-85 | an accepted text gives what it gives on a fresh value if and only if it names a protocol or none had been set |
| PortPair.RejectedLeaves | forward.go:66-89 | what a rejected text leaves in each field: the host always its own, the protocol its own exactly if one is named and the host was good, a port its own exactly if it is good and host and protocol were |
| PortPair.RejectedExactly | forward.go:66-89 | a rejected text leaves what it leaves on a fresh value if and only if every field it does not overwrite held its first value |
| PortPair.ProtoIsKept | forward.go:77-85 | an input whose result depends on what was parsed before |

## Left out

- MultiWrapper.MultiWrapper.WrapListener: one step of the protocol; a goroutine that the loop has not started yet is one that has not yet moved, so no interleaving is lost. A call after Cleanup, which finds no channel, is not modelled.
- Wireguard.Wireguard.Close: one call at a time; overlapping calls are the machine in CloseRace, where a load sees the error before or after a join, although the code does not synchronise the two.
- Ipc.IPCGet.Value: the bounds check inside ParseKey is a panic in the source, which returns nothing; here it is a reading with no entries and the error BoundsPanic.
- Ipc.Parse: net.ParseCIDR and net.ResolveUDPAddr are library functions and enter as the functions NetOf and AddrOf on IPv4 texts; only the number and key parsers are run as loops.
- IpcTheorems.AcceptedExactly: a value is what the IPv4 readers accept, so IPv6 subnets, IPv6 endpoints and named endpoints count as rejected.
- PortPair.AcceptsExactly: texts after the placeholder replacer, which leaves a text without braces as it is; the kept original text of a field is not modelled.
- Caddy plumbing: module registration, Caddyfile parsing, LoadModule, the placeholder replacer and the JSON round trip of text values.
- IPv6 addresses, zones, bracketed hosts, host names and service names: endpoints, subnets and hosts are IPv4.
- An endpoint text with an empty host, which resolves to the unspecified address.
- The 64 KiB line limit of bufio.Scanner, its limit on empty reads, and readers that return data together with the end of input.
- Key generation, public keys from private keys and base64 keys.
- A device's treatment of a peer that has its own public key, and the handshake, counters and errno of a running device.
- Forwards.Provision and the choice of a network for each forwarder; UDP forwards, which Provision does not build.
- What is copied between two tunnelled connections: a copy is a step that ends.
- pkg/wg/netstack.go, which passes calls on to gVisor, and the generated event types of wglog, a table.
- The other configuration text types, DefaultListenPort and GenerateConfigPair, which call one library function or set constants.
- Wording of errors and line numbers in them, logging and timing.
