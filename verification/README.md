# A verified model of the TCP data path and the RIP routing protocol

The repository implements a small TCP/IP stack in Go: virtual hosts and routers, TCP sockets over
them, and RIP for the routing tables. This project models its two protocol cores and proves what they
promise.

**TCP** (`pkg/tcpstack`). One connection is two ends over a network that may lose, duplicate, delay and
reorder segments, modelled as the set of all segments ever sent, any of which may arrive at any time.

| file | what it holds |
|---|---|
| `Arith.dfy`, `Ring.dfy` | 32-bit arithmetic that wraps, remainders, and the copies into and out of a ring |
| `RecvBuf.dfy`, `SendBuf.dfy` | the two ring buffers as classes over arrays |
| `Segments.dfy`, `Reassembly.dfy`, `Retransmission.dfy` | acceptance and trimming; the merge of early arrivals; the in-flight queue |
| `Endpoints.dfy` | one end as a value: what each event does to it and what it sends |
| `Conn.dfy`, `Writing.dfy` | the connection object; each method is proved to take the step `Endpoints.dfy` gives |
| `Transfer.dfy` | the two-party system and its invariant |
| `Delivery.dfy`, `Crash.dfy` | the theorems that hold in every reachable state; the one crash left, exactly and in a run |
| `Sides.dfy`, `Progress.dfy` | from every reachable state in which what was sent can still be taken, all that is written can be delivered |
| `Copies.dfy`, `LostProbe.dfy` | whatever has been lost: exactly when the next byte can still come; and a run that loses one for good |
| `Overlap.dfy` | what a peer that cuts its retransmissions differently gets the receiver to hand on |
| `Wakeups.dfy`, `Tokens.dfy` | the token channels between reader, writer, send loop and arrivals; the objects' methods take the token model's steps |
| `Lifecycle.dfy` | the state machine from ESTABLISHED to CLOSED |

**RIP** (`pkg/vrouter`, `pkg/ipstack`, `pkg/proto`).

| file | what it holds |
|---|---|
| `RipTable.dfy` | the routing table: learning, expiry, split horizon; the router object |
| `RipNetwork.dfy`, `RipRouter.dfy` | any number of routers over a lossy network: what every run keeps; the router object takes the network's steps |
| `RipConvergence.dfy`, `RipSettled.dfy`, `RipCounting.dfy` | rounds of exchange: convergence, the quiet after it, and the end of counting to infinity |
| `RipWire.dfy` | messages as bytes, tables as messages, masks |
| `Lookup.dfy` | longest-prefix match and the search for a local next hop |
| `Prefixes.dfy` | prefixes and masks, bit by bit |

## Hypotheses

- The two-party theorems hold while no sequence number wraps: `iss >= 65535` at both ends and what has
  been written ends at or below 2^32 - 65536 (`Transfer.NoWrap`). The code compares sequence numbers as
  plain unsigned integers, so this is needed; `Segments.ValidityIsStandardIff` and
  `RecvBuffer.RingStepsAcrossWrapIff` say exactly where it matters. The send ring is proved through the wrap.
- Both ends start where the handshake leaves them, and the stream theorems stop at the first FIN.
- One reader, one writer and one send loop per connection. Atomic are: a read with its window update; a
  write once it has room; a turn of the send loop with the push onto the queue and the advance of
  `sndNxt`; one arriving segment; closing, which waits until nothing is unsent. `Wakeups.dfy` takes these
  apart where locks and channels are concerned.
- In the two-party model an end that has given up, crashed or hung takes no further step. (The code's send
  loop and `VWrite` do not look for CLOSED; `Lifecycle.dfy` lets both go on.)
- The early arrivals are a bag; an arrival comes with the order in which the heap will surface them,
  and the theorems hold for every order; those that say what can happen choose one. (The code fills the heap with `Push` instead of `heap.Push`,
  and its order is reversed, so no order can be relied on.)
- A Go run-time panic and a loop that never ends are outcomes (`Crashed`, `Hung`, `Panicked`,
  `Spinning`, `OutOfBounds`), not preconditions.
- In `Lifecycle.dfy` every sequence number lies below 2^32 - 65535, and a tear-down by the retransmission
  limit needs something unacknowledged (`Delivery.GivesUpUnacknowledged`).
- RIP convergence and counting to infinity are stated for a fixed topology; the lower bound for every
  run on one. Convergence supposes that no router has static routes: they are not advertised and keep
  RIP from learning the prefix.
- Go's `math.Log2`, cut to an integer, is taken to be the exact floor of the logarithm of a number
  below 2^32.

## What the code does not meet

Each has an exact condition, and most a run.

- `handleSeqNum` and `aggregateEarlyArrivals` compute the end of a slice without adding its start. A
  segment that starts early and is longer than the window is cut short or panics
  (`Segments.TrimExactIff`); a queued one makes the loop panic or go round for ever
  (`Reassembly.LongHeadIff`). Between two ends of this implementation only one case is left: an early
  segment that lies in the queue besides others that lead up to its end, close to the right edge, panics
  the receiver for some order in which the queue comes up, and nothing else does (`Crash.ArrivalCrashIff`).
  A duplicate of the 48th full segment of an unread window does it (`Crash.CrashReached`).
- `handleSeqNum` starts the merge at the segment's own sequence number plus the length kept, which is
  the next byte only for a segment that starts at `expectedSeqNum`. For one that starts earlier, whatever
  early arrival reaches that place is appended from there, and the result continues the stream only if
  nothing is, or the bytes happen to repeat (`Overlap.OverlapHandsOn`). The two ends never send such a
  segment, because retransmissions repeat whole segments and the window never cuts one.
- A zero-window probe is not queued for retransmission. Once the send loop has left it, its byte has no copy but
  those under way or queued early at the receiver (`LostProbe.NoCopyLeftIff`); the stream gets beyond a byte exactly
  as long as a copy is left that the receiver can take (`Copies.MovesOnIff`). A run for all data loses one with
  both ends open (`LostProbe.ProbeLost`).
- A FIN that comes while the reader is parked with nothing to read leaves no token: the reader never sees the end of
  the stream (`Wakeups.FinParksForGoodIff`).
- `isValidSeg` turns away everything once the right edge of the window passes 2^32
  (`Segments.ValidityAgrees`), and the receive ring jumps there, 65535 not dividing 2^32
  (`RecvBuffer.UsedCapacityJumps`).
- A writer that overtakes the send loop often enough fills `hasUnsentC` and blocks with `conn.mu` held,
  which the send loop needs: a deadlock, at the code's capacity as at any from 2 on
  (`Wakeups.WriterCanJam`). It happens exactly when a write finds room while as many writes as the channel
  has places have left tokens since it was last emptied (`Wakeups.JamsExactlyThere`).
- A FIN takes a place in the receive ring as if it were a byte: the reader finds one byte after the
  data, and with 65534 bytes unread the ring is full but looks empty (`RecvBuffer.RecvBuf.AdvanceNxt`).
  A FIN that is early or carries text leaves the ring and `expectedSeqNum` apart
  (`Connection.VTCPConn.StateFuncEstablished`).
- `VWrite` accepts data in LAST_ACK and CLOSED: of `n` bytes the send loop counts `n - 1` as unsent
  (`Lifecycle.WriteAfterFin`), the first is never sent (`Lifecycle.SendsStartBeyondFin`), and the connection
  can close without any (`Lifecycle.WriteAfterFinLost`). After a FIN with nothing written since, the count
  of unsent bytes is just below 2^32 (`Lifecycle.UnsentAfterFin`).
- After a tear-down the state is CLOSED with data, or the FIN, unacknowledged (`Lifecycle.EndsAcknowledged`).
- Routes of cost 16 need not expire: a route outlives a round exactly if its next hop mentions the prefix,
  at whatever cost, or something shorter is heard (`RipCounting.OutlivesInboxIff`).
- `findNextHopEntry` goes round for ever exactly on a search that comes back to a route it followed
  (`Lookup.EndlessIffCycle`). Static routes are stored under prefixes as written, not masked, so two may
  match the same addresses (`Lookup.UnmaskedAmbiguous`).
- A RIP message that counts more than 114 entries, all that a packet holds, panics the receiver, which
  otherwise reads zeros for whatever was cut off (`RipWire.MessageOverIp`); so a table arrives whole exactly
  if it has at most 114 entries (`RipWire.TableOverIp`). A prefix of length 0 does not survive the wire
  (`RipWire.MaskRoundTripIff`), and a received cost of 2^32 - 1 becomes 0 (`RipWire.CostWraps`).

## Model

| member | source | states |
|---|---|---|
| `Delivery.EndToEndPrefix` | pkg/tcpstack/state_internal.go:14-120 | in every reachable state of two ends over a lossy, duplicating, reordering network, the bytes read plus the bytes buffered are exactly the first `expectedSeqNum - (iss + 1)` bytes the peer wrote |
| `Delivery.TruthfulAck` | pkg/tcpstack/state_internal.go:64-103 | in every reachable state, until an end gives up, `sndUna <= peer.expectedSeqNum <= sndNxt <= lbw <= sndUna + capacity` |
| `Delivery.OverwritesOnlyAccepted` | pkg/tcpstack/sendbuf.go:58-84 | the ring cells a write takes over held bytes the peer has accepted |
| `Delivery.EdgeNeverRetreats` | pkg/tcpstack/state_internal.go:106-120 | the receiver's right edge is `lbr + 1 + capacity`, no event moves it left (section 3.8.6 of RFC 9293), and the sender's view never passes it |
| `Delivery.ArrivalsWhole` | pkg/tcpstack/state_internal.go:27-60 | between two such ends an accepted segment that is not early starts at `expectedSeqNum` and is never trimmed, what it leads to fits the buffer (the overflow branch is dead), and the receiver never hangs; for the panic see `Crash.ArrivalCrashIff` |
| `Delivery.DuplicateEarlyCrashesIff` | pkg/tcpstack/tcp_internal.go:96-132 | exactly when the second of two copies of an early segment panics the receiver |
| `Crash.ArrivalCrashIff` | pkg/tcpstack/tcp_internal.go:96-132 | in every reachable state, an arrival can panic the receiver for some order of the queue if and only if it is accepted, not early, and besides queued segments that lead from its end up to the end of another, that other is longer than the window then left |
| `Crash.CrashReached` | pkg/tcpstack/tcp_internal.go:114-120 | a run from the start to that panic, for all data and all initial sequence numbers that do not wrap |
| `Delivery.GivesUpUnacknowledged` | pkg/tcpstack/retransmission.go:76-88 | in every reachable state an end that gives up has something unacknowledged |
| `Delivery.RetransmissionCovers` | pkg/tcpstack/retransmission.go:28-109 | in every reachable state the in-flight queue is the unacknowledged data segments in order, disjoint, each its exact stream slice, and every byte in `[sndUna, sndNxt)` is in the queue or was sent as a probe |
| `Delivery.SegmentsMakeTheStream` | pkg/tcpstack/conn.go:184-233 | the payloads of all first transmissions and probes, in order, are the stream up to `sndNxt`, and all data lies inside the receiver's offered window |
| `Progress.NeverStuck` | pkg/tcpstack/conn.go:171-236 | from every reachable state with both ends open, whatever has been lost: if every segment sent and not yet taken has a copy under way with a recent acknowledgement or a resend left, some continuation delivers all that one end has written, without a crash |
| `Progress.WholeReady` | pkg/tcpstack/state_internal.go:64-76 | with nothing lost that is so in every reachable state in which the other end has written less than a buffer |
| `Progress.NeitherStuck` | pkg/tcpstack/conn.go:171-236 | if both have written less than a buffer, one continuation delivers all both ways |
| `Copies.MovesOnIff` | pkg/tcpstack/retransmission.go:61-109 | in every reachable state, whatever has been lost, some continuation gets the receiver beyond the byte it waits for if and only if a copy is left: under way with an acknowledgement not too old, queued with attempts left, being probed, or queued early with something under way that sets off its merge |
| `Copies.LostForever` | pkg/tcpstack/conn.go:184-216 | a byte sent of which no copy is left is never got beyond in any continuation |
| `LostProbe.NoCopyLeftIff` | pkg/tcpstack/conn.go:184-216 | in every reachable state, losing what is under way with the byte the receiver waits for leaves no copy of it if and only if it was sent as a probe or has used up its resends, is not being probed, and is not queued early with something under way that sets off its merge |
| `LostProbe.ProbeLost` | pkg/tcpstack/conn.go:202-216 | for all data, a run from the start to a state with both ends open and all but one byte read which, if what is under way with that byte is lost, no continuation gets beyond |
| `Overlap.OverlapHandsOn` | pkg/tcpstack/state_internal.go:44-60 | for every accepted segment of a stream that starts before `expectedSeqNum` and every order of the early arrivals: exactly what is handed on, when anything is appended, and when it continues the stream |
| `Overlap.MergeHandsOn` | pkg/tcpstack/tcp_internal.go:90-135 | the same of a merge started any distance early |
| `Overlap.OverlapCorrupts` | pkg/tcpstack/state_internal.go:55-58 | an instance that hands on three bytes twice |
| `Delivery.ReceiveRingStaysBelow` | pkg/tcpstack/recvbuf.go:59-60 | in every reachable state the receive ring is a whole capacity away from 2^32 |
| `Transfer.StepKeepsInv` | pkg/tcpstack/conn.go:48-236 | every event at either end keeps the two-party invariant: sender's books, receiver's receipt, window edge, alignment of segment boundaries |
| `Transfer.SendShape` | pkg/tcpstack/conn.go:184-233 | a turn of the send loop does nothing, forms a probe of the next byte, or sends and queues the next bytes: at most MSS, at most what is unsent, ending at or below `sndUna + sndWnd` |
| `Transfer.SendsUpTo1360` | pkg/tcpstack/conn.go:217-233 | how much goes out in a segment: 1360 bytes, unless less is unsent or the window allows less |
| `Transfer.AckExact` | pkg/tcpstack/state_internal.go:64-103 | `handleAck` in plain integers, all of it: what it accepts, what it changes, and that exactly what it does not accept is answered, with where this end stands |
| `Transfer.ResendsThrice` | pkg/tcpstack/retransmission.go:74-108 | a front segment is sent three times more, with the acknowledgement and window of now, before the fourth timeout tears the connection down |
| `Transfer.SeqNumFails` | pkg/tcpstack/state_internal.go:44-60 | what `handleSeqNum` leaves in each case, the panics and the endless loop included |
| `Transfer.SegTextCut` | pkg/tcpstack/state_internal.go:106-120 | `handleSegText` for any length: what fits is stored and acknowledged, a full buffer takes and answers nothing |
| `Sides.NoLongerThan1360` | pkg/tcpstack/conn.go:217-223 | in every reachable state no segment carries more than 1360 bytes |
| `Transfer.AggregateAligned` | pkg/tcpstack/tcp_internal.go:90-135 | on segments cut from one log, for any order, the merge loop never spins, ends on a segment boundary, and panics only near the window's edge |
| `Transfer.AcceptedWhole` | pkg/tcpstack/state_internal.go:44-55 | an accepted segment of the log that is not early starts at `expectedSeqNum` and is kept whole |
| `Endpoints.Endpoint.Distances` | pkg/tcpstack/sendbuf.go:31-42 | the unsigned differences are the true distances, wrap or no wrap |
| `Connection.VTCPConn.constructor` | pkg/tcpstack/conn.go:16-42 | the state the handshake leaves |
| `Connection.VTCPConn.WriteToSendBuf` | pkg/tcpstack/sendbuf.go:58-84 | takes as much as there is room for, at least one byte if any, exactly as the two-party model's write step, and with its tokens as the token model's |
| `Connection.VTCPConn.VWrite` | pkg/tcpstack/conn.go:73-84 | writing while anything else happens at this end (sending, probing, timers, reads, arrivals) is `Writing.WriteOver`; while the connection is open it returns short only with no room left |
| `Connection.VTCPConn.Happen` | pkg/tcpstack/conn.go:171-236 | one such event, as the two-party model's step |
| `Writing.WriteConsumes` | pkg/tcpstack/conn.go:73-84 | all data is consumed if room comes back as often as there are bytes, each time it does at least a byte goes, and while the connection is open it stops short only with the buffer full |
| `Writing.LongWrites` | pkg/tcpstack/conn.go:73-84 | for data of any length there are events under which all of it is consumed |
| `Writing.WriteOverAppends` | pkg/tcpstack/conn.go:73-84 | what is taken is a prefix of the data, appended to the stream |
| `Connection.VTCPConn.BytesNotSent` | pkg/tcpstack/sendbuf.go:87-113 | returns the next stream bytes, the least of what was asked, what is unsent and what the window allows |
| `Connection.VTCPConn.SendTurn` | pkg/tcpstack/conn.go:171-236 | the send step of the two-party model, and of the token model |
| `Connection.VTCPConn.ProbeTurn` | pkg/tcpstack/conn.go:197-216 | the zero-window probe step of the two-party model, and of the token model |
| `Connection.VTCPConn.AckInflight` | pkg/tcpstack/retransmission.go:28-58 | pops the front while it is fully acknowledged, as `Retransmission.AckInflight` |
| `Connection.VTCPConn.HandleRTO` | pkg/tcpstack/retransmission.go:61-109 | the retransmission step: front resent with current acknowledgement and window, or torn down after three attempts |
| `Connection.VTCPConn.AggregateEarlyArrivals` | pkg/tcpstack/tcp_internal.go:90-135 | the loop computes `Reassembly.AggregateEarlyArrivals`, panics and endless turning included |
| `Connection.VTCPConn.HandleSeqNum` | pkg/tcpstack/state_internal.go:14-61 | acceptance, queueing of early segments, trimming and merging as the two-party model's step |
| `Connection.VTCPConn.HandleAck` | pkg/tcpstack/state_internal.go:64-103 | the acknowledgement step; `freespaceC` gets a token, as in the token model, for which it always has room |
| `Connection.VTCPConn.HandleSegText` | pkg/tcpstack/state_internal.go:106-120 | stores what fits, advances `expectedSeqNum`, sets the window to the free space and acknowledges |
| `Connection.VTCPConn.StateFuncEstablished` | pkg/tcpstack/state.go:150-184 | one arriving segment, all branches, as the two-party model's arrival step; which segments get as far as the FIN; and the state it leaves, in which ring and `expectedSeqNum` agree if and only if the FIN was next and bare |
| `Connection.VTCPConn.VRead` | pkg/tcpstack/conn.go:48-71 | in every state, as long as the ring is a queue: refused while closing actively; with the end of the stream after the peer's FIN, leaving the window; otherwise moves the oldest bytes to the caller and widens the window by as many, or waits |
| `Connection.ReadsTell` | pkg/tcpstack/conn.go:48-62 | in every run without a tear-down: reading is refused exactly after this end has closed first, until the peer's FIN and the last acknowledgement are in; and reports the end of the stream exactly after the peer has, until all is acknowledged |
| `Retransmission.AckInflightExact` | pkg/tcpstack/retransmission.go:35-52 | `ackInflight` removes exactly the fully acknowledged segments |
| `Retransmission.Covered` | pkg/tcpstack/retransmission.go:28-58 | every unacknowledged byte is in a queued segment or was a probe |
| `Retransmission.QueueOrdered` | pkg/tcpstack/retransmission.go:21-26 | queued segments are in order and disjoint |
| `Retransmission.PartitionConcat` | pkg/tcpstack/conn.go:217-233 | segmentation loses, repeats and reorders nothing |
| `Reassembly.AggregateSound` | pkg/tcpstack/tcp_internal.go:90-135 | for any order of queued segments that agree with one stream, a merge that ends extends the data along the stream, within the window, and only drops from the queue |
| `Reassembly.AggregateFits` | pkg/tcpstack/tcp_internal.go:90-135 | if the window has room for all queued bytes the loop neither panics nor spins |
| `Reassembly.MergeKeeps` | pkg/tcpstack/tcp_internal.go:96-132 | a merge keeps every queued segment that ends beyond what it has come to, and stops only where the window is used up or the next head lies beyond |
| `Reassembly.LongHeadIff` | pkg/tcpstack/tcp_internal.go:112-131 | exactly when a head longer than the window left is cut, panics, or spins |
| `Reassembly.StaleCopyPanics` | pkg/tcpstack/tcp_internal.go:114-120 | a concrete queue that panics |
| `Reassembly.OverlapSpins` | pkg/tcpstack/tcp_internal.go:114-131 | a concrete queue that is never finished |
| `Segments.ValidityAgrees` | pkg/tcpstack/state_internal.go:157-180 | `isValidSeg` is the four-case test of section 3.4 of RFC 9293 wherever the right edge does not wrap, and rejects everything where it does |
| `Segments.ValidityIsStandardIff` | pkg/tcpstack/state_internal.go:157-180 | it equals the standard's test on all segments if and only if the edge stays below 2^32 |
| `Segments.TrimExactIff` | pkg/tcpstack/state_internal.go:44-55 | the slice kept is the segment's part in the window if and only if it starts at `expectedSeqNum` or is no longer than the window; and when slicing panics |
| `RecvBuffer.RecvBuf.Read` | pkg/tcpstack/recvbuf.go:41-88 | removes the front of the byte queue; end of file, waiting and empty requests included; takes all tokens if it returns bytes, as the token model's read |
| `RecvBuffer.RecvBuf.Write` | pkg/tcpstack/recvbuf.go:90-143 | stores the longest prefix that fits, or reports a full buffer; appends it to the queue if and only if its numbers do not cross 2^32 or the capacity divides it; leaves one token, as the token model's arrival |
| `RecvBuffer.RecvBuf.TakeToken` | pkg/tcpstack/recvbuf.go:54-58 | a parked reader is handed a token, as in the token model |
| `RecvBuffer.RecvBuf.Resume` | pkg/tcpstack/recvbuf.go:59-87 | and reads on without looking again, as in the token model |
| `RecvBuffer.RecvBuf.WindowSize` | pkg/tcpstack/recvbuf.go:146-163 | the number of unread bytes |
| `RecvBuffer.RecvBuf.FreeSpace` | pkg/tcpstack/recvbuf.go:166-182 | capacity less the unread bytes; with `WindowSize` it makes the capacity |
| `RecvBuffer.RecvBuf.Bytes` | pkg/tcpstack/recvbuf.go:200-235 | the queue's contents in order |
| `RecvBuffer.RecvBuf.AdvanceNxt` | pkg/tcpstack/recvbuf.go:249-254 | a FIN puts one byte too many in the queue, and the ring stays a queue if and only if there was room for two; then it is the token model's FIN |
| `RecvBuffer.RingStepsAcrossWrapIff` | pkg/tcpstack/recvbuf.go:59-60 | the ring index is continuous across 2^32 if and only if the capacity divides 2^32 |
| `SendBuffer.SendBuf.Append` | pkg/tcpstack/sendbuf.go:70-82 | the ring holds the last lap of the written stream, through both kinds of wrap |
| `SendBuffer.SendBuf.Slice` | pkg/tcpstack/sendbuf.go:102-112 | exactly the stream bytes `[nxt, nxt + n)`, through both kinds of wrap |
| `SendBuffer.HoldsLap` | pkg/tcpstack/sendbuf.go:25-27 | any part of the last capacity bytes of the stream sits in the ring where `index` looks for it |
| `Wakeups.ReaderAlwaysWoken` | pkg/tcpstack/recvbuf.go:54-58 | in every run a waiting reader with something to read has a token until the FIN comes, a woken reader finds data, tokens never exceed unread bytes, and no arrival blocks holding the lock |
| `Wakeups.FinParksForGoodIff` | pkg/tcpstack/recvbuf.go:249-254 | in every run the FIN leaves the reader parked for good if and only if it comes while the reader is parked with nothing to read |
| `Wakeups.WriterAndLoopAlwaysWoken` | pkg/tcpstack/sendbuf.go:63-68 | in every run a waiting writer with room and a waiting send loop with data have tokens, and `handleAck` never blocks holding `conn.mu` |
| `Wakeups.JamsExactlyThere` | pkg/tcpstack/sendbuf.go:81-83 | in every run, exactly which step blocks a write holding `conn.mu`: a write that finds room when as many writes as the channel has places have left tokens since it was last emptied, besides those taken |
| `Wakeups.WriterNeverJams` | pkg/tcpstack/conn.go:175-182 | no write does in a run whose turns send only what was written when they emptied `hasUnsentC` |
| `Wakeups.WriterCanJam` | pkg/tcpstack/sendbuf.go:81-83 | for every capacity from 2 on, a run after which a write blocks holding `conn.mu` and no step is left |
| `Tokens.WriteShows` | pkg/tcpstack/sendbuf.go:58-84 | a write is the token model's, and blocks exactly when `hasUnsentC` is full |
| `Tokens.AckShows` | pkg/tcpstack/state_internal.go:76-83 | a new acknowledgement is the token model's, with room for its token |
| `Tokens.TurnShows` | pkg/tcpstack/conn.go:171-236 | a turn of the send loop is the token model's: it empties `hasUnsentC` and sends |
| `Tokens.ProbeShows` | pkg/tcpstack/conn.go:202-216 | and so is a turn of the probe timer |
| `Lifecycle.TransitionsRise` | pkg/tcpstack/state.go:150-358 | every change of state is one the standard has (section 3.3.2 of RFC 9293) or the tear-down, and strictly raises the rank |
| `Lifecycle.ChangesBounded` | pkg/tcpstack/state.go:150-429 | no run, tear-downs included, changes state more than four times or returns to a state |
| `Lifecycle.StateTells` | pkg/tcpstack/state.go:55-429 | in every run the state is determined by what has happened: whether this end has closed, and first; whether the peer's FIN has been taken; whether all was acknowledged; whether the time is over or the connection torn down. So exactly in which states the peer's FIN has been taken, and in which `VWrite` is refused |
| `Lifecycle.OneFin` | pkg/tcpstack/state.go:385-424 | in every run at most one FIN is originated, none before closing, one after it but for a tear-down; `sndNxt` is one beyond it and what was sent since |
| `Lifecycle.FinAtLbw` | pkg/tcpstack/state.go:385-404 | the FIN's sequence number is `lbw`: all that was written precedes it |
| `Lifecycle.EnteredAcknowledged` | pkg/tcpstack/state.go:201-209 | FIN_WAIT_2, TIME_WAIT from FIN_WAIT_1 or CLOSING, and CLOSED from LAST_ACK are entered with everything sent, the FIN included, acknowledged; exactly when that is `lbw + 1` |
| `Lifecycle.FinWithRefusedText` | pkg/tcpstack/state.go:187-222 | a FIN whose text finds the buffer full is passed over in ESTABLISHED and FIN_WAIT_2, but not in FIN_WAIT_1 |
| `Lifecycle.EndsAcknowledged` | pkg/tcpstack/state.go:186-334 | in every run the FIN is acknowledged in FIN_WAIT_2 and TIME_WAIT, and in CLOSED unless torn down; if nothing was sent after it, in those and no others |
| `Lifecycle.WriteAfterFin` | pkg/tcpstack/conn.go:76-80 | of `n` bytes written after the FIN `n - 1` count as unsent |
| `Lifecycle.SendsStartBeyondFin` | pkg/tcpstack/conn.go:217-233 | in every run nothing numbered like the FIN is sent after it |
| `Lifecycle.WriteAfterFinLost` | pkg/tcpstack/conn.go:76-80 | for every `n`, a run that closes with `n` bytes accepted after the FIN and none sent |
| `Lifecycle.UnsentAfterFin` | pkg/tcpstack/sendbuf.go:40-42 | when the unsent count after a FIN is what was written beyond `sndNxt`, and what it is if nothing was |
| `Lifecycle.AckAgrees` | pkg/tcpstack/state_internal.go:64-103 | the state machine's acknowledgement step is the data phase's |
| `Lifecycle.ArrivalAgrees` | pkg/tcpstack/state.go:150-184 | so is the whole arrival in ESTABLISHED: it gets as far as the FIN in the one exactly if it does in the other |
| `Lifecycle.TearDownAgrees` | pkg/tcpstack/retransmission.go:76-88 | and so is the tear-down, which leaves nothing unsent and nothing unacknowledged |
| `Lifecycle.ConnControl.StateMachine` | pkg/tcpstack/state.go:55-358 | an arrival makes at most one transition, a standard one, upwards, to the state that all that has happened determines; FIN_WAIT_2 and CLOSED are entered with everything acknowledged; the invariant behind the theorems above is kept |
| `Lifecycle.ConnControl.ActiveClose` | pkg/tcpstack/state.go:362-429 | originates the only FIN, numbered `lbw`, from ESTABLISHED or CLOSE_WAIT; an error that changes nothing once closing has begun; keeps the invariant |
| `RipNetwork.NeverTooShort` | pkg/vrouter/vrouter.go:128-160 | in every run with loss, duplication, reordering and expiry, a route of finite cost c via N means N is within c - 1 hops; no cost is below min(distance, 16) |
| `RipNetwork.NeverClaimsTooShort` | pkg/vrouter/utils.go:27-41 | nor is any cost on the wire, and for a prefix no owner can reach it is 16 |
| `RipNetwork.OnlyReachableLearned` | pkg/vrouter/vrouter.go:151-155 | in every run a router holds a learned route, of whatever cost, only to a prefix of an owner within 15 hops: withdrawn and poisoned routes install nothing |
| `RipNetwork.FixedRoutesStay` | pkg/vrouter/vrouter.go:133-137 | in every run local and static routes are the configured ones |
| `RipRouter.Hear` | pkg/vrouter/vrouter.go:78-80 | an arriving update changes the router's table as the network model says, and the update it triggers is one the model allows; none if it alters no route |
| `RipRouter.Expire` | pkg/vrouter/vrouter.go:110-126 | the same of expiry |
| `RipRouter.Speak` | pkg/vrouter/vrouter.go:105-107 | the periodic update is allowed, is full, and reaches every neighbour whenever there is anything to tell |
| `RipConvergence.Converges` | pkg/vrouter/vrouter.go:128-160 | after k rounds, for any order of messages and from any true tables, every router at distance d <= min(k, 15) has cost exactly d and a next hop at distance d - 1 |
| `RipConvergence.ShortestPathsAfter15` | pkg/vrouter/vrouter.go:138-155 | after 15 rounds finite routes exist exactly within 15 hops, and for no prefix that cannot be reached; their cost is the distance, and following next hops arrives in so many hops |
| `RipConvergence.LeadsHome` | pkg/ipstack/ip_internal.go:80-88 | in converged tables following next hops reaches an owner of the prefix in d hops |
| `RipConvergence.NearerTells` | pkg/vrouter/utils.go:34-38 | poisoned reverse never hides a shortest path: the nearer router's update carries its true cost |
| `RipConvergence.ReachedReady` | pkg/vrouter/vrouter.go:128-160 | convergence starts from any state reached by any run without static routes |
| `RipSettled.QuietAfter15` | pkg/vrouter/vrouter.go:138-160 | after 15 rounds no update that a router hears of its neighbours, in whatever number and order, alters a route or triggers an update |
| `RipSettled.RoutesStay` | pkg/vrouter/vrouter.go:138-150 | so cost and next hop of every route stay those of the 15th round |
| `RipCounting.LeastCostRises` | pkg/vrouter/vrouter.go:110-155 | once no router owns a prefix, each round with expiry raises the least finite cost by at least one, whatever is lost |
| `RipCounting.CountingEnds` | pkg/vrouter/vrouter.go:110-126 | after 16 rounds no route of finite cost is left anywhere |
| `RipCounting.OutlivesRoundIff` | pkg/vrouter/vrouter.go:116-121 | exactly which learned routes outlive a round with expiry: those refreshed by their next hop, at whatever cost, or by something shorter |
| `RipCounting.OutlivesInboxIff` | pkg/vrouter/vrouter.go:138-150 | the same in terms of the updates heard |
| `RipTable.VRouter.UpdateRoutingTable` | pkg/vrouter/vrouter.go:128-160 | learns the entries in order; announced are exactly the routes that an entry altered at its turn, in order, with what the table holds in the end; nothing is sent if none was |
| `RipTable.VRouter.RemoveExpiredEntries` | pkg/vrouter/vrouter.go:110-126 | removes exactly the expired learned routes, in any map order, and announces them at cost 16 |
| `RipTable.VRouter.GetAllEntries` | pkg/vrouter/vrouter.go:177-187 | every local and learned route and no static one |
| `RipTable.VRouter.SendRipUpdate` | pkg/vrouter/vrouter.go:163-174 | one message per neighbour with split horizon and poisoned reverse, none when there is nothing to say |
| `RipTable.LearnKeepsFixed` | pkg/vrouter/vrouter.go:133-137 | learning leaves local and static routes alone |
| `RipWire.TableOverTheWire` | pkg/vrouter/utils.go:14-54 | convert, marshal, unmarshal, convert back, whatever bytes follow: the same prefixes in order, cost 16 if the next hop was the recipient, else min(cost + 1, 16) |
| `RipWire.TableOverIp` | pkg/vrouter/utils.go:14-54 | through an IP packet: exactly when the receiver panics, what it gets otherwise, and that it gets all if and only if there are at most 114 entries |
| `RipWire.LineOverTheWire` | pkg/vrouter/utils.go:27-54 | one entry comes back as it should if and only if its prefix length is not 0 |
| `RipWire.LongTableCut` | pkg/vrouter/utils.go:15-19 | in the codec alone a list comes back whole if and only if it has at most 65535 entries |
| `RipWire.MessageRoundTrip` | pkg/proto/rip.go:32-58 | exactly what comes back of a message, whatever bytes follow, and when unmarshalling panics |
| `RipWire.MessageOverIp` | pkg/proto/ippacket.go:28-56 | cut to a packet and read from its zero-filled buffer: a panic if and only if it counts more than 114 entries, else so many, zeros for those missing |
| `RipWire.PanicsIff` | pkg/proto/rip.go:44-58 | any packet's payload panics the receiver if and only if it counts more than 114 entries |
| `RipWire.Layout` | pkg/proto/rip.go:32-75 | where everything is on the wire: command and count, then cost, address and mask of each entry, each number in network byte order |
| `RipWire.Marshal` | pkg/proto/rip.go:32-42 | the wire format |
| `RipWire.Unmarshal` | pkg/proto/rip.go:44-58 | parses exactly the wire format, with the panic on short input |
| `RipWire.MaskRoundTripIff` | pkg/vrouter/utils.go:67-73 | a prefix length survives the mask if and only if it is not 0 |
| `Prefixes.MaskLeavesBlock` | pkg/vrouter/utils.go:67-69 | mask and block size make 2^32: 255.255.255.0 for 24 |
| `Prefixes.MaskBits` | pkg/vrouter/utils.go:67-69 | the mask's bits are as many ones as the length says, then zeros |
| `Prefixes.MaskReads` | pkg/vrouter/utils.go:71-73 | the length read from any mask: the largest block no larger than what the mask leaves |
| `RipWire.CostWraps` | pkg/vrouter/utils.go:50 | the cost rule holds for every received cost but 2^32 - 1 |
| `RipWire.RipRecvHandler` | pkg/vrouter/vrouter.go:56-86 | by the bytes of a payload, which panic the receiver, update the table, are answered or dropped; what the table becomes; and that exactly the routes altered are told, to every neighbour |
| `RipWire.SendRipRequest` | pkg/vrouter/vrouter.go:89-102 | the bytes 0, 1, 0, 0 to every neighbour |
| `RipWire.RoutingEntriesToRipEntries` | pkg/vrouter/utils.go:27-41 | entry by entry conversion with poisoned reverse |
| `RipWire.RipEntriesToRoutingEntries` | pkg/vrouter/utils.go:43-54 | entry by entry conversion with the cost step |
| `Lookup.FindLongestMatchedPrefix` | pkg/ipstack/ip_internal.go:92-102 | for every map order, a longest containing prefix, or none if none contains the address |
| `Prefixes.ContainsIffAgree` | pkg/ipstack/ip_internal.go:96-97 | a prefix contains the addresses that agree with its own in as many leading bits as its length says |
| `Prefixes.ContainsIffMaskAgrees` | pkg/ipstack/ip_internal.go:96-97 | that is, in the bits its mask sets; a masked prefix has no others |
| `Prefixes.ContainsIffInBlock` | pkg/ipstack/ip_internal.go:96-97 | a masked prefix contains the block of 2^(32 - length) addresses from its own on |
| `Prefixes.ContainsExtremes` | pkg/ipstack/ip_internal.go:96-97 | length 32 contains one address, length 0 all |
| `Lookup.LongestUnique` | pkg/ipstack/ip_internal.go:92-102 | with masked keys it is unique |
| `Lookup.UnmaskedAmbiguous` | pkg/ipstack/ip_internal.go:92-102 | with unmasked keys it need not be |
| `Lookup.FindNextHopEntry` | pkg/ipstack/ip_internal.go:69-90 | on any table, a route found is local and a longest match of the last gateway; with masked keys the search's own result, and endless exactly when the search is |
| `Lookup.LongestMeans` | pkg/ipstack/ip_internal.go:92-102 | with masked keys the search's longest match is the longest containing prefix, none if and only if none contains the address |
| `Lookup.FoundIsLocal` | pkg/ipstack/ip_internal.go:80-89 | the route found is local and matches the last gateway followed |
| `Lookup.RankedEnds` | pkg/ipstack/ip_internal.go:80-88 | the search ends when a rank falls along next hops |
| `Lookup.EndsIffWithinTable` | pkg/ipstack/ip_internal.go:80-88 | the search ends if and only if it ends within as many gateways as the table has routes |
| `Lookup.EndlessIffCycle` | pkg/ipstack/ip_internal.go:80-88 | it never ends if and only if within so many steps it comes back to a route it followed |
| `Lookup.OwnGatewayLoops` | pkg/ipstack/ip_internal.go:80-88 | a route whose next hop it matches itself makes the search endless |

## Left out

- The handshake, listening, and closing before ESTABLISHED: the post-state of the handshake is the initial state.
- Stream contents after a FIN, and the FIN's retransmission; what a FIN does to the receive ring and to the acknowledgement is modelled.
- Real time, round-trip estimates and timer durations: timers fire at any moment, and expiry takes any moment as its limit.
- Fairness: that what can be delivered is delivered, rather than can be, is not stated.
- Progress.NeverStuck: the order in which early arrivals come up is chosen along with the rest of the continuation; and what the receiving end has sent must end before the window that the sender can open by reading, so that an acknowledgement gets back.
- Copies.MovesOnIff: not stated for a probe that the send loop has yet to leave although the window has opened; and if something before the byte is unacknowledged at the sender, an acknowledgement must be able to get back to it.
- Crash.ArrivalCrashIff: speaks of some order of the queue; which orders the code's heap takes is not modelled.
- Connection.VTCPConn.VRead: asks that the ring be a queue, which a FIN onto 65534 or more unread bytes, or one ahead of its turn, need not leave it (`RecvBuffer.RecvBuf.AdvanceNxt`).
- Connection.VTCPConn.VWrite: returns when the connection is torn down, where the code's writer waits for ever: a tear-down leaves no token.
- The heap inside the early-arrival queue: it is a bag with an arbitrary surfacing order.
- Aliasing of routing entries between the table and the list of updated ones is modelled by looking the entries up in the table when messages are made.
- Headers, checksums, sockets, the link layer, the REPL, file transfer, `.lnx` parsing, printing and logging.
- Messages cut to a packet in the network model, which hands over whole ones; `RipWire.TableOverIp` says which are.
- `IsEmpty` of the receive buffer, whose tail expression underflows; nothing else in the stack uses it.
- Delivery.ArrivalsWhole: gives only a necessary condition for the panic; `Crash.ArrivalCrashIff` gives the exact one.
- Lookup.FindNextHopEntry: on tables with unmasked keys, where the match depends on the map order, `Endless` only means that more gateways were followed than there are routes.
- Connection.VTCPConn.HandleSegText: asks that the receive ring be a whole capacity away from 2^32, as it is in every run that does not wrap (`Delivery.ReceiveRingStaysBelow`); beyond, the ring is not a queue.
