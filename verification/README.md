# BTunnel in Dafny

BTunnel carries TCP and UDP traffic and HTTP requests over WebRTC data channels between a host and its clients,
and lets them find each other through a signaling server. This project models the parts of it where state, arithmetic
and interleaving meet, and proves what holds over every run of them:

- the **data plane**: the 16-byte frame format, chunking and reassembly in Go (`Framing`, `Reassembly`) and, written
  independently, in the browser (`Browser`); what reassembly delivers under reordering, loss and reuse of an ID
  (`Delivery`, `Reorder`, `Loss`);
- the **TCP proxy** on top of it (`Link`, `Pipe`, `TcpProxy`, `Tunnel`): two processes and two transports as one system,
  in which any number of connections take steps in any order; what any run does to any connection, told from the run's
  actions and the messages they take (`TunnelRuns`), and that whatever has been read can still be written (`TunnelProgress`);
- the **signaling server** (`Signaling`, `SignalingHandler`, `SignalingRuns`, `SignalingSessions`, `SignalingReplies`,
  `SignalingLimits`), its session stores (`SessionStore`, `StoreRuns`) and its rate limiter (`RateLimiter`);
- the **reconnection loops** (`Backoff`, `Reconnect`, `SignalingClient`), the **request tables** of the service worker
  and of the page and the two together (`ServiceWorker`, `PageRequests`, `Bridge`), and the **UDP** session table
  (`UdpProxy`).

Code that changes state in place is a class whose methods are proved against functions on values
(`State()` before and after); the theorems over runs are lemmas about those functions.

Durations and times are integers of nanoseconds, 32-bit counters and fields are written out modulo 2^32, and clocks,
generators, sockets and the parsed form of incoming messages are parameters of the step that uses them.

## What is assumed

- JSON (with its base64) is a codec whose parsing undoes its printing for the messages that the proxies post: connect,
  data, disconnect and error, with 32-bit IDs, no more than a read buffer of data and valid text for an address, and
  whose output for them is never empty (`Pipe.Lawful`; `Pipe.LawfulCodecExists` gives one).
- `Tunnel`: frames of one ID arrive in the order sent, those of different IDs in any order. The data channels are created
  unordered (internal/webrtc/peer.go:189), so this is an assumption about them. `Reorder.AnyArrival` and
  `Reorder.TwoMessages` state exactly when messages of several chunks on one ID survive without it,
  `Delivery.MixedMessages` is an example, and `Delivery.ReorderAndLoss` says what remains when an ID carries one
  message. Frames may be lost or refused, in the middle of a message too, but once one of an ID is, no later one of
  that ID gets through in that direction (`Link.Break`); `Loss.NextMessageIsClean` shows what becomes of a message that
  does. Fewer than 2^32 connections are accepted. Host queues may overflow.
- `Signaling`: session IDs are never given out twice, tokens and client IDs are not in use when they are generated, and no
  connection is granted a second role (`Signaling.Disciplined`). `SignalingRuns.DisciplineIsExact` shows that the last is
  exactly what is needed, `SessionStore.CreateKeepsIndex` the same for ID and token; the shipped generator returns one
  constant ID (`SessionStore.ConstantIDsMixSessions`). One handled message is one step.
- `PageRequests`: a request can be sent, and its ID is not one that a timer still looks for (`PageRequests.Careful`).
  `PageRequests.TakeKeepsOK` shows that this is exactly what is needed, and `Bridge.RequestsAreCareful` that the IDs the
  service worker posts in one lifetime meet it.
- `Bridge`: the page's other requests have IDs unlike the worker's and keep to the same condition (`Bridge.Clear`).

## Where the code differs from what is said of it

- docs/architecture.md:61 and docs/architecture.md:130 say that a token can be used once. `handleJoin` neither looks at
  nor sets `Used`; `SignalingRuns.JoinSucceedsExactly` states what does decide a join.
- docs/architecture.md:90 says that the Go side distributes frames round-robin; it takes the first open channel
  (internal/webrtc/peer.go:253-259). Only the browser goes round, and it drops a frame whose turn falls on a
  channel that is not open (`Browser.SentMessageArrives`).
- The rate limiter is meant to be per IP address; its key is the remote address with its port
  (signaling-server/handlers/websocket.go:162), so a host is held to ten sessions exactly if all its connections come
  under one key (`SignalingLimits.TenForOneKeyOnly`).
- A host's candidate goes to the session it names, whichever session the host belongs to
  (signaling-server/handlers/websocket.go:395-420); `SignalingRuns.QueueIsOwnHosts` states when a queue is only its
  own host's.
- The replay check is meant to refuse timestamps more than 30 seconds off (signaling-server/handlers/websocket.go:464-471).
  The age of one 2^63 ns or more in the future saturates at the least duration, which stays negative when its sign is
  changed, so that it passes (`Signaling.TimestampPasses`).
- When the local end of a TCP connection is read, the proxy forgets the connection without closing its socket
  (internal/proxy/tcp.go:315-327): what is still read from the target is discarded, and the socket stays open
  (`Tunnel.OverForever`).
- A request whose sending throws is rejected but stays in the page's table without a timer
  (`PageRequests.StaleStays`).
- `ReconnectManager` caps a delay only when it grows, so a first delay above the maximum is waited out in full, where
  `CalculateDelay` would cap it (`Backoff.LoopIsClosedForm`).

## Model

| member | source | states |
|---|---|---|
| Framing.EncodeFrame | internal/webrtc/datachannel.go:203-211 | The buffer filled in place is the four header words, big-endian, and the payload |
| Framing.WireFormat | internal/webrtc/datachannel.go:203-211 | The first sixteen bytes of an encoded frame are, most significant byte first, its request ID, chunk index, number of chunks and payload length modulo 2^32, and the payload follows |
| Framing.DecodeUndoesEncode | internal/webrtc/datachannel.go:203-231 | Decoding an encoded frame with anything after it gives the frame back, exactly if 16 plus the payload length does not wrap in 32 bits |
| Framing.EncodeUndoesDecode | internal/webrtc/datachannel.go:214-231 | A buffer that decodes begins with the encoding of the frame it decodes to |
| Framing.DecodePanicsExactlyOnWrap | internal/webrtc/datachannel.go:219-229 | Decoding slices out of bounds exactly for the buffers whose length field makes the 32-bit addition wrap |
| Framing.ChunksCoverMessage | internal/webrtc/datachannel.go:95-111 | The chunks of a message, put together, are the message |
| Framing.ChunkBounds | internal/webrtc/datachannel.go:96-104 | Every chunk but the last has exactly 16368 bytes, the last at least one |
| Framing.FramesCoverMessage | internal/webrtc/datachannel.go:95-111 | The payloads that SendMessage puts on the wire make up the message exactly if the number of chunks fits into 32 bits |
| Framing.FrameSizes | internal/webrtc/datachannel.go:95-113 | No encoded frame of a message is longer than 16384 bytes |
| Reassembly.DataChannelManager.SendMessage | internal/webrtc/datachannel.go:95-128 | What goes out is the encoded frames of the message in order, up to the first that the peer refuses, and the result says whether one was |
| Reassembly.DataChannelManager.HandleFrame | internal/webrtc/datachannel.go:140-192 | One decoded frame turns the reassembly map and the output into what Accept makes of them: heartbeats ignored, single chunks passed on, others stored until the count fits |
| Reassembly.DataChannelManager.ProcessIncoming | internal/webrtc/datachannel.go:132-194 | The whole loop over raw buffers, including malformed ones and the one that panics, does what Receive says |
| Reassembly.ReceivedExactly | internal/webrtc/datachannel.go:132-231 | Whatever raw buffers arrive: those too short or truncated are skipped and all others received as frames, up to the first that makes the receiver panic, where it ends |
| Reassembly.StaysCrashed | internal/webrtc/datachannel.go:219-231 | Once a buffer has made the receiver panic, nothing later is emitted |
| Reassembly.ReceiveIsRun | internal/webrtc/datachannel.go:132-231 | Receiving the encodings of frames is receiving the frames, so what follows about frames holds of the loop over raw buffers |
| Delivery.Isolation | internal/webrtc/datachannel.go:154-192 | What is emitted and kept for an ID depends on the frames of that ID alone, whatever else is interleaved |
| Delivery.AcceptChunk | internal/webrtc/datachannel.go:154-192 | A chunk of a message under way completes it exactly if it was the last one missing; delivering a stored chunk again changes nothing |
| Delivery.AnyOrder | internal/webrtc/datachannel.go:132-194 | The frames of one message in any order, repeated or not while incomplete, leave exactly the received part in the map, or the message emitted and the map empty |
| Delivery.ReorderAndLoss | internal/webrtc/datachannel.go:132-194 | Messages on distinct IDs, frames arriving at most once, in any order, any subset lost (internal/webrtc/peer.go:222-226): a message is emitted once if all its frames have arrived and never otherwise, and every buffer left is a proper part of one message |
| Delivery.MessageByMessage | internal/webrtc/datachannel.go:132-194 | Messages that share an ID come out in order and byte-exact if each arrives whole before the next, its own frames in any order |
| Delivery.FifoPerID | internal/webrtc/datachannel.go:132-194 | At every moment of a delivery in send order, the messages emitted for an ID are exactly the first ones sent on it, and the map holds exactly what has arrived of the next, with single- and multi-chunk messages mixed |
| Delivery.FifoComplete | internal/webrtc/datachannel.go:132-194 | Once all frames of an ID have arrived in order, all messages sent on it have been emitted in order, among any other traffic, and nothing is left over |
| Delivery.MixedMessages | internal/webrtc/datachannel.go:154-192 | An example of what reordering does, whose exact condition is in `Reorder`: for any two messages of two chunks each on one ID, swapping the middle two of their four frames brings out one message, the head of the second with the tail of the first, and nothing else |
| Reorder.OnePerPiece | internal/webrtc/datachannel.go:154-192 | Frames on one ID that announce n > 1 chunks, in any order, with any indices and payloads: at most one message comes out for every n of them, and one for every n exactly if every n in a row have n different indices, each message then being its piece put together |
| Reorder.ExactlyInBlocks | internal/webrtc/datachannel.go:132-194 | Of as many frames as k messages of n > 1 chunks have, whatever they are, exactly those k messages come out in order if and only if the first n frames are the first message's, the next n the second's, and so on |
| Reorder.AnyArrival | internal/webrtc/datachannel.go:132-194 | For every order in which all frames of any number of messages of n > 1 chunks on one ID can arrive, the messages come out as they were sent exactly if their frames arrive message by message |
| Reorder.TwoMessages | internal/webrtc/datachannel.go:132-194 | For two messages of n > 1 chunks that differ in every chunk, and every order of all their frames, both come out in order exactly if the first n frames are the first one's |
| Loss.WhatComesOut | internal/webrtc/datachannel.go:154-192 | Frames in order and some of a message lost: exactly what comes out of all the frames of the next message of several chunks on its ID, one message put together from both or none, and exactly what is left behind |
| Loss.NextMessageIsClean | internal/webrtc/datachannel.go:154-192 | That message comes out alone and with nothing left over exactly if it has as many chunks as the lost one and the lost one's last chunk was among those lost |
| Browser.BTunnelClient.SendFramed | web/webrtc-client.js:544-572 | The loop sends every frame on the channel whose turn it is and drops those whose channel is not open; without channels it throws on the first frame, when the turn has already moved on |
| Browser.EveryChannelInTurn | web/webrtc-client.js:563-566 | Of any n frames in a row each of n channels has one, wherever the counter stands |
| Browser.BTunnelClient.HandleDataChannelMessage | web/webrtc-client.js:411-466 | One binary message changes the reassembly buffer, emits and throws as JsHandle says |
| Browser.SendersAgree | web/webrtc-client.js:544-561 | The browser produces the frames of the Go sender under the same ID exactly if the number of chunks fits into 32 bits |
| Browser.FramesHandledAlike | web/webrtc-client.js:427-466 | On one frame the browser and the Go receiver do the same to the same state, exactly unless the buffer is full with an index missing |
| Browser.BuffersHandledAlike | web/webrtc-client.js:411-466 | On one raw buffer likewise; where the length wraps the browser throws instead of going down |
| Browser.ReceiversAgree | web/webrtc-client.js:411-466 | Over any sequence of well-formed frames both receivers hold the same buffers and emit the same messages |
| Browser.SentMessageArrives | web/webrtc-client.js:544-572 | A browser message whose dispatched frames arrive in any order reaches the Go side exactly if it is not empty, every channel whose turn came was open and its counter does not come to 0 in 32 bits; otherwise nothing of it comes out |
| Link.DeliverKeepsInv | internal/webrtc/datachannel.go:132-194 | Taking the next frame of any ID off the wire keeps, for every ID, reassembly in step with what was sent |
| Link.TakenWithinSent | internal/webrtc/datachannel.go:132-194 | What a consumer has taken of an ID's messages is a prefix of those sent on it, whatever has been cut off |
| Link.QuietMeansAllTaken | internal/webrtc/datachannel.go:132-194 | Once nothing of an ID that was not cut is on the wire or waiting, every message sent on it has been taken |
| Pipe.TakeNext | internal/proxy/tcp.go:72-81 | The next message taken parses to the very message posted next on its ID |
| TcpProxy.TCPProxy.AcceptOne | internal/proxy/tcp.go:228-242 | An accepted connection gets the next 32-bit ID, is registered, and its connect message is posted |
| TcpProxy.TCPProxy.ForwardFromLocal | internal/proxy/tcp.go:301-330 | The read loop posts a data message for every chunk read and one disconnect at the end, when it drops the connection; nothing after that |
| TcpProxy.TCPProxy.HandleClientMessages | internal/proxy/tcp.go:250-298 | The client's message loop writes data to the connection of its ID, and drops and closes it on disconnect, error or a failed write if it is still active |
| TcpProxy.TCPProxy.StartHost | internal/proxy/tcp.go:54-99 | The dispatch loop opens a queue of 64 for every connect and puts each message into the queue of its ID or drops it if full |
| TcpProxy.TCPProxy.HandleConnectionLifecycle | internal/proxy/tcp.go:102-155 | The goroutine of one ID consumes its queue in order, dials, reports a failed dial, writes data, and ends on disconnect, a failed write or a channel that is closed and drained; otherwise it waits on an empty open one |
| TcpProxy.TCPProxy.ForwardFromTarget | internal/proxy/tcp.go:158-193 | The target's read loop posts what it reads, and ends with one disconnect after a failed read, or without one after a send that is refused |
| TcpProxy.LocalReadsOver | internal/proxy/tcp.go:301-330 | After the read that fails nothing more is read or posted |
| Tunnel.StepKeepsInv | internal/proxy/tcp.go:54-330 | Every step of either process, of either transport and of every goroutine keeps the invariant of the whole system |
| TunnelRuns.ReadExactly | internal/proxy/tcp.go:228-330 | After any run, told from its actions alone: a connection exists exactly if it was accepted, its record holds the chunks that the reads returned from then up to and including the first that failed, and its loop has ended exactly if one has failed |
| TunnelRuns.ClosedExactly | internal/proxy/tcp.go:250-298 | A connection's socket has been closed exactly if the client took a disconnect, an error, or data it could not write in full on its ID before any local read failed; it is active exactly if neither has happened, and has been written, as far as each write went, the data taken until then |
| TunnelRuns.QueuedExactly | internal/proxy/tcp.go:72-96 | In every reachable state the next message the dispatch loop takes becomes the last of its ID's queue, a connect of a new one with a new goroutine, unless there is no queue or it holds 64; nothing else changes |
| TunnelRuns.LostExactly | internal/proxy/tcp.go:89-96 | After any run an ID has lost a message exactly if one of its messages was taken when its queue held 64 |
| TunnelRuns.LivedExactly | internal/proxy/tcp.go:102-193 | After any run, for every goroutine: whether and how it dialled, that it has ended exactly if the dial failed, it received a disconnect, a write fell short or its channel was closed and drained, which messages it received, what it wrote, that its channel was closed exactly if the proxy stopped while it ran, every chunk read from its target, and whether that ended by a failed read or a refused send |
| TunnelRuns.CutExactly | internal/proxy/tcp.go:158-193 | After any run an ID is cut off in a direction exactly if frames of it were lost there, or, on the way down, a send of its running target loop was refused |
| TunnelRuns.StreamIntegrity | internal/proxy/tcp.go:54-330 | In every reachable state, for every connection, also if either direction is cut off at any frame: the bytes written to its target are a prefix of what the reads of its own local socket returned if no message for it found its queue full, and otherwise an ordered subsequence of the chunks; the bytes written to the local socket are a prefix of what the reads of its own target returned; no other goroutine serves its ID |
| Tunnel.UnservedGetsNothing | internal/proxy/tcp.go:250-285 | A connection that no goroutine serves has been written nothing |
| TunnelRuns.NothingIsHeldBack | internal/proxy/tcp.go:54-330 | Once the frames of a connection that was not cut have arrived and its messages have been handled, everything the local reads returned has been written to the target of a goroutine that has dialled and not ended, and, unless a local read failed or a message shut the connection, everything the target's reads returned to the local socket |
| TunnelProgress.UpCanArrive | internal/proxy/tcp.go:54-155 | From every reachable state, unless the proxy has been stopped, a queue has overflowed, the ID was cut or its goroutine has ended, there is a way to go on without any further read after which everything read so far from an accepted connection has been written to its target |
| TunnelProgress.DownCanArrive | internal/proxy/tcp.go:158-298 | Likewise everything read so far from a target can still be written to its local connection, unless the ID was cut, a local read failed or a message shut the connection |
| Tunnel.ActiveExactly | internal/proxy/tcp.go:228-330 | A local connection is active exactly until its local end has been read or the proxy has closed it |
| Tunnel.OverForever | internal/proxy/tcp.go:273-330 | From then on nothing read from its target is ever written to it, and if its local end came first its socket is never closed |
| Tunnel.HostQueues | internal/proxy/tcp.go:83-155 | Every queue starts with the connect of its ID, holds what the client sent on it in order, and nothing is consumed after a disconnect |
| Tunnel.NoSendAfterClose | internal/proxy/tcp.go:65-97 | No step puts a message into a queue that has been closed |
| RateLimiter.RateLimitEntry.CheckRateLimit | signaling-server/handlers/websocket.go:474-502 | One call on an address's list, worked on in place, does what Check says to the list and answers as it says |
| RateLimiter.RateLimitEntry.Compact | signaling-server/handlers/websocket.go:485-492 | The compaction inside the slice's own array keeps exactly the times within the window, in order |
| RateLimiter.ListIsWindow | signaling-server/handlers/websocket.go:474-502 | Forgetting expired times loses nothing: the list is always the accepted times of the window that ends now |
| RateLimiter.AcceptedExactly | signaling-server/handlers/websocket.go:474-502 | A call is accepted exactly if fewer than ten of all calls ever accepted lie in the 60 seconds before it |
| RateLimiter.AtMostTenPerWindow | signaling-server/handlers/websocket.go:474-502 | However calls fall, no half-open window of 60 seconds, wherever it starts, holds more than ten accepted ones |
| SignalingLimits.TenSessionsPerMinute | signaling-server/handlers/websocket.go:226-231 | Over any run of the server, however many connections it uses, one key of the limiter is given at most ten sessions in 60 seconds |
| SignalingLimits.TenPerKey | signaling-server/handlers/websocket.go:162-231 | The keys that a host's connections come under are given at most ten for each of them |
| SignalingLimits.ElevenUnderTwo | signaling-server/handlers/websocket.go:162-231 | For any two keys, such as two ports of one host, there is a run that gives them eleven in one window |
| SignalingLimits.TenForOneKeyOnly | signaling-server/handlers/websocket.go:162-231 | So over all runs ten are kept to exactly for no more than one key |
| SessionStore.MemoryStore.CreateSession | signaling-server/store/memory.go:61-87 | Both maps get the new session, which can be looked up until its time is over |
| SessionStore.MemoryStore.GetSessionByToken | signaling-server/store/memory.go:90-110 | Not found or expired, or the session, as the two maps have it |
| SessionStore.MemoryStore.DeleteSession | signaling-server/store/memory.go:143-157 | Session and index entry go together; an unknown ID changes nothing and is reported |
| SessionStore.MemoryStore.CleanupExpired | signaling-server/store/memory.go:193-211 | The loop that deletes while it goes over the map, in any order, removes exactly the expired sessions with their index entries and counts them |
| SessionStore.LookupIsScan | signaling-server/store/memory.go:90-110 | While the index is the inverse of the sessions' tokens, looking up a token gives what a search through all sessions gives |
| SessionStore.CreateKeepsIndex | signaling-server/store/memory.go:61-87 | Creating keeps the index the inverse of the tokens exactly if ID and token are new, or both those of one session |
| SessionStore.ConstantIDsMixSessions | signaling-server/store/memory.go:213-228 | With the constant generator the first token leads to the second session |
| SessionStore.UpdateKeepsIndex | signaling-server/store/memory.go:130-140 | Updating keeps the index exactly if it leaves the token of a stored session alone |
| SessionStore.CleanupIsExact | signaling-server/store/memory.go:193-211 | Cleaning up leaves every lookup of an unexpired session as it was, makes expired ones unknown, and does nothing the second time |
| StoreRuns.RunLookupIsScan | signaling-server/store/memory.go:61-211 | After any run of creating, updating, deleting, marking and cleaning up, with fresh IDs and tokens and updates that keep the token, the lookup by token is a search through all sessions |
| StoreRuns.HeldExactly | signaling-server/store/memory.go:61-211 | After any such run the store holds exactly the sessions created and since then neither deleted nor cleaned up, as they were created, updated and marked, and a lookup by ID finds one up to and including its deadline |
| StoreRuns.StoresAnswerAlike | signaling-server/store/redis.go:36-157 | After any such run whose updates keep a live session's deadline the Redis store and the memory store answer the same, by ID and by token, exactly unless asked at the very instant of the deadline |
| StoreRuns.UpdateAlike | signaling-server/store/redis.go:109-126 | An update keeps the two stores' live sessions and keys in step exactly if it keeps the deadline of a session that is live and comes too late for one that is not |
| StoreRuns.UpdateAnswersAlike | signaling-server/store/redis.go:109-126 | Asked right after it, the stores agree on an update that is in time exactly if memory holds the session, and on one that is too late, which Redis refuses, exactly if there is nothing to replace or what is replaced was over as well |
| StoreRuns.ExtendingPartsByToken | signaling-server/store/redis.go:76-126 | Asked by token ever after, they agree on the update of a live session exactly if it does not put the deadline off, since the token's key keeps the old one |
| StoreRuns.UpdateRevivesInRedis | signaling-server/store/redis.go:109-126 | For example, an update of a deleted session brings it back in Redis and not in memory |
| SignalingHandler.Handler.HandleCreate | signaling-server/handlers/websocket.go:226-286 | Limiter, payload, token, store and host registration in the code's order, with its error for each that fails |
| SignalingHandler.Handler.HandleJoin | signaling-server/handlers/websocket.go:289-357 | A join registers the client, tells the host, answers, and flushes the queued candidates one by one, or sends the code's error and changes nothing |
| SignalingHandler.Handler.HandleRelay | signaling-server/handlers/websocket.go:360-392 | An offer goes to the client it names, an answer to the host under the sender's ID, or an error goes back |
| SignalingHandler.Handler.HandleICECandidate | signaling-server/handlers/websocket.go:395-428 | A host's candidate goes to the client it names or into the queue, a client's to the host |
| SignalingHandler.Handler.Read | signaling-server/handlers/websocket.go:178-222 | One turn of the read loop, with the parse and timestamp checks and the dispatch, is one step of the state machine |
| SignalingHandler.Handler.Close | signaling-server/handlers/websocket.go:128-158 | The deferred cleanup is one step: a host's end closes all its clients' sockets and removes the session, a client's end frees its slot |
| Signaling.TimestampPasses | signaling-server/handlers/websocket.go:464-471 | For every 64-bit timestamp and clock: the replay check lets a message through exactly if it was stamped within 30 seconds of the clock, or 2^63 ns or more ahead of it in seconds that do not wrap |
| Signaling.StepKeepsInv | signaling-server/handlers/websocket.go:128-428 | Every step of any connection keeps the membership invariant and the store's index |
| SignalingRuns.MembershipHolds | signaling-server/handlers/websocket.go:128-357 | In every reachable state a session's host is the live connection that created it, a slot's client the live connection with that session and ID, every open connection with a role has its place, and every stored session has a host |
| SignalingRuns.RoleDecidesCreate | signaling-server/handlers/websocket.go:202-206 | Of the creates that are granted with fresh ID and token, exactly those of a connection without a role keep membership |
| SignalingRuns.RoleDecidesJoin | signaling-server/handlers/websocket.go:207-212 | Of the joins that are granted with a fresh client ID, exactly those of a connection without a role keep membership |
| SignalingRuns.DisciplineIsExact | signaling-server/handlers/websocket.go:128-428 | A step with fresh IDs keeps the invariant exactly if it gives no connection a second role |
| SignalingRuns.SecondRoleBreaksMembership | signaling-server/handlers/websocket.go:202-212 | For example, a host that joins another session stays the host of its own, which then has no connection that knows it |
| SignalingRuns.JoinSucceedsExactly | signaling-server/handlers/websocket.go:289-357 | A join by any connection succeeds exactly if a client ID can be made and an unexpired stored session has its token, used or not; then it is registered and its host told first. A missing host never happens; a refused join changes nothing and gets the one error that applies |
| SignalingRuns.StoreMattersOnlyForJoining | signaling-server/handlers/websocket.go:360-428 | Offers, answers and candidates do not depend on the store: expiry blocks new joins only |
| SignalingRuns.RelaysReachMembers | signaling-server/handlers/websocket.go:342-428 | Over every run an offer, answer or candidate is only ever sent to the host of the session it names or to the client it is for |
| SignalingSessions.CreatedCanBeJoined | signaling-server/handlers/websocket.go:226-357 | Whatever happens in between, as long as the host stays and the five minutes are not over, the token that a create returned lets another connection into that very session, and its creator is told |
| SignalingSessions.ReachesClient | signaling-server/handlers/websocket.go:360-428 | In every reachable state an offer, or a host's candidate, is passed on unchanged to a connection exactly if that is an open client of the session and client ID it names |
| SignalingSessions.ReachesHost | signaling-server/handlers/websocket.go:360-428 | An answer, or a client's candidate, is passed on under the sender's client ID to a connection exactly if that is the open host of the session it names |
| SignalingReplies.RefusedExactly | signaling-server/handlers/websocket.go:178-428 | In every reachable state a message other than a join is refused exactly if its timestamp is off, its type is unknown, the limiter, the payload or the generator fails, the session it names has no open host, or the client an offer is for is not connected to it; it then gets one error, with the code for that, to its sender, and nothing but the limiter's list changes |
| SignalingReplies.GarbledIsAnswered | signaling-server/handlers/websocket.go:187-192 | What cannot be parsed is answered with one PARSE_ERROR to its sender, and changes nothing |
| SignalingReplies.CreatedIsFound | signaling-server/store/memory.go:61-107 | A created session is found by its token for five minutes, with the mode and target its host gave, the creation time and unused |
| SignalingReplies.EndsExactly | signaling-server/handlers/websocket.go:128-158 | In every reachable state the end of a connection leaves it in no session: of a host it removes the session and closes the sockets of its open clients, of any other connection it frees its slot, and nothing else changes |
| SignalingReplies.LeftIsNotConnected | signaling-server/handlers/websocket.go:148-156 | An offer to a client that has left is answered to its sender with PEER_NOT_CONNECTED and goes nowhere |
| SignalingReplies.SweepsExactly | signaling-server/store/memory.go:193-211 | The cleanup removes exactly the stored sessions whose deadline has passed, with their tokens, and leaves everything else of the server alone |
| SignalingRuns.HostEndsSession | signaling-server/handlers/websocket.go:133-147 | When a host's connection ends its session is gone from the pairs and from the store |
| SignalingRuns.DeadForever | signaling-server/handlers/websocket.go:128-428 | After that, in every run, nobody comes to the session and nothing but errors is sent in its name |
| SignalingReplies.DeadIsRefused | signaling-server/handlers/websocket.go:360-399 | And whoever names it in an offer, an answer or a candidate gets one SESSION_NOT_FOUND, and nothing else happens |
| SignalingRuns.QueueIsUnclaimed | signaling-server/handlers/websocket.go:406-425 | A session's queue only grows, and is exactly the candidates for it, said by host connections of whichever session, that had no registered addressee, once each and in order |
| SignalingRuns.HostsOwnSession | signaling-server/handlers/websocket.go:202-206 | While the invariant holds, a connection flagged as host that names a session in a candidate is that session's host exactly if it is the one it created |
| SignalingRuns.ForeignIsQueued | signaling-server/handlers/websocket.go:395-420 | The host of another session can put a candidate into this one's queue |
| SignalingRuns.QueueIsOwnHosts | signaling-server/handlers/websocket.go:395-420 | Over any run a session's queue is the candidates without an addressee that came from the connection registered as its host, exactly if no other host has named the session in one |
| SignalingRuns.RunCandidates | signaling-server/handlers/websocket.go:395-428 | From its registration on a client is sent exactly the candidates addressed to it while it is registered, once each and in order, whatever the other connections do |
| SignalingRuns.JoinerGetsCandidates | signaling-server/handlers/websocket.go:322-347 | A client that joins is sent, after its session-created message, every candidate queued until then under its own ID and then every later one addressed to it, and no other |
| Backoff.LoopIsClosedForm | internal/state/reconnect.go:201-240 | With an integer multiplier the delay that the loop grows equals CalculateDelay on every attempt exactly if the first delay is within the maximum, and from the second attempt on always |
| Backoff.WaitIsBelow | internal/state/reconnect.go:201-240 | With any multiplier from 1 up delays never shrink, never exceed the maximum and never exceed CalculateDelay |
| Backoff.AgreeForIntegersOnly | internal/state/reconnect.go:201-240 | For a multiplier from 1 up the loop and CalculateDelay agree for every first delay within every maximum exactly if the multiplier is an integer |
| Backoff.FractionsAreLost | internal/state/reconnect.go:202 | For example, 1 ns grown by 1.5 stays 1 ns in the loop |
| Backoff.TotalIsWithinCaps | internal/state/reconnect.go:201-205 | With any multiplier from 1 up the total wait stays within that many maximum delays |
| Backoff.TotalIsWithinSeries | internal/state/reconnect.go:201-205 | And within the geometric series |
| Reconnect.ReconnectManager.ReconnectLoop | internal/state/reconnect.go:121-207 | The loop, whatever Stop and the attempts do on each turn, waits, tries, reports and ends as Run says |
| Reconnect.RunFollowsCourse | internal/state/reconnect.go:107-207 | A run that nobody stops is known in full: attempt k waits its closed-form delay, failures are reported as 1, 2, ..., and it ends with the first success or, after the last allowed attempt, by giving up |
| Reconnect.EndsExactlyOnce | internal/state/reconnect.go:121-207 | Such a run has returned exactly if it reported one success or gave up once, must have once the maximum is used up, never tries more often than the maximum, and has waited the sum of its delays |
| Reconnect.StopOnlyCutsShort | internal/state/reconnect.go:121-216 | Whenever Stop is called, what happens is a prefix of what would have happened without it |
| Reconnect.StopEndsLoop | internal/state/reconnect.go:126-162 | The loop returns at the latest on the turn after Stop, also without a maximum |
| Reconnect.RunIsBounded | internal/state/reconnect.go:121-216 | With Stop at any point a run ends at most once, tries at most the maximum number of times and, with any multiplier from 1 up, waits at most that many maximum delays |
| Reconnect.RestartNeverTries | internal/state/reconnect.go:107-162 | No loop started after Stop ever waits out a delay or tries anything, whatever happens, exactly if the first delay is positive; it returns on its first wait and leaves the manager active |
| SignalingClient.ConnectWithRetry | internal/signaling/client.go:114-146 | It connects on the first attempt that succeeds, gives up after the last, or is cancelled in a wait, and the waits in between are 1, 2, 4, ... seconds, at most 30 |
| SignalingClient.DelaysAreBounded | internal/signaling/client.go:138-142 | The sum of these waits is bounded by the cap and by the doubling |
| SignalingClient.SameAsReconnect | internal/signaling/client.go:138-142 | They are the delays of the reconnection loop, and of its closed form, with multiplier 2 |
| ServiceWorker.ServiceWorkerScope.OnBodyRead | web/sw.js:249-269 | A request is rejected without a tunnel, or becomes pending under a timer |
| ServiceWorker.ServiceWorkerScope.OnCloseTunnel | web/sw.js:99-108 | Every pending request is rejected in order and the table is empty |
| ServiceWorker.PortExactly | web/sw.js:65-109 | In any run the worker's port is the one it was given last if the tunnel has not been closed since, it has issued one ID for every fetch that found a port, and reads the bodies of those issued and not read |
| ServiceWorker.SentExactly | web/sw.js:249-269 | A request whose body has been read becomes pending under a timer exactly if there is a port then, and is rejected as not connected otherwise |
| ServiceWorker.SettledAtMostOnce | web/sw.js:65-109 | In one lifetime of the worker no promise is settled twice, and the table holds exactly what was issued, sent and not settled, each under a timer that has not fired |
| ServiceWorker.FirstDecides | web/sw.js:65-109 | From any state on, a pending request's fate is the first of a reply under its ID, its timer and the closing of the tunnel; it stays pending exactly as long as there is none |
| ServiceWorker.TimerSettles | web/sw.js:262-267 | Once its timer has fired a request is settled |
| ServiceWorker.OwnReply | web/sw.js:73-83 | A promise is only resolved with a reply that came in under its own ID |
| PageRequests.BTunnelRequests.ProxyRequest | web/webrtc-client.js:502-538 | A request is rejected without channels, becomes pending under its ID with a timer, in place of any other under that ID, or, if sending throws, is rejected and pending without a timer |
| PageRequests.BTunnelRequests.Close | web/webrtc-client.js:627-631 | The loop over the table, in any order, rejects every pending promise once and empties it |
| PageRequests.OpenExactly | web/webrtc-client.js:502-631 | In any run the page has channels exactly if they were opened and the connection was not closed since, and every request has made the next promise |
| PageRequests.RequestedExactly | web/webrtc-client.js:502-538 | In any run a new request is rejected outside the table exactly if there are no channels, and otherwise pending under its ID, waiting under a timer unless sending throws |
| PageRequests.TakeKeepsOK | web/webrtc-client.js:468-538 | A step keeps every promise either waiting or settled once, exactly if a new request can be sent and its ID is not one that a timer still looks for |
| PageRequests.CalledAtMostOnce | web/webrtc-client.js:468-538 | Over any run with such IDs no promise is settled twice, and what is unsettled waits under a timer that has not fired |
| PageRequests.FirstDecidesFate | web/webrtc-client.js:468-538 | A waiting promise's fate is the first of a message under its ID, its timer and the closing of the connection |
| PageRequests.ReuseLosesRequest | web/webrtc-client.js:531-536 | With a reused ID it fails: the first request's timer removes the second one, which is then never settled, whatever happens |
| PageRequests.ThrowLeavesEntry | web/webrtc-client.js:514-529 | With a send that throws it fails: the rejected promise is still pending, and a message under its ID settles it again |
| PageRequests.StaleStays | web/webrtc-client.js:514-536 | No timer ever removes that entry: it stays until the ID is used again, a message names it or the connection is closed |
| Bridge.RequestsAreCareful | web/index.html:762-787 | In every run of worker and page together, with any delays and overtaking between them, the page's part is a careful run and the worker's a run of its own, so that everything proved of each holds |
| Bridge.ExactlyOneOfEach | web/index.html:769-787 | Every posted request has one promise at the page, settled at most once, and one at the worker; while the worker's is pending the request is on its way, waits at the page, or its answer is on its way back, and an answered one is never pending |
| Bridge.FetchGetsItsReply | web/index.html:769-787 | A fetch is only ever answered with the reply that came through the channel under its own ID, or with 502 after the page's promise for that very request was rejected |
| UdpProxy.UDPProxy.ClientFor | internal/proxy/udp.go:220-230 | The search, in any order, finds an address exactly if one has the ID |
| UdpProxy.NumberedInOrder | internal/proxy/udp.go:187-200 | The k-th address to send has ID k modulo 2^32 and keeps it |
| UdpProxy.OneEachExactly | internal/proxy/udp.go:187-200 | No two addresses share an ID exactly as long as there are at most 2^32 of them |
| UdpProxy.RepliesFindTheirClient | internal/proxy/udp.go:213-231 | Below 2^32 addresses a reply goes to exactly the address that owns its ID, and IDs in use are 1 up to the number of addresses |

## Left out

- TunnelRuns.StreamIntegrity: does not cover a frame that gets through after an earlier one of its ID was lost, at a full inbox (internal/webrtc/peer.go:220-227) or by a refused send that the client ignores (internal/proxy/tcp.go:312); then bytes are missing in the middle, and `Loss.NextMessageIsClean` and `Delivery.ReorderAndLoss` say what reassembly makes of it.
- Tunnel.Step: the 64-message channels between `ProcessIncoming` and its consumer are unbounded here, since a full one only makes the sender wait.
- Tunnel.RunKeepsInv: the connection counter does not come round to IDs in use, and `Stop` closes queues but not the sockets of open connections.
- Reorder.AnyArrival: messages of different numbers of chunks mixed on one ID, of which `Delivery.MessageByMessage` only says that they come out if each arrives whole.
- Bridge.Advance: the text of an error answer after the colon, and a page that is closed or reloaded.
- Browser.BuffersHandledAlike: data-channel messages are shorter than 4 GiB where the length field wraps.
- Signaling.Step: two goroutines inside one handler at once (a join while the host's cleanup runs, two calls of `checkRateLimit` whose clock readings overtake each other), failures of the WebSocket writes, pings, and the `connections` map that nothing uses.
- Signaling.HandleJoin: errors of a store other than not found and expired, which Redis can return and which are answered with nothing.
- SignalingHandler.Handler.CheckRateLimit: keeps an address's times as a value; the array is worked on in place in `RateLimiter.RateLimitEntry`.
- StoreRuns.StoresAnswerAlike: one clock for server and Redis, no rounding of a TTL, no errors of Redis itself, and updates only as `UpdateAlike` admits them; the Redis keyspace is an external value, so its operations are functions.
- Backoff.CalculateDelay: exact reals and unbounded durations instead of float64 and int64, so not what rounding does to durations above 2^53 ns.
- Reconnect.Started: whether the three reporting callbacks are set, and two loops at once after a stop and a restart during an attempt.
- ServiceWorker.Step: the HTTP side of a request (headers, body, hop-by-hop filtering), and a second lifetime of the worker, whose IDs start again at 1 while the page may still know old ones.
- UdpProxy.Seen: the host's side, which keeps one socket per ID, and datagrams that overtake each other.
- Virtual WebSockets (web/webrtc-client.js:652-778, internal/proxy/http.go:186-320): they reuse one request ID for all their sends, so a push can be taken for a reply; `PageRequests.ReuseLosesRequest` is about such IDs.
- Single-use tokens: promised by the documentation, not enforced by the code.
- The token format of internal/util/network.go, HTTP forwarding, the sidecar and Docker code, configuration, user interface and metrics: they would add only easy members.
- WebRTC, SDP, STUN and TURN, TLS, random numbers, JSON and base64 themselves.
