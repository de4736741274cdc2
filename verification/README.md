# A model of tg-ws-proxy-rs in Dafny

The proxy accepts Telegram clients (obfuscated MTProto, plain or inside FakeTLS records), decrypts
their stream, re-encrypts it for an upstream and carries it over WebSockets, an upstream MTProto
proxy or raw TCP. This project models its four hard parts and proves what they promise.

**The re-encrypting pipeline.** `Bytes`, `Ciphers` (AES-CTR as an arbitrary keystream, XOR on
bits), `Handshake` (the 64-byte obfuscated init, the relay init, the cipher set-up), `Framing` and
`Splitter` (packet cutting in lockstep with the relay cipher), `Net` (sockets as byte queues),
`TlsRecords`, `ClientStream`, `ClientHello`, `FakeTls` (the fake TLS layer), `Bridge` (the loops of
both directions), `Session` (one connection to a WebSocket, from its first byte, a FakeTLS hello
included, to the frames Telegram gets and the bytes the client reads), `TcpFallback` (the same over
raw TCP) and `Upstream` (the chain of hello, drain, handshake and relay towards an upstream MTProto
proxy, and what both ends of it read). A socket carries an arbitrary list of read sizes, so every
statement about a loop holds for every way the stream is cut, and what the cut decides can be said.
When one direction of a session ends the other is aborted: `Bridge.JoinBridge` gives the two
directions tasks of which one runs to its own end and the other stops at an arbitrary await point,
possibly in the middle of a write. What each direction then leaves, unread or unsent, is part of
every statement about a session.

**The connection pool.** `PoolMachine` is a machine of atomic steps: what happens under one lock or
between two await points is one event, and gets, refills and the warmup interleave freely. `Pool`
holds the shared buckets, each of whose critical sections refines one step, and the connectors whose
choice makes a Cloudflare connection what it is. `FdBudget` adds the accept permits and the
connection cap, and derives the file-descriptor bound from the pool bound.

**The routing ladder.** `CfRecords` is the Cloudflare worklist, which grows while it is consumed.
`Cooldowns` is the failure memory with a history it is a function of: each direct dial records its
DC, SNI, timeout and the moments it read the cooldowns, and a history is honest only if every one of
these is what the memory left by the events before it called for. `Ladder` says what a descent is
and what it means; `Routing` is the router itself, which keeps its history honest. Dials are answered
by an adversary, the clock moves between any two reads, and a pool hit is what the pool machine
answers to that get behind an arbitrary run of it. A router that is not `solo` also has its
cooldowns changed by other connections at every await point; the order and completeness of the
descent hold regardless, while what a cooldown means is stated for connections handled one after
the other.

**HTTP bodies.** `HttpBody` reads response headers and the three kinds of body from a growing buffer;
each reader is specified by a parse of the whole stream.

Conventions. Methods carry the source's loops and mutation and are tied by their contracts to
functions or predicates about which the lemmas speak. Cryptographic primitives are the fields of a
`Suite` value and nothing is assumed about them. A sink has an arbitrary limit: the send or write that
passes it sets the `failed` flag. A direction delivers everything if and only if it has nothing left,
which is so for the direction that ended first unless its sink failed.

Findings about the code:

- The handler negates a signed 16-bit DC index. For the index -32768 a checked build panics and a
  release build wraps; for every other index it rebuilds what the client sent
  (`Handshake.RebuiltIndexExact`).
- A session that closes may lose bytes although nothing failed: the direction that did not end first is
  aborted with what it has not read, with its unfinished send and with the splitter's partial packet.
  A client that stops sending may read nothing of a reply (`Session.ReplyIsLost`), and an upstream that
  closes first may get nothing of what the client sent (`Session.UploadIsLost`). A direction delivers
  everything exactly when it has nothing left.
- With balancing, the spare behind a Cloudflare proxy connection is opened to the next bare zone name,
  not to a `kws` record of the DC: spares are records for every such connection if and only if
  balancing is off or every zone is itself named like a record (`Ladder.SparesReachRecords`).
- A comment on the raw TCP fallback says that the paths to it end in a timeout of the configured
  address. For every configuration the code gets there behind any failure of the direct dial
  (`Ladder.LastResortNeedsNoTimeout`), and after a timeout if and only if the network answers one of
  the DC's domains with one (`Ladder.TimeoutBehindTcp`). The model follows the code.
- A zone name that itself contains `-1.` makes the record walk longer than three attempts a zone;
  `CfRecords.WalkIsBounded` and `CfRecords.BoundIsReached` give the exact worst case.
- The file-descriptor bound fails for small limits because of the floor of four connections: all
  reachable states fit if and only if the reserve leaves eight descriptors, and otherwise a reachable
  state overdraws (`FdBudget.FdsFitExactly`).
- A host name over 65360 bytes produces a ClientHello whose two-byte lengths wrap and which its own
  parser refuses (`ClientHello.HelloRoundTrip`); a checked build panics exactly when the length modulo
  65536 is at least 65531 (`ClientHello.SniLengthsExact`).
- A chunked body is accepted under every cut of the stream if and only if its trailers are within
  64 KiB, and under some cut if and only if they exceed that by less than one read
  (`HttpBody.CutsDecide`); `HttpBody.TrailersDependOnTheCut` gives a stream with one accepting and one
  refusing cut.

## Model

| member | source | states |
|---|---|---|
| Bytes.XorTwice | rust/src/crypto.rs:234-236 | XOR with the same keystream byte twice is the identity, which is all that decryption needs |
| Ciphers.CryptTwice | rust/src/crypto.rs:234-236 | applying a keystream twice from the same position gives the data back |
| Ciphers.CtrCipher.ApplyKeystream | rust/src/crypto.rs:234-236 | the cipher encrypts at its position and advances by the length of the data |
| Framing.PacketLenMonotone | rust/src/splitter.rs:182-245 | for both transports, bytes that arrive later never change a packet length already decided |
| Framing.CutsTotal | rust/src/splitter.rs:113-129 | the one-shot parse takes nonempty packets within the stream and stops exactly where the length parser waits or sees a zero header |
| Framing.CutsExtend | rust/src/splitter.rs:89-142 | parsing a longer stream keeps every packet already found and goes on from the rest |
| Framing.StepFacts | rust/src/splitter.rs:89-142 | one split call keeps the lockstep, neither loses nor invents a byte, and emits no empty frame |
| Framing.RunMeaning | rust/src/splitter.rs:89-142 | after any run of calls the frames are exactly the packets of the one-shot parse of the decrypted stream |
| Framing.ChunkingIndependence | rust/src/splitter.rs:89-142 | two ways of cutting the same stream into calls give the same packets; only frames behind a zero-length header may be cut differently, and they carry the same bytes |
| Splitter.MsgSplitter.constructor | rust/src/splitter.rs:65-83 | the shadow cipher runs on the raw key and IV of the relay init, at position 64 |
| Splitter.MsgSplitter.Split | rust/src/splitter.rs:89-142 | the call is one step of the splitter's specification, and both buffers stay in lockstep with the cipher |
| Splitter.MsgSplitter.TakePackets | rust/src/splitter.rs:113-129 | the packet loop ends, and cuts the buffer at the lengths of the one-shot parse of the plaintext |
| Splitter.MsgSplitter.Flush | rust/src/splitter.rs:145-156 | everything still buffered comes out as at most one frame and the buffer is empty |
| Splitter.MsgSplitter.TrimIdleBuffers | rust/src/splitter.rs:160-179 | only capacity changes, and only after 64 drained calls with an oversized buffer |
| Handshake.ParsesOnlyCarried | rust/src/crypto.rs:123-157 | a handshake parses if and only if it carries a tag and index under the key, and what is parsed is that protocol, magnitude and sign |
| Handshake.ParsesBack | rust/src/crypto.rs:123-157 | a packet that carries a tag and index under the client's key parses back to protocol, absolute DC and media flag |
| Handshake.RebuiltIndexExact | rust/src/proxy.rs:455-462 | the handler gets back the signed index the client sent if and only if the build wraps or the index is not -32768 |
| Handshake.AcceptDraw | rust/src/crypto.rs:184-201 | the rejection loop returns the first draw that is not reserved |
| Handshake.GenerateRelayInit | rust/src/crypto.rs:180-229 | the init decodes under its own embedded key and IV to the given tag and index, keeps a non-reserved prefix, and leaves everything in front of the tag as drawn |
| Handshake.EmbedTail | rust/src/crypto.rs:212-226 | the overwritten bytes are the tail under the keystream the encryption reveals, the rest is untouched |
| Handshake.GenerateClientHandshake | rust/src/crypto.rs:250-330 | the upstream parses the handshake back to the same protocol and index and derives the mirror image of both session ciphers |
| Handshake.SessionCiphers | rust/src/crypto.rs:300-330 | the session's ciphers run on the keys both sides derive from the handshake, the outgoing one past its 64 bytes |
| Handshake.ConnectionCiphers.constructor | rust/src/crypto.rs:350-410 | the four ciphers run on the client's, the reversed client's, the relay's and the reversed relay's key, each past what was already sent |
| TlsRecords.AppDataRecords | rust/src/faketls.rs:459-483 | every record written is nonempty, at most 16384 bytes, and together they carry the data in order |
| TlsRecords.WriteTlsAppData | rust/src/faketls.rs:459-483 | unless a write fails, exactly the records of the data go out; otherwise a front of them |
| TlsRecords.ReadTlsAppData | rust/src/faketls.rs:489-531 | one read returns the next payload of the record stream and leaves what follows |
| TlsRecords.ReadWritten | rust/src/faketls.rs:459-531 | reading any records that fit the buffer returns their application payloads in order and goes on behind them |
| TlsRecords.WritesReadBack | rust/src/faketls.rs:459-531 | any number of writes of any size reads back as one byte stream, with ChangeCipherSpec records inserted anywhere between the records |
| TlsRecords.CutStreamReadsFront | rust/src/faketls.rs:489-531 | a record stream cut off anywhere still reads as a front of the data |
| TlsRecords.CutStreamReadsLess | rust/src/faketls.rs:489-531 | and, cut off before its end, as less than all of it |
| TlsRecords.EmptyRecordEnds | rust/src/faketls.rs:508-514 | a zero-length Application Data record ends the session, whatever follows it |
| ClientStream.ClientReader.Read | rust/src/proxy.rs:220-235 | reads return pending bytes first, then the rest of the client's stream, in order and without loss; zero only at its end |
| ClientStream.ClientWriter.WriteAll | rust/src/proxy.rs:251-257 | a client write is its records or its raw bytes |
| ClientStream.ClientWriter.WriteAs | rust/src/proxy.rs:251-257 | the same write by a task that may be aborted in it: what went out and what never does make up the framed data |
| ClientStream.ReadFakeTlsInit | rust/src/proxy.rs:303-323 | the init is the first 64 payload bytes however they are fragmented, and the pending bytes with all later reads are exactly the payload behind it, on both return paths |
| ClientHello.ParseSniExtension | rust/src/faketls.rs:297-325 | the loop over arbitrary bytes computes the first server name of the list |
| ClientHello.SniIsFound | rust/src/faketls.rs:297-325 | the host is found at any position behind extensions that carry no server name |
| ClientHello.ParseFaketlsClientHello | rust/src/faketls.rs:217-295 | for arbitrary bytes and key: parsed exactly when framing, digest and body are right |
| ClientHello.BodyParses | rust/src/faketls.rs:254-295 | session id, first cipher suite and extensions of any well-formed hello are read back |
| ClientHello.BuildFaketlsClientHello | rust/src/faketls.rs:80-176 | the result is the encoding of the hello with this host, session id and a zeroed random; a checked build panics exactly when the sixteen-bit length arithmetic overflows |
| ClientHello.SniLengthsExact | rust/src/faketls.rs:84-90 | the length arithmetic panics exactly in a checked build on lengths within five of a multiple of 65536, and wraps to the true lengths otherwise |
| ClientHello.SignFaketlsClientHello | rust/src/faketls.rs:191-213 | only the random changes: the digest of the zeroed record, its last four bytes masked with the time |
| ClientHello.SignedParses | rust/src/faketls.rs:191-295 | any well-formed hello, signed, parses under the same secret to the fields it was made from |
| ClientHello.HelloRoundTrip | rust/src/faketls.rs:80-295 | build, sign and parse give host, session id and first cipher suite back exactly when the host fits the record length, and nothing otherwise |
| FakeTls.ReadTlsRecord | rust/src/faketls.rs:379-394 | the next record and the stream behind it, or nothing when it is cut off or too large |
| FakeTls.DrainFaketlsServerHello | rust/src/faketls.rs:406-451 | the loop leaves the stream right behind the first Application Data record, within twenty records |
| FakeTls.DrainsRecords | rust/src/faketls.rs:406-451 | handshake records are drained up to the first Application Data record if and only if there are fewer than twenty of them |
| FakeTls.BuildFaketlsServerHello | rust/src/faketls.rs:327-370 | three records whose random is the digest over the client's random and the zeroed answer |
| FakeTls.AnswerIsDrained | rust/src/faketls.rs:327-451 | a client that drains this answer is left with exactly the bytes behind it |
| FakeTls.FindSecret | rust/src/proxy.rs:281-288 | the first secret the hello authenticates under |
| FakeTls.AcceptInboundFaketls | rust/src/proxy.rs:260-324 | an answer goes out exactly to a hello that is authentic for the served domain, and init and pending bytes are the payload behind it; anybody else gets no byte |
| FakeTls.SignedHelloIsWelcome | rust/src/proxy.rs:260-295 | a hello built and signed with a configured secret for the served domain is welcome and followed by the client's data alone |
| Bridge.SendAll | rust/src/proxy.rs:1317-1327 | frames go out in order; sent and unsent ones make up all, and none is unsent unless a send fails or the task is aborted |
| Bridge.ReadReencrypted | rust/src/proxy.rs:1302-1313 | one read of a loop passes both ciphers at their positions |
| Bridge.UploadReads | rust/src/proxy.rs:1302-1342 | the read loop's frames, sent and unsent, are those of a splitter run over the re-encrypted reads, or the reads themselves for a tunnel; what it read and what it did not make up the stream |
| Bridge.UploadWs | rust/src/proxy.rs:1294-1357 | every byte of the re-encrypted stream is in a frame, unsent or unread, in this order, cut at its packets or at reads of bounded size; nothing is left unless a send failed or the task was aborted |
| Bridge.RunDelivers | rust/src/proxy.rs:1314-1342 | frames of a run over a front of the stream, cut off anywhere, are frames of the whole stream, packet for packet |
| Bridge.RunCompletes | rust/src/proxy.rs:1344-1351 | a run over the whole stream and the flush behind it deliver all of it |
| Bridge.TelegramReads | rust/src/proxy.rs:1294-1357 | decrypted with the relay key from position 64 the frames are the client's plaintext in order, up to exactly what is left and all of it if and only if nothing is; one packet per frame in packet framing |
| Bridge.DownloadWs | rust/src/proxy.rs:1359-1386 | what is written to the client, with what is unsent, is the re-encrypted data messages taken, in order; nothing is left unless a write failed or the task was aborted |
| Bridge.WriteMessage | rust/src/proxy.rs:1370-1382 | one message passes both ciphers at their positions; what goes out and what is unsent make up its framing |
| Bridge.Pump | rust/src/proxy.rs:1559-1641 | one direction of a relay writes, with what is unsent, its re-encrypted reads, raw or in records; nothing is left unless a write failed or the task was aborted |
| Bridge.ReceiverReads | rust/src/proxy.rs:1359-1386 | the receiver of a direction reads the sender's plaintext in order under its own cipher, and all of it if and only if nothing is left |
| Bridge.JoinBridge | rust/src/proxy.rs:1780-1797 | the direction that ends first runs to its own end, the other is aborted at an arbitrary await point |
| Session.FirstMatch | rust/src/proxy.rs:440-443 | the first configured secret the handshake parses under: no earlier one parses it; none exactly when no secret does |
| Session.OwnSecretMatches | rust/src/proxy.rs:434-462 | a client whose secret is configured is matched with its own protocol, DC and media flag, unless an earlier secret happens to fit |
| Session.ReadInit | rust/src/proxy.rs:1880-1899 | in either inbound mode: the hello is checked and answered first where the listener is FakeTLS, and init plus all later reads are the obfuscated stream inside; nobody unwelcome gets a byte |
| Session.Accept | rust/src/proxy.rs:401-462 | a client is accepted exactly when its hello is welcome, its init complete and understood, and the answer could be written |
| Session.Relay | rust/src/proxy.rs:1270-1397 | the relay init is the first frame, what follows and what goes back are the re-encrypted streams up to what each direction leaves; the one that ended first leaves nothing unless its sink failed |
| Session.Handle | rust/src/proxy.rs:388-523 | for every honest client, plain or FakeTLS, however its stream is cut and wherever the session is closed: Telegram decodes the protocol and index it asked for and reads its plaintext, the client Telegram's behind the answer, in order, and all of it if and only if that direction has nothing left, as has the one that ended first unless its sink failed |
| Session.UploadIsLost | rust/src/proxy.rs:1780-1797 | a run without a failure in which Telegram reads less than the client sent, for every honest client that sent something |
| Session.ReplyIsLost | rust/src/proxy.rs:1780-1797 | a run without a failure in which the client gets nothing behind the answer, whatever Telegram sent |
| Session.KnownClient | rust/src/proxy.rs:434-462 | an honest client is matched with its own secret, protocol and index, and what remains of its stream is its encrypted plaintext |
| Session.FakeTlsClientSends | rust/src/proxy.rs:260-324 | a signed hello for the listener's domain followed by any fitting records is an honest client, and the answer it gets is drained up to what is sent back |
| TcpFallback.BridgeTcp | rust/src/proxy.rs:1668-1768 | the relay init goes out raw, then each direction is the re-encrypted stream up to what it leaves; the one that ended first leaves nothing unless its sink failed |
| TcpFallback.HandleTcp | rust/src/proxy.rs:388-559 | for every honest client, plain or FakeTLS, a connection that fell back to raw TCP lets Telegram decode what it asked for; each side reads the other's plaintext in order, and all of it if and only if that direction has nothing left, as has the one that ended first unless its sink failed |
| Upstream.ConnectMtprotoUpstream | rust/src/proxy.rs:1422-1518 | the upstream gets exactly the greeting of the secret's mode, its answer is drained, and both session ciphers are the ones it will derive; exactly the listed failures end the attempt |
| Upstream.SendHello | rust/src/proxy.rs:1466-1490 | the hello goes out signed with the upstream's key |
| Upstream.BridgeRelay | rust/src/proxy.rs:1540-1641 | each direction is the re-encrypted stream up to what it leaves, framed as its own side is; the one that ended first leaves nothing unless its sink failed |
| Upstream.UpstreamSeesClient | rust/src/proxy.rs:1422-1641 | an upstream that listens as this proxy does sees an honest client of its own with the original client's plaintext, all of it if and only if nothing is left |
| Upstream.ClientSeesUpstream | rust/src/proxy.rs:1559-1641 | the client reads the upstream's plaintext in order, all of it if and only if nothing is left |
| Upstream.HandleUpstream | rust/src/proxy.rs:388-541 | for every honest client, from its first byte to the accept of any upstream that serves the secret: that upstream sees an honest client asking for the same and reads the same plaintext, the client reads the reply, each in full if and only if its direction has nothing left |
| PoolMachine.TakeFreshest | rust/src/pool.rs:177-213 | a hit is the newest usable entry of a sorted bucket, everything behind it was dead, everything in front stays; a miss means nothing was usable |
| PoolMachine.StepKeeps | rust/src/pool.rs:169-376 | every event of a get, a refill or the warmup keeps the pool invariant |
| PoolMachine.PoolBound | rust/src/pool.rs:296-376 | over every interleaving idle, refilling and warming connections of a bucket stay within twice the pool size, and within the pool size until the warmup has pushed into it |
| PoolMachine.BoundIsReached | rust/src/pool.rs:296-376 | for every positive pool size a run exists in which all buckets of the warmup hold twice the pool size at once |
| PoolMachine.OneRefillPerKey | rust/src/pool.rs:323-345 | at most one refill task of a bucket holds its guard, in every reachable state |
| PoolMachine.HitsAreFreshest | rust/src/pool.rs:169-234 | in every reachable state a get returns the newest usable connection of its own bucket, one that dialling for this bucket opens, and a miss means there was none |
| Pool.Buckets.TakeUsable | rust/src/pool.rs:177-213 | the locked part of get is one step of the machine |
| Pool.Buckets.BeginRefill | rust/src/pool.rs:323-335 | registering a refill is one step; it is refused while another holds the bucket |
| Pool.Buckets.Needed | rust/src/pool.rs:336-348 | the check is one step and asks for exactly the space left |
| Pool.Buckets.AddRefilledConns | rust/src/pool.rs:355-376 | pushing is one step; what no longer fits is dropped |
| Pool.Buckets.EndRefill | rust/src/pool.rs:133-137 | dropping the guard is one step |
| Pool.Buckets.AddWarm | rust/src/pool.rs:296-321 | the warmup's push is one step and does not look at the space left |
| Pool.ConnectBatch | rust/src/pool.rs:455-500 | at most the wanted number of connections, giving up at the first failure |
| Pool.CfPoolBound | rust/src/pool.rs:378-453 | at most one idle or opening Cloudflare connection a key, none without pooling, and every idle one is what the tier's connector opens for an allowed target of that key, a tunnel exactly in the Worker tier |
| Pool.TargetIsMine | rust/src/pool.rs:418-453 | a refill is taken on exactly for an allowed target, and opens what its connector does |
| FdBudget.CapWithinBudget | rust/src/limits.rs:60-74 | the cap fits the limit if and only if the reserve leaves eight descriptors, in saturating arithmetic; one more connection never fits |
| FdBudget.DcTargetIp | rust/src/config.rs:592-611 | the reverse scan finds an address exactly for the keys of the last-wins map of the same flags, and that address |
| FdBudget.BucketCount | rust/src/main.rs:124-125 | a configured DC has two buckets |
| FdBudget.ProcessStepKeeps | rust/src/main.rs:283-303 | every step of the process keeps permits, pool invariant and confinement to the configured buckets; that a get stays among them follows from its address lookup |
| FdBudget.FdsWithinLimit | rust/src/limits.rs:60-74 | in every reachable state listener, clients, direct pool and reserve stay within the limit |
| FdBudget.FdsFitExactly | rust/src/limits.rs:60-74 | all reachable states stay within the limit if and only if the reserve leaves the eight descriptors of the smallest cap |
| CfRecords.BaseReplacesFirst | rust/src/ws_client.rs:473-477 | a base record exists exactly for names that contain `-1.`, and it replaces the first one by a dot |
| CfRecords.RecordBases | rust/src/ws_client.rs:456-477 | the `-1` record of any zone falls back to that zone's base record |
| CfRecords.CfAttempts.NextDomain | rust/src/ws_client.rs:533-543 | the next record is the first forced or untried one, and only an own turn is remembered |
| CfRecords.CfAttempts.NoteTimedOut | rust/src/ws_client.rs:547-549 | a record that ran out the clock is remembered |
| CfRecords.CfAttempts.RetryBaseOf | rust/src/ws_client.rs:554-566 | a forced retry of the base record is queued in front, unless that one timed out |
| CfRecords.ConnectCfWs | rust/src/ws_client.rs:602-658 | the loop ends for every zone list and every outcome and makes exactly the attempts of the specification |
| CfRecords.WalkIsBounded | rust/src/ws_client.rs:602-658 | at most three attempts a zone, plus two for every `-1.` its own name falls back through |
| CfRecords.BoundIsReached | rust/src/ws_client.rs:602-658 | that bound is exact: distinct zones with all records missing use all of it |
| CfRecords.EveryRecordItsTurn | rust/src/ws_client.rs:485-566 | own turns are the distinct records in order, cut off only by a success |
| CfRecords.NoRecordSkipped | rust/src/ws_client.rs:485-566 | unless a dial succeeds every configured record is dialled on its own turn exactly once |
| CfRecords.ForcedExactly | rust/src/ws_client.rs:533-566 | an attempt is forced if and only if the one before it was missing from DNS and its base record has not timed out |
| CfRecords.MediaFairness | rust/src/ws_client.rs:485-510 | with `-1` records missing and base records failing without a timeout, both orderings dial every base record exactly twice |
| Cooldowns.CooldownMap.Set | rust/src/proxy.rs:111-117 | the deadline of this key is now plus the cooldown, all others stay |
| Cooldowns.CooldownMap.Clear | rust/src/proxy.rs:119-128 | this key has no deadline, all others stay |
| Cooldowns.IpCoolingIsEarned | rust/src/proxy.rs:1033-1096 | an address is cooling exactly while a suspicion stands, and behind each is a dial on the full timeout, of a DC whose cooldown was not running when the timeout was chosen, with a TCP connect timeout and no un-fronted success since |
| Cooldowns.DeadlineIsLastFailure | rust/src/proxy.rs:850-905 | a Worker or upstream proxy has a deadline exactly when its last dial failed, set by that dial |
| Cooldowns.StickyIsEarned | rust/src/runtime.rs:65-78 | the sticky fronting window is set exactly by the last fronted success not followed by a failed sticky dial |
| Cooldowns.FrontingDeadline | rust/src/proxy.rs:1107-1171 | fronting has a deadline for a DC exactly when its last fronted dial failed, set by that dial |
| Cooldowns.WsDeadline | rust/src/proxy.rs:1054-1096 | a DC backs off exactly when the last word on its direct path was giving it up, until the time set by that |
| Cooldowns.DialsFrontedExactly | rust/src/proxy.rs:1033-1163 | in an honest history a first dial is fronted if and only if the last word on fronting was a success whose window is open at the read; every direct dial is on the short timeout if and only if its DC is backing off at the read, and so is the verdict |
| Cooldowns.RetriesGated | rust/src/proxy.rs:1107-1142 | a fronted retry is made only outside, and skipped only inside, the cooldown of a failed last fronted dial of its DC |
| Ladder.RotationCovers | rust/src/proxy.rs:187-211 | balancing permutes the domains and drops none |
| Ladder.DescendOn | rust/src/proxy.rs:619-725 | a descent that found nothing goes on with the rungs behind it |
| Ladder.NoRungTwice | rust/src/proxy.rs:619-725 | no rung is visited twice, and the direct one only for a DC with a configured address |
| Ladder.TunnelFromWorker | rust/src/proxy.rs:748-760 | a stream is tunnelled if and only if its connection was opened through a configured Worker: a pooled one by the connector that opened it, or a freshly dialled one |
| Ladder.SparesReachRecords | rust/src/proxy.rs:762-803 | the spare behind every fresh Cloudflare proxy connection is a record of the DC if and only if balancing is off or every zone is named like one; with balancing it is a bare zone, without it the record that answered |
| CfRecords.WinnerIsARecord | rust/src/ws_client.rs:602-658 | whatever record a walk ends with begins like the records of its DC |
| Ladder.LastResortIsLast | rust/src/proxy.rs:619-725 | behind a descent that found nothing every Worker and upstream proxy failed or was cooling, the record walk was exhausted, and a configured address was missed by the pool and dialled, even one stepped over |
| Ladder.RetriedExactly | rust/src/proxy.rs:1033-1142 | behind a failed unfronted dial: a fronted retry exactly when the upgrade stalled, fronting is configured and not cooling; a suspicion of the address exactly when a TCP connect timed out and the DC was not backing off |
| Ladder.LastResortNeedsNoTimeout | rust/src/proxy.rs:1225-1238 | for every configuration and every network on which no domain of the DC connects there is an honest history that ends in raw TCP, after a timeout if and only if the network answers a domain with one |
| Ladder.TimeoutBehindTcp | rust/src/proxy.rs:1033-1142 | a descent through the direct rung that found nothing ran out the clock on a direct dial if and only if the network answers one of the DC's domains so on the first one |
| Ladder.AnsweredInTurn | rust/src/ws_client.rs:391-438 | every domain is tried unless an earlier one connects, and nothing behind a success |
| Routing.ConnectWsForDc | rust/src/ws_client.rs:381-438 | domains are tried in order until one connects, and the flags say exactly how the others failed |
| Routing.Router.SkipCooling | rust/src/proxy.rs:846-853 | a name is skipped exactly while its cooldown runs |
| Routing.Router.AskCf | rust/src/pool.rs:242-285 | the hit is the pool machine's answer to a get of this tier and DC, opened by the tier's connector through a configured host; a hit has its like opened again |
| Routing.Router.AskDc | rust/src/proxy.rs:681-692 | the hit is the pool machine's answer for this DC, and the bucket is refilled unless the address is cooling |
| Routing.Router.OpenSpare | rust/src/proxy.rs:778-803 | the pool is asked for one connection to the host that answered, or to the next of the rotation |
| Routing.Router.DialName | rust/src/proxy.rs:867-905 | a success clears the cooldown of the name, a failure starts it |
| Routing.Router.CfWorker | rust/src/proxy.rs:814-908 | pool, then every Worker of the order not in cooldown, tunnelling to the built-in address |
| Routing.Router.CfProxy | rust/src/proxy.rs:919-980 | pool, then the whole record walk, and no cooldown |
| Routing.Router.UpstreamProxies | rust/src/proxy.rs:983-1029 | every upstream proxy in order that is not in cooldown |
| Routing.Router.Settle | rust/src/proxy.rs:1054-1078 | a finished direct or fronted attempt changes the failure memory as its event says, and keeps the history honest |
| Routing.Router.ReactiveFronting | rust/src/proxy.rs:1107-1142 | nothing unless the upgrade stalled and fronting is configured, then one fronted retry or a skip that the memory justifies |
| Routing.Router.CoolDown | rust/src/proxy.rs:1085-1096 | the DC backs off by the kind of failure, and the address only for a connect timeout of a dial judged outside the DC's cooldown, made on the full timeout |
| Routing.Router.DirectWs | rust/src/proxy.rs:1033-1096 | one direct attempt: first dial, fronted retry and give-up in the order of the rules, recorded as an honest history |
| Routing.Router.FirstDial | rust/src/proxy.rs:1033-1048 | the first dial is fronted and judged as the memory says at its reads; judged outside the DC's cooldown it runs on the full timeout |
| Routing.Router.ConnectWs | rust/src/proxy.rs:1144-1163 | the timeout is the probe's exactly while the DC's cooldown runs, and the flags describe the answers on that timeout |
| Routing.Router.CfTiers | rust/src/proxy.rs:748-760 | the Worker tunnel first, then the Cloudflare proxy, each with its own framing |
| Routing.Router.FallbackChain | rust/src/proxy.rs:733-739 | Cloudflare tiers unless already tried, then the upstream proxies |
| Routing.Router.SelectUpstream | rust/src/proxy.rs:619-725 | the rungs are visited in the configured order; raw TCP comes only after all of them, nothing only without any address; an address that stays cooling is not dialled before the fallbacks |
| Routing.AddressCooling | rust/src/proxy.rs:1033-1096 | in every state reached by connections one after the other an address is cooling exactly while a suspicion stands; behind it is a full-timeout dial outside the DC's cooldown that timed out, with no success on the address since |
| Routing.SkippedForAFailure | rust/src/proxy.rs:850-905 | a Worker or upstream proxy is only skipped for a failed dial within its cooldown |
| Routing.StickyWindow | rust/src/runtime.rs:65-78 | a first direct dial is fronted exactly while the last word on fronting is a success within its window, and the stored window is that one |
| Routing.ConnectionRetries | rust/src/proxy.rs:1107-1142 | in every reachable state: a failed unfronted dial is retried with fronting exactly when its upgrade stalled, fronting is configured and the DC's last fronted dial did not fail within its cooldown, and its address is suspected exactly when a TCP connect timed out and the DC was not backing off |
| HttpBody.ReadMore | rust/src/default_domains/http.rs:272-289 | one more nonempty piece within the limit, or nothing at the limit or the end |
| HttpBody.ReadUntilHeaders | rust/src/default_domains/http.rs:102-121 | the headers end at the first blank line of the first 64 KiB, however the stream is cut |
| HttpBody.ReadContentLengthBody | rust/src/default_domains/http.rs:160-176 | exactly the declared bytes, or an error when there are fewer or too many |
| HttpBody.ReadUntilEofLimited | rust/src/default_domains/http.rs:248-270 | the whole stream if it is within 256 KiB |
| HttpBody.ReadChunkTrailers | rust/src/default_domains/http.rs:221-246 | success exactly when the trailers end at a blank line of the visible stream and no read lands between the limit of 64 KiB and that end |
| HttpBody.ReadChunkedBody | rust/src/default_domains/http.rs:178-219 | for every stream and every cut of it: exactly what the one-shot decoder and the landing of the reads decide |
| HttpBody.CutsDecide | rust/src/default_domains/http.rs:178-246 | a decodable body is accepted in every cut if and only if its trailers are within 64 KiB, and in some cut if and only if they exceed that by less than one read |
| HttpBody.TrailersDependOnTheCut | rust/src/default_domains/http.rs:221-246 | a body accepted in one cut of its stream and refused in another |
| HttpBody.ParseMonotone | rust/src/default_domains/http.rs:178-219 | bytes that arrive later never change a verdict already reached |
| HttpBody.HexSizesAreRead | rust/src/default_domains/http.rs:193-203 | any hexadecimal digits within the integer width are read as their value, with a plus sign, blanks around and any extensions |
| HttpBody.RoundTrip | rust/src/default_domains/http.rs:178-246 | every encoding that fits decodes to its payloads, and a stream cut before its end never does |
| HttpBody.HexBodyRoundTrip | rust/src/default_domains/http.rs:178-246 | the same for the decoder's own size reader: payloads announced in hexadecimal with any extensions and trailers come back |

## Left out

- WritesReadBack: zero-length Application Data records are outside its domain, because the reader reports them as the end of the stream (EmptyRecordEnds says so).
- HexSizesAreRead: trimming of white space outside ASCII around a chunk size is not modelled; the chunked theorems hold for any size-line reader.
- Handle: one connection over a WebSocket, HandleTcp one over raw TCP and HandleUpstream one over an upstream proxy, each given its upstream; which of them the router picks is SelectUpstream's statement.
- SelectUpstream: the host a balanced spare is opened through is only stated to be a configured one.
- AddressCooling: stated for connections handled one after the other, because the DC cooldown is read twice around a dial and another connection may set it in between.
- FdsFitExactly: covers the automatic cap and the direct pool; an explicit connection cap is only warned about, and the Cloudflare pool is outside this budget.
- AES, SHA-256, HMAC and randomness are arbitrary functions and inputs; no secrecy is claimed, nor that a wrong key is refused.
- The rejection loops of the handshake generators run over a finite list of draws; that they end with probability one is not stated.
- A read error counts as the end of the stream; time-outs appear only as dial outcomes.
- Sockets, TLS, the WebSocket upgrade and the fairness of task scheduling are not part of the model; bytes a FakeTLS read had taken off the socket when it was aborted count as unread.
- The TCP connect to an upstream MTProto proxy and the parsing of its secret string come before `ConnectMtprotoUpstream`.
- Which messages the WebSocket library hands out, and the closing frame behind an upload, are not part of the model.
- The capacity of a grown vector is any sufficient one.
- Response status, header parsing, the Content-Length and Transfer-Encoding fields and the final UTF-8 check of a fetched list.
- Deobfuscation and parsing of the domain list, secret and link formats, command line, logging and byte counters: single-expression code.
