# A verified model of PixTorrent

PixTorrent is a peer-to-peer file sharing program in Go. This project models its four cores in Dafny and proves what
they keep and what they promise: the exchange of pieces between any number of nodes, the swarm and piece store of one
node, the bencode decoder with the info dictionary of a torrent, and the tracker's memory storage.

`dafny verify dfyconfig.toml` checks everything.

## How it is built

The source changes state in place, so its objects are classes whose methods do what the Go methods do, loop for loop;
each method is proved against a function or relation on values, and the properties are proved of those.

| files | what they model |
|---|---|
| `Bytes`, `Bitfields`, `Collections`, `Decimals`, `ByteOrder` | bytes, big-endian numbers, bitfields (most significant bit first), `%d` printing and scanning, the order of strings by their bytes |
| `PieceManager`, `Swarm`, `Sorting`, `Rarity`, `Unchoking`, `PeerState` | the piece store, the swarm's tables, rarest-first selection, the unchoke algorithm, rate accounting |
| `Messages`, `Framing` | peer messages, their payload bytes, length-prefixed frames over a stream, the outbox and write loop of a connection, the frame reader |
| `Node`, `NodeInvariant`, `NodeSteps`, `NodeRuns`, `NodeOutputs`, `NodeLedger`, `NodeExamples` | one node as a step machine with the history of every connection, its invariant, the proof that each step keeps it, what that says of every run, what each step sends, what the counters count, and runs that show where a condition is needed |
| `Network` | any number of such nodes joined by FIFO connections |
| `TorrentServer`, `Seeding` | the message handlers and event loop as methods that end where steps of the machine lead (`TaskCanFinish`) and keep its invariant; the seeder, and end-to-end integrity |
| `Bencode`, `Grammar`, `Decoder`, `InfoDict`, `Torrent` | the bencode decoder as functions and as a consuming reader, the canonical encoding, the grammars both are measured against, the info dictionary's printer and parsers |
| `TrackerStore`, `MemoryStorage` | the tracker's store as a function of its history; the storage and the announce handler as methods |

## Assumptions

* A connection is a FIFO channel, there is at most one connection between two nodes, and peer ids are unique.
  `Framing.ConnectionIsFifo` and `Framing.TCPPeer.WriteLoop` say what the source contributes to the first.
* In the step machine sends succeed: outboxes have room, as `Room` and `Accepts` state for the handlers, and the
  channel of received messages is never full. A message is read only once its peer is registered.
* A torrent has at most 2^32 pieces and a payload is shorter than 2^32 bytes, so that an index and a length fit the
  four bytes they are sent in (`NodeRuns.SentFits`, `Framing.ConnectionIsFifo`).
* SHA-1 is a parameter. Where collisions matter, the hypothesis is that the data at hand do not collide: the messages
  of the run, or the two encodings compared.
* One unchoke round, and one handler that answers only its sender, is one step. Handling a received piece is split:
  the piece is added, the snapshot of the peers is taken, each send is a step, and peers join in between.
* A clock reading is a parameter of each call that takes one. Random choices are free choices. `sort.Slice` is an
  insertion sort whose comparator may answer ties either way each time it is asked; that the other algorithm Go uses on
  slices longer than about a dozen elements also sorts by key under such answers is assumed.
* A peer id is the number its 20 bytes spell. Bencoded text is a string with one character per byte.

## Where the code does less than one may expect

Each of these is stated exactly, as the condition under which the expected property holds, or with the input that
shows it fails.

* Not every unchoked peer is interested: `Unchoking.UnchokedAreInterestedIff`, and a run that shows it,
  `NodeExamples.UninterestedUnchokedExample`.
* A node without piece hashes announces pieces past the end that it could not store: `NodeRuns.AnnouncedIsHeldIff`
  and `Network.TruthfulKnowledge` say exactly which announcements are true, `Network.QuiescentAgreement` when the
  record of such a node is its bitfield; `NodeExamples.UntruthfulHaveExample` and
  `NodeExamples.RecordShrinksExample` are runs where it is not.
* An info dictionary of an empty single file does not survive its own encoding: `InfoDicts.InfoRoundTripIff`.
* The info hash of a parsed torrent is the hash of its info bytes only if those are canonical and nothing is dropped:
  `InfoDicts.ReencodingIsExact`, `InfoDicts.ForeignKeyExample`.
* Leaving one torrent unlists a peer everywhere, and its next announce anywhere lists it again in torrents it never
  returned to: `TrackerStores.RemovalUnlistsEverywhere`, `TrackerStores.ReturnRestoresMemberships`.

## Model

| member | source | states |
|---|---|---|
| Network.RunAgreement | torrent_server/server.go:101-204 | in every run of any number of nodes, with or without piece hashes: a piece of the torrent that y once recorded for x stays on record and is held by x at every later state; and whenever x is idle and all it sent y has arrived, y's record says of each piece whether x holds it, y knows whether x chokes it, and if x checks hashes the record is x's bitfield byte for byte |
| Network.RunKeeps | torrent_server/server.go:101-204 | every state of every run keeps every node's invariant and FIFO order |
| Network.QuiescentAgreement | p2p/swarm.go:72-97 | with x idle and the channel from x to y drained, y's record of x has the size of x's bitfield and agrees with it on every piece; it is the same byte for byte exactly when no Have past the last piece came after x's last bitfield, so always with hashes or a piece count divisible by eight |
| Network.PaddingIsLateHave | p2p/swarm.go:311-315 | a bit past the last piece is on record exactly when a Have that no later bitfield follows named it |
| Network.RecordsOnlyGrow | p2p/swarm.go:292-316 | no step of any node takes away a bit y has on record for x, if x checks hashes or the bit is that of a piece |
| Network.TruthfulKnowledge | torrent_server/handler.go:191-232 | of the pieces that x's messages name to y, that y records for x, waits to ask x for or has asked x for, x holds exactly those in range, and all of them if it checks hashes |
| Network.RequestsAreServed | torrent_server/handler.go:58-88 | a request that reaches an unchoking node is answered with the piece, also without hashes if the asking node has no more pieces in its torrent: "piece not found" cannot happen |
| Network.AsksInRange | torrent_server/handler.go:16-36 | what a node asks for, or waits to ask for, is in the range of its own torrent |
| Network.ChokeMirror | torrent_server/server.go:182-204 | once drained, the remote's PeerChoking is the sender's AmChoking, and what was sent alternates Unchoke and Choke |
| Network.WaitingNodesCompete | torrent_server/handler.go:204-232 | a node that waits for x to unchoke it counts, once drained, as interested at x |
| Network.AsksOnlyForTold | torrent_server/handler.go:204-232 | a node's record of a peer, its pending requests to it and its requests name only pieces that peer told it of |
| Network.RecordIsTold | p2p/swarm.go:292-316 | the record made from an honest history has the announcer's size and, of its pieces, exactly the bits the history tells |
| Network.RecordedIsTold | p2p/swarm.go:292-316 | every recorded bit was told by a Bitfield or Have |
| Network.StepKeepsFifo | p2p/tcp_transport.go:36-70 | what a node has received from another stays a prefix of what that one sent it |
| Network.StepExtends | torrent_server/server.go:113-161 | a step only appends to what was sent and received |
| Network.NetStepKeeps | torrent_server/server.go:101-204 | one step of one node keeps every node's invariant |
| Network.RecordsGrowOverRun | p2p/swarm.go:292-316 | between any two states of a run no recorded bit of a piece is lost |
| NodeSteps.StepKeeps | torrent_server/server.go:113-204 | every step of a node keeps its invariant, whatever messages its peers send |
| NodeSteps.FreshIsOk | p2p/swarm.go:29-38 | a node without peers satisfies the invariant |
| NodeSteps.AnswerKeeps | torrent_server/server.go:124-161 | delivering any message but a verified piece keeps the invariant |
| NodeSteps.PieceKeeps | torrent_server/handler.go:130-147 | accepting a piece keeps the invariant, leaving the announcement owed to every peer |
| NodeSteps.JoinKeeps | p2p/swarm.go:72-97 | a peer joining at any moment, also in the middle of a broadcast, keeps the invariant |
| NodeSteps.RoundKeeps | torrent_server/server.go:182-204 | an unchoke round and its messages keep the invariant |
| NodeSteps.ProgressKeeps | torrent_server/handler.go:147-202 | each send of a broadcast, and each move to the next part of handling a piece, keeps the invariant |
| NodeSteps.AnswerIsHonest | torrent_server/handler.go:58-88 | what a handler sends back is honest about the pieces held, and a piece goes only to an unchoked peer |
| NodeSteps.PendingIsTold | torrent_server/handler.go:16-36 | what a bitfield leaves pending is what the peer told of |
| NodeSteps.HandlerTracks | torrent_server/server.go:124-161 | record and flags follow each message received |
| NodeRuns.NodeRunKeeps | torrent_server/server.go:101-204 | every run of one node, against any peers, keeps the node invariant |
| NodeRuns.NoLostAnnouncement | p2p/swarm.go:72-108 | however joins interleave with handling a piece, a peer's first message is a Bitfield, and once the node is idle every held piece has been told to every peer |
| NodeRuns.UploadsAreBounded | p2p/swarm.go:206-290 | at most four peers are unchoked in every reachable state, Unchoke and Choke alternate, and every piece ever sent went out while its receiver was unchoked |
| NodeRuns.AnnouncedIsHeldIff | torrent_server/handler.go:138-147 | an accepted piece is held when it is announced exactly when hashes are checked or its index is in range |
| NodeExamples.UntruthfulHaveExample | torrent_server/handler.go:145-147 | a run of a complete node without hashes: its one peer sends it a piece past the end, it announces that piece, and the record of it differs from its bitfield when it is idle again |
| NodeExamples.RecordShrinksExample | torrent_server/handler.go:145-187 | a run of an incomplete node without hashes after which the bitfield it sends takes back a bit its Have had set |
| NodeExamples.UninterestedUnchokedExample | p2p/swarm.go:254-258 | a run that ends in an unchoke round which leaves a peer unchoked that has said it is not interested |
| NodeRuns.StoredWasDelivered | torrent_server/handler.go:130-147 | every piece a node holds after a run it started with or some message of the run brought |
| NodeRuns.SentFits | torrent_server/handler.go:191-202 | with at most 2^32 pieces, every message a node ever sends has an index that fits its four bytes |
| NodeRuns.SentArrivesInOrder | p2p/encoding.go:21-58 | after any run, whatever prefix of the bytes framed for a peer arrives parses to a prefix of the messages sent to it |
| NodeOutputs.OfferedIsAsked | torrent_server/handler.go:204-232 | over every run: when an Unchoke follows a bitfield that offered something missing, with no other such bitfield or Unchoke from the peer in between, every piece it offered that the node then lacked has a request in what is sent to the peer |
| NodeOutputs.UnchokeAsksInOrder | torrent_server/handler.go:210-232 | an Unchoke sends its sender exactly one request for each pending piece, the k-th for the k-th, leaves nothing pending, and sends nobody else anything |
| NodeOutputs.BitfieldAnswered | torrent_server/handler.go:12-37 | a bitfield is recorded; Interested is sent and exactly the missing pieces it offers are left pending if there are any, and otherwise nothing is sent and what was pending stays |
| NodeOutputs.RequestAnswered | torrent_server/handler.go:58-88 | a request makes the node send its sender that piece exactly when it is unchoked and the piece held, and nothing otherwise |
| NodeOutputs.NotAnswered | torrent_server/server.go:124-161 | every other message is answered with nothing |
| NodeOutputs.RoundSends | torrent_server/server.go:182-204 | a round sends a peer Choke or Unchoke if its flag changed that way, and nothing otherwise |
| NodeOutputs.BroadcastSends | torrent_server/handler.go:183-202 | each part of a broadcast sends its message to the peer it turns to and to no other |
| NodeLedgers.TotalsAreHistory | torrent_server/handler.go:58-88 | after any run a peer's upload total is the data of the pieces sent to it and its download total the data of the verified pieces from it |
| NodeLedgers.OnlyRoundsClose | p2p/peer_state.go:69-85 | no step but a round changes a peer's rates, snapshots or window, the round number or the optimistic peer |
| NodeLedgers.RoundsAreCounted | p2p/swarm.go:210-241 | after any run the round number is the number of rounds, so every third round picks anew |
| NodeLedgers.JoinStarts | p2p/peer_state.go:25-31 | a peer that joins counts from nothing, is choked both ways, and its window starts then |
| Seeding.EndToEndIntegrity | cmd/seed.go:46-69 | after any run in which no message brings other data with the digest of a seeded piece, a download with the seeder's hashes holds only seeded pieces, and reassembles exactly when it counts all received, to exactly the seeded bytes |
| Seeding.SeededAssemble | torrent_server/handler.go:116-128 | a store of seeded pieces reassembles, to the data, exactly when its count is the number of pieces |
| Seeding.PiecesAssemble | cmd/seed.go:62-69 | the first k pieces put together are the data up to the end of the k-th |
| Seeding.VerifiedIsSeeded | p2p/piece_manager.go:38-60 | data verifies against the seeder's hashes exactly when it is the seeded piece or has its digest |
| Seeding.HashPieces | cmd/seed.go:47-58 | the hash loop fills the digests of all pieces in order |
| Seeding.RunSeed | cmd/seed.go:60-69 | the seeder's store holds exactly the pieces of the data, with their hashes |
| TorrentServers.TorrentServer.HandleRPC | torrent_server/server.go:115-161 | one turn of the loop takes the node to the step machine's state for that message, its task run to the end, and keeps the node invariant |
| TorrentServers.TorrentServer.Dispatch | torrent_server/server.go:121-161 | each arm of the switch does what the machine's handler does; short payloads and unknown types do nothing |
| TorrentServers.TorrentServer.HandleBitfieldAnnouncement | torrent_server/handler.go:12-37 | the bitfield goes on record; if some piece is missing Interested is sent and a rarest-first order is left pending |
| TorrentServers.TorrentServer.HandlePieceRequest | torrent_server/handler.go:58-88 | the piece is sent and counted exactly when the peer is unchoked, known, and the piece is held |
| TorrentServers.TorrentServer.HandlePiece | torrent_server/handler.go:130-189 | a verified piece is stored, counted and announced, then a bitfield is sent to all while pieces are missing; a short or wrong one changes nothing |
| TorrentServers.PieceAnnounced | torrent_server/handler.go:143-189 | a verified piece is told to every peer with a Have, followed by the bitfield of all pieces now held exactly while some are missing |
| TorrentServers.TorrentServer.AnnouncePiece | torrent_server/handler.go:147-202 | every peer is sent the Have, and then the bitfield unless all pieces are there |
| TorrentServers.TorrentServer.SendPendingRequests | torrent_server/handler.go:210-232 | the pending requests go out in order and are forgotten |
| TorrentServers.TorrentServer.OnPeer | p2p/swarm.go:72-97 | a new peer is registered and its outbox starts with our bitfield; the node invariant is kept |
| TorrentServers.TorrentServer.RunUnchokeRound | torrent_server/server.go:182-204 | each peer is sent one Choke or Unchoke if the round changed its flag and nothing otherwise; the node invariant is kept |
| TorrentServers.TorrentServer.SentParsesBack | torrent_server/server.go:116-161 | everything the server has sent is parsed back by its receiver |
| TorrentServers.TorrentServer.Drain | p2p/tcp_transport.go:56-70 | the write loop makes room in an outbox, and nothing else changes |
| TorrentServers.TorrentServer.ReconstructData | torrent_server/handler.go:116-128 | the pieces in order, or nothing when one is missing |
| TorrentServers.ProgressTowardsFinish | torrent_server/handler.go:191-202 | whatever order a broadcast serves the peers in, its steps lead to the same end |
| TorrentServers.UninterruptedTaskFinishes | torrent_server/handler.go:130-189 | the split steps of handling a piece, taken without a join in between, end where the handler ends |
| TorrentServers.TaskCanFinish | torrent_server/handler.go:130-189 | from every state there are steps of the task, each enabled, that lead to where the handler ends |
| TorrentServers.HandledKeeps | torrent_server/server.go:115-161 | handling any message of a registered peer to the end keeps the node invariant |
| TorrentServers.ActionsAreNotices | torrent_server/server.go:182-204 | sending a message for each action sends each peer the notice of its changed flag |
| Unchoking.RoundUnchokes | p2p/swarm.go:206-276 | after a round exactly the top peers and the optimistic one, if known, are unchoked, so at most four |
| Unchoking.RerollFillsSlots | p2p/swarm.go:241-258 | a reroll with at least four interested peers and no all-zero id unchokes exactly four |
| Unchoking.UnchokedAreInterestedIff | p2p/swarm.go:241-258 | after a round all unchoked peers are interested exactly when, before it, the optimistic peer is unset, unknown or interested, or the round is a third one with at least four interested peers |
| Unchoking.ChokedAreOutranked | p2p/swarm.go:210-239 | an interested peer stays choked only if every unchoked peer but the optimistic one has sent us at least as many bytes per second in the window the round closes, in at least three slots |
| Unchoking.BusierIsKept | p2p/swarm.go:210-239 | over windows of the same length no choked peer has sent us more bytes than a kept one |
| Unchoking.RoundMeters | p2p/swarm.go:212-214 | a round closes every window at least a second old: snapshots catch up with totals, the rate times the window is what was gained in it; other windows and all totals stay |
| Unchoking.JoinTakesNoSlot | p2p/swarm.go:83-84 | a peer that joins starts choked |
| Swarms.Swarm.RunUnchokeAlgorithm | p2p/swarm.go:206-276 | the algorithm performs one round and returns one action for each flag it changed |
| Swarms.Swarm.PickTop | p2p/swarm.go:216-239 | min(3, interested) interested peers whose rates no other interested peer exceeds |
| Swarms.Swarm.RankInterested | p2p/swarm.go:216-228 | each interested peer once, by falling download rate |
| Swarms.Swarm.PickOptimistic | p2p/swarm.go:241-252 | the optimistic peer becomes some choked interested peer on a reroll with a candidate, and stays otherwise |
| Swarms.Swarm.Rechoke | p2p/swarm.go:260-275 | AmChoking is set by the choice for every peer, with an action exactly where it changed |
| Swarms.Swarm.UpdateAllRates | p2p/swarm.go:212-214 | every peer's window that is at least a second old is closed, at its own clock reading |
| Swarms.SortedRankingTop | p2p/swarm.go:226-239 | the first three of a ranking sorted by falling rate are a top |
| Swarms.Swarm.GetRarestMissingPieces | p2p/swarm.go:323-374 | the missing pieces the bitfield offers, each once, in non-decreasing availability |
| Swarms.Swarm.CountAvailability | p2p/swarm.go:327-338 | for each piece, the number of recorded bitfields with its bit |
| Swarms.Swarm.Candidates | p2p/swarm.go:340-359 | exactly the pieces not held that the bitfield has, with their counts |
| Rarity.RarestOrderPermutesMissing | p2p/swarm.go:361-373 | the rarest-first result is a permutation of MissingPieces on the same bitfield |
| Rarity.RecordedPiecesAreAvailable | torrent_server/handler.go:16-18 | asked for a recorded bitfield, every piece in the result has availability at least one |
| Rarity.AnnouncementsRebuildRecord | p2p/swarm.go:300-316 | a peer without a record that announces its pieces, in any order and with repeats, ends with its own bitfield on record, and no other record changes |
| Swarms.Swarm.AddPeer | p2p/swarm.go:40-50 | a new peer is added with a fresh state; a known one changes nothing |
| Swarms.Swarm.RemovePeer | p2p/swarm.go:52-63 | a known peer leaves all three tables |
| Swarms.Swarm.OnPeer | p2p/swarm.go:72-97 | a new peer is registered with the bitfield as its first message, a duplicate is refused, and one that cannot be sent to is dropped again |
| Swarms.Swarm.Peers | p2p/swarm.go:99-108 | every peer once, in some order |
| Swarms.Swarm.Drain | p2p/tcp_transport.go:56-70 | the peer's queue is shorter by what its writer took |
| Swarms.Swarm.Close | p2p/swarm.go:110-118 | no peer remains; states stay behind, so state keys only contain the peer keys from then on |
| Swarms.Swarm.SetPeerInterested | p2p/swarm.go:169-175 | the flag of a known peer is set and nothing else changes |
| Swarms.Swarm.SetPeerChoking | p2p/swarm.go:177-183 | the flag of a known peer is set and nothing else changes |
| Swarms.Swarm.RecordUpload | p2p/swarm.go:185-191 | the bytes are added to a known peer's upload total |
| Swarms.Swarm.RecordDownload | p2p/swarm.go:193-199 | the bytes are added to a known peer's download total |
| Swarms.Swarm.IsChoking | p2p/swarm.go:283-290 | everyone but the unchoked known peers is choked |
| Swarms.Swarm.UpdatePeerBitfield | p2p/swarm.go:292-298 | the record becomes the bitfield; other records stay |
| Swarms.Swarm.SetPeerHasPiece | p2p/swarm.go:300-316 | the piece's bit is set in the record, in a blank bitfield for a peer without one, and past the end nothing happens; other records stay |
| Sorting.SortSlice | p2p/swarm.go:361-367 | sorted by key and a permutation, although ties are answered at random |
| Sorting.SinkLast | p2p/swarm.go:361-367 | inserting one element into the sorted part keeps it sorted and permutes the slice |
| PieceStore.PieceManager.VerifyPiece | p2p/piece_manager.go:38-60 | true without hashes; otherwise exactly when the index is in range, its digest is listed and it is the data's |
| PieceStore.PieceManager.AddPiece | p2p/piece_manager.go:70-82 | an in-range piece that is not held is stored; anything else is an error that changes nothing |
| PieceStore.PieceManager.GetPiece | p2p/piece_manager.go:62-68 | the stored data, if any |
| PieceStore.PieceManager.Bitfield | p2p/piece_manager.go:84-99 | the one bitfield of its size with exactly the bits of the held pieces |
| PieceStore.PieceManager.MissingPieces | p2p/piece_manager.go:101-121 | ascending, exactly the pieces the bitfield has and the store has not |
| PieceStore.PieceManager.AllPiecesReceived | p2p/piece_manager.go:133-137 | counting the pieces decides whether every index is held |
| PieceStore.MissingFromBitfield | p2p/piece_manager.go:101-121 | against another node's bitfield, the missing pieces are its pieces minus ours |
| Bitfields.BitfieldOfBits | p2p/piece_manager.go:88-97 | the bitfield has (n + 7) / 8 bytes and bit j exactly when piece j is held and j < n |
| Bitfields.BitfieldOfUnique | p2p/piece_manager.go:84-99 | bytes of that size with exactly those bits are the bitfield |
| Bitfields.AnnouncementsRebuildBitfield | p2p/swarm.go:300-316 | setting announced pieces in any order, with repeats, in a blank bitfield gives the announcer's bitfield |
| Bitfields.SetBitHasBit | p2p/swarm.go:311-315 | setting a bit sets that bit only, and none past the end |
| Bitfields.MaskValue | p2p/piece_manager.go:94 | the first piece of each byte is its most significant bit |
| Bitfields.SizeIsLeast | p2p/piece_manager.go:88 | a bitfield has the fewest bytes that hold a bit for each piece |
| PeerStates.RatesTelescope | p2p/peer_state.go:57-85 | over any sequence of counts and updates, rate times window length summed over committed windows is what the snapshot gained |
| PeerStates.SnapshotBehind | p2p/peer_state.go:57-85 | the snapshot never decreases and never exceeds the total |
| PeerStates.CommitCatchesUp | p2p/peer_state.go:79-84 | a commit brings the snapshot up to the total: with it the rates account for every byte moved |
| PeerStates.TotalCounts | p2p/peer_state.go:57-67 | the total counts exactly the bytes moved |
| PeerStates.UpdateIsCommit | p2p/peer_state.go:69-85 | what an update does to both counters, said of the window that has passed |
| PeerStates.PeerState.UpdateRates | p2p/peer_state.go:69-85 | a call under one second after the last commit changes nothing; any other commits both windows |
| PeerStates.PeerState.AddUploaded | p2p/peer_state.go:57-61 | only the upload total grows |
| PeerStates.PeerState.AddDownloaded | p2p/peer_state.go:63-67 | only the download total grows |
| Messages.PayloadRoundTrip | torrent_server/server.go:116-161 | a message is parsed back from its payload exactly when its index fits four bytes |
| Messages.ParsedFits | torrent_server/server.go:136-146 | whatever the bytes, a parsed index is below 2^32 |
| Messages.TypeBytes | p2p/rpc.go:3-12 | each message is sent with its type byte and a byte of that type is understood as it |
| Messages.IgnoredIff | torrent_server/server.go:131-161 | exactly the payloads of unknown type, or too short for their index, are passed over |
| Messages.Get32Weights | torrent_server/server.go:136 | the first of the four bytes of an index counts most |
| Framing.ConnectionIsFifo | p2p/encoding.go:21-58 | a stream of framed messages cut anywhere parses to a prefix of them, and uncut to all of them exactly when none exceeds the maximum length |
| Framing.CutStreamDelivers | p2p/encoding.go:21-58 | a cut stream delivers exactly the payloads before the first that is too long or not within the cut, then an error |
| Framing.StreamDeliversIff | p2p/encoding.go:44-46 | an uncut stream delivers its list and then io.EOF exactly when no payload exceeds the maximum length, also if a length wraps around in its prefix |
| Framing.DeliveredReadable | p2p/encoding.go:44-46 | whatever the bytes, no payload over the maximum length is delivered |
| Framing.ArrivingFit | p2p/encoding.go:21-58 | the payloads delivered are readable and fit the cut, and the next one is too long or does not fit |
| Framing.TCPPeer.Send | p2p/tcp_transport.go:36-54 | one frame is queued unless the peer is closed or its outbox is full |
| Framing.TCPPeer.WriteLoop | p2p/tcp_transport.go:56-70 | whatever the sizes of partial writes, the connection carries the frames of all accepted messages in order, up to a write error, and each buffer taken makes room in the outbox |
| Framing.TCPPeer.WriteNext | p2p/tcp_transport.go:57-67 | the oldest buffer leaves the queue for the connection |
| Framing.TCPPeer.Write | p2p/tcp_transport.go:58-67 | one buffer is written whole, or a prefix of it before an error |
| Framing.BinaryDecoder.Decode | p2p/encoding.go:21-58 | one frame: its payload, io.EOF between frames or right after the length, any other error otherwise |
| Framing.BinaryDecoder.ReadLoop | p2p/tcp_transport.go:215-231 | the read loop delivers what the stream holds and ends with its error |
| Bencode.RoundTripIff | meta/bencode.go:41-184 | for every node and tail, decoding the canonical encoding followed by the tail gives the node and leaves the tail, exactly when integers and lengths fit 64 bits |
| Grammars.DecodeIff | meta/bencode.go:41-184 | the decoder takes exactly the texts of its grammar: integers and lengths as fmt scans them, keys in any order and repeated; it decodes a node and leaves a rest when what is before the rest is a text of the node |
| Grammars.CanonicalIff | meta/torrent.go:110-165 | the encoding is the only canonical text of a node: every integer and length in shortest form, keys strictly increasing, as the "bencoding" section of BEP 3 requires |
| Bencode.RoundTrip | meta/bencode.go:41-184 | bencode is self-delimiting: the encoding of a node followed by anything decodes to it and leaves the rest |
| Bencode.DecodeEncodeDecode | meta/bencode.go:41-184 | encoding what was decoded and decoding again gives the same node |
| Bencode.EncodeInjective | meta/bencode.go:41-184 | different nodes have different encodings, even with anything after them |
| Bencode.DecodeLocal | meta/bencode.go:41-184 | a successful decode consumes a non-empty prefix and gives the same node for any continuation |
| Bencode.PrefixFree | meta/bencode.go:41-184 | no accepted encoding is a proper prefix of another |
| Bencode.DecodedFits | meta/bencode.go:74-106 | everything decoded has 64-bit integers and lengths |
| Bencode.LastDuplicateWins | meta/bencode.go:149-184 | of entries with the same key the last is kept |
| Bencode.EntryIsLastPair | meta/bencode.go:180 | every kept entry is the last pair with its key |
| Bencode.StringRoundTrip | meta/bencode.go:81-107 | a string is read back from its length, a colon and its bytes, leaving the rest |
| Bencode.IntRoundTrip | meta/bencode.go:62-79 | an encoded integer decodes to itself if it fits 64 bits and to an error otherwise |
| Decimals.ScanFormat | meta/bencode.go:74-77 | scanning a printed number gives it back exactly when it fits 64 bits |
| Decimals.FormatIsNumeral | meta/torrent.go:117-158 | what %d prints is the one numeral of the integer, with no zero in front |
| Decimals.NumeralUnique | meta/torrent.go:117-158 | a numeral without a zero in front is what is printed for its magnitude |
| Decimals.ReadsScan | meta/bencode.go:74-77 | blanks, a sign or none, digits with or without zeros in front, and anything behind scan as the number they spell |
| Decimals.ScanReads | meta/bencode.go:74-77 | everything that scans has that form |
| Decimals.ScanUnsigned | meta/bencode.go:96-101 | a length that scans is not negative, as its first character is a digit |
| Decoders.Decoder.Decode | meta/bencode.go:41-60 | the reader computes the decode function and keeps exactly what it leaves, also on errors |
| Decoders.Decoder.ParseInt | meta/bencode.go:62-79 | as the integer parser, for value and rest |
| Decoders.Decoder.ParseString | meta/bencode.go:81-107 | as the string parser, for value and rest |
| Decoders.Decoder.ParseList | meta/bencode.go:109-147 | the loop with its own dispatch gives the items that Decode would, one after the other |
| Decoders.Decoder.ParseDict | meta/bencode.go:149-184 | the map of the entries, later ones replacing earlier ones |
| ByteOrder.SortedUnique | meta/torrent.go:110-165 | a set of keys has only one strictly increasing listing |
| InfoDicts.InfoRoundTripIff | meta/torrent.go:167-225 | an info survives encoding and parsing exactly when private is not negative and it has a positive length and no files, or length zero and some files |
| InfoDicts.ParseOfNode | meta/torrent.go:200-222 | what parsing an encoded info gives in every case |
| InfoDicts.InfoOfIff | meta/torrent.go:167-266 | a dictionary parses to an info exactly when each field reads as it, path by path and file by file |
| InfoDicts.InfoBytesRoundTrip | meta/torrent.go:110-165 | the encoding of an info, followed by anything, decodes to the node it stands for |
| InfoDicts.InfoKeysSorted | meta/torrent.go:113-159 | the keys are written strictly increasing by their bytes, whatever fields are present, as the "bencoding" section of BEP 3 requires |
| InfoDicts.EncodingKernel | meta/torrent.go:110-165 | two infos have the same encoding exactly when they agree after clamping negative length and private to zero |
| InfoDicts.InfoHashKernel | meta/torrent.go:98-108 | with no collision on the two encodings, the same holds of their info hashes |
| InfoDicts.ReencodingIsExact | meta/torrent.go:94-108 | encoding what was parsed gives the original info bytes exactly when those are canonical and parsing drops nothing |
| InfoDicts.ForeignKeyExample | meta/torrent.go:94-108 | an accepted info dictionary with a key of its own, which parses but encodes to other bytes |
| InfoDicts.ParsedInRange | meta/torrent.go:167-266 | what is parsed from decoded values has 64-bit fields |
| Torrents.EncodeInfoDict | meta/torrent.go:110-165 | the printer writes the canonical encoding of the info's node |
| Torrents.PrintedExample | meta/torrent.go:110-165 | the bytes printed for the smallest single-file info |
| Torrents.EncodeFiles | meta/torrent.go:117-133 | the loops over files and path components write the canonical list of files |
| Torrents.CalculateInfoHash | meta/torrent.go:98-108 | the hash of the canonical encoding |
| Torrents.ParseInfoDict | meta/torrent.go:167-225 | the parser fills in what its specification says, a length hiding the files, and fails on missing or ill-typed fields |
| Torrents.ParseFileList | meta/torrent.go:227-266 | all files in order, or an error if one entry is bad |
| Torrents.ParseOptionalInt | meta/torrent.go:296-302 | the target changes only if the key holds an integer |
| TrackerStores.ListedIff | tracker/memory_storage.go:29-190 | after any history a torrent lists a peer exactly when the last operation about it in that torrent, and the last one in any torrent, was an add |
| TrackerStores.ExpiresIff | tracker/memory_storage.go:174-190 | a cleanup drops a peer exactly when, in the history before it, the last operation about the peer was an add and the last add or sighting was before the cutoff |
| TrackerStores.RecordedIff | tracker/memory_storage.go:29-57 | a peer has a record exactly when the last operation about it anywhere was an add |
| TrackerStores.MemberIff | tracker/memory_storage.go:37-54 | a peer is a member of a torrent exactly when the last operation about it there was an add |
| TrackerStores.RecordIsLatest | tracker/memory_storage.go:35 | a record is the last add's, from whatever torrent, with the time of the last add or sighting |
| TrackerStores.DownloadsAreCompletions | tracker/memory_storage.go:155-162 | after any history the count of a torrent is the number of its completed downloads, whatever else happened |
| TrackerStores.RemovalUnlistsEverywhere | tracker/memory_storage.go:45-57 | leaving one torrent takes a peer out of every list |
| TrackerStores.ReturnRestoresMemberships | tracker/memory_storage.go:29-57 | its next add in one torrent lists it again in exactly the others it was a member of |
| TrackerStores.ExpiryForgets | tracker/memory_storage.go:174-190 | a peer that expired is listed afterwards only where it comes back |
| TrackerServers.MemoryStorage.AddPeer | tracker/memory_storage.go:29-43 | the store makes the step of an add |
| TrackerServers.MemoryStorage.RemovePeer | tracker/memory_storage.go:45-57 | the store makes the step of a removal |
| TrackerServers.MemoryStorage.GetPeer | tracker/memory_storage.go:59-68 | the record under the id, or an error |
| TrackerServers.MemoryStorage.GetPeers | tracker/memory_storage.go:70-93 | min(max, listed) distinct listed peers with their records, all of them when there is room |
| TrackerServers.MemoryStorage.GetTorrentStats | tracker/memory_storage.go:125-153 | seeders and leechers partition the listed peers by whether anything is left to download |
| TrackerServers.MemoryStorage.IncrementCompleted | tracker/memory_storage.go:155-162 | the torrent's count of completed downloads grows by one |
| TrackerServers.MemoryStorage.UpdatePeerLastSeen | tracker/memory_storage.go:164-172 | a known peer's time is refreshed and nothing else changes |
| TrackerServers.MemoryStorage.CleanupExpiredPeers | tracker/memory_storage.go:174-190 | exactly the peers last seen over thirty minutes ago leave the records and every torrent |
| TrackerServers.AnnounceExtendsHistory | tracker/server.go:84-106 | an announce extends the history by its own operations, and afterwards a torrent lists a peer exactly when the last operation about it there, and the last one anywhere, was an add |
| TrackerServers.AnnounceEffect | tracker/server.go:84-106 | an announce lists its peer unless it says stopped and moves nobody else; its record is what was announced, with nothing left on completed, which alone counts a download |
| TrackerServers.Tracker.HandleAnnounce | tracker/server.go:68-126 | the answer leaves the announcing peer out and otherwise holds distinct listed peers: all of them if there is room, else as many as wanted or one less |

## Left out

- Swarms.Swarm.OnPeer: peers and their states are values in the swarm's maps, so a `*PeerState` or `Peer` shared with another goroutine is not captured; `PeerState` is modelled as a class on its own, and GetPeerState is not modelled.
- PeerStates.PeerState.AddUploaded: does not model the wrap-around of 64-bit counters; rates are reals, not floating point.
- TrackerServers.MemoryStorage.AddPeer: peer records are values, so a caller that keeps the pointer and changes it is not captured; the count of completed downloads does not wrap around.
- Decoders.Decoder.ParseString: a length over what can be allocated panics in Go before any byte is read; here it is an error like any length over the remaining input.
- Sorting.SortSlice: models the insertion sort that Go's sort.Slice runs on short slices; on longer ones Go runs a pattern-defeating quicksort, which is assumed to sort by key as well, as the library is not part of the source.
- Framing.ConnectionIsFifo: requires payloads under 2^32 bytes; the prefix of a longer one wraps around, the reader sees a shorter payload and then bytes that are no frame.
- Seeding.RunSeed: requires a positive piece size, as a size of zero divides by zero; the size is a command-line flag that the source does not check.
- Framing.TCPPeer.Close: flips the flag only; closing the channel and the socket, and Go's race between a write and a close, are not modelled.
- NodeRuns.NodeRunKeeps: the piece hashes of a node do not change during a run, and peers are not removed, as no code of the source does so while it runs.
- Torrents.EncodeInfoDict: the buffer is a string that grows; the single Go function is split into one method for each part of the dictionary.
- InfoDicts.InfoRoundTripIff: a nil slice of files and an empty one are the same value here.
- ParseTorrent beyond its info dictionary (announce, announce-list, optional strings and dates): only type checks field by field.
- TCP dialing, listening, the handshake, HTTP, URL and address handling, the client, the command line, logging and file writing: input and output.
- The periodic and concurrent announces to the tracker, and the made-up statistics they send.
- tracker/redis_storage.go: its meaning lies in an external server and its expiry.
- The bencode library the tracker's answers are written with is not part of this model; nor are the scrape handler, GetSeeders, GetLeechers and GetActiveTorrents, which only filter or list what is modelled.
- Liveness: the source gives no guarantee that a download makes progress, since pending requests wait for an Unchoke that may not come; duplicate simultaneous connections and dead peers are not cleaned up.
- Probabilities of the optimistic pick and of ties.
- requestPiece and the commented-out sendPiece, which nothing calls.
