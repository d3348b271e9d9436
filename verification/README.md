# Maze War server and clients: a verified model

Maze War is a network game for up to four wizards in a 20 by 19 brick maze. A C
server runs one or more rooms; Linux clients (SDL and terminal) and an Atari client
speak a small packet protocol to it over TCP. This project models the parts of that
program where the difficulty lies and proves what they promise.

| file | component |
|---|---|
| `Bytes.dfy`, `Crc16.dfy`, `Cobs.dfy`, `Framing.dfy` | checksum, byte stuffing, and what a receiver delivers from a byte stream |
| `SendQueue.dfy`, `Endpoints.dfy` | the bounded send queue, both framing senders, both receivers |
| `ReliableQueue.dfy`, `Client.dfy` | the server's ring of unacknowledged events; the client's receiver and round barrier |
| `Session.dfy`, `MapAgreement.dfy`, `Recovery.dfy`, `GameStart.dfy` | both ends joined by channels that may lose frames: order, brick maps, progress, the opening of the game |
| `Bitmap.dfy` | the 48-byte brick map and the set of cells it stands for |
| `InputQueue.dfy` | a client's joystick inputs between arrival and application |
| `Grid.dfy`, `Arena.dfy`, `ArenaSafety.dfy`, `Targeting.dfy`, `Spawn.dfy`, `Board.dfy` | the playing field, one tick of combat, spawning |
| `Deeds.dfy`, `Orders.dfy`, `Inputs.dfy`, `Outcomes.dfy` | what turns, shots, ticks, inputs and other events do, told in coordinates, sticks and times |
| `Seats.dfy`, `Rounds.dfy`, `Effects.dfy`, `Room.dfy` | who sits where, the life of rounds, what each event does, and the room that does it |
| `Runs.dfy`, `Broadcast.dfy`, `Overlap.dfy` | laws of whole runs of a room, its announcements as runs of a session, and a run that ends with two actors on one cell |
| `Publisher.dfy` | the lobby publisher's submit and worker protocol |

Code that changes state step by step is modelled by classes and loops, each proved
equal to a function or to a stated change of state; the laws are then lemmas about
those functions, or invariants that every method keeps. What the functions themselves
do is told a second time in `Deeds.dfy`, `Orders.dfy`, `Inputs.dfy` and `Outcomes.dfy`,
without them, and proved to be the same. `Room.Room.Serve` quantifies over every sequence
of events with every delay between them, and hands the history of states it passes
through to the laws in `Runs.dfy` and `Broadcast.dfy`. Dice and zombie moods are arbitrary
values chosen at each use, so what is proved holds for all of them.

Machine integers are written out where their width matters: revisions are taken
modulo 65536, rounds and input numbers modulo 256, and the proofs relate each of them
to numbers counted without bound. Bytes are integers below 256; exclusive-or is
defined on binary digits.

## What the proofs found

- The checksum detects any change of one byte, or of two adjacent bytes of the payload,
  at any length. The trailer is sent low byte first, so the pair made of the last
  payload byte and the first trailer byte is an exception: exactly one pattern of
  damage to that pair, 0x89 with 0xA1, passes (`Crc16.DamagedPairAccepted`).
- The client's sender accepts payloads of up to 64 bytes; the server passes a buffer of
  16 bytes and refuses longer ones. The server's sender accepts up to 62 bytes; the
  clients can take 61. Every packet kind fits (`Framing.EveryKindFits`).
- doc/protocol.md:300-301 calls the resend on a duplicate acknowledgement rate limited.
  The code resends on every one (`ReliableQueue.DuplicateAckAlwaysResends`).
- doc/protocol.md:450-452 says that the three pieces that open the game may arrive in
  any order. The server never lets the reliable map overtake its round start
  (`GameStart.MapFollowsStart`), but a snapshot can, and then it does not count
  (`GameStart.SnapshotBeforeStart`). `Client.BarrierHolds` says exactly when the game is
  open, and `GameStart.GameOpens` that a snapshot then opens it.
- The comment at server/main.c:62-63 says that an input dropped because the queue was
  full is replayed. Its number is recorded as seen before it is dropped, so a repetition
  is refused exactly while the newest number is at most 128 ahead of it modulo 256
  (`InputQueue.DroppedAndRepeated`). Both happen: a burst of seven inputs drops the last
  (`InputQueue.BurstOverflows`), and a counter that has moved on further lets it in after
  all (`InputQueue.DroppedThenTaken`), as a new round does (`InputQueue.ForgottenByReset`).
- The zombie mask is recomputed from scratch. When a connection waiting in a zombie's
  seat says HELLO, the zombie may move to a vacated slot, at coordinates where someone
  else now stands: `Overlap.ShiftCanOverlap` is a run of ten events from a room's start
  that leads there in a room with two zombies, on the shipped map as on any other with
  four open cells well apart. `Seats.HelloShifts` says exactly when it moves, and
  `Seats.RebuildIsPlaced` exactly when the actors still stand apart.
- The WELCOME packet is outside the reliable stream and is sent once. The stream recovers
  from every loss of its own frames and acknowledgements, but never from the loss of the
  welcome (`Recovery.HeadIsRecovered`), which every session can suffer
  (`Recovery.WelcomeCanBeLost`).

## Model

| member | source | states |
|---|---|---|
| Crc16.Compute | net/tcp_stream.h:19-28 | the two nested loops compute the polynomial register of the data, for every length |
| Crc16.OneByteDetected | net/tcp_stream.h:19-28 | changing one byte of a payload of any length changes the checksum |
| Crc16.AdjacentBytesDetected | net/tcp_stream.h:19-28 | so does changing two neighbouring bytes, hence any swap of unequal neighbours |
| Crc16.StraddlingDamage | net/tcp_stream.h:117-119 | the last payload byte and the low trailer byte change together unnoticed for exactly one pattern of differences |
| Crc16.DamagedPairAccepted | net/tcp_stream.h:177-182 | damage to one adjacent pair of a sealed frame, trailer included, is accepted if and only if it is that pattern at that place |
| Crc16.DamagedByteRejected | net/tcp_stream.h:177-182 | damage to any one byte of a sealed frame is rejected |
| Crc16.SealedIsAccepted | net/tcp_stream.h:116-119 | what a sender seals every receiver's check accepts |
| Crc16.KnownChecksums | net/tcp_stream.h:19-28 | known checksums of zero to three bytes, which fix the initial value, the shifts and the polynomial |
| Cobs.RoundTrip | server/main.c:1108-1128 | for every byte sequence of any length the encoding has no zero and decodes to the input |
| Cobs.KnownEncoding | server/main.c:1108-1128 | known encodings, which fix what a code byte counts |
| Cobs.EncodeInjective | server/main.c:1108-1128 | different inputs have different encodings |
| Cobs.ShortOverhead | server/main.c:1108-1128 | the overhead is one byte below 254 bytes and at most one more per 254 after that |
| Cobs.DecodedLength | net/tcp_stream.h:167-176 | decoding never makes a body longer |
| Cobs.EncodeInto | net/tcp_stream.h:120-135 | the buffer loop, with its patched code bytes, writes exactly the encoding, within the stated room |
| Cobs.CopyBlock | net/tcp_stream.h:174 | the copy of one block down over itself moves it unchanged and leaves everything unread alone |
| Cobs.DecodeBlockInPlace | net/tcp_stream.h:171-176 | one turn of the loop accepts exactly the valid blocks and never overwrites an unread byte |
| Cobs.DecodeInPlace | net/tcp_stream.h:167-176 | decoding a body over itself gives what decoding a copy would, and rejects exactly the invalid bodies |
| Framing.RunConcat | net/tcp_stream.h:186-236 | cutting the stream anywhere changes neither the payloads nor the final state |
| Framing.DelimiterResynchronises | net/tcp_stream.h:157-170 | after any bytes at all a delimiter leaves the receiver idle, and the payloads of what follows do not depend on what came before |
| Framing.FrameDelivery | net/tcp_stream.h:157-183 | a frame from an idle receiver delivers its payload if and only if it is not empty and fits body buffer and caller |
| Framing.ClientToServer | server/main.c:1562-1584 | an accepted client payload arrives unchanged exactly when it is not empty, fits the buffer the server passes and is below 64 bytes; the server passes 16 bytes, so exactly when its size is 1 to 16 |
| Framing.ServerToClient | server/main.c:1130-1149 | an accepted server payload arrives unchanged exactly when it is not empty, fits the caller's buffer and is below 62 bytes; the clients pass 64 bytes, so exactly when its size is 1 to 61 |
| Framing.EveryKindFits | server/main.c:102-118 | every packet kind that the server reads from a client, and every kind that it sends, wrapped or not, gets through |
| Framing.StreamDelivery | net/tcp_stream.h:186-236 | a stream of deliverable frames delivers each payload once, in order |
| Framing.BrokenStreamDelivery | net/tcp_stream.h:186-236 | a connection cut at any byte has delivered a prefix of the payloads |
| Framing.DamageIsContained | net/tcp_stream.h:205-216 | however much is replaced before a surviving delimiter, every later frame is delivered |
| Framing.ReceiversAgree | net/tcp_stream.h:140-153 | two receivers of different buffer sizes agree byte for byte on streams whose bodies fit the smaller |
| SendQueue.TxQueue.Flush | net/tcp_stream.h:51-83 | under every answer of the socket, bytes sent followed by bytes held equal bytes accepted; it stops early only for a blocked or broken socket |
| SendQueue.TxQueue.Queue | net/tcp_stream.h:85-108 | takes all of a frame or fails for good; a failed queue never sends again |
| SendQueue.TxQueue.MoveDown | net/tcp_stream.h:66-70 | the overlapping move keeps exactly the unsent bytes |
| Endpoints.ClientSend | net/tcp_stream.h:110-138 | queues exactly the frame of the payload, or refuses an oversized one before touching anything |
| Endpoints.ServerSend | server/main.c:1130-1149 | the same for the server's sender, reporting the payload length |
| Endpoints.Judge | net/tcp_stream.h:167-182 | decoding in place, checking and copying out give the verdict of the specification, error cases included |
| Endpoints.ByteReceiver.PushByte | net/tcp_stream.h:157-183 | refines one step of the receiver of `Framing` |
| Endpoints.ChunkReceiver.ReceiveFrame | net/tcp_stream.h:186-236 | delivers what the bytes it consumed deliver, whatever the chunks; keeps the rest; returns empty-handed only when the socket had nothing or is gone |
| Endpoints.Poll | clients/linux/main.c:443-450 | one pass delivers at most 64 frames, which depend on the bytes alone |
| ReliableQueue.DuplicateAckAlwaysResends | server/main.c:1206-1229 | a duplicate acknowledgement with an event outstanding always sends the head again |
| ReliableQueue.Queue.Enqueue | server/main.c:1232-1270 | appends one wrapped event under the next revision, sends and stamps it only if it is alone, and condemns the connection on overflow or a bad size |
| ReliableQueue.Queue.Ack | server/main.c:1196-1230 | the 16-bit code does what the unbounded stream specification says, every send is stamped, and stored events never change |
| ReliableQueue.Queue.RetireAcknowledged | server/main.c:1196-1226 | the loop that could pop many events pops the head if the acknowledgement names it, and otherwise nothing, for every 16-bit value |
| ReliableQueue.AckExactly | server/main.c:1196-1230 | what each 16-bit value does, by its distance from what is acknowledged: one ahead retires the head and sends the next, two to 32768 ahead is dropped, none ahead or behind sends the head again |
| ReliableQueue.Queue.Tick | server/main.c:1185-1194 | resends the head exactly when 300 ms have passed since the last send, and stamps it |
| ReliableQueue.Queue.SendFrom | server/main.c:1167-1183 | sends the oldest unacknowledged event, and nothing when there is none |
| Client.GameClient.HandlePacket | clients/linux/sdl_main.c:1118-1330 | the nested handler computes the specified effect of every packet and acknowledges exactly the wrappers |
| Client.BarrierHolds | clients/linux/sdl_main.c:200-204 | in every packet history the game is open if and only if the round is played and, for this round, its start was seen and after it a reliable map and, while it was played, a snapshot |
| Client.RoundMovesForward | clients/linux/sdl_main.c:195-198 | between welcomes the round changes exactly on a start that is 1 to 127 ahead on its circle, which closes the barrier; a start of the round already open leaves the barrier alone |
| GameStart.SnapshotBeforeStart | clients/linux/sdl_main.c:1156-1172 | a concrete run of both ends in which a snapshot overtakes the round start: all three pieces arrive, the game stays closed, and the next snapshot opens it |
| GameStart.MapFollowsStart | server/main.c:2508-2517 | in every run of an uncondemned connection a reliable map is applied right after its round start |
| GameStart.GameOpens | clients/linux/sdl_main.c:1281-1288 | in every run, once a started round is played and everything queued is acknowledged, the next snapshot opens the game |
| Session.StreamSafety | server/main.c:1167-1279 | over every run with losses on both channels, before and after a condemnation, the events applied are a prefix of the events queued, each once and in order, at most one ahead of the acknowledged |
| Session.ArrivalStream | clients/linux/sdl_main.c:1140-1154 | an arriving copy is applied if and only if it carries the next event, however often the revisions have wrapped |
| Recovery.HeadIsRecovered | server/main.c:1185-1230 | in every reachable state with an event outstanding some schedule of timeouts and loss-free arrivals retires the head if and only if the client is welcomed or its welcome is on the way; otherwise no continuation at all does |
| Recovery.WelcomeCanBeLost | server/main.c:1353-1356 | losing the first frame of any session leaves an event outstanding that no continuation retires |
| Recovery.LostWelcome | server/main.c:1353-1356 | from any state of any run in which the welcome is neither received nor on the way, nothing is ever applied or acknowledged |
| MapAgreement.ClientMapContainsServerMap | clients/linux/main.c:481-521 | once the reliable map of the server's round is applied, the client's bricks contain the server's, in every interleaving of both paths |
| MapAgreement.MapsEqualWhenDrained | server/main.c:2499-2517 | whenever the client's queue has drained, round, phase and bricks agree |
| MapAgreement.BreakMap | server/main.c:1910-1918 | breaking a brick, announced directly and reliably, keeps both paths repairable |
| MapAgreement.NewRoundMap | server/main.c:2499-2517 | a round start and its map are queued together or the connection is condemned |
| Broadcast.SessionPlays | server/main.c:1272-1279 | the server's round, phase and bricks in a session are those its announcing steps produce, whatever else happens |
| Broadcast.HappenedAccounts | server/main.c:3257-3373 | seen from a seat that stays taken, what an event of a room announces is everything it changes of round, phase and bricks |
| Broadcast.MapsOfThisRoom | server/main.c:3257-3375 | for every run of a room and every run of a client's session that opens when its HELLO is accepted, whatever else the same read brings, and announces what the room announces: containment and equality of the client's bricks with the room's own |
| Broadcast.GreetedAccounts | server/main.c:1334-1360 | from the state an accepted HELLO leaves in the midst of a read, the announcements account for everything the rest of that read changes |
| Bitmap.ClearBrick | server/main.c:611-617 | clearing a bit removes exactly that cell, and nothing when it is off the grid |
| Bitmap.IsBrickAt | server/main.c:599-605 | reading a bit says whether the cell is brick; off the grid always |
| Bitmap.ClientMap.DecodeBrickFull | clients/linux/sdl_main.c:1003-1009 | both of the client's copies show the received map |
| Bitmap.ClientMap.ClearBrickCell | clients/linux/sdl_main.c:1011-1019 | both copies lose exactly that cell and stay equal |
| Bitmap.MapRoundTrip | server/main.c:2425-2435 | the 48 bytes of any set of cells show exactly its cells within the grid |
| InputQueue.Ring.SeqIsFresh | server/main.c:884-896 | accepts a first number or one 1 to 127 ahead, and remembers only those |
| InputQueue.Ring.Delta | server/main.c:1439-1490 | the six-slot ring is the queue: stale, folded, queued or dropped, with nothing else changed |
| InputQueue.Ring.ApplyNext | server/main.c:2131-2156 | pops the oldest due entry and publishes its number, or leaves the stick neutral |
| InputQueue.AppliedInOrder | server/main.c:2124-2157 | over every run, the inputs applied are those queued, in order, at most one a tick, and the published acknowledgement is the number of the last one applied |
| Inputs.ArrivalExactly | server/main.c:1443-1494 | after every run, a seen number changes nothing; an unseen one merges into the last entry if and only if both have the same stick at rest without the trigger, and otherwise is one more entry while fewer than six wait |
| Inputs.TickExactly | server/main.c:2131-2156 | after every run, a tick applies and publishes the oldest entry if and only if its time has come, and leaves its stick or one at rest |
| Inputs.AppliedOnce | server/main.c:1443-1494 | every input that moves or fires, has an unseen number and finds room is applied at exactly one place in the order, whatever follows, and exactly at the tick after those before it when ticks are not early |
| InputQueue.BurstOverflows | server/main.c:1439-1494 | seven inputs with the stick changing and no tick between them: the last is dropped |
| InputQueue.DroppedThenTaken | server/main.c:1439-1494 | a run in which a dropped input, repeated later in the same round, is queued as new |
| InputQueue.DroppedAndRepeated | server/main.c:1439-1494 | an input dropped at any point of any run is refused when repeated later in the round if and only if the newest number is at most 128 ahead of it modulo 256 |
| Spawn.PickSpawn | server/main.c:990-1026 | for every sequence of dice: a legal cell at distance 8 from everyone, or the legal cell farthest from its nearest actor |
| Outcomes.SpawnExactly | server/main.c:985-1026 | the chooser's promise in coordinates: open, nobody there, and eight steps from everyone or no nearer to anyone than any open cell is |
| Spawn.Farthest | server/main.c:1008-1025 | the exhaustive search finds a farthest legal cell, or the corner when no cell is legal |
| Spawn.NearestActorDistance | server/main.c:969-983 | the loop computes the minimum distance over actors on the board |
| Spawn.SpaciousHasSpawn | server/main.c:985-988 | with five open cells a legal spawn cell always exists |
| Spawn.SameSpawn | server/main.c:990-1026 | the choice depends on bricks and actors on the board alone |
| ArenaSafety.CombatKeeps | server/main.c:2159-2423 | one tick, for every choice of zombies and dice: actors stay on distinct open cells, shots on open cells, bricks lost equal bricks announced, each point stands for one actor sent down |
| ArenaSafety.FireOrMove | server/main.c:2350-2360 | whenever an actor fires in a direction nobody moves in that turn, whether the shot breaks a brick, hits, is refused or is launched; a launched shot leaves from the open cell beside the actor |
| ArenaSafety.FlightSafety | server/main.c:1990-2104 | after the shots have moved none shares a cell or has swapped cells with another actor, an unobstructed shot still flies, and only those hit went down |
| ArenaSafety.CombatAdvances | server/main.c:1999-2088 | a tick of a round that goes on moves every shot it leaves in the air one cell along its heading |
| Runs.HappenedShots | server/main.c:3257-3373 | ticks and only ticks move shots, and no other event of a room launches one |
| Runs.NoShotOutlivesItsRange | server/main.c:2003-2013 | in every run of a room, over any stretch in which a shot stays in the air there are no more ticks than its distance to the edge |
| ArenaSafety.DesertedBoardIsPeaceful | server/main.c:450-467 | without humans no tick launches a shot, changes a score, sends anyone down or ends the round |
| ArenaSafety.MovedKeeps | server/main.c:1843-1863 | an actor moves at most one cell, only onto an open cell where nobody stands |
| ArenaSafety.StrikeKeeps | server/main.c:1865-1880 | a hit keeps scores below the limit, or ends the round with exactly one score at it |
| Targeting.AimIsLineOfFire | server/main.c:1751-1772 | a zombie has an aim exactly when a living human stands in a straight line past no brick, and the aim is that direction |
| Targeting.NearestIsNearest | server/main.c:1710-1749 | the target is the nearest such human, the lowest-numbered of several |
| Targeting.ReleasedShotIsAimed | server/main.c:2266-2292 | a wound-up zombie fires if and only if its target is still in line, and fires along that line |
| Deeds.MovedExactly | server/main.c:1843-1863 | an actor goes exactly one cell right, down, left or up for stick 7, 13, 11 or 14 if and only if that cell is on the grid, open and unoccupied; otherwise, and for every other stick, nothing changes |
| Deeds.FiresExactly | server/main.c:1882-1988 | with the trigger, a pointing stick and no shot in the air: the outer wall stops it, another brick beside the actor is removed and recorded and nothing else changes, the first actor there is struck, and from an open cell a shot leaves with that heading |
| Deeds.StrikesExactly | server/main.c:1865-1880 | one point for the shooter; the victim is down for two seconds, or at the limit the round ends with an empty sky and sticks at rest |
| Deeds.FliesExactly | server/main.c:1999-2088 | one step of a shot: spent at the edge, at the first actor on the next cell or just come onto the one it leaves, whom it strikes, or at a brick, which it removes inside the outer wall; otherwise one cell on |
| Deeds.ObeysExactly | server/main.c:2350-2360 | a steered actor fires when the trigger is pulled and the stick is out of its middle, and otherwise moves |
| Deeds.DecidesExactly | server/main.c:2263-2349 | a zombie that may shoot starts winding up, facing it, at the closest human in sight if there is one; winding up, it waits, gives up when the human is out of sight, or fires along the line; else it fires at the brick it planned to remove, wanders, or stands |
| Deeds.PerformsExactly | server/main.c:2350-2373 | a zombie does what it decided, and may plan to shoot the brick that it ran into |
| Orders.TickTold | server/main.c:2159-2423 | every tick of every round in full: who is on the board and with what stick, every turn in slot order, then every shot in slot order, then the clear bursts; the round is over exactly when a hit ended it |
| Orders.DueInputIsObeyed | server/main.c:2237-2262 | the actor of a connection acts on exactly its oldest due input, however long that has waited, and on a stick at rest when none is due |
| Orders.AbandonedStick | server/main.c:2258-2262 | a slot without a connection is forced to rest exactly when its last input is missing or more than 500 ms old |
| Orders.OldestIsTaken | server/main.c:2124-2157 | after a tick the oldest input of a connection is gone and published exactly when it was due; nothing else of the seat changes |
| Board.Board.QueueEcho | server/main.c:733-752 | a pending echo is renewed, a spare place taken, or the first place overwritten |
| Board.Board.FlushEcho | server/main.c:754-772 | at most one echo a tick, never of a cell that still has its brick |
| Board.Board.AwardScore | server/main.c:1865-1880 | the point, the clamp, and the end of the round with its winner |
| Board.Board.StartShot | server/main.c:1882-1988 | refines the firing function, which `Deeds.FiresExactly` describes |
| Board.Board.ApplyMoveIfFree | server/main.c:1843-1863 | refines the move function, which `Deeds.MovedExactly` describes |
| Board.Board.FindShotTarget | server/main.c:1710-1749 | the search loop finds the specified target and its direction |
| Board.Board.ZombieTurn | server/main.c:2263-2349 | refines a zombie's choice, which `Deeds.DecidesExactly` describes |
| Board.Board.StepOneShot | server/main.c:1999-2104 | refines one shot's step, which `Deeds.FliesExactly` describes |
| Board.Board.Fight | server/main.c:2229-2423 | everyone's turn and then the shots compute the combat function; nothing follows the hit that ends the round |
| Seats.ComputeZombieMask | server/main.c:1610-1624 | the loop computes the specified set |
| Seats.ZombiesFillFromBelow | server/main.c:1610-1624 | never slot 0, never a human's slot, as many as fit, and no free slot is passed over |
| Seats.AllocClientSlot | server/main.c:368-394 | the first free human seat, else the first one held without HELLO, else a zombie's; never a human's |
| Seats.HelloShifts | server/main.c:1335-1343 | a HELLO brings a zombie into a new slot if and only if it comes from a zombie's seat while a later slot has neither human nor zombie |
| Seats.DepartureShifts | server/main.c:471-483 | a departure brings a zombie into no slot but the one left |
| Seats.RebuildIsPlaced | server/main.c:2194-2201 | the recomputed occupancy keeps actors apart if and only if those it brings onto the board fit |
| Overlap.ShiftCanOverlap | server/main.c:2194-2201 | a run from a room's start in which it does not: everyone stands on distinct open cells, a HELLO moves a zombie, and every tick that may follow finds two actors on one cell |
| Rounds.SpreadIsPlaced | server/main.c:2537-2556 | seating everyone by the chooser, one after the other, puts them on distinct open cells |
| Rounds.EndedChronicle | server/main.c:2443-2497 | the ending of a round is recorded once, with exactly one score at the limit |
| Rounds.NobodySteers | server/main.c:2237-2262 | without humans every slot that is not a zombie's has a neutral stick |
| Outcomes.NewRoundExactly | server/main.c:2520-2564 | a new round keeps connections, forgets their inputs and numbers, restores the map, and leaves no shot, point, plan or fallen actor |
| Outcomes.IntermissionEnds | server/main.c:2899-2902 | not before its deadline; then the next number, in play, with no deadline armed |
| Outcomes.GraceEnds | server/main.c:2895-2898 | then the next number, parked on the configured map with both deadlines off |
| Outcomes.HandedOver | server/main.c:1039-1059 | a slot that changes hands has no points, plans, stick or shot left, stays where it stood and as long down, and nobody else changes |
| Outcomes.LossExactly | server/main.c:450-483 | the last human's loss empties the sky and starts the grace in play, and ends an intermission; any other loss only vacates the seat |
| Outcomes.DepartureExactly | server/main.c:493-529 | the last human's departure parks the room in its next round, on the configured map with nobody on the board; any other only vacates the seat |
| Outcomes.HelloExactly | server/main.c:1333-1363 | a HELLO wakes a dormant room with everyone at the start, calls off the grace, and in play puts its actor up on the board, on the spot of a zombie that was up or where the chooser may, and changes nothing else |
| Outcomes.PacketExactly | server/main.c:1323-1560 | what each packet changes, by round number, phase, coordinates and input number, and that it changes nothing else |
| Outcomes.VerdictExactly | server/main.c:2443-2497 | the verdict has the round's number, the limit, everyone on the board, the zombies then and ever, all scores, and the one winner at the limit |
| Room.Room.constructor | server/main.c:2797-2842 | a new room is empty, dormant and on its configured map, with every actor where it may be spawned |
| Room.Room.BeginNoHumanGrace | server/main.c:450-467 | arms the grace deadline once, clears the shots, and replaces a finished round by the next |
| Room.Room.DropClient | server/main.c:471-483 | only the loss of the last human starts the grace; the exact new seats, life and board in each case |
| Room.Room.DetachVoluntary | server/main.c:493-529 | the last human's departure makes the room dormant at once |
| Room.Room.ReapTimedOut | server/main.c:531-546 | frees exactly the seats whose transmission failed, whose client is silent for 15 s, or that are 3 s without HELLO; slot by slot, each drop on what the one before it left |
| Effects.ReapedExactly | server/main.c:531-546 | a seat is lost if and only if it is in use and its transmission failed, it is handshaken and silent for 15000 ms, or it is not and connected for 3000 ms; everyone else keeps the seat |
| Room.Room.ResetSlotGameplay | server/main.c:1039-1059 | retires the slot's shot, zeroes its score and plans, and does not move it |
| Room.Room.Accept | server/main.c:2858-2890 | a connection is turned away only when no seat can be had, gets exactly the preferred seat, blank, and makes nobody more or less human |
| Room.Room.ActivateJoining | server/main.c:1291-1321 | puts the newcomer on the board only in a running round, where it stands or at a chosen cell |
| Room.Room.HandleHello | server/main.c:1333-1363 | wakes a dormant room or cancels the grace; keeps a live zombie's place, and otherwise spawns the newcomer where the chooser may; shifts counted exactly |
| Room.Room.HandleDelta | server/main.c:1406-1502 | counts only in a running round of the same number, and stamps the slot only when fresh |
| Room.Room.HandleRespawn | server/main.c:1522-1541 | moves the requester to a chosen cell and touches nothing else |
| Room.Room.HandleBrick | server/main.c:1543-1559 | removes a brick only in this round and only inside the outer wall |
| Room.Room.HandlePacket | server/main.c:1323-1560 | the exact effect of every packet on seats, inputs, life and board: nothing counts before HELLO, nothing after LEAVE_ROOM, nothing between rounds, and no packet touches another seat |
| Room.Room.Receive | server/main.c:1562-1584 | the packets of one read take effect one after the other, and then the departure or the drop they lead to |
| Room.Room.ResetRound | server/main.c:2520-2564 | next round number, configured map, everyone seated and spread out, inputs forgotten |
| Room.Room.EnterDormant | server/main.c:2566-2577 | the same baseline with nobody on the board and both deadlines off |
| Room.Room.WakeDormant | server/main.c:2579-2615 | everyone present is spawned on the parked board |
| Room.Room.FreezeMatch | server/main.c:2443-2476 | scores, masks and winner are frozen as they stand |
| Room.Room.EnterRoundOver | server/main.c:2478-2497 | the verdict joins the results, the intermission is armed, queued inputs are cleared |
| Room.Room.EndIntermission | server/main.c:2899-2902 | the next round starts with everyone on distinct open cells |
| Room.Room.ServiceTimers | server/main.c:2892-2903 | the drops, and then on what they left exactly the transition of the deadline that has passed; none stays armed |
| Room.Room.ApplyQueuedInput | server/main.c:2124-2157 | at most one input of each connection becomes its stick |
| Room.Room.HumanMask | server/main.c:2173-2190 | the clause about recent input of an unauthenticated slot never applies: the mask is the set of humans |
| Room.Room.FinalizeRespawns | server/main.c:2202-2228 | exactly the due actors return, each where the chooser, seeing those before it, may put it, keeping everyone apart |
| Room.Room.StepPlayers | server/main.c:2159-2423 | the tick is the combat function applied to the readied field |
| Room.Room.Tick | server/main.c:2940-2956 | the whole state change of a tick and the brick echoed; nothing outside a running round; peaceful without humans; actors apart if newcomers fit |
| Room.Room.Handle | server/main.c:3257-3373 | every event does what its relation says and keeps: no human if and only if dormant or in grace, over if and only if the intermission is armed, over only with a human seated |
| Room.Room.Serve | server/main.c:3257-3375 | so does every run, and its states form a history of such events; no round ends twice, no verdict, map or sky changes between the end of a round and the next reset, and on a map with five open cells actors never overlap unless a zombie is shifted |
| Publisher.DelaysSettle | server/lobby_publisher.c:233-242 | retry delays grow from 1 to 30 seconds and settle there after five failures |
| Publisher.Publisher.Submit | server/lobby_publisher.c:276-290 | clamps, ignores repeats and anything after shutdown, and marks the room otherwise |
| Publisher.Publisher.PickOnlineRequest | server/lobby_publisher.c:163-173 | the first room that is marked or due, and only its mark is cleared |
| Publisher.Publisher.Begin | server/lobby_publisher.c:175-224 | posts the current occupancy; waits only when nothing is due; leaves only when all rooms are offline or time is up; allots an offline post at most the time that is left when it is picked |
| Publisher.Publisher.Finish | server/lobby_publisher.c:226-247 | a success resets the delay, a failure doubles it and schedules the retry |
| Publisher.Publisher.Run | server/lobby_publisher.c:175-249 | in every interleaving no update is lost, each room gets at most one offline post, and no online post follows any offline post |

## Left out

- Zombie pursuit directions (server/main.c:1777-1841) and the clocks that pace moves, windups and cooldowns: their outcome is an arbitrary `Whim`, so the laws hold for every pacing and none is stated about the pacing itself.
- Room.Room.Tick: reads the clock once, where the source reads it again inside the tick; times within one pass are taken to be equal.
- Room.Room.FreezeMatch: leaves out the frozen names; names, seat lists, shot packets and the second announcement of respawns carry no game state.
- Room.Room.HandleDelta: takes a decoded input; the legacy packet layouts and the filter for malformed joystick bytes are a step before it. The queue is a value here, and `InputQueue.Ring` is the ring that implements it.
- Room.Room.DetachVoluntary: the socket that drains its last acknowledgement has no seat and is not part of this model.
- Room.Room.HandlePacket: acknowledgements go to the stream of `ReliableQueue` and change nothing in the room.
- MapAgreement.MapsEqualWhenDrained: says nothing about a connection condemned by queue overflow, which is closed; and a client that joined during results has no map until the next round.
- Broadcast.MapsOfThisRoom: the packets that repeat state (echoes, resyncs, snapshots, notices) are sent at arbitrary moments of the session, not at the room's own.
- ReliableQueue.Queue.SendFrom: the retry counter, which only debugging output shows, is not kept.
- Publisher.Publisher.Begin: does not bound when an offline post really ends; the source starts its own clock after the pick and then waits for the child process.
- Publisher.Publisher.Run: no claim that every room is eventually served, since a room marked again and again is always picked first; and none about what the lobby holds after a post that failed.
- Sockets, polling, process creation and threads: replaced by arbitrary answers and atomic steps.
- Command line, brick file parsing, drawing, sound, keyboard handling, request text for the lobby, debugging output.
- The Atari client's assembly code, and the transport normaliser that the server no longer calls.
