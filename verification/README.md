# A model of the delay buffer, and what is proved about it

The program is an OBS plugin that shows and plays everything a few seconds or minutes late. Captured frames are
encoded into a ring of slots whose payloads live in an arena; a decoder follows the ring at the delay; audio goes
through a ring of its own. Around that stand the sizing of the buffer, the policy that trades quality for load, the
background jobs of the account, a JSON reader and writer, and text filters. Each module here models one part of it on
its own terms and proves what that part is for.

| module | models |
|---|---|
| `Words`, `Seqs` | the fixed-width integers, where wrap-around matters; regrouping of sequences |
| `Storage`, `Encoding` | chains, frames in flight, and one encode context: send, store, drop, close |
| `RingSelect`, `FrameWindow`, `FrameRing` | what is shown and where decoding starts; the ring as a window of captures; the ring as the array it is |
| `RingRuns`, `Ownership`, `Recording`, `Strays`, `WhatIsStored` | runs: many rings with one counter; who owns which payload; one ring while it records; what a ring left behind can lose; and what is stored |
| `FrameArena` | blocks, spares, oversized blocks, statistics |
| `Decoding`, `CatchUpWalk`, `CatchUp` | the decode context, and starting playback on a frame that needs the ones before it: which frames the walk over the ring meets, and the walk itself |
| `RawPool` | the raw frames between graphics thread, queue and workers |
| `AudioDelay`, `Restart` | the multi-channel ring against an unbounded history; and what comes out after the filter starts over |
| `Json`, `JsonGrammar`, `JsonText` | grammar-level reader and writer with the round trip; the texts RFC 8259 allows, with what they mean; the parser and the writer as they are |
| `Utf8`, `ChatText`, `LogRedact`, `LogPieces`, `AnnexB`, `PatchedPackets`, `CivilDate` | byte-level loops, and for whole inputs what they take out and what they keep |
| `BufferFit`, `Degradation`, `Overload` | sizing over exact reals; the ladder and the hysteresis policy over runs; and when the policy must act |
| `Tasks` | jobs, posted results, draining, cancelling, shutting down |

A critical section is one atomic step. Code that changes objects in place is a class with the same fields, whose methods
are proved against functions on values; the properties are lemmas about these functions and about runs of steps. What
the outside decides (what an encoder answers, whether memory is there, the clock) is a parameter of the step.

Where the code does less than its comments or its callers expect, that is stated too, with the exact condition:

- Packets of a ring left behind by a new cycle are stored unchecked (`Recording.StrayLacksReference`).
  `Strays.ReachableLosesIffAtRisk`: with no further send a reference can be lost if and only if a frame of the ring left
  behind is in flight, was not sent as a key, and its predecessor is not what is stored last of the codec (it is in
  flight too, or lost already). `Strays.AloneIsClosed`: while no frame of another ring is sent, nothing is ever lost.
- A catch-up looks for frames by capture time (`CatchUpWalk.KeyAtTimeZero`, `CatchUpWalk.EqualTimes`).
  `CatchUpWalk.ReachedIffInReach`, `CatchUp.StartFromKey`: with a decoder that takes every frame the one due is shown, after
  just the frames it needs, if and only if the key was not captured at time 0 and it (or a copy of its packet) and every
  later frame of the codec up to the one due are the first Ready ones of their capture times.
- The 16-bit pin counter forgets its readers at every multiple of 65536, and only there (`Ownership.PinCounterWraps`).
- Gaps are measured with a 64-bit product, which wraps after some days (`AudioDelay.GapMeasured`,
  `AudioDelay.VeryLongGapForgotten`). Lateness within the tolerance is never made up for, although the comment beside the
  constant says it does not accumulate: `AudioDelay.HistoryKeepsPaceIff`, the clock runs ahead of the history by exactly the
  sum of these drifts, and `AudioDelay.LatenessAccumulates` reaches the bound.
- A cancel from a thread other than the draining one can come after a result was cleared: `Tasks.TooLateIffCleared`, a
  result of the group starts later if and only if one is cleared at that moment. `Tasks.CancelBetweenIsFinal`: never for
  cancels of the draining thread.
- Dates that do not exist, and leap seconds, are read as other times: `CivilDate.CollidesIffImpossible`, a text has the
  number of another existing time if and only if its own does not exist.
- The statistic `liveBytes` of the arena takes a freed size from the handle's 32 bits: `FrameArena.HandleTellsSize`, right if
  and only if the piece is below 4 GB; the ghost field `uncounted` is exactly the remainder.

## Model

| member | source | states |
|---|---|---|
| Storage.InFlightQueue.Push | src/storage-codec.hpp:555-562 | an entry joins behind all others, which keep their order, whether or not the ring of entries had to grow |
| Storage.InFlightQueue.Pop | src/storage-codec.hpp:563-571 | gives out the oldest entry exactly when its sequence number is the one asked for; otherwise tells empty from mismatch and changes nothing |
| Storage.InFlightQueue.TakeFront | src/storage-codec.hpp:601-608 | the oldest entry leaves, the rest keep their order across the wrap of the ring |
| Storage.InFlightQueue.Grow | src/storage-codec.hpp:593-600 | room for more entries, with the same entries in the same order |
| Storage.InFlightQueue.ForEach | src/storage-codec.hpp:580-584 | every value in flight is changed where it stands, and nothing else |
| Storage.InFlightQueue.Clear | src/storage-codec.hpp:572-579 | all entries come out, oldest first, and none is left |
| RingSelect.LastAtOrBefore | src/frame-ring.hpp:74-87 | on capture times that never decrease the binary search finds the true last position at or before the target: exactly the positions up to it are at or before the target, and none is found exactly when there is none |
| RingSelect.NewestReady | src/frame-ring.hpp:93-104 | the newest ready position within maxBack of the one due, or none when none of those is ready |
| RingSelect.DisplayPositionIsNewest | src/frame-ring.hpp:89-104 | what is shown is ready and never in the future, and every ready position at or before the target is either no newer or lies further than maxBack behind the one due |
| RingSelect.SelectForDisplay | src/frame-ring.hpp:93-104 | the loop finds the position whose meaning DisplayPositionIsNewest gives |
| RingSelect.PlanDecodeStart | src/frame-ring.hpp:147-186 | a start is found if and only if some key at or before the frame due reaches it through ready frames of one chain with consecutive numbers (modulo 2^32); it is then the nearest such key, catchUp counts exactly the frames between, and nextKeyPos is the first later key; an unready or missing frame gives the empty plan |
| RingSelect.WalkBack | src/frame-ring.hpp:147-186 | a predecessor with the expected number extends the linked stretch, by a frame or to the key it starts at |
| RingSelect.WalkEnds | src/frame-ring.hpp:147-186 | a frame of another chain or number ends the search for good: the frame due cannot be decoded from any key |
| RingSelect.ChoiceIsSoonest | src/frame-ring.hpp:188-202 | whatever the plan and the two costs: no choice shows a fresh frame sooner than the one made; catching up is chosen if and only if a start was found and no later key is known, or the frames in between decode no later than the next key comes to be due |
| FrameArena.RoundUp | src/frame-arena.cpp:27-30 | the least multiple of the alignment that holds the bytes |
| FrameArena.SizedFor | src/frame-arena.cpp:33-47 | without fixed payloads blocks of the sized size; with them the most whole payloads that size holds, but at least one; the limit is the least that covers the budget and what is expected plus two blocks |
| FrameArena.SizedBlock | src/frame-arena.cpp:33-41 | the least whole number of MiB of which 64 hold the expected bytes, kept between the two limits |
| FrameArena.FrameArena.constructor | src/frame-arena.cpp:49-54 | an arena with no block and no allocation; the block size is at least one aligned unit |
| FrameArena.FrameArena.Allocate | src/frame-arena.cpp:109-159 | succeeds exactly when there is room (in the current block, in a spare, or within the limit with memory from the system); a new piece, disjoint from every live one, joins the live set, or the set is unchanged; committed bytes grow by just what a new block needs |
| FrameArena.FrameArena.Free | src/frame-arena.cpp:161-182 | exactly the piece of the handle leaves the live set, the handle is reset, an empty handle is ignored, and no memory goes back to the system |
| FrameArena.FrameArena.Trim | src/frame-arena.cpp:184-213 | releases the oldest spares over the maximum and every empty oversized block, and no other: nothing live is touched |
| FrameArena.FrameArena.ReleaseEmptyOversized | src/frame-arena.cpp:184-213 | exactly the empty oversized blocks are released |
| FrameArena.FrameArena.NewBlockLocked | src/frame-arena.cpp:58-92 | refuses exactly when the limit or the system does, and then changes only the count of failures; otherwise reuses the last vacant id or appends a block |
| FrameArena.FrameArena.RetireIfEmptyLocked | src/frame-arena.cpp:94-107 | an emptied standard block becomes a spare, an oversized one waits for Trim, a block still holding pieces is left alone |
| FrameArena.FrameArena.ReleaseBlockLocked | src/frame-arena.cpp:184-213 | one block without pieces goes, with its bytes off the committed count |
| FrameArena.NewBlockKeeps | src/frame-arena.cpp:58-92 | a new block keeps the invariant: pieces disjoint and inside their block's used prefix, every counter and list equal to its definition |
| FrameArena.PieceKeeps | src/frame-arena.cpp:109-159 | a piece put where there is room is none of the live ones, and the invariant holds with it |
| FrameArena.WithoutPieceKeeps | src/frame-arena.cpp:161-182 | taking a piece out keeps the invariant; an emptied current block starts over |
| FrameArena.RetireKeeps | src/frame-arena.cpp:94-107 | retiring an emptied block as a spare, or as an empty oversized one, keeps the invariant |
| FrameArena.SpareAsCurrentKeeps | src/frame-arena.cpp:109-159 | taking the newest spare as the current block keeps the invariant, and no memory is committed |
| FrameArena.ReleaseKeeps | src/frame-arena.cpp:184-213 | releasing a block without pieces keeps the invariant and takes exactly its capacity off the committed bytes |
| FrameArena.FullHoldsPieces | src/frame-arena.cpp:109-159 | a current block that a request of at most a block overflows always holds pieces, so it is never lost when left |
| FrameArena.HandlesDiffer | src/frame-arena.cpp:109-159 | two live allocations never share a handle |
| FrameArena.HandleTellsSize | src/frame-arena.cpp:161-182 | the size a freed handle tells is the piece's if and only if the piece is below 2^32 bytes; otherwise at least 2^32 bytes stay counted as live |
| FrameWindow.ReserveSlots | src/frame-ring.cpp:56-90 | a reservation appends one slot and, in a full window, lets the oldest go; every other slot is untouched, and capture times are clamped so as never to decrease |
| FrameWindow.ReserveKeeps | src/frame-ring.cpp:56-90 | with a generation never used before, reserving keeps the window in order, generations apart and payloads in Ready slots only |
| FrameWindow.PublishKeeps | src/frame-ring.cpp:117-128 | publishing keeps that invariant |
| FrameWindow.UpdatedTouchesOnlyNamed | src/frame-ring.hpp:40-53 | an operation given an (index, generation) pair changes at most the one slot it names |
| FrameWindow.SlotLife | src/frame-ring.cpp:92-128 | what each operation makes of the slot its pair names: dropped while it waits for its frame, encoding from reserved, Ready with its payload from encoding, one reader less (Unpin, lines 251-261); in any other state it stays, and so does every other slot |
| FrameWindow.StrangersDoNothing | src/frame-ring.hpp:40-53 | a pair that names no slot of the window changes nothing |
| FrameWindow.FindInRange | src/frame-ring.cpp:197-215 | the binary search and scan find the first Ready slot captured after afterNs, unless untilNs comes first |
| FrameWindow.FindForDecode | src/frame-ring.cpp:148-195 | the jump, the search and the scan find what NextForDecodeIs says |
| FrameWindow.NextForDecodeIs | src/frame-ring.cpp:148-195 | on every window in time order: when behind and something newer is there to show, the slot shown for the target; otherwise position q if and only if q is the first Ready one captured after the cursor and no later than the window's end, with everything between dropped, or due and still not encoded; and none if and only if there is no such q |
| FrameWindow.NextForDecodeIsReady | src/frame-ring.cpp:148-195 | what decode-ahead pins is Ready, newer than the cursor and no later than the window's end |
| FrameRing.GenerationSource.Take | src/frame-ring.cpp:27-31 | each generation is handed out once, whichever ring asks |
| FrameRing.FrameRing.constructor | src/frame-ring.cpp:50-54 | an empty window of at least one slot |
| FrameRing.FrameRing.ReserveLocked | src/frame-ring.cpp:56-90 | the header array with its wrapping write position does what the window's Reserve does; it refuses if and only if the slot at the write position is reserved, encoding or pinned; otherwise the reservation is of that slot, its time clamped to the last one, and the payload it held is handed back |
| FrameRing.FrameRing.MarkDropped | src/frame-ring.cpp:92-103 | the window's MarkDropped, and says whether it did anything |
| FrameRing.FrameRing.BeginEncode | src/frame-ring.cpp:105-115 | the window's BeginEncode, and says whether the job was still valid |
| FrameRing.FrameRing.Publish | src/frame-ring.cpp:117-128 | the window's Publish, and says whether the slot took the payload |
| FrameRing.FrameRing.FillViewLocked | src/frame-ring.cpp:130-146 | the slot is pinned once more and the view shows it as it was |
| FrameRing.FrameRing.PinNextForDecode | src/frame-ring.cpp:148-195 | pins the slot NextForDecodeIs describes, or changes nothing when there is none |
| FrameRing.FrameRing.PinNextInRange | src/frame-ring.cpp:197-215 | pins the next Ready slot in the range, or changes nothing |
| FrameRing.FrameRing.PinForDisplay | src/frame-ring.cpp:217-232 | pins the slot to be shown, or changes nothing |
| FrameRing.FrameRing.Unpin | src/frame-ring.cpp:251-261 | takes one pin off the slot of that generation, if the window still holds it |
| FrameRing.FrameRing.PlanDecodeStart | src/frame-ring.cpp:297-336 | the plan, told in capture times, is the decode start of the frame shown for the target; it catches up if and only if a start was found and decoding the frames in between takes no longer than it takes until the next key is due, if there is one |
| FrameRing.OverwriteIsReserve | src/frame-ring.cpp:56-90 | overwriting the header at the write position is the window's Reserve, across every wrap |
| FrameRing.OverwriteIsSound | src/frame-ring.cpp:56-90 | overwriting a header with a new generation keeps the representation invariant: indices, order and generations apart |
| FrameRing.ChangeIsUpdate | src/frame-ring.cpp:92-128 | changing the header a pair names is changing the window's slot of that name |
| RingRuns.StepKeeps | src/frame-ring.cpp:56-128 | every operation on any of the rings that share the counter keeps the invariant of all of them |
| RingRuns.RunKeeps | src/frame-ring.cpp:56-128 | after any run of such operations, on any number of rings, that invariant holds |
| RingRuns.WindowIsLatest | src/frame-ring.cpp:56-90 | after any interleaving a window is the last min(k, slots) of its ring's k successful reservations, in order, with capture times that never decrease |
| RingRuns.PublishesOnce | src/frame-ring.cpp:117-128 | no (index, generation) job ever publishes twice |
| RingRuns.StaleJobsReachNothing | src/frame-ring.cpp:27-30 | a job names a slot of a ring if and only if it was reserved there and is still among the window's latest, and then it names its own slot: never one of a later reservation or of another ring |
| RingRuns.JobReaches | src/frame-ring.hpp:40-53 | the same for one ring: exactly the latest reservations are still reachable, each at its own position |
| Ownership.OwnershipIsConserved | src/codec-pipeline.cpp:539-563 | in every reachable state an allocation is live if and only if it has an owner, and it has one only: a Ready slot, the graphics thread (overwritten, not freed yet) or one worker (allocated, not published yet) |
| Ownership.PinnedPayloadStays | src/frame-ring.cpp:56-139 | an outstanding view finds its slot still Ready with the same, still live payload: it can be neither overwritten nor published nor dropped |
| Ownership.StepKeeps | src/codec-pipeline.cpp:618-650 | every step of reserve, free, allocate, publish, pin and unpin keeps ownership and pin counts |
| Ownership.RunKeeps | src/codec-pipeline.cpp:618-650 | over every run in which no slot ever has 65536 readers ownership and pin counts stay right |
| Ownership.ViewFindsSlot | src/frame-ring.cpp:251-261 | Unpin of an outstanding view always finds its generation, with a pin to take off |
| Ownership.PinCounterWraps | src/frame-ring.cpp:130-139 | where the promise ends: a full window whose oldest slot has n readers refuses to overwrite it if and only if n is not a multiple of 65536 |
| Decoding.EverythingFromKey | src/codec-pipeline.cpp:1091-1179 | every packet a decoder was ever handed can be traced back, packet by packet of the same chain with consecutive numbers and no flush in between, to a key that decoder took |
| Decoding.BitstreamGrows | src/codec-pipeline.cpp:1091-1179 | handing over a key, or the successor of what the decoder took last, keeps the bitstream valid |
| Decoding.FlushKeepsOthers | src/codec-pipeline.cpp:1032-1042 | a flush leaves what the other decoders stand at |
| Decoding.DecodeContext.DecoderFor | src/codec-pipeline.cpp:999-1015 | the open decoder, or a new one that is made at most once per codec; the bitstream invariant holds for a decoder never seen before |
| Decoding.DecodeContext.ResetDecoders | src/codec-pipeline.cpp:1017-1030 | all decoders closed, no cursor left, nothing handed over |
| Decoding.DecodeContext.FlushDecoders | src/codec-pipeline.cpp:1032-1042 | every open decoder is flushed and every cursor cleared, so the next packet of each codec must be a key |
| Decoding.DecodeContext.SyncDecoders | src/codec-pipeline.cpp:1044-1089 | after switching, adopting and closing idle decoders, a cursor stays only where the very same decoder stays |
| Decoding.DecodeContext.SwitchDecoders | src/codec-pipeline.cpp:1044-1089 | a switch between software and hardware closes exactly the inter decoders |
| Decoding.DecodeContext.AdoptDecoders | src/codec-pipeline.cpp:1044-1089 | a warmed-up decoder is taken only where none is open, without a cursor |
| Decoding.DecodeContext.CloseIdleDecoders | src/codec-pipeline.cpp:1044-1089 | exactly the decoders idle for three seconds are closed |
| Decoding.DecodeContext.DecodePinned | src/codec-pipeline.cpp:1091-1179 | the slot is always unpinned; a packet is handed over exactly when it is a key or follows the cursor; it is Skipped exactly when it is not decodable; a failure flushes the decoder and clears its cursor, success moves the cursor |
| Decoding.DecodeContext.NoteDecode | src/codec-pipeline.cpp:1091-1179 | times and averages of a decode; only a hardware decoder that reports broken ends hardware decoding |
| Decoding.DecodeContext.HandOver | src/codec-pipeline.cpp:1091-1179 | one packet, decodable at the cursor, is handed over, and the whole trace stays a valid bitstream |
| CatchUpWalk.ReachedIffInReach | src/codec-pipeline.cpp:1209-1237 | for every window in time order, every linked stretch from key to due and every cursor: the walk hands over exactly the packets of the due frame's codec from key to due and ends at the one due if and only if the key's time is not 0, and the key (or a copy of its packet) and every later frame of the codec up to due are the first Ready slots of their capture times |
| CatchUpWalk.ReachesDue | src/codec-pipeline.cpp:1209-1237 | one half: in reach, each turn meets the next frame of the codec, decodable at the cursor the one before left, or passes one of another codec |
| CatchUpWalk.OnlyInReach | src/codec-pipeline.cpp:1209-1237 | the other half: a walk that handed over all of them and ended at the one due met each as the first of its time |
| CatchUpWalk.WalkMeets | src/codec-pipeline.cpp:1209-1237 | whatever window and cursor: all the walk hands over are frames of the codec, each the first Ready one of its capture time, later and later and none after the one due |
| CatchUpWalk.NextMeets | src/frame-ring.cpp:197-215 | the range query meets the first Ready slot of the earliest time in the range, before every other Ready slot in it |
| CatchUpWalk.IncreasingIsInReach | src/codec-pipeline.cpp:1209-1237 | strictly increasing times and a key not at time 0 are enough |
| CatchUpWalk.KeyAtTimeZero | src/codec-pipeline.cpp:1209-1213 | whenever the plan's key was captured at time 0, the walk starting with no cursor hands over nothing and never reaches the frame due |
| CatchUpWalk.EqualTimes | src/codec-pipeline.cpp:1209-1237 | a key, a frame captured at the same time and the one due: the walk takes the key and is lost |
| CatchUp.StartFromKey | src/codec-pipeline.cpp:1188-1252 | of catching up and waiting for the next key it does what shows a fresh frame soonest, told in nanoseconds; with nothing due or no affordable plan nothing is decoded, and it waits until the next key; with one, and a decoder that takes every frame, exactly the frames of the codec from the key to the one due are decoded, catchUp of them unshown, and the one due is shown if and only if the ring is in reach; when it is not shown the view waits for a key; the ring ends up as it was |
| CatchUp.CatchUpOn | src/codec-pipeline.cpp:1209-1252 | the same, once the plan is there |
| CatchUp.WalkFromKey | src/codec-pipeline.cpp:1209-1237 | the loop over ring and decode context, for any window and cursor, hands a decoder that takes every frame just what the walk on values meets, in order, and ends where it ends |
| CatchUp.CaughtUpIff | src/codec-pipeline.cpp:1209-1237 | for a planned start: the ring is in reach if and only if such a walk shows the frame due after exactly the planned frames, the plan's catchUp being their count |
| CatchUp.WalkTurn | src/codec-pipeline.cpp:1209-1237 | one turn: go on, or stop at the first frame not before the one due, shown exactly if it is decodable and of the codec; a frame that cannot be decoded ends the walk |
| CatchUp.DecodeAt | src/codec-pipeline.cpp:1091-1179 | one pinned frame decoded and let go of leaves the ring as before the pin; a decoder that accepts it is handed it exactly when it is a key or follows the cursor, which then stands at it |
| CatchUp.PassUnshown | src/codec-pipeline.cpp:1209-1237 | a frame of another codec is passed without touching decoder or cursors; one of this codec is decoded unshown, exactly when it is decodable at the cursor |
| Encoding.EveryFrameDecidedOnce | src/codec-pipeline.cpp:565-718 | whatever packets come out, in whatever order, each frame in flight is decided exactly once and oldest first, or is still in flight |
| Encoding.DropsEach | src/codec-pipeline.cpp:664-673 | an encoder on its way out drops each frame it had in flight, once |
| Encoding.LostIff | src/codec-pipeline.cpp:565-662 | with its own packet a frame is lost if and only if there is no room, or the packet makes no sense and the raw frame was let go, or it is no key of an inter encoder's current chain and that chain is broken; otherwise it is stored with the packet's codec, key flag, number and its chain, or raw for a packet that makes no sense or is raw |
| Encoding.ChainAfter | src/codec-pipeline.cpp:585-652 | a packet breaks its chain, and a key is asked for, exactly when it makes no sense, or is refused without having been lost already; a key stored mends it; chains left and intra packets change neither |
| Encoding.Preparing | src/codec-pipeline.cpp:905-922 | within a cycle an open encoder goes on with its chain; a new encoder, and a new cycle, begin one that starts with a key numbered 0; frames in flight stay |
| Encoding.Sending | src/codec-pipeline.cpp:926-960 | a frame sent takes the next number, on the current chain, forced to be a key exactly when one was wanted, which then is no longer so |
| Encoding.NotSent | src/codec-pipeline.cpp:926-975 | a frame the busy encoder does not take is dropped; one it fails on is stored raw if there is room, and the next of an inter encoder must be a key |
| Encoding.FramesLetGo | src/codec-pipeline.cpp:926-975 | after a send no frame in flight can be stored raw any more |
| Encoding.OutOfTurnCloses | src/codec-pipeline.cpp:675-703 | for all packets: as long as they come in the order the frames were sent each decides its own frame; the first that does not closes the encoder, and every frame still in flight is lost |
| Encoding.EncodeConserves | src/codec-pipeline.cpp:872-975 | the frames in flight before a send and the one sent are, in order, those decided by it and those in flight after it; a frame not sent is decided at once |
| Encoding.EncodeContext.StorePacket | src/codec-pipeline.cpp:565-662 | only the oldest frame's packet decides anything: its fate is as LostIff says, the chain after it as ChainAfter says |
| Encoding.EncodeContext.DropInFlight | src/codec-pipeline.cpp:664-673 | every frame in flight is dropped |
| Encoding.EncodeContext.ReceiveReady | src/codec-pipeline.cpp:675-703 | packets are stored one after the other; the first out of order closes the encoder and loses the rest |
| Encoding.EncodeContext.CloseEncoder | src/codec-pipeline.cpp:705-718 | drains if asked to, and then nothing is in flight and no encoder is open |
| Encoding.EncodeContext.EncodeOne | src/codec-pipeline.cpp:872-975 | makes an encoder or a chain when needed, sends, and settles the frames whose packets come out; what becomes of them is said by Sending, NotSent, LostIff and OutOfTurnCloses |
| Encoding.EncodeContext.Prepare | src/codec-pipeline.cpp:914-922 | a chain starts anew exactly with a new encoder or a new cycle |
| Recording.StoredChainsAreClosed | src/codec-pipeline.cpp:565-662 | over every run of captures, sends, packets, refusals by the arena, busy sends, stale slots and encoder closes, each stored frame that is not a key has its predecessor (same chain and codec, number one less) stored before it with none of its codec between; the frames of a ring left behind excepted |
| Recording.StepKeeps | src/codec-pipeline.cpp:872-975 | each step keeps the invariant that ties ring, queue, frames in flight and chain |
| Recording.RunKeeps | src/codec-pipeline.cpp:872-975 | that invariant holds after every run |
| Recording.DecidedForGood | src/codec-pipeline.cpp:539-563 | what became of a capture never changes again |
| Recording.PacketMends | src/codec-pipeline.cpp:597-652 | after a packet the chain is marked broken unless that very packet is stored |
| Recording.PacketHasReference | src/codec-pipeline.cpp:585-652 | a frame that is stored without being a key refers to the latest stored frame of its codec |
| Recording.PreparedKeeps | src/codec-pipeline.cpp:914-922 | a new chain starts needing a key, whatever the one before had in flight |
| Recording.SendKeeps | src/codec-pipeline.cpp:926-975 | accepted sends are numbered without a gap; busy and failed ones ask for a key where a reference is lost |
| Recording.StoreKeeps | src/codec-pipeline.cpp:565-662 | storing a packet keeps the invariant |
| Recording.DropKeeps | src/codec-pipeline.cpp:664-673 | dropping what an encoder had in flight keeps the invariant |
| Recording.EncodeKeeps | src/codec-pipeline.cpp:872-975 | encoding one capture keeps the invariant |
| Recording.SettleMirrors | src/codec-pipeline.cpp:539-563 | the window always shows what became of the latest captures |
| Recording.CaptureMirrors | src/frame-ring.cpp:56-90 | a new capture slides the window and the record of fates alike |
| Recording.SettleClosed | src/codec-pipeline.cpp:565-662 | deciding one capture leaves every other's reference in place |
| Recording.ShownIffKeyHeld | src/frame-ring.hpp:147-186 | during any recording a Ready frame can be decoded if and only if the window still holds a key of its codec at or before it |
| Recording.PlanFoundIffKeyHeld | src/frame-ring.cpp:297-336 | so the ring's plan has a start, at any time and for any target, exactly then |
| Recording.KeyMakesDecodable | src/frame-ring.hpp:147-186 | in a window whose frames all have their references a key before a frame suffices |
| Recording.ReferenceInWindow | src/frame-ring.hpp:147-186 | a stored reference that the window still holds is the Ready frame of the codec right before |
| Recording.StepStaysOnCourse | src/codec-pipeline.cpp:585-588 | as long as no frame of another ring is sent, no frame is stored unchecked |
| Recording.RunStaysOnCourse | src/codec-pipeline.cpp:585-588 | over every run without a frame of another ring nothing is stored unchecked, so closure has no exception |
| Recording.StrayLacksReference | src/codec-pipeline.cpp:585-617 | a full run in which closure ends: after a new cycle began, a packet of the ring left behind is stored although its reference was lost |
| Strays.LosesIffAtRisk | src/codec-pipeline.cpp:565-662 | from any state the invariants allow, with no further send: some order of packets, refusals by the arena, drops and whatever else happens stores a frame that is no key without its reference, if and only if a frame of this ring is in flight on a chain its encoder has left, was not forced to be a key, and the frame stored last of the codec does not bear its chain and the number before its own (or, where numbers or chain ids have come round, an older frame of the ring is in flight before its predecessor) |
| Strays.ReachableLosesIffAtRisk | src/codec-pipeline.cpp:565-662 | the same in every state a run can reach |
| Strays.NothingLost | src/codec-pipeline.cpp:585-652 | one half, over whole runs: not at risk, every frame stored on the way that is no key has its reference |
| Strays.RefusingLoses | src/codec-pipeline.cpp:585-652 | other half: all frames before it refused, the frame whose predecessor is not stored is stored alone |
| Strays.KeyBeforeLoses | src/codec-pipeline.cpp:585-652 | and where numbers have come round: an older frame stored as a key and the predecessor refused |
| Strays.PredecessorInFlight | src/codec-pipeline.cpp:926-975 | the predecessor of an unforced frame is in flight right before it, unless the frame is the oldest |
| Strays.FlightKeepsItsSlot | src/frame-ring.cpp:56-128 | in every reachable state the slot of every capture in flight is still its own and encoding: its packet can always be published |
| Strays.RunFlights | src/codec-pipeline.cpp:872-975 | over every run the frames in flight stand chain after chain, each the successor of the one before or a forced key that starts a chain, and their slots wait |
| Strays.AloneIsClosed | src/codec-pipeline.cpp:565-662 | over every run in which no frame of another ring is sent every stored frame that is no key has its reference stored, without exception |
| WhatIsStored.PacketStoredIff | src/codec-pipeline.cpp:565-662 | in every state of the invariants: the capture of the oldest frame in flight is lost if and only if its packet finds no memory, or makes no sense with the frame let go, or is no key of the inter encoder's current, broken chain; and its slot, still in the window, is Ready if and only if it was not lost |
| WhatIsStored.KindRunStoresAll | src/codec-pipeline.cpp:565-975 | from any state with an intra encoder or an unbroken chain, over every run that gives no reason to lose a frame (memory, packets that make sense and come in turn, no drop): every capture sent ends up stored or is still in flight |
| WhatIsStored.EverythingIsStored | src/codec-pipeline.cpp:565-975 | the same from the first frame on |
| WhatIsStored.SuccessorStoredIff | src/codec-pipeline.cpp:585-652 | the packet after another of its chain, with memory and making sense, whatever sends and captures come between: it is stored if and only if it is a key, or the encoder is intra or has left the chain, or the packet before was stored as it was sent |
| WhatIsStored.KeyIsAskedFor | src/codec-pipeline.cpp:585-652 | over every run: while the chain is broken a key is wanted of the next frame, or one was forced already and is still to come |
| WhatIsStored.ReachableKeyIsAskedFor | src/codec-pipeline.cpp:585-652 | so in every reachable state |
| WhatIsStored.ForcedKeyMends | src/codec-pipeline.cpp:585-652 | and the packet of a forced key that finds memory is stored and mends the chain |
| RawPool.Pool.constructor | src/codec-pipeline.cpp:441-479 | all frames in the pool |
| RawPool.Pool.AcquireRawFrame | src/codec-pipeline.cpp:441-479 | the frame returned last goes to the graphics thread, if there is one with room |
| RawPool.Pool.ReleaseRawFrame | src/codec-pipeline.cpp:481-488 | the frame goes back from the graphics thread to the pool |
| RawPool.Pool.SubmitEncode | src/codec-pipeline.cpp:496-537 | the frame joins the end of the queue, which never holds more jobs than there are frames |
| RawPool.Pool.TakeJob | src/codec-pipeline.cpp:1508-1521 | jobs are taken in the order they came |
| RawPool.Pool.FinishJob | src/codec-pipeline.cpp:1508-1521 | the job's frame goes back from the worker to the pool |
| RawPool.Pool.Detach | src/codec-pipeline.cpp:289-331 | queued jobs give their frames back, oldest first, frames at a worker stay there, and a new epoch begins |
| RawPool.OnePlaceEach | src/codec-pipeline.cpp:193-201 | each frame is in exactly one of pool, queue, graphics thread and workers |
| RawPool.Acquired | src/codec-pipeline.cpp:441-479 | handing the last free frame out keeps each frame in one place |
| RawPool.Submitted | src/codec-pipeline.cpp:496-537 | queueing a frame of the graphics thread keeps each frame in one place |
| RawPool.Taken | src/codec-pipeline.cpp:1508-1521 | so does a worker taking the front of the queue |
| RawPool.Released | src/codec-pipeline.cpp:193-201 | so does returning a frame, from either side |
| AudioDelay.AudioDelayFilter.EnsureRingSized | src/audio-delay-filter.cpp:73-93 | a change of channels, rate or delay starts over with a ring of delay plus one second; the same settings change nothing |
| AudioDelay.AudioDelayFilter.ResetHistory | src/audio-delay-filter.cpp:95-100 | the history is forgotten, the output's fade state stays |
| AudioDelay.AudioDelayFilter.WriteSilence | src/audio-delay-filter.cpp:102-115 | that many frames of silence join the history, or none if they would fill the ring |
| AudioDelay.AudioDelayFilter.KeepOnClock | src/audio-delay-filter.cpp:141-173 | the loop-free part that keeps the history on the clock does what the timeline does; what that is for whole calls is said by HistoryAfter |
| AudioDelay.AudioDelayFilter.Write | src/audio-delay-filter.cpp:177-194 | the wrapping two-part write of every channel appends to the unbounded history |
| AudioDelay.AudioDelayFilter.ReadAll | src/audio-delay-filter.cpp:205-214 | the wrapping two-part read gives the history at a fixed lag, on every channel |
| AudioDelay.AudioDelayFilter.FadeIn | src/audio-delay-filter.cpp:216-223 | the first samples rise linearly, the others stay |
| AudioDelay.AudioDelayFilter.Play | src/audio-delay-filter.cpp:196-232 | the window delay back, or silence while the history is too short; faded in exactly when it was silent before |
| AudioDelay.AudioDelayFilter.FilterAudio | src/audio-delay-filter.cpp:117-244 | the whole filter does what the unbounded timeline does, chunk after chunk: settings, resets, gaps, jumps and wraps included; the chunk keeps its own timestamp |
| AudioDelay.WrittenHolds | src/audio-delay-filter.cpp:177-194 | writing round the end of the ring keeps slot t mod length equal to frame t of the history |
| AudioDelay.ReadsBehind | src/audio-delay-filter.cpp:205-214 | reading from the computed position, round the end of the ring, gives the frames lag behind the newest |
| AudioDelay.PlayedIsDelayed | src/audio-delay-filter.cpp:196-232 | what is played is, sample by sample, the history at that lag times the fade's gain, or silence |
| AudioDelay.LagIsTheDelay | src/audio-delay-filter.cpp:196-199 | the lag is the full delay if and only if the chunk is no longer than a second |
| AudioDelay.SteadyHistory | src/audio-delay-filter.cpp:132-194 | from a source on time the history is exactly what it delivered |
| AudioDelay.StreamIsDelayed | src/audio-delay-filter.cpp:117-244 | so every chunk it gets out is its own stream, exactly delay * rate frames late, however it was cut into chunks |
| AudioDelay.GapMeasured | src/audio-delay-filter.cpp:149-157 | a gap's frames are counted right if and only if gap * rate fits 64 bits |
| AudioDelay.LongGapForgets | src/audio-delay-filter.cpp:149-157 | below that bound a gap becomes its length in silence, and one as long as the ring ends the history |
| AudioDelay.VeryLongGapForgotten | src/audio-delay-filter.cpp:149-157 | above it, whatever time was expected, a gap of over four days leaves the old history in place with no silence |
| AudioDelay.HistoryKeepsPaceIff | src/audio-delay-filter.cpp:141-173 | for every source on time and every run whose timestamps do not wrap: the clock advances by what the chunks last plus the sum of the tolerated drifts, while the history is exactly what the chunks delivered; so the history keeps pace with the clock if and only if the drifts cancel out, and n chunks put them apart by at most (n - 1) * 10 ms |
| AudioDelay.NewFilterIsJustReset | src/audio-delay-filter.cpp:73-93 | the first chunk of a new filter with at least one channel meets the timeline these runs start from |
| AudioDelay.LatenessAccumulates | src/audio-delay-filter.cpp:41-44 | a source with any number of channels whose every 10 ms chunk comes 10 ms late is never corrected, against what the comment beside the tolerance says: n chunks leave n * 10 ms of history while the clock says (2 * n - 1) * 10 ms |
| Restart.HistoryAfter | src/audio-delay-filter.cpp:117-194 | for every timeline and chunk: when the settings changed, a reset was asked for, the chunk comes more than the tolerance before the expected time, or a gap is as long as the ring, the history after the call is exactly that chunk; otherwise the old history, silence for a longer gap, and the chunk; a chunk as long as the ring is let through and kept out of it |
| Restart.StreamSinceRestart | src/audio-delay-filter.cpp:117-244 | whatever was heard before: from the chunk on at which the filter starts over, a steady source comes out exactly its delay late, with silence until that much of it has come in |
| Utf8.DecodeEncode | src/chat-text.cpp:33-96 | decoding undoes encoding for every scalar value, whatever follows (RFC 3629 sections 3 and 4) |
| Utf8.DecodeEncodeAll | src/chat-text.cpp:33-96 | whole texts of scalar values decode to themselves, and their encoding is well-formed |
| Utf8.Decode | src/chat-text.cpp:33-77 | whatever the bytes, one scalar value and at least one byte consumed |
| Utf8.DecodeReads | src/chat-text.cpp:33-77 | for all bytes: where the encoding of a scalar value stands that value is read, and its bytes; everywhere else one byte is read as U+FFFD |
| Utf8.DecodeAt | src/chat-text.cpp:33-77 | the byte loop computes that |
| Json.RoundTrip | src/json.cpp:50-414 | parsing what was serialized gives the very same value, compact and pretty, for nesting up to 32, distinct keys, any byte strings and integers below 10^15 (RFC 8259 sections 2 to 7) |
| Json.WritingIsInjective | src/json.cpp:365-414 | different values have different texts, in either layout |
| Json.ParsedIsSound | src/json.cpp:50-357 | whatever the text, the value read has no key twice and nests no deeper than allowed |
| JsonGrammar.ParsedIffSpelled | src/json.cpp:50-357 | for every text and value: it parses as that value if and only if it is a spelling of it by the grammar of RFC 8259, sections 2 to 7, with white space, escapes, surrogate pairs, fractions, exponents and repeated keys (the last one counts), nested no deeper than allowed and with numbers a double can hold |
| JsonGrammar.ValueReads | src/json.cpp:92-188 | every spelling of a value reads as what it means, whatever follows |
| JsonGrammar.ValueIsSpelled | src/json.cpp:92-188 | whatever reads as a value is a spelling of one |
| JsonGrammar.CharsRead | src/json.cpp:210-277 | every spelling of a string reads as what it means: plain bytes, short escapes, code units |
| JsonGrammar.UnitRead | src/json.cpp:251-271 | a high and a low unit are the one code point 0x10000 + (high - 0xD800) * 0x400 + (low - 0xDC00); a surrogate alone is U+FFFD, and what follows it is read on its own |
| JsonGrammar.StringIsSpelled | src/json.cpp:210-277 | whatever reads as a string is a spelling of one |
| JsonGrammar.NumberReads | src/json.cpp:279-350 | every number reads as its magnitude with its sign, or is refused if a double cannot hold it |
| JsonGrammar.MagnitudeIsExact | src/json.cpp:279-350 | with up to 17 significant digits and an exponent below a million that magnitude is exactly the decimal number written, fraction and exponent included |
| JsonGrammar.NumberIsSpelled | src/json.cpp:279-350 | whatever reads as a number is a spelling of one |
| Json.ValueReadsBack | src/json.cpp:92-124 | a written value reads back with anything behind it that cannot go on a number |
| Json.ArrayReadsBack | src/json.cpp:163-188 | a written array reads back, its items in order, at any depth of indentation |
| Json.ObjectReadsBack | src/json.cpp:126-161 | a written object reads back, its members in order, since no key occurs twice |
| Json.NumberReadsBack | src/json.cpp:279-356 | and a number: sign, digits, no leading zero |
| Json.IntegerIsFinite | src/json.cpp:279-356 | no integer below 10^15 is out of range |
| Json.QuotedReadsBack | src/json.cpp:542-575 | a quoted string reads back whatever its bytes |
| Json.ByteReadsBack | src/json.cpp:542-575 | each byte, escaped or not, reads back as itself |
| Json.SetMemberSets | src/json.cpp:508-521 | after Set the key has that member and the others keep theirs |
| Json.SetMemberDistinct | src/json.cpp:508-521 | Set never makes a key occur twice |
| JsonText.Set | src/json.cpp:508-521 | the loop replaces the member of that key, or adds one at the end |
| JsonText.Parser.SkipWhitespace | src/json.cpp:74-82 | skips exactly the white space of RFC 8259 |
| JsonText.Parser.Consume | src/json.cpp:84-90 | passes a literal if it is there |
| JsonText.Parser.ParseValue | src/json.cpp:92-124 | accepts exactly the texts the grammar accepts, with its value and the rest; too deep fails |
| JsonText.Parser.ParseObject | src/json.cpp:126-161 | accepts exactly the objects of the grammar; a later member replaces an earlier one of the same key |
| JsonText.Parser.ParseArray | src/json.cpp:163-188 | accepts exactly the arrays of the grammar, items in order |
| JsonText.Parser.ParseHex4 | src/json.cpp:190-208 | four hexadecimal digits |
| JsonText.Parser.ParseString | src/json.cpp:210-277 | escapes, surrogate pairs and lone surrogates, and no control bytes |
| JsonText.Parser.ParseNumber | src/json.cpp:279-350 | integer, fraction and exponent, with at most 17 significant digits counted, and out-of-range values refused |
| JsonText.Parser.Run | src/json.cpp:54-69 | one value with nothing but white space around it, and perhaps a byte order mark before it |
| JsonText.Parse | src/json.cpp:530-533 | the entry point reads exactly what the grammar-level reader does |
| JsonText.Writer.AppendIndent | src/json.cpp:359-363 | a line break and spaces, when pretty |
| JsonText.Writer.AppendQuoted | src/json.cpp:542-575 | the quoted, escaped string is appended |
| JsonText.Writer.SerializeTo | src/json.cpp:365-414 | the value's text is appended |
| JsonText.Serialize | src/json.cpp:535-540 | the entry point writes the text that reads back as the value |
| Tasks.Delivery | src/background-tasks.cpp:263-331 | over every run results start in the order they were posted, each at most once, none of a group still wanted is lost, and the running counters equal the unfinished jobs |
| Tasks.NothingAfterCancel | src/background-tasks.cpp:405-432 | once a group is cancelled or all is shut down none of its results starts any more, but for one that the drain had already cleared to run |
| Tasks.CancelElsewhereTooLate | src/background-tasks.cpp:302-331 | such a run from the start: a result is cleared, its group cancelled, and the result starts |
| Tasks.TooLateIffCleared | src/background-tasks.cpp:302-331 | in any state of the invariant after a group's cancel or the shutdown: some run starts a result of the group if and only if one of the group's is cleared to run at that moment |
| Tasks.CancelBetweenIsFinal | src/background-tasks.cpp:405-432 | over every run whose cancels come while nothing is cleared, as those of the draining thread do: no result of a group starts after its cancel |
| Tasks.AlwaysWoken | src/background-tasks.cpp:263-282 | with a waker that never fails a queue that holds anything always has a wake pending |
| Tasks.AcceptedIff | src/background-tasks.cpp:263-282 | a result joins the queue, behind all others, exactly while nothing is shut down and its group is not cancelled |
| Tasks.TakesAll | src/background-tasks.cpp:302-310 | a drain takes the queue whole and leaves no call of the waker pending |
| Tasks.WokenAgain | src/background-tasks.cpp:263-310 | from there none is pending until the next result is accepted, whatever happens in between: so that result calls the waker |
| Tasks.DrainRunsAll | src/background-tasks.cpp:302-331 | a drain that nothing interrupts starts every queued result of a group not cancelled, in the order of posting, and nothing else |
| Tasks.StepKeeps | src/background-tasks.cpp:203-432 | every step keeps order, ownership and counters |
| Tasks.RunKeeps | src/background-tasks.cpp:203-432 | those hold after every run |
| Tasks.StepStartsNone | src/background-tasks.cpp:302-331 | a step after a cancel starts no result of the group, except the one cleared before |
| Tasks.CancelKeeps | src/background-tasks.cpp:405-432 | cancelling takes out the group's results and keeps the others in order |
| Tasks.CheckKeeps | src/background-tasks.cpp:302-331 | a result looked at under the lock is cleared or thrown away, never both |
| Tasks.PostKeeps | src/background-tasks.cpp:263-282 | a result is accepted only while its group is wanted, whether or not its job still runs |
| Tasks.Registry.StartJob | src/background-tasks.cpp:203-249 | a job starts only while its group is wanted and the thread starts; a failed start takes the counts back |
| Tasks.Registry.FinishJob | src/background-tasks.cpp:227-232 | the counters go down with the job |
| Tasks.Registry.Post | src/background-tasks.cpp:263-282 | accepted exactly while nothing is shut down and the group is not cancelled, even when its job has ended; the waker is called exactly when the result is accepted and no call is pending |
| Tasks.Registry.TakeQueue | src/background-tasks.cpp:302-331 | the drain takes the whole queue, unless shut down |
| Tasks.Registry.CheckNext | src/background-tasks.cpp:302-331 | the next result is looked at again before it runs |
| Tasks.Registry.RunCleared | src/background-tasks.cpp:302-331 | a cleared result runs |
| Tasks.Registry.Cancel | src/background-tasks.cpp:405-432 | the group's queued results go, the others keep their order |
| Tasks.Registry.Shutdown | src/background-tasks.cpp:333-345 | everything queued goes and nothing is accepted any more |
| Tasks.Erase | src/background-tasks.cpp:405-432 | erasing in place leaves exactly the other results, in order |
| BufferFit.SlackFrames | src/buffer-fit.cpp:32-42 | at least a keyframe interval and a quarter of a second |
| BufferFit.DesiredFrames | src/buffer-fit.cpp:44-53 | at least one frame for any frame rate |
| BufferFit.OutputCapScale | src/buffer-fit.cpp:97-115 | a scale above 0 and at most 1 |
| BufferFit.CapIsLeast | src/buffer-fit.cpp:97-115 | where a cap is wanted and the source is the canvas it is the least scale at which the canvas covers the output on both sides, or 1 if that is less; everywhere else 1 |
| BufferFit.FloorIs | src/buffer-fit.cpp:158-163 | the floor is exactly the height asked for, or the cap where that is lower |
| BufferFit.EvenDim | src/buffer-fit.cpp:117-133 | even, at least 2, no more than the source unless that is less |
| BufferFit.AlignedWidth | src/buffer-fit.cpp:135-149 | a multiple of 8, at least 8, no more than the source unless that is less |
| BufferFit.WalkDown | src/buffer-fit.cpp:189-194 | the highest row count from the target down that fits, or the floor's |
| BufferFit.Compute | src/buffer-fit.cpp:151-225 | the computation with its loop gives the result the properties below are about |
| BufferFit.ChooseScale | src/buffer-fit.cpp:174-195 | the walk ends at that row |
| BufferFit.ScaleWithin | src/buffer-fit.cpp:161-195 | the scale never leaves [floor, cap], the 1e-6 guard notwithstanding |
| BufferFit.KeptFit | src/buffer-fit.cpp:201-205 | the frames kept fit the budget, unless only one is |
| BufferFit.DelayIsSpanned | src/buffer-fit.cpp:210-223 | in every branch the delay promised is one the frames kept really span: delay * fpsNum <= (frames - 1) * fpsDen |
| BufferFit.FramesAreMost | src/buffer-fit.cpp:201-205 | all frames wanted are kept if and only if they fit (or only one is wanted); otherwise one more would not fit |
| BufferFit.DelayIsMost | src/buffer-fit.cpp:210-223 | with all frames wanted the delay is the one asked for; with fewer, one more second is more than the frames span, less the slack where there is room for it |
| BufferFit.RowsAreMost | src/buffer-fit.cpp:174-195 | no row count between the one chosen and what the budget pays for would let all frames fit |
| BufferFit.WantedAreFewest | src/buffer-fit.cpp:32-53 | the frames wanted are the fewest that span the delay, plus the slack and one; the slack is the least that covers a keyframe interval and a quarter of a second |
| BufferFit.DimensionsNear | src/buffer-fit.cpp:117-149 | rounding stays near the size asked for: less than two rows, and half of the width's alignment (one and a half where the source ends before) |
| BufferFit.ComputedBounds | src/buffer-fit.cpp:151-225 | all of that about every result |
| BufferFit.BudgetNeverHurts | src/buffer-fit.cpp:151-225 | a larger budget never lowers width, height or frame count |
| BufferFit.ScaleGrows | src/buffer-fit.cpp:174-195 | the scale never falls with a larger budget |
| BufferFit.FramesGrow | src/buffer-fit.cpp:201-205 | with a larger budget no fewer frames are kept, although each may be larger |
| BufferFit.DimensionsGrow | src/buffer-fit.cpp:117-149 | rounding keeps the order of scales |
| BufferFit.IdealGrows | src/buffer-fit.cpp:176-181 | the ideal scale never falls with a larger budget |
| Degradation.LadderDescends | src/degradation-policy.cpp:29-60 | the resolution rungs start at full size, get strictly lower from rung to rung and end at the floor's rounded height (or the full one): none is below it |
| Degradation.RungsAre | src/degradation-policy.cpp:29-60 | every power of the step above the floor has the rung of its height (at most the full one), and every rung below the full size is that of such a power, or the floor's |
| Degradation.HalfRateIsLast | src/degradation-policy.cpp:54-58 | where half the rate is allowed the lowest rung comes once more at the end, for every second capture, and all else is the same |
| Degradation.BuildLadder | src/degradation-policy.cpp:29-60 | the loop ends, with that ladder |
| Degradation.StepDown | src/degradation-policy.cpp:263-281 | going down offers more threads or a lower rung, and only where there is one; that it must, and for which cause, is OverloadActs |
| Degradation.StepUp | src/degradation-policy.cpp:289-326 | going up offers a rung above the current one, or fewer threads than now but no fewer than at first |
| Degradation.NextInRange | src/degradation-policy.cpp:161-334 | rung and step stay in range over every call |
| Degradation.ChangesAreSpaced | src/degradation-policy.cpp:212-334 | with clocks that never go back every change Evaluate makes comes at least immediateSettleNs (or cooldownNs, if less) after every earlier change, whoever made it |
| Degradation.UpAfterStreak | src/degradation-policy.cpp:283-334 | every step up follows a streak of at least upHoldNs in which each evaluation predicted a fit and nothing was changed |
| Degradation.RunKeeps | src/degradation-policy.cpp:161-334 | the two clocks always tell when the last change was and since when the streak lasts |
| Degradation.NextClocks | src/degradation-policy.cpp:189-334 | what one call does to them |
| Degradation.EvaluationWaits | src/degradation-policy.cpp:212-334 | what must have passed for an evaluation to change anything |
| Degradation.Policy.constructor | src/degradation-policy.cpp:146-159 | an empty ladder or list gets its one plain entry; the initial step is clamped |
| Degradation.Policy.ForceLower | src/degradation-policy.cpp:161-166 | one rung lower if there is one, whatever the clocks |
| Degradation.Policy.SetParallelism | src/degradation-policy.cpp:168-177 | new steps with the initial one clamped, the streak forgotten |
| Degradation.Policy.Rebase | src/degradation-policy.cpp:179-187 | a new ladder with the rung clamped, the streak forgotten |
| Degradation.Policy.Apply | src/degradation-policy.cpp:189-210 | one step is taken and both clocks are set |
| Degradation.Policy.Evaluate | src/degradation-policy.cpp:212-334 | decides and changes what the value-level policy says, which OverloadActs and FitActs tell in the sample's own numbers |
| Overload.OverloadActs | src/degradation-policy.cpp:212-281 | in the sample's own numbers, for encode, decode and graphics: once the cooldown (or, beyond the immediate limit, the settle time) has passed with enough samples and the load or the drops over the limit, Evaluate takes a step down whenever one that helps is there, threads first for the encoder, and names the cause; it stays, the streak forgotten, if and only if none is left; without overload it never steps down |
| Overload.ReportedIsOver | src/degradation-policy.cpp:212-281 | the load a step down reports is over a limit of its cause |
| Overload.LastRungReached | src/degradation-policy.cpp:212-281 | over runs: overload at as many evaluations as there are steps down left, threads and rungs, brings the last rung |
| Overload.FitsUpIs | src/degradation-policy.cpp:283-326 | a step up is predicted to fit exactly when nothing is over a limit, settled and sampled, and the predicted loads of the next rung (or of fewer threads) are within their targets |
| Overload.FitActs | src/degradation-policy.cpp:283-334 | a predicted fit starts the streak, keeps it, or, held for upHoldNs, is taken up by exactly one step |
| Overload.LastingFitActs | src/degradation-policy.cpp:283-334 | over runs: a fit that lasts is taken up by the first evaluation at which it has lasted for upHoldNs |
| Overload.ForcedDown | src/degradation-policy.cpp:161-166 | asked to, it goes one rung down whatever the clocks say, while there is one |
| Overload.StartsOver | src/degradation-policy.cpp:168-187 | new steps or a new ladder start where asked, clamped, with both clocks unset |
| AnnexB.SplitTiles | src/annexb.cpp:61-94 | the units tile the packet from its first start code on, each ending where the next begins, with no 00 00 01 inside a payload (section B.1 of ITU-T H.264, B.2 of H.265) |
| AnnexB.Split | src/annexb.cpp:61-94 | the loop finds exactly these units |
| AnnexB.NalsAreSound | src/annexb.cpp:61-94 | each unit's type is its header's, and a parameter set is never empty |
| AnnexB.HasInBandParameterSets | src/annexb.cpp:96-116 | true exactly when every set the codec needs comes before the first slice |
| AnnexB.ExtractParameterSets | src/annexb.cpp:118-134 | the sets before the first slice, each behind a four-byte start code |
| AnnexB.PrependParameterSets | src/annexb.cpp:136-146 | patches exactly the packets that have data and lack sets |
| AnnexB.SetsReadBack | src/annexb.cpp:118-146 | read back with anything behind them, the gathered sets come first |
| AnnexB.PayloadThenStart | src/annexb.cpp:118-134 | a start code behind a payload is the first one met there: none arises across the joint |
| AnnexB.TypesOfNals | src/annexb.cpp:61-94 | the types can be read off the bytes from any position on |
| AnnexB.PatchedHasSets | src/annexb.cpp:61-146 | for every packet with its sets in band and every other packet, the first one's sets in front of the other are in band |
| PatchedPackets.InBandIff | src/annexb.cpp:96-116 | a packet has its sets in band if and only if the codec is H.264 or HEVC and each type it needs is among its units with no slice before it |
| PatchedPackets.PatchedUnits | src/annexb.cpp:61-146 | splitting a patched packet finds the parameter sets of the packet they came from, byte for byte and in order, and behind them the packet's own units unchanged, whenever the packet starts with a start code (a four-byte one, or the last set does not end with a zero) or is empty |
| PatchedPackets.SetsThenUnits | src/annexb.cpp:118-134 | the same for the sets among any sound units |
| PatchedPackets.UnitsOfNals | src/annexb.cpp:61-94 | the units, payload by payload, can be read off the bytes from any position on |
| ChatText.TableAscends | src/chat-text.cpp:106-123 | the table's 79 ranges are ascending and apart |
| ChatText.UpperBound | src/chat-text.cpp:262-272 | the binary search finds how many ranges start at or before a code point |
| ChatText.IsPictographic | src/chat-text.cpp:262-272 | the table search answers membership for every code point |
| ChatText.KeptAreClean | src/chat-text.cpp:274-301 | nothing that is never shown is kept, and no more than there is room for |
| ChatText.CleanIsKept | src/chat-text.cpp:274-301 | a clean text is kept as it is |
| ChatText.KeptIs | src/chat-text.cpp:274-301 | for all bytes: what is kept are the code points of the whole text, every CR LF and CR a line feed, without those that are never shown, cut to the room there is: what stands behind a dropped one survives |
| ChatText.SanitizedIs | src/chat-text.cpp:274-301 | so the text shown is the encoding of the first 4000 of these |
| ChatText.SanitizeIsIdempotent | src/chat-text.cpp:274-301 | for all bytes: cleaning twice is cleaning once, and the result is well-formed UTF-8 of at most 4000 code points, none of a dropped kind |
| ChatText.Sanitize | src/chat-text.cpp:274-301 | the loop computes that text |
| LogRedact.IsGroupedKey | src/log-redact.cpp:962-972 | true exactly for five groups of four letters or digits joined by dashes |
| LogRedact.TokensAreSafe | src/log-redact.cpp:975-1005 | no maximal run is left that looks like a secret |
| LogRedact.RedactLongTokens | src/log-redact.cpp:975-1005 | the loop computes that text |
| LogRedact.Base64KeepsSafe | src/log-redact.cpp:1007-1074 | what the base64 pass puts in neither joins text to a secret nor leaves part of one |
| LogRedact.RedactBase64 | src/log-redact.cpp:1007-1074 | the loop with its counts computes that pass |
| LogRedact.RedactedLineIsSafe | src/log-redact.cpp:1159-1163 | after both passes no run of 24 or more with a digit and a letter, and no grouped key, is left |
| LogRedact.RedactTail | src/log-redact.cpp:1159-1163 | the two passes in sequence leave a text without such runs |
| LogRedact.SafeParts | src/log-redact.cpp:975-1005 | a text is safe exactly when its parts are, if no run crosses the joint |
| LogPieces.TokensKeepTheRest | src/log-redact.cpp:975-1005 | every line is cut into its maximal token runs and what stands between; the pass gives these pieces in order, unchanged, but for the runs that look like a secret |
| LogPieces.Base64KeepsTheRest | src/log-redact.cpp:1007-1074 | the same for the base64 pass: every piece comes through in order and unchanged, but for the runs that stand alone and look encoded |
| LogPieces.EncodedIs | src/log-redact.cpp:1007-1074 | looking encoded, by the loop's counts, is what it is said of the run as a whole: its kinds of characters, its length and how often they change |
| LogPieces.CountsAre | src/log-redact.cpp:1007-1074 | the loop's counts are those of the run |
| LogPieces.KindsAre | src/log-redact.cpp:1007-1074 | its flags tell which kinds of characters the run has |
| LogRedact.Utf8Boundary | src/log-redact.cpp:1192-1197 | the last boundary at or before a position of well-formed text, at most three bytes back |
| LogRedact.CutHead | src/log-redact.cpp:1201-1237 | the head ends with a whole line before that boundary, or at it |
| LogRedact.CutTail | src/log-redact.cpp:1201-1237 | the tail starts with a whole line, or with a whole sequence |
| LogRedact.CapForUpload | src/log-redact.cpp:1201-1237 | well-formed text within the cap is returned as it is; longer text becomes head, marker and tail within the cap, both cut between code points |
| LogRedact.CutIsText | src/log-redact.cpp:1192-1197 | cut at a boundary, well-formed text is well-formed on both sides |
| CivilDate.DaysFromCivil | src/auth-client.cpp:85-94 | the era arithmetic, with division towards zero, counts the days the leap-year rule gives, for all years |
| CivilDate.EpochIsZero | src/auth-client.cpp:85-94 | 1970-01-01 is day 0 |
| CivilDate.NextDayIsOneMore | src/auth-client.cpp:85-94 | from each date of the Gregorian calendar to the next is exactly one day |
| CivilDate.DaysGrow | src/auth-client.cpp:85-94 | later in the calendar is later in days |
| CivilDate.MarchYearLength | src/auth-client.cpp:85-94 | a year from March on has 366 days exactly when it ends with a leap February |
| CivilDate.ParseIsoUtc | src/auth-client.cpp:471-503 | reads exactly the accepted texts, with their seconds since the epoch |
| CivilDate.SecondsGrow | src/auth-client.cpp:471-503 | a later existing time has the larger number |
| CivilDate.LaterReadsLarger | src/auth-client.cpp:471-503 | of two texts that read as existing times one is earlier if and only if its number is smaller |
| CivilDate.ImpossibleDatesCollide | src/auth-client.cpp:471-503 | two such texts and what they read as: 30 February 2024 as 1 March, and a leap second as the next day's first second |
| CivilDate.CollidesIffImpossible | src/auth-client.cpp:471-503 | for every accepted text: it has the number of another, existing time if and only if its own time does not exist |
| CivilDate.TakenForIs | src/auth-client.cpp:471-503 | which time that is: the days over the month's end and the seconds over the minute's carried on, exactly when there are any |
| CivilDate.ReadText | src/auth-client.cpp:471-503 | a text that spells an accepted time reads as its seconds since the epoch |

## Left out

- Threads, locks and condition variables: each locked section is one atomic step, and waiting, deadlines and wake-ups other than the result queue's are not modelled.
- OBS, Qt, FFmpeg, Direct3D and WinHTTP calls: encoders and decoders are objects that accept, refuse, fail or emit packets as they like, within what src/storage-codec.hpp asks of them.
- Telemetry, statistics windows and log lines; latency-based detection of a stalled encoder (its effect, losing what is in flight, is there as drops).
- Duplicated frames of the synchronous path, and the loop around decode-ahead.
- The ring, the arena and the pipeline are not one heap: `Ownership` and `Recording` tie them together on values, and `FrameRing.ReserveLocked` hands the overwritten payload back where the program then frees it.
- `Storage.ChainTracker` is a value held by its context rather than an object of its own.
- Sizes, slot indices, capture times and generations are unbounded where only their order matters; a chain id is taken to be new among the frames in flight, which the 32-bit counter of the program guarantees until it wraps.
- OwnershipIsConserved: for runs in which no slot has 65536 readers at once; PinCounterWraps shows that the bound is needed.
- PinnedPayloadStays: under the same bound.
- StoredChainsAreClosed: frames of a ring left behind are excepted; LosesIffAtRisk says exactly when that matters.
- LosesIffAtRisk: for runs without a further send; a send from another ring can leave more frames behind, which the condition then says anew of that state.
- NothingAfterCancel: a result already cleared to run is excepted; TooLateIffCleared says exactly when there is one. Draining from inside a result is not modelled.
- StartFromKey: which frames are decoded and shown is stated for a decoder that takes every frame while the cycle goes on; of others it says that the ring is left as it was and how long the view then waits. Readers fit the pin counter.
- WalkFromKey: the same; so CatchUpOn and CaughtUpIff.
- EncodeOne: choosing the inter encoder, retiring one and checking its health come before it as closes of the context.
- AcquireRawFrame: whether a frame's storage can grow to the size needed is a predicate.
- ParseNumber: the value is an exact real; its rounding to double is left out. MagnitudeIsExact: beyond 17 significant digits the program counts the rest as zeros, and so does the magnitude.
- KindRunStoresAll: a run with a reason to lose a frame is said by PacketStoredIff packet by packet, and by SuccessorStoredIff and KeyIsAskedFor for what follows a loss.
- SuccessorStoredIff: for the next packet of the same chain with no other decided between; numbers tell packets apart.
- StreamSinceRestart: for a source on time from there on; HistoryAfter says what every other chunk does.
- LastRungReached: for evaluations that each find overload, as samples of a real load do once the cooldown has passed.
- LatenessAccumulates: for up to a million chunks, so that timestamps stay far from wrapping.
- CapForUpload: well-formed UTF-8 only.
- PatchedUnits: a packet that begins without a start code would run on from the last set; PatchedHasSets holds for those too.
- ParseIsoUtc: times are unbounded integers, not time_t.
- RoundTrip: numbers with a fraction, infinities and integers from 10^15 on are left to the floating-point formatter, which is not modelled.
- ChangesAreSpaced: with thresholds that make the cooldown shorter than the settle time, the shorter of the two is the distance; the program's own thresholds give the settle time.
- Floating point: sizing, loads and samples are exact reals, division by zero counts as 0, the square root is given by its defining equation, and the speed-up of sliced encoding is a parameter.
- Overflow of 64-bit products in the sizing for frame rates and keyframe intervals far beyond any real ones.
- The storage behind raw frames (whether one has room is a predicate) and the per-call reallocation of the audio output.
- The other redaction rules of a log line, the chat markup, the account flow, names, layout, hotkeys and the dock: easy or bound to input and output.
