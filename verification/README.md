# Verified model of the live media core

A Dafny model of the parts of the media server through which every live frame passes, with proofs of what
they promise. All names below are those of the model; the table says which source lines each one is about.

**One live cache, many readers.** `GopRing` is the live GOP ring as a value and every locked operation on
it; `GopCommit` says what a commit means for the frames and GOPs that can be found; `GopRegime` is the regime
with bounded GOPs; `GopQueue` is the same ring as the program keeps it, in arrays updated in place, each method
proved to compute the operation on the value. `Seqlock` is the same commit cut into its single loads and stores,
next to any number of readers that take no lock, as a transition system under sequential consistency;
`SeqlockSafety`, `SeqlockWriter`, `SeqlockReader` and `SeqlockRuns` prove its invariant and the theorems about
all interleavings, `SeqlockBytes` those about the bytes in the buffers, `SeqlockCursor` and `SeqlockDeliveries`
those about what a reader is given and in which order, and `SeqlockLimits` has the runs that leave their
conditions. `Interleave` and `GopReader` are the staging area of a reader, which sorts audio and video, and the
policies that place its cursor. The capacity, the length of the GOP index and the lag limit are symbolic; the
program's 512, 32 and 240 are one instance.

**Many wire formats.** `Incremental` is the theory of readers that try a unit, keep what they could not use
and try again: when the way the bytes are cut into calls does not matter, and exactly when it does. It is
used twice. `RtmpChunk`, `RtmpSplit`, `RtmpHeaders`, `RtmpWriter`, `RtmpWire` and `RtmpDemux` are the RTMP chunk
stream (sections 5.3.1 and 5.4.1 of Adobe's RTMP specification 1.0): the reader, its independence of cuts, the
meaning of compressed headers, the writer and the round trip, the form of a message on the wire, and the
independence of chunk streams; `RtmpProtocol` is the object with its table of chunk streams, receive buffer and
output buffer. `HttpFramer` is the HTTP message framer (RFC 9112 section 2.1). `Amf0` and `Amf0Coder` are the
AMF 0 codec, `Handshake` the layout of the digest handshake.

**Time and queues.** `MediaClock` and `MediaTimeline` are inbound timestamps, `MuxTimeline` outbound ones,
`EgressClock` the RTP and NTP conversions and the playing time with pauses (RFC 3550 sections 4 and 6.4.1).
`DropOldest` and `Outboxes` are the two queues that drop their oldest entry.

Check everything with `dafny verify dfyconfig.toml`.

## Where the code and what it promises part

- A full ring without a live GOP overwrites frames that lock-free readers are still told to take
  (`OverwriteIsAnnounced`, `OverwritingCommitIff`, `OverwriteCanBeSilent`); a reader can then be given another
  frame than it asked for (`WrongFrameIsDelivered`). Index correctness is therefore stated for runs without
  such a commit, and the boundary is exact.
- `zms_gop_queue_alloc_write` (src/engine/gop/gop_queue.c:867-887) hands out the buffer of the slot that is next
  without a reference of its own. If readers may still take the frame in that slot, one can come to keep it
  with the bytes of another (`LendingMatters`); if not, all that is kept stays right (`KeptBytes`). If the frame for
  which it was handed out is refused, or the attempt is given up, the reference that is dropped is the only
  one of the slot: from then on it shows a buffer it does not own (`SlotsOwnIff`, `DeadBufferHappens`).
- A buffer that is committed, with a reference of the writer, into the slot that shows it already keeps that
  reference for ever (`Leaked`).
- An empty type 1 chunk header with an extended timestamp, in the middle of a message that began with an
  absolute timestamp, can make the messages depend on how the bytes were cut: its message is at the time it
  says if the header is read once, and at that time plus the time of the message before if it is read twice.
  `MessagesSurviveCutsIff` is the exact condition, `CutsCanMatter` a stream.
- The message stream id comes back byte-reversed (`StreamIdKeptIff`), and so does a chunk stream id of three bytes
  (`IdKeptIff`).
- The message that sets the bandwidth of the peer has its limit type first
  (src/session/rtmp/rtmp_protocol_control.c:28-29), section 5.4.5 of Adobe's RTMP specification 1.0 has it last (`PeerWindowRead`).
- A staged frame with timestamp 2^32-1 is thrown away (`DrainIsPermutationIff`).
- The comment above `seek_clamp_lag` speaks of truncating to the last frame if no synchronisation frame is
  found; the code leaves the cursor where it is, and the model follows the code (`ClampLag`). The comment in
  `zms_gop_reader_seek_live_key` speaks of the first synchronisation frame; the code takes the last
  (`SeekLiveKey`).
- The flush guard of the RTP senders is one variable for all senders of the program
  (src/egress/rtp/rtp_play_pump.c:44). The queue of a sender is used only if a packet comes while some sender is
  flushing (`NeverPendingIff`); from then on an oversized packet is written ahead of pending ones
  (`InOrderIff`, `OvertakingHappens`).
- After an anchor or a synchronisation later in a pause than its first millisecond, the time from the beginning
  of the pause to that call is taken off although it lies before it, until the next such call (`DueIff`,
  `DueWithSkew`, `AnchorInPauseIff`).
- A key of 63 bytes or more is cut to 63 bytes and left without a terminator
  (src/session/rtmp/rtmp_amf.c:203-206). `RoundTripIff` and `EcmaArrayIff` allow keys of 63 bytes because the
  model takes the byte behind them to be zero; without that assumption the bound is 62.
- A raw timestamp of zero switches the clamp between audio and video off for that call (`ZeroBreaksIt`).
- The decoder looks at the byte of a boolean and does not step over it (src/session/rtmp/rtmp_amf.c:106), so that what
  follows is read from there: an object with a boolean is hardly ever decoded (`BooleanInObject`, `BooleanAtTheEnd`).

## Model

| member | source | states |
|---|---|---|
| GopRing.PopKeeps | src/engine/gop/gop_queue.c:564-586 | popping the front GOP never meets the clamp of `count` at zero, keeps the ring consistent, and publishes an `oldest_seq` that is not behind the frames still counted |
| GopRing.TrimKeeps | src/engine/gop/gop_queue.c:588-603 | trimming by time keeps the ring consistent and at least one GOP, and goes on as long as more than one is left and the first is overdue |
| GopRing.PopWhileIndexFullKeeps | src/engine/gop/gop_queue.c:619-623 | making room in the GOP index keeps the ring consistent and ends with room in it |
| GopRing.PopWhileFullKeeps | src/engine/gop/gop_queue.c:661-663 | making room for a frame keeps the ring consistent and ends with a free slot or without a GOP |
| GopRing.FirstGopKeeps | src/engine/gop/gop_queue.c:610-617 | the first GOP starts at the write index; no older one is counted |
| GopRing.NextGopKeeps | src/engine/gop/gop_queue.c:618-628 | a further GOP is appended behind the others, in order, within the length of the index |
| GopRing.PrepareKeeps | src/engine/gop/gop_queue.c:657-663 | before a slot is overwritten there is room, unless the ring was full without a GOP |
| GopRing.OverwriteIsAnnounced | src/engine/gop/gop_queue.c:657-666 | a commit overwrites only a frame that lock-free readers have already been told to refuse, if and only if the ring is not full without a GOP |
| GopRing.SettleKeeps | src/engine/gop/gop_queue.c:673-684 | what follows the overwrite keeps the invariant, never loses the last GOP and leaves no GOP overdue |
| GopRing.StoringKeeps | src/engine/gop/gop_queue.c:657-687 | a whole commit keeps the ring invariant, appends one view at the next absolute index and nothing else, and leaves no GOP overdue; a ring that is full without a GOP stays so |
| GopRing.CommitKeeps | src/engine/gop/gop_queue.c:631-694 | every commit, accepted or refused, keeps the invariant and never moves the write index back |
| GopRing.RunKeeps | src/engine/gop/gop_queue.c:554-694 | every run of commits, clears and settings keeps the ring invariant: `count` within capacity and write index, GOP starts strictly increasing and bounded, the oldest GOP counted, `oldest_seq` not behind |
| GopRing.ReachableKeeps | src/engine/gop/gop_queue.c:712-741 | the invariant holds of every ring reachable from a newly created one |
| GopRegime.StoringStaysLive | src/engine/gop/gop_queue.c:657-687 | with bounded GOPs one commit keeps a GOP live, keeps `oldest_seq` at the start of the oldest GOP and never moves it back |
| GopRegime.RunStaysLive | src/engine/gop/gop_queue.c:631-694 | the same for every run in which GOPs stay within capacity less the frames before the first GOP and one |
| GopRegime.FirstGopEnters | src/engine/gop/gop_queue.c:610-617 | whatever number of frames came before it, the first GOP enters that regime |
| GopRegime.FromTheFirstGopOn | src/engine/gop/gop_queue.c:588-684 | from an empty ring: frames without a GOP, the first GOP, then any bounded GOPs: some GOP is always live, `oldest_seq` is the start of the oldest and never decreases |
| GopRegime.OverwriteCanBeSilent | src/engine/gop/gop_queue.c:657-671 | outside that regime, with the program's own rules for a stream that is configured and then never sends a keyframe: one frame more than the capacity, and frame 0 is overwritten while `oldest_seq` still admits it |
| GopCommit.CommitShows | src/engine/gop/gop_queue.c:631-671 | a commit leaves the frames before it alone and appends, if the frame is admitted, its view field by field: codec, track, flags and bytes as they are, the low 32 bits of the decoding time, and those of the presentation time, which is 0 where it is missing or no other than the decoding time |
| GopCommit.RunShows | src/engine/gop/gop_queue.c:631-694 | over every run from a new ring the frames that can be found are, one by one and in order, the views of those admitted since the ring was cleared last |
| GopCommit.TrimTakes | src/engine/gop/gop_queue.c:588-603 | trimming by time takes exactly the GOPs in front of the first that is not older than the limit, and never the last |
| GopCommit.GopsThatGo | src/engine/gop/gop_queue.c:606-684 | a whole commit gives up exactly the GOPs in front of the first that has no reason to go: too old, no room in the index for the GOP that opens, or no slot; what is left of the others is counted together with the frame |
| GopCommit.AcceptedGoes | src/engine/gop/gop_queue.c:631-687 | the same in terms of the ring before the commit has seen the frame |
| GopCommit.CommitRemembers | src/engine/gop/gop_queue.c:648-679 | what a commit, refused or not, does to the flags: video is known from the first frame of it that is no configuration, the cache starts with the first GOP, and a frame that must not be dropped decides whether a GOP may begin behind it |
| GopCommit.VideoIff | src/engine/gop/gop_queue.c:648-650 | over every run video is known if and only if a frame or a configuration told of it since the ring was cleared last |
| GopCommit.TargetIsNearest | src/engine/gop/gop_queue.c:80-104 | the number of GOPs asked for becomes the nearest that the index allows |
| GopQueue.HoldsOneMore | src/engine/gop/gop_queue.c:665-668 | after the store the slots hold exactly the last `capacity` committed frames, each at its absolute index modulo the capacity |
| GopQueue.Queue.PopFrontGop | src/engine/gop/gop_queue.c:564-586 | the method on the two index arrays does what popping means for the ring value; the clamping branch is unreachable |
| GopQueue.Queue.TrimGopsForTime | src/engine/gop/gop_queue.c:588-603 | the trimming loop on the arrays takes, from the front, only GOPs older than the limit, never the last, and stops in front of one that is not; the rest is the ring value after trimming |
| GopQueue.Queue.OnNewGop | src/engine/gop/gop_queue.c:606-629 | opening a GOP in place computes the new ring value |
| GopQueue.Queue.StoreSlot | src/engine/gop/gop_queue.c:665-671 | the slot array, write index and count after the store, with the view of the frame, field by field, as the last of the frames that the slots hold |
| GopQueue.Queue.PublishOldest | src/engine/gop/gop_queue.c:260-270 | stores the oldest index into `oldest_seq` and nothing else |
| GopQueue.Queue.PrepareCommit | src/engine/gop/gop_queue.c:657-663 | the first half of a commit on the arrays |
| GopQueue.Queue.SettleCommit | src/engine/gop/gop_queue.c:673-684 | the second half of a commit on the arrays |
| GopQueue.Queue.NoteVideo | src/engine/gop/gop_queue.c:648-650 | remembers that video has been seen |
| GopQueue.Queue.NoteKeyPos | src/engine/gop/gop_queue.c:673-679 | remembers whether the last frame that counts was a marker |
| GopQueue.Queue.CommitFrame | src/engine/gop/gop_queue.c:631-694 | the whole locked commit on the arrays: the view of an admitted frame, field by field, at the next index and the frames before it left alone, the rest as the commit of the ring value, `write_seq` caught up; fails exactly for empty data |
| GopQueue.Queue.ClearAll | src/engine/gop/gop_queue.c:846-865 | clearing frees every slot and resets index, GOPs and flags, keeping the settings |
| GopQueue.Queue.SlotAt | src/engine/gop/gop_queue.c:1095-1116 | the slot of any index below the write index holds the newest frame committed at that index up to whole laps; within the last lap that is the frame of the index itself |
| GopQueue.Queue.OldestIdx | src/engine/gop/gop_queue.c:368-377 | start of the oldest GOP, else the oldest counted frame; always within the counted window |
| GopQueue.Queue.BeginningIdx | src/engine/gop/gop_queue.c:360-366 | the oldest counted frame |
| SeqlockWriter.BeginFillKeeps | src/engine/gop/gop_queue.c:239-241 | the first odd step of the slot sequence keeps the invariant of all slots, references and readers |
| SeqlockWriter.StoreBufKeeps | src/engine/gop/gop_queue.c:239-242 | exchanging the buffer pointer moves the slot reference from the old buffer to the new one and keeps the old one protected; a slot that keeps its buffer keeps its reference and retires nothing |
| SeqlockWriter.StoreWordKeeps | src/engine/gop/gop_queue.c:243-251 | each store of one word of the view keeps the invariant |
| SeqlockWriter.EndFillKeeps | src/engine/gop/gop_queue.c:252-253 | the second step of the slot sequence makes the whole new publication visible at once |
| SeqlockWriter.ScanKeeps | src/engine/gop/gop_queue.c:202-229 | the quiescence scan passes a reader only while it is outside its section |
| SeqlockWriter.ReleaseKeeps | src/engine/gop/gop_queue.c:254-257 | dropping the old reference keeps the invariant: a reader that still has the bare pointer is protected by the reference of its slot |
| SeqlockWriter.UnlockKeeps | src/engine/gop/gop_queue.c:686-690 | storing `write_seq` and leaving the mutex keeps the invariant |
| SeqlockWriter.BeginKeeps | src/engine/gop/gop_queue.c:631-656 | beginning a commit keeps the invariant, with a buffer of the writer itself, whoever else holds it, or with the one lent by the slot that will be overwritten |
| SeqlockWriter.LendKeeps | src/engine/gop/gop_queue.c:867-887 | handing out the buffer of the slot that is next, without a reference and only if nobody else owns it, keeps the invariant |
| SeqlockWriter.RejectKeeps | src/engine/gop/gop_queue.c:652-656 | refusing a frame drops the reference of the writer and keeps the invariant, unless the buffer was lent |
| SeqlockWriter.AnnounceKeeps | src/engine/gop/gop_queue.c:260-270 | each store to `oldest_seq` before the overwrite keeps every index that readers may take in the window |
| SeqlockWriter.SettleStoreKeeps | src/engine/gop/gop_queue.c:681-684 | so does each store to it after the overwrite |
| SeqlockWriter.WriterKeeps | src/engine/gop/gop_queue.c:631-694 | every atomic step of the writer keeps the invariant, in any state of the readers |
| SeqlockReader.CopyIsWhole | src/engine/gop/gop_queue.c:401-418 | a copy, whatever order its words were loaded in, that saw the same even sequence number twice is one whole publication |
| SeqlockReader.TryRefIsSafe | src/engine/gop/gop_queue.c:419-422 | `try_ref` is only ever applied to a live buffer |
| SeqlockReader.ThirdLookKeeps | src/engine/gop/gop_queue.c:423-430 | the third look drops the reference again if the slot has moved on |
| SeqlockReader.EnterKeeps | src/engine/gop/gop_queue.c:398-399 | entering the section keeps the invariant |
| SeqlockReader.FirstLookKeeps | src/engine/gop/gop_queue.c:401-405 | an even sequence number belongs to a publication that is not older than the index |
| SeqlockReader.LoadKeeps | src/engine/gop/gop_queue.c:406-409 | each load of one word, in any order, keeps the copy equal to an unchanged slot |
| SeqlockReader.SecondLookKeeps | src/engine/gop/gop_queue.c:410-418 | the second look keeps the invariant in all its outcomes |
| SeqlockReader.TryRefKeeps | src/engine/gop/gop_queue.c:419-422 | taking the reference keeps the invariant |
| SeqlockReader.LeaveKeeps | src/engine/gop/gop_queue.c:403-436 | leaving the section keeps the invariant |
| SeqlockReader.RecheckKeeps | src/engine/gop/gop_queue.c:1208-1218 | delivering or giving up after the test of `oldest_seq` keeps the invariant |
| SeqlockReader.LockedKeeps | src/engine/gop/gop_queue.c:1226-1258 | a locked take keeps the invariant |
| SeqlockReader.DropKeeps | src/engine/gop/gop_queue.c:122-142 | a reader only drops a reference it holds |
| SeqlockReader.RecheckIsExact | src/engine/gop/gop_queue.c:1208-1218 | a lock-free take that passes the last test against `oldest_seq` is exactly the frame committed at that index, in runs that never commit on a full ring without a GOP |
| SeqlockReader.LockedIsExact | src/engine/gop/gop_queue.c:1238-1257 | under the mutex the slot of a counted index shows exactly the frame committed there |
| SeqlockReader.LockedIdxBounds | src/engine/gop/gop_queue.c:453-470 | where the locked path reads from is never behind the cursor and always counted |
| SeqlockReader.ReaderStepKeeps | src/engine/gop/gop_queue.c:383-437 | every atomic step of a lock-free reader keeps the invariant, in any state of the writer |
| SeqlockRuns.StepKeeps | src/engine/gop/gop_queue.c:631-694 | every step of the transition system, writer or reader, keeps the invariant, except for dropping a lent buffer |
| SeqlockRuns.RunKeeps | src/engine/gop/gop_queue.c:1180-1260 | so does every interleaving without such a step, of any length, with any number of readers |
| SeqlockRuns.SeqlockIsSafe | src/engine/gop/gop_queue.c:202-258 | in every state that can be reached without dropping a lent buffer: `try_ref` meets live buffers only, the old reference is released only when nobody holds the bare pointer, except where the slot shows the same buffer again and has its own reference, and what a reader has taken is one publication that it holds a reference to |
| SeqlockRuns.SlotsOwnIff | src/engine/gop/gop_queue.c:652-656 | over every run from an empty ring: all along it every slot has a reference of its own to the buffer it shows, if and only if no frame is refused and no attempt given up whose buffer was lent by its slot |
| SeqlockRuns.RetiredIsGone | src/engine/gop/gop_queue.c:254-257 | when the old reference is about to be released, a reader has the bare old pointer only if the slot it reads shows that buffer again, by a reference of its own |
| SeqlockRuns.DeliveriesAreExact | src/engine/gop/gop_queue.c:1192-1258 | between seeks the delivered indices strictly increase (which ones they are: `NoGaps`, `EveryDelivery`), and in clean runs the view and the buffer delivered at index i are those of the i-th committed frame, on either path; the bytes in the buffer are the subject of `KeptBytes` |
| SeqlockRuns.WindowIntactIff | src/engine/gop/gop_queue.c:260-270 | the slots of all indices that lock-free readers may take show the publication of that very index exactly if `oldest_seq` is within one capacity of `write_seq` |
| SeqlockRuns.OverwritingCommitIff | src/engine/gop/gop_queue.c:657-687 | a commit that overwrites leaves that window intact if and only if it did not begin on a full ring without a GOP |
| SeqlockCursor.LockedIs | src/engine/gop/gop_queue.c:453-470 | under the mutex a reader reads at its cursor unless that is behind the oldest frame; then at the oldest, or, to fill the interleaver, at the first synchronisation frame of the newest GOP or else its start |
| SeqlockCursor.LockedGets | src/engine/gop/gop_queue.c:1226-1258 | a locked take gives the frame there and leaves the cursor one behind it; a reader at the end stays |
| SeqlockCursor.CursorMoves | src/engine/gop/gop_queue.c:1180-1260 | every step of the transition system, in whatever order: only a seek moves the cursor of a reader without giving it a frame; a frame given is the one at the cursor, or under the mutex the one a catch-up goes to, and the cursor is then one behind it |
| SeqlockDeliveries.NoGaps | src/engine/gop/gop_queue.c:1180-1260 | over every run without a seek in which the oldest frame is never past the cursor when the reader reads under the mutex: it is given every frame from its cursor on, without a gap or a repetition, and the cursor is one behind the last |
| SeqlockDeliveries.EveryDelivery | src/engine/gop/gop_queue.c:1226-1238 | over every run without a seek: each frame given follows the one before it, except one that a reader behind the oldest frame catches up to |
| SeqlockDeliveries.CommittedAreBegun | src/engine/gop/gop_queue.c:631-694 | over every run from an empty ring the frames in it are, in order and field by field, those whose commits were begun, all but at most one on its way |
| SeqlockDeliveries.DeliveriesSay | src/engine/gop/gop_queue.c:239-253 | in clean runs the nine words given at an index say, word by word, what the frame begun there was |
| SeqlockDeliveries.StreamArrives | src/engine/gop/gop_queue.c:1180-1260 | from end to end: a reader that keeps up from the beginning on is given exactly the frames that are committed, all of them, in order and each once; each says what its frame was, and has its bytes as long as the reader keeps it |
| SeqlockBytes.LendBytes | src/engine/gop/gop_queue.c:867-887 | lending the buffer of a frame that no reader is given any more keeps the bytes of all the others |
| SeqlockBytes.FillBytes | src/engine/gop/gop_queue.c:899-910 | so does storing bytes into a lent buffer, any number of times, or into one of the writer that no slot shows and no reader keeps |
| SeqlockBytes.WriterBytes | src/engine/gop/gop_queue.c:631-694 | so does every step of a commit; until the slot is overwritten its frame stays out of reach |
| SeqlockBytes.ReaderBytes | src/engine/gop/gop_queue.c:383-437 | so does every step of a lock-free reader: what it comes to keep is the frame committed at the index |
| SeqlockBytes.LockedTakeBytes | src/engine/gop/gop_queue.c:1226-1258 | and every locked take |
| SeqlockBytes.KeptBytes | src/engine/gop/gop_queue.c:867-910 | over every run in which buffers are lent only out of reach of the readers, refilled only while nobody sees them, and no lent one is dropped: in clean runs what a reader keeps is the frame committed at its index, byte for byte, from its delivery on and as long as it is kept |
| SeqlockLimits.TakeSucceeds | src/engine/gop/gop_queue.c:383-437 | undisturbed, a lock-free take delivers what the slot shows, and the cursor stands one behind it |
| SeqlockLimits.FrameArrives | src/engine/gop/gop_queue.c:1180-1260 | with the mutex free and nobody else moving, a reader that is not at the end is given a frame by its own steps: without the mutex the one at its cursor, under it that one or the one a catch-up goes to |
| SeqlockLimits.WriterFinishes | src/engine/gop/gop_queue.c:631-694 | with no reader in its section a commit comes to its end by the steps of the writer alone |
| SeqlockLimits.RefilledIsTaken | src/engine/gop/gop_queue.c:867-910 | if the buffer at hand is that of a frame that lock-free readers may still take, other bytes can be stored into it and a reader then keeps the old view with the new bytes |
| SeqlockLimits.RefilledIsLocked | src/engine/gop/gop_queue.c:1226-1258 | the same for a frame that is still counted and a reader of the whole buffer |
| SeqlockLimits.LendingMatters | src/engine/gop/gop_queue.c:867-887 | whenever a slot lends the buffer of a frame that is not out of reach, a reader can come to keep that frame with other bytes than were committed |
| SeqlockLimits.DeadBufferIsMet | src/engine/gop/gop_queue.c:652-656 | whenever a frame is refused whose buffer was lent, and lock-free readers may still take what the slot shows, `try_ref` is applied to a dead buffer by the next one |
| SeqlockLimits.LentInReach | src/engine/gop/gop_queue.c:867-887 | a run to such a state: a ring full of configuration frames and nothing else |
| SeqlockLimits.DeadBufferHappens | src/engine/gop/gop_queue.c:652-656 | and on to the dead buffer: then a frame is refused because no key frame has come yet |
| SeqlockLimits.WrongFrameIsDelivered | src/engine/gop/gop_queue.c:657-671 | one configuration frame more instead, and a lock-free reader is given, at index 0, the frame committed at the index of the capacity |
| Interleave.PickIsLeast | src/engine/gop/gop_queue.c:145-182 | without wrap-around the skew never changes the choice: least timestamp, audio before video on a tie, then staging order |
| Interleave.PickIsLeastIff | src/engine/gop/gop_queue.c:166-174 | with wrap-around of the 32-bit sums: the choice is the least frame if and only if no wrapped sum makes the later frame look overdue |
| Interleave.DrainKeepsTimed | src/engine/gop/gop_queue.c:1262-1331 | a staged frame comes out exactly as often as it was staged, unless its timestamp is 2^32-1 |
| Interleave.DrainIsPermutationIff | src/engine/gop/gop_queue.c:1295-1331 | a batch comes out as a permutation of itself if and only if no timestamp in it is 2^32-1 |
| Interleave.DrainIsOrderedIff | src/engine/gop/gop_queue.c:1295-1331 | what comes out is ordered by timestamp, audio before video on ties, if and only if no wrapped sum misleads a choice of the whole drain |
| Interleave.NoWrapNeverMisled | src/engine/gop/gop_queue.c:166-174 | none does if no sum of timestamp and skew reaches 2^32 |
| Interleave.DrainIsStable | src/engine/gop/gop_queue.c:1295-1331 | frames of one track with one timestamp keep their staging order, whether sums wrap or not |
| Interleave.DrainIsStableSort | src/engine/gop/gop_queue.c:1295-1331 | together: draining a batch is a permutation of it and stable, and a stable sort exactly if no choice is misled |
| GopReader.Reader.PickBest | src/engine/gop/gop_queue.c:145-182 | the scan over the staging array finds the specified choice |
| GopReader.Reader.PeekStaged | src/engine/gop/gop_queue.c:1280-1292 | a peek shows the frame the next read takes and leaves the batch alone; if there is none the area is cleared |
| GopReader.Reader.ReadStaged | src/engine/gop/gop_queue.c:1311-1330 | a read takes the chosen frame out and closes up the array |
| GopReader.Reader.DrainStaged | src/engine/gop/gop_queue.c:1295-1331 | reading until the area is empty emits exactly the specified drain |
| GopReader.Reader.PeekMuxed | src/engine/gop/gop_queue.c:1262-1293 | with filling: the frame shown is the choice of what is staged, or else of the next run of frames from the cursor on, which is then staged |
| GopReader.Reader.ReadMuxed | src/engine/gop/gop_queue.c:1295-1331 | with filling: takes out the choice of what is staged, or else of the next run of frames, and leaves the others staged in their order |
| GopReader.Reader.FillOne | src/engine/gop/gop_queue.c:439-534 | staging one frame appends what the slot at the cursor shows and moves the cursor one on; a cursor whose frame has been given up snaps first |
| GopReader.Reader.Snap | src/engine/gop/gop_queue.c:454-470 | a cursor behind the oldest kept frame moves to the first synchronisation frame from the start of the newest GOP on, or to that start if there is none; otherwise it stays |
| GopReader.Reader.SeekStart | src/engine/gop/gop_reader_seek.c:143-150 | where seeks begin: at the start of the newest GOP, or without one at the lag limit |
| GopReader.Reader.Fill | src/engine/gop/gop_queue.c:536-552 | a batch is what a run of consecutive slots shows, from the cursor on or from where it snaps to; within the last lap exactly the frames committed there; it has 24 frames or ends at the live edge |
| GopReader.Reader.Attach | src/engine/gop/gop_queue.c:1044-1061 | a live reader starts at the oldest GOP |
| GopReader.Reader.AttachBeginning | src/engine/gop/gop_queue.c:1025-1042 | a reader of the whole buffer starts at the oldest counted frame |
| GopReader.Reader.SeekLive | src/engine/gop/gop_reader_seek.c:13-42 | forward only and at most the lag limit behind; a cursor past the edge steps back to the last frame |
| GopReader.Reader.ClampLag | src/engine/gop/gop_reader_seek.c:50-70 | too far behind: the first synchronisation frame within the limit; if there is none the cursor stays, unlike the comment above the code says |
| GopReader.Reader.SeekGopKey | src/engine/gop/gop_reader_seek.c:72-121 | the first synchronisation frame of the newest GOP, or its start, then clamped; the backward scan finds nothing new |
| GopReader.Reader.SeekLiveKey | src/engine/gop/gop_reader_seek.c:123-163 | the last synchronisation frame of the newest GOP, or its start |
| GopReader.Reader.ApplyPick | src/engine/gop/gop_reader_seek.c:179-214 | the last IDR within the limit, else the last synchronisation frame within it, else the edge; the rescan for an IDR never finds one |
| GopReader.Reader.SeekLiveIdr | src/engine/gop/gop_reader_seek.c:216-286 | the same preference for the whole seek; the third scan never decides |
| GopReader.Reader.SeekRtspIdr | src/engine/gop/gop_reader_seek.c:288-329 | the same, except that a GOP without an IDR is entered at the live edge |
| GopReader.StartsWithinLag | src/engine/gop/gop_reader_seek.c:179-329 | a cursor placed by these seeks is at least one frame and at most the lag limit behind the edge |
| Incremental.CutsDoNotMatter | src/session/rtmp/rtmp_protocol.c:116-136 | for any reader whose failed attempts can be repeated, feeding a stream in any pieces equals one pass over all of it: output, left-over bytes and state |
| Incremental.CutsMatterIff | src/session/rtmp/rtmp_protocol.c:116-136 | for a stream, all cuttings into non-empty pieces give the same result if and only if no unit in it begins with an input at which repetition goes wrong; otherwise even what is emitted differs |
| Incremental.FeedAlike | src/session/rtmp/rtmp_protocol.c:116-136 | states that the next unit treats alike can be exchanged: a stream in any pieces emits the same, keeps the same bytes and ends in states that are alike |
| RtmpChunk.ReadBasic | src/session/rtmp/rtmp_protocol_chunk_read.c:154-175 | basic headers of one to three bytes; never claims more bytes than there are |
| RtmpChunk.Payload | src/session/rtmp/rtmp_protocol_chunk_read.c:211-246 | extended timestamp and payload of one chunk: keeps received bytes within the announced length, uses at most the bytes there are |
| RtmpChunk.Attempt | src/session/rtmp/rtmp_protocol_chunk_read.c:149-247 | one attempt at a chunk keeps the parser invariant and emits at most one message |
| RtmpSplit.ChunkExtends | src/session/rtmp/rtmp_protocol_chunk_read.c:149-247 | a whole chunk is read the same whatever follows it |
| RtmpSplit.HeaderTwice | src/session/rtmp/rtmp_protocol_chunk_read.c:188-209 | reading the same header a second time changes nothing, although the first reading changed the chunk stream |
| RtmpSplit.HeaderTwiceAbandons | src/session/rtmp/rtmp_protocol_chunk_read.c:188-209 | except when an empty type 1 header abandons an unfinished message that began with an absolute timestamp |
| RtmpSplit.AbandonedTimes | src/session/rtmp/rtmp_protocol_chunk_read.c:243-245 | then the next message gets the previous timestamp added or not, depending on the cut |
| RtmpSplit.RetryResumes | src/session/rtmp/rtmp_protocol_chunk_read.c:177-231 | a stalled chunk can be retried from its first byte |
| RtmpSplit.ChunkCutsDoNotMatter | src/session/rtmp/rtmp_protocol.c:116-136 | however a stream without such headers is cut into calls, messages, left-over bytes and the whole parser state are those of one pass |
| RtmpSplit.MessagesSurviveCutsIff | src/session/rtmp/rtmp_protocol.c:96-136 | all cuttings of a stream into non-empty calls dispatch the same messages if and only if it has no such header, with its four bytes of extended timestamp, behind a message with another time than 0 or after a change of message stream; then left-over bytes and state agree as well, up to what the next header sets |
| RtmpSplit.HarmDerails | src/session/rtmp/rtmp_protocol_chunk_read.c:188-247 | at such a header: the message is at the extended time if the header is read once, and at that time plus the previous one if it is read twice |
| RtmpSplit.CutsCanMatter | src/session/rtmp/rtmp_protocol_chunk_read.c:188-247 | a stream of 165 bytes and two ways to cut it into non-empty calls, which dispatch messages at times 5 and 1, and at 5 and 6 |
| RtmpHeaders.ShortReads | src/session/rtmp/rtmp_protocol_chunk_read.c:130-247 | a message of any length with a header of type 1, 2 or 3 arrives with the length, type, stream and time of the last one except for what the header says, the time moved on by its delta, extended or not |
| RtmpHeaders.UnitRemembers | src/session/rtmp/rtmp_protocol_chunk_read.c:121-127 | between messages every chunk stream holds the values of its last message |
| RtmpHeaders.StreamRemembers | src/session/rtmp/rtmp_protocol_chunk_read.c:121-127 | so after any stream of whole chunks from the beginning of the connection |
| RtmpWriter.BasicRoundTripIff | src/session/rtmp/rtmp_protocol_chunk_write.c:4-29 | among the ids the reader accepts, the written basic header is read back exactly for ids above 1 |
| RtmpWire.IdKeptIff | src/session/rtmp/rtmp_protocol_chunk_write.c:4-29 | any id up to 65599 is read back from its written basic header if and only if it is below 320 or its two bytes are the same: writer and reader disagree about their order |
| RtmpWriter.StreamIdKeptIff | src/session/rtmp/rtmp_protocol_util.c:3-31 | the message stream id is written in one byte order and read in the other: it survives exactly if it is a palindrome of bytes |
| Bytes.Swap32Twice | src/session/rtmp/rtmp_protocol_util.c:3-31 | writing and reading in opposite byte orders twice gives the number back |
| RtmpWriter.MessageReads | src/session/rtmp/rtmp_protocol_chunk_read.c:143-253 | a written message is read back whole, whatever its length in chunks, and the reader is then between messages |
| RtmpWire.MessageOnWire | src/session/rtmp/rtmp_protocol_chunk_write.c:31-95 | the bytes of a written message in terms of the message alone: first byte by type, time, length, type and stream id in their places, the time once more if it does not fit, and in front of every further part of the body a byte of type 3 |
| RtmpWriter.SessionReads | src/session/rtmp/rtmp_protocol_chunk_write.c:31-95 | a whole session in one pass: exactly the messages sent, nothing left over, no abandoning header |
| RtmpWriter.RoundTrip | src/session/rtmp/rtmp_protocol_chunk_write.c:31-95 | the same in any pieces: types, timestamps including extended ones and bodies in order, and the reader at the announced chunk size |
| RtmpWriter.DisciplineAgrees | src/session/rtmp/rtmp_protocol.c:176-182 | a sender that announces each chunk size before using it agrees with its peer before every message and at the end |
| RtmpWriter.ServerInitArrives | src/session/rtmp/rtmp_protocol_control.c:3-47 | the opening of a session arrives as its four messages and leaves both sides at 4096 |
| RtmpWire.OpeningIs | src/session/rtmp/rtmp_protocol_control.c:3-47 | the messages of the opening: types, lengths and what their bodies say |
| RtmpWire.PeerWindowRead | src/session/rtmp/rtmp_protocol_control.c:25-33 | the bandwidth message has the limit type in front of the window; read in the order of section 5.4.5 of the RTMP specification 1.0, the window is 33573963 and the limit type 64 |
| RtmpProtocol.Protocol.ReadMessageHeader | src/session/rtmp/rtmp_protocol_chunk_read.c:188-209 | the field updates with fall-through give the specified header effect on that chunk stream only |
| RtmpProtocol.Protocol.DispatchMessage | src/session/rtmp/rtmp_protocol_chunk_read.c:60-128 | finishing a message: absolute or relative timestamp, chunk size change, remembered header, stream at rest |
| RtmpProtocol.Protocol.ReadPayload | src/session/rtmp/rtmp_protocol_chunk_read.c:211-246 | the payload step in place; the error return for a message shorter than its received part is unreachable |
| RtmpProtocol.Protocol.RestoreFromLast | src/session/rtmp/rtmp_protocol_chunk_read.c:130-141 | a stream with a last message takes its values, another is left alone |
| RtmpProtocol.Protocol.ReadChunk | src/session/rtmp/rtmp_protocol_chunk_read.c:149-247 | one attempt at the chunk at the front, in place |
| RtmpProtocol.Protocol.ParseChunks | src/session/rtmp/rtmp_protocol_chunk_read.c:143-253 | the cursor loop is one pass of the specified machine; it always terminates |
| RtmpProtocol.Protocol.Input | src/session/rtmp/rtmp_protocol.c:116-136 | append, parse, consume until nothing is consumed: exactly the specified drive of the machine |
| RtmpProtocol.Protocol.SetOutChunkSize | src/session/rtmp/rtmp_protocol.c:176-182 | zero stands for the default size |
| RtmpProtocol.Protocol.SendChunk | src/session/rtmp/rtmp_protocol_chunk_write.c:31-95 | writes exactly the message in chunks into the buffer from the given place, or fails exactly if it does not fit, leaving what is before it alone |
| RtmpProtocol.Protocol.SendServerInit | src/session/rtmp/rtmp_protocol_control.c:3-47 | writes exactly the opening messages with the size change between the first and the second, or fails exactly if they do not fit |
| RtmpDemux.Demultiplexes | src/session/rtmp/rtmp_protocol_chunk_read.c:182-246 | the messages of one chunk stream, and its state, are those obtained from that stream's chunks alone, as long as no message changes the chunk size |
| RtmpDemux.DemultiplexesInPieces | src/session/rtmp/rtmp_protocol_chunk_read.c:182-246 | the same for a stream that arrives in any pieces |
| MediaClock.TakeInIsGentle | src/engine/media_clock.c:45-71 | taking in any raw time moves a track by at most 300 ms |
| MediaClock.StepTaken | src/engine/media_clock.c:45-71 | a step of at most 300 ms is taken as it is, in place of a longer one the last step forward again, and each such jump asks for a synchronisation |
| MediaClock.JumpsAreBridged | src/engine/media_clock.c:113-133 | over every run of video with a steady step and any jumps in between, forward or back, the relative time is the number of steps times the step |
| MediaClock.VideoCall | src/engine/media_clock.c:344-353 | what a video call does to the two relative times: a step of the video track, and of tracks more than 300 ms apart the one ahead is taken back |
| MediaClock.AudioCall | src/engine/media_clock.c:73-111 | what an audio call does: if the tracks are to be synchronised, audio that is behind by more than 300 ms goes on to video, video goes back to audio that is behind by less, and audio that is not behind moves neither; the counts go down by one |
| MediaClock.FirstAudioAlignsIff | src/engine/media_clock.c:73-111 | after any run of video the first audio frame brings both tracks to one time if and only if video has not gone back by up to 300 ms |
| MediaClock.AlignmentHappens | src/engine/media_clock.c:88-103 | video 200 ms on when audio begins goes back to where audio begins |
| MediaClock.CallClamps | src/engine/media_clock.c:328-342 | with clamping on, every call that leaves both tracks seen leaves them at most 300 ms apart, whatever the state and the input |
| MediaClock.CallMovesLittle | src/engine/media_clock.c:344-364 | from tracks that are together a call with a non-zero time moves neither by more than 600 ms |
| MediaClock.StaysSeenIff | src/engine/media_clock.c:328-332 | a track seen stays seen if and only if the raw time is not zero |
| MediaClock.TracksStayTogether | src/engine/media_clock.c:45-133 | over every run of non-zero raw times: once seen, the tracks stay within 300 ms, and each call moves either by at most 600 ms |
| MediaClock.SixHundredHappens | src/engine/media_clock.c:73-111 | the bound of 600 ms is attained, by the last of four calls on a fresh timeline |
| MediaClock.ZeroBreaksIt | src/engine/media_clock.c:329-332 | with a raw time of zero the tracks can be 600 ms apart after four calls |
| MediaTimeline.TrackStamp.TakeDelta | src/engine/media_clock.c:45-71 | the step of one track in place |
| MediaTimeline.TrackStamp.SyncToMaster | src/engine/media_clock.c:73-111 | synchronisation in place, as in `AudioCall` |
| MediaTimeline.TrackStamp.Revise | src/engine/media_clock.c:113-133 | taking in a raw time and synchronising, in place |
| MediaTimeline.TrackStamp.SyncTo | src/engine/media_clock.c:36-43 | points the track at its master and asks for synchronisations |
| MediaTimeline.InboundTimeline.LinkStamps | src/engine/media_clock.c:135-142 | links audio to video once |
| MediaTimeline.InboundTimeline.ClampAv | src/engine/media_clock.c:328-342 | the clamp in place |
| MediaTimeline.InboundTimeline.TakeVideo | src/engine/media_clock.c:344-353 | a video call on the linked objects equals the specified call; the result is the relative time modulo 2^32 |
| MediaTimeline.InboundTimeline.TakeAudio | src/engine/media_clock.c:355-364 | the same for audio |
| MuxTimeline.PeakIsGreatest | src/engine/media_clock.c:387-390 | closed form: the greatest of the relative inputs, each moved on by its distance from the end |
| MuxTimeline.OutsArePeaks | src/engine/media_clock.c:374-393 | while it fits into 32 bits, every output is that closed form |
| MuxTimeline.IncreasingIff | src/engine/media_clock.c:387-391 | the outputs increase strictly if and only if the closed form fits into 32 bits |
| MuxTimeline.OutsAreLeast | src/engine/media_clock.c:374-393 | the outputs start at 0, are never early, and are pointwise below every other strictly increasing sequence that is never early |
| MuxTimeline.SingleTimeline.Pts | src/engine/media_clock.c:374-393 | each call returns the next element of that sequence |
| MuxTimeline.TracksFlowIff | src/engine/media_clock.c:415-455 | through any mix of timestamps and new origins each track never goes back, and goes on once positive, if and only if its last output, computed from the calls with unbounded numbers, is below 2^32; and then that is the output |
| MuxTimeline.UnwrappedIsGreatest | src/engine/media_clock.c:426-455 | closed form of that output: the greatest of the times asked for, each moved on by one for every later call of its track |
| MuxTimeline.AvTimeline.NextPts | src/engine/media_clock.c:426-455 | the method computes the next output of the track and leaves the other alone |
| MuxTimeline.AvTimeline.ShiftOrigin | src/engine/media_clock.c:415-424 | a new origin for both tracks that keeps their last outputs |
| MuxTimeline.AvTimeline.LockOrigin | src/engine/media_clock.c:403-413 | a new origin for both tracks that starts their outputs again |
| HttpFramer.SearchTail | src/session/http/http_message_framer.c:16-24 | the scan finds the first empty line |
| HttpFramer.CacheHolds | src/session/http/http_message_framer.c:123-169 | what is cached has no complete header while a header is awaited, less than the body while a body is, and nothing of an endless body |
| HttpFramer.PiecesAreOnePass | src/session/http/http_message_framer.c:77-170 | input that fits into the cache as a whole, in any non-empty pieces, gives the headers, bodies and state of one pass (what these are: `FramingIff`), and no call fails |
| HttpFramer.CutsDoNotMatter | src/session/http/http_message_framer.c:77-170 | so any two ways to cut it agree |
| HttpFramer.FramingIff | src/session/http/http_message_framer.c:77-170 | one pass over any bytes: texts, bodies and parts joined in order, and what stays cached behind them, are the input; each header ends at its first empty line, the body behind it has exactly the length that was answered; and no other way to take the input apart is like that |
| HttpFramer.NothingIsLost | src/session/http/http_message_framer.c:77-170 | the same over any calls whose input fits into the cache |
| HttpFramer.EndlessBody | src/session/http/http_message_framer.c:164-169 | the pieces of a body that lasts until the connection closes add up to the same bytes |
| HttpFramer.MessageFramer.Input | src/session/http/http_message_framer.c:77-170 | the loop with its jump back equals one call of the specified framer; all bytes of the callbacks and the cache together are those before with the input behind them; too much input resets it and fails |
| HttpFramer.MessageFramer.TakeHeaders | src/session/http/http_message_framer.c:102-121 | takes complete headers off the front until a body is due or none is left |
| HttpFramer.MessageFramer.Reset | src/session/http/http_message_framer.c:62-70 | back to waiting for a header with an empty cache |
| Amf0.Decode | src/session/rtmp/rtmp_amf.c:64-218 | decoding any bytes from any place ends, and a success lies strictly ahead within the input |
| Amf0.RoundTripIff | src/session/rtmp/rtmp_amf.c:64-218 | a tree of numbers, texts, nulls and objects is decoded from its encoding, wherever it stands and whatever follows, if and only if its texts are below 65536 bytes and its keys have 1 to 63; the decoder then stops exactly behind it |
| Amf0.TextSurvives | src/session/rtmp/rtmp_amf.c:41-62 | a text survives exactly below 65536 bytes |
| Amf0.TextIff | src/session/rtmp/rtmp_amf.c:41-142 | a text of either kind, with two bytes of length or with four, is decoded exactly if all of it is there, to what a C string shows of its bytes, ending behind them |
| Amf0.ScalarIs | src/session/rtmp/rtmp_amf.c:72-117 | numbers, booleans, null and undefined: what they decode to and where they end; the byte of a boolean is not stepped over |
| Amf0.BooleanInObject | src/session/rtmp/rtmp_amf.c:101-108 | so behind a boolean in an object its byte is read again, as the first of the next length: the object is invalid, or ends at the length of a key of nine bytes |
| Amf0.BooleanAtTheEnd | src/session/rtmp/rtmp_amf.c:101-210 | an object whose last value is a boolean is never decoded from its own bytes |
| Amf0.KeyShows | src/session/rtmp/rtmp_amf.c:192-196 | a key is what a C string shows of its first 63 bytes |
| Amf0.EcmaArrayIff | src/session/rtmp/rtmp_amf.c:162-210 | the same pairs behind a count survive exactly under the same condition, and the count plays no role |
| Amf0.FindIff | src/session/rtmp/rtmp_amf.c:248-259 | with distinct keys a look-up finds exactly the pair with that key |
| Amf0.ObjectGet | src/session/rtmp/rtmp_amf.c:248-259 | the search loop returns the first pair with the key, or fails exactly if there is none |
| Amf0Coder.DecodeOne | src/session/rtmp/rtmp_amf.c:64-218 | the decoder with its moving offset computes the specified decoding |
| Amf0Coder.DecodeMembers | src/session/rtmp/rtmp_amf.c:171-210 | the loop over the pairs of an object does |
| Amf0Coder.EncodeString | src/session/rtmp/rtmp_amf.c:261-274 | writes exactly the encoding, or returns 0 exactly if there is no room |
| Amf0Coder.EncodeNumber | src/session/rtmp/rtmp_amf.c:304-327 | the same for numbers |
| Amf0Coder.EncodeNull | src/session/rtmp/rtmp_amf.c:329-336 | the same for null |
| Amf0Coder.EncodeNumbers | src/session/rtmp/rtmp_amf.c:276-302 | the same for strict arrays of numbers, refusing counts above 2^31-1 |
| Amf0Coder.ArrayIsDropped | src/session/rtmp/rtmp_amf.c:143-161 | the decoder steps exactly over a strict array that this encoder wrote, and drops it |
| Handshake.ParseThenJoin | src/session/rtmp/rtmp_handshake.c:149-249 | every 1536 bytes in either schema are put together again as they were; without the digest exactly its 32 bytes are missing |
| Handshake.JoinThenParse | src/session/rtmp/rtmp_handshake.c:251-280 | every well-formed structure is parsed back from its bytes |
| Handshake.ParsesAreWellFormed | src/session/rtmp/rtmp_handshake.c:92-173 | every 1536 bytes parse into parts of the right lengths: the error returns are only for missing memory |
| Handshake.DigestOffset | src/session/rtmp/rtmp_handshake.c:32-36 | the place of the digest is always inside its block |
| Handshake.KeyOffset | src/session/rtmp/rtmp_handshake.c:38-42 | the place of the key is always inside its block |
| Handshake.DigestIsAt | src/session/rtmp/rtmp_handshake.c:76-119 | the digest lies behind the first four bytes of its block, by the sum of these bytes modulo 728, in either schema |
| Handshake.KeyIsAt | src/session/rtmp/rtmp_handshake.c:121-147 | the key lies in its block by the sum of the last four bytes of the block modulo 632 |
| Handshake.MatchesIff | src/session/rtmp/rtmp_handshake.c:282-299 | validity in terms of bytes: the 32 bytes at the digest's place are the keyed hash of all the others |
| Handshake.SignedIsValid | src/session/rtmp/rtmp_handshake.c:344-356 | every answer, whatever its random parts and whatever the hash, recomputes its own digest after it was sent and parsed |
| Handshake.Join | src/session/rtmp/rtmp_handshake.c:229-249 | the bytes put into the buffer, with or without the digest |
| Handshake.CopyDigest | src/session/rtmp/rtmp_handshake.c:175-195 | the digest block from the moving position on |
| Handshake.CopyKey | src/session/rtmp/rtmp_handshake.c:197-215 | the key block from the moving position on |
| Handshake.Dump | src/session/rtmp/rtmp_handshake.c:251-280 | writing block by block fills the buffer with the same bytes |
| DropOldest.RunConserves | src/egress/egress_pipeline.c:164-262 | over any run of pushes, flushes and clears: pushed is sent and dropped, in order, followed by pending, in order; the counts add up and never more than the capacity is pending |
| DropOldest.PushIs | src/egress/egress_pipeline.c:190-226 | a push drops the oldest entry if the queue is full, and nothing otherwise |
| DropOldest.FlushIs | src/egress/egress_pipeline.c:228-262 | a flush sends the oldest entries in order, as many as there are within the budget |
| DropOldest.DiscardIs | src/egress/egress_pipeline.c:164-178 | a clear drops all of them in order |
| DropOldest.PopLive | src/egress/egress_pipeline.c:256-257 | taking the front slot: contents, empty slots and the write position stay right |
| DropOldest.PushLive | src/egress/egress_pipeline.c:216-224 | filling the next slot: the same |
| Outboxes.FlvOutbox.Push | src/egress/egress_pipeline.c:190-226 | drops the oldest tag exactly if the outbox is full, then appends |
| Outboxes.FlvOutbox.Flush | src/egress/egress_pipeline.c:228-262 | sends the oldest tags, at most the budget, in order |
| Outboxes.FlvOutbox.Clear | src/egress/egress_pipeline.c:164-178 | drops everything that is pending |
| Outboxes.SubmitKeepsOrderIff | src/egress/rtp/rtp_play_pump.c:214-233 | with queueing on, whatever the flush guard says, a packet keeps its place in the order if and only if nothing is pending or it fits into a slot of 2048 bytes |
| Outboxes.SubmitIs | src/egress/rtp/rtp_play_pump.c:214-233 | what becomes of a packet in each case, and how many are sent at the high-water mark |
| Outboxes.SenderConserves | src/egress/rtp/rtp_play_pump.c:113-233 | over every run of submits, flushes and resets of one sender, whatever the other senders of the program do: each packet submitted is sent, dropped or pending, once; the counts add up, at most the capacity is pending, and all of it fits into slots |
| Outboxes.InOrderIff | src/egress/rtp/rtp_play_pump.c:204-233 | over all these runs packets keep the order of their submits if none is written at once, because it is oversized or not to be queued, while others are pending; and only if, where all packets are to be queued, as the program asks, or no two are equal |
| Outboxes.NeverPendingIff | src/egress/rtp/rtp_play_pump.c:204-233 | nothing is ever pending if and only if no packet that could be queued comes while some sender is flushing (with a high-water mark of one: still flushing when the mark is looked at); then every packet goes out at once, in order |
| Outboxes.OvertakingHappens | src/egress/rtp/rtp_play_pump.c:214-233 | a run of two submits: a packet that comes while another sender is flushing is overtaken by an oversized one |
| Outboxes.RtpSender.Push | src/egress/rtp/rtp_play_pump.c:150-184 | drops the oldest packet exactly if the ring is full, then appends; refuses empty and oversized packets |
| Outboxes.RtpSender.Flush | src/egress/rtp/rtp_play_pump.c:204-212 | sends at most the budget, in order, unless a flush of any sender is under way |
| Outboxes.RtpSender.Send | src/egress/rtp/rtp_play_pump.c:214-233 | past the queue, or through it with a flush at the high-water mark, with the guard up or down |
| Outboxes.RtpSender.Reset | src/egress/rtp/rtp_play_pump.c:113-129 | drops everything that is pending |
| EgressClock.MsRoundTripIff | src/engine/media_clock.c:173-183 | milliseconds to RTP ticks and back: lossless if and only if they are a whole number of ticks, else exactly one millisecond less |
| EgressClock.NinetyKiloHertz | src/engine/media_clock.c:173-183 | at 90 kHz nothing is lost |
| EgressClock.TicksOfSeconds | src/engine/media_clock.c:173-183 | a number of seconds is that many times the clock rate in ticks, 90000 if there is none |
| EgressClock.WallRoundTripIff | src/engine/media_clock.c:203-212 | wall time to NTP and back: lossless if and only if 125 divides it, else exactly one millisecond less |
| EgressClock.EpochsApart | src/engine/media_clock.c:203-206 | whole days of wall time are NTP seconds counted from 1900, and half a second is half the range of the fraction |
| EgressClock.SrFollowsPlayout | src/egress/egress_clock.c:172-200 | the sender report for a frame gives its playing wall time, at most two milliseconds early and never late; exactly when the loss in RTP time occurs |
| EgressClock.SrFollowsPlayoutAbs | src/egress/egress_clock.c:190-193 | the same with RTP times that do not start at the epoch, also for frames before it |
| EgressClock.SrBeforePlayout | src/egress/egress_clock.c:172-200 | until play has begun the report counts from the wall time at which the clock was armed |
| EgressClock.DueIff | src/egress/egress_clock.c:33-149 | over every run of pauses, resumes, arming, locking, anchors and synchronisations: a running clock finds exactly those frames due within whose lead the time played since the epoch, without the pauses, has come, at all later times, if and only if the last start of play was set while playing or in the first millisecond of its pause; a paused clock finds none due, and will be right after the pause under the same condition; without an epoch all are due |
| EgressClock.DueWithSkew | src/egress/egress_clock.c:33-149 | how the clock judges a frame in any such run: the time played counts less what the pause had already lasted when the last start was set in it |
| EgressClock.RunIsLate | src/egress/egress_clock.c:33-121 | over every run the clock is a stop watch that is late by just that |
| EgressClock.AnchorInPauseIff | src/egress/egress_clock.c:54-121 | the shortest such run: pause, anchor, resume |
| EgressClock.SyncedFrameIsDue | src/egress/egress_clock.c:64-75 | after synchronising to a frame exactly the frames up to it are due |
| EgressClock.SessionClock.ResumeAt | src/egress/egress_clock.c:108-121 | the fields after a resume |
| EgressClock.SessionClock.PauseAt | src/egress/egress_clock.c:99-106 | a pause counts only when the clock is locked and running |
| EgressClock.SessionClock.Arm | src/egress/egress_clock.c:33-42 | takes the wall time as epoch and unlocks |
| EgressClock.SessionClock.LockEpoch | src/egress/egress_clock.c:77-86 | the first lock sets the anchor, later ones do nothing |
| EgressClock.SessionClock.RebaseTo | src/egress/egress_clock.c:54-62 | a new anchor at the present wall time |
| EgressClock.SessionClock.SyncWall | src/egress/egress_clock.c:64-75 | moves the start of play so that the frame is due now |
| EgressClock.SessionClock.IsDue | src/egress/egress_clock.c:128-149 | the test of the program is the specified one |

## Left out

- Weak memory: loads and stores take effect in program order. Sequence numbers, absolute indices and buffer lengths are unbounded; allocation succeeds.
- The quiescence wait has no spin limit. Clearing while readers are inside their section is not part of the transition system (`GopQueue.Queue.ClearAll` is about one thread).
- One writer: nobody else commits or clears between the hand-out of a buffer and its commit.
- Bytes are stored into a buffer in one step, which may be repeated with any bytes before the commit; that a spare buffer is too small is the same as taking another one.
- References to buffers are sets of owners, not counters; a buffer is live as long as some owner is left.
- Waking of readers, registration, metadata blobs, statistics and the codec probes (storable, starts a GOP, marker, synchronisation frame, IDR), which are uninterpreted predicates, except where `GopRegime.DefaultPolicy` stands for them.
- `zms_gop_reader_seek_decode_start` and read-ahead helpers: more of the same scans.
- Growing a buffer keeps its bytes; what the pool does to the old block is not modelled, nor are overlapping copies inside one buffer.
- The command and data callbacks of the RTMP reader: a dispatched message is an entry in a list. The handshake states before the first chunk are not part of `RtmpProtocol.Protocol.Input`.
- RTMP chunk stream ids of three bytes: read and written (`RtmpWire.IdKeptIff`), but the reader accepts ids below 320 only.
- The chunk stream table is an array of records of the protocol object; entries appear on first use in the program and are there from the start here.
- The callbacks of the HTTP framer are a function from header to body length and a list of events; a search function supplied by the caller is not modelled.
- AMF 3, dates and references; numbers are eight bytes. Booleans are decoded, but have no encoder, and are not part of the round trip. The byte behind a key of 63 characters is taken to be zero. The depth of nesting is not limited by a stack.
- The server's check of the client's second handshake packet, whose result is ignored, and the hash itself, which is an arbitrary function.
- Raw times and their differences are unbounded integers in `MediaClock`. The lightweight stream clocks beside the stamps are not modelled.
- Playing speeds other than one: the product with a floating-point speed is not modelled.
- Times of the wall clock are parameters; in the runs of `EgressClock` they do not fit into 32 bits, as today's milliseconds do not, and media times do.
- The callback that takes a tag or packet does not call back into the queue it came from. The flush guard of the RTP senders is read twice in a submit, with any values; that two threads change the counter at the same time, and lose a change, is not modelled.
- MuxTimeline.TracksFlowIff: runs without locking the origin anew, which starts the outputs again on purpose.
- RtmpWriter.RoundTrip: messages below 2^24 bytes, the most the length field can say, and chunk sizes that the peer has been told of.
