# Both ends of a remote file and mail system, verified

The repository holds a 1980s client, in PL/M, and a server for it, in Rust. The
client caches a remote file behind one page, speaks a stop-and-wait protocol
over a byte-stuffed serial line, and runs its timers from one queue. The server
stores files behind a small header, hands out connections and file ids, answers
in frames of bounded size, collects mail requests from fragments and lets
administrators walk a user directory. This project models those pieces in Dafny
and proves what each is there for.

The main results:

- **The cached file is the uncached file.** For every run of calls the client
  returns what the plain byte string would, whatever the timing of the pipelined
  reads, and so do any number of openings and closings (`CacheRuns.Replay`,
  `CacheRuns.Sessions`); seeks are the one call with an exception, and it is
  stated exactly (`PageCache.VfsConn.FsSeek`).
- **Exactly-once delivery and bounded retries** over channels that lose and
  repeat frames (`LinkRuns.ExactlyOnce`, `LinkRetries.EveryWriteEnds`), and the
  same of an emulator object and a session object driven through any events
  (`LinkReplay.Drive`).
- **And the link gets things done**: without losses every payload and every
  reply arrives once and in order, and after any loss a write can still be
  finished (`LinkProgress.Conversation`, `LinkRecovery.EveryWriteCanFinish`).
- **Streams of frames decode to exactly their payloads**, in both decoders, and
  both checksums agree and detect every change within two bytes
  (`Framing.StreamRoundTrip`, `FrameAutomaton.DecodersAgree`,
  `Crc.TableIsBitwise`, `Crc.DetectsWindow`).
- **The timer queue keeps absolute deadlines** through 32-bit arithmetic and
  moves of its start time, and over any run every request is returned exactly
  once by the first completion at or after its deadline, unless aborted
  (`Timers.TimerModule.CompleteTimerRequests`, `TimerRuns.Drive`).
- **Allocators, tables, pages and replies**: least free id, no leaked
  connections, ids that stay unique across restarts, complete directory walks,
  replies that always fit (`IdMap.Map.FindFree`, `VfsTable.Vfs.Serve`,
  `FileIds.DirManager.Run`, `DirPaging.Attachment.Walk`, `Replies.RespondTo`).
- **Mail and directory walks**: fragments are transparent, the size check is
  exact, a listing is complete exactly under a stated condition
  (`Fragments.SplitTransparent`, `Mail.FitsVipcPayload`, `Mail.ReadBack`,
  `Sentry.ListDirectory`).

Four promises turned out to hold only under a condition, and the condition is
part of the theorem:

- A seek that the server refuses while part of the page is unread moves the
  logical position (`PageCache.RefusedSeekLosesPosition`); `FsSeek` states when
  a seek is right.
- A timer request whose end time does not fit 32 bits completes one turn of the
  clock early (`TimerRuns.LongestComesBackAtOnce`); `AddTimerRequest` states both
  cases in what is known before the call.
- Replies are never sent again. What the client hands on is a prefix of them as
  long as it is never 256 behind (`LinkReplies.RepliesInOrder`); 256 behind it
  takes a wrong one (`LinkReplies.LastTakenForFirst`).
- A directory listing can stay at one row for ever when a name ends in NUL
  (`Sentry.NulKeepsListingForEver`), and it misses rows when a group is named as
  its company or a user as its group (`Sentry.NamesakeIsMissed`);
  `Sentry.EchoAdvances`, `Sentry.PathAdvances` and `Sentry.ListDirectory` state
  when it does neither.

One file holds one module. `Bytes`, `Names` and `PlainFile` are the shared
vocabulary. `GridFile`, `RemoteFile`, `PageCache` and `CacheRuns` are the file
layers and runs through them. `Link`, `LinkEndpoints`, `LinkRuns`,
`LinkRetries`, `LinkProgress`, `LinkRecovery`, `LinkReplies` and `LinkReplay` are
the protocol: step functions, the two ends as classes that make these steps, what
every run keeps, what runs get done, and the classes driven through runs. `Crc`,
`Framing` and `FrameAutomaton` are the line. `TimerQueue`, `Timers` and
`TimerRuns` are the queue, the timer on it and its runs. `IdMap`, `VfsTable`,
`FileIds`, `DirPaging` and `Replies` are the server's tables and replies. `Tlv`,
`Mail`, `Fragments` and `Sentry` are the records and what is built on them.

Time, the success of host and backend calls, the moment a reply arrives and the
padding a client chooses are parameters or arbitrary choices. `dafny verify
dfyconfig.toml` checks everything.

## Model

| member | source | states |
|---|---|---|
| `PlainFile.Overwrite` | Server/src/vfs/file/mod.rs:279-300 | writing at a position: byte by byte the result is the data laid over the old body, zeros in a gap past the end, length the larger of the two ends |
| `PlainFile.OverwriteWithin` | GRiD Sources/GRiDLink/Vfs2.Plm~Text~:616-751 | writing into a buffered stretch and then writing the stretch out equals writing it out first and then writing to the file |
| `PlainFile.SeekFromEndReadsTail` | Server/src/vfs/fsproxy.rs:313-329 | after a seek of n from the end the next n bytes read are the last n of the file |
| `PlainFile.SeekAbsoluteReadsRest` | Server/src/vfs/fsproxy.rs:313-329 | after a seek to n the rest read is the file without its first n bytes |
| `PlainFile.SeekForwardSkips` | Server/src/vfs/fsproxy.rs:313-329 | a seek forward after a read leaves out exactly n bytes |
| `PlainFile.SeekBackwardRereads` | Server/src/vfs/fsproxy.rs:313-329 | a seek back over what was just read reads it again |
| `PlainFile.SeekBackwardReadsWritten` | Server/src/vfs/file/mod.rs:279-315 | a seek back over what was just written reads it as it was written |
| `PlainFile.SeekRefusedExactly` | Server/src/vfs/file/mod.rs:302-315 | a seek is refused exactly if it asks for a place before the start or one the host cannot name |
| `PlainFile.TruncateEndsHere` | Server/src/vfs/file/mod.rs:189-192 | after a truncation the file ends at the position, with the bytes before it kept and a gap of zeros |
| `GridFile.HeaderRoundTrip` | Server/src/vfs/file/mod.rs:72-121 | the sixteen header bytes and the header record determine each other, both ways |
| `GridFile.HeaderLayout` | Server/src/vfs/file/mod.rs:72-83 | magic, format, versions and flags stand in this order in front of the property length, low byte first |
| `GridFile.GRiDFile.FromFile` | Server/src/vfs/file/mod.rs:125-150 | opening accepts exactly the files with a valid header whose body length lies between the property length and 2^32 - 1 more; the bytes are untouched and the position is 0 |
| `GridFile.GRiDFile.Create` | Server/src/vfs/file/mod.rs:153-170 | creation succeeds exactly for a valid header and an allowed body length and leaves exactly header and body, whatever was there |
| `GridFile.GRiDFile.SeekBody` | Server/src/vfs/file/mod.rs:250-256 | positioning the descriptor behind the header changes nothing a client can see |
| `GridFile.GRiDFile.BodyLength` | Server/src/vfs/file/mod.rs:234-240 | the length reported is that of the byte string behind the header |
| `GridFile.GRiDFile.Read` | Server/src/vfs/file/mod.rs:259-277 | a read returns and advances over exactly the bytes of the plain body file; header and bytes stay |
| `GridFile.GRiDFile.Write` | Server/src/vfs/file/mod.rs:279-300 | a write is a write to the plain body file when the length limit allows it and changes nothing otherwise; the header bytes never change |
| `GridFile.GRiDFile.Seek` | Server/src/vfs/file/mod.rs:302-315 | a seek moves the position as on the plain file exactly when the target is in range, and otherwise leaves it |
| `GridFile.GRiDFile.Truncate` | Server/src/vfs/file/mod.rs:189-192 | truncation cuts or grows the body to the position exactly when the resulting length is allowed |
| `GridFile.GRiDFile.SetHeader` | Server/src/vfs/file/mod.rs:195-200 | a new header is stored exactly when it is valid and fits the body; body and position stay |
| `GridFile.GRiDFile.SyncHeader` | Server/src/vfs/file/mod.rs:211-217 | rewriting the header bytes keeps the body and the position |
| `GridFile.OverwriteBehindHeader` | Server/src/vfs/file/mod.rs:279-300 | a physical write behind the header keeps the header bytes and is the logical write to the body |
| `RemoteFile.AfterPagesPosition` | Server/src/vfs/fsproxy.rs:287-301 | after k page reads the remote position is the start plus k pages, stopped at the end of the file |
| `RemoteFile.Remote.SendRead` | GRiD Sources/GRiDLink/Vfs2.PipelinedRead.Inc~Text~:130-159 | a request joins the stream with the next sequence number; the largest number in flight is tracked |
| `RemoteFile.Remote.ServeOne` | Server/src/vfs/fsproxy.rs:287-301 | whenever the server gets round to it, it serves the oldest request with the page at the remote position and that request's note |
| `RemoteFile.Remote.Await` | GRiD Sources/GRiDLink/Vfs2.Plm~Text~:845-862 | waiting yields the reply to the oldest request, whatever was served meanwhile |
| `RemoteFile.Remote.Poll` | GRiD Sources/GRiDLink/Vfs2.PipelinedRead.Inc~Text~:174-183 | a poll yields either nothing or the reply to the oldest request |
| `RemoteFile.Remote.Drain` | GRiD Sources/GRiDLink/Vfs2.PipelinedRead.Inc~Text~:274-283 | draining takes every outstanding reply and leaves none in flight |
| `RemoteFile.Remote.Write` | GRiD Sources/GRiDLink/Vfs2.Plm~Text~:556-607 | a remote write is a write to the plain file or is refused as a whole |
| `RemoteFile.Remote.WritePages` | GRiD Sources/GRiDLink/Vfs2.Plm~Text~:715-731 | whole pages written straight through, then the rest, equal one write of all of it; it stops early exactly at a page the server refuses, and never if the whole is allowed |
| `RemoteFile.Remote.Seek` | GRiD Sources/GRiDLink/Vfs2.Plm~Text~:761-809 | a remote seek moves the remote position as on the plain file, or is refused and leaves it |
| `RemoteFile.Remote.Truncate` | GRiD Sources/GRiDLink/Vfs1.Plm~Text~:890-933 | a remote truncation is a truncation of the plain file, or is refused |
| `PageCache.MoveWords` | GRiD Sources/GRiDLink/Vfs2.PipelinedRead.Inc~Text~:85-89 | moving words and then the odd byte moves exactly the bytes asked for |
| `PageCache.VfsConn.ClearBuffer` | GRiD Sources/GRiDLink/Vfs2.Plm~Text~:129-137 | an empty page shows the remote file as it is |
| `PageCache.VfsConn.LocalFlush` | GRiD Sources/GRiDLink/Vfs2.Plm~Text~:147-173 | after a flush the remote contents and position are the logical ones and the page is empty; the logical file is unchanged |
| `PageCache.VfsConn.FillPage` | GRiD Sources/GRiDLink/Vfs2.Plm~Text~:616-751 | bytes put into the page are written to the file seen through it |
| `PageCache.VfsConn.FsWrite` | GRiD Sources/GRiDLink/Vfs2.Plm~Text~:616-751 | a write through the page, direct pages and the page again is one write to the logical file; read access is denied |
| `PageCache.VfsConn.StorePage` | GRiD Sources/GRiDLink/Vfs2.PipelinedRead.Inc~Text~:239-260 | a reply kept in the page shows the remote file shifted back by what is unread |
| `PageCache.VfsConn.TakeReply` | GRiD Sources/GRiDLink/Vfs2.PipelinedRead.Inc~Text~:181-266 | each reply extends what was read by the next bytes of the file, and a short or last reply completes the read |
| `PageCache.VfsConn.SendNext` | GRiD Sources/GRiDLink/Vfs2.PipelinedRead.Inc~Text~:130-159 | never more requests are in flight than the pipeline allows, and only while bytes are still to be requested |
| `PageCache.VfsConn.Stream` | GRiD Sources/GRiDLink/Vfs2.PipelinedRead.Inc~Text~:129-272 | whatever the timing of replies the loop ends, with the bytes up to the end of the file in file order and page plus remote position standing for the advanced logical position |
| `PageCache.VfsConn.ReadRemote` | GRiD Sources/GRiDLink/Vfs2.PipelinedRead.Inc~Text~:108-292 | on exit no request is outstanding, also when the end of the file arrives with requests in flight |
| `PageCache.VfsConn.TakeLocal` | GRiD Sources/GRiDLink/Vfs2.PipelinedRead.Inc~Text~:74-105 | bytes taken from the page are the next bytes of the logical file |
| `PageCache.VfsConn.FsRead` | GRiD Sources/GRiDLink/Vfs2.PipelinedRead.Inc~Text~:65-294 | a read returns exactly the bytes the plain file would, min(n, bytes to the end), and advances the logical position by as many; write access is denied |
| `PageCache.VfsConn.FlushForSeek` | GRiD Sources/GRiDLink/Vfs1.Plm~Text~:999-1019 | the page is written back before the remote position moves; nothing logical changes |
| `PageCache.VfsConn.FsSeek` | GRiD Sources/GRiDLink/Vfs1.Plm~Text~:1176-1267 | a seek ends with the outcome and the position of a plain seek if and only if it stays in the page, the page is used up, or the target is allowed and the 32-bit distance does not wrap |
| `PageCache.SeekExact` | GRiD Sources/GRiDLink/Vfs1.Plm~Text~:1176-1267 | the same equivalence for the distance arithmetic of all four modes |
| `PageCache.RefusedSeekLosesPosition` | GRiD Sources/GRiDLink/Vfs1.Plm~Text~:1176-1267 | a concrete seek before the start of the file that is refused and still moves the logical position |
| `PageCache.VfsConn.FsGetStatus` | GRiD Sources/GRiDLink/Vfs1.Plm~Text~:562-652 | position and length reported are the logical ones although the remote position is ahead |
| `PageCache.VfsConn.FsTruncate` | GRiD Sources/GRiDLink/Vfs1.Plm~Text~:890-933 | truncation cuts the logical file at the logical position |
| `PageCache.VfsConn.LocalClose` | GRiD Sources/GRiDLink/Vfs1.Plm~Text~:853-881 | closing leaves every logical byte in the remote file |
| `PageCache.Overshoot` | GRiD Sources/GRiDLink/Vfs2.PipelinedRead.Inc~Text~:223-266 | a reply longer than what is wanted answers the last request sent, so page and remote position agree |
| `PageCache.ShortReply` | GRiD Sources/GRiDLink/Vfs2.PipelinedRead.Inc~Text~:262-283 | after a short reply no request in flight can move the position further |
| `CacheRuns.Perform` | GRiD Sources/GRiDLink/Vfs2.Plm~Text~:616-751 | every call through the cache returns what the uncached file returns and leaves the logical file it leaves |
| `CacheRuns.Replay` | GRiD Sources/GRiDLink/Vfs2.PipelinedRead.Inc~Text~:65-294 | over any run of reads, writes, seeks, status calls, truncations and flushes all results equal those of the uncached file, and the pipeline bound held throughout; seeks that are refused are included whenever the page is used up |
| `CacheRuns.Session` | GRiD Sources/GRiDLink/Vfs1.Plm~Text~:853-881 | opening a stored file, any such run and the close return the plain results and leave the plain bytes on disk behind the old header |
| `CacheRuns.Sessions` | GRiD Sources/GRiDLink/Vfs1.Plm~Text~:853-881 | so does any number of openings one after the other, each starting from what the last one left |
| `LinkEndpoints.ServerSession.WriteAll` | Server/src/server/mod.rs:425-434 | replies leave with consecutive sequence numbers |
| `Link.WriteResponses` | Server/src/server/mod.rs:425-434 | writing replies touches only the sending side of the session |
| `LinkRuns.PollIsARun` | GRiD Sources/GRiDLink/IsEmulator.PLM~Text~:348-446 | a whole turn of the main loop, with everything received in it, a lost carrier, the answer, the retry and the timer, is a run of single steps, so results about runs cover it |
| `LinkRuns.InvInitially` | Server/src/server/mod.rs:152-163 | a fresh client and session satisfy the link invariant |
| `LinkRuns.InvKept` | GRiD Sources/GRiDLink/IsEmulator.PLM~Text~:486-762 | every step of either end and every loss or repetition of a frame keeps the link invariant |
| `LinkRuns.InvAlways` | Server/src/server/mod.rs:222-276 | the invariant holds in every state of every run |
| `LinkRuns.ExactlyOnce` | GRiD Sources/GRiDLink/IsEmulator.PLM~Text~:297-321 | over every run on channels that lose and repeat frames the server processes a prefix of the payloads written, each once and in order, at most one ahead of the completed writes; no end takes an error branch; the sequence number equation modulo 256 holds while connected |
| `LinkRetries.BudgetStep` | GRiD Sources/GRiDLink/IsEmulator.PLM~Text~:773-816 | while a frame is outstanding every timer expiry and processed negative acknowledgement strictly lowers the budget made of both retry counters, and nothing raises it |
| `LinkRetries.EveryWriteEnds` | GRiD Sources/GRiDLink/IsEmulator.PLM~Text~:386-415 | from any reachable point a write ends after fewer than 288 such events, and until then the timer is running |
| `LinkProgress.ComesUp` | Server/src/server/mod.rs:222-242 | the first request for connection is answered and the link is up, with both ends agreeing on all numbers |
| `LinkProgress.Exchange` | Server/src/server/mod.rs:243-276 | on quiet lines a payload handed in is processed, acknowledged and completed, and its replies are on their way, numbered on |
| `LinkProgress.Conversation` | GRiD Sources/GRiDLink/IsEmulator.PLM~Text~:297-672 | on lines that lose nothing every payload is processed once and in order, every write completes, and every reply is handed on once and in order, for any number of requests with any number of replies |
| `LinkProgress.FromTheStart` | GRiD Sources/GRiDLink/IsEmulator.PLM~Text~:328-672 | the same from the first request for connection on |
| `LinkRecovery.EveryWriteCanFinish` | GRiD Sources/GRiDLink/IsEmulator.PLM~Text~:773-816 | from any point of any run at which a write waits and its counters are not used up: let everything on its way be lost, and ping, answer, resend and acknowledgement still finish it, with its payload processed once |
| `LinkRecovery.AsksThenGoes` | GRiD Sources/GRiDLink/IsEmulator.PLM~Text~:392-446 | a client that hears nothing asks exactly 8 times more for a connection, 15 times for an acknowledgement, 5 times more for a sign of life, and then takes the link down and says so |
| `LinkRecovery.AnsweredWhileIdle` | GRiD Sources/GRiDLink/IsEmulator.PLM~Text~:392-446 | one answered ping puts an idle link back to where it was, however many were missing |
| `LinkRecovery.LeaveTogether` | GRiD Sources/GRiDLink/IsEmulator.PLM~Text~:873-903 | taking the link down closes both ends, fails a write that waits and lets no other in |
| `LinkRecovery.NoiseIsAnswered` | GRiD Sources/GRiDLink/IsEmulator.PLM~Text~:453-475 | a damaged frame is answered with the number of the last reply exactly if it came into the long buffer |
| `LinkRecovery.OtherDataIsNotTaken` | GRiD Sources/GRiDLink/IsEmulator.PLM~Text~:674-740 | a reply taken before is neither taken nor answered again; one out of order is answered and not taken |
| `LinkReplies.RepliesInOrder` | GRiD Sources/GRiDLink/IsEmulator.PLM~Text~:674-720 | over every run in which the client is never 256 replies behind it has handed on a prefix of the replies the server wrote, each once and in order, whatever is lost, repeated or dropped for want of a buffer |
| `LinkReplies.LastTakenForFirst` | GRiD Sources/GRiDLink/IsEmulator.PLM~Text~:674-720 | 256 behind is too far: of 257 replies with the first 256 lost the last is taken for the first |
| `LinkReplay.EventsAreARun` | Server/src/server/mod.rs:222-276 | any events on the two ends and the two lines make up a run of single steps |
| `LinkReplay.Drive` | GRiD Sources/GRiDLink/IsEmulator.PLM~Text~:297-446 | an emulator object and a session object driven through any writes, turns, server steps, losses and repetitions: the session has processed a prefix of the payloads taken, each once and in order, never behind the completed writes and at most one ahead; no error is counted at either end; the sequence equation holds and an outstanding frame has the timer running while connected |
| `Crc.ComputeCrc16` | Server/src/server/raw_frame.rs:120-136 | the nested loops compute the checksum of the message |
| `Crc.StepLinear` | Server/src/server/raw_frame.rs:124-133 | one bitwise step respects exclusive or |
| `Crc.TableIsBitwise` | GRiD Sources/GRiDLink/PdlFrameIO.Plm~Text~:228-248 | the two table lookups equal eight bitwise steps, for every state and byte |
| `Crc.SameChecksum` | GRiD Sources/GRiDLink/PdlFrameIO.Plm~Text~:228-248 | both ends compute the same checksum of every message from every state |
| `Crc.StaysDifferent` | Server/src/server/raw_frame.rs:120-136 | different states stay different whatever equal bytes follow |
| `Crc.TwoBytesDiffer` | Server/src/server/raw_frame.rs:120-136 | two different pairs of bytes lead any state to different states |
| `Crc.DetectsWindow` | Server/src/server/raw_frame.rs:120-136 | messages of any length that differ only within two consecutive bytes have different checksums |
| `Crc.CheckValue` | Server/src/server/raw_frame.rs:119-136 | the digits 1 to 9 have the catalogued check value of CRC-16/ARC, 0xBB3D |
| `Framing.ReadUnstuffed` | Server/src/server/raw_frame.rs:51-84 | the reading loop yields the unstuffed bytes and the rest of the stream, or the first fault |
| `Framing.ReadFromIo` | Server/src/server/raw_frame.rs:34-49 | a frame is its unstuffed bytes with the right checksum behind them |
| `Framing.WriteData` | Server/src/server/raw_frame.rs:88-116 | with and without the stuffing pass the bytes written are the wire form |
| `Framing.NothingToStuff` | Server/src/server/raw_frame.rs:91-94 | data without DLE is its own stuffed form |
| `Framing.EmptyFrame` | Server/src/server/raw_frame.rs:107-116 | the frame without payload, byte by byte |
| `Framing.UnstuffStuffed` | Server/src/server/raw_frame.rs:51-84 | stuffed data is read back behind what the buffer holds, or is too large, whatever follows |
| `Framing.ReadAny` | Server/src/server/raw_frame.rs:34-84 | any body with any checksum behind any noise without DLE: exactly when it is read, too large, or rejected |
| `Framing.FrameRoundTrip` | Server/src/server/raw_frame.rs:34-116 | a frame is read back, the rest of the stream untouched, if and only if payload and noise before it are at most 530 bytes |
| `Framing.DamageIsNoticed` | Server/src/server/raw_frame.rs:34-49 | a payload changed within two consecutive bytes is always rejected with a checksum error |
| `Framing.CutShortIsDropped` | Server/src/server/raw_frame.rs:51-84 | a frame cut short by the start of another is dropped, and the other is read |
| `Framing.StreamRoundTrip` | Server/src/server/raw_frame.rs:34-116 | a stream of frames with noise between decodes to exactly its payloads with nothing left |
| `FrameAutomaton.Receiver.RcvChRtn` | GRiD Sources/GRiDLink/PdlFrameIO.Plm~Text~:276-445 | the routine on its two buffers makes the transition of the automaton for every character, error and buffer state |
| `FrameAutomaton.Receiver.Store` | GRiD Sources/GRiDLink/PdlFrameIO.Plm~Text~:333-338 | a stored byte extends buffer and running checksum together |
| `FrameAutomaton.FeedFrame` | GRiD Sources/GRiDLink/PdlFrameIO.Plm~Text~:276-401 | one frame behind any noise without DLE raises exactly one event, its payload, and the automaton searches again |
| `FrameAutomaton.CutShortDropped` | GRiD Sources/GRiDLink/PdlFrameIO.Plm~Text~:276-401 | the same in the automaton, which goes on in the buffer the first frame had |
| `FrameAutomaton.FaultSearchesAgain` | GRiD Sources/GRiDLink/PdlFrameIO.Plm~Text~:276-445 | an error on the line in any phase, and a wrong character behind DLE inside a frame, is reported and drops what was collected |
| `FrameAutomaton.AutomatonReadsStream` | GRiD Sources/GRiDLink/PdlFrameIO.Plm~Text~:276-401 | with the long buffer free the automaton raises exactly the payloads of a stream in order and ends searching |
| `FrameAutomaton.DecodersAgree` | GRiD Sources/GRiDLink/PdlFrameIO.Plm~Text~:276-401 | both decoders make the same of every stream of frames |
| `FrameAutomaton.DamageRaisesError` | GRiD Sources/GRiDLink/PdlFrameIO.Plm~Text~:383-399 | a payload changed within two consecutive bytes raises a checksum error and is never handed on |
| `FrameAutomaton.TooLongOverflows` | GRiD Sources/GRiDLink/PdlFrameIO.Plm~Text~:324-361 | a payload that does not fit the buffer in use raises the overflow before anything else |
| `FrameAutomaton.Sender.WriteBuffered` | GRiD Sources/GRiDLink/PdlFrameIO.Plm~Text~:95-116 | a byte written is appended to what was sent or waits, through any flush of the 700-byte buffer |
| `FrameAutomaton.Sender.WriteDLEStuffed` | GRiD Sources/GRiDLink/PdlFrameIO.Plm~Text~:203-218 | a part is appended stuffed and added to the checksum |
| `FrameAutomaton.Sender.PdlSendFrame` | GRiD Sources/GRiDLink/PdlFrameIO.Plm~Text~:126-194 | header and both parts leave as the wire form of their concatenation, with nothing left in the buffer |
| `TimerQueue.Que.PutQ` | GRiD Sources/DlcUtl/UtilityModule.PLM~Text~:91-113 | appends an entry and keeps head, tail and links |
| `TimerQueue.Que.PopQ` | GRiD Sources/DlcUtl/UtilityModule.PLM~Text~:118-141 | takes the first entry off, unlinked, or yields null on an empty queue |
| `TimerQueue.Que.ConCatQues` | GRiD Sources/DlcUtl/UtilityModule.PLM~Text~:146-177 | joins two queues and empties the rear one, in all four cases of emptiness |
| `TimerQueue.Que.LinkIn` | GRiD Sources/DlcUtl/TimerModule.PLM~Text~:280-290 | relinking puts the entry at its place with head and tail right |
| `TimerQueue.Que.Unlink` | GRiD Sources/DlcUtl/TimerModule.PLM~Text~:194-210 | relinking takes the entry out with head and tail right |
| `Timers.ExactlyTheDue` | GRiD Sources/DlcUtl/TimerModule.PLM~Text~:316-341 | in an ordered list exactly the requests whose time has not come stay |
| `Timers.DueThenLater` | GRiD Sources/DlcUtl/TimerModule.PLM~Text~:316-341 | what is returned and what stays make up the list in its order |
| `Timers.WakeInBetween` | GRiD Sources/DlcUtl/TimerModule.PLM~Text~:374-409 | an extra wake-up changes neither what is returned nor its order |
| `Timers.InsertIsSplice` | GRiD Sources/DlcUtl/TimerModule.PLM~Text~:264-290 | behind all that is due no later is the one place that keeps first come first served |
| `Timers.ClockDifference` | GRiD Sources/DlcUtl/TimerModule.PLM~Text~:250-251 | the 32-bit clock difference is the elapsed time up to whole turns |
| `Timers.TimerModule.Elapsed` | GRiD Sources/DlcUtl/TimerModule.PLM~Text~:316-317 | the relative time is exact; an idle timer may sleep through turns of the clock |
| `Timers.TimerModule.ReturnDue` | GRiD Sources/DlcUtl/TimerModule.PLM~Text~:316-341 | exactly the due requests are returned, in order |
| `Timers.TimerModule.Rebase` | GRiD Sources/DlcUtl/TimerModule.PLM~Text~:343-355 | moving the start time leaves every absolute deadline as it was |
| `Timers.TimerModule.CompleteTimerRequests` | GRiD Sources/DlcUtl/TimerModule.PLM~Text~:304-369 | returns exactly the due requests in order, never early, and a delay that sleeps past no deadline |
| `Timers.LongestTimeoutIsOverdue` | GRiD Sources/DlcUtl/TimerModule.PLM~Text~:250-262 | five ticks after the start time, the deadline of the longest timeout lies a tick back |
| `Timers.TimerModule.AddTimerRequest` | GRiD Sources/DlcUtl/TimerModule.PLM~Text~:220-299 | a request gets the deadline now + timeout exactly if the timeout and the clock reading since the start time, both known before the call, add up to less than 2^32, and one turn of the clock earlier otherwise; it goes behind equal deadlines, and the process is signalled exactly if it is first |
| `Timers.TimerModule.AbortTimerRequest` | GRiD Sources/DlcUtl/TimerModule.PLM~Text~:175-214 | takes exactly that request off and says whether it was there; all other deadlines stay |
| `TimerRuns.RunKeeps` | GRiD Sources/DlcUtl/TimerModule.PLM~Text~:304-369 | a completion returns what it returns by the first completion at or after the deadline, and what stays was due at none so far |
| `TimerRuns.Drive` | GRiD Sources/DlcUtl/TimerModule.PLM~Text~:175-369 | over any calls to add, abort and complete with a rising clock, each request handed in is returned exactly once, by the first completion at or after its deadline (at once for a zero timeout), or was aborted by a call that names it, or still waits and was due at no completion yet; its deadline is what was asked for, or a turn of the clock earlier if that does not fit |
| `TimerRuns.LongestComesBackAtOnce` | GRiD Sources/DlcUtl/TimerModule.PLM~Text~:220-299 | handed in five ticks after the timer was started, a request for the longest time there is comes back at once |
| `IdMap.Map.Set` | Server/src/shared/bitmap.rs:39-44 | set is insertion into the set of taken ids |
| `IdMap.Map.Clear` | Server/src/shared/bitmap.rs:53-58 | clear is removal from the set of taken ids |
| `IdMap.Map.IsSet` | Server/src/shared/bitmap.rs:46-51 | is_set is membership |
| `IdMap.Map.FindFree` | Server/src/shared/bitmap.rs:60-88 | finds the least free id, and none exactly when all ids are taken, although one bit is spare |
| `VfsTable.Vfs.DoAttach` | Server/src/vipc/vfs/mod.rs:309-332 | attach takes an id no live connection has, or fails without a trace; device full exactly when every id is live or leaked |
| `VfsTable.Vfs.DoOpen` | Server/src/vipc/vfs/mod.rs:129-140 | open adds a handle to exactly its connection, or fails without a trace |
| `VfsTable.Vfs.DoIo` | Server/src/vipc/vfs/mod.rs:71-81 | the backend is called only with a handle opened and not since closed |
| `VfsTable.Vfs.DoInspect` | Server/src/vipc/vfs/mod.rs:116-122 | status calls need a connection, not an open file |
| `VfsTable.Vfs.DoClose` | Server/src/vipc/vfs/mod.rs:357-367 | close drops the handle exactly if the backend could close it |
| `VfsTable.Vfs.DoDetach` | Server/src/vipc/vfs/mod.rs:339-350 | detach always removes the connection; its id is given back exactly if the backend close did not fail |
| `VfsTable.Vfs.Process` | Server/src/vipc/vfs/mod.rs:42-68 | each request has its status and its effect on its own connection and no other; an id leaks only in a detach whose close fails |
| `VfsTable.Vfs.Serve` | Server/src/vipc/vfs/mod.rs:42-68 | over every run each request has its effect and no other, live connections hold allocated ids, and all of them if no detach fails to close |
| `VfsTable.OpenedCanBeUsed` | Server/src/vipc/vfs/mod.rs:71-140 | a file opened and neither closed nor detached since can be used, whatever happened on other connections |
| `VfsTable.WholeLife` | Server/src/vipc/vfs/mod.rs:309-367 | an attached connection whose backend plays along can be opened, used, closed and detached, and leaves the table as it was |
| `FileIds.CollectFileIds` | Server/src/vfs/dirmanager.rs:111-128 | the scan marks exactly the ids held anywhere in the tree |
| `FileIds.DirManager.LockedAllocate` | Server/src/vfs/dirmanager.rs:146-172 | an object that has an id keeps it, another gets one nobody on the disk holds, no other object changes; the device is full only if every id was held at some moment, and right after a start only if every id is held now |
| `FileIds.DirManager.Run` | Server/src/vfs/dirmanager.rs:111-185 | over any interleaving of reads without the lock, locked allocations that follow however much later, creations, removals and restarts: each action has its effect and no other, a client that gets the lock gets an id unless its object is gone or every id was held at some moment, an object that was ever answered for still holds that id or was removed, no two that are left were given the same one, and no id is held twice |
| `FileIds.HoldTwo` | Server/src/vfs/dirmanager.rs:146-172 | two objects with one id count as two holders, so a disk on which no id has two holders has no two objects with one id |
| `FileIds.Assigned` | Server/src/vfs/dirmanager.rs:167-169 | giving a free id to an object without one keeps ids unique and every other id in place |
| `FileIds.PutHolders` | Server/src/vfs/dirmanager.rs:111-128 | replacing an object replaces the ids below it and no others |
| `DirPaging.DirectoryEntries` | Server/src/vfs/fsproxy.rs:165-193 | the snapshot is a sorted arrangement of exactly the shown names, each at most 80 bytes |
| `DirPaging.SnapshotMeaning` | Server/src/vfs/fsproxy.rs:165-193 | a name of at most 80 bytes is listed exactly if a regular file has it or a directory has it without the suffix; nothing else is listed |
| `Names.FirstDifferenceDecides` | Server/src/vfs/fsproxy.rs:191-191 | the order of a listing is byte by byte: the first difference decides |
| `Names.PrefixFirst` | Server/src/vfs/fsproxy.rs:191-191 | without a difference the shorter name comes first |
| `DirPaging.Attachment.ReadDir` | Server/src/vfs/fsproxy.rs:468-516 | a page is the longest run of entries from the position within both bounds; the snapshot is taken once |
| `DirPaging.PageNotEmpty` | Server/src/vipc/vfs/mod.rs:198-218 | with any non-zero count the byte bound leaves room for one entry of the longest name |
| `DirPaging.Attachment.ReadDirPage` | Server/src/vipc/vfs/mod.rs:198-218 | a page continues where the last one ended, fits 30 entries and 504 bytes, is not empty before the end, and stops short only where the next entry would not fit |
| `DirPaging.Attachment.Walk` | Server/src/vfs/fsproxy.rs:468-516 | over any requests, while the directory changes, the pages together are a prefix of the sorted names the directory showed at the first request, and all of them after enough requests |
| `Replies.WritePage` | Server/src/vipc/vfs/protocol.rs:583-605 | entries are written in order and fail exactly at a name over 80 bytes |
| `Replies.PageReadBack` | Server/src/vipc/vfs/protocol.rs:583-605 | a written page is read back, entry length by entry length, as its names |
| `Replies.HeaderFields` | Server/src/vipc/vfs/protocol.rs:264-272 | the four header fields stand at their places and read back as they were |
| `Replies.StatusFields` | Server/src/vipc/vfs/protocol.rs:282-295 | flags, position, length and page count stand at their places of the status block and read back as they were |
| `Replies.PagesNeeded` | Server/src/vfs/fsproxy.rs:429-430 | the page count is the number of 512-byte pages the file needs, or the most that 16 bits can say |
| `Replies.DataReadBack` | Server/src/vipc/vfs/protocol.rs:607-613 | behind the header stands the length of the data, then the data |
| `Replies.WriteInto` | Server/src/vipc/vfs/protocol.rs:570-626 | a reply is appended exactly if names and lengths fit and it is at most 514 bytes; one that is only too long leaves the buffer as it was |
| `Replies.ReadReply` | Server/src/vipc/vfs/protocol.rs:159-163 | a read reply holds at most a page of the file, however much is asked for |
| `Replies.DescriptorReply` | Server/src/vipc/vfs/mod.rs:176-184 | a descriptor reply is cut to what was asked for and to 198 bytes |
| `Replies.DirectoryReply` | Server/src/vipc/vfs/mod.rs:186-218 | a directory reply carries the next page of the attachment |
| `Replies.Answer` | Server/src/vipc/vfs/mod.rs:42-68 | every request kind, with any outcome, is answered with the request code and the response bit, the right connection ids and status, and data only if there was no error: status of the file, at most a page of it, the clipped descriptor, or the next page of the directory |
| `Replies.Respond` | Server/src/server/mod.rs:402-434 | for every request and state the reply is at most 514 bytes, wrapped in VIPC, data frame and PDL headers at most 530, and comes out of the client's automaton as it went in |
| `Replies.EnvelopeOpens` | Server/src/server/mod.rs:393-434 | a reply wrapped in its three layers opens to the same paths, class, note, number and message |
| `Replies.RespondTo` | Server/src/server/mod.rs:393-434 | bytes to bytes: whatever request arrives and whatever comes of it, the frame sent back opens to a message on the swapped paths that carries the request's code with the top bit set, its connection ids and the status |
| `Replies.FullPageFullFrame` | Server/src/server/raw_frame.rs:20-21 | a full page fills the frame to the last byte |
| `Tlv.Cursor.Next` | Server/src/shared/tlv.rs:117-132 | the iterator yields the walk item by item and nothing after a malformed record |
| `Tlv.CollectAll` | Server/src/shared/tlv.rs:55-57 | collects all records exactly if none is malformed |
| `Tlv.WellFormedPrefix` | Server/src/shared/tlv.rs:61-63 | yields the records before the first malformed one |
| `Tlv.FindTag` | Server/src/shared/tlv.rs:65-69 | yields the first well-formed record with the tag |
| `Tlv.AllRecordsValid` | Server/src/shared/tlv.rs:71-80 | holds exactly for at least one record and none malformed |
| `Tlv.WalkAppend` | Server/src/shared/tlv.rs:82-112 | what follows well-formed records does not change how they are walked |
| `Tlv.ShortRecordRead` | Server/src/shared/tlv.rs:84-89 | a Sentry record is read back whatever follows |
| `Tlv.ShortRecordOnly` | Server/src/shared/tlv.rs:84-89 | nothing but the bytes of a Sentry record reads as that record |
| `Tlv.LongRecordRead` | Server/src/shared/tlv.rs:90-110 | a GRiDMail record is read back whatever follows |
| `Tlv.LongRecordOnly` | Server/src/shared/tlv.rs:90-110 | nothing but the bytes of a record reads as that record |
| `Tlv.RecordsRead` | Server/src/shared/tlv.rs:90-110 | records one after the other are walked as exactly these records |
| `Tlv.RecordsOnly` | Server/src/shared/tlv.rs:90-110 | bytes that walk as well-formed records throughout are those records one after the other |
| `Mail.RecordRead` | Server/src/vipc/mail/protocol.rs:115-132 | a record that is not cut is read back with its tag and value, whatever follows |
| `Mail.ParseOutgoing` | Server/src/vipc/mail/postoffice.rs:366-373 | parses recipient, subject and body as the walk defines them |
| `Mail.FindBody` | Server/src/vipc/mail/postoffice.rs:418-432 | the body is the first body record with an empty terminator right behind it |
| `Mail.StaleTailHarmless` | Server/src/vipc/mail/postoffice.rs:418-432 | a tail behind a well-formed object that parses changes nothing |
| `Mail.FitsVipcPayload` | Server/src/vipc/mail/postoffice.rs:387-404 | the size check holds exactly when no field is cut and the transport-wrapped detail fits a 16-bit length |
| `Mail.ReadBack` | Server/src/vipc/mail/postoffice.rs:488-501 | a detail that was not cut parses back to recipient, subject and body exactly if these are ASCII |
| `Mail.DetailHeader` | Server/src/vipc/mail/postoffice.rs:438-456 | the first header record of a detail holds the mail id in its first four bytes and the status in its last, zeros between |
| `Fragments.MailServer.Process` | Server/src/vipc/mail/postoffice.rs:229-310 | a fragment changes only its own channel, as the step function says, and a whole request is routed by channel |
| `Fragments.BoundedAlways` | Server/src/vipc/mail/postoffice.rs:247-253 | no channel ever holds more than 64 KiB |
| `Fragments.SingleRecordExactly` | Server/src/vipc/mail/protocol.rs:105-110 | a request is a single record exactly if it is the bytes of that record and nothing more |
| `Fragments.RouteExactly` | Server/src/vipc/mail/postoffice.rs:259-297 | the bytes that open a session, select mail, get an empty result or are accepted, each exactly, channel by channel: the session record, one select record, nothing or the initialize record, one or more whole records |
| `Fragments.AnotherIsDropped` | Server/src/vipc/mail/postoffice.rs:244-247 | a half request of another connection is dropped and leaves no byte in the request that displaced it |
| `Fragments.FaultIsDropped` | Server/src/vipc/mail/postoffice.rs:235-242 | a fragment that is too short or carries an error drops what was collected and answers nothing |
| `Fragments.OverlongIsDropped` | Server/src/vipc/mail/postoffice.rs:248-252 | a request that grows past 64 KiB is dropped as a whole |
| `Fragments.ChannelAlone` | Server/src/vipc/mail/postoffice.rs:229-264 | what happens on a channel is what would happen with that channel's traffic alone |
| `Fragments.SplitTransparent` | Server/src/vipc/mail/postoffice.rs:229-310 | a request split on a channel that is idle or was left half full by another connection, among any other traffic, is answered once, at its last part, as if it had come whole |
| `Sentry.Find` | Server/src/vipc/sentry.rs:244-246 | finds the last row under a prefix, and nothing exactly if no row matches |
| `Sentry.NextVisible` | Server/src/vipc/sentry.rs:381-387 | the first row from a place on that is in the actor's scope |
| `Sentry.SameExactly` | Server/src/vipc/sentry.rs:181-186 | names are the same exactly if they have one length and the same characters up to the case of ASCII letters |
| `Sentry.SkipExactly` | Server/src/vipc/sentry.rs:1012-1019 | a level is skipped exactly by one or more 0xFF bytes |
| `Sentry.StartExactly` | Server/src/vipc/sentry.rs:1012-1032 | a level starts at the top exactly without a filter or with one of zeros only |
| `Sentry.ScopeIsByName` | Server/src/vipc/sentry.rs:589-606 | scope depends on names without regard to case only |
| `Sentry.ScopeMeaning` | Server/src/vipc/sentry.rs:580-606 | who sees which row: everything, the own company, the own group with the company row (and any group of the company that is named as it), or the own record |
| `Sentry.EchoAdvances` | Server/src/vipc/sentry.rs:817-835 | an echoed row leads on, or ends the listing, if and only if its trimmed names do not address earlier rows only |
| `Sentry.NulKeepsListingForEver` | Server/src/vipc/sentry.rs:1012-1032 | two companies that differ in a NUL at the end keep the listing at the second for ever |
| `Sentry.PathAdvances` | Server/src/vipc/sentry.rs:367-390 | a listing of any names shows strictly increasing rows if and only if no row it goes on from falls back, and then ends after as many echoes as there are rows |
| `Sentry.ListByEcho` | Server/src/vipc/sentry.rs:367-390 | without NULs at the end of names the listing ends, in order, in scope, and equals the walk with a cursor if and only if no two visible rows have the same names |
| `Sentry.TwinFreeExactly` | Server/src/vipc/sentry.rs:158-179 | visible rows share their names exactly where a visible group is named as its company or a user as its group |
| `Sentry.ListDirectory` | Server/src/vipc/sentry.rs:367-390 | the listing of a stored directory shows every visible row once if and only if nothing visible is named as what it belongs to |
| `Sentry.NamesakeIsMissed` | Server/src/vipc/sentry.rs:367-390 | a stored company with a group of its own name: both rows are visible, and the echo of the first ends the listing |
| `Sentry.SkipCompany` | Server/src/vipc/sentry.rs:817-835 | from the bytes of the request: a company named with any padding and a group of 0xFF bytes go on at the first row behind the whole company and past nothing else |
| `Sentry.SkipGroup` | Server/src/vipc/sentry.rs:817-835 | from the bytes of the request: company and group named and a user of 0xFF bytes go on behind the whole group, even one named as its company |
| `Sentry.SkipAll` | Server/src/vipc/sentry.rs:817-835 | a company filter of 0xFF bytes leaves nothing to list |

## Left out

- TCP, threads, logging, the environment, the web pages, hardware, display and debugging code: input and output only.
- SQLite, extended attributes and the host file system: modelled as sequences, trees and byte strings; host errors and short reads are not modelled.
- Error and timeout paths of the cached file calls: remote calls answer, one connection uses the file, and the file is a byte file.
- Directory objects behind the client cache (FsDirRead, FsDirSeek, DirSyncAndSeek): the server has no directory seek to compare with.
- PageCache.VfsConn.FsWrite: a write past the size limit of a file is outside its contract; part of it may wait in the page until a later call fails, so no single call could be compared with a refused plain write.
- CacheRuns.Perform: leaves out such writes, and seeks that PageCache.VfsConn.FsSeek shows to differ from plain ones or that may, depending on how much of the page is unread.
- CacheRuns.Replay: covers runs of the calls CacheRuns.Perform covers; so do CacheRuns.Session and CacheRuns.Sessions.
- PageCache.VfsConn.FsGetStatus: a status request too short to include the position is passed through without the correction, so its contract speaks of full requests.
- LinkReplay.Drive: one connection from its request on; connecting again after a disconnect is not modelled.
- LinkRuns.ExactlyOnce: one session per run, and each frame handler or timer turn is one atomic step; the write lock and the hand-over of the payload are one step.
- Recovery of lost replies: the server does not send a reply again; LinkReplies.RepliesInOrder says what the client still gets.
- LinkRecovery.EveryWriteCanFinish: shows a run that finishes the write; that the lines stop losing frames is not modelled.
- Frames inside which bytes are lost or changed on the line, other than a change within two consecutive payload bytes: both ends report an error and search, and where they find the next frame start is not modelled.
- Timers.TimerModule.CompleteTimerRequests: the clock may turn over at most once between two calls while requests are queued, as the delays it returns provide for; without requests it may turn over any number of times. The branch that frees a request marked as aborted is not modelled: requests on the queue never carry that mark.
- TimerRuns.Drive: the clock is read by some call before it has gone round, also while nothing waits; longer idle stretches are covered call by call in Timers.
- Access semaphores and process priorities of the timer: each procedure runs as one step.
- VfsTable.Vfs.DoIo: stands for read, write, seek, flush, truncate and both descriptor calls, which share their checks; what the backend does with a handle is in GridFile and DirPaging.
- FileIds.DirManager.Run: the section under the lock, with the scan, is one step; ids copied together with a file by other programs on the host are not modelled.
- Replies.RespondTo: the payloads of attach, open, write, seek and set-status requests and their checks are not modelled; a request that fails them gets no reply.
- Replies.WriteInto: field values are written modulo their width; the arithmetic that fills them is not modelled.
- Fragments.MailServer.Process: which stored mail a selection returns is not modelled; the request that reaches the selection is.
- Sentry.ListDirectory: rows and accounts are sequences in the order the database gives; quotas, passwords, adding, updating and deleting are not modelled.
- Descriptor layout, dates, access modes and enum conversions: fixed tables.
