# Decode loop of LMS-to-Raop's squeezelite core, in Dafny

This project models `application/squeezetiny/decode.c`, the decode stage of the
squeezelite player core. The stage sits between the stream buffer, where the network
side deposits compressed or raw audio, and the output buffer, which the RAOP side
drains. The model covers four parts:

- **Ring buffers** (`ring.dfy`, module `RingBuffers`). The two byte rings are specified
  by their cursor arithmetic:
  - bytes used;
  - free space, which is one short of the room left so that a full ring never looks empty;
  - contiguous spans up to the wrap point;
  - cursor advances that wrap at the capacity.

  Lemmas read a cursor advance as byte streams: consuming drops a prefix of the unread
  bytes, and publishing appends to them.
- **Direct converter** (`converter.dfy`, module `Converter`). This is the pass-through
  (`NO_CODEC`) build's decode iteration, in three layouts:
  - 16-bit stereo is copied verbatim.
  - 16-bit mono has every byte written twice.
  - 24-bit drops the first byte of every triple.

  When the stream buffer's wrap point cuts a triple, one triple is staged through a
  3-byte scratch buffer. `Convert` says what one iteration consumes and produces. The
  in-place methods are proved to have exactly that effect on the buffers, and the
  lemmas prove that the produced bytes are the layout's transform of the next unread
  input bytes.
- **Codec registry** (`codecs.dfy`, module `Codecs`). `decode_init` fills the codec
  table from the compiled-in families, filtered by include and exclude lists matched as
  substrings. The mp3 slot prefers mad and falls back to mpg. `codec_open` picks the
  first entry with the requested id.
- **Decode context** (`decoder.dfy`, module `DecodeThread`). The context holds the state,
  the new-stream flag, the stream geometry and the open codec. The model has one
  iteration of each build's decode loop, plus `codec_open`, `decode_flush` and
  `decode_close`. Calls into the codec back-end (open, close, decode) and the foreign
  effects `_checkfade` and `wake_controller` are events in a ghost trace. The context
  invariant says that:
  - the context's codec is the one the trace leaves open;
  - every close and decode goes to the open codec;
  - no open replaces a different codec that is still open.

The 16-bit mono branch duplicates each byte (`dst[2k] = dst[2k+1] = src[k]`), not each
16-bit sample. The model follows the code: it does not follow a description of the
branch as sample duplication.

## Model

| member | source | states |
|---|---|---|
| RingBuffers.Cursors.Used | application/squeezetiny/decode.c:61 | unread bytes: below the capacity, and reading that many from the read cursor lands on the write cursor |
| RingBuffers.Cursors.ContRead | application/squeezetiny/decode.c:62 | the contiguous unread run is at most the unread count, does not cross the end of storage, stops only at the write cursor or the end, and is empty exactly when the ring is empty |
| RingBuffers.Cursors.ContWrite | application/squeezetiny/decode.c:62-72 | the contiguous writable run does not cross the end of storage and exceeds the free space by at most one byte, which is why the free space also bounds each write |
| RingBuffers.Cursors.AdvanceRead | application/squeezetiny/decode.c:92 | consuming n unread bytes moves the read cursor forward by n, wrapping once at the capacity, and lowers the unread count by n |
| RingBuffers.Cursors.AdvanceWrite | application/squeezetiny/decode.c:63-72 | publishing n bytes within the free space moves the write cursor forward by n, wrapping once at the capacity, raises the unread count by n, and never lands the write cursor on the read cursor |
| RingBuffers.ReadIsModular | application/squeezetiny/decode.c:61 | the unread count is the distance from the read cursor to the write cursor modulo the capacity, and consuming n bytes adds n to the read cursor modulo the capacity |
| RingBuffers.WriteIsModular | application/squeezetiny/decode.c:93 | publishing n bytes adds n to the write cursor modulo the capacity |
| RingBuffers.ContiguousIsLogical | application/squeezetiny/decode.c:90-93 | bytes read straight from storage without crossing its end are the next unread bytes in order |
| RingBuffers.AdvanceReadDropsPrefix | application/squeezetiny/decode.c:92 | after consuming n bytes, the unread bytes are the old unread bytes without their first n |
| RingBuffers.AdvanceWriteAppends | application/squeezetiny/decode.c:93 | writing w at the write cursor and publishing it appends w to the unread bytes |
| RingBuffers.RingBuffer.IncReadp | application/squeezetiny/decode.c:92 | the read cursor advances as AdvanceRead says |
| RingBuffers.RingBuffer.IncWritep | application/squeezetiny/decode.c:93 | the write cursor advances as AdvanceWrite says |
| Converter.LayoutOf | application/squeezetiny/decode.c:90-122 | which of the three branches runs: 16-bit stereo, 16-bit mono, 24-bit, or none for any other geometry |
| Converter.DirectSpace | application/squeezetiny/decode.c:62-72 | the bytes one iteration may handle are the least of the input's contiguous unread run, the output's contiguous writable run and the output's free space |
| Converter.WrapGuardAsWritten | application/squeezetiny/decode.c:129 | the wrap workaround's guard as written: no whole triple in `space`, `space` positive, at least three unread bytes, and more than two contiguous writable bytes |
| Converter.WrapGuard | application/squeezetiny/decode.c:129 | the corrected guard: the guard as written, and fewer than three unread bytes before the stream buffer's wrap point |
| Converter.Duplicated | application/squeezetiny/decode.c:107-111 | byte doubling produces twice as many bytes |
| Converter.DuplicatedAt | application/squeezetiny/decode.c:107-111 | output bytes 2k and 2k+1 are both input byte k |
| Converter.Narrowed | application/squeezetiny/decode.c:137-142 | narrowing produces two bytes per whole input triple |
| Converter.NarrowedAt | application/squeezetiny/decode.c:137-142 | output bytes 2k and 2k+1 are input bytes 3k+1 and 3k+2 |
| Converter.Scratch | application/squeezetiny/decode.c:130-131 | the scratch holds three bytes: the short run at the read cursor, then the first bytes of storage |
| Converter.WrapScratchIsNextThreeBytes | application/squeezetiny/decode.c:128-135 | when the guard holds and the short span is on the input side, the scratch holds exactly the next three unread bytes, and the run at the read cursor reaches the end of storage |
| Converter.ScratchAtWrap | application/squeezetiny/decode.c:130-131 | when fewer than three unread bytes lie before the wrap point and at least three are unread, the contiguous run then the start of storage are the next three unread bytes |
| Converter.WrapGuardAsWrittenMisreads | application/squeezetiny/decode.c:129 | the guard as written also fires when the output limits the span and the input run is long, and the scratch then yields other bytes than the next triple |
| Converter.StereoTransfer | application/squeezetiny/decode.c:90-94 | stereo consumes and produces exactly the iteration's span, within the unread bytes and the free space |
| Converter.MonoTransfer | application/squeezetiny/decode.c:102-115 | mono consumes half the span and produces twice that, within the unread bytes, the free space and the end of output storage |
| Converter.NarrowTransfer | application/squeezetiny/decode.c:122-146 | 24-bit, with the corrected guard, consumes one triple when the guard fires and otherwise the span rounded down to whole triples (`3 * (space / 3)`), produces two bytes for every three consumed, within the unread bytes, the free space and the end of output storage, and consumes more than the span only through the wrap workaround, by exactly one triple |
| Converter.NarrowTransferAsWritten | application/squeezetiny/decode.c:122-146 | 24-bit with the guard as written: one triple when that guard fires, otherwise the span rounded down to whole triples (`3 * (space / 3)`), two bytes for every three consumed, within the unread bytes, the free space and the end of output storage |
| Converter.AsWrittenGuardStaysInBounds | application/squeezetiny/decode.c:129-131 | whenever the guard as written fires, the two bytes written fit the output's free space and contiguous run, and three bytes are unread |
| Converter.AsWrittenDiffersOffTheWrap | application/squeezetiny/decode.c:129 | the branch as written and the corrected one differ exactly when the guard as written fires while three unread bytes are contiguous |
| Converter.MonoNeverReachesWrap | application/squeezetiny/decode.c:102-111 | the mono branch consumes less than any non-empty contiguous input run, so the read cursor never reaches the stream buffer's wrap point through it |
| Converter.MonoStalls | application/squeezetiny/decode.c:102-115 | with 4 unread bytes, 1 of them before the wrap point, and an empty output, mono moves nothing; the intended count takes the byte and wraps the read cursor |
| Converter.NarrowNeverFillsOutputRun | application/squeezetiny/decode.c:122-142 | the 24-bit branch, as written or corrected, writes fewer bytes than the output's contiguous run, so the output write cursor never reaches its wrap point through it |
| Converter.NarrowStalls | application/squeezetiny/decode.c:122-146 | with an empty output whose write cursor is two bytes from the end and six contiguous unread bytes, 24-bit moves nothing, as written or corrected; the intended count writes one sample and wraps the output |
| Converter.Room | application/squeezetiny/decode.c:62-72 | the room one write may use is the least of the output's contiguous run and its free space |
| Converter.MonoTransferIntended | application/squeezetiny/decode.c:96-111 | the mono count the comment intends consumes within the contiguous run and writes within the room |
| Converter.MonoIntendedReachesWrap | application/squeezetiny/decode.c:96-111 | the intended mono count doubles the next unread bytes, moves whenever a byte and room for two are there, and takes the whole contiguous run when the room allows |
| Converter.NarrowTransferIntended | application/squeezetiny/decode.c:117-142 | the 24-bit count the comment intends produces two bytes per triple, within the unread bytes and the room |
| Converter.NarrowIntendedKeepsHighBytes | application/squeezetiny/decode.c:117-142 | the intended 24-bit count drops the first byte of each of the next unread triples, including one cut by the wrap point |
| Converter.NarrowIntendedReachesWrap | application/squeezetiny/decode.c:117-142 | the intended 24-bit count moves whenever a triple and room for a sample are there, writes every whole sample of the room when the contiguous input allows, and so fills an even room |
| Converter.NarrowIntendedStallsOnOddRun | application/squeezetiny/decode.c:117-142 | with the output's write cursor one byte before its wrap point, the intended 24-bit count, the count as written and the intended mono count all move nothing; an empty output whose write cursor is at 5 gets there after one sample |
| Converter.Convert | application/squeezetiny/decode.c:89-146 | one iteration never consumes more than is unread, never produces more than the free space, and never writes past the end of output storage |
| Converter.StereoCopiesUnreadBytes | application/squeezetiny/decode.c:90-94 | the stereo output is the consumed unread bytes |
| Converter.MonoDuplicatesUnreadBytes | application/squeezetiny/decode.c:102-115 | the mono output is the consumed unread bytes, each doubled |
| Converter.NarrowKeepsHighBytes | application/squeezetiny/decode.c:122-146 | the 24-bit output is the consumed unread bytes with the first byte of each triple dropped, including across the wrap |
| Converter.ConvertConsumesPrefix | application/squeezetiny/decode.c:89-146 | for every layout, the output is the layout's transform of the consumed prefix of the unread input |
| Converter.MovedAsStreams | application/squeezetiny/decode.c:89-146 | after an iteration, the input's unread bytes lose the consumed prefix and the output's unread bytes gain its transform |
| Converter.Spliced | application/squeezetiny/decode.c:90-145 | an output array that changed only over the written run equals the old array with that run spliced in |
| Converter.CopyStereo | application/squeezetiny/decode.c:90-94 | the in-place copy and the cursor advances have exactly the effect StereoTransfer describes |
| Converter.DuplicateRun | application/squeezetiny/decode.c:107-111 | the loop writes the doubled bytes at the write position and leaves the rest of the output array alone |
| Converter.DuplicateMono | application/squeezetiny/decode.c:102-115 | the mono branch has exactly the effect MonoTransfer describes |
| Converter.NarrowRun | application/squeezetiny/decode.c:137-142 | the loop writes the narrowed triples at the write position and leaves the rest of the output array alone |
| Converter.FillScratch | application/squeezetiny/decode.c:130-131 | the scratch array holds Scratch of the stream buffer |
| Converter.NarrowSource | application/squeezetiny/decode.c:122-135 | with the corrected guard, the bytes the 24-bit loop reads are exactly those NarrowTransfer consumes, either in place or through the scratch buffer, and the output run fits the output storage |
| Converter.NarrowTo16 | application/squeezetiny/decode.c:122-146 | the 24-bit branch, with the corrected guard on its wrap workaround, has exactly the effect NarrowTransfer describes |
| Converter.ConvertDirect | application/squeezetiny/decode.c:89-146 | the three layout branches together have exactly the effect Convert describes, and an unhandled geometry changes nothing |
| Codecs.Contains | application/squeezetiny/decode.c:256 | `strstr(hay, needle) != NULL`: the needle occurs at some position of the haystack |
| Codecs.Allowed | application/squeezetiny/decode.c:256-266 | a family is allowed when its short name is not in the exclude list and, if there is an include list, is in it |
| Codecs.Mp3Allowed | application/squeezetiny/decode.c:269-272 | an mp3 back-end is allowed when neither "mp3" nor its own name is excluded and, with an include list, either is included |
| Codecs.Mp3Slot | application/squeezetiny/decode.c:269-272 | the mp3 slot holds mad's registration when mad passes and is available, else mpg's when it passes |
| Codecs.Registered | application/squeezetiny/decode.c:255-273 | the table prefix decode_init fills, slot by slot in registration order |
| Codecs.InSlot | application/squeezetiny/decode.c:256-266 | a family's own slot holds a codec exactly when the family is compiled in and passes, and its registration returned that codec |
| Codecs.InMp3Slot | application/squeezetiny/decode.c:269-272 | the mp3 slot holds mad's codec when mad passes and is available, and mpg's codec when mpg passes and mad does not take the slot |
| Codecs.RegisteredIff | application/squeezetiny/decode.c:255-273 | a codec is in the table exactly when its family is compiled in and passes the filters (mpg only if mad does not pass or is unavailable) and its registration returned it |
| Codecs.ExcludingMp3BlocksBoth | application/squeezetiny/decode.c:269-272 | an exclude list containing "mp3" keeps both mad and mpg out |
| Codecs.ExcludeWins | application/squeezetiny/decode.c:256-272 | a family whose short name is excluded never registers, whatever the include list says |
| Codecs.IncludeListRestricts | application/squeezetiny/decode.c:256-272 | with an include list, only families it names register, or "mp3" for the mp3 back-ends |
| Codecs.MpgOnlyAsFallback | application/squeezetiny/decode.c:269-272 | mpg holds the mp3 slot only when mad does not pass the filters or is unavailable |
| Codecs.RegisteredFits | application/squeezetiny/decode.c:255-273 | at most eight slots are ever filled |
| Codecs.CodecTable.constructor | application/squeezetiny/decode.c:32 | a new table has every entry empty |
| Codecs.CodecTable.Register | application/squeezetiny/decode.c:256-266 | a family's registration lands at the running index exactly when it is compiled in and passes the filters on its short name, and the index moves past it |
| Codecs.CodecTable.RegisterFfmpeg | application/squeezetiny/decode.c:258-259 | alac then wma register at the running index, each exactly when built and passing |
| Codecs.CodecTable.RegisterNative | application/squeezetiny/decode.c:262-272 | aac, ogg, flac and pcm register in that order, then the mp3 slot is filled, all only when the codecs are built |
| Codecs.CodecTable.RegisterMp3 | application/squeezetiny/decode.c:269-272 | the mp3 slot ends up holding mad if it passes and is available, otherwise mpg if it passes |
| Codecs.CodecTable.DecodeInit | application/squeezetiny/decode.c:246-274 | the table's first entries are the registrations in order, and every later entry stays empty |
| Codecs.FirstMatch | application/squeezetiny/decode.c:373-375 | the index found is the first entry with the requested id; none is found only when no entry has it |
| DecodeThread.ActiveIsLastOpened | application/squeezetiny/decode.c:377-384 | the codec a trace leaves open is the one whose open has no open or close after it |
| DecodeThread.DisciplinedSnoc | application/squeezetiny/decode.c:377-384 | an event that respects the codec protocol extends a disciplined trace into a disciplined one |
| DecodeThread.NothingOpenWithoutOpen | application/squeezetiny/decode.c:307-310 | without an open, a trace that leaves no codec open stays that way |
| DecodeThread.NoCloseTwice | application/squeezetiny/decode.c:307-310 | in a disciplined trace, two closes always have an open between them |
| DecodeThread.Appended | application/squeezetiny/decode.c:206 | decode, fade and wake events keep the protocol and the open codec |
| DecodeThread.DecodeContext.constructor | application/squeezetiny/decode.c:277-283 | a fresh context is running, waiting for a new stream and stopped; it has no codec because the model starts from a zeroed context, as decode_thread_init does not set one |
| DecodeThread.DecodeContext.DirectStep | application/squeezetiny/decode.c:58-164 | only a running decode acts, and `ran` holds exactly when it acts and the input has ended. A new stream's track starts at the output write cursor. The buffers change exactly as Convert says. The state becomes Complete exactly when the input has ended and the stream buffer was empty at the start, and only then are the fade-out and the wake-up recorded |
| DecodeThread.DecodeContext.RunDirect | application/squeezetiny/decode.c:61-164 | a running iteration: the new track starts at the old output write cursor, the buffers change exactly as Convert says, `ran` is the end-of-input flag, and the decode completes, with fade-out and wake-up recorded, exactly when the input has ended and the stream buffer was empty |
| DecodeThread.DecodeContext.EndOfInput | application/squeezetiny/decode.c:150-164 | an empty stream buffer completes the decode and then the end of the stream is recorded; otherwise the state stays Running and nothing is recorded |
| DecodeThread.DecodeContext.BeginTrack | application/squeezetiny/decode.c:80-87 | on a new stream: the track start is the output write cursor, the fade-in check is recorded when fading is on, and the new-stream flag is cleared |
| DecodeThread.DecodeContext.WakeIfEnded | application/squeezetiny/decode.c:154-161 | the fade-out check, when fading is on, and the controller wake-up are recorded exactly when the state is not Running |
| DecodeThread.Admits | application/squeezetiny/decode.c:204 | the codec loop's gate: more free output than the codec's minimum, and more input than its minimum read or the input has ended |
| DecodeThread.DecodeContext.CodecStep | application/squeezetiny/decode.c:178-233 | decode() is called exactly when the decode is running, a codec is open, the output has more space than the codec's minimum, and the input holds more than its minimum read or has ended. Its result becomes the state, and the controller is woken exactly when that result is not Running. Otherwise nothing changes |
| DecodeThread.DecodeContext.CodecOpen | application/squeezetiny/decode.c:348-395 | always: new stream, stopped, geometry stored. In a codec build, the first entry with the format's id becomes the open codec, with a close of the previous codec only when it is a different one, then an open. With no match, or without codecs, the open codec is unchanged |
| DecodeThread.DecodeContext.Flush | application/squeezetiny/decode.c:320-329 | the state becomes Stopped and the open codec stays open |
| DecodeThread.DecodeContext.Close | application/squeezetiny/decode.c:303-317 | the open codec, if any, is closed once, no codec remains, and the loop is told to stop |

## Left out

- Threads and locks: thread creation and joining (decode.c:290-299, 313-315), and mutex creation, locking and destruction. Each method models one iteration or call as if every lock is held. Interleaving with the stream and output threads is not modelled.
- The `usleep(100000)` back-off when an iteration did not run. It is timing; only the `ran` flag is kept.
- The outer `while (ctx->decode_running)` loop. Each method is one pass of it.
- Logging.
- `_checkfade` and `wake_controller` are foreign side effects. They appear only as trace events.
- The codec back-ends: `register_*`, and what `open`, `close` and `decode` do to the buffers. A registration is a value from a `loaded` map, or nothing. What `decode()` returns is a parameter.
- DecodeThread.DecodeContext.CodecStep: the buffers are given as cursor snapshots, because the codec's effect on them is not modelled.
- The `PROCESS` build (`IF_PROCESS`, `MAY_PROCESS`, `decode_newstream`, the `process_*` calls). That build cannot compile: it stops at `#error 1` at decode.c:42. Without it, `decode_newstream` returns its rate unchanged.
- The ring buffer implementation (buffer.c) is not part of this model. Its cursor semantics are specified by `Cursors`.
- `stream.state <= DISCONNECT` is the parameter `toend`. The stream states themselves are not part of this model.
- C pointer identity of codec entries is modelled as value equality of `Codec`.
- `output.track_start` is modelled as an index into the output buffer rather than a pointer.
- `output.fade_mode` is modelled only as whether fading is on.
- `MAX_CODECS` (squeezelite.h) is not part of this model. `DecodeInit` requires at least the eight slots it can fill.
- The unused `full` parameter of `decode_init`.
- A null `exclude_codecs`, which the code does not handle. The exclude list is always a string.
- RingBuffers.Cursors.Space has no contract of its own: it is the definition `size - used - 1`, and AdvanceWrite and ContWrite state its properties.
- Converter.NarrowTransfer uses the corrected wrap guard of the first Findings row, not the guard decode.c:129 writes. The code as written is Converter.NarrowTransferAsWritten, which is specified but not run in place.
- Converter.NarrowSource picks the scratch path under the corrected guard. On the first Findings row's input the code as written takes the scratch path and this method reads in place.
- Converter.NarrowTo16 inherits the corrected guard from NarrowSource.
- Converter.MonoTransfer and Converter.DuplicateMono keep the count decode.c writes (`space / 2`). The intended count of the second Findings row is Converter.MonoTransferIntended, which is proved but not run in place, because the two counts differ only in how far an iteration gets, not in what it moves.
- Converter.NarrowTransfer, Converter.NarrowSource and Converter.NarrowTo16 keep the count decode.c writes (`space / 3`). The intended count of the third Findings row is Converter.NarrowTransferIntended, which is proved but not run in place, for the same reason.
- DecodeThread.DecodeContext.CodecStep: what `decode()` does to `new_stream` and `track_start` is not modelled. The codec build never clears `new_stream` itself, so the back-end must, and the model leaves both fields unchanged.
- Ring buffer creation (`buf_init` in buffer.c) is not part of this model. The methods take existing `RingBuffer` objects.
- Converter.Convert inherits the corrected wrap guard of the first Findings row from Converter.NarrowTransfer.
- Converter.NarrowKeepsHighBytes inherits the corrected wrap guard of the first Findings row from Converter.NarrowTransfer.
- Converter.ConvertConsumesPrefix inherits the corrected wrap guard of the first Findings row from Converter.NarrowTransfer.
- Converter.MovedAsStreams inherits the corrected wrap guard of the first Findings row from Converter.NarrowTransfer.
- Converter.ConvertDirect inherits the corrected wrap guard of the first Findings row from Converter.NarrowTo16.
- DecodeThread.DecodeContext.RunDirect inherits the corrected wrap guard of the first Findings row through Converter.ConvertDirect.
- DecodeThread.DecodeContext.DirectStep inherits the corrected wrap guard of the first Findings row through Converter.ConvertDirect.
- Converter.NarrowTransferIntended never splits a sample across the output's wrap point, so it stalls at an odd output offset (Converter.NarrowIntendedStallsOnOddRun). Writing one byte before and one after the wrap point is not modelled.
- Converter.MonoTransferIntended never splits a sample across the output's wrap point either, so it also stalls at an odd output offset (Converter.NarrowIntendedStallsOnOddRun). A 16-bit stereo stream can leave the output's write cursor at an odd offset.

## Findings

| source | as written | input that shows it | evidently intended | confidence | as-written member | corrected member |
|---|---|---|---|---|---|---|
| application/squeezetiny/decode.c:129-131 | The 24-bit wrap workaround fires when `space / 3 == 0`, `space > 0`, at least three bytes are unread, and the output's contiguous run exceeds two bytes. It then takes `space` bytes at the read cursor and the rest from the start of storage. | A stream buffer of 8 bytes with read cursor 0 and write cursor 6, and an output buffer of 8 bytes with read cursor 0 and write cursor 5. Then `space == 2`: the output's free space limits it, not the input's wrap. The guard fires. The scratch is input bytes 0, 1, 0 rather than 0, 1, 2, so the second output byte of the sample, its high byte in little-endian order, is wrong. | The workaround is meant for a triple cut by the stream buffer's wrap point. The guard should also require that the input's contiguous run is shorter than three bytes, and the model's converter uses that guard. | medium, not executed | Converter.WrapGuardAsWrittenMisreads | Converter.WrapScratchIsNextThreeBytes |
| application/squeezetiny/decode.c:102-111 | The mono branch consumes `space / 2` bytes, and `space` is at most the stream buffer's contiguous unread run. So it never consumes a whole non-empty run, and the read cursor never reaches the stream buffer's wrap point through this branch. | A stream buffer of 8 bytes with read cursor 7 and write cursor 3, so 4 bytes are unread and 1 lies before the wrap point, and an empty output buffer of 8 bytes. Then `space == 1` and the count is 0. Nothing moves. The other threads can add input or free output, but the read cursor stays at 7, so the span stays one byte and the count stays 0. | The comment at decode.c:96-100 expects the next turn to start again at the beginning of the stream buffer. That needs the count to be the contiguous run, bounded by half the output's room. That count still stalls when the output's write cursor is an odd number of bytes before its wrap point, because a sample is never split across that point (Converter.NarrowIntendedStallsOnOddRun). | medium, not executed; it depends on buffer.c's contiguous spans being as `Cursors` specifies them | Converter.MonoStalls | Converter.MonoIntendedReachesWrap |
| application/squeezetiny/decode.c:122-142 | The 24-bit branch writes `2 * (space / 3)` bytes, and `space` is at most the output's contiguous writable run. So it always writes fewer bytes than that run, and the output's write cursor never reaches its wrap point through this branch. | A stream buffer of 8 bytes with read cursor 0 and write cursor 6, and an empty output buffer of 8 bytes with both cursors at 6. Then `space == 2`, the count is 0, and the wrap workaround does not fire because only two output bytes are contiguous. Nothing moves. The other threads can add input or free output, but the output's write cursor stays at 6, so its contiguous run stays two bytes and the count stays 0. | The comment at decode.c:117-121 expects the next turn to start again at the beginning of the output. That needs the count to be the contiguous input triples, bounded by half the output's room. This fills an even room. It still stalls when the output's write cursor is an odd number of bytes before its wrap point, because a sample is never split across that point (Converter.NarrowIntendedStallsOnOddRun). | medium, not executed; it depends on buffer.c's contiguous spans being as `Cursors` specifies them | Converter.NarrowStalls | Converter.NarrowIntendedReachesWrap |
