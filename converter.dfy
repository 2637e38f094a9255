/** The direct sample converter of the pass-through build (decode.c, the NO_CODEC
    decode_thread): one iteration moves raw PCM from the stream buffer to the output
    buffer, copying 16-bit stereo verbatim, doubling every byte of 16-bit mono and
    dropping the first byte of every 24-bit triple. `Convert` says what one iteration
    consumes and produces; the three methods do it in place and are proved to match. */
module Converter {
  import opened RingBuffers

  datatype Layout = Stereo16 | Mono16 | Narrow24 | Unsupported

  /** Which of the three branches of decode.c:90-146 runs for a stream's geometry. */
  function LayoutOf(sampleSize: nat, channels: nat): Layout
  {
    if sampleSize == 16 && channels == 2 then Stereo16
    else if sampleSize == 16 && channels == 1 then Mono16
    else if sampleSize == 24 then Narrow24
    else Unsupported
  }

  function Min(a: nat, b: nat): nat
  {
    if a <= b then a else b
  }

  /** Every byte written twice in a row. */
  function Duplicated(s: seq<byte>): (r: seq<byte>)
    ensures |r| == 2 * |s|
  {
    if s == [] then [] else [s[0], s[0]] + Duplicated(s[1..])
  }

  lemma {:induction false} DuplicatedAt(s: seq<byte>, k: nat)
    requires k < |s|
    ensures Duplicated(s)[2 * k] == s[k] && Duplicated(s)[2 * k + 1] == s[k]
  {
    if k > 0 {
      DuplicatedAt(s[1..], k - 1);
    }
  }

  /** Each complete triple of `s` with its first byte dropped; a trailing partial triple is ignored. */
  function Narrowed(s: seq<byte>): (r: seq<byte>)
    ensures |r| == 2 * (|s| / 3)
  {
    if |s| < 3 then [] else [s[1], s[2]] + Narrowed(s[3..])
  }

  lemma {:induction false} NarrowedAt(s: seq<byte>, k: nat)
    requires k < |s| / 3
    ensures Narrowed(s)[2 * k] == s[3 * k + 1] && Narrowed(s)[2 * k + 1] == s[3 * k + 2]
  {
    if k > 0 {
      NarrowedAt(s[3..], k - 1);
    }
  }

  /** The conversion a layout applies to the input bytes it consumes. */
  function Transform(layout: Layout, s: seq<byte>): seq<byte>
  {
    match layout
    case Stereo16 => s
    case Mono16 => Duplicated(s)
    case Narrow24 => Narrowed(s)
    case Unsupported => []
  }

  /** The bound on one iteration (decode.c:62-72): the stream buffer's contiguous unread
      run, the output buffer's contiguous writable run and its free space. */
  function DirectSpace(i: Cursors, o: Cursors): (r: nat)
    requires i.Valid() && o.Valid()
    ensures r <= i.ContRead() && r <= o.ContWrite() && r <= o.Space()
    ensures r == i.ContRead() || r == o.ContWrite() || r == o.Space()
  {
    Min(Min(i.ContRead(), o.ContWrite()), o.Space())
  }

  /** The guard of the 24-bit wrap workaround as decode.c:129 writes it. */
  predicate WrapGuardAsWritten(i: Cursors, o: Cursors, space: nat)
    requires i.Valid() && o.Valid()
  {
    space / 3 == 0 && space > 0 && i.Used() >= 3 && o.ContWrite() > 2
  }

  /** The guard as intended: the shortfall is due to the stream buffer's wrap point,
      i.e. fewer than 3 unread bytes are contiguous. */
  predicate WrapGuard(i: Cursors, o: Cursors, space: nat)
    requires i.Valid() && o.Valid()
  {
    WrapGuardAsWritten(i, o, space) && i.ContRead() < 3
  }

  /** The 3-byte scratch of decode.c:130-131: `space` bytes at the read cursor, then
      the first 3 - space bytes of the storage. */
  function Scratch(d: seq<byte>, readp: nat, space: nat): (r: seq<byte>)
    requires readp + space <= |d| && space <= 3 && 3 - space <= |d|
    ensures |r| == 3
  {
    d[readp..readp + space] + d[..3 - space]
  }

  /** Under the intended guard the scratch holds the next three unread bytes. */
  lemma WrapScratchIsNextThreeBytes(d: seq<byte>, i: Cursors, o: Cursors)
    requires i.Valid() && o.Valid() && |d| == i.size
    requires WrapGuard(i, o, DirectSpace(i, o))
    ensures var space := DirectSpace(i, o);
      space == i.ContRead() && i.readp + space == |d| && 3 - space <= i.writep
      && Scratch(d, i.readp, space) == LogicalBytes(d, i.readp, 3)
  {
    var space := DirectSpace(i, o);
    forall k | 0 <= k < 3
      ensures Scratch(d, i.readp, space)[k] == LogicalBytes(d, i.readp, 3)[k]
    {
      WrapMod(i.readp + k, |d|);
    }
  }

  /** The counterexample to the guard as written: an output buffer with exactly two
      free bytes and three contiguous writable ones, and a stream buffer with six
      contiguous unread bytes, make `space` 2 without any wrap on the input side. The
      scratch then takes its third byte from the start of the storage (byte 1) instead
      of the third unread byte (byte 3), and the sample written is [2, 1], not [2, 3]. */
  lemma WrapGuardAsWrittenMisreads()
    ensures var i, o := Cursors(8, 0, 6), Cursors(8, 0, 5);
      var d: seq<byte> := [1, 2, 3, 4, 5, 6, 7, 8];
      DirectSpace(i, o) == 2 && WrapGuardAsWritten(i, o, 2) && !WrapGuard(i, o, 2)
      && Narrowed(Scratch(d, 0, 2)) == [2, 1]
      && Narrowed(LogicalBytes(d, 0, 3)) == [2, 3]
      && NarrowTransferAsWritten(d, i, o) == Transfer(3, [2, 1])
      && NarrowTransfer(d, i, o) == Transfer(0, [])
  {
    var d: seq<byte> := [1, 2, 3, 4, 5, 6, 7, 8];
    assert Scratch(d, 0, 2) == [1, 2, 1];
    assert Narrowed([1, 2, 1]) == [2, 1] + Narrowed([]);
    assert LogicalBytes(d, 0, 3) == [1, 2, 3];
  }

  /** What one iteration of the converter moves: `consumed` bytes leave the stream
      buffer and `produced` is written at the output buffer's write cursor. */
  datatype Transfer = Transfer(consumed: nat, produced: seq<byte>)

  /** 16-bit stereo (decode.c:90-94): the `space` contiguous bytes are copied verbatim. */
  function StereoTransfer(d: seq<byte>, i: Cursors, o: Cursors): (t: Transfer)
    requires i.Valid() && o.Valid() && |d| == i.size
    ensures t.consumed == |t.produced| == DirectSpace(i, o)
    ensures t.consumed <= i.Used() && o.writep + |t.produced| <= o.size
  {
    var space := DirectSpace(i, o);
    Transfer(space, d[i.readp..i.readp + space])
  }

  /** 16-bit mono (decode.c:102-115): space / 2 bytes are consumed, each produced twice. */
  function MonoTransfer(d: seq<byte>, i: Cursors, o: Cursors): (t: Transfer)
    requires i.Valid() && o.Valid() && |d| == i.size
    ensures t.consumed == DirectSpace(i, o) / 2 && |t.produced| == 2 * t.consumed
    ensures t.consumed <= i.Used() && |t.produced| <= o.Space() && o.writep + |t.produced| <= o.size
  {
    var count := DirectSpace(i, o) / 2;
    Transfer(count, Duplicated(d[i.readp..i.readp + count]))
  }

  /** 24-bit (decode.c:122-146): whole contiguous triples lose their first byte; at the
      stream buffer's wrap point one triple is taken through the scratch buffer. */
  function NarrowTransfer(d: seq<byte>, i: Cursors, o: Cursors): (t: Transfer)
    requires i.Valid() && o.Valid() && |d| == i.size
    ensures 3 * |t.produced| == 2 * t.consumed
    ensures t.consumed <= i.Used() && |t.produced| <= o.Space() && o.writep + |t.produced| <= o.size
    ensures t.consumed > DirectSpace(i, o) ==> WrapGuard(i, o, DirectSpace(i, o)) && t.consumed == 3
    ensures WrapGuard(i, o, DirectSpace(i, o)) ==> t.consumed == 3
    ensures !WrapGuard(i, o, DirectSpace(i, o)) ==> t.consumed == 3 * (DirectSpace(i, o) / 3)
  {
    var space := DirectSpace(i, o);
    if WrapGuard(i, o, space) then
      WrapScratchIsNextThreeBytes(d, i, o);
      Transfer(3, Narrowed(Scratch(d, i.readp, space)))
    else
      var count := space / 3;
      Transfer(3 * count, Narrowed(d[i.readp..i.readp + 3 * count]))
  }

  /** One iteration of the direct converter (decode.c:89-146) for a stream layout, on the
      stream buffer's storage `d` and the two buffers' cursors: it never consumes more
      than is unread, and what it produces fits both the output's free space and its
      contiguous run. */
  function Convert(layout: Layout, d: seq<byte>, i: Cursors, o: Cursors): (t: Transfer)
    requires i.Valid() && o.Valid() && |d| == i.size
    ensures t.consumed <= i.Used()
    ensures |t.produced| <= o.Space() && o.writep + |t.produced| <= o.size
  {
    match layout
    case Stereo16 => StereoTransfer(d, i, o)
    case Mono16 => MonoTransfer(d, i, o)
    case Narrow24 => NarrowTransfer(d, i, o)
    case Unsupported => Transfer(0, [])
  }

  /** 16-bit stereo copies exactly the next `space` unread bytes. */
  lemma StereoCopiesUnreadBytes(d: seq<byte>, i: Cursors, o: Cursors)
    requires i.Valid() && o.Valid() && |d| == i.size
    ensures var t := StereoTransfer(d, i, o);
      t.produced == LogicalBytes(d, i.readp, t.consumed)
  {
    ContiguousIsLogical(d, i.readp, DirectSpace(i, o));
  }

  /** 16-bit mono writes each of the next space / 2 unread bytes twice. */
  lemma MonoDuplicatesUnreadBytes(d: seq<byte>, i: Cursors, o: Cursors)
    requires i.Valid() && o.Valid() && |d| == i.size
    ensures var t := MonoTransfer(d, i, o);
      t.produced == Duplicated(LogicalBytes(d, i.readp, t.consumed))
  {
    ContiguousIsLogical(d, i.readp, DirectSpace(i, o) / 2);
  }

  /** 24-bit keeps the last two bytes of each of the next unread triples, including
      the triple that straddles the stream buffer's wrap point. */
  lemma NarrowKeepsHighBytes(d: seq<byte>, i: Cursors, o: Cursors)
    requires i.Valid() && o.Valid() && |d| == i.size
    ensures var t := NarrowTransfer(d, i, o);
      t.produced == Narrowed(LogicalBytes(d, i.readp, t.consumed))
  {
    var space := DirectSpace(i, o);
    if WrapGuard(i, o, space) {
      WrapScratchIsNextThreeBytes(d, i, o);
    } else {
      ContiguousIsLogical(d, i.readp, 3 * (space / 3));
    }
  }

  /** The converter consumes a prefix of the unread input and emits exactly the
      layout's transform of that prefix. */
  lemma ConvertConsumesPrefix(layout: Layout, d: seq<byte>, i: Cursors, o: Cursors)
    requires i.Valid() && o.Valid() && |d| == i.size
    ensures var t := Convert(layout, d, i, o);
      t.produced == Transform(layout, LogicalBytes(d, i.readp, t.consumed))
  {
    match layout
    case Stereo16 => StereoCopiesUnreadBytes(d, i, o);
    case Mono16 => MonoDuplicatesUnreadBytes(d, i, o);
    case Narrow24 => NarrowKeepsHighBytes(d, i, o);
    case Unsupported =>
  }

  /** A stream buffer whose unread bytes wrap with fewer than three of them before the
      wrap point: its contiguous run followed by the start of the storage holds the
      next three unread bytes. */
  lemma ScratchAtWrap(d: seq<byte>, i: Cursors)
    requires i.Valid() && |d| == i.size && i.ContRead() < 3 <= i.Used()
    ensures i.readp + i.ContRead() == |d| && 3 - i.ContRead() <= i.writep
    ensures Scratch(d, i.readp, i.ContRead()) == LogicalBytes(d, i.readp, 3)
  {
    forall k | 0 <= k < 3
      ensures Scratch(d, i.readp, i.ContRead())[k] == LogicalBytes(d, i.readp, 3)[k]
    {
      WrapMod(i.readp + k, |d|);
    }
  }

  /** The 24-bit branch with the guard decode.c:129 writes: the scratch path also runs
      when the output, not the stream buffer's wrap point, makes `space` short. */
  function NarrowTransferAsWritten(d: seq<byte>, i: Cursors, o: Cursors): (t: Transfer)
    requires i.Valid() && o.Valid() && |d| == i.size
    ensures 3 * |t.produced| == 2 * t.consumed
    ensures t.consumed <= i.Used() && |t.produced| <= o.Space() && o.writep + |t.produced| <= o.size
    ensures WrapGuardAsWritten(i, o, DirectSpace(i, o)) ==> t.consumed == 3
    ensures !WrapGuardAsWritten(i, o, DirectSpace(i, o)) ==> t.consumed == 3 * (DirectSpace(i, o) / 3)
  {
    var space := DirectSpace(i, o);
    if WrapGuardAsWritten(i, o, space) then
      Transfer(3, Narrowed(Scratch(d, i.readp, space)))
    else
      var count := space / 3;
      Transfer(3 * count, Narrowed(d[i.readp..i.readp + 3 * count]))
  }

  /** Whenever the guard as written fires, the two bytes it writes fit the output's free
      space and its contiguous run, and three bytes are unread: it misreads, but never
      overruns either buffer. */
  lemma AsWrittenGuardStaysInBounds(i: Cursors, o: Cursors)
    requires i.Valid() && o.Valid() && WrapGuardAsWritten(i, o, DirectSpace(i, o))
    ensures o.Space() >= 2 && o.writep + 2 <= o.size && i.Used() >= 3
  {
  }

  /** The branch as written and the corrected one differ exactly when the guard as
      written fires while three unread bytes are contiguous. */
  lemma {:induction false} AsWrittenDiffersOffTheWrap(d: seq<byte>, i: Cursors, o: Cursors)
    requires i.Valid() && o.Valid() && |d| == i.size
    ensures NarrowTransferAsWritten(d, i, o) != NarrowTransfer(d, i, o)
            <==> WrapGuardAsWritten(i, o, DirectSpace(i, o)) && i.ContRead() >= 3
  {
    var space := DirectSpace(i, o);
    if WrapGuardAsWritten(i, o, space) && i.ContRead() >= 3 {
      assert NarrowTransfer(d, i, o).consumed == 0;
    }
  }

  /** The mono branch takes space / 2 bytes, less than any non-empty contiguous run, so
      it never consumes up to the stream buffer's wrap point. */
  lemma MonoNeverReachesWrap(d: seq<byte>, i: Cursors, o: Cursors)
    requires i.Valid() && o.Valid() && |d| == i.size
    ensures i.ContRead() > 0 ==> MonoTransfer(d, i, o).consumed < i.ContRead()
    ensures i.readp + MonoTransfer(d, i, o).consumed < i.size
  {
  }

  /** A stream buffer with four unread bytes, one of them before the wrap point, and an
      empty output buffer: the mono branch moves nothing, so the read cursor stays one
      byte before the wrap point and the span stays one byte, whatever the other
      threads add to the input or free in the output, while the intended count takes
      the byte and wraps. */
  lemma MonoStalls(d: seq<byte>)
    requires |d| == 8
    ensures var i, o := Cursors(8, 7, 3), Cursors(8, 0, 0);
      i.Used() == 4 && o.Used() == 0
      && MonoTransfer(d, i, o) == Transfer(0, [])
      && MonoTransferIntended(d, i, o) == Transfer(1, [d[7], d[7]])
      && i.AdvanceRead(1).readp == 0
  {
    var i, o := Cursors(8, 7, 3), Cursors(8, 0, 0);
    assert d[7..8] == [d[7]];
    assert Duplicated([d[7]]) == [d[7], d[7]] + Duplicated([]);
  }

  /** The 24-bit branch writes two bytes per triple within `space`, fewer than the
      output's contiguous run, so the output's write cursor never reaches its wrap
      point through it; the same holds of the branch as written. */
  lemma NarrowNeverFillsOutputRun(d: seq<byte>, i: Cursors, o: Cursors)
    requires i.Valid() && o.Valid() && |d| == i.size
    ensures |NarrowTransfer(d, i, o).produced| < o.ContWrite()
    ensures |NarrowTransferAsWritten(d, i, o).produced| < o.ContWrite()
  {
  }

  /** An empty output buffer whose write cursor is two bytes from the end, and a
      stream buffer with six contiguous unread bytes: the 24-bit branch moves nothing,
      as written or corrected, so the output's write cursor stays two bytes from the end
      and the span stays two bytes, whatever the other threads add to the input or
      free in the output, while the intended count writes one sample and wraps the
      output. */
  lemma NarrowStalls(d: seq<byte>)
    requires |d| == 8
    ensures var i, o := Cursors(8, 0, 6), Cursors(8, 6, 6);
      i.Used() == 6 && o.Used() == 0
      && NarrowTransfer(d, i, o) == Transfer(0, [])
      && NarrowTransferAsWritten(d, i, o) == Transfer(0, [])
      && NarrowTransferIntended(d, i, o) == Transfer(3, [d[1], d[2]])
      && o.AdvanceWrite(2).writep == 0
  {
    var i, o := Cursors(8, 0, 6), Cursors(8, 6, 6);
    assert d[0..3] == [d[0], d[1], d[2]];
    assert Narrowed([d[0], d[1], d[2]]) == [d[1], d[2]] + Narrowed([]);
  }

  /** The room one iteration may write: the output's contiguous run and free space. */
  function Room(o: Cursors): (r: nat)
    requires o.Valid()
    ensures r <= o.ContWrite() && r <= o.Space()
    ensures r == o.ContWrite() || r == o.Space()
  {
    Min(o.ContWrite(), o.Space())
  }

  /** 16-bit mono with the count its comment intends: the whole contiguous input run
      when the output has room for it doubled, so a later iteration starts again at the
      beginning of the stream buffer. */
  function MonoTransferIntended(d: seq<byte>, i: Cursors, o: Cursors): (t: Transfer)
    requires i.Valid() && o.Valid() && |d| == i.size
    ensures t.consumed <= i.ContRead() && |t.produced| == 2 * t.consumed <= Room(o)
  {
    var count := Min(i.ContRead(), Room(o) / 2);
    Transfer(count, Duplicated(d[i.readp..i.readp + count]))
  }

  /** The intended mono count doubles the next unread bytes, moves whenever a byte and
      room for two are there, and takes the whole contiguous run when the room allows. */
  lemma MonoIntendedReachesWrap(d: seq<byte>, i: Cursors, o: Cursors)
    requires i.Valid() && o.Valid() && |d| == i.size
    ensures var t := MonoTransferIntended(d, i, o);
      && t.produced == Duplicated(LogicalBytes(d, i.readp, t.consumed))
      && (i.ContRead() > 0 && Room(o) >= 2 ==> t.consumed > 0)
      && (2 * i.ContRead() <= Room(o) ==> t.consumed == i.ContRead())
  {
    ContiguousIsLogical(d, i.readp, MonoTransferIntended(d, i, o).consumed);
  }

  /** 24-bit with the count its comment intends: as many triples as are contiguous and
      fit the output's room, so an even room fills up to the output's wrap point; a
      triple cut by the stream buffer's wrap point goes through the scratch buffer. A
      sample is never split across the output's wrap point, so a room of one byte
      still stalls (NarrowIntendedStallsOnOddRun). */
  function NarrowTransferIntended(d: seq<byte>, i: Cursors, o: Cursors): (t: Transfer)
    requires i.Valid() && o.Valid() && |d| == i.size
    ensures 3 * |t.produced| == 2 * t.consumed
    ensures t.consumed <= i.Used() && |t.produced| <= Room(o)
  {
    if i.ContRead() < 3 <= i.Used() && Room(o) >= 2 then
      Transfer(3, Narrowed(Scratch(d, i.readp, i.ContRead())))
    else
      var count := Min(i.ContRead() / 3, Room(o) / 2);
      Transfer(3 * count, Narrowed(d[i.readp..i.readp + 3 * count]))
  }

  /** The intended 24-bit count narrows the next unread triples. */
  lemma NarrowIntendedKeepsHighBytes(d: seq<byte>, i: Cursors, o: Cursors)
    requires i.Valid() && o.Valid() && |d| == i.size
    ensures var t := NarrowTransferIntended(d, i, o);
      t.produced == Narrowed(LogicalBytes(d, i.readp, t.consumed))
  {
    if i.ContRead() < 3 <= i.Used() && Room(o) >= 2 {
      ScratchAtWrap(d, i);
    } else {
      ContiguousIsLogical(d, i.readp, NarrowTransferIntended(d, i, o).consumed);
    }
  }

  /** The intended 24-bit count moves whenever a triple and room for a sample are
      there, writes every whole sample of the room when the contiguous input allows,
      and so fills an even room. */
  lemma NarrowIntendedReachesWrap(d: seq<byte>, i: Cursors, o: Cursors)
    requires i.Valid() && o.Valid() && |d| == i.size
    ensures var t := NarrowTransferIntended(d, i, o);
      && (i.Used() >= 3 && Room(o) >= 2 ==> t.consumed > 0)
      && (3 * (Room(o) / 2) <= i.ContRead() ==> |t.produced| == 2 * (Room(o) / 2))
      && (Room(o) % 2 == 0 && 3 * (Room(o) / 2) <= i.ContRead() ==> |t.produced| == Room(o))
  {
  }

  /** Even the intended 24-bit count stalls at an odd output offset. With three
      unread bytes and the output's write cursor one byte before its wrap point, the
      room is one byte: no count moves anything, and the room stays one byte, since
      only this thread moves the output's write cursor. An empty output whose write cursor sits at 5 reaches that offset
      after one sample. */
  lemma NarrowIntendedStallsOnOddRun(d: seq<byte>)
    requires |d| == 8
    ensures var i, o := Cursors(8, 3, 6), Cursors(8, 7, 7);
      && i.Valid() && o.Valid() && Room(o) == 1
      && NarrowTransferIntended(d, i, o) == Transfer(0, [])
      && NarrowTransfer(d, i, o) == Transfer(0, [])
      && NarrowTransferAsWritten(d, i, o) == Transfer(0, [])
      && MonoTransferIntended(d, i, o) == Transfer(0, [])
    ensures var i, o := Cursors(8, 0, 6), Cursors(8, 5, 5);
      && i.Valid() && o.Valid() && Room(o) == 3
      && NarrowTransferIntended(d, i, o) == Transfer(3, [d[1], d[2]])
      && o.AdvanceWrite(2).writep == 7
  {
    assert d[0..0] == [];
    assert Narrowed([]) == [];
    assert d[0..3] == [d[0], d[1], d[2]];
    assert Narrowed([d[0], d[1], d[2]]) == [d[1], d[2]] + Narrowed([]);
  }

  /** The effect of a transfer on the two buffers: both cursors advance by what was
      consumed and produced, the produced bytes sit at the old write cursor, and no
      other output byte changes. */
  ghost predicate Moved(t: Transfer, i: Cursors, o: Cursors, out: seq<byte>,
                        i': Cursors, o': Cursors, out': seq<byte>)
    requires i.Valid() && o.Valid() && |out| == o.size
    requires t.consumed <= i.Used() && |t.produced| <= o.Space() && o.writep + |t.produced| <= o.size
  {
    i' == i.AdvanceRead(t.consumed) && o' == o.AdvanceWrite(|t.produced|)
    && out' == out[..o.writep] + t.produced + out[o.writep + |t.produced|..]
  }

  /** One iteration read as byte streams: the stream buffer's unread bytes lose the
      consumed prefix, and the output buffer's unread bytes gain that prefix converted. */
  lemma MovedAsStreams(layout: Layout, d: seq<byte>, i: Cursors, o: Cursors, out: seq<byte>,
                       i': Cursors, o': Cursors, out': seq<byte>)
    requires i.Valid() && o.Valid() && |d| == i.size && |out| == o.size
    requires Moved(Convert(layout, d, i, o), i, o, out, i', o', out')
    ensures var t := Convert(layout, d, i, o);
      var unread := LogicalBytes(d, i.readp, i.Used());
      LogicalBytes(d, i'.readp, i'.Used()) == unread[t.consumed..]
      && LogicalBytes(out', o'.readp, o'.Used())
         == LogicalBytes(out, o.readp, o.Used()) + Transform(layout, unread[..t.consumed])
  {
    var t := Convert(layout, d, i, o);
    AdvanceReadDropsPrefix(d, i, t.consumed);
    AdvanceWriteAppends(out, o, t.produced);
    ConvertConsumesPrefix(layout, d, i, o);
    assert LogicalBytes(d, i.readp, t.consumed) == LogicalBytes(d, i.readp, i.Used())[..t.consumed];
  }

  /** An array snapshot that holds `written` at `w` and `before` elsewhere is the splice. */
  lemma Spliced(after: seq<byte>, before: seq<byte>, w: nat, written: seq<byte>)
    requires |after| == |before| && w + |written| <= |before|
    requires forall j :: 0 <= j < |written| ==> after[w + j] == written[j]
    requires forall j :: 0 <= j < |after| && !(w <= j < w + |written|) ==> after[j] == before[j]
    ensures after == before[..w] + written + before[w + |written|..]
  {
    var rhs := before[..w] + written + before[w + |written|..];
    forall j | 0 <= j < |after|
      ensures after[j] == rhs[j]
    {
      if w <= j < w + |written| {
        assert after[w + (j - w)] == written[j - w];
      }
    }
  }

  /** 16-bit stereo (decode.c:90-94): copy `space` bytes verbatim. */
  method CopyStereo(inb: RingBuffer, outb: RingBuffer, space: nat)
    requires inb.Valid() && outb.Valid() && inb != outb && inb.data != outb.data
    requires space == DirectSpace(inb.Pos(), outb.Pos())
    modifies outb.data, inb`readp, outb`writep
    ensures inb.Valid() && outb.Valid()
    ensures Moved(StereoTransfer(old(inb.data[..]), old(inb.Pos()), old(outb.Pos())),
                  old(inb.Pos()), old(outb.Pos()), old(outb.data[..]), inb.Pos(), outb.Pos(), outb.data[..])
  {
    ghost var t := StereoTransfer(inb.data[..], inb.Pos(), outb.Pos());
    var src, dst := inb.readp, outb.writep;
    assert t == Transfer(space, inb.data[src..src + space]);
    forall k | 0 <= k < space {
      outb.data[dst + k] := inb.data[src + k];
    }
    Spliced(outb.data[..], old(outb.data[..]), dst, t.produced);
    inb.IncReadp(space);
    outb.IncWritep(space);
  }

  /** The loop of decode.c:107-111: `count` bytes from `src` at `sp`, each written
      twice to `dst` from `dp` on. */
  method DuplicateRun(src: array<byte>, sp: nat, dst: array<byte>, dp: nat, count: nat)
    requires src != dst && sp + count <= src.Length && dp + 2 * count <= dst.Length
    modifies dst
    ensures dst[..] == old(dst[..])[..dp] + Duplicated(old(src[sp..sp + count])) + old(dst[..])[dp + 2 * count..]
  {
    ghost var s := src[sp..sp + count];
    ghost var written := Duplicated(s);
    var i, sq, dq := count, sp, dp;
    while i > 0
      invariant 0 <= i <= count
      invariant sq == sp + (count - i) && dq == dp + 2 * (count - i)
      invariant forall j :: 0 <= j < 2 * (count - i) ==> dst[dp + j] == written[j]
      invariant forall j :: 0 <= j < dst.Length && !(dp <= j < dq) ==> dst[j] == old(dst[j])
    {
      ghost var k := count - i;
      DuplicatedAt(s, k);
      dst[dq] := src[sq];
      dq := dq + 1;
      dst[dq] := src[sq];
      dq, sq := dq + 1, sq + 1;
      assert dst[dp + 2 * k] == written[2 * k] && dst[dp + 2 * k + 1] == written[2 * k + 1];
      i := i - 1;
    }
    Spliced(dst[..], old(dst[..]), dp, written);
  }

  /** The loop of decode.c:137-142: `count` triples from `src` at `sp`, each written
      to `dst` from `dp` on without its first byte. */
  method NarrowRun(src: array<byte>, sp: nat, dst: array<byte>, dp: nat, count: nat)
    requires src != dst && sp + 3 * count <= src.Length && dp + 2 * count <= dst.Length
    modifies dst
    ensures dst[..] == old(dst[..])[..dp] + Narrowed(old(src[sp..sp + 3 * count])) + old(dst[..])[dp + 2 * count..]
  {
    ghost var s := src[sp..sp + 3 * count];
    ghost var written := Narrowed(s);
    var i, sq, dq := count, sp, dp;
    while i > 0
      invariant 0 <= i <= count
      invariant sq == sp + 3 * (count - i) && dq == dp + 2 * (count - i)
      invariant forall j :: 0 <= j < 2 * (count - i) ==> dst[dp + j] == written[j]
      invariant forall j :: 0 <= j < dst.Length && !(dp <= j < dq) ==> dst[j] == old(dst[j])
    {
      ghost var k := count - i;
      NarrowedAt(s, k);
      sq := sq + 1;
      dst[dq] := src[sq];
      dq, sq := dq + 1, sq + 1;
      dst[dq] := src[sq];
      dq, sq := dq + 1, sq + 1;
      assert dst[dp + 2 * k] == written[2 * k] && dst[dp + 2 * k + 1] == written[2 * k + 1];
      i := i - 1;
    }
    Spliced(dst[..], old(dst[..]), dp, written);
  }

  /** 16-bit mono (decode.c:102-115): each of space / 2 source bytes is written twice. */
  method DuplicateMono(inb: RingBuffer, outb: RingBuffer, space: nat)
    requires inb.Valid() && outb.Valid() && inb != outb && inb.data != outb.data
    requires space == DirectSpace(inb.Pos(), outb.Pos())
    modifies outb.data, inb`readp, outb`writep
    ensures inb.Valid() && outb.Valid()
    ensures Moved(MonoTransfer(old(inb.data[..]), old(inb.Pos()), old(outb.Pos())),
                  old(inb.Pos()), old(outb.Pos()), old(outb.data[..]), inb.Pos(), outb.Pos(), outb.data[..])
  {
    ghost var t := MonoTransfer(inb.data[..], inb.Pos(), outb.Pos());
    var count := space / 2;
    assert t == Transfer(count, Duplicated(inb.data[inb.readp..inb.readp + count]));
    DuplicateRun(inb.data, inb.readp, outb.data, outb.writep, count);
    inb.IncReadp(count);
    outb.IncWritep(count * 2);
  }

  /** The two copies of decode.c:130-131 into the 3-byte scratch buffer. */
  method FillScratch(data: array<byte>, readp: nat, space: nat) returns (buf: array<byte>)
    requires readp + space <= data.Length && space <= 3 && 3 - space <= data.Length
    ensures fresh(buf) && buf[..] == Scratch(data[..], readp, space)
  {
    buf := new byte[3];
    forall k | 0 <= k < space {
      buf[k] := data[readp + k];
    }
    forall k | space <= k < 3 {
      buf[k] := data[k - space];
    }
  }

  /** The source decode.c:122-135 picks for the 24-bit loop: space / 3 triples read in
      place, or, when no whole triple is contiguous because of the stream buffer's wrap
      point, one triple staged through a 3-byte scratch buffer. */
  method NarrowSource(inb: RingBuffer, outb: RingBuffer, space: nat)
    returns (src: array<byte>, sp: nat, count: nat)
    requires inb.Valid() && outb.Valid() && inb.data != outb.data
    requires space == DirectSpace(inb.Pos(), outb.Pos())
    ensures src != outb.data && sp + 3 * count <= src.Length
    ensures outb.writep + 2 * count <= outb.data.Length
    ensures var t := NarrowTransfer(inb.data[..], inb.Pos(), outb.Pos());
      t.consumed == 3 * count && t.produced == Narrowed(src[sp..sp + 3 * count])
  {
    ghost var t := NarrowTransfer(inb.data[..], inb.Pos(), outb.Pos());
    count := space / 3;
    if count == 0 && space > 0 && inb.Pos().Used() >= 3 && outb.Pos().ContWrite() > 2
       && inb.Pos().ContRead() < 3 {
      WrapScratchIsNextThreeBytes(inb.data[..], inb.Pos(), outb.Pos());
      var buf := FillScratch(inb.data, inb.readp, space);
      src, sp := buf, 0;
      count := 1;
    } else {
      src, sp := inb.data, inb.readp;
    }
  }

  /** 24-bit (decode.c:122-146): the first byte of each triple from NarrowSource is
      dropped on the way to the output buffer. */
  method NarrowTo16(inb: RingBuffer, outb: RingBuffer, space: nat)
    requires inb.Valid() && outb.Valid() && inb != outb && inb.data != outb.data
    requires space == DirectSpace(inb.Pos(), outb.Pos())
    modifies outb.data, inb`readp, outb`writep
    ensures inb.Valid() && outb.Valid()
    ensures Moved(NarrowTransfer(old(inb.data[..]), old(inb.Pos()), old(outb.Pos())),
                  old(inb.Pos()), old(outb.Pos()), old(outb.data[..]), inb.Pos(), outb.Pos(), outb.data[..])
  {
    var src, sp, count := NarrowSource(inb, outb, space);
    NarrowRun(src, sp, outb.data, outb.writep, count);
    inb.IncReadp(count * 3);
    outb.IncWritep(count * 2);
  }

  /** The layout branches of decode.c:89-146, run on the bytes `space` allows: at most
      one of the three applies, and a geometry none of them handles moves nothing. */
  method ConvertDirect(inb: RingBuffer, outb: RingBuffer, sampleSize: nat, channels: nat, space: nat)
    requires inb.Valid() && outb.Valid() && inb != outb && inb.data != outb.data
    requires space == DirectSpace(inb.Pos(), outb.Pos())
    modifies outb.data, inb`readp, outb`writep
    ensures inb.Valid() && outb.Valid()
    ensures Moved(Convert(LayoutOf(sampleSize, channels), old(inb.data[..]), old(inb.Pos()), old(outb.Pos())),
                  old(inb.Pos()), old(outb.Pos()), old(outb.data[..]), inb.Pos(), outb.Pos(), outb.data[..])
  {
    if sampleSize == 16 && channels == 2 {
      CopyStereo(inb, outb, space);
    }
    if sampleSize == 16 && channels == 1 {
      DuplicateMono(inb, outb, space);
    }
    if sampleSize == 24 {
      NarrowTo16(inb, outb, space);
    }
    if LayoutOf(sampleSize, channels) == Unsupported {
      var w := outb.writep;
      assert outb.data[..] == outb.data[..w] + [] + outb.data[w + 0..];
    }
  }
}
