/** The decode context of decode.c and one iteration of each build's decode loop:
    the pass-through (NO_CODEC) iteration that converts raw PCM directly, the codec
    iteration that admits a call to the active codec's decode(), and the control
    operations codec_open, decode_flush and decode_close. Calls into the codec
    back-end (open, close, decode) and the foreign side effects _checkfade and
    wake_controller are recorded as events of a ghost trace; what decode() returns is
    a parameter. */
module DecodeThread {
  import opened RingBuffers
  import opened Converter
  import opened Codecs

  /** The admission gate of decode.c:204: more free output than the codec's minimum,
      and more input than its minimum read or the input has ended. */
  predicate Admits(c: Codec, bytes: nat, space: nat, toend: bool)
  {
    space > c.minSpace && (bytes > c.minReadBytes || toend)
  }

  /** decode.state. */
  datatype DecodeState = Stopped | Ready | Running | Complete | Error

  /** What the decode context asks of the world outside the model. */
  datatype Event =
    | Opened(codec: Codec, sampleSize: nat, sampleRate: nat, channels: nat, endianness: nat)
    | Closed(codec: Codec)
    | Decoded(codec: Codec)
    | CheckFade(start: bool)
    | WokeController

  predicate IsLifecycle(e: Event)
  {
    e.Opened? || e.Closed?
  }

  /** The codec a trace leaves open: the one its last open or close left behind. */
  function ActiveOf(trace: seq<Event>): Option<Codec>
  {
    if trace == [] then None
    else
      var e := trace[|trace| - 1];
      if e.Opened? then Some(e.codec)
      else if e.Closed? then None
      else ActiveOf(trace[..|trace| - 1])
  }

  predicate OpenedAt(trace: seq<Event>, n: nat, c: Codec)
  {
    n < |trace| && trace[n].Opened? && trace[n].codec == c
  }

  /** No codec is opened or closed after position n. */
  predicate SettledAfter(trace: seq<Event>, n: nat)
  {
    forall m :: n < m < |trace| ==> !IsLifecycle(trace[m])
  }

  /** The codec is open exactly when the trace holds an open of it with no open or
      close after it. */
  lemma {:induction false} ActiveIsLastOpened(trace: seq<Event>, c: Codec)
    ensures ActiveOf(trace) == Some(c) <==> exists n: nat :: OpenedAt(trace, n, c) && SettledAfter(trace, n)
  {
    if trace != [] {
      var last := |trace| - 1;
      var front := trace[..last];
      var e := trace[last];
      if IsLifecycle(e) {
        if e.Opened? && e.codec == c {
          assert OpenedAt(trace, last, c) && SettledAfter(trace, last);
        } else {
          forall n: nat | OpenedAt(trace, n, c)
            ensures !SettledAfter(trace, n)
          {
            assert n < last && IsLifecycle(trace[last]);
          }
        }
      } else {
        ActiveIsLastOpened(front, c);
        if ActiveOf(trace) == Some(c) {
          var n: nat :| OpenedAt(front, n, c) && SettledAfter(front, n);
          assert trace[n] == front[n];
          forall m | n < m < |trace|
            ensures !IsLifecycle(trace[m])
          {
            if m < last {
              assert trace[m] == front[m];
            }
          }
          assert OpenedAt(trace, n, c) && SettledAfter(trace, n);
        }
        if exists n: nat :: OpenedAt(trace, n, c) && SettledAfter(trace, n) {
          var n: nat :| OpenedAt(trace, n, c) && SettledAfter(trace, n);
          assert front[n] == trace[n];
          forall m | n < m < |front|
            ensures !IsLifecycle(front[m])
          {
            assert front[m] == trace[m];
          }
          assert OpenedAt(front, n, c) && SettledAfter(front, n);
        }
      }
    }
  }

  /** The codec protocol an event keeps, given the events before it: decode() and
      close() go only to the open codec, and open() never replaces a different codec
      that is still open. */
  predicate Respects(before: seq<Event>, e: Event)
  {
    match e
    case Opened(c, _, _, _, _) => ActiveOf(before) == None || ActiveOf(before) == Some(c)
    case Closed(c) => ActiveOf(before) == Some(c)
    case Decoded(c) => ActiveOf(before) == Some(c)
    case _ => true
  }

  predicate Disciplined(trace: seq<Event>)
  {
    forall n :: 0 <= n < |trace| ==> Respects(trace[..n], trace[n])
  }

  lemma {:induction false} DisciplinedSnoc(trace: seq<Event>, e: Event)
    requires Disciplined(trace) && Respects(trace, e)
    ensures Disciplined(trace + [e])
  {
    var t := trace + [e];
    forall n | 0 <= n < |t|
      ensures Respects(t[..n], t[n])
    {
      if n < |trace| {
        assert t[..n] == trace[..n];
      } else {
        assert t[..n] == trace;
      }
    }
  }

  /** Between two events that leave no codec open, there is only ever an open. */
  lemma {:induction false} NothingOpenWithoutOpen(trace: seq<Event>, n: nat, m: nat)
    requires n <= m <= |trace| && ActiveOf(trace[..n]) == None
    requires forall j :: n <= j < m ==> !trace[j].Opened?
    ensures ActiveOf(trace[..m]) == None
  {
    if m > n {
      NothingOpenWithoutOpen(trace, n, m - 1);
      assert trace[..m][..m - 1] == trace[..m - 1];
    }
  }

  /** Close once: in a disciplined trace a codec is closed again only after a new open. */
  lemma NoCloseTwice(trace: seq<Event>, n: nat, m: nat)
    requires Disciplined(trace) && n < m < |trace|
    requires trace[n].Closed? && trace[m].Closed?
    ensures exists j :: n < j < m && trace[j].Opened?
  {
    if forall j :: n < j < m ==> !trace[j].Opened? {
      assert Respects(trace[..m], trace[m]);
      assert trace[..n + 1][..n] == trace[..n];
      NothingOpenWithoutOpen(trace, n + 1, m);
      assert false;
    }
  }

  /** The decode side of a player's thread context (ctx->decode, ctx->codec and the
      output fields the decode loop touches). */
  class DecodeContext {
    var running: bool
    var state: DecodeState
    var newStream: bool
    var sampleRate: nat
    var sampleSize: nat
    var channels: nat
    var endianness: nat
    var codec: Option<Codec>
    /** output.track_start, as an index into the output buffer. */
    var trackStart: nat
    /** output.fade_mode != FADE_NONE. */
    var fadeMode: bool
    ghost var trace: seq<Event>

    /** The context's codec is the one the trace leaves open, and the trace keeps the
        codec protocol. */
    ghost predicate Valid()
      reads this
    {
      codec == ActiveOf(trace) && Disciplined(trace)
    }

    /** decode_thread_init (decode.c:277-283) on a fresh context. */
    constructor (fadeMode: bool)
      ensures Valid() && trace == []
      ensures running && newStream && state == Stopped && codec == None
      ensures this.fadeMode == fadeMode
    {
      running := true;
      newStream := true;
      state := Stopped;
      codec := None;
      sampleRate, sampleSize, channels, endianness := 0, 0, 0, 0;
      trackStart := 0;
      this.fadeMode := fadeMode;
      trace := [];
    }

    /** The events of a step that ends a stream: the fade-out check when fading is on,
        then the controller wake-up. */
    function Finish(): seq<Event>
      reads this
    {
      (if fadeMode then [CheckFade(false)] else []) + [WokeController]
    }

    /** One iteration of the pass-through decode loop (decode.c:53-173), with the
        stream's end-of-input flag `toend` (stream.state <= DISCONNECT). Only a running
        decode does anything: it starts a new track at the output write cursor, moves
        what the buffers allow through the converter, and once the input has ended
        completes when the stream buffer was empty at the start of the iteration. */
    method DirectStep(inb: RingBuffer, outb: RingBuffer, toend: bool) returns (ran: bool)
      requires Valid() && inb.Valid() && outb.Valid() && inb != outb && inb.data != outb.data
      modifies this`state, this`newStream, this`trackStart, this`trace
      modifies outb.data, inb`readp, outb`writep
      ensures Valid() && inb.Valid() && outb.Valid()
      ensures ran <==> old(state) == Running && toend
      ensures old(state) != Running ==>
                state == old(state) && newStream == old(newStream) && trackStart == old(trackStart)
                && trace == old(trace)
      ensures old(state) != Running ==>
                inb.Pos() == old(inb.Pos()) && outb.Pos() == old(outb.Pos())
                && outb.data[..] == old(outb.data[..])
      ensures old(state) == Running ==>
                !newStream && trackStart == (if old(newStream) then old(outb.writep) else old(trackStart))
      ensures old(state) == Running ==>
                Moved(Convert(LayoutOf(sampleSize, channels), old(inb.data[..]), old(inb.Pos()), old(outb.Pos())),
                      old(inb.Pos()), old(outb.Pos()), old(outb.data[..]), inb.Pos(), outb.Pos(), outb.data[..])
      ensures old(state) == Running ==>
                state == (if toend && old(inb.Pos().Used()) == 0 then Complete else Running)
      ensures old(state) == Running ==>
                trace == old(trace)
                         + (if old(newStream) && fadeMode then [CheckFade(true)] else [])
                         + (if toend && old(inb.Pos().Used()) == 0 then Finish() else [])
    {
      ran := false;
      if state == Running {
        ran := RunDirect(inb, outb, toend);
      }
    }

    /** A running iteration of the pass-through loop (decode.c:78-164). */
    method RunDirect(inb: RingBuffer, outb: RingBuffer, toend: bool) returns (ran: bool)
      requires Valid() && state == Running
      requires inb.Valid() && outb.Valid() && inb != outb && inb.data != outb.data
      modifies this`state, this`newStream, this`trackStart, this`trace
      modifies outb.data, inb`readp, outb`writep
      ensures Valid() && inb.Valid() && outb.Valid()
      ensures ran == toend
      ensures !newStream && trackStart == (if old(newStream) then old(outb.writep) else old(trackStart))
      ensures Moved(Convert(LayoutOf(sampleSize, channels), old(inb.data[..]), old(inb.Pos()), old(outb.Pos())),
                    old(inb.Pos()), old(outb.Pos()), old(outb.data[..]), inb.Pos(), outb.Pos(), outb.data[..])
      ensures state == (if toend && old(inb.Pos().Used()) == 0 then Complete else Running)
      ensures trace == old(trace)
                       + (if old(newStream) && fadeMode then [CheckFade(true)] else [])
                       + (if toend && old(inb.Pos().Used()) == 0 then Finish() else [])
    {
      var bytes := inb.Pos().Used();
      var space := DirectSpace(inb.Pos(), outb.Pos());
      // The context updates touch no buffer and the conversion touches no context
      // field, so the conversion, which decode.c runs between them, runs last here.
      BeginTrack(outb.writep);
      ran := false;
      if toend {
        EndOfInput(bytes);
        ran := true;
      }
      assert inb.data[..] == old(inb.data[..]) && outb.data[..] == old(outb.data[..]);
      ConvertDirect(inb, outb, sampleSize, channels, space);
    }

    /** The end-of-input handling of the pass-through loop (decode.c:150-164): an
        empty stream buffer completes the decode, which then ends the stream. */
    method EndOfInput(bytes: nat)
      requires Valid() && state == Running
      modifies this`state, this`trace
      ensures Valid()
      ensures state == (if bytes == 0 then Complete else Running)
      ensures trace == old(trace) + (if bytes == 0 then Finish() else [])
    {
      if bytes == 0 {
        state := Complete;
      }
      WakeIfEnded();
    }

    /** The start of a new stream's first running iteration (decode.c:78-86): the
        track starts at the output write cursor, and the fade-in check runs when
        fading is on. */
    method BeginTrack(writep: nat)
      requires Valid()
      modifies this`newStream, this`trackStart, this`trace
      ensures Valid() && !newStream
      ensures trackStart == (if old(newStream) then writep else old(trackStart))
      ensures trace == old(trace) + (if old(newStream) && fadeMode then [CheckFade(true)] else [])
    {
      if newStream {
        trackStart := writep;
        if fadeMode {
          Appended(trace, CheckFade(true));
          trace := trace + [CheckFade(true)];
        }
        newStream := false;
      }
    }

    /** The end of a stream, shared by both builds (decode.c:154-161 and 218-227): once
        the state is no longer Running, the fade-out check runs when fading is on and the
        controller is woken. */
    method WakeIfEnded()
      requires Valid()
      modifies this`trace
      ensures Valid()
      ensures trace == old(trace) + (if state != Running then Finish() else [])
    {
      if state != Running {
        if fadeMode {
          Appended(trace, CheckFade(false));
          trace := trace + [CheckFade(false)];
        }
        Appended(trace, WokeController);
        trace := trace + [WokeController];
      }
    }

    /** One iteration of the codec decode loop (decode.c:175-241), given the buffers'
        cursors at the start of the iteration and what the codec's decode() returns.
        decode() runs only for a running decode with a codec, more output space than
        the codec's minimum and more input than its minimum read (or the input has
        ended); its result becomes the state, and a result other than Running ends the
        stream. */
    method CodecStep(inPos: Cursors, outPos: Cursors, toend: bool, outcome: DecodeState) returns (ran: bool)
      requires Valid() && inPos.Valid() && outPos.Valid()
      modifies this`state, this`trace
      ensures Valid()
      ensures ran <==> old(state) == Running && codec.Some?
                       && Admits(codec.value, inPos.Used(), outPos.Space(), toend)
      ensures state == (if ran then outcome else old(state))
      ensures trace == old(trace)
                       + (if ran then [Decoded(codec.value)] else [])
                       + (if ran && outcome != Running then Finish() else [])
    {
      var bytes := inPos.Used();
      var space := outPos.Space();
      ran := false;
      if state == Running && codec.Some? {
        var minSpace := codec.value.minSpace;
        if space > minSpace && (bytes > codec.value.minReadBytes || toend) {
          Appended(trace, Decoded(codec.value));
          trace := trace + [Decoded(codec.value)];
          state := outcome;
          WakeIfEnded();
          ran := true;
        }
      }
    }

    /** codec_open (decode.c:348-395): always resets the stream (new stream, stopped)
        and stores its geometry; in a codec build it then activates the first table
        entry whose id is `format`, closing the open codec first when it is a different
        one, and leaves the open codec alone when no entry matches. */
    method CodecOpen(format: char, sampleSize: nat, sampleRate: nat, channels: nat, endianness: nat,
                     noCodec: bool, table: CodecTable)
      requires Valid()
      modifies this`newStream, this`state, this`sampleRate, this`sampleSize, this`channels,
               this`endianness, this`codec, this`trace
      ensures Valid()
      ensures newStream && state == Stopped
      ensures this.sampleSize == sampleSize && this.sampleRate == sampleRate
      ensures this.channels == channels && this.endianness == endianness
      ensures var found := if noCodec then None else FirstMatch(table.codecs[..], format, 0);
              if found.None? then codec == old(codec) && trace == old(trace)
              else
                var c := table.codecs[found.value].value;
                codec == Some(c)
                && trace == old(trace)
                            + (if old(codec).Some? && old(codec) != Some(c) then [Closed(old(codec).value)] else [])
                            + [Opened(c, sampleSize, sampleRate, channels, endianness)]
    {
      newStream := true;
      state := Stopped;
      this.sampleRate := sampleRate;
      this.sampleSize := sampleSize;
      this.channels := channels;
      this.endianness := endianness;
      if noCodec {
        return;
      }
      ghost var entries := table.codecs[..];
      for i := 0 to table.codecs.Length
        invariant FirstMatch(entries, format, 0) == FirstMatch(entries, format, i)
        invariant codec == old(codec) && trace == old(trace)
      {
        var entry := table.codecs[i];
        if entry.Some? && entry.value.id == format {
          var c := entry.value;
          if codec.Some? && codec != Some(c) {
            DisciplinedSnoc(trace, Closed(codec.value));
            trace := trace + [Closed(codec.value)];
          }
          codec := Some(c);
          DisciplinedSnoc(trace, Opened(c, sampleSize, sampleRate, channels, endianness));
          trace := trace + [Opened(c, sampleSize, sampleRate, channels, endianness)];
          return;
        }
      }
    }

    /** decode_flush (decode.c:320-329): stop decoding; the open codec stays open. */
    method Flush()
      requires Valid()
      modifies this`state
      ensures Valid() && state == Stopped
    {
      state := Stopped;
    }

    /** decode_close (decode.c:303-317): close the open codec, if any, and stop the loop. */
    method Close()
      requires Valid()
      modifies this`codec, this`running, this`trace
      ensures Valid() && codec == None && !running
      ensures trace == old(trace) + (if old(codec).Some? then [Closed(old(codec).value)] else [])
    {
      if codec.Some? {
        DisciplinedSnoc(trace, Closed(codec.value));
        trace := trace + [Closed(codec.value)];
        codec := None;
      }
      running := false;
    }
  }

  /** An event that neither opens nor closes a codec, and decodes only with the open
      one, keeps the protocol and leaves the open codec as it was. */
  lemma Appended(trace: seq<Event>, e: Event)
    requires Disciplined(trace) && !IsLifecycle(e) && Respects(trace, e)
    ensures Disciplined(trace + [e]) && ActiveOf(trace + [e]) == ActiveOf(trace)
  {
    DisciplinedSnoc(trace, e);
    assert (trace + [e])[..|trace|] == trace;
  }
}
