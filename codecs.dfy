/** The codec registry of decode.c: decode_init fills the global table `codecs[]`
    once at start-up from the families compiled in, filtered by an include list and an
    exclude list of short names matched as substrings; codec_open then resolves a
    one-character format to the first table entry with that id. The codec back-ends
    themselves (register_*, open, decode, close) are not part of this model: a
    registration is the value its register_* function returned, or nothing. */
module Codecs {

  datatype Option<T> = None | Some(value: T)

  datatype Family = Dsd | Alac | Wma | Aac | Vorbis | Flac | Pcm | Mad | Mpg

  /** A registered codec: its family, the format id it answers to and its admission
      thresholds (codec->min_read_bytes, codec->min_space). */
  datatype Codec = Codec(family: Family, id: char, minReadBytes: nat, minSpace: nat)

  /** The compile-time switches that decide which families exist: DSD, FFMPEG, NO_CODEC. */
  datatype Build = Build(dsd: bool, ffmpeg: bool, noCodec: bool)

  predicate OccursAt(hay: string, needle: string, k: nat)
  {
    k + |needle| <= |hay| && hay[k..k + |needle|] == needle
  }

  /** strstr(hay, needle) != NULL: `needle` starts at some position of `hay`. */
  predicate Contains(hay: string, needle: string)
  {
    exists k :: 0 <= k <= |hay| - |needle| && OccursAt(hay, needle, k)
  }

  /** The filter of decode.c:256-266: not excluded, and included when there is an include list. */
  predicate Allowed(includes: Option<string>, excludes: string, name: string)
  {
    !Contains(excludes, name) && (includes.None? || Contains(includes.value, name))
  }

  /** The filter of decode.c:269-272 for an mp3 back-end: "mp3" or the back-end's own
      name excludes it, and either includes it. */
  predicate Mp3Allowed(includes: Option<string>, excludes: string, backend: string)
  {
    !(Contains(excludes, "mp3") || Contains(excludes, backend))
    && (includes.None? || Contains(includes.value, "mp3") || Contains(includes.value, backend))
  }

  /** The short name each family is filtered by. */
  function FilterName(f: Family): string
  {
    match f
    case Dsd => "dsd"
    case Alac => "alac"
    case Wma => "wma"
    case Aac => "aac"
    case Vorbis => "ogg"
    case Flac => "flac"
    case Pcm => "pcm"
    case Mad => "mad"
    case Mpg => "mpg"
  }

  /** What register_<family>() returns: the codec when its back-end is available. */
  function Load(loaded: map<Family, Codec>, f: Family): Option<Codec>
  {
    if f in loaded then Some(loaded[f]) else None
  }

  /** Whether a family passes the filters: the mp3 back-ends by Mp3Allowed, the others
      by Allowed on their own short name. */
  predicate Passes(includes: Option<string>, excludes: string, f: Family)
  {
    match f
    case Mad | Mpg => Mp3Allowed(includes, excludes, FilterName(f))
    case _ => Allowed(includes, excludes, FilterName(f))
  }

  /** The filter verdict for every family. */
  function Verdicts(includes: Option<string>, excludes: string): Family -> bool
  {
    f => Passes(includes, excludes, f)
  }

  /** The slot a family with a slot of its own contributes: one entry when it is
      compiled in and passes the filters, holding whatever its registration returned. */
  function Slot(pass: Family -> bool, loaded: map<Family, Codec>, built: bool, f: Family): seq<Option<Codec>>
  {
    if built && pass(f) then [Load(loaded, f)] else []
  }

  /** The shared mp3 slot: mad when it passes and is available, else mpg when it passes. */
  function Mp3Slot(pass: Family -> bool, loaded: map<Family, Codec>): Option<Codec>
  {
    if pass(Mad) && Mad in loaded then Some(loaded[Mad])
    else if pass(Mpg) then Load(loaded, Mpg)
    else None
  }

  /** The table prefix decode_init fills, in registration order, for given filter verdicts. */
  function RegisteredBy(pass: Family -> bool, build: Build, loaded: map<Family, Codec>): seq<Option<Codec>>
  {
    Slot(pass, loaded, build.dsd, Dsd)
    + Slot(pass, loaded, build.ffmpeg, Alac)
    + Slot(pass, loaded, build.ffmpeg, Wma)
    + Slot(pass, loaded, !build.noCodec, Aac)
    + Slot(pass, loaded, !build.noCodec, Vorbis)
    + Slot(pass, loaded, !build.noCodec, Flac)
    + Slot(pass, loaded, !build.noCodec, Pcm)
    + (if build.noCodec then [] else [Mp3Slot(pass, loaded)])
  }

  /** The table prefix decode_init fills; every later entry stays empty. */
  function Registered(includes: Option<string>, excludes: string, build: Build,
                      loaded: map<Family, Codec>): seq<Option<Codec>>
  {
    RegisteredBy(Verdicts(includes, excludes), build, loaded)
  }

  /** The largest number of slots decode_init can fill. */
  const MaxSlots: nat := 8

  /** `loaded` maps each family to a codec of that family. */
  predicate WellLoaded(loaded: map<Family, Codec>)
  {
    forall f :: f in loaded ==> loaded[f].family == f
  }

  /** Whether a family's registration result lands in the table, said family by family. */
  predicate Chosen(pass: Family -> bool, build: Build, loaded: map<Family, Codec>, f: Family)
  {
    match f
    case Dsd => build.dsd && pass(Dsd)
    case Alac | Wma => build.ffmpeg && pass(f)
    case Aac | Vorbis | Flac | Pcm => !build.noCodec && pass(f)
    case Mad => !build.noCodec && pass(Mad)
    case Mpg => !build.noCodec && pass(Mpg) && !(pass(Mad) && Mad in loaded)
  }

  /** A family's own slot holds a codec exactly when the family is compiled in, passes,
      and its registration returned that codec. */
  lemma InSlot(pass: Family -> bool, loaded: map<Family, Codec>, built: bool, f: Family, c: Codec)
    requires WellLoaded(loaded)
    ensures Some(c) in Slot(pass, loaded, built, f)
            <==> built && pass(f) && c.family == f && Load(loaded, f) == Some(c)
  {
  }

  /** The mp3 slot holds mad's codec when mad passes and is available, and mpg's codec
      when mpg passes and mad does not take the slot. */
  lemma InMp3Slot(pass: Family -> bool, loaded: map<Family, Codec>, c: Codec)
    requires WellLoaded(loaded)
    ensures Mp3Slot(pass, loaded) == Some(c)
            <==> (c.family == Mad && pass(Mad) && Load(loaded, Mad) == Some(c))
                 || (c.family == Mpg && pass(Mpg) && !(pass(Mad) && Mad in loaded)
                     && Load(loaded, Mpg) == Some(c))
  {
  }

  /** A codec is in the table exactly when its family is chosen and its registration
      returned it. */
  lemma RegisteredIff(pass: Family -> bool, build: Build, loaded: map<Family, Codec>, c: Codec)
    requires WellLoaded(loaded)
    ensures Some(c) in RegisteredBy(pass, build, loaded)
            <==> Chosen(pass, build, loaded, c.family) && Load(loaded, c.family) == Some(c)
  {
    InSlot(pass, loaded, build.dsd, Dsd, c);
    InSlot(pass, loaded, build.ffmpeg, Alac, c);
    InSlot(pass, loaded, build.ffmpeg, Wma, c);
    InSlot(pass, loaded, !build.noCodec, Aac, c);
    InSlot(pass, loaded, !build.noCodec, Vorbis, c);
    InSlot(pass, loaded, !build.noCodec, Flac, c);
    InSlot(pass, loaded, !build.noCodec, Pcm, c);
    InMp3Slot(pass, loaded, c);
  }

  /** Excluding "mp3" keeps both mp3 back-ends out, whatever the include list says. */
  lemma ExcludingMp3BlocksBoth(includes: Option<string>, excludes: string, build: Build,
                               loaded: map<Family, Codec>, c: Codec)
    requires WellLoaded(loaded) && Contains(excludes, "mp3")
    requires c.family == Mad || c.family == Mpg
    ensures Some(c) !in Registered(includes, excludes, build, loaded)
  {
    RegisteredIff(Verdicts(includes, excludes), build, loaded, c);
  }

  /** A family whose own short name is excluded never lands in the table, whatever
      the include list says. */
  lemma ExcludeWins(includes: Option<string>, excludes: string, build: Build,
                    loaded: map<Family, Codec>, c: Codec)
    requires WellLoaded(loaded) && Contains(excludes, FilterName(c.family))
    ensures Some(c) !in Registered(includes, excludes, build, loaded)
  {
    RegisteredIff(Verdicts(includes, excludes), build, loaded, c);
  }

  /** With an include list, only families it names (or "mp3", for the mp3 back-ends)
      land in the table. */
  lemma IncludeListRestricts(includes: Option<string>, excludes: string, build: Build,
                             loaded: map<Family, Codec>, c: Codec)
    requires WellLoaded(loaded) && includes.Some?
    requires Some(c) in Registered(includes, excludes, build, loaded)
    ensures Contains(includes.value, FilterName(c.family))
            || ((c.family == Mad || c.family == Mpg) && Contains(includes.value, "mp3"))
  {
    RegisteredIff(Verdicts(includes, excludes), build, loaded, c);
  }

  /** mpg takes the mp3 slot only when mad does not pass the filters or is not available. */
  lemma MpgOnlyAsFallback(includes: Option<string>, excludes: string, build: Build,
                          loaded: map<Family, Codec>, c: Codec)
    requires WellLoaded(loaded) && c.family == Mpg
    requires Some(c) in Registered(includes, excludes, build, loaded)
    ensures !(Mp3Allowed(includes, excludes, "mad") && Mad in loaded)
    ensures Mp3Allowed(includes, excludes, "mpg") && Load(loaded, Mpg) == Some(c)
  {
    var pass := Verdicts(includes, excludes);
    RegisteredIff(pass, build, loaded, c);
    assert pass(Mad) == Mp3Allowed(includes, excludes, "mad");
    assert pass(Mpg) == Mp3Allowed(includes, excludes, "mpg");
  }

  /** decode_init never fills more than MaxSlots slots. */
  lemma RegisteredFits(includes: Option<string>, excludes: string, build: Build,
                       loaded: map<Family, Codec>)
    ensures |Registered(includes, excludes, build, loaded)| <= MaxSlots
  {
  }

  /** The table built by decode_init (the global codecs[] array, MAX_CODECS entries,
      all empty before start-up). */
  class CodecTable {
    const codecs: array<Option<Codec>>

    predicate Empty()
      reads codecs
    {
      forall k :: 0 <= k < codecs.Length ==> codecs[k] == None
    }

    predicate Filled(prefix: seq<Option<Codec>>)
      reads codecs
    {
      |prefix| <= codecs.Length && codecs[..|prefix|] == prefix
      && forall k :: |prefix| <= k < codecs.Length ==> codecs[k] == None
    }

    constructor (capacity: nat)
      ensures fresh(codecs) && codecs.Length == capacity && Empty()
    {
      codecs := new Option<Codec>[capacity](_ => None);
    }

    /** `if (built && filters pass) codecs[i++] = register_f();` for a family with a
        slot of its own, onto a table whose first i entries are `done`. */
    method Register(includes: Option<string>, excludes: string, loaded: map<Family, Codec>,
                    built: bool, f: Family, i: nat, ghost done: seq<Option<Codec>>)
      returns (next: nat)
      requires f != Mad && f != Mpg
      requires Filled(done) && i == |done| < codecs.Length
      modifies codecs
      ensures next == |done + Slot(Verdicts(includes, excludes), loaded, built, f)| <= i + 1
      ensures Filled(done + Slot(Verdicts(includes, excludes), loaded, built, f))
    {
      assert Verdicts(includes, excludes)(f) == Allowed(includes, excludes, FilterName(f));
      next := i;
      if built && Allowed(includes, excludes, FilterName(f)) {
        codecs[i] := Load(loaded, f);
        next := i + 1;
        assert codecs[..next] == done + [Load(loaded, f)];
      } else {
        assert done + [] == done;
      }
    }

    /** decode_init (decode.c:246-274): register each compiled-in family that passes
        the filters at the next free index; the mp3 slot takes mad first and mpg only
        while it is still empty. */
    method DecodeInit(includes: Option<string>, excludes: string, build: Build, loaded: map<Family, Codec>)
      requires Empty() && codecs.Length >= MaxSlots
      modifies codecs
      ensures Filled(Registered(includes, excludes, build, loaded))
    {
      ghost var pass := Verdicts(includes, excludes);
      assert codecs[..0] == [];
      var i := Register(includes, excludes, loaded, build.dsd, Dsd, 0, []);
      ghost var done := [] + Slot(pass, loaded, build.dsd, Dsd);
      assert done == Slot(pass, loaded, build.dsd, Dsd);
      i := RegisterFfmpeg(includes, excludes, loaded, build.ffmpeg, i, done);
      done := done + Slot(pass, loaded, build.ffmpeg, Alac) + Slot(pass, loaded, build.ffmpeg, Wma);
      RegisterNative(includes, excludes, loaded, !build.noCodec, i, done);
    }

    /** The ffmpeg families, alac then wma (decode.c:255-259). */
    method RegisterFfmpeg(includes: Option<string>, excludes: string, loaded: map<Family, Codec>,
                          built: bool, i: nat, ghost done: seq<Option<Codec>>)
      returns (next: nat)
      requires Filled(done) && i == |done| && i + 2 <= codecs.Length
      modifies codecs
      ensures next == |done + Slot(Verdicts(includes, excludes), loaded, built, Alac)
                            + Slot(Verdicts(includes, excludes), loaded, built, Wma)| <= i + 2
      ensures Filled(done + Slot(Verdicts(includes, excludes), loaded, built, Alac)
                          + Slot(Verdicts(includes, excludes), loaded, built, Wma))
    {
      next := Register(includes, excludes, loaded, built, Alac, i, done);
      next := Register(includes, excludes, loaded, built, Wma, next,
                       done + Slot(Verdicts(includes, excludes), loaded, built, Alac));
    }

    /** The families built unless NO_CODEC: aac, ogg, flac, pcm, then the shared mp3
        slot (decode.c:261-272). */
    method RegisterNative(includes: Option<string>, excludes: string, loaded: map<Family, Codec>,
                          built: bool, i: nat, ghost done: seq<Option<Codec>>)
      requires Filled(done) && i == |done| && i + 5 <= codecs.Length
      modifies codecs
      ensures Filled(done + Slot(Verdicts(includes, excludes), loaded, built, Aac)
                          + Slot(Verdicts(includes, excludes), loaded, built, Vorbis)
                          + Slot(Verdicts(includes, excludes), loaded, built, Flac)
                          + Slot(Verdicts(includes, excludes), loaded, built, Pcm)
                          + (if built then [Mp3Slot(Verdicts(includes, excludes), loaded)] else []))
    {
      ghost var pass := Verdicts(includes, excludes);
      var next := Register(includes, excludes, loaded, built, Aac, i, done);
      ghost var d := done + Slot(pass, loaded, built, Aac);
      next := Register(includes, excludes, loaded, built, Vorbis, next, d);
      d := d + Slot(pass, loaded, built, Vorbis);
      next := Register(includes, excludes, loaded, built, Flac, next, d);
      d := d + Slot(pass, loaded, built, Flac);
      next := Register(includes, excludes, loaded, built, Pcm, next, d);
      d := d + Slot(pass, loaded, built, Pcm);
      if built {
        RegisterMp3(includes, excludes, loaded, next, d);
      } else {
        assert d + [] == d;
      }
    }

    /** The mp3 slot at index i: mad when it passes the filters, then mpg when it
        passes and the slot is still empty. */
    method RegisterMp3(includes: Option<string>, excludes: string, loaded: map<Family, Codec>,
                       i: nat, ghost done: seq<Option<Codec>>)
      requires Filled(done) && i == |done| < codecs.Length
      modifies codecs
      ensures Filled(done + [Mp3Slot(Verdicts(includes, excludes), loaded)])
    {
      if Mp3Allowed(includes, excludes, "mad") {
        codecs[i] := Load(loaded, Mad);
      }
      if Mp3Allowed(includes, excludes, "mpg") && codecs[i].None? {
        codecs[i] := Load(loaded, Mpg);
      }
      ghost var pass := Verdicts(includes, excludes);
      assert pass(Mad) == Mp3Allowed(includes, excludes, "mad");
      assert pass(Mpg) == Mp3Allowed(includes, excludes, "mpg");
      assert codecs[..i + 1] == done + [Mp3Slot(pass, loaded)];
    }
  }

  /** An entry that codec_open would pick for `format`. */
  predicate Matches(e: Option<Codec>, format: char)
  {
    e.Some? && e.value.id == format
  }

  /** The first index at or after `from` whose entry matches `format`, if any. */
  function FirstMatch(table: seq<Option<Codec>>, format: char, from: nat): (r: Option<nat>)
    requires from <= |table|
    decreases |table| - from
    ensures r.Some? ==> from <= r.value < |table| && Matches(table[r.value], format)
    ensures r.Some? ==> forall k :: from <= k < r.value ==> !Matches(table[k], format)
    ensures r.None? ==> forall k :: from <= k < |table| ==> !Matches(table[k], format)
  {
    if from == |table| then None
    else if Matches(table[from], format) then Some(from)
    else FirstMatch(table, format, from + 1)
  }
}
