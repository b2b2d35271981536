/**
 * The image entity of the viewer library: where the image lives, the decoded
 * pixbuf and its thumbnail (opaque handles), the size learnt while decoding,
 * the pending decode task, the load mode and the "modified" flag, plus the
 * signals the entity emits, kept as a log in emission order.
 *
 * Pixel data is not modelled: a pixbuf is a handle with its dimensions, a
 * rotation yields a new handle (an input), a flip or half turn keeps it.
 */
module EogImage {
  import opened Wrappers

  /** An opaque pixbuf handle and the dimensions the toolkit reports for it. */
  datatype Pixbuf = Pixbuf(id: nat, width: int, height: int)

  /** A file location and the base name the viewer uses as its caption. */
  datatype Location = Location(uri: string, basename: string)

  datatype LoadMode = Default | Progressive | Complete

  /** The entity's signals, with the arguments the emitter passes. */
  datatype Signal =
    | LoadingUpdate(x: int, y: int, w: int, h: int)
    | LoadingSizePrepared(width: int, height: int)
    | LoadingFinished
    | LoadingFailed
    | LoadingCancelled
    | Changed
    | ThumbnailFinished
    | ThumbnailFailed
    | ThumbnailCancelled

  /** Ids handed out for idle callbacks by the main loop: never 0. */
  type SourceId = n: int | n > 0 witness 1

  /** The entity's state as a value. */
  datatype Entity = Entity(
    uri: Option<Location>,
    mode: LoadMode,
    image: Option<Pixbuf>,
    thumbnail: Option<Pixbuf>,
    width: int,
    height: int,
    loadIdleId: int,
    modified: bool,
    signals: seq<Signal>)

  /** A freshly initialised entity: nothing loaded, size unknown (-1), zeroed mode and task id. */
  function Fresh(): (e: Entity)
    ensures e.uri == None && e.image == None && e.thumbnail == None
    ensures e.width == -1 && e.height == -1
    ensures e.mode == Default && e.loadIdleId == 0 && !e.modified && e.signals == []
  {
    Entity(None, Default, None, None, -1, -1, 0, false, [])
  }

  /** The number of times `x` occurs in a signal log. */
  function CountOf(s: seq<Signal>, x: Signal): nat
  {
    if s == [] then 0 else (if s[0] == x then 1 else 0) + CountOf(s[1..], x)
  }

  lemma {:induction false} CountOfAppend(a: seq<Signal>, b: seq<Signal>, x: Signal)
    ensures CountOf(a + b, x) == CountOf(a, x) + CountOf(b, x)
  {
    if a == [] {
      assert a + b == b;
    } else {
      CountOfAppend(a[1..], b, x);
      assert (a + b)[1..] == a[1..] + b;
    }
  }

  // ------------------------------------------------------------ load scheduling

  datatype LoadOutcome = LoadOutcome(after: Entity, loaded: bool)

  /**
   * `eog_image_load`: without a location it refuses and reports FALSE;
   * otherwise a decode task is scheduled when nothing is loaded and none is
   * pending (a DEFAULT mode becomes PROGRESSIVE), and the answer is whether
   * an image is already held.
   */
  function LoadStep(e: Entity, task: SourceId): (r: LoadOutcome)
    ensures r.loaded <==> e.uri.Some? && e.image.Some?
    ensures r.after.loadIdleId != e.loadIdleId <==> e.uri.Some? && e.image == None && e.loadIdleId == 0
    ensures r.after.loadIdleId != e.loadIdleId ==> r.after.loadIdleId == task
    ensures r.after.mode != e.mode ==> e.mode == Default && r.after.mode == Progressive
    ensures e.uri.Some? && e.image == None && e.loadIdleId == 0 && e.mode == Default ==> r.after.mode == Progressive
    ensures r.after.mode != e.mode ==> r.after.loadIdleId == task
    ensures r.after == e.(mode := r.after.mode, loadIdleId := r.after.loadIdleId)
  {
    if e.uri == None then LoadOutcome(e, false)
    else
      var scheduled := e.image == None && e.loadIdleId == 0;
      var mode := if scheduled && e.mode == Default then Progressive else e.mode;
      var after := if scheduled then e.(mode := mode, loadIdleId := task) else e;
      LoadOutcome(after, after.image != None)
  }

  /** A second load request before the decode task has run schedules nothing new and gives the same answer. */
  lemma LoadTwiceSchedulesOnce(e: Entity, first: SourceId, second: SourceId)
    ensures LoadStep(LoadStep(e, first).after, second) == LoadStep(e, first)
  {
  }

  // ------------------------------------------------------------ transforms

  /**
   * The five transforms: nothing happens without a loaded image; otherwise
   * the image is replaced by `replacement` when the transform yields a new
   * pixbuf (the quarter turns) and kept otherwise, the entity is marked
   * modified and `changed` is emitted.
   */
  function TransformStep(e: Entity, replacement: Option<Pixbuf>): (r: Entity)
    ensures e.image == None ==> r == e
    ensures e.image.Some? ==> r.image == (if replacement.Some? then replacement else e.image)
    ensures e.image.Some? ==> r == e.(image := r.image, modified := true, signals := e.signals + [Changed])
  {
    if e.image == None then e
    else
      var image := if replacement.Some? then replacement else e.image;
      e.(image := image, modified := true, signals := e.signals + [Changed])
  }

  /** A transform of a loaded image emits `changed` exactly once and no other signal. */
  lemma TransformEmitsChangedOnce(e: Entity, replacement: Option<Pixbuf>, x: Signal)
    requires e.image.Some?
    ensures TransformStep(e, replacement).modified
    ensures CountOf(TransformStep(e, replacement).signals, Changed) == CountOf(e.signals, Changed) + 1
    ensures x != Changed ==> CountOf(TransformStep(e, replacement).signals, x) == CountOf(e.signals, x)
  {
    CountOfAppend(e.signals, [Changed], Changed);
    CountOfAppend(e.signals, [Changed], x);
    assert CountOf([Changed], x) == (if x == Changed then 1 else 0) + CountOf([], x);
  }

  // ------------------------------------------------------------ decoding

  /** What the pixbuf loader reports through its callbacks while it is fed a chunk. */
  datatype LoaderEvent =
    | AreaUpdated(x: int, y: int, w: int, h: int)
    | SizePrepared(w: int, h: int)

  /**
   * One read of the input stream: an error, or a chunk of data that the
   * loader either accepts or rejects, with the callbacks it fires while
   * being fed. The stream ends (a read of 0 bytes) after the last chunk.
   */
  datatype Chunk = ReadError | Data(accepted: bool, events: seq<LoaderEvent>)

  /** The "area updated" callback: the first update captures the loader's pixbuf; the update is reported. */
  function AreaUpdatedStep(e: Entity, x: int, y: int, w: int, h: int, loaderPixbuf: Option<Pixbuf>): (r: Entity)
    ensures e.image.Some? ==> r.image == e.image
    ensures e.image == None ==> r.image == loaderPixbuf
    ensures r == e.(image := r.image, signals := e.signals + [LoadingUpdate(x, y, w, h)])
  {
    var image := if e.image == None then loaderPixbuf else e.image;
    e.(image := image, signals := e.signals + [LoadingUpdate(x, y, w, h)])
  }

  /** The "size prepared" callback: the size becomes known and is reported. */
  function SizePreparedStep(e: Entity, w: int, h: int): Entity
  {
    e.(width := w, height := h, signals := e.signals + [LoadingSizePrepared(w, h)])
  }

  function CallbackStep(e: Entity, ev: LoaderEvent, loaderPixbuf: Option<Pixbuf>): Entity
  {
    match ev
    case AreaUpdated(x, y, w, h) => AreaUpdatedStep(e, x, y, w, h, loaderPixbuf)
    case SizePrepared(w, h) => SizePreparedStep(e, w, h)
  }

  /** The callbacks fired while one chunk is fed, in order. */
  function Callbacks(e: Entity, events: seq<LoaderEvent>, loaderPixbuf: Option<Pixbuf>): Entity
    decreases |events|
  {
    if events == [] then e
    else Callbacks(CallbackStep(e, events[0], loaderPixbuf), events[1..], loaderPixbuf)
  }

  datatype Decoding = Decoding(entity: Entity, failed: bool)

  /**
   * The read loop: each chunk is fed to the loader (whose callbacks reach
   * the entity only in PROGRESSIVE mode); a read error or a rejected chunk
   * stops it with `failed`, the end of the stream stops it without.
   */
  function ReadLoop(e: Entity, chunks: seq<Chunk>, loaderPixbuf: Option<Pixbuf>): Decoding
    decreases |chunks|
  {
    if chunks == [] then Decoding(e, false)
    else match chunks[0]
      case ReadError => Decoding(e, true)
      case Data(accepted, events) =>
        var fed := if e.mode == Progressive then Callbacks(e, events, loaderPixbuf) else e;
        if !accepted then Decoding(fed, true) else ReadLoop(fed, chunks[1..], loaderPixbuf)
  }

  /** Whether a stream of reads makes the decode fail. */
  predicate Fails(chunks: seq<Chunk>)
  {
    exists k :: 0 <= k < |chunks| && (chunks[k].ReadError? || !chunks[k].accepted)
  }

  /** The width the toolkit reports for the loader's pixbuf (-1 for none). */
  function PixbufWidth(p: Option<Pixbuf>): int {
    if p.Some? then p.value.width else -1
  }

  function PixbufHeight(p: Option<Pixbuf>): int {
    if p.Some? then p.value.height else -1
  }

  /**
   * The end of a decode: on failure any partial image is released and
   * `loading_failed` emitted; on success an image not yet captured is taken
   * from the loader with its size, reported by `size_prepared`, and then
   * `loading_finished` is emitted. Either way the task id returns to 0.
   */
  function FinishDecode(e: Entity, failed: bool, loaderPixbuf: Option<Pixbuf>): Entity
  {
    if failed then
      e.(image := None, signals := e.signals + [LoadingFailed], loadIdleId := 0)
    else if e.image == None then
      var w := PixbufWidth(loaderPixbuf);
      var h := PixbufHeight(loaderPixbuf);
      e.(image := loaderPixbuf, width := w, height := h,
         signals := e.signals + [LoadingSizePrepared(w, h), LoadingFinished], loadIdleId := 0)
    else
      e.(signals := e.signals + [LoadingFinished], loadIdleId := 0)
  }

  /**
   * The decode task. When the stream cannot be opened, `loading_failed` is
   * emitted and the task returns at once, leaving the task id set.
   */
  function DecodeSpec(e: Entity, streamOpened: bool, chunks: seq<Chunk>, loaderPixbuf: Option<Pixbuf>): Entity
  {
    if !streamOpened then e.(signals := e.signals + [LoadingFailed])
    else
      var d := ReadLoop(e, chunks, loaderPixbuf);
      FinishDecode(d.entity, d.failed, loaderPixbuf)
  }

  /** The callbacks only touch the image, the size and the signal log, and only append to the log. */
  lemma {:induction false} CallbacksFrame(e: Entity, events: seq<LoaderEvent>, loaderPixbuf: Option<Pixbuf>)
    ensures var r := Callbacks(e, events, loaderPixbuf);
      r == e.(image := r.image, width := r.width, height := r.height, signals := r.signals)
      && |r.signals| >= |e.signals| && r.signals[..|e.signals|] == e.signals
    ensures e.image.Some? ==> Callbacks(e, events, loaderPixbuf).image == e.image
    ensures Callbacks(e, events, loaderPixbuf).image.Some? ==>
              (Callbacks(e, events, loaderPixbuf).image == e.image
               || (e.image == None && Callbacks(e, events, loaderPixbuf).image == loaderPixbuf))
    decreases |events|
  {
    if events != [] {
      var next := CallbackStep(e, events[0], loaderPixbuf);
      CallbacksFrame(next, events[1..], loaderPixbuf);
    }
  }

  /**
   * The read loop fails exactly when some read errs or some chunk is
   * rejected, keeps the location, thumbnail, mode, task id and modified flag,
   * only appends signals, and can only capture the loader's pixbuf.
   */
  lemma {:induction false} ReadLoopFrame(e: Entity, chunks: seq<Chunk>, loaderPixbuf: Option<Pixbuf>)
    ensures ReadLoop(e, chunks, loaderPixbuf).failed <==> Fails(chunks)
    ensures var r := ReadLoop(e, chunks, loaderPixbuf).entity;
      r == e.(image := r.image, width := r.width, height := r.height, signals := r.signals)
      && |r.signals| >= |e.signals| && r.signals[..|e.signals|] == e.signals
    ensures e.image.Some? ==> ReadLoop(e, chunks, loaderPixbuf).entity.image == e.image
    ensures e.image == None && ReadLoop(e, chunks, loaderPixbuf).entity.image.Some? ==>
              ReadLoop(e, chunks, loaderPixbuf).entity.image == loaderPixbuf
    ensures e.mode != Progressive ==> ReadLoop(e, chunks, loaderPixbuf).entity == e
    decreases |chunks|
  {
    if chunks != [] {
      match chunks[0]
      case ReadError =>
        assert chunks[0].ReadError?;
      case Data(accepted, events) =>
        var fed := if e.mode == Progressive then Callbacks(e, events, loaderPixbuf) else e;
        CallbacksFrame(e, events, loaderPixbuf);
        if accepted {
          ReadLoopFrame(fed, chunks[1..], loaderPixbuf);
          if Fails(chunks[1..]) {
            var k :| 0 <= k < |chunks[1..]| && (chunks[1..][k].ReadError? || !chunks[1..][k].accepted);
            assert chunks[k + 1] == chunks[1..][k];
          }
          if Fails(chunks) {
            var k :| 0 <= k < |chunks| && (chunks[k].ReadError? || !chunks[k].accepted);
            assert k > 0 && chunks[1..][k - 1] == chunks[k];
          }
        }
    }
  }

  /** A decode that opened its stream always clears the task id, so a later load can schedule again. */
  lemma DecodeClearsTask(e: Entity, chunks: seq<Chunk>, loaderPixbuf: Option<Pixbuf>)
    ensures DecodeSpec(e, true, chunks, loaderPixbuf).loadIdleId == 0
  {
  }

  /** A failing decode releases any partial image and ends with `loading_failed`. */
  lemma DecodeFailure(e: Entity, chunks: seq<Chunk>, loaderPixbuf: Option<Pixbuf>)
    requires Fails(chunks)
    ensures var r := DecodeSpec(e, true, chunks, loaderPixbuf);
      r.image == None && |r.signals| > 0 && r.signals[|r.signals| - 1] == LoadingFailed
      && r.thumbnail == e.thumbnail && r.modified == e.modified && r.uri == e.uri
  {
    ReadLoopFrame(e, chunks, loaderPixbuf);
  }

  /**
   * A successful decode of an entity with no image holds the loader's pixbuf
   * and ends with `loading_finished`; when no area update captured the image
   * before, the size is the pixbuf's and `size_prepared` comes just before.
   */
  lemma DecodeSuccess(e: Entity, chunks: seq<Chunk>, loaderPixbuf: Option<Pixbuf>)
    requires e.image == None && !Fails(chunks)
    ensures var r := DecodeSpec(e, true, chunks, loaderPixbuf);
      r.image == loaderPixbuf && |r.signals| > 0 && r.signals[|r.signals| - 1] == LoadingFinished
      && r.thumbnail == e.thumbnail && r.modified == e.modified && r.uri == e.uri
    ensures var d := ReadLoop(e, chunks, loaderPixbuf).entity;
      var r := DecodeSpec(e, true, chunks, loaderPixbuf);
      d.image == None ==>
        r.width == PixbufWidth(loaderPixbuf) && r.height == PixbufHeight(loaderPixbuf)
        && |r.signals| >= 2
        && r.signals[|r.signals| - 2] == LoadingSizePrepared(r.width, r.height)
  {
    ReadLoopFrame(e, chunks, loaderPixbuf);
  }

  /** Outside PROGRESSIVE mode a successful decode reports nothing until it is complete. */
  lemma NonProgressiveDecodeReportsAtEnd(e: Entity, chunks: seq<Chunk>, loaderPixbuf: Option<Pixbuf>)
    requires e.mode != Progressive && e.image == None && !Fails(chunks)
    ensures DecodeSpec(e, true, chunks, loaderPixbuf).signals
         == e.signals + [LoadingSizePrepared(PixbufWidth(loaderPixbuf), PixbufHeight(loaderPixbuf)), LoadingFinished]
  {
    ReadLoopFrame(e, chunks, loaderPixbuf);
  }

  // ------------------------------------------------------------ the entity

  class Image {
    var uri: Option<Location>
    var mode: LoadMode
    var image: Option<Pixbuf>
    var thumbnail: Option<Pixbuf>
    var width: int
    var height: int
    var loadIdleId: int
    var modified: bool
    /** The signals emitted so far, oldest first. */
    var signals: seq<Signal>

    function Snapshot(): Entity
      reads this
    {
      Entity(uri, mode, image, thumbnail, width, height, loadIdleId, modified, signals)
    }

    /** `eog_image_init` on a zero-filled private part. */
    constructor Init()
      ensures Snapshot() == Fresh()
    {
      uri := None;
      image := None;
      thumbnail := None;
      width, height := -1, -1;
      modified := false;
      mode := Default;
      loadIdleId := 0;
      signals := [];
    }

    /** `eog_image_new_uri`: a fresh entity for a location, in the given mode. */
    constructor NewUri(location: Location, loadMode: LoadMode)
      ensures Snapshot() == Fresh().(uri := Some(location), mode := loadMode)
    {
      uri := Some(location);
      image := None;
      thumbnail := None;
      width, height := -1, -1;
      modified := false;
      mode := loadMode;
      loadIdleId := 0;
      signals := [];
    }

    /** `eog_image_load`; `task` is the id the main loop hands out if a decode is scheduled. */
    method Load(task: SourceId) returns (loaded: bool)
      modifies this
      ensures Snapshot() == LoadStep(old(Snapshot()), task).after
      ensures loaded == LoadStep(old(Snapshot()), task).loaded
    {
      if uri == None {
        return false;
      }
      if image == None && loadIdleId == 0 {
        if mode == Default {
          mode := Progressive;
        }
        loadIdleId := task;
      }
      loaded := image != None;
    }

    /** `load_area_updated`. */
    method LoadAreaUpdated(x: int, y: int, w: int, h: int, loaderPixbuf: Option<Pixbuf>)
      modifies this
      ensures Snapshot() == AreaUpdatedStep(old(Snapshot()), x, y, w, h, loaderPixbuf)
    {
      if image == None {
        image := loaderPixbuf;
      }
      signals := signals + [LoadingUpdate(x, y, w, h)];
    }

    /** `load_size_prepared`. */
    method LoadSizePrepared(w: int, h: int)
      modifies this
      ensures Snapshot() == SizePreparedStep(old(Snapshot()), w, h)
    {
      width := w;
      height := h;
      signals := signals + [LoadingSizePrepared(w, h)];
    }

    /**
     * `real_image_load`: the decode task. `streamOpened` is whether the stream
     * could be opened, `chunks` what its reads return, `loaderPixbuf` the
     * loader's pixbuf.
     */
    method RealImageLoad(streamOpened: bool, chunks: seq<Chunk>, loaderPixbuf: Option<Pixbuf>)
      requires image == None
      modifies this
      ensures Snapshot() == DecodeSpec(old(Snapshot()), streamOpened, chunks, loaderPixbuf)
    {
      if !streamOpened {
        signals := signals + [LoadingFailed];
        return;
      }
      ghost var start := Snapshot();
      var failed := false;
      var k := 0;
      while k < |chunks| && !failed
        invariant 0 <= k <= |chunks|
        invariant !failed ==> ReadLoop(Snapshot(), chunks[k..], loaderPixbuf) == ReadLoop(start, chunks, loaderPixbuf)
        invariant failed ==> ReadLoop(start, chunks, loaderPixbuf) == Decoding(Snapshot(), true)
        decreases |chunks| - k, !failed
      {
        assert chunks[k..][0] == chunks[k] && chunks[k..][1..] == chunks[k + 1..];
        match chunks[k]
        case ReadError =>
          failed := true;
        case Data(accepted, events) =>
          if mode == Progressive {
            RunCallbacks(events, loaderPixbuf);
          }
          if !accepted {
            failed := true;
          } else {
            k := k + 1;
          }
      }
      if !failed {
        assert chunks[k..] == [];
      }
      EndDecode(failed, loaderPixbuf);
    }

    /** The loader callbacks fired while one chunk is fed, run in order. */
    method RunCallbacks(events: seq<LoaderEvent>, loaderPixbuf: Option<Pixbuf>)
      modifies this
      ensures Snapshot() == Callbacks(old(Snapshot()), events, loaderPixbuf)
    {
      var j := 0;
      while j < |events|
        invariant 0 <= j <= |events|
        invariant Callbacks(Snapshot(), events[j..], loaderPixbuf) == Callbacks(old(Snapshot()), events, loaderPixbuf)
      {
        assert events[j..][0] == events[j] && events[j..][1..] == events[j + 1..];
        match events[j] {
          case AreaUpdated(x, y, w, h) =>
            LoadAreaUpdated(x, y, w, h, loaderPixbuf);
          case SizePrepared(w, h) =>
            LoadSizePrepared(w, h);
        }
        j := j + 1;
      }
    }

    /** The bookkeeping after the read loop of `real_image_load`. */
    method EndDecode(failed: bool, loaderPixbuf: Option<Pixbuf>)
      modifies this
      ensures Snapshot() == FinishDecode(old(Snapshot()), failed, loaderPixbuf)
    {
      if failed {
        image := None;
        signals := signals + [LoadingFailed];
      } else if image == None {
        image := loaderPixbuf;
        width := PixbufWidth(loaderPixbuf);
        height := PixbufHeight(loaderPixbuf);
        signals := signals + [LoadingSizePrepared(width, height)];
        signals := signals + [LoadingFinished];
      } else {
        signals := signals + [LoadingFinished];
      }
      loadIdleId := 0;
    }

    /** `eog_image_rotate_clock_wise`; `rotated` is the new pixbuf the rotation yields. */
    method RotateClockWise(rotated: Pixbuf)
      modifies this
      ensures Snapshot() == TransformStep(old(Snapshot()), Some(rotated))
    {
      if image == None {
        return;
      }
      image := Some(rotated);
      modified := true;
      signals := signals + [Changed];
    }

    /** `eog_image_rotate_counter_clock_wise`; `rotated` is the new pixbuf the rotation yields. */
    method RotateCounterClockWise(rotated: Pixbuf)
      modifies this
      ensures Snapshot() == TransformStep(old(Snapshot()), Some(rotated))
    {
      if image == None {
        return;
      }
      image := Some(rotated);
      modified := true;
      signals := signals + [Changed];
    }

    /** `eog_image_rotate_180`: the pixels turn in place, the handle stays. */
    method Rotate180()
      modifies this
      ensures Snapshot() == TransformStep(old(Snapshot()), None)
    {
      if image == None {
        return;
      }
      modified := true;
      signals := signals + [Changed];
    }

    /** `eog_image_flip_horizontal`: in place. */
    method FlipHorizontal()
      modifies this
      ensures Snapshot() == TransformStep(old(Snapshot()), None)
    {
      if image == None {
        return;
      }
      modified := true;
      signals := signals + [Changed];
    }

    /** `eog_image_flip_vertical`: in place. */
    method FlipVertical()
      modifies this
      ensures Snapshot() == TransformStep(old(Snapshot()), None)
    {
      if image == None {
        return;
      }
      modified := true;
      signals := signals + [Changed];
    }

    /** A signal emission on this image, recorded in its signal log. */
    method Emit(s: Signal)
      modifies this
      ensures Snapshot() == old(Snapshot()).(signals := old(signals) + [s])
    {
      signals := signals + [s];
    }

    /** `eog_image_free_mem`: drops the decoded image and nothing else. */
    method FreeMem()
      modifies this
      ensures Snapshot() == old(Snapshot()).(image := None)
    {
      image := None;
    }

    /** `eog_image_is_animation`: animations are not supported. */
    function IsAnimation(): (r: bool)
      ensures !r
    {
      false
    }

    /** `eog_image_get_pixbuf`: the decoded image, if any. */
    function GetPixbuf(): (r: Option<Pixbuf>)
      reads this
      ensures r.Some? <==> image.Some?
      ensures r.Some? ==> r == image
    {
      image
    }

    /** `eog_image_get_pixbuf_thumbnail`: the thumbnail, if any. */
    function GetThumbnail(): (r: Option<Pixbuf>)
      reads this
      ensures r.Some? <==> thumbnail.Some?
      ensures r.Some? ==> r == thumbnail
    {
      thumbnail
    }

    /** `eog_image_get_size`: the size learnt so far, -1 while unknown. */
    function GetSize(): (r: (int, int))
      reads this
      ensures r.0 == width && r.1 == height
    {
      (width, height)
    }

    /** `eog_image_get_caption`: the location's base name, none without a location. */
    function GetCaption(): (r: Option<string>)
      reads this
      ensures r.Some? <==> uri.Some?
      ensures uri.Some? ==> r == Some(uri.value.basename)
    {
      if uri == None then None else Some(uri.value.basename)
    }
  }
}
