/**
 * The process-wide thumbnail job protocol of the viewer library: images wait
 * in `jobs_waiting` for the worker, which resolves one thumbnail at a time
 * and moves the image to `jobs_done`; an idle callback on the main loop then
 * hands each finished image back by emitting `thumbnail_finished` or
 * `thumbnail_failed` on it.
 *
 * Each locked section is one atomic method. The worker's local `image`
 * between its pop and its completion is the `inFlight` slot. Two ghost logs
 * record every enqueued and every dispatched image, so that the protocol's
 * promise can be stated: images are handed back exactly once, in the order
 * they were queued.
 */
module ThumbJobs {
  import opened Wrappers
  import opened EogImage

  /**
   * What resolving one thumbnail finds out, standing for the file-system and
   * thumbnail-cache calls: a cached thumbnail file exists (loading it may
   * still yield nothing), the file's information cannot be queried, or the
   * thumbnail factory is asked (whether it records a valid failure for the
   * file, whether it can thumbnail it, and what it generates).
   */
  datatype ThumbOutcome =
    | Cached(loaded: Option<Pixbuf>)
    | QueryFailed
    | Factory(hasValidFailure: bool, canThumbnail: bool, generated: Option<Pixbuf>)

  /** The thumbnail an image holds after the worker has resolved it. */
  function ResolveThumbnail(current: Option<Pixbuf>, o: ThumbOutcome): (r: Option<Pixbuf>)
    ensures o.Cached? ==> r == o.loaded
    ensures r != current ==>
              o.Cached? || (o.Factory? && !o.hasValidFailure && o.canThumbnail && r == o.generated)
    ensures o.Factory? && !o.hasValidFailure && o.canThumbnail ==> r == o.generated
  {
    match o
    case Cached(loaded) => loaded
    case QueryFailed => current
    case Factory(failed, can, generated) => if !failed && can then generated else current
  }

  /** The signal the dispatcher emits for an image that comes back from the worker. */
  function Verdict(thumbnail: Option<Pixbuf>): (s: Signal)
    ensures s == ThumbnailFinished <==> thumbnail.Some?
    ensures s == ThumbnailFailed <==> thumbnail == None
  {
    if thumbnail.Some? then ThumbnailFinished else ThumbnailFailed
  }

  /** A queue that may be absent (NULL), read as empty. */
  function Items(q: Option<seq<Image>>): seq<Image> {
    if q.Some? then q.value else []
  }

  /**
   * The thumbnail `img` holds once the worker has resolved the images of
   * `todo` in order, the k-th with `outcomes[k]`, starting from `t`: one
   * resolution for each time `img` was queued.
   */
  function ResolvedBy(t: Option<Pixbuf>, img: Image, todo: seq<Image>, outcomes: seq<ThumbOutcome>): (r: Option<Pixbuf>)
    requires |outcomes| == |todo|
    decreases |todo|
  {
    if todo == [] then t
    else
      var n := |todo| - 1;
      var before := ResolvedBy(t, img, todo[..n], outcomes[..n]);
      if todo[n] == img then ResolveThumbnail(before, outcomes[n]) else before
  }

  /** How many times `img` occurs in `s`. */
  function Occurrences(img: Image, s: seq<Image>): (r: nat)
    decreases |s|
  {
    if s == [] then 0
    else Occurrences(img, s[..|s| - 1]) + (if s[|s| - 1] == img then 1 else 0)
  }

  /** `n` copies of the signal `x`. */
  function Repeat(x: Signal, n: nat): (r: seq<Signal>)
    ensures |r| == n && forall i :: 0 <= i < n ==> r[i] == x
  {
    if n == 0 then [] else Repeat(x, n - 1) + [x]
  }

  /** The images' states, in queue order, taken as one ghost record. */
  ghost method TakeSnapshots(s: seq<Image>) returns (r: seq<Entity>)
    ensures |r| == |s| && forall i {:trigger r[i]} :: 0 <= i < |s| ==> r[i] == s[i].Snapshot()
  {
    r := [];
    while |r| < |s|
      invariant |r| <= |s| && forall i :: 0 <= i < |r| ==> r[i] == s[i].Snapshot()
    {
      r := r + [s[|r|].Snapshot()];
    }
  }

  /**
   * `img` is `before` with only its thumbnail changed: to what the worker
   * makes of it by resolving `todo` with `outcomes`.
   */
  ghost predicate ResolvedTo(img: Image, before: Entity, todo: seq<Image>, outcomes: seq<ThumbOutcome>)
    requires |outcomes| == |todo|
    reads img
  {
    img.Snapshot() == before.(thumbnail := ResolvedBy(before.thumbnail, img, todo, outcomes))
  }

  /** `img` is `before` with `n` verdict signals for its thumbnail appended and nothing else changed. */
  ghost predicate HandedBack(img: Image, before: Entity, n: nat)
    reads img
  {
    img.Snapshot() == before.(signals := before.signals + Repeat(Verdict(before.thumbnail), n))
  }

  class ThumbQueue {
    var jobsWaiting: Option<seq<Image>>
    var jobsDone: Option<seq<Image>>
    var threadRunning: bool
    /** The idle callback id, -1 while no dispatch is armed. */
    var dispatchId: int
    /** The image the worker has popped and not yet completed. */
    var inFlight: Option<Image>

    ghost var enqueued: seq<Image>
    ghost var dispatched: seq<Image>

    /** Every queued image not yet handed back, oldest first. */
    ghost function Pending(): seq<Image>
      reads this
    {
      Items(jobsDone) + (if inFlight.Some? then [inFlight.value] else []) + Items(jobsWaiting)
    }

    ghost predicate Valid()
      reads this
    {
      // the waiting queue exists exactly while a worker runs
      (threadRunning <==> jobsWaiting.Some?)
      && (!threadRunning ==> inFlight == None)
      // a running worker that holds no image always finds one to pop
      && (threadRunning && inFlight == None ==> |jobsWaiting.value| > 0)
      // the done queue exists exactly while a dispatch is armed
      && (jobsDone.Some? <==> dispatchId != -1)
      && (dispatchId == -1 || dispatchId > 0)
      // first in, first out, nothing lost or duplicated
      && enqueued == dispatched + Pending()
    }

    /** The globals at program start. */
    constructor ()
      ensures Valid()
      ensures jobsWaiting == None && jobsDone == None && !threadRunning && dispatchId == -1 && inFlight == None
      ensures enqueued == [] && dispatched == []
    {
      jobsWaiting := None;
      jobsDone := None;
      threadRunning := false;
      dispatchId := -1;
      inFlight := None;
      enqueued := [];
      dispatched := [];
    }

    /**
     * `add_image_to_queue`: the image joins the tail of the waiting queue
     * (created if absent); a worker is started only when none runs.
     */
    method Enqueue(img: Image) returns (startedWorker: bool)
      requires Valid()
      modifies this
      ensures Valid()
      ensures jobsWaiting == Some(Items(old(jobsWaiting)) + [img])
      ensures startedWorker <==> !old(threadRunning)
      ensures threadRunning
      ensures jobsDone == old(jobsDone) && dispatchId == old(dispatchId) && inFlight == old(inFlight)
      ensures enqueued == old(enqueued) + [img] && dispatched == old(dispatched)
    {
      jobsWaiting := Some(Items(jobsWaiting) + [img]);
      startedWorker := !threadRunning;
      if !threadRunning {
        threadRunning := true;
      }
      enqueued := enqueued + [img];
    }

    /** The worker's pop step: the head of the waiting queue becomes the in-flight image. */
    method WorkerPop() returns (img: Image)
      requires Valid() && threadRunning && inFlight == None
      modifies this
      ensures Valid()
      ensures |old(jobsWaiting.value)| > 0 && img == old(jobsWaiting.value[0])
      ensures jobsWaiting == Some(old(jobsWaiting.value[1..])) && inFlight == Some(img)
      ensures threadRunning && jobsDone == old(jobsDone) && dispatchId == old(dispatchId)
      ensures enqueued == old(enqueued) && dispatched == old(dispatched)
    {
      var waiting := jobsWaiting.value;
      img := waiting[0];
      assert enqueued == dispatched + Items(jobsDone) + waiting;
      PopHead(dispatched + Items(jobsDone), waiting);
      jobsWaiting := Some(waiting[1..]);
      inFlight := Some(img);
    }

    /** The worker's resolution step on the in-flight image; the queues are untouched. */
    method WorkerResolve(outcome: ThumbOutcome)
      requires Valid() && inFlight.Some?
      modifies inFlight.value
      ensures inFlight.value.Snapshot()
           == old(inFlight.value.Snapshot()).(thumbnail := ResolveThumbnail(old(inFlight.value.thumbnail), outcome))
    {
      var img := inFlight.value;
      img.thumbnail := ResolveThumbnail(img.thumbnail, outcome);
    }

    /**
     * The worker's completion step: the image joins the tail of the done
     * queue (created if absent), a dispatch is armed with `callbackId` only
     * if none is, and the worker finishes, dropping the waiting queue,
     * exactly when nothing is waiting.
     */
    method WorkerComplete(callbackId: SourceId) returns (finished: bool)
      requires Valid() && inFlight.Some?
      modifies this
      ensures Valid()
      ensures jobsDone == Some(Items(old(jobsDone)) + [old(inFlight.value)]) && inFlight == None
      ensures dispatchId == (if old(dispatchId) == -1 then callbackId else old(dispatchId))
      ensures finished <==> |old(jobsWaiting.value)| == 0
      ensures finished ==> jobsWaiting == None && !threadRunning
      ensures !finished ==> jobsWaiting == old(jobsWaiting) && threadRunning
      ensures enqueued == old(enqueued) && dispatched == old(dispatched)
    {
      var img := inFlight.value;
      jobsDone := Some(Items(jobsDone) + [img]);
      if dispatchId == -1 {
        dispatchId := callbackId;
      }
      finished := |jobsWaiting.value| == 0;
      if finished {
        jobsWaiting := None;
        threadRunning := false;
      }
      inFlight := None;
      assert Items(jobsDone) == Items(old(jobsDone)) + [img];
    }

    /**
     * `dispatch_image_finished`, run by the main loop while armed: the head
     * of the done queue is handed back with `thumbnail_finished` or
     * `thumbnail_failed` and TRUE keeps the callback; an empty done queue is
     * dropped, the dispatch disarmed and FALSE removes the callback.
     */
    method Dispatch() returns (again: bool)
      requires Valid() && dispatchId != -1
      modifies this, if |jobsDone.value| > 0 then {jobsDone.value[0]} else {}
      ensures Valid()
      ensures again <==> |old(jobsDone.value)| > 0
      ensures again ==>
        var img := old(jobsDone.value[0]);
        jobsDone == Some(old(jobsDone.value[1..])) && dispatchId == old(dispatchId)
        && dispatched == old(dispatched) + [img]
        && img.Snapshot() == old(img.Snapshot()).(signals := old(img.signals) + [Verdict(old(img.thumbnail))])
      ensures !again ==> jobsDone == None && dispatchId == -1 && dispatched == old(dispatched)
      ensures jobsWaiting == old(jobsWaiting) && threadRunning == old(threadRunning) && inFlight == old(inFlight)
      ensures enqueued == old(enqueued)
    {
      if |jobsDone.value| > 0 {
        var img := PopDone();
        img.Emit(Verdict(img.thumbnail));
        again := true;
      } else {
        jobsDone := None;
        dispatchId := -1;
        again := false;
      }
    }

    /** The head of the done queue is popped under the lock and counts as handed back. */
    method PopDone() returns (img: Image)
      requires Valid() && jobsDone.Some? && |jobsDone.value| > 0
      modifies this
      ensures Valid()
      ensures img == old(jobsDone.value[0])
      ensures jobsDone == Some(old(jobsDone.value[1..])) && dispatched == old(dispatched) + [img]
      ensures dispatchId == old(dispatchId) && jobsWaiting == old(jobsWaiting)
      ensures threadRunning == old(threadRunning) && inFlight == old(inFlight) && enqueued == old(enqueued)
    {
      var done := jobsDone.value;
      img := done[0];
      ghost var rest := (if inFlight.Some? then [inFlight.value] else []) + Items(jobsWaiting);
      assert enqueued == dispatched + done + rest;
      PopHead(dispatched, done);
      jobsDone := Some(done[1..]);
      dispatched := dispatched + [img];
    }

    /** `eog_image_load_thumbnail`: queue the image only when it has no thumbnail; report whether it has one. */
    method LoadThumbnail(img: Image) returns (has: bool)
      requires Valid()
      modifies this
      ensures Valid()
      ensures has <==> img.thumbnail.Some?
      ensures has ==> jobsWaiting == old(jobsWaiting) && threadRunning == old(threadRunning)
      ensures !has ==> jobsWaiting == Some(Items(old(jobsWaiting)) + [img]) && threadRunning
      ensures enqueued == old(enqueued) + (if has then [] else [img])
      ensures jobsDone == old(jobsDone) && dispatchId == old(dispatchId) && inFlight == old(inFlight)
      ensures dispatched == old(dispatched)
    {
      if img.thumbnail == None {
        var _ := Enqueue(img);
      }
      has := img.thumbnail != None;
    }

    /** One turn of the worker's loop: pop, resolve, complete. */
    method WorkOne(outcome: ThumbOutcome, callbackId: SourceId) returns (img: Image)
      requires Valid() && threadRunning && inFlight == None
      modifies this, jobsWaiting.value[0]
      ensures Valid() && inFlight == None
      ensures img == old(jobsWaiting.value[0])
      ensures img.Snapshot() == old(img.Snapshot()).(thumbnail := ResolveThumbnail(old(img.thumbnail), outcome))
      ensures jobsDone == Some(Items(old(jobsDone)) + [img])
      ensures dispatchId == (if old(dispatchId) == -1 then callbackId else old(dispatchId))
      ensures |old(jobsWaiting.value)| == 1 ==> jobsWaiting == None && !threadRunning
      ensures |old(jobsWaiting.value)| > 1 ==> jobsWaiting == Some(old(jobsWaiting.value[1..])) && threadRunning
      ensures enqueued == old(enqueued) && dispatched == old(dispatched)
    {
      img := WorkerPop();
      WorkerResolve(outcome);
      var _ := WorkerComplete(callbackId);
    }

    /**
     * The worker thread's loop, run without interleaved enqueues: it pops,
     * resolves (with `outcomes[k]` for the k-th image) and completes until
     * the waiting queue is empty, then stops.
     */
    method RunWorker(outcomes: seq<ThumbOutcome>, callbackId: SourceId)
      requires Valid() && threadRunning && inFlight == None
      requires |outcomes| == |jobsWaiting.value|
      modifies this, set img | img in jobsWaiting.value
      ensures Valid()
      ensures !threadRunning && jobsWaiting == None && inFlight == None
      ensures jobsDone == Some(Items(old(jobsDone)) + old(jobsWaiting.value))
      ensures dispatchId == (if old(dispatchId) == -1 then callbackId else old(dispatchId))
      ensures enqueued == old(enqueued) && dispatched == old(dispatched)
      ensures forall i :: 0 <= i < |old(jobsWaiting.value)| ==>
                ResolvedTo(old(jobsWaiting.value[i]), old(jobsWaiting.value[i].Snapshot()), old(jobsWaiting.value), outcomes)
    {
      ghost var todo := jobsWaiting.value;
      ghost var start := TakeSnapshots(todo);
      ghost var done0 := Items(jobsDone);
      ghost var armed := if dispatchId == -1 then callbackId else dispatchId;
      var k := 0;
      while threadRunning
        invariant Valid() && inFlight == None
        invariant 0 <= k <= |todo|
        invariant threadRunning ==> k < |todo| && jobsWaiting == Some(todo[k..])
        invariant !threadRunning ==> k == |todo| && jobsWaiting == None
        invariant Items(jobsDone) == done0 + todo[..k]
        invariant k == 0 ==> jobsDone == old(jobsDone) && dispatchId == old(dispatchId)
        invariant k > 0 ==> jobsDone.Some? && dispatchId == armed
        invariant enqueued == old(enqueued) && dispatched == old(dispatched)
        invariant forall i {:trigger start[i]} :: 0 <= i < |todo| ==>
                    ResolvedTo(todo[i], start[i], todo[..k], outcomes[..k])
        decreases |todo| - k
      {
        var _ := WorkTurn(todo, start, done0, outcomes, k, callbackId);
        k := k + 1;
      }
      WholePrefix(todo);
      WholePrefix(outcomes);
      forall i | 0 <= i < |todo| ensures ResolvedTo(todo[i], old(todo[i].Snapshot()), todo, outcomes) {
        assert start[i] == old(todo[i].Snapshot());
      }
    }

    /**
     * One turn of the worker loop, `WorkOne` with `outcomes[k]`, together
     * with the record of what the first `k` turns did to each image of
     * `todo`, which is extended by this turn.
     */
    method WorkTurn(ghost todo: seq<Image>, ghost start: seq<Entity>, ghost done0: seq<Image>,
                    outcomes: seq<ThumbOutcome>, k: nat, callbackId: SourceId) returns (img: Image)
      requires Valid() && threadRunning && inFlight == None
      requires k < |todo| && |start| == |todo| && |outcomes| == |todo| && jobsWaiting == Some(todo[k..])
      requires Items(jobsDone) == done0 + todo[..k]
      requires forall i {:trigger start[i]} :: 0 <= i < |todo| ==>
                 ResolvedTo(todo[i], start[i], todo[..k], outcomes[..k])
      modifies this, todo[k]
      ensures Valid() && inFlight == None && img == todo[k]
      ensures jobsDone == Some(done0 + todo[..k + 1])
      ensures dispatchId == (if old(dispatchId) == -1 then callbackId else old(dispatchId))
      ensures k + 1 == |todo| ==> jobsWaiting == None && !threadRunning
      ensures k + 1 < |todo| ==> jobsWaiting == Some(todo[k + 1..]) && threadRunning
      ensures enqueued == old(enqueued) && dispatched == old(dispatched)
      ensures forall i {:trigger start[i]} :: 0 <= i < |todo| ==>
                ResolvedTo(todo[i], start[i], todo[..k + 1], outcomes[..k + 1])
    {
      GrowPrefix(done0, todo, k);
      img := WorkOne(outcomes[k], callbackId);
      forall i | 0 <= i < |todo|
        ensures ResolvedTo(todo[i], start[i], todo[..k + 1], outcomes[..k + 1])
      {
        ResolvedByStep(start[i].thumbnail, todo[i], todo, outcomes, k);
        ResolveOne(start[i], old(todo[i].Snapshot()), todo[i].Snapshot(),
                   ResolvedBy(start[i].thumbnail, todo[i], todo[..k], outcomes[..k]), todo[i] == img, outcomes[k]);
      }
    }

    /**
     * The main loop running the armed dispatch callback until it removes
     * itself: every image in the done queue is handed back, in order.
     */
    method RunDispatch()
      requires Valid() && dispatchId != -1
      modifies this, set img | img in jobsDone.value
      ensures Valid()
      ensures jobsDone == None && dispatchId == -1
      ensures dispatched == old(dispatched) + old(jobsDone.value)
      ensures jobsWaiting == old(jobsWaiting) && threadRunning == old(threadRunning) && inFlight == old(inFlight)
      ensures enqueued == old(enqueued)
      ensures forall i :: 0 <= i < |old(jobsDone.value)| ==>
                HandedBack(old(jobsDone.value[i]), old(jobsDone.value[i].Snapshot()),
                           Occurrences(old(jobsDone.value[i]), old(jobsDone.value)))
    {
      ghost var all := jobsDone.value;
      ghost var start := TakeSnapshots(all);
      var again := true;
      ghost var k := 0;
      while again
        invariant Valid()
        invariant 0 <= k <= |all|
        invariant again <==> dispatchId != -1
        invariant again ==> jobsDone == Some(all[k..])
        invariant !again ==> jobsDone == None && k == |all|
        invariant dispatched == old(dispatched) + all[..k]
        invariant jobsWaiting == old(jobsWaiting) && threadRunning == old(threadRunning) && inFlight == old(inFlight)
        invariant enqueued == old(enqueued)
        invariant forall i {:trigger start[i]} :: 0 <= i < |all| ==> HandedBack(all[i], start[i], Occurrences(all[i], all[..k]))
        decreases |all| - k, again
      {
        again := DispatchTurn(all, start, k);
        if again {
          GrowPrefix(old(dispatched), all, k);
          k := k + 1;
        }
      }
      WholePrefix(all);
      forall i | 0 <= i < |all| ensures HandedBack(all[i], old(all[i].Snapshot()), Occurrences(all[i], all)) {
        assert start[i] == old(all[i].Snapshot());
      }
    }

    /**
     * One run of the armed dispatch callback, `Dispatch`, together with the
     * record of how many verdicts the first `k` runs handed back to each
     * image of `all`, which is extended by this run.
     */
    method DispatchTurn(ghost all: seq<Image>, ghost start: seq<Entity>, ghost k: nat) returns (again: bool)
      requires Valid() && dispatchId != -1
      requires k <= |all| && |start| == |all| && jobsDone == Some(all[k..])
      requires forall i {:trigger start[i]} :: 0 <= i < |all| ==> HandedBack(all[i], start[i], Occurrences(all[i], all[..k]))
      modifies this, if k < |all| then {all[k]} else {}
      ensures Valid()
      ensures again <==> k < |all|
      ensures again ==> jobsDone == Some(all[k + 1..]) && dispatchId == old(dispatchId) && dispatched == old(dispatched) + [all[k]]
      ensures !again ==> jobsDone == None && dispatchId == -1 && dispatched == old(dispatched)
      ensures jobsWaiting == old(jobsWaiting) && threadRunning == old(threadRunning) && inFlight == old(inFlight)
      ensures enqueued == old(enqueued)
      ensures forall i {:trigger start[i]} :: 0 <= i < |all| ==>
                HandedBack(all[i], start[i], Occurrences(all[i], all[..if again then k + 1 else k]))
    {
      assert k < |all| ==> all[k..][0] == all[k] && all[k..][1..] == all[k + 1..];
      again := Dispatch();
      if again {
        forall i | 0 <= i < |all|
          ensures HandedBack(all[i], start[i], Occurrences(all[i], all[..k + 1]))
        {
          OccurrencesStep(all[i], all, k);
          HandBackOne(start[i], old(all[i].Snapshot()), all[i].Snapshot(),
                      Occurrences(all[i], all[..k]), all[i] == all[k]);
        }
      }
    }
  }

  /** Taking the head off the back part of a sequence keeps the whole. */
  lemma PopHead<T>(front: seq<T>, s: seq<T>)
    requires |s| > 0
    ensures front + s == front + [s[0]] + s[1..]
  {
    assert s == [s[0]] + s[1..];
  }

  /** The prefix as long as `s` is `s` itself. */
  lemma WholePrefix<T>(s: seq<T>)
    ensures s[..|s|] == s
  {
  }

  /** One more element of `s` moves onto the prefix taken so far. */
  lemma GrowPrefix<T>(a: seq<T>, s: seq<T>, k: nat)
    requires k < |s|
    ensures a + s[..0] == a
    ensures a + s[..k] + [s[k]] == a + s[..k + 1]
    ensures s[k..][1..] == s[k + 1..] && |s[k..]| == |s| - k
  {
    assert s[..k + 1] == s[..k] + [s[k]];
  }

  /** One turn of the worker, seen from one queued image: resolved if it is the one popped, untouched otherwise. */
  lemma ResolveOne(start: Entity, prev: Entity, now: Entity, t: Option<Pixbuf>, hit: bool, outcome: ThumbOutcome)
    requires prev == start.(thumbnail := t)
    requires hit ==> now == prev.(thumbnail := ResolveThumbnail(prev.thumbnail, outcome))
    requires !hit ==> now == prev
    ensures now == start.(thumbnail := if hit then ResolveThumbnail(t, outcome) else t)
  {
  }

  /** One dispatch, seen from one done image: a verdict appended if it is the one handed back, untouched otherwise. */
  lemma HandBackOne(start: Entity, prev: Entity, now: Entity, n: nat, hit: bool)
    requires prev == start.(signals := start.signals + Repeat(Verdict(start.thumbnail), n))
    requires hit ==> now == prev.(signals := prev.signals + [Verdict(prev.thumbnail)])
    requires !hit ==> now == prev
    ensures now == start.(signals := start.signals + Repeat(Verdict(start.thumbnail), n + if hit then 1 else 0))
  {
    if hit {
      assert start.signals + Repeat(Verdict(start.thumbnail), n) + [Verdict(start.thumbnail)]
          == start.signals + Repeat(Verdict(start.thumbnail), n + 1);
    }
  }

  /** Resolving one more queued image changes only that image's thumbnail. */
  lemma ResolvedByStep(t: Option<Pixbuf>, img: Image, todo: seq<Image>, outcomes: seq<ThumbOutcome>, k: nat)
    requires |outcomes| == |todo| && k < |todo|
    ensures ResolvedBy(t, img, todo[..k + 1], outcomes[..k + 1])
         == if todo[k] == img then ResolveThumbnail(ResolvedBy(t, img, todo[..k], outcomes[..k]), outcomes[k])
            else ResolvedBy(t, img, todo[..k], outcomes[..k])
  {
    assert todo[..k + 1][..k] == todo[..k];
    assert outcomes[..k + 1][..k] == outcomes[..k];
  }

  /** Handing back one more image counts one more occurrence of it. */
  lemma OccurrencesStep(img: Image, s: seq<Image>, k: nat)
    requires k < |s|
    ensures Occurrences(img, s[..k + 1]) == Occurrences(img, s[..k]) + (if s[k] == img then 1 else 0)
  {
    assert s[..k + 1][..k] == s[..k];
  }

  /** The worker leaves the thumbnail of an image it never popped as it was. */
  lemma {:induction false} NeverQueued(t: Option<Pixbuf>, img: Image, todo: seq<Image>, outcomes: seq<ThumbOutcome>)
    requires |outcomes| == |todo| && forall j :: 0 <= j < |todo| ==> todo[j] != img
    ensures ResolvedBy(t, img, todo, outcomes) == t
    decreases |todo|
  {
    if todo != [] {
      NeverQueued(t, img, todo[..|todo| - 1], outcomes[..|todo| - 1]);
    }
  }

  /** An image that is not in the done queue gets no verdict. */
  lemma {:induction false} NeverHandedBack(img: Image, s: seq<Image>)
    requires forall j :: 0 <= j < |s| ==> s[j] != img
    ensures Occurrences(img, s) == 0
    decreases |s|
  {
    if s != [] {
      NeverHandedBack(img, s[..|s| - 1]);
    }
  }

  /** An image queued once is resolved exactly once, with its own outcome. */
  lemma {:induction false} ResolvedOnce(t: Option<Pixbuf>, todo: seq<Image>, outcomes: seq<ThumbOutcome>, i: nat)
    requires |outcomes| == |todo| && i < |todo|
    requires forall j :: 0 <= j < |todo| && j != i ==> todo[j] != todo[i]
    ensures ResolvedBy(t, todo[i], todo, outcomes) == ResolveThumbnail(t, outcomes[i])
    decreases |todo|
  {
    var n := |todo| - 1;
    if i == n {
      NeverQueued(t, todo[i], todo[..n], outcomes[..n]);
    } else {
      ResolvedOnce(t, todo[..n], outcomes[..n], i);
    }
  }

  /** An image queued once is handed back with exactly one verdict. */
  lemma {:induction false} OccursOnce(s: seq<Image>, i: nat)
    requires i < |s|
    requires forall j :: 0 <= j < |s| && j != i ==> s[j] != s[i]
    ensures Occurrences(s[i], s) == 1
    decreases |s|
  {
    var n := |s| - 1;
    if i == n {
      NeverHandedBack(s[i], s[..n]);
    } else {
      OccursOnce(s[..n], i);
    }
  }

  /** Once no worker runs and no dispatch is armed, every queued image has been handed back, in queue order. */
  lemma AllHandedBackWhenIdle(q: ThumbQueue)
    requires q.Valid() && !q.threadRunning && q.dispatchId == -1
    ensures q.dispatched == q.enqueued
  {
  }
}
