/** The draw-stream sender: a render thread that publishes frames, a sender thread, and one slot between them. */
module DrLink {
  import opened Bytes

  type Frame = seq<byte>

  datatype Option<T> = None | Some(value: T)

  /** Where the sender thread stands: without a channel, with one it has not announced, in its loop, or on its way
      out of it. */
  datatype Phase = Down | Opened | Running | Broken

  /** Milliseconds since, on a clock that wraps at 32 bits. */
  function Elapsed(now: u32, before: u32): (ms: u32)
    ensures (before + ms) % TWO32 == now
  {
    (now - before) % TWO32
  }

  /**
   * Methods are the atomic steps of the two threads: what each does while it holds the mutex, with
   * one atomic flag, or with state only it touches. Any interleaving is a sequence of such calls.
   */
  class App {
    const keyframeMs: u32
    // render thread only
    var lastSent: Frame
    var lastSentMs: u32
    var skipped: nat
    /** A frame decided on, not yet in the slot. */
    var storing: Option<Frame>
    // shared
    var forceResend: bool
    var pending: Frame
    var hasPending: bool
    var dropped: nat
    var remoteUp: bool
    // sender thread only
    var inFlight: Option<Frame>
    var sent: nat
    ghost var phase: Phase

    /** Frames put in the slot, and sends that failed. */
    ghost var accepted: nat
    ghost var failed: nat
    /** Frames given to publish, and the last of them. */
    ghost var published: nat
    ghost var newest: Frame
    /** The last frame sent to the viewer now attached. */
    ghost var shown: Option<Frame>

    function InSlot(): nat
      reads this
    {
      if hasPending then 1 else 0
    }

    ghost predicate Counted()
      reads this
    {
      && accepted == sent + dropped + InSlot() + (if inFlight.Some? then 1 else 0) + failed
      && published == skipped + accepted + if storing.Some? then 1 else 0
    }

    /** There is a viewer at the far end of the channel. */
    ghost predicate Live()
      reads this
    {
      phase.Opened? || phase.Running?
    }

    /** The newest frame that has got past the slot's door. */
    ghost predicate Leads()
      reads this
    {
      if storing.Some? then storing.value == newest
      else if hasPending then pending == newest
      else if inFlight.Some? then inFlight.value == newest
      else Live() && !forceResend ==> shown == Some(newest)
    }

    ghost predicate Valid()
      reads this
    {
      && Counted()
      && (published > 0 ==> lastSent == newest != [] && Leads())
      && (published == 0 ==> lastSent == [] && accepted == 0 && storing.None? && (Live() ==> forceResend))
      && (hasPending ==> pending != [])
      && (inFlight.Some? ==> inFlight.value != [] && phase.Running?)
      && (remoteUp <==> phase.Running? || phase.Broken?)
      && (Live() && shown.None? ==> forceResend || storing.Some? || hasPending || inFlight.Some?)
    }

    constructor (keyframeMs: u32)
      ensures Valid() && published == 0 && this.keyframeMs == keyframeMs
    {
      this.keyframeMs := keyframeMs;
      lastSent, lastSentMs, skipped, storing := [], 0, 0, None;
      forceResend, pending, hasPending, dropped, remoteUp := false, [], false, 0, false;
      inFlight, sent, phase := None, 0, Down;
      accepted, failed, published, newest, shown := 0, 0, 0, [], None;
    }

    // ----- render thread -----

    /** The first half of publish: take the force flag, and compare with the last frame. */
    method Decide(blob: Frame, nowMs: u32)
      requires Valid() && storing.None?
      modifies `forceResend, `lastSent, `lastSentMs, `skipped, `storing, `published, `newest
      ensures Valid()
      ensures blob == [] ==> unchanged(this)
      ensures blob != [] ==> newest == blob && published == old(published) + 1 && !forceResend
      ensures blob != [] && (old(forceResend) || blob != old(lastSent)) ==> storing == Some(blob)
      // an unchanged frame goes out again once a keyframe is due
      ensures blob != [] && 0 < keyframeMs <= Elapsed(nowMs, old(lastSentMs)) ==> storing == Some(blob)
      ensures blob != [] && storing.None? ==> !old(forceResend) && blob == old(lastSent)
      ensures blob != [] && storing.None? ==> keyframeMs == 0 || Elapsed(nowMs, old(lastSentMs)) < keyframeMs
      ensures blob != [] ==> lastSent == blob && skipped == old(skipped) + if storing.None? then 1 else 0
      ensures blob != [] ==> lastSentMs == if storing.None? then old(lastSentMs) else nowMs
      ensures storing.Some? ==> storing.value == blob
    {
      hide Elapsed;
      if blob == [] {
        return;
      }
      published, newest := published + 1, blob;
      var force := forceResend;
      forceResend := false;
      if !force && keyframeMs != 0 && Elapsed(nowMs, lastSentMs) >= keyframeMs {
        force := true;
      }
      if force {
        lastSent := [];
      } else if blob == lastSent {
        skipped := skipped + 1;
        return;
      }
      lastSent := blob;
      lastSentMs := nowMs;
      storing := Some(blob);
    }

    /** The second half, under the mutex: the slot takes the frame, in place of one still waiting. */
    method Store()
      requires Valid() && storing.Some?
      modifies `storing, `pending, `hasPending, `dropped, `accepted
      ensures Valid() && storing.None? && hasPending && pending == newest && accepted == old(accepted) + 1
      ensures dropped == old(dropped) + old(InSlot())
    {
      if hasPending {
        dropped := dropped + 1;
      }
      pending, hasPending := storing.value, true;
      storing, accepted := None, accepted + 1;
    }

    // ----- sender thread -----

    /** The channel opens with a blank far end: the next frame is wanted whatever it is. */
    method Open()
      requires Valid() && phase.Down?
      modifies `forceResend, `phase, `shown
      ensures Valid() && phase.Opened? && forceResend && shown == None
    {
      forceResend := true;
      phase, shown := Opened, None;
    }

    /** The link is announced; by now the render thread may have taken the force flag. */
    method Announce()
      requires Valid() && phase.Opened?
      modifies `remoteUp, `phase
      ensures Valid() && phase.Running? && remoteUp
    {
      remoteUp, phase := true, Running;
    }

    /** A viewer asks for a full frame; its window is blank. */
    method RequestFullFrame()
      requires Valid() && phase.Running?
      modifies `forceResend, `shown
      ensures Valid() && forceResend && shown == None
    {
      forceResend := true;
      shown := None;
    }

    /** Under the mutex: take the waiting frame, leave the slot empty. */
    method Take()
      requires Valid() && phase.Running? && inFlight.None?
      modifies `pending, `hasPending, `inFlight
      ensures Valid() && !hasPending
      ensures inFlight == if old(hasPending) then Some(old(pending)) else None
    {
      if hasPending {
        inFlight := Some(pending);
        pending, hasPending := [], false;
      }
    }

    /** The send succeeds, or fails and ends the loop; the link flag stays up until the channel is closed. */
    method Send(ok: bool)
      requires Valid() && inFlight.Some?
      modifies `inFlight, `sent, `failed, `phase, `shown
      ensures Valid() && inFlight == None && phase == if ok then Running else Broken
      ensures sent == old(sent) + (if ok then 1 else 0) && failed == old(failed) + if ok then 0 else 1
      ensures shown == if ok then old(inFlight) else old(shown)
    {
      if ok {
        sent, shown := sent + 1, inFlight;
      } else {
        failed, phase := failed + 1, Broken;
      }
      inFlight := None;
    }

    /** The loop is over, after a failed send or because the channel went away. */
    method Close()
      requires Valid() && (phase.Running? || phase.Broken?) && inFlight.None?
      modifies `remoteUp, `phase
      ensures Valid() && phase.Down? && !remoteUp
    {
      remoteUp, phase := false, Down;
    }

    // ----- what every interleaving keeps -----

    /** Every frame the slot took is sent, overtaken, waiting, on its way, or lost to a broken link. */
    lemma Conserved()
      requires Valid()
      ensures accepted == sent + dropped + InSlot() + (if inFlight.Some? then 1 else 0) + failed
      ensures published == skipped + accepted + if storing.Some? then 1 else 0
    {
    }

    /**
     * While the sender is in its loop and nothing is waiting, on its way or asked for, the attached viewer has
     * the last frame the renderer drew, whatever was skipped, overtaken or lost before.
     */
    lemma NeverStranded()
      requires Valid() && phase.Running? && storing.None? && !hasPending && inFlight.None? && !forceResend
      ensures published > 0 && shown == Some(newest)
    {
    }
  }
}
