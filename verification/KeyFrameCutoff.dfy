/**
 Where OpenMAX::StartStreaming and OpenMAX::VideoEncode stop: both wait for a key-frame boundary
 after the moment they were told to quit, so that no frame is cut in the middle.
 */
module KeyFrameCutoff {
  import opened Bytes

  /**
   An encoded buffer as the loop sees it: its bytes, its OMX_BUFFERFLAG_SYNCFRAME flag, and what
   was read together with it: is_end while streaming, end_time - start_time while recording.
   */
  datatype EncodedBuffer = EncodedBuffer(data: seq<byte>, sync: bool, isEnd: bool, elapsed: int)

  // ---- streaming ----------------------------------------------------------------------------

  /** Buffer d is the one at which the stop is latched: the first that sees is_end. */
  ghost predicate StopLatchedAt(buffers: seq<EncodedBuffer>, d: nat) {
    d < |buffers| && buffers[d].isEnd && forall i :: 0 <= i < d ==> !buffers[i].isEnd
  }

  /** Buffer e is the first after d whose sync flag differs from that of buffer d. */
  ghost predicate FirstSyncChange(buffers: seq<EncodedBuffer>, d: nat, e: nat) {
    && d < e < |buffers| && buffers[e].sync != buffers[d].sync
    && forall i :: d <= i < e ==> buffers[i].sync == buffers[d].sync
  }

  /** The loop leaves at buffer e. */
  ghost predicate StreamEndsAt(buffers: seq<EncodedBuffer>, e: nat) {
    exists d: nat :: StopLatchedAt(buffers, d) && FirstSyncChange(buffers, d, e)
  }

  /** In plain terms: the stream ends at the first sync-flag change after d, the first buffer that sees is_end. */
  lemma StreamEndInPlainTerms(buffers: seq<EncodedBuffer>, d: nat, e: nat)
    requires d < |buffers| && buffers[d].isEnd && forall i :: 0 <= i < d ==> !buffers[i].isEnd
    ensures StreamEndsAt(buffers, e)
       <==> d < e < |buffers| && buffers[e].sync != buffers[d].sync
            && forall i :: d < i < e ==> buffers[i].sync == buffers[d].sync
  {
    assert StopLatchedAt(buffers, d);
    forall x: nat | StopLatchedAt(buffers, x) ensures x == d {
    }
    assert FirstSyncChange(buffers, d, e) ==> StreamEndsAt(buffers, e);
  }

  /** There is at most one such buffer, so the output below is determined. */
  lemma StreamEndIsUnique(buffers: seq<EncodedBuffer>, e1: nat, e2: nat)
    requires StreamEndsAt(buffers, e1) && StreamEndsAt(buffers, e2)
    ensures e1 == e2
  {
    var d1: nat :| StopLatchedAt(buffers, d1) && FirstSyncChange(buffers, d1, e1);
    var d2: nat :| StopLatchedAt(buffers, d2) && FirstSyncChange(buffers, d2, e2);
    assert d1 == d2;
  }

  /**
   The streaming loop over the buffers the encoder completes: everything before the first sync-flag
   change after the latched stop is pushed, nothing from there on.
   */
  method StartStreaming(buffers: seq<EncodedBuffer>) returns (pushed: seq<EncodedBuffer>, ended: bool)
    ensures ended <==> exists e: nat :: StreamEndsAt(buffers, e)
    ensures !ended ==> pushed == buffers
    ensures forall e: nat :: StreamEndsAt(buffers, e) ==> pushed == buffers[..e]
  {
    var quitDetected, quitInKeyFrame := false, false;
    ghost var latch := 0;
    pushed := [];
    for k := 0 to |buffers|
      invariant pushed == buffers[..k]
      invariant !quitDetected ==> forall i :: 0 <= i < k ==> !buffers[i].isEnd
      invariant quitDetected ==> latch < k && StopLatchedAt(buffers, latch) && quitInKeyFrame == buffers[latch].sync
      invariant quitDetected ==> forall i :: latch <= i < k ==> buffers[i].sync == quitInKeyFrame
    {
      if buffers[k].isEnd && !quitDetected {
        quitDetected, quitInKeyFrame := true, buffers[k].sync;
        latch := k;
      }
      if quitDetected && quitInKeyFrame != buffers[k].sync {
        assert StopLatchedAt(buffers, latch) && FirstSyncChange(buffers, latch, k);
        assert StreamEndsAt(buffers, k);
        forall e: nat | StreamEndsAt(buffers, e) ensures e == k {
          StreamEndIsUnique(buffers, e, k);
        }
        return pushed, true;
      }
      pushed := pushed + [buffers[k]];
    }
    ended := false;
    forall d: nat | StopLatchedAt(buffers, d)
      ensures quitDetected && d == latch
    {
    }
  }

  // ---- recording ----------------------------------------------------------------------------

  /** Buffer l is the last before e that was read in the second `recordTime`. */
  ghost predicate LastInSecond(buffers: seq<EncodedBuffer>, recordTime: int, l: nat, e: nat) {
    && l < e <= |buffers| && buffers[l].elapsed == recordTime
    && forall i :: l < i < e ==> buffers[i].elapsed != recordTime
  }

  /** The condition the loop tests at buffer e: it is read in another second and its sync flag differs. */
  ghost predicate RecordingMayEnd(buffers: seq<EncodedBuffer>, recordTime: int, e: nat) {
    && e < |buffers| && buffers[e].elapsed != recordTime
    && exists l: nat :: LastInSecond(buffers, recordTime, l, e) && buffers[e].sync != buffers[l].sync
  }

  ghost predicate RecordingEndsAt(buffers: seq<EncodedBuffer>, recordTime: int, e: nat) {
    && RecordingMayEnd(buffers, recordTime, e)
    && forall i: nat :: i < e ==> !RecordingMayEnd(buffers, recordTime, i)
  }

  /**
   In plain terms: if l is the last buffer before e that was read in the second recordTime, the recording may
   end at e if e is read in another second and has another sync flag.
   */
  lemma RecordingEndInPlainTerms(buffers: seq<EncodedBuffer>, recordTime: int, l: nat, e: nat)
    requires l < e < |buffers| && buffers[l].elapsed == recordTime
    requires forall i :: l < i < e ==> buffers[i].elapsed != recordTime
    ensures RecordingMayEnd(buffers, recordTime, e)
       <==> buffers[e].elapsed != recordTime && buffers[e].sync != buffers[l].sync
  {
    assert LastInSecond(buffers, recordTime, l, e);
    forall x: nat | LastInSecond(buffers, recordTime, x, e) ensures x == l {
    }
  }

  /** The recording loop, for any clock readings. */
  method VideoEncode(buffers: seq<EncodedBuffer>, recordTime: int) returns (written: seq<EncodedBuffer>, ended: bool)
    ensures ended <==> exists e: nat :: RecordingEndsAt(buffers, recordTime, e)
    ensures !ended ==> written == buffers
    ensures forall e: nat :: RecordingEndsAt(buffers, recordTime, e) ==> written == buffers[..e]
  {
    var quitDetected, quitInKeyFrame := false, false;
    ghost var latch := 0;
    written := [];
    for k := 0 to |buffers|
      invariant written == buffers[..k]
      invariant !quitDetected ==> forall i :: 0 <= i < k ==> buffers[i].elapsed != recordTime
      invariant quitDetected ==> LastInSecond(buffers, recordTime, latch, k) && quitInKeyFrame == buffers[latch].sync
      invariant forall i: nat :: i < k ==> !RecordingMayEnd(buffers, recordTime, i)
    {
      if buffers[k].elapsed == recordTime {
        quitDetected, quitInKeyFrame := true, buffers[k].sync;
        latch := k;
      }
      if quitDetected && quitInKeyFrame != buffers[k].sync {
        assert LastInSecond(buffers, recordTime, latch, k);
        assert RecordingEndsAt(buffers, recordTime, k);
        return written, true;
      }
      forall l: nat | LastInSecond(buffers, recordTime, l, k) && buffers[k].elapsed != recordTime
        ensures quitDetected && l == latch
      {
      }
      written := written + [buffers[k]];
    }
    ended := false;
  }

  /** Clock readings that never go back. */
  ghost predicate Nondecreasing(buffers: seq<EncodedBuffer>) {
    forall i, j :: 0 <= i <= j < |buffers| ==> buffers[i].elapsed <= buffers[j].elapsed
  }

  /**
   With a clock that never goes back, the recording ends exactly at the first sync-flag change after
   the last buffer of the second `recordTime`.
   */
  lemma RecordingEndsAfterSecond(buffers: seq<EncodedBuffer>, recordTime: int, l: nat, e: nat)
    requires Nondecreasing(buffers)
    requires LastInSecond(buffers, recordTime, l, |buffers|)
    ensures RecordingEndsAt(buffers, recordTime, e) <==> FirstSyncChange(buffers, l, e)
  {
    forall i: nat
      ensures RecordingMayEnd(buffers, recordTime, i) <==> l < i < |buffers| && buffers[i].sync != buffers[l].sync
    {
      if l < i < |buffers| {
        assert LastInSecond(buffers, recordTime, l, i);
        forall m: nat | LastInSecond(buffers, recordTime, m, i) ensures m == l {
        }
      }
    }
  }

  /**
   The test compares for equality: when no buffer is read in the very second `recordTime`, for
   instance because the encoder stalls through it, the recording never ends.
   */
  lemma SkippedSecondNeverEnds(buffers: seq<EncodedBuffer>, recordTime: int)
    requires forall i :: 0 <= i < |buffers| ==> buffers[i].elapsed != recordTime
    ensures forall e: nat :: !RecordingEndsAt(buffers, recordTime, e)
  {
  }
}
