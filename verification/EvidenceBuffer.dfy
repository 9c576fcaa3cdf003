/** The evidence buffer: a deque of frames under a budget of time and a budget of bytes. */
module EvidenceBuffer {
  import opened Bytes
  import opened Clock

  datatype EvidenceFrame = EvidenceFrame(sequence: nat, time: nat, jpeg: seq<Byte>)

  function Size(frames: seq<EvidenceFrame>): nat {
    if frames == [] then 0 else |frames[0].jpeg| + Size(frames[1..])
  }

  function Span(frames: seq<EvidenceFrame>): nat
    requires frames != []
  {
    Elapsed(frames[|frames| - 1].time, frames[0].time)
  }

  /** Within both budgets. */
  predicate Legal(duration: nat, maximum: nat, frames: seq<EvidenceFrame>) {
    frames == [] || (Span(frames) <= duration && Size(frames) <= maximum)
  }

  function Evicted(duration: nat, maximum: nat, frames: seq<EvidenceFrame>): seq<EvidenceFrame> {
    if Legal(duration, maximum, frames) then frames else Evicted(duration, maximum, frames[1..])
  }

  class Buffer {
    const duration: nat
    const maximum: nat
    var bytes: nat
    var frames: seq<EvidenceFrame>

    predicate Valid()
      reads this
    {
      bytes == Size(frames)
    }

    constructor (duration: nat, maximum: nat)
      ensures Valid() && frames == [] && this.duration == duration && this.maximum == maximum
    {
      this.duration, this.maximum, bytes, frames := duration, maximum, 0, [];
    }

    method Push(frame: EvidenceFrame)
      requires Valid()
      modifies this
      ensures Valid() && frames == Evicted(duration, maximum, old(frames) + [frame])
    {
      SizeAppend(frames, [frame]);
      assert Size([frame]) == |frame.jpeg| + Size([frame][1..]);
      bytes := bytes + |frame.jpeg|;
      frames := frames + [frame];
      while frames != [] && (Elapsed(frames[|frames| - 1].time, frames[0].time) > duration || bytes > maximum)
        invariant Valid()
        invariant Evicted(duration, maximum, frames) == Evicted(duration, maximum, old(frames) + [frame])
        decreases |frames|
      {
        bytes := bytes - |frames[0].jpeg|;
        frames := frames[1..];
      }
    }
  }

  lemma {:induction false} SizeAppend(a: seq<EvidenceFrame>, b: seq<EvidenceFrame>)
    ensures Size(a + b) == Size(a) + Size(b)
  {
    if a == [] {
      assert a + b == b;
    } else {
      assert (a + b)[1..] == a[1..] + b;
      SizeAppend(a[1..], b);
    }
  }

  /** The buffer after a run of pushes. */
  function Run(duration: nat, maximum: nat, pushed: seq<EvidenceFrame>): seq<EvidenceFrame> {
    if pushed == [] then []
    else
      var before := Run(duration, maximum, pushed[..|pushed| - 1]);
      Evicted(duration, maximum, before + [pushed[|pushed| - 1]])
  }

  /** The clock never ran backwards. */
  ghost predicate Forward(frames: seq<EvidenceFrame>) {
    && (forall i :: 0 <= i < |frames| ==> frames[i].time < WRAP)
    && (forall i, j :: 0 <= i < j < |frames| ==> frames[i].time <= frames[j].time)
  }

  /** Of all the suffixes of a list, the one from `k` on is the longest within both budgets. */
  ghost predicate LongestLegal(duration: nat, maximum: nat, frames: seq<EvidenceFrame>, k: nat) {
    && k <= |frames| && Legal(duration, maximum, frames[k..])
    && forall j :: 0 <= j < k ==> !Legal(duration, maximum, frames[j..])
  }

  /** Eviction keeps the longest legal suffix. */
  lemma {:induction false} EvictedIsLongest(duration: nat, maximum: nat, frames: seq<EvidenceFrame>) returns (k: nat)
    ensures LongestLegal(duration, maximum, frames, k) && Evicted(duration, maximum, frames) == frames[k..]
  {
    if Legal(duration, maximum, frames) {
      k := 0;
      assert frames[0..] == frames;
    } else {
      var l := EvictedIsLongest(duration, maximum, frames[1..]);
      k := l + 1;
      assert frames[0..] == frames && frames[1..][l..] == frames[k..];
      forall j | 0 <= j < k ensures !Legal(duration, maximum, frames[j..]) {
        assert j > 0 ==> frames[j..] == frames[1..][j - 1..];
      }
    }
  }

  /** A list that stays legal with one more frame was legal without it. */
  lemma LegalBefore(duration: nat, maximum: nat, frames: seq<EvidenceFrame>, frame: EvidenceFrame)
    requires Forward(frames + [frame]) && Legal(duration, maximum, frames + [frame])
    ensures Legal(duration, maximum, frames)
  {
    if frames != [] {
      var all := frames + [frame];
      SizeAppend(frames, [frame]);
      assert all[0] == frames[0] && all[|frames| - 1] == frames[|frames| - 1] && all[|frames|] == frame;
      ElapsedIsDifference(frame.time, frames[0].time);
      ElapsedIsDifference(frames[|frames| - 1].time, frames[0].time);
    }
  }

  lemma SuffixLegalBefore(duration: nat, maximum: nat, frames: seq<EvidenceFrame>, frame: EvidenceFrame, j: nat)
    requires Forward(frames + [frame]) && j <= |frames| && Legal(duration, maximum, (frames + [frame])[j..])
    ensures Legal(duration, maximum, frames[j..])
  {
    var all := frames + [frame];
    assert all[j..] == frames[j..] + [frame];
    forall i, l | 0 <= i < l < |all[j..]| ensures all[j..][i].time <= all[j..][l].time {
      assert all[j..][i] == all[i + j] && all[j..][l] == all[l + j];
    }
    LegalBefore(duration, maximum, frames[j..], frame);
  }

  /** Pushing onto the longest legal suffix of a list gives that of the longer list. */
  lemma LongestNext(duration: nat, maximum: nat, front: seq<EvidenceFrame>, frame: EvidenceFrame, l: nat, m: nat)
    requires Forward(front + [frame]) && LongestLegal(duration, maximum, front, l)
    requires LongestLegal(duration, maximum, front[l..] + [frame], m)
    ensures LongestLegal(duration, maximum, front + [frame], l + m)
    ensures (front[l..] + [frame])[m..] == (front + [frame])[l + m..]
  {
    var all, kept := front + [frame], front[l..] + [frame];
    assert kept == all[l..] && kept[m..] == all[l + m..];
    forall j | 0 <= j < l + m ensures !Legal(duration, maximum, all[j..]) {
      if j < l {
        if Legal(duration, maximum, all[j..]) {
          SuffixLegalBefore(duration, maximum, front, frame, j);
        }
      } else {
        assert all[j..] == kept[j - l..];
      }
    }
  }

  lemma PushKeepsLongest(duration: nat, maximum: nat, front: seq<EvidenceFrame>, frame: EvidenceFrame, l: nat)
      returns (k: nat)
    requires Forward(front + [frame]) && LongestLegal(duration, maximum, front, l)
    ensures LongestLegal(duration, maximum, front + [frame], k)
    ensures Evicted(duration, maximum, front[l..] + [frame]) == (front + [frame])[k..]
  {
    var m := EvictedIsLongest(duration, maximum, front[l..] + [frame]);
    LongestNext(duration, maximum, front, frame, l, m);
    k := l + m;
  }

  lemma ForwardBefore(frames: seq<EvidenceFrame>)
    requires frames != [] && Forward(frames)
    ensures Forward(frames[..|frames| - 1]) && frames[..|frames| - 1] + [frames[|frames| - 1]] == frames
  {
  }

  /** After any run of pushes with a clock that never ran backwards, the buffer is the longest suffix
      of everything pushed that meets both budgets. */
  lemma {:induction false} BufferIsLongestSuffix(duration: nat, maximum: nat, pushed: seq<EvidenceFrame>)
      returns (k: nat)
    requires Forward(pushed)
    ensures LongestLegal(duration, maximum, pushed, k) && Run(duration, maximum, pushed) == pushed[k..]
  {
    if pushed == [] {
      k := 0;
    } else {
      var front, frame := pushed[..|pushed| - 1], pushed[|pushed| - 1];
      ForwardBefore(pushed);
      var l := BufferIsLongestSuffix(duration, maximum, front);
      k := PushKeepsLongest(duration, maximum, front, frame, l);
    }
  }

  /** A frame that alone exceeds the byte budget empties the buffer, itself included. */
  lemma OversizedFrameEmpties(duration: nat, maximum: nat, pushed: seq<EvidenceFrame>, frame: EvidenceFrame)
    requires Forward(pushed + [frame])
    ensures Run(duration, maximum, pushed + [frame]) == [] <==> |frame.jpeg| > maximum
  {
    var all := pushed + [frame];
    var k := BufferIsLongestSuffix(duration, maximum, all);
    assert all[|pushed|..] == [frame];
    assert Size([frame]) == |frame.jpeg| + Size([frame][1..]);
    if k < |all| {
      SizeAppend(all[k..|pushed|], [frame]);
      assert all[k..] == all[k..|pushed|] + [frame];
    }
  }
}
