/**
 The conversion of minute:second:frame positions of a compact disc into byte indices
 (msf_to_byte in bashrc.d/51-regular-user.bash).
 */
module MsfToByte {
  import opened Wrappers

  datatype Msf = Msf(minutes: nat, seconds: nat, frames: nat)

  datatype Error = BitrateNotBytes | RateNotFrames

  const FRAMES_PER_SECOND: nat := 75

  predicate Proper(p: Msf) {
    p.seconds < 60 && p.frames < FRAMES_PER_SECOND
  }

  /** The position in frames. */
  function Frames(p: Msf): nat {
    (p.minutes * 60 + p.seconds) * FRAMES_PER_SECOND + p.frames
  }

  predicate Before(p: Msf, q: Msf) {
    || p.minutes < q.minutes
    || (p.minutes == q.minutes && p.seconds < q.seconds)
    || (p.minutes == q.minutes && p.seconds == q.seconds && p.frames < q.frames)
  }

  /** The bytes of one frame, for a validated rate and sample width. */
  function FrameBytes(sampleRate: nat, bitrate: nat, channels: nat): nat {
    sampleRate / FRAMES_PER_SECOND * (bitrate / 8 * channels)
  }

  /** Every position is a whole number of frames from the start, whatever its parts. */
  method Convert(sampleRate: nat, bitrate: nat, channels: nat, values: seq<Msf>)
    returns (r: Result<seq<nat>, Error>)
    ensures r.Ok? <==> bitrate % 8 == 0 && sampleRate % FRAMES_PER_SECOND == 0
    ensures r.Err? ==> r.error == if bitrate % 8 != 0 then BitrateNotBytes else RateNotFrames
    ensures r.Ok? ==> |r.value| == |values|
    ensures r.Ok? ==> forall i | 0 <= i < |values| ::
      r.value[i] == Frames(values[i]) * FrameBytes(sampleRate, bitrate, channels)
    ensures r.Ok? && sampleRate > 0 && bitrate > 0 && channels > 0 ==>
      Faithful(values, r.value, FrameBytes(sampleRate, bitrate, channels))
  {
    if bitrate % 8 != 0 {
      return Err(BitrateNotBytes);
    }
    if sampleRate % FRAMES_PER_SECOND != 0 {
      return Err(RateNotFrames);
    }
    var sampleBytes := bitrate / 8 * channels;
    var frameSamples := sampleRate / FRAMES_PER_SECOND;
    var out: seq<nat> := [];
    for i := 0 to |values|
      invariant |out| == i
      invariant forall k | 0 <= k < i :: out[k] == Frames(values[k]) * FrameBytes(sampleRate, bitrate, channels)
    {
      var v := values[i];
      var samples := (v.minutes * 60 + v.seconds) * sampleRate + v.frames * frameSamples;
      SamplesAreFrames(v, sampleRate);
      Reassociate(Frames(v), frameSamples, sampleBytes);
      out := out + [samples * sampleBytes];
    }
    FrameBytesPositive(sampleRate, bitrate, channels);
    if sampleRate > 0 && bitrate > 0 && channels > 0 {
      IndicesFaithful(values, out, FrameBytes(sampleRate, bitrate, channels));
    }
    return Ok(out);
  }

  lemma SamplesAreFrames(v: Msf, sampleRate: nat)
    requires sampleRate % FRAMES_PER_SECOND == 0
    ensures (v.minutes * 60 + v.seconds) * sampleRate + v.frames * (sampleRate / FRAMES_PER_SECOND)
         == Frames(v) * (sampleRate / FRAMES_PER_SECOND)
  {
    var n, whole := sampleRate / FRAMES_PER_SECOND, v.minutes * 60 + v.seconds;
    assert sampleRate == FRAMES_PER_SECOND * n;
    assert whole * (FRAMES_PER_SECOND * n) == whole * FRAMES_PER_SECOND * n;
    assert (whole * FRAMES_PER_SECOND + v.frames) * n == whole * FRAMES_PER_SECOND * n + v.frames * n;
  }

  lemma Reassociate(a: nat, b: nat, c: nat)
    ensures a * b * c == a * (b * c)
  {
  }

  lemma FramesOrdered(p: Msf, q: Msf)
    requires Proper(p) && Proper(q)
    ensures Before(p, q) <==> Frames(p) < Frames(q)
  {
  }

  /** Byte indices are ordered as the positions are, and never closer than one frame. */
  lemma {:induction false} IndicesOrdered(p: Msf, q: Msf, frameBytes: nat)
    requires Proper(p) && Proper(q) && frameBytes > 0
    ensures Before(p, q) <==> Frames(p) * frameBytes < Frames(q) * frameBytes
    ensures Before(p, q) ==> Frames(p) * frameBytes + frameBytes <= Frames(q) * frameBytes
  {
    FramesOrdered(p, q);
    MultiplesApart(Frames(p), Frames(q), frameBytes);
    MultiplesApart(Frames(q), Frames(p), frameBytes);
  }

  lemma {:induction false} MultiplesApart(a: nat, b: nat, d: nat)
    ensures a < b ==> a * d + d <= b * d
    decreases b
  {
    if a < b {
      MultiplesApart(a, b - 1, d);
      assert b * d == (b - 1) * d + d;
    }
  }

  /** The position a byte index lies in. */
  function PositionOf(index: nat, frameBytes: nat): Msf
    requires frameBytes > 0
  {
    var f := index / frameBytes;
    Msf(f / (60 * FRAMES_PER_SECOND), f / FRAMES_PER_SECOND % 60, f % FRAMES_PER_SECOND)
  }

  /** Division takes every byte of a frame, and no other, back to the frame's position. */
  lemma {:induction false} PositionExactly(index: nat, p: Msf, frameBytes: nat)
    requires Proper(p) && frameBytes > 0
    ensures PositionOf(index, frameBytes) == p
       <==> Frames(p) * frameBytes <= index < Frames(p) * frameBytes + frameBytes
  {
    var f := index / frameBytes;
    assert f / FRAMES_PER_SECOND / 60 == f / (60 * FRAMES_PER_SECOND);
    assert PositionOf(index, frameBytes) == p <==> f == Frames(p);
    DivideExactly(index, Frames(p), frameBytes);
  }

  lemma {:induction false} DivideExactly(x: nat, q: nat, d: nat)
    requires d > 0
    ensures x / d == q <==> q * d <= x < q * d + d
  {
    var e := x / d;
    assert x == e * d + x % d;
    MultiplesApart(e, q, d);
    MultiplesApart(q, e, d);
  }

  /** A frame holds any bytes at all exactly for a second's worth of frames, a whole byte and a channel. */
  lemma FrameBytesPositive(sampleRate: nat, bitrate: nat, channels: nat)
    ensures FrameBytes(sampleRate, bitrate, channels) > 0
       <==> sampleRate >= FRAMES_PER_SECOND && bitrate >= 8 && channels >= 1
  {
    var samples, bytes := sampleRate / FRAMES_PER_SECOND, bitrate / 8;
    ProductPositive(bytes, channels);
    ProductPositive(samples, bytes * channels);
  }

  lemma ProductPositive(a: nat, b: nat)
    ensures a * b > 0 <==> a > 0 && b > 0
  {
  }

  /** The indices are ordered as the positions, and every position can be read back from its index. */
  ghost predicate Faithful(values: seq<Msf>, indices: seq<nat>, frameBytes: nat)
    requires |values| == |indices| && frameBytes > 0
  {
    && (forall i | 0 <= i < |values| && Proper(values[i]) :: PositionOf(indices[i], frameBytes) == values[i])
    && (forall i, j | 0 <= i < |values| && 0 <= j < |values| && Proper(values[i]) && Proper(values[j]) ::
          Before(values[i], values[j]) <==> indices[i] < indices[j])
  }

  lemma {:induction false} IndicesFaithful(values: seq<Msf>, indices: seq<nat>, frameBytes: nat)
    requires |values| == |indices| && frameBytes > 0
    requires forall i | 0 <= i < |values| :: indices[i] == Frames(values[i]) * frameBytes
    ensures Faithful(values, indices, frameBytes)
  {
    forall i | 0 <= i < |values| && Proper(values[i])
      ensures PositionOf(indices[i], frameBytes) == values[i]
    {
      PositionExactly(indices[i], values[i], frameBytes);
    }
    forall i, j | 0 <= i < |values| && 0 <= j < |values| && Proper(values[i]) && Proper(values[j])
      ensures Before(values[i], values[j]) <==> indices[i] < indices[j]
    {
      IndicesOrdered(values[i], values[j], frameBytes);
    }
  }

  /** For accepted parameters, the 75 frames of a second hold its samples of all channels. */
  lemma SecondBytes(sampleRate: nat, bitrate: nat, channels: nat)
    requires bitrate % 8 == 0 && sampleRate % 75 == 0
    ensures 8 * (75 * FrameBytes(sampleRate, bitrate, channels)) == sampleRate * bitrate * channels
  {
    var samples, bytes := sampleRate / 75, bitrate / 8;
    assert sampleRate == 75 * samples && bitrate == 8 * bytes;
    assert sampleRate * bitrate * channels == 75 * samples * (8 * bytes) * channels;
    assert 75 * samples * (8 * bytes) * channels == 8 * (75 * (samples * (bytes * channels)));
  }
}
