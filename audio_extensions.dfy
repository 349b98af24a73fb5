/** `AudioExtensions.AddSilentChannel`: rewrite interleaved PCM audio with C
    channels into audio with C + 1 channels by appending one all-zero sample
    after every sample group. */
module AudioExtensions {
  import opened Wrappers
  import opened Arith

  newtype byte = x: int | 0 <= x < 256

  /** The fields of a PCM wave format that the transform reads or writes. */
  datatype WaveFormat = WaveFormat(samplesPerSec: nat, bitsPerSample: nat, channels: nat)

  /** An audio buffer as a value: its bytes and the format describing them. */
  datatype AudioBuffer = AudioBuffer(data: seq<byte>, format: WaveFormat)

  /** A buffer returned by the transform: its data is the transform's scratch array. */
  datatype SharedBuffer = SharedBuffer(data: array<byte>, format: WaveFormat)

  /** The exceptions the C# lambda raises (or, for NeverTerminates, the loop it never leaves). */
  datatype AdaptError =
    | DivideByZero       // Format.Channels == 0
    | NeverTerminates    // fewer than 8 bits per sample on non-empty data: i never advances
    | IndexOutOfRange    // the data does not end on a sample-group boundary

  /** `BitsPerSample / 8`, rounded down: whole bytes only. */
  function BytesPerSample(f: WaveFormat): (b: nat)
    ensures 8 * b <= f.bitsPerSample < 8 * b + 8
  {
    f.bitsPerSample / 8
  }

  /** `WaveFormat.Create16BitPcm(SamplesPerSec, Channels + 1)`. */
  function AdaptedFormat(f: WaveFormat): (g: WaveFormat)
    ensures g.channels == f.channels + 1
    ensures g.samplesPerSec == f.samplesPerSec && g.bitsPerSample == 16
  {
    WaveFormat(f.samplesPerSec, 16, f.channels + 1)
  }

  function Zeros(n: nat): (z: seq<byte>)
    ensures |z| == n && forall k :: 0 <= k < |z| ==> z[k] == 0
  {
    seq(n, _ => 0)
  }

  /** Reference definition of the output, for whole groups of `groupSize`
      bytes: the groups before the last one, then the last group, then
      `padding` zero bytes. */
  function PadGroups(data: seq<byte>, groupSize: nat, padding: nat): seq<byte>
    requires groupSize > 0 && |data| % groupSize == 0
    decreases |data|
  {
    if |data| == 0 then []
    else
      LastGroup(|data|, groupSize);
      PadGroups(data[..|data| - groupSize], groupSize, padding) + data[|data| - groupSize..] + Zeros(padding)
  }

  /** Every group grows by the padding. */
  lemma {:induction false} PadGroupsLength(data: seq<byte>, groupSize: nat, padding: nat)
    requires groupSize > 0 && |data| % groupSize == 0
    ensures |PadGroups(data, groupSize, padding)| == |data| + (|data| / groupSize) * padding
    decreases |data|
  {
    if |data| > 0 {
      LastGroup(|data|, groupSize);
      PadGroupsLength(data[..|data| - groupSize], groupSize, padding);
      var q := (|data| - groupSize) / groupSize;
      DivAddMultiple(|data| - groupSize, groupSize, 1);
      assert |data| / groupSize == q + 1;
      assert (q + 1) * padding == q * padding + padding;
    }
  }

  /** The output for whole sample groups: one silent sample of
      `bytesPerSample` zero bytes after every group of `channels` samples. */
  function WithSilentChannel(data: seq<byte>, channels: nat, bytesPerSample: nat): (r: seq<byte>)
    requires channels > 0 && bytesPerSample > 0
    requires |data| % (channels * bytesPerSample) == 0
    ensures |r| == |data| + |data| / channels
  {
    BytesPerChannel(|data|, channels, bytesPerSample);
    PadGroupsLength(data, channels * bytesPerSample, bytesPerSample);
    PadGroups(data, channels * bytesPerSample, bytesPerSample)
  }

  /** For whole groups, len / C bytes per channel is B bytes per group. */
  lemma BytesPerChannel(len: int, channels: int, bytesPerSample: int)
    requires channels > 0 && bytesPerSample > 0 && len % (channels * bytesPerSample) == 0
    ensures (len / (channels * bytesPerSample)) * bytesPerSample == len / channels
  {
    var m := len / (channels * bytesPerSample);
    assert len == (m * bytesPerSample) * channels;
    MultipleMod(m * bytesPerSample, channels);
  }

  /** A non-empty whole number of groups holds at least one group, and dropping it leaves whole groups. */
  lemma LastGroup(len: int, n: int)
    requires n > 0 && len > 0 && len % n == 0
    ensures len >= n && (len - n) % n == 0
  {
    if len < n {
      DivModUnique(len, n, 0, len);
      assert false;
    }
    DivModUnique(len - n, n, len / n - 1, 0);
  }

  /** What one call of the lambda returns for `audio`, errors included. */
  function AddSilentChannel(audio: AudioBuffer): (r: Result<AudioBuffer, AdaptError>)
    ensures r.Success? <==>
              audio.format.channels > 0 &&
              (|audio.data| == 0 ||
               (BytesPerSample(audio.format) > 0 &&
                |audio.data| % (audio.format.channels * BytesPerSample(audio.format)) == 0))
    ensures r.Success? ==> r.value.format == AdaptedFormat(audio.format)
    ensures r.Success? ==> |r.value.data| == |audio.data| + |audio.data| / audio.format.channels
    ensures r.Failure? && audio.format.channels == 0 ==> r.error == DivideByZero
    ensures r.Failure? && audio.format.channels > 0 && BytesPerSample(audio.format) == 0 ==> r.error == NeverTerminates
    ensures r.Failure? && audio.format.channels > 0 && BytesPerSample(audio.format) > 0 ==> r.error == IndexOutOfRange
  {
    var c := audio.format.channels;
    var b := BytesPerSample(audio.format);
    if c == 0 then Failure(DivideByZero)
    else if b == 0 then
      if |audio.data| == 0 then Success(AudioBuffer([], AdaptedFormat(audio.format)))
      else Failure(NeverTerminates)
    else if |audio.data| % (c * b) != 0 then Failure(IndexOutOfRange)
    else Success(AudioBuffer(WithSilentChannel(audio.data, c, b), AdaptedFormat(audio.format)))
  }

  /** The state of the closure returned by `AddSilentChannel`: the captured
      `audioWithExtraChannel` array, null until the first frame arrives. */
  class SilentChannelInjector {
    var scratch: array?<byte>

    constructor ()
      ensures scratch == null
    {
      scratch := null;
    }

    /** One invocation of the `Select` lambda on `audio`. The scratch array
        is reallocated exactly when it is null or of the wrong length, and the
        returned buffer shares it. */
    method Adapt(audio: AudioBuffer) returns (r: Result<SharedBuffer, AdaptError>)
      modifies this, scratch
      ensures r.Success? <==> AddSilentChannel(audio).Success?
      ensures r.Failure? ==> r.error == AddSilentChannel(audio).error
      ensures r.Success? ==> r.value.data == scratch
      ensures r.Success? ==> r.value.data[..] == AddSilentChannel(audio).value.data
      ensures r.Success? ==> r.value.format == AddSilentChannel(audio).value.format
      ensures audio.format.channels == 0 ==> scratch == old(scratch)
      ensures audio.format.channels == 0 && scratch != null ==> unchanged(scratch)
      ensures old(scratch) != null && scratch != old(scratch) ==> unchanged(old(scratch))
      ensures audio.format.channels > 0 ==>
                scratch != null &&
                scratch.Length == |audio.data| + |audio.data| / audio.format.channels
      ensures audio.format.channels > 0 && old(scratch) != null &&
              old(scratch).Length == |audio.data| + |audio.data| / audio.format.channels ==>
                scratch == old(scratch)
      ensures audio.format.channels > 0 &&
              (old(scratch) == null || old(scratch).Length != |audio.data| + |audio.data| / audio.format.channels) ==>
                fresh(scratch)
    {
      var channels := audio.format.channels;
      if channels == 0 {
        return Failure(DivideByZero);
      }
      var len := |audio.data|;
      var bytesPerChannel := len / channels;
      var bytesPerSample := audio.format.bitsPerSample / 8;
      if scratch == null || scratch.Length != len + bytesPerChannel {
        scratch := new byte[len + bytesPerChannel];
      }
      var buf := scratch;
      if bytesPerSample == 0 {
        // Every inner loop is empty, so a non-empty buffer is never consumed.
        if len > 0 {
          return Failure(NeverTerminates);
        }
        return Success(SharedBuffer(buf, AdaptedFormat(audio.format)));
      }

      var inRange := Interleave(buf, audio.data, channels, bytesPerSample);
      if !inRange {
        return Failure(IndexOutOfRange);
      }
      return Success(SharedBuffer(buf, AdaptedFormat(audio.format)));
    }
  }

  /** The loop nest of the lambda: walk the input group by group, copying
      each group and appending a silent sample, until the input is consumed
      or a read runs past its end (`inRange` false). */
  method Interleave(buf: array<byte>, data: seq<byte>, channels: nat, bytesPerSample: nat)
    returns (inRange: bool)
    requires channels > 0 && bytesPerSample > 0
    requires buf.Length == |data| + |data| / channels
    modifies buf
    ensures inRange <==> |data| % (channels * bytesPerSample) == 0
    ensures inRange ==> buf[..] == WithSilentChannel(data, channels, bytesPerSample)
  {
    var len := |data|;
    var i, j := 0, 0;
    while i < len
      invariant i <= len && i % (channels * bytesPerSample) == 0
      invariant i <= j <= buf.Length && j == i + i / channels
      invariant buf[..j] == WithSilentChannel(data[..i], channels, bytesPerSample)
      decreases len - i
    {
      ghost var start := i;
      ghost var n := channels * bytesPerSample;
      DivMono(start, len, channels);
      assert j - i <= buf.Length - len;
      DivAddMultiple(start, channels, bytesPerSample);
      DivAddMultiple(start, n, 1);
      assert (start + n) / channels == j - i + bytesPerSample;
      if start + n <= len {
        DivMono(start + n, len, channels);
        assert j + n + bytesPerSample <= buf.Length;
      }
      var whole;
      i, j, whole := CopyGroup(buf, data, channels, bytesPerSample, i, j);
      if !whole {
        StrictlyBetweenMultiples(len, start, channels * bytesPerSample);
        return false;
      }
      ghost var prefix := data[..i];
      assert prefix[..|prefix| - channels * bytesPerSample] == data[..start];
      assert prefix[|prefix| - channels * bytesPerSample..] == data[start..i];
    }
    assert data[..i] == data;
    assert buf[..] == buf[..j];
    return true;
  }

  /** One pass of the outer loop body: copy the `channels` samples of the
      group starting at input index `i0` to output index `j0` of `buf`, then
      write one silent sample. When the input ends inside the group, the copy
      stops at the read that would run past the end and `inRange` is false. */
  method CopyGroup(buf: array<byte>, data: seq<byte>, channels: nat, bytesPerSample: nat, i0: nat, j0: nat)
    returns (i: nat, j: nat, inRange: bool)
    requires channels > 0 && bytesPerSample > 0
    requires i0 < |data| && i0 <= j0 <= buf.Length && j0 - i0 <= buf.Length - |data|
    requires i0 + channels * bytesPerSample <= |data| ==>
               j0 + channels * bytesPerSample + bytesPerSample <= buf.Length
    modifies buf
    ensures inRange <==> i0 + channels * bytesPerSample <= |data|
    ensures inRange ==> i == i0 + channels * bytesPerSample && j == j0 + channels * bytesPerSample + bytesPerSample
    ensures inRange ==> buf[..j] == old(buf[..j0]) + data[i0..i] + Zeros(bytesPerSample)
  {
    i, j, inRange := CopySamples(buf, data, channels, bytesPerSample, i0, j0);
    if inRange {
      j := InjectSilence(buf, bytesPerSample, j);
    }
  }

  /** The loop over channels `k`: copy one group's bytes in order, with the
      read index `i` and write index `j` advancing together. */
  method CopySamples(buf: array<byte>, data: seq<byte>, channels: nat, bytesPerSample: nat, i0: nat, j0: nat)
    returns (i: nat, j: nat, inRange: bool)
    requires channels > 0 && bytesPerSample > 0
    requires i0 < |data| && i0 <= j0 <= buf.Length && j0 - i0 <= buf.Length - |data|
    modifies buf
    ensures inRange <==> i0 + channels * bytesPerSample <= |data|
    ensures inRange ==> i == i0 + channels * bytesPerSample && j == j0 + channels * bytesPerSample
    ensures inRange ==> j <= buf.Length && buf[..j] == old(buf[..j0]) + data[i0..i]
  {
    ghost var done := buf[..j0];
    i, j := i0, j0;
    for k := 0 to channels
      invariant i0 <= i <= |data| && i - i0 == k * bytesPerSample
      invariant j - i == j0 - i0
      invariant buf[..j] == done + data[i0..i]
    {
      OffsetInGroup(k, bytesPerSample - 1, channels, bytesPerSample);
      ghost var i1 := i;
      i, j, inRange := CopySample(buf, data, bytesPerSample, i, j);
      if !inRange {
        return;
      }
      assert data[i0..i] == data[i0..i1] + data[i1..i];
    }
    inRange := true;
  }

  /** The loop over bytes `l`: copy one sample, `bytesPerSample` bytes, from
      input index `i0` to output index `j0`, stopping at the first read past
      the end of the input. */
  method CopySample(buf: array<byte>, data: seq<byte>, bytesPerSample: nat, i0: nat, j0: nat)
    returns (i: nat, j: nat, inRange: bool)
    requires i0 <= |data| && i0 <= j0 <= buf.Length && j0 - i0 <= buf.Length - |data|
    modifies buf
    ensures inRange <==> i0 + bytesPerSample <= |data|
    ensures inRange ==> i == i0 + bytesPerSample && j == j0 + bytesPerSample
    ensures inRange ==> buf[..j] == old(buf[..j0]) + data[i0..i]
  {
    ghost var done := buf[..j0];
    i, j := i0, j0;
    for l := 0 to bytesPerSample
      invariant i0 <= i <= |data| && i == i0 + l
      invariant j - i == j0 - i0
      invariant buf[..j] == done + data[i0..i]
    {
      if i >= |data| {
        // C# reads past the end of audio.Data: the data ends mid-group.
        return i, j, false;
      }
      buf[j] := data[i];
      i, j := i + 1, j + 1;
      assert buf[..j] == buf[..j - 1] + [data[i - 1]];
      assert data[i0..i] == data[i0..i - 1] + [data[i - 1]];
    }
    inRange := true;
  }

  /** Inject the silent sample: `bytesPerSample` zero bytes from index `j0` on. */
  method InjectSilence(buf: array<byte>, bytesPerSample: nat, j0: nat) returns (j: nat)
    requires j0 + bytesPerSample <= buf.Length
    modifies buf
    ensures j == j0 + bytesPerSample
    ensures buf[..j] == old(buf[..j0]) + Zeros(bytesPerSample)
  {
    ghost var done := buf[..j0];
    j := j0;
    for l := 0 to bytesPerSample
      invariant j == j0 + l
      invariant buf[..j] == done + Zeros(l)
    {
      buf[j] := 0;
      j := j + 1;
      assert buf[..j] == buf[..j - 1] + [0];
      assert Zeros(l + 1) == Zeros(l) + [0];
    }
  }
}
