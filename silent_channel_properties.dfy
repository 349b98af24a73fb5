/** What `AddSilentChannel` promises about its output: it is the input cut into
    sample groups, each followed by one silent sample; every input byte keeps
    its order; dropping the extra channel gives the input back; and what the
    output format allows a second pass to do. */
module SilentChannelProperties {
  import opened Wrappers
  import opened Arith
  import opened AudioExtensions

  /** The sum of two multiples of n is a multiple of n. */
  lemma SumOfMultiples(x: int, y: int, n: int)
    requires n > 0 && x % n == 0 && y % n == 0
    ensures (x + y) % n == 0
  {
    DivAddMultiple(x, n, y / n);
    assert x + n * (y / n) == x + y;
  }

  /** The difference of two multiples of n is a multiple of n. */
  lemma DifferenceOfMultiples(x: int, y: int, n: int)
    requires n > 0 && x % n == 0 && y % n == 0
    ensures (x - y) % n == 0
  {
    assert x - y == (x / n - y / n) * n;
    MultipleMod(x / n - y / n, n);
  }

  /** Where group g of n bytes starts, and that what follows it is still
      whole groups. */
  lemma GroupBounds(len: int, n: int, g: int)
    requires n > 0 && 0 <= len && len % n == 0 && 0 <= g < len / n
    ensures 0 <= g * n && g * n + n <= len
    ensures (g * n) % n == 0 && (g * n) / n == g
  {
    MulMono(0, g, n);
    MulMono(g + 1, len / n, n);
    MultipleMod(g, n);
  }

  /** A single group gets the padding appended. */
  lemma OneGroup(d: seq<byte>, n: nat, padding: nat)
    requires n > 0 && |d| == n
    ensures |d| % n == 0
    ensures PadGroups(d, n, padding) == d + Zeros(padding)
  {
    MultipleMod(1, n);
    assert d[..0] == [];
    assert d[0..] == d;
  }

  /** The transform works group by group: on two runs of whole groups it is
      the concatenation of the two outputs. */
  lemma {:induction false} Concat(a: seq<byte>, b: seq<byte>, n: nat, padding: nat)
    requires n > 0 && |a| % n == 0 && |b| % n == 0
    ensures |a + b| % n == 0
    ensures PadGroups(a + b, n, padding) == PadGroups(a, n, padding) + PadGroups(b, n, padding)
    decreases |b|
  {
    SumOfMultiples(|a|, |b|, n);
    if |b| == 0 {
      assert a + b == a;
    } else {
      LastGroup(|b|, n);
      var b' := b[..|b| - n];
      SumOfMultiples(|a|, |b'|, n);
      var ab := a + b;
      assert ab[..|ab| - n] == a + b';
      assert ab[|ab| - n..] == b[|b| - n..];
      Concat(a, b', n, padding);
    }
  }

  /** Around a group starting at a group boundary i: the output holds the
      group's bytes right after the output of d[..i], then the padding. */
  lemma SplitAt(d: seq<byte>, n: nat, padding: nat, i: nat)
    requires n > 0 && |d| % n == 0 && i % n == 0 && i + n <= |d|
    ensures var o, p := PadGroups(d, n, padding), |PadGroups(d[..i], n, padding)|;
            p + n + padding <= |o| && o[p..p + n] == d[i..i + n] && o[p + n..p + n + padding] == Zeros(padding)
  {
    var before, group, after := d[..i], d[i..i + n], d[i + n..];
    assert d == before + (group + after);
    SumOfMultiples(i, n, n);
    DifferenceOfMultiples(|d|, i + n, n);
    OneGroup(group, n, padding);
    Concat(group, after, n, padding);
    Concat(before, group + after, n, padding);
  }

  /** The output of the first g groups is g padded groups long. */
  lemma PrefixLength(d: seq<byte>, n: nat, padding: nat, g: nat)
    requires n > 0 && |d| % n == 0 && g < |d| / n
    ensures 0 <= g * n && g * n + n <= |d| && (g * n) % n == 0
    ensures 0 <= g * (n + padding) && |PadGroups(d[..g * n], n, padding)| == g * (n + padding)
  {
    GroupBounds(|d|, n, g);
    PadGroupsLength(d[..g * n], n, padding);
    MulMono(0, g, n + padding);
  }

  /** Output group g is input group g followed by a silent sample: bytes
      [g*(C+1)*B, g*(C+1)*B + C*B) are input bytes [g*C*B, (g+1)*C*B) in order,
      and the last B bytes of the output group are zero. */
  lemma GroupLayout(d: seq<byte>, channels: nat, bytesPerSample: nat, g: nat)
    requires channels > 0 && bytesPerSample > 0
    requires |d| % (channels * bytesPerSample) == 0 && g < |d| / (channels * bytesPerSample)
    ensures var n, s := channels * bytesPerSample, (channels + 1) * bytesPerSample;
            var o := WithSilentChannel(d, channels, bytesPerSample);
            0 <= g * n && g * n + n <= |d| && 0 <= g * s && g * s + s <= |o| && s == n + bytesPerSample &&
            o[g * s..g * s + n] == d[g * n..g * n + n] && o[g * s + n..g * s + s] == Zeros(bytesPerSample)
  {
    var n := channels * bytesPerSample;
    assert (channels + 1) * bytesPerSample == n + bytesPerSample;
    PrefixLength(d, n, bytesPerSample, g);
    SplitAt(d, channels * bytesPerSample, bytesPerSample, g * (channels * bytesPerSample));
  }

  /** The inverse transform: keep the first n bytes of every group of
      n + padding, dropping the rest. */
  function DropPadding(o: seq<byte>, n: nat, padding: nat): seq<byte>
    requires n > 0
    decreases |o|
  {
    if |o| < n + padding then []
    else o[..n] + DropPadding(o[n + padding..], n, padding)
  }

  /** Unfolding from the front: the first group, its padding, then the rest. */
  lemma FirstGroup(d: seq<byte>, n: nat, padding: nat)
    requires n > 0 && |d| % n == 0 && |d| > 0
    ensures n <= |d| && |d[n..]| % n == 0
    ensures PadGroups(d, n, padding) == d[..n] + Zeros(padding) + PadGroups(d[n..], n, padding)
  {
    LastGroup(|d|, n);
    assert d == d[..n] + d[n..];
    OneGroup(d[..n], n, padding);
    Concat(d[..n], d[n..], n, padding);
  }

  /** Removing the padding restores the input exactly. */
  lemma {:induction false} DropPaddingInverts(d: seq<byte>, n: nat, padding: nat)
    requires n > 0 && |d| % n == 0
    ensures DropPadding(PadGroups(d, n, padding), n, padding) == d
    decreases |d|
  {
    if |d| > 0 {
      FirstGroup(d, n, padding);
      var o, rest := PadGroups(d, n, padding), PadGroups(d[n..], n, padding);
      assert o[..n] == d[..n];
      assert o[n + padding..] == rest;
      DropPaddingInverts(d[n..], n, padding);
      assert d[..n] + d[n..] == d;
    }
  }

  /** Dropping the last sample of every output group restores the input. */
  lemma DropLastChannelInverts(d: seq<byte>, channels: nat, bytesPerSample: nat)
    requires channels > 0 && bytesPerSample > 0
    requires |d| % (channels * bytesPerSample) == 0
    ensures DropPadding(WithSilentChannel(d, channels, bytesPerSample), channels * bytesPerSample, bytesPerSample) == d
  {
    DropPaddingInverts(d, channels * bytesPerSample, bytesPerSample);
  }

  /** A two-channel 16-bit group A,B,C,D becomes A,B,C,D,0,0 in three channels. */
  lemma TwoChannelExample(rate: nat, a: byte, b: byte, c: byte, d: byte)
    ensures AddSilentChannel(AudioBuffer([a, b, c, d], WaveFormat(rate, 16, 2)))
            == Success(AudioBuffer([a, b, c, d, 0, 0], WaveFormat(rate, 16, 3)))
  {
    var data: seq<byte> := [a, b, c, d];
    assert data[..|data| - 4] == [];
    assert data[|data| - 4..] == data;
    assert WithSilentChannel([], 2, 2) == [];
    assert Zeros(2) == [0, 0];
    assert BytesPerSample(WaveFormat(rate, 16, 2)) == 2;
    assert |data| % (2 * 2) == 0;
    assert WithSilentChannel(data, 2, 2) == [a, b, c, d, 0, 0];
    assert AddSilentChannel(AudioBuffer(data, WaveFormat(rate, 16, 2)))
           == Success(AudioBuffer(WithSilentChannel(data, 2, 2), WaveFormat(rate, 16, 3)));
  }

  /** With 16-bit samples the first output is whole groups of C+1 channels,
      and it has len/C bytes per channel, as many as the input. */
  lemma AddedChannelLength(len: int, c: int)
    requires c > 0 && 0 <= len && len % (c * 2) == 0
    ensures (len + len / c) % ((c + 1) * 2) == 0
    ensures (len + len / c) / (c + 1) == len / c
  {
    var m := len / (c * 2);
    assert len == (m * 2) * c;
    MultipleMod(m * 2, c);
    assert len + m * 2 == (m * 2) * (c + 1);
    MultipleMod(m * 2, c + 1);
    assert len + m * 2 == m * ((c + 1) * 2);
    MultipleMod(m, (c + 1) * 2);
  }

  /** On 16-bit input a second pass adds a second channel: the 16-bit output
      of the first pass is whole groups in its own format. */
  lemma AdaptTwiceAddsTwoChannels(audio: AudioBuffer)
    requires AddSilentChannel(audio).Success? && BytesPerSample(audio.format) == 2
    ensures AddSilentChannel(AddSilentChannel(audio).value).Success?
    ensures AddSilentChannel(AddSilentChannel(audio).value).value.format
            == WaveFormat(audio.format.samplesPerSec, 16, audio.format.channels + 2)
    ensures |AddSilentChannel(AddSilentChannel(audio).value).value.data|
            == |audio.data| + 2 * (|audio.data| / audio.format.channels)
  {
    var c, len := audio.format.channels, |audio.data|;
    AddedChannelLength(len, c);
    var once := AddSilentChannel(audio).value;
    assert |once.data| == len + len / c;
    assert once.format == WaveFormat(audio.format.samplesPerSec, 16, c + 1);
  }

  /** The output format says 16 bits whatever the input said, so 8-bit audio
      comes out relabelled: the 3 output bytes of one 8-bit stereo group are
      not a whole 16-bit three-channel group, and a second pass fails. */
  lemma EightBitInputIsRelabelled(rate: nat, a: byte, b: byte)
    ensures AddSilentChannel(AudioBuffer([a, b], WaveFormat(rate, 8, 2)))
            == Success(AudioBuffer([a, b, 0], WaveFormat(rate, 16, 3)))
    ensures AddSilentChannel(AudioBuffer([a, b, 0], WaveFormat(rate, 16, 3))) == Failure(IndexOutOfRange)
  {
    var data: seq<byte> := [a, b];
    assert data[..|data| - 2] == [];
    assert data[|data| - 2..] == data;
    assert WithSilentChannel([], 2, 1) == [];
    assert Zeros(1) == [0];
    assert BytesPerSample(WaveFormat(rate, 8, 2)) == 1;
    assert |data| % (2 * 1) == 0;
    assert WithSilentChannel(data, 2, 1) == [a, b, 0];
    assert AddSilentChannel(AudioBuffer(data, WaveFormat(rate, 8, 2)))
           == Success(AudioBuffer(WithSilentChannel(data, 2, 1), WaveFormat(rate, 16, 3)));
  }

  /** Two frames of the same length and channel count in a row: the second
      call reuses the scratch array, so the buffer returned for the first
      frame now holds the second frame's output. */
  method AdaptTwoFrames(injector: SilentChannelInjector, first: AudioBuffer, second: AudioBuffer)
    returns (r1: Result<SharedBuffer, AdaptError>, r2: Result<SharedBuffer, AdaptError>)
    requires first.format.channels > 0 && second.format.channels == first.format.channels
    requires |second.data| == |first.data|
    modifies injector, injector.scratch
    ensures r1.Success? && r2.Success? ==>
              r1.value.data == r2.value.data && AddSilentChannel(second).Success? &&
              r1.value.data[..] == AddSilentChannel(second).value.data
  {
    r1 := injector.Adapt(first);
    r2 := injector.Adapt(second);
  }
}
