# Conversation transcription: silent-channel injection and session bookkeeping

This project models, in Dafny, the logic of `Transcription/MainWindow.xaml.cs`
that can be stated without the audio hardware, the speech engine or the UI.
It covers two parts.

* **`AudioExtensions.AddSilentChannel`.** The returned `Select` lambda rewrites
  interleaved PCM audio with C channels of B = BitsPerSample/8 bytes per
  sample into audio with C + 1 channels. After each group of C samples it
  appends one all-zero sample. The lambda keeps a captured scratch array
  (`audioWithExtraChannel`). The scratch array is reallocated only when the
  required length changes, and it is the very array handed back in the
  result.
  * `audio_extensions.dfy` holds three things:
    * the reference function `WithSilentChannel`, an instance of the generic
      `PadGroups`;
    * the total function `AddSilentChannel`, which gives what one call
      returns, with every way the C# code fails;
    * the class `SilentChannelInjector`, whose method `Adapt` runs the three
      nested loops over the scratch array and is proved against those
      functions.
  * The loops are split into one method per loop level: `Interleave`,
    `CopyGroup`, `CopySamples`, `CopySample` and `InjectSilence`.
  * `silent_channel_properties.dfy` proves what the output means:
    * it is the input cut into groups, each followed by a silent sample;
    * dropping the extra channel gives the input back;
    * some worked examples, including what a second pass does;
    * reusing the scratch array makes an earlier result change under its
      holder.
* **Session bookkeeping in `TranscribeConversationsAsync`.**
  * Participants are admitted as `User1`, `User2`, … with locale `en-US`.
  * The `Transcribing`/`Transcribed`/`Canceled`/`SessionStarted`/`SessionStopped`
    handlers decide which lines are written.
  * Those handlers decide when the `stopRecognition` completion source is
    set. That source can be set only once.
  * `transcription.dfy` gives these as follows:
    * a pure `Handle` function per event;
    * a `CompletionSource` class for `TaskCompletionSource<int>`;
    * a `TranscriptionSession` class holding the log and the signal;
    * a `Deliver` method that folds a sequential trace of engine events
      through the handlers.
  * `decimal.dfy` renders the participant counter in decimal and proves that
    rendering injective.

The C# exceptions of the lambda become error values of `AdaptError`. The
lambda raises them at these points:

| error | raised when |
|---|---|
| `DivideByZero` | `Format.Channels` is 0; raised before the scratch array is touched |
| `NeverTerminates` | BitsPerSample < 8 on non-empty data; the outer loop never advances, and this happens after the reallocation |
| `IndexOutOfRange` | the data does not end on a sample-group boundary; raised by the read past the end inside the innermost loop |

Behaviour of the lambda and the handlers worth noting:

* A frame that is not whole sample groups fails with an index-out-of-range
  exception raised part-way through the copy.
* Successive calls of the lambda share the scratch array, so a result
  returned earlier changes when a later frame needing the same array length
  (`len + len / C`, for example the same length and channel count) is
  adapted. A frame needing another length gets a new array, and the earlier
  result keeps its bytes.
* The output format is always labelled 16 bits per sample, whatever the
  input's sample width.
* Of the `Canceled` events, only those with reason `Error` set the
  completion signal; `SessionStopped` sets it too. A cancellation for any
  other reason is only logged.

## Model

| member | source | states |
|---|---|---|
| AudioExtensions.BytesPerSample | Transcription/MainWindow.xaml.cs:194 | bytes per sample is `BitsPerSample / 8` rounded down, so widths below 8 bits give 0 bytes |
| AudioExtensions.AdaptedFormat | Transcription/MainWindow.xaml.cs:217 | the new format has one more channel, the same sample rate, and 16 bits per sample |
| AudioExtensions.PadGroupsLength | Transcription/MainWindow.xaml.cs:200-215 | padding every group of a whole number of groups adds one padding per group to the length |
| AudioExtensions.BytesPerChannel | Transcription/MainWindow.xaml.cs:193-194 | for whole groups, `len / C` equals B bytes for each group of the input |
| AudioExtensions.WithSilentChannel | Transcription/MainWindow.xaml.cs:193-198 | the expected output of whole groups is `len + len / C` bytes long, the size the scratch array is allocated with |
| AudioExtensions.AddSilentChannel | Transcription/MainWindow.xaml.cs:186-220 | one call succeeds exactly when C > 0 and the data is empty or whole groups of C*B bytes with B > 0; on success the format is the adapted one and the length is `len + len / C`; each failure is the exception the C# code raises at that point |
| AudioExtensions.SilentChannelInjector.constructor | Transcription/MainWindow.xaml.cs:188 | the captured array starts out null |
| AudioExtensions.SilentChannelInjector.Adapt | Transcription/MainWindow.xaml.cs:188-219 | succeeds and fails exactly as `AddSilentChannel`; the returned buffer is the scratch array and holds exactly the expected bytes; the array is reused when it already has length `len + len / C` and is freshly allocated otherwise, in which case the replaced array is left untouched; with zero channels the array is left alone |
| AudioExtensions.Interleave | Transcription/MainWindow.xaml.cs:200-215 | the outer loop completes exactly when the data is whole groups; then the whole array equals the expected output; every read and write is in bounds, and i and j advance in lockstep (`j == i + i / C`) |
| AudioExtensions.CopyGroup | Transcription/MainWindow.xaml.cs:202-214 | one iteration of the outer loop fails exactly when fewer than C*B bytes remain; otherwise it appends the group's C*B bytes, then B zeros, after what was already written |
| AudioExtensions.CopySamples | Transcription/MainWindow.xaml.cs:202-208 | the channel loop copies the C samples of a group in order, or stops at the first read past the end of the data |
| AudioExtensions.CopySample | Transcription/MainWindow.xaml.cs:204-207 | the byte loop copies one sample's B bytes in order, or fails when the data ends inside it |
| AudioExtensions.InjectSilence | Transcription/MainWindow.xaml.cs:210-214 | the injection loop writes B zero bytes after what was already written and advances j by B |
| SilentChannelProperties.OneGroup | Transcription/MainWindow.xaml.cs:202-214 | a single group comes out as itself followed by the padding |
| SilentChannelProperties.Concat | Transcription/MainWindow.xaml.cs:200-215 | the transform is applied group by group: on two runs of whole groups it produces the concatenation of their outputs |
| SilentChannelProperties.SplitAt | Transcription/MainWindow.xaml.cs:200-214 | a group starting at a group boundary appears in the output right after the output of everything before it, followed by zeros |
| SilentChannelProperties.GroupLayout | Transcription/MainWindow.xaml.cs:200-214 | for every group g, output bytes [g(C+1)B, g(C+1)B + CB) are input bytes [gCB, (g+1)CB) in order, and the last B bytes of output group g are zero |
| SilentChannelProperties.DropPaddingInverts | Transcription/MainWindow.xaml.cs:200-214 | removing the padding after every group restores the input exactly |
| SilentChannelProperties.DropLastChannelInverts | Transcription/MainWindow.xaml.cs:200-214 | dropping the last sample of every output group restores the input, so no input byte is lost or reordered |
| SilentChannelProperties.TwoChannelExample | Transcription/MainWindow.xaml.cs:186-220 | a 16-bit stereo group A,B,C,D becomes A,B,C,D,0,0 in three channels |
| SilentChannelProperties.AddedChannelLength | Transcription/MainWindow.xaml.cs:193-197 | on 16-bit input the output is whole groups of C + 1 channels, with as many bytes per channel as the input |
| SilentChannelProperties.AdaptTwiceAddsTwoChannels | Transcription/MainWindow.xaml.cs:193-217 | with 16-bit input, adapting the output again succeeds and gives C + 2 channels and `len + 2 * (len / C)` bytes |
| SilentChannelProperties.EightBitInputIsRelabelled | Transcription/MainWindow.xaml.cs:194-217 | 8-bit input is copied with 1-byte samples but labelled 16-bit, so a second pass over the result fails with an index out of range |
| SilentChannelProperties.AdaptTwoFrames | Transcription/MainWindow.xaml.cs:188-218 | after two frames of the same length and channel count, both results share one array, which holds the second frame's output |
| Decimal.NatToString | Transcription/MainWindow.xaml.cs:124 | the counter's text is non-empty, made only of decimal digits, and has no leading zero (a positive counter never starts with `0`) |
| Decimal.ParseNatToString | Transcription/MainWindow.xaml.cs:124 | the decimal text of the counter reads back as the counter |
| Decimal.NatToStringInjective | Transcription/MainWindow.xaml.cs:124 | different counter values are rendered as different texts |
| Transcription.EndsSession | Transcription/MainWindow.xaml.cs:95-118 | `SessionStopped` always ends the session; a `Canceled` event ends it exactly when its reason is `Error`; no other event does |
| Transcription.Handle | Transcription/MainWindow.xaml.cs:78-118 | a handler requests the stop exactly for `SessionStopped` and for `Canceled` with reason `Error`, and exactly when it writes an end-of-session line; only a `Transcribed` result that is neither recognized speech nor no-match writes nothing; `Canceled` writes its reason first, then three more lines (four in all) for `Error` and nothing more otherwise; recognized speech is logged with its text and speaker |
| Transcription.ReplayAppend | Transcription/MainWindow.xaml.cs:78-118 | handling two traces one after the other writes the two logs one after the other |
| Transcription.FirstEndIsFirst | Transcription/MainWindow.xaml.cs:95-118 | the first stop request in a trace is found at an ending event with no ending event before it; none is found exactly when the trace has no ending event |
| Transcription.ReplayAnnounces | Transcription/MainWindow.xaml.cs:95-118 | the log tells the user the session is over exactly when the trace holds an event that ends it |
| Transcription.CompletionSource.constructor | Transcription/MainWindow.xaml.cs:68 | a new completion source is not yet set |
| Transcription.CompletionSource.TrySetResult | Transcription/MainWindow.xaml.cs:104 | setting succeeds exactly when the source was not yet set; afterwards it is set, and a refused attempt keeps the earlier result |
| Transcription.TranscriptionSession.constructor | Transcription/MainWindow.xaml.cs:68 | a session starts with an empty log and an unset signal |
| Transcription.TranscriptionSession.OnEvent | Transcription/MainWindow.xaml.cs:78-118 | one event appends its handler's lines; it sets the signal when it ends the session; it is the one that set it exactly when the signal was unset before; the signal is set exactly when an end-of-session line has been logged, and it only ever holds 0 |
| Transcription.TranscriptionSession.Deliver | Transcription/MainWindow.xaml.cs:78-118 | a trace appends all its handlers' lines in order; afterwards the signal is set exactly when it was set before or the trace holds an ending event; at most one event, the first ending one, sets it |
| Transcription.ParticipantId | Transcription/MainWindow.xaml.cs:124 | an id is `User` followed by text that reads back as the counter value |
| Transcription.ParticipantIdInjective | Transcription/MainWindow.xaml.cs:121-126 | different counter values give different participant ids |
| Transcription.AdmitParticipants | Transcription/MainWindow.xaml.cs:121-126 | one participant per voice signature, in enumeration order; the p-th one gets id `User{p+1}`, locale `en-US` and the p-th signature; all ids are distinct |
| Transcription.TranscribeConversations | Transcription/MainWindow.xaml.cs:60-143 | participants are admitted as above; the log is every handler's lines in event order; the wait ends and `StopTranscribingAsync` is reached exactly when some event ends the session, which is also exactly when the log says so |
| Transcription.ErrorThenStopResolvesOnce | Transcription/MainWindow.xaml.cs:95-118 | an error cancellation followed by a session stop: the first one sets the signal, and both still write all their lines |
| Transcription.OtherCancellationKeepsWaiting | Transcription/MainWindow.xaml.cs:95-106 | a cancellation for a reason other than `Error` writes only its reason and leaves the wait going |

## Left out

* The Microsoft Psi pipeline is not modelled: `Pipeline.Create`, `AudioCapture`, `.Do`, `.Select` and `RunAsync`. Neither are the `PsiStore` writes to disk. These are external capture and persistence I/O. `AddSilentChannel` is modelled as the per-frame lambda it hands to `Select`, and the frames arrive as successive calls of `Adapt`.
* The voice-signature enrollment is not modelled: the HTTP POST, JSON (de)serialisation and the five-second recording delay. These are network I/O and a foreign library; signatures enter the model as strings.
* The speech SDK calls are not modelled. These are `SpeechConfig`, `CreateConversationAsync`, `AddParticipantAsync`, `JoinConversationAsync`, `Start`/`StopTranscribingAsync`, and the push stream with its `Write`. They are remote engine calls. The engine appears only as the trace of events it delivers.
* The push-stream and capture format (16000 Hz, 16 bits, 8 channels) is not modelled. It is only passed to those SDK calls.
* WPF is not modelled: `SetText` through the dispatcher, the button handlers, and enabling and disabling controls. Log lines are modelled as which kind of line is written, with the values it shows, not as formatted text.
* `async`/`await` and the concurrency between capture and engine callbacks are not modelled. Callbacks are delivered one after another as a sequential trace. Each handler runs to completion before the next event.
* Transcription.TranscribeConversations: events are taken as already delivered when the wait is checked. Events that would arrive after `StopTranscribingAsync` are not modelled separately.
* AudioExtensions.SilentChannelInjector.Adapt: the input bytes are taken as a value, so the case where the input's data array is the scratch array itself is not modelled.
* AudioExtensions.SilentChannelInjector.Adapt: on failure, the contract does not say what the scratch array holds. The C# code may leave it partly written.
* AudioExtensions.SilentChannelInjector.Adapt: `AudioBuffer.Length` is taken to equal `Data.Length`.
* AudioExtensions.AddSilentChannel: `NeverTerminates` stands for the C# loop that never ends when BitsPerSample < 8. The model returns an error value instead of diverging.
* Integer widths are not modelled; every integer is unbounded here. The C# code would wrap or misbehave in these cases:
  * `audio.Length + bytesPerChannel` overflows `int` once `len + len / C` exceeds 2^31 - 1, which is about 2^30 bytes of mono input;
  * the `ushort` channel count passed to `Create16BitPcm` wraps when `Channels + 1` exceeds 65535;
  * the `(int)` cast of `SamplesPerSec` wraps for rates of 2^31 or more;
  * the `int` participant counter wraps after 2^31 - 1 participants.
