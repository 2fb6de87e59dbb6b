# Voice assistant core, modelled in Dafny

This project models the logic of the BioMedics voice assistant and its text
chat service:

- the audio helpers of `components/VoiceAssistant.tsx` — the Base64 transport
  text of PCM audio (`encodeBase64`/`decodeBase64` over `btoa`/`atob`), the
  reading of received bytes as 16-bit samples (`decodeAudioData`), and the
  conversion of captured samples to 16-bit PCM in `onaudioprocess`;
- the playback scheduler of the `onmessage` handler: a cursor on the output
  clock, a set of active audio sources, chunk scheduling, source end and
  interruption;
- the call lifecycle: `startCall`, `stopCall`, the `onopen`/`onerror`/`onclose`
  callbacks and the call button;
- `GeminiService.sendMessage` of `services/geminiService.ts`: history
  trimming, request construction and the mapping of failures to replies.

Everything is pure functions over immutable datatypes. The outside world
(API key, microphone, connection, the output clock `ctx.currentTime`, what the
model answers) enters as parameters or as events.

Files, one module each:

| file | module | models |
|---|---|---|
| `wrappers.dfy` | `Wrappers` | `Option` and `Result` |
| `base64.dfy` | `Base64` | `btoa` (section 4 of RFC 4648) and `atob` (the WHATWG Infra standard's forgiving-base64 decode), binary strings |
| `codec.dfy` | `Codec` | `encodeBase64`, `decodeBase64`, `decodeAudioData`, ToInt16 and the capture frame |
| `playback.dfy` | `Playback` | the `onmessage` scheduler and its interruption |
| `voice_session.dfy` | `VoiceSession` | `startCall`, `stopCall`, callbacks, call button |
| `chat_service.dfy` | `ChatService` | `sendMessage` |

Conventions. Bytes are a `byte` newtype over `0..255`. Times and samples are
`real`; dividing a 16-bit integer by 32768 is exact in float32, so `real` loses
nothing there. A JavaScript string that may be `undefined` is a Dafny string in
which `""` stands for every falsy value, since the code only tests it for
truthiness. `Int16Array` is read little-endian, the byte order of every
platform the page runs on. Audio sources are named by the order in which they
are created (`Scheduler.nextId`).

Behaviour of the code that a reader might not expect, which the model keeps as written:

- An interruption sets the cursor to 0 (line 159), not to the current clock.
  The next chunk still starts at the clock, because it is placed at
  `max(cursor, now)` (`Playback.ChunkAfterInterruptStartsNow`).
- A chunk that fails to decode is not simply dropped: the cursor has already
  been moved up to the clock at line 145. The exception then ends the handler,
  so the `interrupted` flag of that same message is ignored (`Playback.OnMessage`).
- A setup failure after the microphone was granted does not release the
  stream: the catch block at lines 173-177 does not call `stopCall`
  (`VoiceSession.SetupFailureKeepsStream`).
- There is no separate closing state; `stopCall` goes straight to idle.
- `atob` is more lenient than a strict RFC 4648 decoder. It drops ASCII
  whitespace and accepts missing padding. It also ignores the left-over bits
  of a final partial group. `Base64.Decode` does the same.

## Model

| member | source | states |
|---|---|---|
| `Base64.ToBinary` | components/VoiceAssistant.tsx:16-19 | the binary string has one character per byte, and each character's code equals its byte |
| `Base64.Encode` | components/VoiceAssistant.tsx:20 | the encoding of n bytes is 4·⌈n/3⌉ characters long: whole quanta of four |
| `Base64.EncodeTestVectors` | components/VoiceAssistant.tsx:20 | the encoding gives the test vectors of section 10 of RFC 4648 ("Zg==", "Zm8=", "Zm9v", ..., "Zm9vYmFy") and "//79" for 0xFF 0xFE 0xFD |
| `Base64.Btoa` | components/VoiceAssistant.tsx:20 | `btoa` succeeds exactly on strings whose characters are all at most U+00FF, and its output is whole quanta |
| `Base64.Atob` | components/VoiceAssistant.tsx:7 | `atob` succeeds exactly when forgiving decoding succeeds, and it returns a binary string |
| `Base64.RoundTrip` | components/VoiceAssistant.tsx:7-20 | decoding the encoding of any byte sequence, the empty one included, gives that sequence back |
| `Base64.DecodeUnpadded` | components/VoiceAssistant.tsx:7 | `atob` also decodes an encoding whose "=" padding was left off |
| `Base64.OctetsOfSextets` | components/VoiceAssistant.tsx:7-20 | reassembling the 6-bit groups of any byte sequence gives the bytes back |
| `Base64.AtobBtoa` | components/VoiceAssistant.tsx:7-20 | `atob(btoa(s)) == s` for every string `btoa` accepts |
| `Codec.EncodeBase64` | components/VoiceAssistant.tsx:15-21 | `btoa` never throws on the binary string of the bytes, and `encodeBase64` returns what it produces |
| `Codec.DecodeBase64` | components/VoiceAssistant.tsx:6-13 | fails exactly when `atob` fails; otherwise returns one byte per character, equal to its code |
| `Codec.TransportRoundTrip` | components/VoiceAssistant.tsx:6-21 | `decodeBase64(encodeBase64(b)) == b` for every byte sequence `b` |
| `Codec.ToInt16` | components/VoiceAssistant.tsx:126 | the stored sample lies in the 16-bit signed range and is congruent to the integer stored, modulo 2^16 |
| `Codec.Int16View` | components/VoiceAssistant.tsx:29 | succeeds exactly on even byte lengths, else RangeError; it yields byteLength/2 samples, each in the 16-bit range |
| `Codec.Int16ViewOfBytes` | components/VoiceAssistant.tsx:124-128 | reading back an `Int16Array`'s bytes yields each stored integer after ToInt16 |
| `Codec.Int16BytesOfView` | components/VoiceAssistant.tsx:29 | storing the samples read from an even-length buffer rebuilds the buffer, so each sample is its byte pair, little-endian |
| `Codec.DecodeAudioData` | components/VoiceAssistant.tsx:24-36 | it succeeds exactly on a non-empty even byte length: odd throws RangeError, empty throws NotSupportedError; otherwise the buffer holds byteLength/2 samples at 24 kHz, each equal to its int16 sample / 32768 and in [-1, 1), and the duration is samples/24000 |
| `Codec.DecodeChunk` | components/VoiceAssistant.tsx:146 | a decoded chunk has sample rate 24000 and a positive duration |
| `Codec.CaptureFrame` | components/VoiceAssistant.tsx:121-131 | muted ⇔ nothing is sent; otherwise the frame has media type `audio/pcm;rate=16000`, and its data decodes to 2 bytes per sample, which read back as each sample after ToInt16 |
| `Codec.InRangeSampleKept` | components/VoiceAssistant.tsx:126 | a truncated value in [-32768, 32767] is stored unchanged |
| `Codec.FullScaleWraps` | components/VoiceAssistant.tsx:126 | 32768 (an input sample of 1.0) is stored as -32768 |
| `Codec.CaptureKeepsInRangeSamples` | components/VoiceAssistant.tsx:124-131 | in-range captured samples reach the agent's decoder unchanged |
| `Playback.Sync` | components/VoiceAssistant.tsx:145 | the synchronised cursor is at least both the old cursor and the clock, and equals one of them |
| `Playback.Schedule` | components/VoiceAssistant.tsx:145-153 | a chunk starts at the later of cursor and clock, so never before either; the cursor moves to its end and never decreases; the new source has a fresh id and joins the active set |
| `Playback.Interrupt` | components/VoiceAssistant.tsx:156-159 | every source leaves the active set and the cursor becomes 0 |
| `Playback.SourceEnded` | components/VoiceAssistant.tsx:153 | `onended` removes that source and no other, and does not touch the cursor |
| `Playback.OnMessage` | components/VoiceAssistant.tsx:140-160 | audio is handled before the interrupt flag, so a message with both ends with no sources and cursor 0, and the stopped sources include the new one; a message with neither changes nothing; a scheduled chunk starts at exactly max(cursor, clock); a chunk that fails to decode leaves exactly the synchronised state, cursor max(cursor, clock) and sources unchanged, and skips the interrupt; the scheduler stays well formed |
| `Playback.ChunkMessageSchedules` | components/VoiceAssistant.tsx:141-153 | a message whose chunk decodes, without the interrupt flag, schedules the chunk exactly as `Schedule` does |
| `Playback.ChunkAfterInterruptStartsNow` | components/VoiceAssistant.tsx:145-159 | after an interruption the next chunk starts at the clock reading (for a non-negative clock) |
| `Playback.EndedAfterInterruptChangesNothing` | components/VoiceAssistant.tsx:153-158 | the `onended` of a source stopped by an interruption changes nothing |
| `Playback.Feed` | components/VoiceAssistant.tsx:145-151 | a run of chunks yields one source per chunk, and the cursor never decreases over the run |
| `Playback.FeedInOrder` | components/VoiceAssistant.tsx:145-151 | in a run of chunks, no source starts before its chunk arrived, and consecutive sources never overlap; a chunk arriving by the previous end starts exactly at that end, a later one starts on arrival |
| `Playback.FeedGapless` | components/VoiceAssistant.tsx:145-151 | when every chunk arrives no later than the cursor at its arrival (the initial cursor plus the durations before it), the i-th source starts at the cursor plus the durations of the chunks before it, and the cursor ends at the cursor plus all durations |
| `Playback.PlaybackScenario` | components/VoiceAssistant.tsx:145-159 | chunks of 0.5 s (at clock 0) and 0.3 s start at 0 and 0.5 and leave the cursor at 0.8; after an interruption a 0.2 s chunk starts at the clock |
| `VoiceSession.StopCallEffects` | components/VoiceAssistant.tsx:51-72 | from any state, `stopCall` ends idle and not calling, with no session, no stream, no sources and cursor 0; it closes the session and stops the tracks exactly when they were held, stops exactly the active sources, and keeps the error message |
| `VoiceSession.StopCallIdempotent` | components/VoiceAssistant.tsx:51-72 | a second `stopCall` releases nothing and leaves the state of the first |
| `VoiceSession.StartCall` | components/VoiceAssistant.tsx:74-178 | a connection leaves connecting with a session and a stream; every failure returns to idle with a non-empty message; a missing key or no `mediaDevices` gives its message and acquires nothing; microphone denial gives a message prefixed "No se pudo acceder al micrófono: "; a later failure keeps the stream |
| `VoiceSession.MountedConsistent` | components/VoiceAssistant.tsx:39-49 | the mounted state is consistent |
| `VoiceSession.Step` | components/VoiceAssistant.tsx:114-201 | the call button does nothing while connecting, runs `stopCall` during a call and `startCall` otherwise; `onopen` activates the call; messages and source ends leave the lifecycle fields alone; `onerror` and `onclose` leave an idle call holding nothing, `onerror` with the connection message and `onclose` keeping the current one |
| `VoiceSession.ClosedStops` | components/VoiceAssistant.tsx:167 | `onclose` leaves an idle call with no session, stream or sources, cursor 0, and the error message unchanged |
| `VoiceSession.ButtonDisabledWhileConnecting` | components/VoiceAssistant.tsx:200-201 | pressing the call button while connecting changes nothing |
| `VoiceSession.ButtonStopsActiveCall` | components/VoiceAssistant.tsx:200 | in a consistent active call the button runs `stopCall` |
| `VoiceSession.StepConsistent` | components/VoiceAssistant.tsx:51-201 | every event keeps three facts: a call is on exactly when the status is active, no session is held while idle, and a session comes with a stream; the scheduler stays well formed |
| `VoiceSession.RunConsistent` | components/VoiceAssistant.tsx:51-201 | consistency holds after any sequence of events |
| `VoiceSession.OpenedActivates` | components/VoiceAssistant.tsx:114-116 | `onopen` sets the status active with `isCalling` true |
| `VoiceSession.ErrorStopsWithMessage` | components/VoiceAssistant.tsx:162-166 | `onerror` shows the connection error message and leaves an idle call with nothing held |
| `VoiceSession.StartThenOpen` | components/VoiceAssistant.tsx:89-171 | a successful start followed by `onopen` gives an active call with a session and a stream and no error |
| `VoiceSession.MissingKeyScenario` | components/VoiceAssistant.tsx:75-83 | `startCall` first clears the error and shows connecting; with no API key it then goes idle with the configuration message, acquiring no stream or session |
| `VoiceSession.SetupFailureKeepsStream` | components/VoiceAssistant.tsx:89-177 | a failure after the microphone was granted returns to idle but still holds the stream |
| `ChatService.TrimHistory` | services/geminiService.ts:27-30 | the trimmed history is a suffix of the input, is empty or starts with a user turn, and only non-user turns were dropped |
| `ChatService.TrimLoop` | services/geminiService.ts:27-30 | the `while`/`shift` loop computes the trimmed history |
| `ChatService.TrimHistoryUnique` | services/geminiService.ts:27-30 | the trimmed history is exactly the suffix from the first user turn (or empty when there is none), so every turn from there on is kept, in order and unchanged, alternation or not |
| `ChatService.TrimHistoryIdempotent` | services/geminiService.ts:28 | a history that starts with a user turn passes unchanged; trimming twice is trimming once |
| `ChatService.TrimDropsAllModelHistory` | services/geminiService.ts:27-30 | a history without user turns is dropped entirely |
| `ChatService.BuildContents` | services/geminiService.ts:32-35 | `contents` is never empty, starts with a user turn, is at most one longer than the history, ends with the new message as a user turn, and what precedes it is the trimmed history |
| `ChatService.ModelOnlyHistorySendsMessage` | services/geminiService.ts:27-35 | an all-model history sends only the new message |
| `ChatService.ReplyForError` | services/geminiService.ts:53-61 | a caught error gives the configuration reply exactly when its message is `API_KEY_MISSING`, otherwise the apology |
| `ChatService.SendMessage` | services/geminiService.ts:13-61 | a missing key returns the configuration reply and builds no request; otherwise the request is the built `contents` |
| `ChatService.SendMessageReplies` | services/geminiService.ts:47-60 | with a key, a non-empty response text is returned verbatim; an empty one gives the apology (`EMPTY_RESPONSE`), and so does any other thrown error |
| `ChatService.SendMessageReplyKinds` | services/geminiService.ts:47-60 | the reply is never empty and is the model's text, the configuration reply or the apology |

## Left out

- Rendering: the JSX of components/VoiceAssistant.tsx:180-236 and App.tsx are layout only. The one exception is the call button's choice between nothing (while connecting, when it is disabled), `stopCall` and `startCall` (lines 200-201), which is `VoiceSession.Step`.
- Web Audio and media calls have no model. This covers `AudioContext` creation, the script processor wiring, `createBufferSource`, `connect`, `source.start`/`stop`, and `getUserMedia`. Their effects appear only as the source ids, the stream flag and the released-resource report of `StopCallEffects`. The two audio contexts are never closed by the code and are not modelled.
- `Playback.Schedule` records the requested start time. The Web Audio rule that a start time in the past plays at once is not modelled.
- Network and SDK calls are inputs: `ai.live.connect`, `sendRealtimeInput` (with its `.then`/`.catch` at lines 130-134, whose failures are only logged), and `generateContent`. For `generateContent`, the model takes what it returned or the message it threw.
- Codec.ToInt16: starts from the already-truncated integer. The float multiply by 32768, the truncation, and ToInt16 of NaN or infinities (line 126) are not modelled.
- Codec.CaptureFrame: takes the mute flag the callback sees. Which value that is (the one captured when `startCall` was created, line 122) and the mute toggle (line 222) are not modelled.
- Codec.DecodeAudioData: fixed at the default rate of 24000. The `sampleRate` parameter is never passed another value.
- Times are exact reals. The double-precision rounding of `buffer.duration` and of the sums kept in the cursor (line 151) is not modelled, so the equalities of `Playback.FeedGapless` hold up to that rounding.
- A message is reduced to the data of the first part of the model turn and the `interrupted` flag. A model turn without `parts`, which would throw at line 141, is not modelled.
- The check at line 142 that the output context exists has no model. The context is created before any message can arrive and is never cleared.
- Async interleaving is not modelled. Each callback is one atomic transition. `startCall` is one step from its synchronous beginning (`BeginStart`) to its outcome. So the `await` between reading and using the cursor (lines 145-150) is not modelled. Neither is the order of `onopen` and storing the session (lines 114, 171), or events that arrive while `startCall` is suspended.
- The capture callback keeps running after `stopCall`: the processor is never disconnected. That callback is not part of the event model.
- Log messages, system prompts, model identifiers and voice settings are left out. They are constants with no behaviour.
