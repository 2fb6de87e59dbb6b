/**
 * The audio helpers of components/VoiceAssistant.tsx: the Base64 transport
 * text of PCM audio (`encodeBase64`, `decodeBase64`), the reinterpretation of
 * received bytes as 16-bit samples (`decodeAudioData`) and the conversion of
 * captured samples into 16-bit little-endian PCM (the `onaudioprocess` body).
 */
module Codec {
  import opened Wrappers
  import opened Base64

  /**
   * The exceptions these helpers can throw, by their JavaScript names.  It
   * widens `Base64.Base64Error`: `atob`'s only failure becomes
   * `InvalidCharacterError` here, next to the two typed-array and Web Audio
   * errors that module knows nothing of.
   */
  datatype CodecError =
    | InvalidCharacterError  // atob: not Base64
    | RangeError             // Int16Array over a buffer of odd length
    | NotSupportedError      // createBuffer with a length of zero

  /** Output sample rate: `decodeAudioData`'s default, used for every chunk. */
  const PlaybackRate: nat := 24000

  /** Media type of every captured frame sent to the agent. */
  const CaptureMimeType: string := "audio/pcm;rate=16000"

  // ---------------------------------------------------------------------------
  // Transport text
  // ---------------------------------------------------------------------------

  /**
   * `encodeBase64`: builds the binary string of `bytes` one character per byte
   * and hands it to `btoa`, which never throws on such a string.
   */
  function EncodeBase64(bytes: seq<byte>): (s: string)
    ensures Btoa(ToBinary(bytes)) == Success(s)
  {
    FromToBinary(bytes);
    Encode(bytes)
  }

  /** A `Uint8Array` filled from character codes: each code is kept modulo 256. */
  function StoreCodes(bin: string): (b: seq<byte>)
    ensures |b| == |bin|
    ensures IsBinaryString(bin) ==> b == FromBinary(bin)
  {
    seq(|bin|, i requires 0 <= i < |bin| => ((bin[i] as int) % 256) as byte)
  }

  /** `decodeBase64`: `atob`, then every character code stored into a `Uint8Array`. */
  function DecodeBase64(s: string): (r: Result<seq<byte>, CodecError>)
    ensures r.Failure? <==> Atob(s).Failure?
    ensures r.Success? ==> r.value == FromBinary(Atob(s).value)
  {
    var a := Atob(s);
    if a.Failure? then Failure(InvalidCharacterError) else Success(StoreCodes(a.value))
  }

  /** The transport text round trip: `decodeBase64(encodeBase64(b)) == b` for every `b`. */
  lemma TransportRoundTrip(bytes: seq<byte>)
    ensures DecodeBase64(EncodeBase64(bytes)) == Success(bytes)
  {
    var bin := ToBinary(bytes);
    AtobBtoa(bin);
    FromToBinary(bytes);
    assert EncodeBase64(bytes) == Btoa(bin).value;
    assert Atob(EncodeBase64(bytes)) == Success(bin);
  }

  // ---------------------------------------------------------------------------
  // 16-bit samples
  // ---------------------------------------------------------------------------

  predicate IsInt16(k: int) {
    -32768 <= k < 32768
  }

  /**
   * ECMAScript's ToInt16 (section 7.1.8 of ECMA-262) on an integer: the value
   * in the 16-bit signed range congruent to `t` modulo 2^16.
   */
  function ToInt16(t: int): (k: int)
    ensures IsInt16(k)
    ensures (k - t) % 65536 == 0
  {
    var m := t % 65536;
    if m >= 32768 then m - 65536 else m
  }

  /** The low and high byte of a sample in two's complement. */
  function LowByte(k: int): byte {
    ((k % 65536) % 256) as byte
  }

  function HighByte(k: int): byte {
    ((k % 65536) / 256) as byte
  }

  /** The signed value of a little-endian byte pair. */
  function SampleOf(lo: byte, hi: byte): (k: int)
    ensures IsInt16(k)
  {
    var u := lo as int + 256 * hi as int;
    if u >= 32768 then u - 65536 else u
  }

  lemma SampleOfBytes(t: int)
    ensures SampleOf(LowByte(t), HighByte(t)) == ToInt16(t)
  {
  }

  lemma BytesOfSample(lo: byte, hi: byte)
    ensures LowByte(SampleOf(lo, hi)) == lo && HighByte(SampleOf(lo, hi)) == hi
  {
  }

  /**
   * `new Int16Array(buffer)`: the samples of a little-endian buffer; a byte
   * length that is not a multiple of two throws RangeError.
   */
  function Int16View(data: seq<byte>): (r: Result<seq<int>, CodecError>)
    ensures r.Success? <==> |data| % 2 == 0
    ensures r.Failure? ==> r.error == RangeError
    ensures r.Success? ==> |r.value| == |data| / 2 && forall i :: 0 <= i < |r.value| ==> IsInt16(r.value[i])
  {
    if |data| % 2 != 0 then Failure(RangeError)
    else Success(seq(|data| / 2, i requires 0 <= i < |data| / 2 => SampleOf(data[2 * i], data[2 * i + 1])))
  }

  /** The bytes of an `Int16Array` holding each of `ts` after ToInt16. */
  function Int16Bytes(ts: seq<int>): (b: seq<byte>)
    ensures |b| == 2 * |ts|
  {
    seq(2 * |ts|, j requires 0 <= j < 2 * |ts| => if j % 2 == 0 then LowByte(ts[j / 2]) else HighByte(ts[j / 2]))
  }

  /** Reading back the bytes of stored samples gives each sample after ToInt16. */
  lemma Int16ViewOfBytes(ts: seq<int>)
    ensures Int16View(Int16Bytes(ts)).Success?
    ensures Int16View(Int16Bytes(ts)).value == seq(|ts|, i requires 0 <= i < |ts| => ToInt16(ts[i]))
  {
    var b := Int16Bytes(ts);
    var v := Int16View(b).value;
    forall i | 0 <= i < |ts|
      ensures v[i] == ToInt16(ts[i])
    {
      assert b[2 * i] == LowByte(ts[i]) && b[2 * i + 1] == HighByte(ts[i]);
      SampleOfBytes(ts[i]);
    }
  }

  /** Storing the samples of an even-length buffer gives the buffer back. */
  lemma Int16BytesOfView(data: seq<byte>)
    requires |data| % 2 == 0
    ensures Int16Bytes(Int16View(data).value) == data
  {
    var v := Int16View(data).value;
    var b := Int16Bytes(v);
    forall j | 0 <= j < |data|
      ensures b[j] == data[j]
    {
      var i := j / 2;
      BytesOfSample(data[2 * i], data[2 * i + 1]);
    }
  }

  // ---------------------------------------------------------------------------
  // Playback decoding
  // ---------------------------------------------------------------------------

  /** A mono `AudioBuffer`: its channel samples and its sample rate. */
  datatype AudioBuffer = AudioBuffer(channel: seq<real>, sampleRate: nat) {
    /** `buffer.duration`: length over sample rate, in seconds. */
    function Duration(): (d: real)
      ensures d >= 0.0
    {
      if sampleRate == 0 then 0.0 else |channel| as real / sampleRate as real
    }
  }

  /**
   * `decodeAudioData(data, ctx)`: one channel at 24 kHz whose samples are the
   * 16-bit samples of `data` divided by 32768.  An odd byte length throws in
   * the `Int16Array` constructor, and no samples at all throws in
   * `createBuffer`, which refuses a length of zero.
   */
  function DecodeAudioData(data: seq<byte>): (r: Result<AudioBuffer, CodecError>)
    ensures r.Success? <==> |data| % 2 == 0 && |data| > 0
    ensures |data| % 2 != 0 ==> r == Failure(RangeError)
    ensures |data| == 0 ==> r == Failure(NotSupportedError)
    ensures r.Success? ==>
      && |r.value.channel| == |data| / 2
      && r.value.sampleRate == PlaybackRate
      && r.value.Duration() == (|data| / 2) as real / 24000.0
      && forall i :: 0 <= i < |r.value.channel| ==>
           && r.value.channel[i] * 32768.0 == Int16View(data).value[i] as real
           && -1.0 <= r.value.channel[i] < 1.0
  {
    match Int16View(data)
    case Failure(e) => Failure(e)
    case Success(samples) =>
      if |samples| == 0 then Failure(NotSupportedError)
      else Success(AudioBuffer(seq(|samples|, i requires 0 <= i < |samples| => samples[i] as real / 32768.0), PlaybackRate))
  }

  /** Bytes of a received chunk, decoded into a buffer: `decodeAudioData(decodeBase64(text))`. */
  function DecodeChunk(text: string): (r: Result<AudioBuffer, CodecError>)
    ensures r.Success? ==> r.value.sampleRate == PlaybackRate && r.value.Duration() > 0.0
  {
    match DecodeBase64(text)
    case Failure(e) => Failure(e)
    case Success(bytes) => DecodeAudioData(bytes)
  }

  // ---------------------------------------------------------------------------
  // Capture
  // ---------------------------------------------------------------------------

  /** What `sendRealtimeInput` is given: Base64 data and its media type. */
  datatype MediaFrame = MediaFrame(data: string, mimeType: string)

  /**
   * One `onaudioprocess` call, starting from the samples already scaled by
   * 32768 and truncated to integers: nothing when the callback sees the mute
   * flag set, otherwise the Base64 text of the `Int16Array` holding them.
   */
  function CaptureFrame(muted: bool, truncated: seq<int>): (r: Option<MediaFrame>)
    ensures r.None? <==> muted
    ensures r.Some? ==>
      && r.value.mimeType == CaptureMimeType
      && DecodeBase64(r.value.data).Success?
      && |DecodeBase64(r.value.data).value| == 2 * |truncated|
      && Int16View(DecodeBase64(r.value.data).value)
           == Success(seq(|truncated|, i requires 0 <= i < |truncated| => ToInt16(truncated[i])))
  {
    if muted then None
    else
      var bytes := Int16Bytes(truncated);
      TransportRoundTrip(bytes);
      Int16ViewOfBytes(truncated);
      Some(MediaFrame(EncodeBase64(bytes), CaptureMimeType))
  }

  /** A truncated sample in the 16-bit range is stored unchanged. */
  lemma InRangeSampleKept(t: int)
    requires IsInt16(t)
    ensures ToInt16(t) == t
  {
  }

  /** An input sample of exactly 1.0 scales to 32768, which wraps to -32768. */
  lemma FullScaleWraps()
    ensures ToInt16(32768) == -32768
  {
  }

  /** Captured samples within range reach the agent unchanged. */
  lemma CaptureKeepsInRangeSamples(truncated: seq<int>)
    requires forall i :: 0 <= i < |truncated| ==> IsInt16(truncated[i])
    ensures Int16View(DecodeBase64(CaptureFrame(false, truncated).value.data).value) == Success(truncated)
  {
    var expected := seq(|truncated|, i requires 0 <= i < |truncated| => ToInt16(truncated[i]));
    assert expected == truncated;
  }
}
