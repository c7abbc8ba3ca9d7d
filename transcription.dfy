/**
 * The recognition engine's result values (SFTranscription and its segments)
 * and the exported structure `ResultFormat` built from them by the
 * debouncer's finish callback.
 */
module Transcription {

  /** A `Float` confidence, carried as its IEEE-754 bit pattern. */
  type Float = bv32

  /** A `TimeInterval` (Double), carried as its IEEE-754 bit pattern. */
  type TimeInterval = bv64

  datatype NSRange = NSRange(location: int, length: int)

  /** One SFTranscriptionSegment, with the fields this program reads. */
  datatype TranscriptionSegment = TranscriptionSegment(
    substringRange: NSRange,
    confidence: Float,
    timestamp: TimeInterval,
    duration: TimeInterval)

  /** An SFTranscription: the formatted transcript and its ordered segments. */
  datatype Transcription = Transcription(formattedString: string, segments: seq<TranscriptionSegment>)

  /** An SFSpeechRecognitionResult: the best transcription and the engine's (untrusted) final flag. */
  datatype RecognitionResult = RecognitionResult(bestTranscription: Transcription, isFinal: bool)

  datatype CustomSegment = CustomSegment(
    substringRange: NSRange,
    confidence: Float,
    timestamp: TimeInterval,
    duration: TimeInterval)

  datatype ResultFormat = ResultFormat(result: string, segments: seq<CustomSegment>)

  /** `c` carries the range, confidence, timestamp and duration of `s` unchanged. */
  predicate Copies(c: CustomSegment, s: TranscriptionSegment) {
    && c.substringRange == s.substringRange
    && c.confidence == s.confidence
    && c.timestamp == s.timestamp
    && c.duration == s.duration
  }

  /**
   * `finishCallback` up to the JSON step: one CustomSegment per segment, in
   * order, appended in a loop, and the formatted transcript as `result`.
   */
  method FinishCallback(transcription: Transcription) returns (r: ResultFormat)
    ensures r.result == transcription.formattedString
    ensures |r.segments| == |transcription.segments|
    ensures forall i | 0 <= i < |r.segments| :: Copies(r.segments[i], transcription.segments[i])
  {
    var segments: seq<CustomSegment> := [];
    for k := 0 to |transcription.segments|
      invariant |segments| == k
      invariant forall i | 0 <= i < k :: Copies(segments[i], transcription.segments[i])
    {
      var item := transcription.segments[k];
      var segment := CustomSegment(item.substringRange, item.confidence, item.timestamp, item.duration);
      segments := segments + [segment];
    }
    r := ResultFormat(transcription.formattedString, segments);
  }
}
