/**
 * The data the transcription service returns, with the JSON codec
 * abstracted: a reply payload is the record of the fields the client reads.
 */
module Transcript {
  import opened Wrappers

  /** One entry of `Result.Sentences`: channel, begin and end time in milliseconds, text. */
  datatype Sentence = Sentence(channelId: int, beginTime: int, endTime: int, text: string)

  /**
   * A reply payload: `StatusText`, `TaskId`, and `Result.Sentences` when the
   * reply carries a result (a finished task does; a pending or failed one does not).
   */
  datatype Response = Response(statusText: string, taskId: string, sentences: Option<seq<Sentence>>)

  /** What one call of the transport gives: a client or server exception, or a decoded reply. */
  datatype Outcome = Fault | Reply(response: Response)
}
