/** The records of the application (types.ts) and the small wrappers the model uses for
    JavaScript's `null`, `NaN` and rejected promises. */
module Types {

  /** A value that may be absent: `null` for the page state, `NaN` for a parsed timestamp. */
  datatype Option<+T> = None | Some(value: T)

  /** The outcome of an asynchronous call that either resolves with a value or is rejected. */
  datatype Result<+T> = Success(value: T) | Failure(reason: string)

  /** The tone requested from the generation service. */
  datatype BlogStyle = Professional | Casual | Technical | Humorous

  /** A note attached to a moment of the video; `time` is "MM:SS" or "SS". */
  datatype Timestamp = Timestamp(time: string, description: string)

  /** A place in the video where an illustrating still should be taken. */
  datatype ImageSuggestion = ImageSuggestion(time: string, description: string)

  /** An image suggestion together with the still captured for it (an encoded data URL). */
  datatype ExtractedFrame = ExtractedFrame(time: string, description: string, imageDataUrl: string)

  /** The structured post returned by the generation service. */
  datatype BlogPost = BlogPost(
    title: string,
    summary: string,
    body: string,
    keyPoints: seq<string>,
    timestamps: seq<Timestamp>,
    imageSuggestions: seq<ImageSuggestion>)

  /** An uploaded file, seen only through its name; its bytes reach the model through oracles. */
  datatype File = File(name: string)
}
