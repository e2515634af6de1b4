/** The records and the status enumeration the front-end passes between its components. */
module Types {

  /** A value that may be absent (`T | null` or `T | undefined`). */
  datatype Option<+T> = None | Some(value: T)

  /** A completed promise: resolved with a value or rejected with an error. */
  datatype Result<+R, +E> = Success(value: R) | Failure(error: E)

  /** The five phases of one transcription session. */
  datatype Status = Idle | Uploading | Processing | Completed | Error

  /** What a successful transcription leaves behind (its wall-clock timestamp is not modelled). */
  datatype TranscriptionResult = TranscriptionResult(text: string, fileName: string)

  /** The parts of a browser `File` the front-end looks at: `name`, `type` and `size`. */
  datatype MediaFile = MediaFile(name: string, mimeType: string, size: nat)
}
