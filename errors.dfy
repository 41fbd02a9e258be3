/** The errors the pipeline raises, as tagged values rather than exceptions. */
module Errors {

  datatype Error =
      /** `AudioProcessingError`: the audio could not be decoded or measured. */
    | AudioProcessingError(message: string)
      /** `TranscriptionError`: the remote service gave nothing usable, or every attempt failed. */
    | TranscriptionError(message: string)
      /** The decoder's own exception, propagated unwrapped, for the audio at `path`. */
    | DecodeFailure(path: string)
      /** Any other exception, propagated unchanged with its message. */
    | Exception(message: string)
      /** `OSError` from `os.remove(path)`. */
    | OSError(path: string)
}
