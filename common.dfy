/** Value types shared by every module of the model. */
module Common {

  /** An optional value; `None` stands for JavaScript's `null` or `undefined`. */
  datatype Option<+T> = None | Some(value: T)

  /** What a call into a remote provider (telephony, chat completion, speech
      synthesis) or into the file system gave back: its answer, or a thrown error.
      The model never decides which; the caller of a model method supplies it. */
  datatype Outcome<+T> = Returned(value: T) | Threw
}
