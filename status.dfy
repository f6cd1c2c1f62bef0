/**
 * The fetch status shown by the screen (`domain/Result.kt`): a sealed class with four
 * singleton objects and one `Error` class carrying a message. Every variant exposes an
 * `error` string, empty unless the variant is `Error`.
 */
module Status {
  datatype FetchStatus = Idle | InProgress | Empty | Success | Error(message: string)

  /** The `error` property of the sealed class. */
  function ErrorText(s: FetchStatus): (e: string)
    ensures s.Error? ==> e == s.message
    ensures !s.Error? ==> e == ""
  {
    match s
    case Error(m) => m
    case _ => ""
  }

  /** The sealed class admits exactly the five variants, one at a time. */
  lemma ExactlyOneVariant(s: FetchStatus)
    ensures (if s.Idle? then 1 else 0) + (if s.InProgress? then 1 else 0) + (if s.Empty? then 1 else 0)
          + (if s.Success? then 1 else 0) + (if s.Error? then 1 else 0) == 1
  {
  }

  /** An `Error` keeps its message exactly, the empty message included. */
  lemma ErrorKeepsMessage(m: string)
    ensures ErrorText(Error(m)) == m
    ensures ErrorText(Error("")) == ErrorText(Success)
  {
  }
}
