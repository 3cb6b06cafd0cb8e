/** What every Express handler of the server hands back: a status code, the
    message of its JSON body, and the payload (the note, the token, the list). */
module Http {
  import opened Wrappers

  datatype Reply<+T> = Reply(status: int, message: string, body: Option<T>)

  /** A handler viewed as a transition: its reply and the store after the request. */
  datatype Handled<+T, +S> = Handled(reply: Reply<T>, state: S)

  /** JavaScript truthiness of a value that is a string when present:
      `undefined`, `null` and the empty string are all falsy. */
  predicate Truthy(s: Option<string>) {
    s.Some? && s.value != ""
  }

  const ServerError := "Server Error"
}
