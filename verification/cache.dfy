/** The notes the client holds after fetching the list: each entry is the server's JSON for
    a note, whose fields may be missing (null or undefined). */
module Cache {
  import opened Wrappers

  datatype CachedNote = CachedNote(id: string, title: Option<string>, content: Option<string>)
}
