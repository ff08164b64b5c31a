/** Values shared by the extension host model: extensions, event sinks,
    documents, and the external effects the host performs. */
module AppTypes {

  datatype Option<+T> = None | Some(value: T)

  /** A loaded extension, identified by the path it was loaded from. */
  datatype Ext = Ext(path: string)

  /** An event sink registered by an extension; sinks are opaque handles
      compared by identity. */
  datatype Sink = Sink(handle: nat)

  /** A document handle passed to sinks; NoDocument is the empty handle. */
  datatype Document = NoDocument | Document(handle: nat)

  /** The calls into collaborators the host does not own that the model
      records, in the order the host makes them. */
  datatype Effect =
    | InitStringLoader
    | CreateSettings
    | CreateOptions
    | CreateUserSettingsDir
    | LoadOptionsCache
    | LoadSchemes
    | CreateDispatch
    | ConstructExtension(path: string)
    | Log(message: string)
    | RunScript(source: string)
    | Unexpected(message: string)
    | AppClose(sink: Sink)
    | NewDocumentNotice(sink: Sink, doc: Document)
    | UnloadExtension(ext: Ext)
    | DeleteUserSettingsDir
    | ClearInterfaceSettings
    | DeleteSettings
    | DeleteAllDeferred
    | ReleaseOptions
    | DeleteDispatch

  /** Concatenation regroups freely. Dafny proves this unaided; the loops
      and append lemmas call it anyway because naming the regrouping step
      keeps their proofs well inside the verifier's resource limit. */
  lemma ConcatAssoc<T>(a: seq<T>, b: seq<T>, c: seq<T>)
    ensures (a + b) + c == a + (b + c)
  {
  }

  const CreateDirFailed := "Could not create user settings folder"
  const DeleteDirFailed := "Failed to delete user settings directory!"
  const NotYetImplemented := "Not Yet Implemented"
}
