/** The entities of the recent-workspaces core: the record it builds, the
    classifier answer that record copies from, the library collaborators it
    calls, and the already-decoded contents of each editor instance's
    storage. */
module WorkspaceModel {
  import opened Options

  /** The kind of workspace the URI classifier recognised. */
  datatype WorkspaceType = Folder | WorkspaceFile | Remote

  /** What `GetTypeWorkspace` returns for an unescaped URI: a kind when the
      URI is understood, the path part and, for remote targets, the machine
      name. The two strings are nullable in the source. */
  datatype TypeWorkspaceResult = TypeWorkspaceResult(
    typeWorkspace: Option<WorkspaceType>,
    path: Option<string>,
    machineName: Option<string>)

  /** One installed editor variant, as supplied by instance discovery. */
  datatype EditorInstance = EditorInstance(appData: string)

  /** A recent workspace (`CursorWorkspace`). `labelText` (`Label`) is set only for
      database entries that carry a label. */
  datatype CursorWorkspace = CursorWorkspace(
    path: string,
    relativePath: Option<string>,
    folderName: string,
    extraInfo: Option<string>,
    typeWorkspace: WorkspaceType,
    vscodeInstance: EditorInstance,
    labelText: Option<string>)

  /** The library and classifier calls the core makes but does not define:
      `Uri.UnescapeDataString`, `ParseVSCodeUri.GetTypeWorkspace` and
      `new DirectoryInfo(p).Name`. */
  datatype Collaborators = Collaborators(
    unescapeDataString: string -> string,
    getTypeWorkspace: string -> TypeWorkspaceResult,
    directoryName: string -> string)

  /** An element of `entries` in storage.json (`CursorWorkspaceEntry`). */
  datatype WorkspaceEntry = WorkspaceEntry(folderUri: Option<string>, labelText: Option<string>)

  /** The `OpenedPathsList` object of storage.json; each list may be absent. */
  datatype OpenedPathsList = OpenedPathsList(
    workspaces3: Option<seq<Option<string>>>,
    entries: Option<seq<WorkspaceEntry>>)

  /** storage.json of one instance: not on disk, not deserialisable (the
      exception is caught and logged), deserialised to null, or deserialised
      with an optional `OpenedPathsList`. */
  datatype StorageFile =
    | Missing
    | Undeserialisable
    | NullDocument
    | Deserialised(openedPathsList: Option<OpenedPathsList>)

  /** An element of `entries` in the database history value. `folderUri` is
      None when the property is absent and Some(None) when it is JSON null;
      `labelText` is None when the `label` property is absent. */
  datatype HistoryEntry = HistoryEntry(folderUri: Option<Option<string>>, labelText: Option<string>)

  /** The result of the `history.recentlyOpenedPathsList` query: no row, or a
      row whose JSON value may lack an `entries` property. */
  datatype HistoryRow = NoRow | Row(entries: Option<seq<HistoryEntry>>)

  /** Everything the getter reads for one instance. */
  datatype InstanceState = InstanceState(
    instance: EditorInstance,
    storage: StorageFile,
    history: HistoryRow)
}
