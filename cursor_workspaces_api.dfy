/** `CursorWorkspacesApi`: parsing one stored URI into a `CursorWorkspace`, and
    the `Workspaces` getter that collects the records of every editor
    instance from storage.json and from the state database. */
module CursorWorkspacesApi {
  import opened Options
  import opened Sequences
  import opened PathText
  import opened LabelParser
  import opened WorkspaceModel

  /** The folder name of an unescaped URI: its final path segment, or, when
      that is empty (as for `C:\`), the directory name without trailing ':'. */
  function FolderName(unescapeUri: string, env: Collaborators): (r: string)
    ensures !EndsInSeparator(unescapeUri) ==> r != [] && IsFinalSegment(r, unescapeUri)
    ensures EndsInSeparator(unescapeUri) ==> IsTrimmedEnd(r, env.directoryName(unescapeUri), ':')
  {
    var folderName := FileName(unescapeUri);
    if folderName == [] then TrimEnd(env.directoryName(unescapeUri), ':') else folderName
  }

  /** `ParseVSCodeUri`: no record for a null URI or one the classifier does
      not recognise; otherwise a record built from the unescaped URI, the
      classifier's answer and the instance, with no label. */
  function ParseVSCodeUri(uri: Option<string>, vscodeInstance: EditorInstance, env: Collaborators)
    : (r: Option<CursorWorkspace>)
    ensures r.None? <==>
      uri.None? || env.getTypeWorkspace(env.unescapeDataString(uri.value)).typeWorkspace.None?
    ensures r.Some? ==>
      var unescapeUri := env.unescapeDataString(uri.value);
      var typeWorkspace := env.getTypeWorkspace(unescapeUri);
      && r.value.path == unescapeUri
      && r.value.relativePath == typeWorkspace.path
      && r.value.extraInfo == typeWorkspace.machineName
      && Some(r.value.typeWorkspace) == typeWorkspace.typeWorkspace
      && r.value.vscodeInstance == vscodeInstance
      && r.value.labelText.None?
      && r.value.folderName == FolderName(unescapeUri, env)
  {
    if uri.None? then None
    else
      var unescapeUri := env.unescapeDataString(uri.value);
      var typeWorkspace := env.getTypeWorkspace(unescapeUri);
      if typeWorkspace.typeWorkspace.None? then None
      else
        Some(CursorWorkspace(
          path := unescapeUri,
          relativePath := typeWorkspace.path,
          folderName := FolderName(unescapeUri, env),
          extraInfo := typeWorkspace.machineName,
          typeWorkspace := typeWorkspace.typeWorkspace.value,
          vscodeInstance := vscodeInstance,
          labelText := None))
  }

  /** What one database history entry contributes: nothing without a
      `folderUri` or when it does not parse; otherwise the parsed record,
      with only its label replaced when the entry has one. */
  function HistoryRecord(entry: HistoryEntry, vscodeInstance: EditorInstance, env: Collaborators)
    : (r: Option<CursorWorkspace>)
    ensures r.None? <==>
      entry.folderUri.None? || ParseVSCodeUri(entry.folderUri.value, vscodeInstance, env).None?
    ensures r.Some? ==>
      r.value.(labelText := None) == ParseVSCodeUri(entry.folderUri.value, vscodeInstance, env).value
    ensures r.Some? ==> (r.value.labelText.Some? <==> entry.labelText.Some?)
    ensures r.Some? && entry.labelText.Some? ==> r.value.labelText.value == WorkspaceLabel(entry.labelText.value)
  {
    if entry.folderUri.None? then None
    else
      match ParseVSCodeUri(entry.folderUri.value, vscodeInstance, env)
      case None => None
      case Some(workspace) =>
        if entry.labelText.Some? then Some(workspace.(labelText := Some(WorkspaceLabel(entry.labelText.value))))
        else Some(workspace)
  }

  /** `uris.Select(u => ParseVSCodeUri(u, vscodeInstance))`. */
  function ParseAll(uris: seq<Option<string>>, vscodeInstance: EditorInstance, env: Collaborators)
    : seq<Option<CursorWorkspace>>
  {
    seq(|uris|, i requires 0 <= i < |uris| => ParseVSCodeUri(uris[i], vscodeInstance, env))
  }

  /** `entries.Select(x => x.FolderUri)`. */
  function FolderUris(entries: seq<WorkspaceEntry>): seq<Option<string>>
  {
    seq(|entries|, i requires 0 <= i < |entries| => entries[i].folderUri)
  }

  function HistoryRecords(entries: seq<HistoryEntry>, vscodeInstance: EditorInstance, env: Collaborators)
    : seq<Option<CursorWorkspace>>
  {
    seq(|entries|, i requires 0 <= i < |entries| => HistoryRecord(entries[i], vscodeInstance, env))
  }

  /** The `workspaces3` list of storage.json, empty when the file is missing,
      unreadable or null, or the list is absent. */
  function StoredWorkspaces3(storage: StorageFile): seq<Option<string>>
  {
    if storage.Deserialised? && storage.openedPathsList.Some? && storage.openedPathsList.value.workspaces3.Some?
    then storage.openedPathsList.value.workspaces3.value
    else []
  }

  /** The `entries` list of storage.json, empty in the same cases. */
  function StoredEntries(storage: StorageFile): seq<WorkspaceEntry>
  {
    if storage.Deserialised? && storage.openedPathsList.Some? && storage.openedPathsList.value.entries.Some?
    then storage.openedPathsList.value.entries.value
    else []
  }

  /** The URIs storage.json supplies, in the order they are read. */
  function StoredUris(storage: StorageFile): seq<Option<string>>
  {
    StoredWorkspaces3(storage) + FolderUris(StoredEntries(storage))
  }

  /** The database history entries, none when the row or `entries` is absent. */
  function StoredHistory(history: HistoryRow): seq<HistoryEntry>
  {
    if history.Row? && history.entries.Some? then history.entries.value else []
  }

  /** The records storage.json contributes: the surviving parses of its URIs. */
  function StorageWorkspaces(storage: StorageFile, vscodeInstance: EditorInstance, env: Collaborators)
    : seq<CursorWorkspace>
  {
    Somes(ParseAll(StoredUris(storage), vscodeInstance, env))
  }

  /** The records the database history row contributes. */
  function HistoryWorkspaces(history: HistoryRow, vscodeInstance: EditorInstance, env: Collaborators)
    : seq<CursorWorkspace>
  {
    Somes(HistoryRecords(StoredHistory(history), vscodeInstance, env))
  }

  lemma ParseAllAppend(a: seq<Option<string>>, b: seq<Option<string>>, vscodeInstance: EditorInstance, env: Collaborators)
    ensures ParseAll(a + b, vscodeInstance, env) == ParseAll(a, vscodeInstance, env) + ParseAll(b, vscodeInstance, env)
  {
  }

  lemma NoUrisNoRecords(vscodeInstance: EditorInstance, env: Collaborators)
    ensures FolderUris([]) == [] && Somes(ParseAll([], vscodeInstance, env)) == []
  {
    assert ParseAll([], vscodeInstance, env) == [];
  }

  /** storage.json contributes the surviving `workspaces3` records, then the
      surviving `entries[].folderUri` records. */
  lemma StorageWorkspacesSplit(storage: StorageFile, vscodeInstance: EditorInstance, env: Collaborators)
    ensures StorageWorkspaces(storage, vscodeInstance, env)
      == Somes(ParseAll(StoredWorkspaces3(storage), vscodeInstance, env))
       + Somes(ParseAll(FolderUris(StoredEntries(storage)), vscodeInstance, env))
  {
    var w3, es := StoredWorkspaces3(storage), FolderUris(StoredEntries(storage));
    ParseAllAppend(w3, es, vscodeInstance, env);
    SomesAppend(ParseAll(w3, vscodeInstance, env), ParseAll(es, vscodeInstance, env));
  }

  function InstanceWorkspaces(state: InstanceState, env: Collaborators): seq<CursorWorkspace>
  {
    StorageWorkspaces(state.storage, state.instance, env) + HistoryWorkspaces(state.history, state.instance, env)
  }

  /** The getter's result: each instance's records, in instance order. */
  function AllWorkspaces(states: seq<InstanceState>, env: Collaborators): seq<CursorWorkspace>
  {
    FlatMap(states, state => InstanceWorkspaces(state, env))
  }

  /** An instance read after `init` appends its records after theirs. */
  lemma AllWorkspacesSnoc(init: seq<InstanceState>, last: InstanceState, env: Collaborators)
    ensures AllWorkspaces(init + [last], env) == AllWorkspaces(init, env) + InstanceWorkspaces(last, env)
  {
  }

  lemma HistoryRecordsSnoc(entries: seq<HistoryEntry>, i: nat, vscodeInstance: EditorInstance, env: Collaborators)
    requires i < |entries|
    ensures Somes(HistoryRecords(entries[..i + 1], vscodeInstance, env))
      == Somes(HistoryRecords(entries[..i], vscodeInstance, env))
         + (if HistoryRecord(entries[i], vscodeInstance, env).Some?
            then [HistoryRecord(entries[i], vscodeInstance, env).value] else [])
  {
    var s := HistoryRecords(entries[..i + 1], vscodeInstance, env);
    assert s[..|s| - 1] == HistoryRecords(entries[..i], vscodeInstance, env);
  }

  /** The storage.json step of the getter: the `AddRange` of the parsed
      `workspaces3` URIs, then of the parsed `entries[].folderUri`, each only
      when that list is present in a deserialised, non-null file. */
  method AddStorageWorkspaces(workspaces: seq<CursorWorkspace>, storage: StorageFile,
                              vscodeInstance: EditorInstance, env: Collaborators)
    returns (result: seq<CursorWorkspace>)
    ensures result == workspaces + StorageWorkspaces(storage, vscodeInstance, env)
  {
    result := workspaces;
    var fromWorkspaces3: seq<CursorWorkspace> := [];
    var fromEntries: seq<CursorWorkspace> := [];
    if storage.Deserialised? && storage.openedPathsList.Some? {
      var paths := storage.openedPathsList.value;
      if paths.workspaces3.Some? {
        fromWorkspaces3 := Somes(ParseAll(paths.workspaces3.value, vscodeInstance, env));
        result := result + fromWorkspaces3;
      }
      if paths.entries.Some? {
        fromEntries := Somes(ParseAll(FolderUris(paths.entries.value), vscodeInstance, env));
        result := result + fromEntries;
      }
    }
    NoUrisNoRecords(vscodeInstance, env);
    assert fromWorkspaces3 == Somes(ParseAll(StoredWorkspaces3(storage), vscodeInstance, env));
    assert fromEntries == Somes(ParseAll(FolderUris(StoredEntries(storage)), vscodeInstance, env));
    StorageWorkspacesSplit(storage, vscodeInstance, env);
  }

  /** The state.vscdb step of the getter: nothing without a history row or
      without `entries`; otherwise each entry in order, skipping those
      without `folderUri` and those that do not parse, and replacing the
      label of those that have one. */
  method AddHistoryWorkspaces(workspaces: seq<CursorWorkspace>, history: HistoryRow,
                              vscodeInstance: EditorInstance, env: Collaborators)
    returns (result: seq<CursorWorkspace>)
    ensures result == workspaces + HistoryWorkspaces(history, vscodeInstance, env)
  {
    result := workspaces;
    if history.NoRow? || history.entries.None? {
      assert HistoryRecords([], vscodeInstance, env) == [];
      return;
    }
    var entries := history.entries.value;
    assert HistoryRecords(entries[..0], vscodeInstance, env) == [];
    for i := 0 to |entries|
      invariant result == workspaces + Somes(HistoryRecords(entries[..i], vscodeInstance, env))
    {
      HistoryRecordsSnoc(entries, i, vscodeInstance, env);
      var entry := entries[i];
      if entry.folderUri.None? {
        continue;
      }
      var workspace := ParseVSCodeUri(entry.folderUri.value, vscodeInstance, env);
      if workspace.None? {
        continue;
      }
      var record := workspace.value;
      if entry.labelText.Some? {
        record := record.(labelText := Some(WorkspaceLabel(entry.labelText.value)));
      }
      assert HistoryRecord(entry, vscodeInstance, env) == Some(record);
      result := result + [record];
    }
    assert entries[..|entries|] == entries;
  }

  /** The `Workspaces` getter over already-decoded instance states: for each
      instance in order, its storage.json records, then its database
      records, appended to one list. */
  method Workspaces(states: seq<InstanceState>, env: Collaborators) returns (workspaces: seq<CursorWorkspace>)
    ensures workspaces == AllWorkspaces(states, env)
  {
    workspaces := [];
    assert AllWorkspaces([], env) == [];
    for n := 0 to |states|
      invariant workspaces == AllWorkspaces(states[..n], env)
    {
      assert states[..n + 1] == states[..n] + [states[n]];
      AllWorkspacesSnoc(states[..n], states[n], env);
      var vscodeInstance := states[n].instance;
      workspaces := AddStorageWorkspaces(workspaces, states[n].storage, vscodeInstance, env);
      workspaces := AddHistoryWorkspaces(workspaces, states[n].history, vscodeInstance, env);
    }
    assert states[..|states|] == states;
  }
}
