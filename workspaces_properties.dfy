/** What the `Workspaces` getter promises about its result: instance order,
    one record per surviving entry and nothing merged, where each record
    comes from, and which sources contribute nothing. */
module WorkspacesProperties {
  import opened Options
  import opened Sequences
  import opened LabelParser
  import opened WorkspaceModel
  import opened CursorWorkspacesApi

  /** A stored URI yields a record: it is not null and the classifier
      recognises its unescaped form. */
  predicate UriSurvives(uri: Option<string>, env: Collaborators)
  {
    uri.Some? && env.getTypeWorkspace(env.unescapeDataString(uri.value)).typeWorkspace.Some?
  }

  /** A database entry yields a record: it has a `folderUri` that survives. */
  predicate EntrySurvives(entry: HistoryEntry, env: Collaborators)
  {
    entry.folderUri.Some? && UriSurvives(entry.folderUri.value, env)
  }

  /** How many entries of one instance survive, counted over both sources. */
  function SurvivingEntries(state: InstanceState, env: Collaborators): nat
  {
    var uris := StoredUris(state.storage);
    var entries := StoredHistory(state.history);
    |set i: nat | i < |uris| && UriSurvives(uris[i], env)|
    + |set i: nat | i < |entries| && EntrySurvives(entries[i], env)|
  }

  function TotalSurvivingEntries(states: seq<InstanceState>, env: Collaborators): nat
    decreases |states|
  {
    if states == [] then 0
    else TotalSurvivingEntries(states[..|states| - 1], env) + SurvivingEntries(states[|states| - 1], env)
  }

  /** The getter over a concatenation of instance lists is the concatenation
      of the results: records are only appended, instance by instance. */
  lemma AllWorkspacesAppend(a: seq<InstanceState>, b: seq<InstanceState>, env: Collaborators)
    ensures AllWorkspaces(a + b, env) == AllWorkspaces(a, env) + AllWorkspaces(b, env)
  {
    FlatMapAppend(a, b, state => InstanceWorkspaces(state, env));
  }

  /** The records of instance `n` follow those of all earlier instances and
      precede those of all later ones. */
  lemma InstanceBlock(states: seq<InstanceState>, n: nat, env: Collaborators)
    requires n < |states|
    ensures AllWorkspaces(states, env)
      == AllWorkspaces(states[..n], env) + InstanceWorkspaces(states[n], env) + AllWorkspaces(states[n + 1..], env)
  {
    assert states == states[..n] + [states[n]] + states[n + 1..];
    AllWorkspacesAppend(states[..n] + [states[n]], states[n + 1..], env);
    AllWorkspacesSnoc(states[..n], states[n], env);
  }

  /** Records already collected are never removed or reordered by later
      instances. */
  lemma EarlierRecordsStay(states: seq<InstanceState>, n: nat, env: Collaborators)
    requires n <= |states|
    ensures AllWorkspaces(states[..n], env) <= AllWorkspaces(states, env)
  {
    assert states == states[..n] + states[n..];
    AllWorkspacesAppend(states[..n], states[n..], env);
  }

  /** Within one instance: storage.json `workspaces3`, then storage.json
      `entries`, then the database entries, each filtered in stored order; an
      absent source is an empty list here. */
  lemma InstanceSourceOrder(state: InstanceState, env: Collaborators)
    ensures InstanceWorkspaces(state, env)
      == Somes(ParseAll(StoredWorkspaces3(state.storage), state.instance, env))
       + Somes(ParseAll(FolderUris(StoredEntries(state.storage)), state.instance, env))
       + Somes(HistoryRecords(StoredHistory(state.history), state.instance, env))
  {
    StorageWorkspacesSplit(state.storage, state.instance, env);
  }

  /** A missing, undeserialisable or null storage.json, or one without an
      `OpenedPathsList`, contributes nothing; the database is still read. */
  lemma UnreadableStorageStillReadsHistory(state: InstanceState, env: Collaborators)
    requires !(state.storage.Deserialised? && state.storage.openedPathsList.Some?)
    ensures InstanceWorkspaces(state, env) == HistoryWorkspaces(state.history, state.instance, env)
  {
    NoUrisNoRecords(state.instance, env);
    assert StoredUris(state.storage) == [];
  }

  /** A missing history row, or a value without `entries`, contributes
      nothing; the storage.json records stay. */
  lemma MissingHistoryKeepsStorage(state: InstanceState, env: Collaborators)
    requires state.history.NoRow? || state.history.entries.None?
    ensures InstanceWorkspaces(state, env) == StorageWorkspaces(state.storage, state.instance, env)
  {
  }

  lemma StorageCount(storage: StorageFile, vscodeInstance: EditorInstance, env: Collaborators)
    ensures |StorageWorkspaces(storage, vscodeInstance, env)|
      == |set i: nat | i < |StoredUris(storage)| && UriSurvives(StoredUris(storage)[i], env)|
  {
    var uris := StoredUris(storage);
    SomesCount(ParseAll(uris, vscodeInstance, env));
    assert PresentIndices(ParseAll(uris, vscodeInstance, env))
      == set i: nat | i < |uris| && UriSurvives(uris[i], env);
  }

  lemma HistoryCount(history: HistoryRow, vscodeInstance: EditorInstance, env: Collaborators)
    ensures |HistoryWorkspaces(history, vscodeInstance, env)|
      == |set i: nat | i < |StoredHistory(history)| && EntrySurvives(StoredHistory(history)[i], env)|
  {
    var entries := StoredHistory(history);
    SomesCount(HistoryRecords(entries, vscodeInstance, env));
    assert PresentIndices(HistoryRecords(entries, vscodeInstance, env))
      == set i: nat | i < |entries| && EntrySurvives(entries[i], env);
  }

  /** Nothing is deduplicated or dropped beyond the filtered entries: the
      result has exactly one record per surviving entry of every source. */
  lemma {:induction false} WorkspaceCount(states: seq<InstanceState>, env: Collaborators)
    ensures |AllWorkspaces(states, env)| == TotalSurvivingEntries(states, env)
    decreases |states|
  {
    if states == [] {
      assert AllWorkspaces(states, env) == [];
    } else {
      var init, last := states[..|states| - 1], states[|states| - 1];
      assert states == init + [last];
      AllWorkspacesSnoc(init, last, env);
      WorkspaceCount(init, env);
      StorageCount(last.storage, last.instance, env);
      HistoryCount(last.history, last.instance, env);
    }
  }

  /** A record comes from storage.json exactly when some stored URI parses to
      it; such records carry no label, even for a labelled `entries` item. */
  lemma StorageMembership(storage: StorageFile, vscodeInstance: EditorInstance, env: Collaborators, w: CursorWorkspace)
    ensures w in StorageWorkspaces(storage, vscodeInstance, env) <==>
      exists i :: 0 <= i < |StoredUris(storage)| && ParseVSCodeUri(StoredUris(storage)[i], vscodeInstance, env) == Some(w)
    ensures w in StorageWorkspaces(storage, vscodeInstance, env) ==>
      w.labelText.None? && w.vscodeInstance == vscodeInstance
  {
    var uris := StoredUris(storage);
    var parsed := ParseAll(uris, vscodeInstance, env);
    SomesMembership(parsed, w);
    if w in Somes(parsed) {
      var i :| 0 <= i < |parsed| && parsed[i] == Some(w);
      assert ParseVSCodeUri(uris[i], vscodeInstance, env) == Some(w);
    }
    if exists i :: 0 <= i < |uris| && ParseVSCodeUri(uris[i], vscodeInstance, env) == Some(w) {
      var i :| 0 <= i < |uris| && ParseVSCodeUri(uris[i], vscodeInstance, env) == Some(w);
      assert parsed[i] == Some(w);
    }
  }

  /** A record comes from the database exactly when some entry yields it,
      and it then differs from the parsed URI at most in its label. */
  lemma HistoryMembership(history: HistoryRow, vscodeInstance: EditorInstance, env: Collaborators, w: CursorWorkspace)
    ensures w in HistoryWorkspaces(history, vscodeInstance, env) <==>
      exists i :: 0 <= i < |StoredHistory(history)| && HistoryRecord(StoredHistory(history)[i], vscodeInstance, env) == Some(w)
    ensures w in HistoryWorkspaces(history, vscodeInstance, env) ==> w.vscodeInstance == vscodeInstance
  {
    var entries := StoredHistory(history);
    var records := HistoryRecords(entries, vscodeInstance, env);
    SomesMembership(records, w);
    if w in Somes(records) {
      var i :| 0 <= i < |records| && records[i] == Some(w);
      assert HistoryRecord(entries[i], vscodeInstance, env) == Some(w);
    }
    if exists i :: 0 <= i < |entries| && HistoryRecord(entries[i], vscodeInstance, env) == Some(w) {
      var i :| 0 <= i < |entries| && HistoryRecord(entries[i], vscodeInstance, env) == Some(w);
      assert records[i] == Some(w);
    }
  }

  /** Every record an instance contributes names that instance. */
  lemma InstanceRecordsOwned(state: InstanceState, env: Collaborators, w: CursorWorkspace)
    requires w in InstanceWorkspaces(state, env)
    ensures w.vscodeInstance == state.instance
  {
    if w in StorageWorkspaces(state.storage, state.instance, env) {
      StorageMembership(state.storage, state.instance, env, w);
    } else {
      HistoryMembership(state.history, state.instance, env, w);
    }
  }

  /** A record is in the result exactly when one of the instances
      contributed it. */
  lemma WorkspaceProvenance(states: seq<InstanceState>, env: Collaborators, w: CursorWorkspace)
    ensures w in AllWorkspaces(states, env) <==>
      exists n :: 0 <= n < |states| && w in InstanceWorkspaces(states[n], env)
  {
    FlatMapMembership(states, state => InstanceWorkspaces(state, env), w);
  }

  /** Every record of the result names the instance it was read for. */
  lemma WorkspaceOwner(states: seq<InstanceState>, env: Collaborators, w: CursorWorkspace)
    requires w in AllWorkspaces(states, env)
    ensures exists n :: 0 <= n < |states| && w.vscodeInstance == states[n].instance
  {
    WorkspaceProvenance(states, env, w);
    var n :| 0 <= n < |states| && w in InstanceWorkspaces(states[n], env);
    InstanceRecordsOwned(states[n], env, w);
  }

  /** A labelled database entry whose label does not match the pattern gets
      the label " ", not an absent one. */
  lemma UnmatchedLabelIsSpace(entry: HistoryEntry, vscodeInstance: EditorInstance, env: Collaborators)
    requires EntrySurvives(entry, env) && entry.labelText.Some?
    requires forall s, o, c :: !IsMatchAt(entry.labelText.value, s, o, c)
    ensures HistoryRecord(entry, vscodeInstance, env).Some?
    ensures HistoryRecord(entry, vscodeInstance, env).value.labelText == Some(" ")
  {
    WorkspaceLabelOnNoMatch(entry.labelText.value);
  }

  /** The same URI stored twice yields two equal records: nothing
      deduplicates the list. */
  lemma NoDeduplication(vscodeInstance: EditorInstance, uri: string, env: Collaborators)
    requires UriSurvives(Some(uri), env)
    ensures
      var state := InstanceState(vscodeInstance,
                                 Deserialised(Some(OpenedPathsList(Some([Some(uri), Some(uri)]), None))),
                                 NoRow);
      var result := AllWorkspaces([state], env);
      |result| == 2 && result[0] == result[1]
  {
    var state := InstanceState(vscodeInstance,
                               Deserialised(Some(OpenedPathsList(Some([Some(uri), Some(uri)]), None))),
                               NoRow);
    assert [state] == [] + [state];
    AllWorkspacesSnoc([], state, env);
    assert AllWorkspaces([], env) == [];
    var parsed := ParseAll([Some(uri), Some(uri)], vscodeInstance, env);
    var w := ParseVSCodeUri(Some(uri), vscodeInstance, env);
    assert w.Some?;
    assert parsed == [w, w];
    assert parsed[..1] == [w];
    assert Somes(parsed[..1]) == [w.value] by {
      assert parsed[..1][..0] == [];
    }
    assert Somes(parsed) == [w.value, w.value];
    assert StoredUris(state.storage) == [Some(uri), Some(uri)] by {
      assert FolderUris([]) == [];
    }
    assert HistoryWorkspaces(NoRow, vscodeInstance, env) == [] by {
      assert HistoryRecords([], vscodeInstance, env) == [];
    }
    assert InstanceWorkspaces(state, env) == [w.value, w.value];
  }
}
