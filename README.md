# Recent workspaces of the Cursor editor: a Dafny model

This project models the part of the Flow launcher plugin for Cursor that builds the list of recent workspaces. The code lives in `CursorWorkspacesApi` (WorkspacesHelper/VSCodeWorkspacesApi.cs). It has three parts:

- `ParseVSCodeUri` turns one stored URI into a `CursorWorkspace` record, or into nothing. The record copies the URI classifier's answer. It takes its folder name from the last path segment, or, when that segment is empty (as for `C:\`), from the directory name without trailing ':'.
- The label rewrite applies the .NET regular expression `(.+?)(\[.+\])` to the label of a database history entry. It stores `group2 + " " + group1` as the record's label.
- The `Workspaces` getter works through every editor instance in order. For each one it appends:
  - the parsed `workspaces3` URIs of storage.json;
  - then the parsed `entries[].folderUri` of storage.json;
  - then the parsed `entries` of the `history.recentlyOpenedPathsList` row in the state database.

Along the way it drops entries that do not parse and database entries without `folderUri`. Some sources contribute nothing while the getter carries on:
- a storage.json that is missing, cannot be deserialised or deserialises to null;
- a missing `OpenedPathsList`, `workspaces3` or `entries` list in it;
- a missing `history.recentlyOpenedPathsList` row;
- a row value without `entries`.

The database itself is not optional. The connection opens `state.vscdb` read-only outside any `try`, so a missing database file, or one without `ItemTable`, throws and ends the getter (see "## Left out").

## Modules

- `Options` (options.dfy): `Option`, and `Somes`, which is LINQ `Where(x => x != null)` over a list of nullable records, with its laws.
- `Sequences` (sequences.dfy): `FlatMap`, the shape of a `foreach` that `AddRange`s one block per element.
- `PathText` (path_text.dfy): `Path.GetFileName` and `string.TrimEnd(char)`.
- `LabelParser` (label_parser.dfy): the regular expression as a leftmost, lazy-then-greedy search that is computed. It is proved equal to its defining property. `WorkspaceLabel` does the label rewrite.
- `WorkspaceModel` (workspace_model.dfy): the entities.
  - the record `CursorWorkspace` and the classifier's answer;
  - the library collaborators;
  - the already-decoded contents of storage.json and of the database row of each instance.
- `CursorWorkspacesApi` (cursor_workspaces_api.dfy): `ParseVSCodeUri` and the getter. The getter is a method that appends in loops. It is proved equal to the specification function `AllWorkspaces`.
- `WorkspacesProperties` (workspaces_properties.dfy): what the getter promises about its result:
  - order;
  - counts;
  - where each record comes from;
  - which sources contribute nothing.

Inputs the model takes as parameters, none of them defined here:

- **Library and classifier calls.** `Uri.UnescapeDataString`, the classifier `ParseVSCodeUri.GetTypeWorkspace` and `new DirectoryInfo(p).Name` are arbitrary functions. They are passed in as the `Collaborators` value.
- **Instances.** The instance list (`VSCodeInstances.Instances`) is the sequence of `InstanceState` that the getter receives.
- **Reads.** What the file and database reads produce is already decoded inside each `InstanceState`.

## Behaviour a reader might not expect

A reader might expect three things of this code that it does not do. The model follows the code:

- **Unmatched labels.** One might expect a label that does not match the pattern to be dropped. Instead it becomes `" "` (two empty groups with a space between). See `WorkspacesProperties.UnmatchedLabelIsSpace` and `LabelParser.NoBracketLabel`.
- **Trailing space.** One might expect the space before the '[' to be trimmed. Group 1 keeps it. "MyProj [WSL: Ubuntu]" becomes "[WSL: Ubuntu] MyProj ", ending in a space. See `LabelParser.BracketSuffixLabel`.
- **No deduplication.** One might expect a list of distinct workspaces. Nothing removes duplicates. The same URI stored twice gives two equal records. See `WorkspacesProperties.NoDeduplication` and `WorkspacesProperties.WorkspaceCount`.

## Model

| member | source | states |
|---|---|---|
| PathText.LastSeparator | WorkspacesHelper/VSCodeWorkspacesApi.cs:30 | The result is -1 or the index of a separator ('/' or '\\'), and no separator follows it. |
| PathText.FileName | WorkspacesHelper/VSCodeWorkspacesApi.cs:30 | The result is the final segment of the path: a suffix with no separator that is the whole path or follows a separator. It is empty exactly when the path is empty or ends in a separator. |
| PathText.FinalSegmentUnique | WorkspacesHelper/VSCodeWorkspacesApi.cs:30 | A path has only one final segment, so `FileName` is determined by its contract. |
| PathText.TrimEnd | WorkspacesHelper/VSCodeWorkspacesApi.cs:36 | The result is a prefix of the input that does not end in the character, and only that character follows it in the input. |
| PathText.TrimmedEndUnique | WorkspacesHelper/VSCodeWorkspacesApi.cs:36 | Only one string meets that description, so `TrimEnd` is determined by its contract. |
| CursorWorkspacesApi.FolderName | WorkspacesHelper/VSCodeWorkspacesApi.cs:30-37 | When the URI does not end in a separator, the folder name is its non-empty final segment. Otherwise it is the directory name with every trailing ':' removed, so it never ends in ':'. |
| CursorWorkspacesApi.ParseVSCodeUri | WorkspacesHelper/VSCodeWorkspacesApi.cs:22-52 | No record exactly when the URI is null or the classifier finds no workspace type for its unescaped form. A record has `Path` = the unescaped URI, `RelativePath`, `ExtraInfo` and `TypeWorkspace` from the classifier, the given instance, the computed folder name, and no label. |
| LabelParser.CloseFor | WorkspacesHelper/VSCodeWorkspacesApi.cs:54 | Computes where `\]` lands after a '[': the last ']' on the same line that leaves `.+` at least one character, or -1. Its contract is `LabelParser.CloseForIsGreedy`. |
| LabelParser.OpenFrom | WorkspacesHelper/VSCodeWorkspacesApi.cs:54 | Computes the lazy `(.+?)\[` from a fixed start: it tries each '[' in turn while group 1 stays on one line. Its contract is `LabelParser.OpenFromIsLazy`. |
| LabelParser.MatchFrom | WorkspacesHelper/VSCodeWorkspacesApi.cs:54 | Computes the regex search, trying each start in turn. Its contract is `LabelParser.MatchFromIsLeftmost`, and through it `LabelParser.Match`. |
| LabelParser.Groups | WorkspacesHelper/VSCodeWorkspacesApi.cs:131-134 | Computes `Groups[1]` and `Groups[2]` of the match, both empty without one. Its contract is carried by `LabelParser.SingleLineLabel` and `LabelParser.WorkspaceLabelOnNoMatch`. |
| LabelParser.WorkspaceLabel | WorkspacesHelper/VSCodeWorkspacesApi.cs:131-135 | Computes the stored label `group2 + " " + group1`. Its contract is carried by `LabelParser.WorkspaceLabelOnNoMatch`, `LabelParser.SingleLineLabel`, `LabelParser.BracketSuffixLabel` and `LabelParser.NoBracketLabel`. |
| LabelParser.LastClose | WorkspacesHelper/VSCodeWorkspacesApi.cs:54 | The result is -1 or a ']' in the range, and no ']' of the range lies after it. This is the backtracking of the greedy `.+` onto `\]`. |
| LabelParser.LineEnd | WorkspacesHelper/VSCodeWorkspacesApi.cs:54 | The result is the first '\n' at or after the position, or the end of the text. `.` does not match '\n' in .NET. |
| LabelParser.CloseForIsGreedy | WorkspacesHelper/VSCodeWorkspacesApi.cs:54 | After a '[', the chosen ']' matches `.+\]` on the same line, and no later ']' that also matches exists. |
| LabelParser.OpenFromIsLazy | WorkspacesHelper/VSCodeWorkspacesApi.cs:54 | From one start, the search finds the first '[' that leaves `.+?` non-empty and on one line and has a matching ']'. It takes the greediest ']' for it, or reports that no '[' from there on matches. |
| LabelParser.MatchFromIsLeftmost | WorkspacesHelper/VSCodeWorkspacesApi.cs:54 | The search over starts finds the leftmost start with a match, then the shortest group 1 and the longest group 2, or no match from that start onwards. |
| LabelParser.Match | WorkspacesHelper/VSCodeWorkspacesApi.cs:131 | `Regex.Match` fails exactly when the pattern matches at no position. Otherwise it returns the leftmost match with a lazy group 1 and a greedy group 2. |
| LabelParser.LeftmostMatchUnique | WorkspacesHelper/VSCodeWorkspacesApi.cs:131 | Only one match satisfies the leftmost, lazy, greedy conditions, so `Match` is determined by its contract. |
| LabelParser.WorkspaceLabelOnNoMatch | WorkspacesHelper/VSCodeWorkspacesApi.cs:131-135 | The stored label is exactly " " when the pattern matches nowhere, and it starts with '[' when it matches. |
| LabelParser.SingleLineLabel | WorkspacesHelper/VSCodeWorkspacesApi.cs:131-135 | For a label without '\n', a match exists exactly when there is a '[' at index 1 or later with a ']' two or more positions after it. Group 1 is the prefix before the first such '['. Group 2 runs from there to the last ']', so later text is dropped. The label is `group2 + " " + group1`. |
| LabelParser.BracketSuffixLabel | WorkspacesHelper/VSCodeWorkspacesApi.cs:131-135 | `name[body]`, with no '[' in `name` and no line break, becomes `[body] name`. A space at the end of `name` stays in the label. |
| LabelParser.NoBracketLabel | WorkspacesHelper/VSCodeWorkspacesApi.cs:131-135 | A label with no '[' becomes " ". |
| CursorWorkspacesApi.HistoryRecord | WorkspacesHelper/VSCodeWorkspacesApi.cs:121-136 | A database entry gives no record exactly when it lacks `folderUri` or that URI does not parse. Otherwise the record is the parsed one with only its label changed. The label is present exactly when the entry has one, and it is then the rewritten label. |
| Options.Somes | WorkspacesHelper/VSCodeWorkspacesApi.cs:80-93 | Computes `Where(uri => uri != null)`: the non-null elements in order. Its contract is carried by `Options.SomesAppend`, `Options.SomesMembership`, `Options.SomesCount` and `Options.SomesPosition`. |
| Options.SomesAppend | WorkspacesHelper/VSCodeWorkspacesApi.cs:80-93 | Filtering out nulls commutes with concatenation. |
| Options.SomesMembership | WorkspacesHelper/VSCodeWorkspacesApi.cs:80-93 | A record is in the filtered list exactly when some element of the list is that record. |
| Options.SomesCount | WorkspacesHelper/VSCodeWorkspacesApi.cs:80-93 | The filtered list has one element per non-null element. |
| Options.SomesPosition | WorkspacesHelper/VSCodeWorkspacesApi.cs:80-93 | A non-null element lands in the filtered list right after the survivors of the elements before it, so stored order is kept. |
| Sequences.FlatMap | WorkspacesHelper/VSCodeWorkspacesApi.cs:62-142 | Computes the concatenation of one block per element, in element order: the `foreach` over instances. Its contract is carried by `Sequences.FlatMapSnoc`, `Sequences.FlatMapAppend` and `Sequences.FlatMapMembership`. |
| Sequences.FlatMapSnoc | WorkspacesHelper/VSCodeWorkspacesApi.cs:62-142 | One more element appends its block after all earlier blocks. |
| Sequences.FlatMapAppend | WorkspacesHelper/VSCodeWorkspacesApi.cs:62-142 | The blocks of a concatenation are the blocks of each part, in order. |
| Sequences.FlatMapMembership | WorkspacesHelper/VSCodeWorkspacesApi.cs:62-142 | An item is in the result exactly when the block of some element holds it. |
| CursorWorkspacesApi.ParseAll | WorkspacesHelper/VSCodeWorkspacesApi.cs:80-93 | Computes `Select(workspaceUri => ParseVSCodeUri(workspaceUri, vscodeInstance))`, element by element. Its contract is carried by `CursorWorkspacesApi.ParseAllAppend`. |
| CursorWorkspacesApi.ParseAllAppend | WorkspacesHelper/VSCodeWorkspacesApi.cs:80-93 | Parsing a concatenation of URI lists parses each part. |
| CursorWorkspacesApi.FolderUris | WorkspacesHelper/VSCodeWorkspacesApi.cs:91 | Computes `Select(x => x.FolderUri)` over storage.json `entries`. Its contract is carried by `CursorWorkspacesApi.StorageWorkspacesSplit` and `WorkspacesProperties.StorageMembership`. |
| CursorWorkspacesApi.HistoryRecords | WorkspacesHelper/VSCodeWorkspacesApi.cs:119-139 | Computes `HistoryRecord` for each database entry, in order. Its contract is carried by `CursorWorkspacesApi.HistoryRecordsSnoc` and `WorkspacesProperties.HistoryMembership`. |
| CursorWorkspacesApi.StoredWorkspaces3 | WorkspacesHelper/VSCodeWorkspacesApi.cs:75-85 | Computes the `workspaces3` list read from storage.json, empty when the file or the list is absent. Its contract is carried by `CursorWorkspacesApi.AddStorageWorkspaces` and `WorkspacesProperties.InstanceSourceOrder`. |
| CursorWorkspacesApi.StoredEntries | WorkspacesHelper/VSCodeWorkspacesApi.cs:75-94 | Computes the `entries` list read from storage.json, empty in the same cases. Its contract is carried by `CursorWorkspacesApi.AddStorageWorkspaces` and `WorkspacesProperties.InstanceSourceOrder`. |
| CursorWorkspacesApi.StoredUris | WorkspacesHelper/VSCodeWorkspacesApi.cs:78-94 | Computes all URIs storage.json supplies: `workspaces3` followed by `entries[].folderUri`. Its contract is carried by `WorkspacesProperties.StorageCount` and `WorkspacesProperties.StorageMembership`. |
| CursorWorkspacesApi.StoredHistory | WorkspacesHelper/VSCodeWorkspacesApi.cs:112-119 | Computes the database entries, none without a row or without `entries`. Its contract is carried by `WorkspacesProperties.HistoryCount` and `WorkspacesProperties.HistoryMembership`. |
| CursorWorkspacesApi.StorageWorkspaces | WorkspacesHelper/VSCodeWorkspacesApi.cs:67-102 | Computes the records storage.json contributes: the surviving parses of `StoredUris`. Its contract is carried by `CursorWorkspacesApi.StorageWorkspacesSplit`, `WorkspacesProperties.StorageCount` and `WorkspacesProperties.StorageMembership`. |
| CursorWorkspacesApi.StorageWorkspacesSplit | WorkspacesHelper/VSCodeWorkspacesApi.cs:78-94 | storage.json contributes the surviving `workspaces3` records, then the surviving `entries[].folderUri` records. |
| CursorWorkspacesApi.HistoryWorkspaces | WorkspacesHelper/VSCodeWorkspacesApi.cs:112-139 | Computes the records the database contributes: the surviving `HistoryRecords` of `StoredHistory`. Its contract is carried by `WorkspacesProperties.HistoryCount` and `WorkspacesProperties.HistoryMembership`. |
| CursorWorkspacesApi.InstanceWorkspaces | WorkspacesHelper/VSCodeWorkspacesApi.cs:64-139 | Computes one instance's records: its storage.json records, then its database records. Its contract is carried by `WorkspacesProperties.InstanceSourceOrder`, `WorkspacesProperties.InstanceRecordsOwned` and the two source lemmas. |
| CursorWorkspacesApi.AllWorkspaces | WorkspacesHelper/VSCodeWorkspacesApi.cs:60-144 | Computes the getter's list: each instance's records, in instance order. Its contract is carried by `CursorWorkspacesApi.Workspaces`, `WorkspacesProperties.WorkspaceCount`, `WorkspacesProperties.WorkspaceProvenance`, `WorkspacesProperties.InstanceBlock` and `WorkspacesProperties.EarlierRecordsStay`. |
| CursorWorkspacesApi.AllWorkspacesSnoc | WorkspacesHelper/VSCodeWorkspacesApi.cs:62-142 | The records of the instance read last follow those of all earlier instances. |
| CursorWorkspacesApi.HistoryRecordsSnoc | WorkspacesHelper/VSCodeWorkspacesApi.cs:119-139 | One more database entry appends its record, if it has one, after those of the earlier entries. |
| CursorWorkspacesApi.AddStorageWorkspaces | WorkspacesHelper/VSCodeWorkspacesApi.cs:67-102 | The new list is the old one followed by the surviving parses of `StoredUris`, the storage.json URIs read as a single list. The method applies the two `AddRange` calls separately, so nothing is added for a missing, undeserialisable or null file, or one without `OpenedPathsList`. |
| CursorWorkspacesApi.AddHistoryWorkspaces | WorkspacesHelper/VSCodeWorkspacesApi.cs:105-139 | The new list is the old one followed by the database records, in entry order. Nothing is added without a row or without `entries`. |
| CursorWorkspacesApi.Workspaces | WorkspacesHelper/VSCodeWorkspacesApi.cs:56-146 | The getter's list equals `AllWorkspaces`: for each instance in order, its storage.json records, then its database records. |
| WorkspacesProperties.AllWorkspacesAppend | WorkspacesHelper/VSCodeWorkspacesApi.cs:60-144 | The list for a concatenation of instance lists is the concatenation of their lists, so records are only ever appended. |
| WorkspacesProperties.InstanceBlock | WorkspacesHelper/VSCodeWorkspacesApi.cs:62-142 | The records of instance n come after those of every earlier instance and before those of every later one. |
| WorkspacesProperties.EarlierRecordsStay | WorkspacesHelper/VSCodeWorkspacesApi.cs:60-144 | The list after the first n instances is a prefix of the final list: later instances remove and reorder nothing. |
| WorkspacesProperties.InstanceSourceOrder | WorkspacesHelper/VSCodeWorkspacesApi.cs:78-139 | For every instance, whichever sources are present: the surviving `workspaces3` records, then those of storage.json `entries`, then those of the database entries, each in stored order. An absent source counts as an empty list. |
| WorkspacesProperties.UnreadableStorageStillReadsHistory | WorkspacesHelper/VSCodeWorkspacesApi.cs:67-118 | A missing, undeserialisable or null storage.json, or one without `OpenedPathsList`, contributes nothing. The database records of that instance are still added. |
| WorkspacesProperties.MissingHistoryKeepsStorage | WorkspacesHelper/VSCodeWorkspacesApi.cs:112-118 | A missing database row or a value without `entries` contributes nothing. The instance's storage.json records stay. |
| WorkspacesProperties.StorageCount | WorkspacesHelper/VSCodeWorkspacesApi.cs:78-94 | storage.json contributes exactly one record per stored URI that is not null and is recognised by the classifier. |
| WorkspacesProperties.HistoryCount | WorkspacesHelper/VSCodeWorkspacesApi.cs:119-139 | The database contributes exactly one record per entry with a `folderUri` that parses. |
| WorkspacesProperties.WorkspaceCount | WorkspacesHelper/VSCodeWorkspacesApi.cs:60-144 | The length of the result equals the number of surviving entries over all sources and instances. Nothing is merged or dropped beyond the filter. |
| WorkspacesProperties.StorageMembership | WorkspacesHelper/VSCodeWorkspacesApi.cs:78-94 | A record comes from storage.json exactly when some stored URI parses to it. Such a record carries no label, even for a labelled `entries` item, and names the instance. |
| WorkspacesProperties.HistoryMembership | WorkspacesHelper/VSCodeWorkspacesApi.cs:119-139 | A record comes from the database exactly when some entry yields it, and it names the instance. |
| WorkspacesProperties.InstanceRecordsOwned | WorkspacesHelper/VSCodeWorkspacesApi.cs:80-124 | Every record an instance contributes has that instance as `VSCodeInstance`. |
| WorkspacesProperties.WorkspaceProvenance | WorkspacesHelper/VSCodeWorkspacesApi.cs:62-142 | A record is in the result exactly when some instance contributes it. |
| WorkspacesProperties.WorkspaceOwner | WorkspacesHelper/VSCodeWorkspacesApi.cs:62-142 | Every record of the result names one of the instances. |
| WorkspacesProperties.UnmatchedLabelIsSpace | WorkspacesHelper/VSCodeWorkspacesApi.cs:128-136 | A labelled database entry whose label does not match still gives a record, with label " ". |
| WorkspacesProperties.NoDeduplication | WorkspacesHelper/VSCodeWorkspacesApi.cs:80-84 | The same recognised URI stored twice in `workspaces3` gives two equal records. |

## Left out

- Exceptions are not modelled:
  - a null element of storage.json `entries`: `x.FolderUri` throws inside the `try`, and the records appended so far stay;
  - a label that is JSON null or not a string: `Regex.Match(null)` or `GetString()` throws, uncaught;
  - a `folderUri` that is not a string (`GetString()` throws);
  - malformed JSON in the database row;
  - a failure of `connection.Open()`, which is outside any `try`; a missing `state.vscdb` is such a failure, because the file is opened read-only;
  - a database without the `ItemTable` table, which makes `ExecuteScalar` throw, uncaught;
  - a row value whose root is not an object, whose `entries` is not an array, or whose element is not an object: `TryGetProperty` or `EnumerateArray` throws, uncaught;
  - `new DirectoryInfo("")` throws `ArgumentException` when the unescaped URI is empty and the classifier accepts it. In the storage.json `try` that cuts the rest of the file short; in the database loop it ends the getter. The model instead returns `TrimEnd(directoryName(""), ':')` there.

  The model's inputs cannot express these cases.
- File and SQLite I/O (`File.Exists`, `ReadAllText`, the query) and the JSON decoding: each instance's storage file and history row are given already decoded.
- Which inputs the JSON deserialiser rejects: the model has an `Undeserialisable` case instead.
- The logging through the global plugin context, because it does not affect the returned list.
- The URI classifier `GetTypeWorkspace`, `Uri.UnescapeDataString` and `DirectoryInfo.Name`: they are arbitrary functions passed in, because their source is not part of this model.
- Instance discovery (`VSCodeInstances.Instances`): an input sequence.
- PathText.FileName: Windows `Path.GetFileName` also ends the file name at a volume separator (`C:foo` gives `foo`). The model splits only at '/' and '\\'. Stored values are URIs that start with a scheme (`file:`, `vscode-remote:`), so no drive root comes before their last separator and the two agree on them.
- The set of workspace kinds (`Folder`, `WorkspaceFile`, `Remote`) is not in the code modelled. Only whether the classifier reports a kind matters here, and the kind is copied unchanged.
- The `workspaceLabelParser` field is a fixed regex. It is modelled as the search functions of `LabelParser`, not as an object.
