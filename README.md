# Extension host bookkeeping of Programmer's Notepad (`App` in extapp.cpp)

This project models the part of Programmer's Notepad's `App` object that keeps
state and makes decisions: the set of loaded extensions, the registry of event
sinks, the router for `"<runner-id>:<payload>"` extension commands, and the
start-up, clear-user-data and shutdown sequences. It proves what these do.

The `App` object becomes a Dafny class `ExtApp.App` with these fields:

- `exts`: `m_exts`, the loaded extensions in load order.
- `sinks`: `m_sinks`, the registered event sinks in registration order.
- `canLoad`: `m_bCanLoadExtensions`, which is false in safe mode.
- `effects`: the calls listed here that the object makes into collaborators
  it does not own, in order: OnAppClose and OnNewDocument to sinks, Unload to
  extensions, LOG, Script::Run, UNEXPECTED, directory creation and deletion,
  and the release of settings, options and the dispatcher.

Outcomes the object cannot decide for itself are parameters:

- `valid: string -> bool` is `Extension::Valid()` for an extension built from
  a path.
- `deleted` is whether `DeleteDirectory` succeeds.
- `created` is whether `CreateDirectoryRecursive` succeeds.

The configured path list is a parameter too. It comes from
`AppSettings::GetExtensions`.

Modules:

- `AppTypes` (types.dfy): extensions, sinks, documents and effects.
- `CommandRouter` (command_router.dfy): the command split and the routing
  decision, as pure functions.
- `EventSinks` (event_sinks.dfy): removal with `std::list::remove` semantics,
  and the notices a broadcast sends.
- `ExtensionSet` (extension_set.dfy): which paths are loaded, what loading
  does, and the unload notices.
- `ExtApp` (app.dfy): the class and the shutdown-order lemmas.

The imperative members mirror the loops of the source. `LoadExtensions`,
`UnloadExtensions` and `OnNewDocument` are `while` loops over the lists. Each
is proved against a specification function, such as `Loaded`, `LoadEffects`,
`CloseNotices`, `UnloadNotices` or `DocNotices`. The properties of those
functions are proved as lemmas.

`RemoveEventSink` calls `std::list::remove`, which drops every equal entry,
not just the first. `EventSinks.AddTwiceRemoveOnce` proves that after two adds
and one remove the sink is no longer registered.

## Model

| member | source | states |
|---|---|---|
| CommandRouter.FindFirst | pnwtl/extapp.cpp:176-179 | `find(':')` gives the first position of the character, with no occurrence before it, and gives npos (None) exactly when the character is absent |
| CommandRouter.Parse | pnwtl/extapp.cpp:176-181 | there is no split exactly when the command has no colon; otherwise the runner id holds no colon and `runnerId + ":" + payload` rebuilds the command |
| CommandRouter.ParseFormat | pnwtl/extapp.cpp:176-181 | splitting `id + ":" + payload` gives back `id` and `payload` when `id` has no colon, even if the payload has colons |
| CommandRouter.ReservedPrefix | pnwtl/extapp.cpp:181-182 | the runner id is exactly `"ext"` if and only if the command starts with `"ext:"` |
| CommandRouter.Route | pnwtl/extapp.cpp:174-192 | no colon is ignored; the command is reserved exactly when it starts with `"ext:"`; any other command is run as a script whose source is the whole original command |
| ExtApp.App.RunExtensionCommand | pnwtl/extapp.cpp:174-192 | no colon: no effect; `ext:` prefix: one `Unexpected("Not Yet Implemented")` and no script; otherwise exactly one `RunScript(command)` with the whole command |
| EventSinks.Without | pnwtl/extapp.cpp:259-262 | after removal the sink is absent; every other sink is still present, and nothing new appears |
| EventSinks.WithoutAppend | pnwtl/extapp.cpp:259-262 | removal works on each part of a list separately, so the remaining sinks keep their order |
| EventSinks.WithoutAbsent | pnwtl/extapp.cpp:259-262 | removing an unregistered sink leaves the list unchanged |
| EventSinks.WithoutKeepsOthers | pnwtl/extapp.cpp:259-262 | every other sink keeps its exact number of registrations |
| EventSinks.AddTwiceRemoveOnce | pnwtl/extapp.cpp:254-262 | two adds of a sink followed by one remove leave the list as if the sink had never been added |
| EventSinks.RemovedSinkHearsNothing | pnwtl/extapp.cpp:259-262 | after removal, later OnAppClose and OnNewDocument broadcasts never reach that sink |
| EventSinks.CloseNotices | pnwtl/extapp.cpp:232-235 | one OnAppClose per registered entry |
| EventSinks.CloseNoticesAt | pnwtl/extapp.cpp:232-235 | the k-th OnAppClose goes to the k-th registered sink |
| EventSinks.DocNotices | pnwtl/extapp.cpp:285-288 | one OnNewDocument per registered entry |
| EventSinks.DocNoticesAt | pnwtl/extapp.cpp:283-289 | the k-th OnNewDocument goes to the k-th registered sink, and every notice carries the same document |
| ExtensionSet.Loaded | pnwtl/extapp.cpp:146-153 | no more extensions are appended than there are configured paths (the per-path outcome is `LoadPrefixStep`) |
| ExtensionSet.LoadedMembers | pnwtl/extapp.cpp:146-153 | an extension is appended if and only if its path is listed, not disabled by a leading `#` or `!`, and valid |
| ExtensionSet.IsDisabled | pnwtl/extapp.cpp:147 | the empty path is never disabled (its first character reads as the terminator); a disabled path starts with `#` or `!`, and every non-empty path starting with either is disabled |
| ExtensionSet.LoadStepShape | pnwtl/extapp.cpp:147-159 | one path produces no effect exactly when it is disabled; otherwise its first effect constructs the extension, it has at most two effects, and it logs `"Failed to load extension: " + path` exactly when the extension is invalid |
| ExtensionSet.LoadEffects | pnwtl/extapp.cpp:146-159 | a path list produces at most two effects per path in total (the per-path outcome is `LoadPrefixStep`) |
| ExtensionSet.LoadEffectsMembers | pnwtl/extapp.cpp:146-159 | loading only constructs and logs; a path is constructed if and only if it is listed and not disabled; `"Failed to load extension: " + path` is logged if and only if the path is listed, enabled and invalid |
| ExtensionSet.LoadedAppend | pnwtl/extapp.cpp:142-161 | loading a concatenated list appends the extensions of each part in turn, so one failure never stops the rest of the batch |
| ExtensionSet.LoadEffectsAppend | pnwtl/extapp.cpp:142-161 | the effects of a concatenated list are those of each part in turn |
| ExtensionSet.LoadPrefixStep | pnwtl/extapp.cpp:146-159 | processing one more path adds only that path's own outcome to the extensions and to the effects |
| ExtensionSet.LoadAccounting | pnwtl/extapp.cpp:149-159 | every constructed extension is either appended or logged exactly once: appended count plus log count equals construction count |
| ExtensionSet.LoadAllGood | pnwtl/extapp.cpp:146-153 | when every path is enabled and valid, the k-th appended extension is the k-th path's, and nothing is logged |
| ExtensionSet.LoadOneInvalid | pnwtl/extapp.cpp:149-159 | an enabled path whose extension is invalid is not appended and yields exactly one log entry |
| ExtensionSet.OneInvalidAmongValid | pnwtl/extapp.cpp:142-161 | with one invalid path among N valid ones, N extensions are loaded, the invalid one is not, and exactly one entry is logged |
| ExtensionSet.UnloadNotices | pnwtl/extapp.cpp:237-240 | one Unload per loaded extension |
| ExtensionSet.UnloadNoticesAt | pnwtl/extapp.cpp:237-240 | the k-th Unload goes to the k-th extension in insertion order |
| ExtApp.EnsureDirEffects | pnwtl/extapp.cpp:122-129 | ensuring the directory always first tries to create it, and reports `Unexpected("Could not create user settings folder")` exactly when the creation fails, with nothing else |
| ExtApp.ShutdownEffects | pnwtl/extapp.cpp:104-117 | shutdown has one effect per sink, one per extension, and four releases (their order is `ShutdownSequence`) |
| ExtApp.ShutdownSequence | pnwtl/extapp.cpp:104-117 | shutdown emits OnAppClose to each sink in order, then Unload to each extension in order, then deletes settings, runs the deletion sweep, releases options and deletes the dispatcher |
| ExtApp.ShutdownOrder | pnwtl/extapp.cpp:104-117 | shutdown never goes back a stage: all OnAppClose come before any Unload, and all unloads come before any release of settings, options or dispatch |
| ExtApp.App.constructor | pnwtl/extapp.cpp:33-54 | start-up initialises the string loader, settings and options, then ensures the user settings directory, then loads the options cache; no extensions or sinks yet, and loading is allowed |
| ExtApp.App.EnsureUserSettingsDir | pnwtl/extapp.cpp:122-129 | the directory is created, and a failure is reported as `Unexpected("Could not create user settings folder")` |
| ExtApp.App.Init | pnwtl/extapp.cpp:67-89 | the schemes are loaded and the command dispatcher is built; no extension is loaded |
| ExtApp.App.SetCanLoadExtensions | pnwtl/extapp.cpp:194-197 | the safe-mode flag takes the given value |
| ExtApp.App.LoadExtensions | pnwtl/extapp.cpp:134-162 | in safe mode nothing is constructed, logged or appended; otherwise the set becomes the old set followed by `Loaded(paths)`, and the effects grow by `LoadEffects(paths)` |
| ExtApp.App.ClearUserData | pnwtl/extapp.cpp:207-225 | returns whether the deletion succeeded; on failure it reports the failure and does nothing else; on success it clears the interface settings, then ensures the directory |
| ExtApp.App.UnloadExtensions | pnwtl/extapp.cpp:230-242 | every sink gets OnAppClose in order, then every extension gets Unload in insertion order; afterwards the set is empty and the sinks are unchanged |
| ExtApp.App.AddEventSink | pnwtl/extapp.cpp:254-257 | the sink is appended at the end and the earlier entries keep their order |
| ExtApp.App.RemoveEventSink | pnwtl/extapp.cpp:259-262 | the registry becomes `Without(old registry, sink)` |
| ExtApp.App.OnNewDocument | pnwtl/extapp.cpp:283-289 | every sink gets one OnNewDocument with that document, in registration order, and nothing else changes |
| ExtApp.App.Deinit | pnwtl/extapp.cpp:104-117 | the effects grow by `ShutdownEffects(sinks, old extensions)`; the set is emptied and the sinks are unchanged |

## Left out

- These GUI and document delegations have no decision logic and act on window objects that are not part of this model: `GetCurrentDocument`, `OpenDocument`, `NewDocument`, `FindInFiles`, `GetGlobalOutputWindow`, `GetMainWindow` and `GetUserSearchOptions`.
- `InputBox` is a modal dialog and `ReleaseString` is a raw `delete[]`. Neither is modelled; buffer ownership is outside the model.
- `GetVersion`, `GetIFaceVersion`, `GetScriptRegistry`, `GetOptionsManager`, `GetCommandDispatch` and `GetSettings` only return constants or singletons.
- The string loader, settings, options, scheme manager and command dispatcher are not modelled. The constructor and `Init` record their steps as effects only. The paths from `OPTIONS->GetPNPath`, including the keymap path, are not modelled.
- Building an extension loads a DLL. That is represented by a `ConstructExtension` effect and the `valid` oracle. Whatever an extension's own `Unload` does is outside the model.
- An extension that fails validation is never deleted in the source. The model does not track allocation, so this leak is not represented.
- `Script::Run` is recorded as a `RunScript` effect; the script backend is external.
- `UNEXPECTED` and `RETURN_UNEXPECTED` are recorded as `Unexpected` effects, not process aborts. `RETURN_UNEXPECTED` also returns its value.
- Exceptions raised by a sink or by `Unload` are not modelled. In the source such an exception would abort the remaining notifications or unloads. The model assumes every call returns.
- Sinks and documents are opaque handles compared by equality. The reference counting of `IAppEventSinkPtr` and `IDocumentPtr` is not modelled.
- An extension is identified by its load path. Two extensions loaded from the same path are equal values in the model, but distinct objects in the source.
- ExtApp.App.LoadExtensions: calls from extensions and sinks back into `App` are not modelled. Line 149 passes `this` to every extension, and `OnAppClose`, `OnNewDocument` and `Unload` handlers may call `AddEventSink`, `RemoveEventSink` or other `App` members. `LoadExtensions`, `UnloadExtensions` and `OnNewDocument` treat every such call as leaving `App` unchanged: their frames keep `sinks` fixed and their effects hold only the calls the loops themselves make. Changes to `m_sinks` during an iteration at lines 232 or 285 are therefore not captured.
- Threads are not modelled. The object is used from one thread only.
