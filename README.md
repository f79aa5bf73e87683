# NodeBB admin socket gate, modelled in Dafny

This project models the core of NodeBB's administrative socket namespace
(`src/socket.io/admin.ts` and its compiled form `src/socket.io/admin.js`):

- **the authorization gate** `SocketAdmin.before(socket, method)`. An
  administrator is let through at once. Anyone else is let through only when
  `method` is an own key of `privileges.admin.socketMap` and at least one
  privilege of that entry, split on `;`, passes `privileges.admin.can`.
  Every denial logs one warning and throws `[[error:no-privileges]]`;
- **the restart and reload workflow** `logRestart`, `restart` and `reload`.
  These are strict sequences of collaborator calls: build, build event,
  restart event, the `lastrestart` record, each awaited, and last
  `meta.restart()`, which is called without `await` (admin.ts:117, 142). The
  first call that fails ends the run with that call's error;
- **the pass-through methods** `fireEvent`, `deleteEvents`, `deleteAllEvents`,
  `getSearchDict`, `deleteAllSessions` and `reloadAllSessions`;
- **the composition of the `SocketAdmin` object**: 18 sub-namespace modules
  in an object literal, then 10 handler assignments.

Collaborators are parameters. `user.isAdministrator` enters as a boolean,
`privileges.admin.can` as a function `(privilege, uid) -> bool`, and the
socket map as a `map<string, string>`. Every other collaborator call is an
`Effect` recorded in a trace. Its outcome comes from an oracle
`respond: Effect -> Reply`, so a failure can be injected at any step.
`Date.now()` is the parameter `now`, and `meta.config.defaultLang` is the
parameter `defaultLang`.

Modules:

- `JsValues`: JavaScript values, truthiness, `||`, and reading a property.
- `JsStrings`: `split` with a one-character separator, `join`, and the
  decimal text of integers.
- `AdminSurface`: the socket, the effects, replies, completions, and the
  namespace table.
- `AdminGate`: `before`.
- `RestartWorkflow`: `logRestart`, `restart` and `reload`, with `Run` as
  their reference semantics.
- `Passthrough`: the remaining methods.

Three behaviours of the code are worth stating up front:

- A non-administrator calling a method that has no `socketMap` entry is
  **denied**. The privilege list is then empty, so the test
  `privilegeSet.length` at admin.ts:107 fails (admin.ts:99-101, 107).
- A mapped method whose entry is the empty string is not denied outright.
  `"".split(';')` is `[""]` (admin.ts:100), so the call is decided by
  `can("", uid)`.
- `restart` and `reload` rethrow the failing collaborator's error unchanged
  (admin.ts:115-143). No `try`/`catch` wraps it.

admin.js contains the same functions in emitted form, and the same members
model both files:

- `before`: admin.js:87-101
- `logRestart`: admin.js:103-116
- `restart`: admin.js:117-122
- `reload`: admin.js:123-134
- `fireEvent`: admin.js:135-138
- `getSearchDict`: admin.js:159-167
- `deleteAllSessions`: admin.js:168-170
- `reloadAllSessions`: admin.js:171-176

`deleteEvents` and `deleteAllEvents` differ between the two files. admin.ts
hands the callback to the events module. admin.js converts the returned
promise into a callback (admin.js:139-158) with `.then(ok).catch(err)`.
`Passthrough.DeleteEvents` and `Passthrough.DeleteAllEvents` are built on
`Passthrough.CallThenCallback`, the corrected `.then(ok, err)` form of the
Findings section. They agree with admin.js whenever the callback returns
normally. `Passthrough.ThenCatchCallback` models admin.js as written.

## Model

| member | source | states |
|---|---|---|
| `JsStrings.Split` | src/socket.io/admin.ts:100 | `split(';')` never yields an empty list; no piece contains `;`; there is one more piece than there are separators |
| `JsStrings.JoinSplit` | src/socket.io/admin.ts:100 | joining the pieces of a split with `;` gives back the socket-map entry |
| `JsStrings.SplitJoin` | src/socket.io/admin.ts:100 | splitting the join of `;`-free pieces gives back exactly those pieces |
| `JsValues.Or` | src/socket.io/admin.ts:146 | the JavaScript or-operator gives one of its operands, and the result is truthy iff either operand is |
| `AdminSurface.HandlerNamesDistinct` | src/socket.io/admin.ts:93-173 | the ten handler names are pairwise distinct, so no handler assignment replaces another |
| `AdminSurface.HandlerNamesAreFree` | src/socket.io/admin.ts:66-173 | no handler name is a sub-namespace key, so no handler assignment replaces a sub-namespace |
| `AdminSurface.ComposeSurface` | src/socket.io/admin.ts:66-173 | after the literal and the ten handler assignments, every sub-namespace key still holds its own module, every handler name holds its handler, and there is no other key |
| `AdminSurface.NamespaceKeysDistinct` | src/socket.io/admin.ts:66-85 | the 18 sub-namespace keys are pairwise distinct |
| `AdminGate.PrivilegeSet` | src/socket.io/admin.ts:99-101 | an unmapped method has the empty list; a mapped one has a non-empty list of `;`-free pieces that join back to its entry, which with `SplitJoin` makes it exactly `entry.split(';')` |
| `AdminGate.Answers` | src/socket.io/admin.ts:103-105 | `map` over the list, proved by recursion: one `can` answer per privilege, the i-th answer for the i-th privilege |
| `AdminGate.Queries` | src/socket.io/admin.ts:103-105 | the calls `map` starts, proved by recursion: one `can(privilege, uid)` call per privilege, the i-th call for the i-th privilege |
| `AdminGate.Some` | src/socket.io/admin.ts:105 | `some(Boolean)` evaluated left to right is true iff some answer is true |
| `AdminGate.AnswersAnyOf` | src/socket.io/admin.ts:103-105 | the combined answer is true iff some listed privilege passes `can` |
| `AdminGate.AdministratorBypass` | src/socket.io/admin.ts:93-97 | an administrator is let through for every method; only `isAdministrator` is called; the socket map and `can` have no influence |
| `AdminGate.UnmappedIsDenied` | src/socket.io/admin.ts:99-112 | a non-administrator calling a method that is not an own key of the map is refused with `[[error:no-privileges]]` after exactly one warning, and no `can` query is made |
| `AdminGate.MappedIsAnyOf` | src/socket.io/admin.ts:99-109 | for a mapped method, a non-administrator is let through iff some privilege of `entry.split(';')` passes `can` |
| `AdminGate.Before` | src/socket.io/admin.ts:93-112 | the whole gate: the call is let through iff the caller is an administrator, or the method is mapped and some privilege of its entry, split on `;`, passes `can`; otherwise it throws |
| `AdminGate.EmptyEntryAsksEmptyPrivilege` | src/socket.io/admin.ts:99-109 | an empty entry gives the list `[""]`, and the call is decided by `can("", uid)` |
| `AdminGate.OrderIndependent` | src/socket.io/admin.ts:103-107 | two socket maps whose entries for the method list the same privileges, in any order and with any repeats, give the same decision |
| `AdminGate.EveryPrivilegeAsked` | src/socket.io/admin.ts:103-105 | a non-administrator's call makes exactly `isAdministrator`, then `can` for every listed privilege in order with no short cut, then one warning on denial only, and nothing else |
| `AdminGate.WarnsExactlyOnDenial` | src/socket.io/admin.ts:107-112 | a denial logs exactly one warning naming the method and the uid, as the last call, and throws `[[error:no-privileges]]`; a call that is let through logs no warning |
| `AdminGate.SinglePrivilegeEntry` | src/socket.io/admin.ts:99-112 | a method mapped to one privilege `p` is let through iff `p` passes; otherwise exactly one warning is logged |
| `AdminGate.TwoPrivilegeEntry` | src/socket.io/admin.ts:99-109 | an entry `"a;b"` lets the caller through iff `can(a)` or `can(b)` |
| `RestartWorkflow.AuditSteps` | src/socket.io/admin.ts:120-131 | `logRestart` writes the restart event, then the `lastrestart` record; neither is a restart, and the record appears once |
| `RestartWorkflow.RestartSteps` | src/socket.io/admin.ts:115-118 | `restart` is the audit followed by `meta.restart()` as the last call; it holds exactly one restart and one record write |
| `RestartWorkflow.ReloadSteps` | src/socket.io/admin.ts:133-143 | `reload` is the build and its event followed by all of `restart`; `meta.restart()` is the last call and the only restart |
| `RestartWorkflow.Run` | src/socket.io/admin.ts:115-143 | awaiting calls in sequence makes a prefix of them; a run that returns made every call and resolves to `undefined`; a run that throws throws the rejection of its last call |
| `RestartWorkflow.RunClosedForm` | src/socket.io/admin.ts:120-131 | awaiting steps in sequence: if all resolve, all are made and the run resolves; if step k is the first to reject, exactly steps 0..k are made and step k's error is thrown |
| `RestartWorkflow.RunResolvesIffAllResolve` | src/socket.io/admin.ts:120-131 | a run resolves iff every step resolves |
| `RestartWorkflow.RunAppend` | src/socket.io/admin.ts:141-142 | awaiting a sub-sequence and then the rest equals awaiting the whole sequence; a failure in the first part skips the rest |
| `RestartWorkflow.LogRestart` | src/socket.io/admin.ts:120-131 | the restart event, then the `lastrestart` record with uid, ip and `now`; the record is written only if the event write resolved |
| `RestartWorkflow.Restart` | src/socket.io/admin.ts:115-118 | `restart` runs `logRestart` and then `meta.restart()`; when `meta.restart()` is called, the whole sequence was made |
| `RestartWorkflow.Reload` | src/socket.io/admin.ts:133-143 | `reload` runs build, build event, `logRestart`, then `meta.restart()`, each only after the previous step resolved |
| `RestartWorkflow.RestartOnlyAfterAudit` | src/socket.io/admin.ts:115-131 | in `restart`, `meta.restart()` happens at most once and only after both audit writes resolved; the record is written at most once |
| `RestartWorkflow.RestartRunLength` | src/socket.io/admin.ts:115-131 | a restart makes one step past the first failed audit write, or all three steps when both writes succeed |
| `RestartWorkflow.FailedAuditPreventsRestart` | src/socket.io/admin.ts:115-131 | if the event write fails, nothing follows it; if the record write fails, no restart happens; either way the failed write's error is thrown |
| `RestartWorkflow.RestartSucceeds` | src/socket.io/admin.ts:115-131 | when every call succeeds: restart event, `lastrestart` record, exactly one restart, and the call resolves |
| `RestartWorkflow.FailedBuildStopsReload` | src/socket.io/admin.ts:133-134 | a failed build ends `reload` with the build's error: no event, no record, no restart |
| `RestartWorkflow.ReloadOnlyAfterBuildAndAudit` | src/socket.io/admin.ts:133-143 | in `reload`, the calls made are a prefix of the full sequence, and `meta.restart()` happens at most once and only after all four earlier steps resolved |
| `RestartWorkflow.ReloadSucceeds` | src/socket.io/admin.ts:133-143 | when every call succeeds: build, build event, restart event, record, exactly one restart |
| `Passthrough.FireEvent` | src/socket.io/admin.ts:145-148 | undefined or null `data` throws the `TypeError` of reading `data.name`, with no emit and no callback; otherwise it broadcasts `data.name` with the payload if truthy, else `{}` (so always a truthy payload), then calls `callback()` once |
| `Passthrough.CallThenCallback` | src/socket.io/admin.js:139-148 | the corrected form: the collaborator call, then exactly one callback invocation, with no arguments on success and the error on failure |
| `Passthrough.ThenCatchCallback` | src/socket.io/admin.js:141-147 | `.then(cb).catch(cb)` as written: one callback when the call fails or the callback returns; two callback invocations, the second with the thrown value, when the call resolves and the callback throws |
| `Passthrough.DeleteEvents` | src/socket.io/admin.js:139-148 | forwards `eids` unchanged, then calls back once with the outcome of the deletion |
| `Passthrough.DeleteAllEvents` | src/socket.io/admin.js:149-158 | clears the event log, then calls back once with the outcome |
| `Passthrough.DeleteAllSessions` | src/socket.io/admin.ts:164-166 | deletes all sessions, then calls back once with the outcome |
| `Passthrough.SearchLanguage` | src/socket.io/admin.ts:160 | the or-chain of `userLang`, the site default and `'en-GB'`: the user's language when truthy, else the site default when truthy, else `en-GB`; the result is always truthy |
| `Passthrough.SearchLanguageFallback` | src/socket.io/admin.ts:160 | the user's language if non-empty, else the site default if non-empty, else `en-GB`; never empty |
| `Passthrough.MissingUserLanguage` | src/socket.io/admin.ts:160 | without a `userLang` setting: the site default if truthy, else `en-GB` |
| `Passthrough.GetSearchDict` | src/socket.io/admin.ts:158-162 | reads the caller's settings first; a rejection is rethrown; settings that are undefined or null throw the `TypeError` of reading `userLang`; otherwise it asks for the dictionary of the fallback language and returns it or rethrows its error |
| `Passthrough.RoomInjective` | src/socket.io/admin.ts:169 | distinct uids give distinct rooms `uid_<uid>` |
| `Passthrough.ReloadAllSessions` | src/socket.io/admin.ts:168-171 | emits `event:livereload` to the room of the caller's uid and no other uid, then calls `callback()` once |

## Findings

| source | as written | input that shows it | evidently intended | confidence | as-written member | corrected member |
|---|---|---|---|---|---|---|
| src/socket.io/admin.js:141-147 | `deleteEvents(eids).then(() => callback()).catch((err) => callback(err))`. The `catch` also catches an exception thrown by the success callback. `deleteAllEvents` (admin.js:151-157) has the same shape. | `events.deleteEvents` resolves and the first `callback()` throws `e`. The callback is then called as `callback()` and then as `callback(e)`. | exactly one callback per call, as the comments at admin.js:143 and 146 say: `.then(() => callback(), (err) => callback(err))` | low: not executed; needs a callback that throws | `Passthrough.ThenCatchCallback` | `Passthrough.CallThenCallback` |

## Left out

- `getServerTime` (admin.ts:173-179): it only reads the wall clock and the timezone offset of `Date`, so there is no logic to state.
- The rejections of `user.isAdministrator` and `privileges.admin.can` inside `before` are not modelled: both enter as plain answers. Which rejection `Promise.all` reports depends on timing.
- Concurrency and scheduling (`Promise.all`, `async`/`await`, `promisify(SocketAdmin)`) are not modelled. The `can` queries are listed in the order `map` starts them.
- The winston message text is not modelled; a warning is the effect `Warn(method, uid)`.
- The 18 sub-namespace modules are not part of this model; only their keys and module paths are. The transport code in socket.io/index, which resolves `namespace.method` names and calls `before` ahead of a handler, is not part of this model either.
- The socket.io transport (`server.emit`, `websockets.in(room).emit`) is modelled only as recorded effects.
- JavaScript numbers are modelled as integers. NaN, -0 and fractions are not modelled, in truthiness or in the decimal text of a uid. Two more differences in the decimal text: JavaScript writes numbers of magnitude 1e21 or more in exponent form (`${1e21}` is `"1e+21"`), so `Room` names a different room for such a uid; and integers beyond 2^53 are not exact in JavaScript, while the model's are.
- `meta.restart()` is not awaited (admin.ts:117, 142; admin.js:120, 132). A `Rejected` reply to `MetaRestart` stands for a synchronous throw, which rejects the `restart` or `reload` promise. If `meta.restart()` instead returned a rejected promise, `restart` and `reload` would still resolve; `respond` must then answer `Resolved` for `MetaRestart`, and the model does not record the unhandled rejection.
- Property reads ignore prototype properties. The message of the `TypeError` thrown by a read from undefined or null is V8's wording; other engines word it differently.
- admin.ts hands the callback of `deleteEvents`, `deleteAllEvents` and `deleteAllSessions` to the collaborator, whose code is not part of this model. The model assumes the collaborator calls it once with its outcome.
- `respond` is deterministic per effect: two identical calls would get the same reply. No invocation makes the same `respond`-answered call twice. The `can` queries of `before` are not answered by `respond`; an entry such as `"a;a"` asks `can("a", uid)` twice and gets the same answer both times.
- admin.js reads `user` without importing it (admin.js:88, 162, 169). The model gives the intended behaviour, not the ReferenceError.
- The TypeScript emit helpers of admin.js (lines 1-36) are not modelled.
- The socket map values are assumed to be strings, as the `as string` cast at admin.ts:100 asserts.
- The ten handler assignments (admin.ts:93-173) are modelled as one pass over the handler names in source order. The handler bodies are the members of `AdminGate`, `RestartWorkflow` and `Passthrough`, not values stored in the map.
