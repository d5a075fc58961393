# System storage: validation and dispatch layer

This project models the native layer behind the `@system.storage` interface.
The interface offers `get`, `set`, `delete` and `clear` over a string key/value preferences store.
Each call is handled in two steps:

- An **execute step** checks byte lengths in a fixed order. It writes a status code into the operation context's `output`. If every check passes, it opens the store and reads or writes it, with `val` receiving what a read returns.
- A **completion step** turns that status into handler calls:
  - `success(val)` when the status is `E_OK`, otherwise `fail(message, code)`;
  - then `complete()`;
  - then resolution of the returned promise with `undefined`.
  
  Handlers the caller did not supply are skipped. A handler that throws ends the completion step at once: the later handlers are not called and the promise is never resolved.

Modules:

- `PreferencesErrno` (`errno.dfy`): the status codes.
- `PreferencesStore` (`preferences.dfy`): the preferences object as an in-memory `map` from byte strings to byte strings.
  - Its read falls back to the default for the empty key or an absent key.
  - Its write and delete refuse the empty key with `E_KEY_EMPTY`.
  - The class `Preferences` holds the map and updates it in place.
- `SystemStorage` (`system_storage.dfy`): the four execute steps, `GetMessageInfo` and the completion step.
  - Each execute step is a pure function (`GetExec`, `SetExec`, `DeleteExec`, `ClearExec`). The function states the precedence of the checks and what happens to the store.
  - Each step is also an imperative method of the class `AsyncContext`, which has the fields `key`, `def`, `val` and `output`. Each method is proved equal to its function.
  - `CompletionTrace` is what the completion step produces when every handler returns normally. `CompletionOutcome` is what it produces when some handlers throw: a prefix of `CompletionTrace` that stops at the first call that threw.
  - `Complete` builds the event trace by guarded appends with early returns, and is proved equal to `CompletionOutcome`.
- `StorageSessions` (`sessions.dfy`):
  - `Dispatch`: one whole call, with `Invoke` as its imperative counterpart.
  - `Session`: a sequence of awaited calls. `Stored` gives the store such a sequence leaves.
  - Lemmas relating several calls: set then get, delete then get, clear then get, frame properties, and the entry shape every session keeps.

Details of the model:

- Strings are byte sequences (`seq<uint8>`), because the limits count `std::string::size()`, the UTF-8 byte length.
- Opening the store touches the file system, so each operation takes its result as a parameter, `openCode`.
- The header that defines the error codes is not part of this model. The values of `E_KEY_EMPTY` (-1006), `E_KEY_EXCEED_LENGTH_LIMIT` (-1016), `E_VALUE_EXCEED_LENGTH_LIMIT` (-1017) and `E_DEFAULT_EXCEED_LENGTH_LIMIT` (-1018) are the ones the unit tests assert.
- `E_OK` is 0 and `E_ERROR` is -1001. The model relies only on these two being distinct from each other and from the four codes above.

The model follows the code, including where the code differs from what its own error messages say or from what a caller might assume:

- The limits are checked with `>`. A 32-byte key and a 128-byte value or default are accepted, although the messages say "shorter than".
- `set` and `delete` do not check for an empty key themselves. The store's write and delete refuse it after the length checks and the open. So `set` with an empty key and a 129-byte value reports -1017, not -1006.
- `delete` and `get` also refuse keys over 32 bytes with -1016.
- Every code other than the four known ones gets the message "unknown err".
- `success` receives `val` for every operation. For `set` that is the value written. For `delete` and `clear` it is whatever the options object held under `value`.

## Model

| member | source | states |
|---|---|---|
| `SystemStorage.GetMessageInfo` | frameworks/js/napi/preferences/src/napi_system_storage.cpp:72-92 | the four known codes map to their four fixed messages; every other code maps to "unknown err" |
| `SystemStorage.MessageIdentifiesCode` | frameworks/js/napi/preferences/src/napi_system_storage.cpp:72-92 | no known code gets "unknown err", and the message determines the code among the four known ones |
| `SystemStorage.GetExec` | frameworks/js/napi/preferences/src/napi_system_storage.cpp:182-197 | key over 32 bytes gives -1016; otherwise default over 128 bytes gives -1018; otherwise the open status. On success `val` is the stored value of a present non-empty key, else the default. `val` is untouched on failure; the store is never changed |
| `SystemStorage.GetExecAsWritten` | frameworks/js/napi/preferences/src/napi_system_storage.cpp:194-196 | as written, get reads through the store handle exactly when the bounds pass and the open failed; elsewhere it agrees with `GetExec` |
| `SystemStorage.GetAfterFailedOpen` | frameworks/js/napi/preferences/src/napi_system_storage.cpp:194-196 | for in-bounds arguments and any failing open status, the as-written step reads through the failed handle; the corrected step reports that open status and leaves `val` and the store alone |
| `SystemStorage.SetExec` | frameworks/js/napi/preferences/src/napi_system_storage.cpp:202-219 | key over 32 bytes gives -1016 before value over 128 bytes gives -1017, then the open status, then -1006 for the empty key. Succeeds exactly when the key is 1..32 bytes, the value at most 128 bytes and the open succeeds; then the key is bound to the value. Every failure leaves the store unchanged |
| `SystemStorage.DeleteExec` | frameworks/js/napi/preferences/src/napi_system_storage.cpp:224-237 | key over 32 bytes gives -1016, then the open status, then -1006 for the empty key. Succeeds exactly when the key is 1..32 bytes and the open succeeds; it then removes the key (absent or not). Failure leaves the store unchanged |
| `SystemStorage.ClearExec` | frameworks/js/napi/preferences/src/napi_system_storage.cpp:242-250 | no validation: the status is the open status, and on success the store is empty |
| `SystemStorage.CompletionTrace` | frameworks/js/napi/preferences/src/napi_system_storage.cpp:101-139 | the trace holds one to three events and ends with the promise resolution. `success(val)` appears exactly when the status is `E_OK` and a success handler exists. `fail(GetMessageInfo(code), code)` appears exactly when the status is not `E_OK` and a fail handler exists. `complete` appears exactly when supplied |
| `SystemStorage.CompletionOrder` | frameworks/js/napi/preferences/src/napi_system_storage.cpp:101-139 | the resolution occurs only last; success carries `val` and fail carries the status's message and code; success and fail never both occur |
| `SystemStorage.CompletionReportsOnce` | frameworks/js/napi/preferences/src/napi_system_storage.cpp:102-124 | success and fail between them are called at most once: no event after the first is either |
| `SystemStorage.CompletionCompleteLast` | frameworks/js/napi/preferences/src/napi_system_storage.cpp:126-131 | complete occurs at most once, and after success or fail |
| `SystemStorage.TraceResolvesOnce` | frameworks/js/napi/preferences/src/napi_system_storage.cpp:139 | when every handler returns, the trace holds exactly one promise resolution |
| `SystemStorage.CompletionOutcome` | frameworks/js/napi/preferences/src/napi_system_storage.cpp:101-139 | with throwing handlers the step yields a non-empty prefix of `CompletionTrace`; it is the whole trace when no handler that gets called throws |
| `SystemStorage.CompletionStops` | frameworks/js/napi/preferences/src/napi_system_storage.cpp:109-139 | the promise is resolved exactly when no handler that gets called throws; otherwise the outcome ends with the call that threw |
| `SystemStorage.CompletionCallsReturned` | frameworks/js/napi/preferences/src/napi_system_storage.cpp:109-131 | every handler call before the last event of the outcome returned normally |
| `SystemStorage.CompletionResolvesOnce` | frameworks/js/napi/preferences/src/napi_system_storage.cpp:109-139 | the promise is resolved at most once and only as the last event, and exactly once when every handler returns normally |
| `SystemStorage.CompletionCallsComplete` | frameworks/js/napi/preferences/src/napi_system_storage.cpp:126-131 | complete is called only when supplied, and always when supplied and every handler returns normally |
| `SystemStorage.CompletionOnFailure` | frameworks/js/napi/preferences/src/napi_system_storage.cpp:102-124 | for a status other than `E_OK` no success is called, and a supplied fail handler is the first call, with the status's message and code |
| `SystemStorage.AsyncContext.constructor` | frameworks/js/napi/preferences/src/napi_system_storage.cpp:31-41 | a fresh context holds the parsed key, default, value and handlers, with `output` at `E_ERROR` |
| `SystemStorage.AsyncContext.ExecuteGet` | frameworks/js/napi/preferences/src/napi_system_storage.cpp:182-197 | the early-return method leaves `output`, `val` and the store exactly as `GetExec` says, and keeps `key` and `def`. Like `GetExec` it is the corrected get (see "## Findings"): a failed open returns before the read. `Invoke`, `Dispatch` and `Session` use this corrected get |
| `SystemStorage.AsyncContext.ExecuteSet` | frameworks/js/napi/preferences/src/napi_system_storage.cpp:202-219 | `output` and the store end as `SetExec` says; key, default and value are kept |
| `SystemStorage.AsyncContext.ExecuteDelete` | frameworks/js/napi/preferences/src/napi_system_storage.cpp:224-237 | `output` and the store end as `DeleteExec` says; key, default and value are kept |
| `SystemStorage.AsyncContext.ExecuteClear` | frameworks/js/napi/preferences/src/napi_system_storage.cpp:242-250 | `output` and the store end as `ClearExec` says |
| `SystemStorage.AsyncContext.Complete` | frameworks/js/napi/preferences/src/napi_system_storage.cpp:101-139 | the guarded handler calls, with a return after any handler that throws, produce exactly `CompletionOutcome` of the context's status, value and handlers |
| `PreferencesStore.Lookup` | frameworks/js/napi/preferences/src/napi_system_storage.cpp:196 | a read gives the stored value of a present non-empty key, and the default for the empty key or an absent key |
| `PreferencesStore.Put` | frameworks/js/napi/preferences/src/napi_system_storage.cpp:218 | a write succeeds exactly for a non-empty key and binds it to the value, leaving other keys alone. The empty key gives -1006 and no change |
| `PreferencesStore.Remove` | frameworks/js/napi/preferences/src/napi_system_storage.cpp:236 | a delete succeeds exactly for a non-empty key and removes it, leaving other keys alone; an absent key changes nothing. The empty key gives -1006 and no change |
| `PreferencesStore.Preferences.GetString` | frameworks/js/napi/preferences/src/napi_system_storage.cpp:196 | the store's read returns `Lookup` of its entries |
| `PreferencesStore.Preferences.PutString` | frameworks/js/napi/preferences/src/napi_system_storage.cpp:218 | the store's write returns the status, and ends with the entries, that `Put` gives |
| `PreferencesStore.Preferences.Delete` | frameworks/js/napi/preferences/src/napi_system_storage.cpp:236 | the store's delete returns the status, and ends with the entries, that `Remove` gives |
| `PreferencesStore.Preferences.Clear` | frameworks/js/napi/preferences/src/napi_system_storage.cpp:249 | the store's clear succeeds and leaves no entries |
| `StorageSessions.Dispatch` | frameworks/js/napi/preferences/src/napi_system_storage.cpp:94-141 | one call resolves its promise at most once, and only as its last event; when every supplied handler returns normally it resolves exactly once and complete fires exactly when supplied; complete never fires unless supplied; get never changes the store |
| `StorageSessions.Invoke` | frameworks/js/napi/preferences/src/napi_system_storage.cpp:159-176 | a fresh context, the operation's execute step and then the completion step produce the trace and the store that `Dispatch` gives |
| `StorageSessions.ExecuteKeepsWellFormed` | frameworks/js/napi/preferences/src/napi_system_storage.cpp:202-219 | starting from well-formed entries, no execute step stores an empty key, a key over 32 bytes or a value over 128 bytes |
| `StorageSessions.Session` | frameworks/js/napi/preferences/test/unittest/src/SystemStorageJsunit.test.js:175-198 | across a sequence of awaited calls there are at most as many promise resolutions as calls, and exactly as many when every handler returns normally; the store afterwards is the one `Stored` gives |
| `StorageSessions.Stored` | frameworks/js/napi/preferences/src/napi_system_storage.cpp:182-250 | the store after a sequence of execute steps; well-formed entries stay well-formed through any sequence |
| `StorageSessions.SessionFrame` | frameworks/js/napi/preferences/test/unittest/src/SystemStorageJsunit.test.js:380-413 | calls that neither clear nor set nor delete a key leave its entry as it was (for testDelete003, taking its un-awaited set as finished before the delete starts) |
| `StorageSessions.AbsentStaysAbsent` | frameworks/js/napi/preferences/src/napi_system_storage.cpp:224-250 | a key that is not stored stays absent through calls that never set it |
| `StorageSessions.SetThenGet` | frameworks/js/napi/preferences/test/unittest/src/SystemStorageJsunit.test.js:175-198 | with the store opened for the set and for the get: after a successful set of k to v, and any calls that leave k alone, a get of k with a default of at most 128 bytes succeeds with v, and success receives v |
| `StorageSessions.DeleteThenGet` | frameworks/js/napi/preferences/test/unittest/src/SystemStorageJsunit.test.js:302-334 | with the store opened for the delete and for the get: after a successful delete of k, a get of k with a default of at most 128 bytes succeeds with its default, and success receives it |
| `StorageSessions.DeleteAbsentKey` | frameworks/js/napi/preferences/test/unittest/src/SystemStorageJsunit.test.js:380-413 | with the store opened, deleting a key of 1..32 bytes that is not stored succeeds and changes nothing (for testDelete003, taking its un-awaited set as finished before the delete starts) |
| `StorageSessions.ClearThenGet` | frameworks/js/napi/preferences/src/napi_system_storage.cpp:242-250 | with the store opened for the clear and for the get: after the clear, and any calls that never set k, a get of k with a key of at most 32 bytes and a default of at most 128 bytes succeeds with the default, and success receives it |
| `StorageSessions.FailureKeepsStore` | frameworks/js/napi/preferences/src/napi_system_storage.cpp:182-250 | a call whose execute step fails, at any check or at the open, leaves the store unchanged |
| `StorageSessions.FailureIsReported` | frameworks/js/napi/preferences/src/napi_system_storage.cpp:113-124 | a failing call never calls success. When fail is supplied, it is called first, with the status's message and code |
| `StorageSessions.SetRefusals` | frameworks/js/napi/preferences/test/unittest/src/SystemStorageJsunit.test.js:75-168 | set's fail handler receives "…shorter than 32." with -1016 for an over-long key; otherwise "…shorter than 128." with -1017 for an over-long value; an empty key with an in-bounds value and an opened store gives "…null or empty." with -1006 |
| `StorageSessions.GetDefaultRefusal` | frameworks/js/napi/preferences/test/unittest/src/SystemStorageJsunit.test.js:234-265 | a get with an in-bounds key and a default over 128 bytes never calls success, and fail receives the default-length message with -1018 |
| `StorageSessions.DeleteEmptyKey` | frameworks/js/napi/preferences/test/unittest/src/SystemStorageJsunit.test.js:341-373 | with the store opened, deleting the empty key leaves every entry in place, and fail receives the empty-key message with -1006 |
| `StorageSessions.GetEmptyKey` | frameworks/js/napi/preferences/test/unittest/src/SystemStorageJsunit.test.js:272-295 | with the store opened, a get of the empty key with a default of at most 128 bytes succeeds with the default, and success receives it |

## Left out

- Argument parsing and type assertions (`ParseString`, `ParseFunction`, the argument checks in `Operate`) belong to the JavaScript engine interface. A request arrives already parsed; an absent string option is the empty string.
- Some of `Operate`'s plumbing is left out: creating the async work and queueing it, creating the promise and the handler references, deleting them, and freeing the context. The model keeps only what is visible to the caller: the execute step runs, then the completion step, and the promise resolution, when it happens, is the last event.
- A handler that throws is modelled: its call through `napi_call_function` reports a failure, `Complete` returns before the later handlers and before the resolution, and the promise stays pending.
- `Complete`'s other early returns are left out. These come from `NAPI_CALL_RETURN_VOID` when looking up a handler reference or creating an argument value fails. So is the type error thrown when the async work itself failed. All of these are engine failures that a caller cannot cause.
- `Session` keeps running the later calls of a sequence even after a call whose promise stays pending because a handler threw. A caller that awaits each call would never make those later calls.
- `GetPrefName` and the file-backed preferences implementation (path resolution, the XML file, flushing to disk) are not part of this model. The store is an in-memory map, and opening it is a status code supplied by the caller.
- The store implementation's own limits (its maximum key and value lengths) are left out. They are larger than the 32/128-byte checks made first, so this layer cannot reach them.
- `InitSystemStorage`, the export registration, is left out.
- Concurrency is left out. `Session` models calls that are each awaited before the next starts, as every unit test except testDelete003 makes them. Interleaved calls in flight together are not modelled.
- testDelete003 makes a `set` without awaiting it and then awaits a `delete` and a `get`. The set's execute step runs as queued async work, so it may still be running when the later steps start. The model treats that set as finished before the next call. The `SessionFrame` and `DeleteAbsentKey` rows cite this test under the same assumption.

## Findings

| source | as written | input that shows it | evidently intended | confidence | as-written member | corrected member |
|---|---|---|---|---|---|---|
| frameworks/js/napi/preferences/src/napi_system_storage.cpp:194-196 | get does not check the open status before calling `GetString` on the handle the open returned | a get whose key and default are within bounds while the store cannot be opened (open status `E_ERROR`) | report the open status through fail without reading, as set, delete and clear do at lines 215-217, 233-235 and 246-248 | medium, not executed; rests on the open returning no handle on failure, which happens in code that is not part of this model | `SystemStorage.GetExecAsWritten`, `SystemStorage.GetAfterFailedOpen` | `SystemStorage.GetExec`, `SystemStorage.AsyncContext.ExecuteGet` |
