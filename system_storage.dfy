/** The system storage layer: the four operations get, set, delete and clear
    over the preferences store, each run against one operation context, and
    the completion step that reports the outcome to the caller's handlers and
    resolves the caller's promise. */
module SystemStorage {
  import opened PreferencesErrno
  import opened PreferencesStore

  /** Keys longer than this many bytes are refused; exactly this many pass. */
  const MAX_KEY_LENGTH: nat := 32

  /** Values and defaults longer than this many bytes are refused; exactly this many pass. */
  const MAX_VALUE_LENGTH: nat := 128

  /** Which of the optional `success`, `fail` and `complete` handlers the
      caller supplied, and which of them throw when called. */
  datatype Handlers = Handlers(success: bool, fail: bool, complete: bool, raises: Raising)

  /** For each handler, whether a call of it throws instead of returning. */
  datatype Raising = Raising(success: bool, fail: bool, complete: bool)

  /** Every handler the caller supplied returns normally. */
  predicate Returns(h: Handlers)
  {
    (h.success ==> !h.raises.success) && (h.fail ==> !h.raises.fail) && (h.complete ==> !h.raises.complete)
  }

  /** What the caller observes when an operation finishes: a handler call,
      or the resolution of the returned promise (always with `undefined`). */
  datatype Event =
    | Success(value: Bytes)
    | Fail(message: string, code: int)
    | CompleteCalled
    | Resolved

  /** The fields of an operation context an execute step writes, and the
      store entries it leaves behind. */
  datatype Exec = Exec(output: int, val: Bytes, entries: Entries)

  /** The message the `fail` handler receives for a status code. */
  function GetMessageInfo(code: int): (message: string)
    ensures code == E_KEY_EMPTY ==> message == "The key string is null or empty."
    ensures code == E_KEY_EXCEED_LENGTH_LIMIT ==> message == "The key string length should shorter than 32."
    ensures code == E_VALUE_EXCEED_LENGTH_LIMIT ==> message == "The value string length should shorter than 128."
    ensures code == E_DEFAULT_EXCEED_LENGTH_LIMIT ==> message == "The default string length should shorter than 128."
    ensures !IsLimitCode(code) ==> message == "unknown err"
  {
    if code == E_KEY_EMPTY then "The key string is null or empty."
    else if code == E_KEY_EXCEED_LENGTH_LIMIT then "The key string length should shorter than 32."
    else if code == E_VALUE_EXCEED_LENGTH_LIMIT then "The value string length should shorter than 128."
    else if code == E_DEFAULT_EXCEED_LENGTH_LIMIT then "The default string length should shorter than 128."
    else "unknown err"
  }

  /** The message table is one-to-one on the four known codes, and no known
      code shares the fallback message: a caller can recover the code from
      the message alone. */
  lemma MessageIdentifiesCode(c1: int, c2: int)
    requires IsLimitCode(c1)
    ensures GetMessageInfo(c1) != "unknown err"
    ensures GetMessageInfo(c1) == GetMessageInfo(c2) ==> c1 == c2
  {
  }

  /** The execute step of get, with the open status of the store as a
      parameter. The key bound is checked before the default bound; only then
      is the store opened, and a failed open is reported without reading. */
  function GetExec(entries: Entries, openCode: int, key: Bytes, def: Bytes, val: Bytes): (r: Exec)
    ensures r.entries == entries
    ensures |key| > MAX_KEY_LENGTH ==> r.output == E_KEY_EXCEED_LENGTH_LIMIT
    ensures |key| <= MAX_KEY_LENGTH && |def| > MAX_VALUE_LENGTH ==> r.output == E_DEFAULT_EXCEED_LENGTH_LIMIT
    ensures |key| <= MAX_KEY_LENGTH && |def| <= MAX_VALUE_LENGTH ==> r.output == openCode
    ensures r.output == E_OK <==> |key| <= MAX_KEY_LENGTH && |def| <= MAX_VALUE_LENGTH && openCode == E_OK
    ensures r.output == E_OK && key != [] && key in entries ==> r.val == entries[key]
    ensures r.output == E_OK && (key == [] || key !in entries) ==> r.val == def
    ensures r.output != E_OK ==> r.val == val
  {
    if |key| > MAX_KEY_LENGTH then Exec(E_KEY_EXCEED_LENGTH_LIMIT, val, entries)
    else if |def| > MAX_VALUE_LENGTH then Exec(E_DEFAULT_EXCEED_LENGTH_LIMIT, val, entries)
    else if openCode != E_OK then Exec(openCode, val, entries)
    else Exec(E_OK, Lookup(entries, key, def), entries)
  }

  /** The outcome of get's execute step as the code is written: when the
      store fails to open, the read still goes through the handle the failed
      open returned. */
  datatype GetAsWritten = Finished(exec: Exec) | ReadThroughNullHandle

  function GetExecAsWritten(entries: Entries, openCode: int, key: Bytes, def: Bytes, val: Bytes): (r: GetAsWritten)
    ensures r.ReadThroughNullHandle? <==> |key| <= MAX_KEY_LENGTH && |def| <= MAX_VALUE_LENGTH && openCode != E_OK
    ensures r.Finished? ==> r.exec == GetExec(entries, openCode, key, def, val)
  {
    if |key| > MAX_KEY_LENGTH then Finished(Exec(E_KEY_EXCEED_LENGTH_LIMIT, val, entries))
    else if |def| > MAX_VALUE_LENGTH then Finished(Exec(E_DEFAULT_EXCEED_LENGTH_LIMIT, val, entries))
    else if openCode != E_OK then ReadThroughNullHandle
    else Finished(Exec(E_OK, Lookup(entries, key, def), entries))
  }

  /** A get of a well-sized key and default while the store cannot be opened
      reads through the failed handle as written; the corrected step reports
      the open status instead and leaves `val` alone. */
  lemma GetAfterFailedOpen(entries: Entries, openCode: int, key: Bytes, def: Bytes, val: Bytes)
    requires |key| <= MAX_KEY_LENGTH && |def| <= MAX_VALUE_LENGTH && openCode != E_OK
    ensures GetExecAsWritten(entries, openCode, key, def, val) == ReadThroughNullHandle
    ensures GetExec(entries, openCode, key, def, val) == Exec(openCode, val, entries)
  {
  }

  /** The execute step of set: key bound, then value bound, then open, then
      the store's write (which refuses the empty key). Any failure leaves the
      store as it was. */
  function SetExec(entries: Entries, openCode: int, key: Bytes, val: Bytes): (r: Exec)
    ensures r.val == val
    ensures |key| > MAX_KEY_LENGTH ==> r.output == E_KEY_EXCEED_LENGTH_LIMIT
    ensures |key| <= MAX_KEY_LENGTH && |val| > MAX_VALUE_LENGTH ==> r.output == E_VALUE_EXCEED_LENGTH_LIMIT
    ensures |key| <= MAX_KEY_LENGTH && |val| <= MAX_VALUE_LENGTH && openCode != E_OK ==> r.output == openCode
    ensures |key| <= MAX_KEY_LENGTH && |val| <= MAX_VALUE_LENGTH && openCode == E_OK && key == [] ==> r.output == E_KEY_EMPTY
    ensures r.output == E_OK <==> key != [] && |key| <= MAX_KEY_LENGTH && |val| <= MAX_VALUE_LENGTH && openCode == E_OK
    ensures r.output == E_OK ==> r.entries == entries[key := val]
    ensures r.output != E_OK ==> r.entries == entries
  {
    if |key| > MAX_KEY_LENGTH then Exec(E_KEY_EXCEED_LENGTH_LIMIT, val, entries)
    else if |val| > MAX_VALUE_LENGTH then Exec(E_VALUE_EXCEED_LENGTH_LIMIT, val, entries)
    else if openCode != E_OK then Exec(openCode, val, entries)
    else
      var w := Put(entries, key, val);
      Exec(w.code, val, w.entries)
  }

  /** The execute step of delete: key bound, then open, then the store's
      delete (which refuses the empty key and accepts an absent one). */
  function DeleteExec(entries: Entries, openCode: int, key: Bytes, val: Bytes): (r: Exec)
    ensures r.val == val
    ensures |key| > MAX_KEY_LENGTH ==> r.output == E_KEY_EXCEED_LENGTH_LIMIT
    ensures |key| <= MAX_KEY_LENGTH && openCode != E_OK ==> r.output == openCode
    ensures |key| <= MAX_KEY_LENGTH && openCode == E_OK && key == [] ==> r.output == E_KEY_EMPTY
    ensures r.output == E_OK <==> key != [] && |key| <= MAX_KEY_LENGTH && openCode == E_OK
    ensures r.output == E_OK ==> r.entries == entries - {key}
    ensures r.output != E_OK ==> r.entries == entries
  {
    if |key| > MAX_KEY_LENGTH then Exec(E_KEY_EXCEED_LENGTH_LIMIT, val, entries)
    else if openCode != E_OK then Exec(openCode, val, entries)
    else
      var w := Remove(entries, key);
      Exec(w.code, val, w.entries)
  }

  /** The execute step of clear: no validation; open, then empty the store. */
  function ClearExec(entries: Entries, openCode: int, val: Bytes): (r: Exec)
    ensures r.val == val
    ensures r.output == openCode
    ensures r.output == E_OK ==> r.entries == map[]
    ensures r.output != E_OK ==> r.entries == entries
  {
    if openCode != E_OK then Exec(openCode, val, entries) else Exec(E_OK, val, map[])
  }

  /** The handler calls and the promise resolution the completion step
      produces for a final status code and value when every handler it calls
      returns normally. */
  function CompletionTrace(output: int, val: Bytes, h: Handlers): (r: seq<Event>)
    ensures 1 <= |r| <= 3
    ensures r[|r| - 1] == Resolved
    ensures Success(val) in r <==> output == E_OK && h.success
    ensures Fail(GetMessageInfo(output), output) in r <==> output != E_OK && h.fail
    ensures CompleteCalled in r <==> h.complete
  {
    (if output == E_OK && h.success then [Success(val)] else [])
    + (if output != E_OK && h.fail then [Fail(GetMessageInfo(output), output)] else [])
    + (if h.complete then [CompleteCalled] else [])
    + [Resolved]
  }

  /** The ordering promised to the caller: the promise is resolved exactly
      once and last; a success carries the value and a failure the message
      and code of the final status; and success and fail never both occur. */
  lemma CompletionOrder(output: int, val: Bytes, h: Handlers)
    ensures var r := CompletionTrace(output, val, h);
      && (forall i :: 0 <= i < |r| - 1 ==> r[i] != Resolved)
      && (forall i :: 0 <= i < |r| && r[i].Success? ==> r[i] == Success(val))
      && (forall i :: 0 <= i < |r| && r[i].Fail? ==> r[i] == Fail(GetMessageInfo(output), output))
      && !(exists i, j :: 0 <= i < |r| && 0 <= j < |r| && r[i].Success? && r[j].Fail?)
  {
  }

  /** Complete fires at most once, after success or fail. */
  lemma CompletionCompleteLast(output: int, val: Bytes, h: Handlers)
    ensures var r := CompletionTrace(output, val, h);
      && (forall i, j :: 0 <= i < j < |r| ==> r[i] != CompleteCalled || r[j] != CompleteCalled)
      && (forall i, j :: 0 <= i < |r| && 0 <= j < |r| && (r[i].Success? || r[i].Fail?) && r[j] == CompleteCalled ==> i < j)
  {
  }

  /** Success and fail between them are called at most once: the only
      event that can be either is the first. */
  lemma CompletionReportsOnce(output: int, val: Bytes, h: Handlers)
    ensures var r := CompletionTrace(output, val, h);
      && (forall i :: 1 <= i < |r| ==> !r[i].Success? && !r[i].Fail?)
      && (forall i, j :: 0 <= i < j < |r| ==> !((r[i].Success? || r[i].Fail?) && (r[j].Success? || r[j].Fail?)))
  {
  }

  /** When every handler returns, the promise is resolved exactly once. */
  lemma TraceResolvesOnce(output: int, val: Bytes, h: Handlers)
    ensures multiset(CompletionTrace(output, val, h))[Resolved] == 1
  {
  }

  /** Whether the handler an event stands for throws when called. */
  predicate Raises(e: Event, t: Raising)
  {
    match e
    case Success(_) => t.success
    case Fail(_, _) => t.fail
    case CompleteCalled => t.complete
    case Resolved => false
  }

  /** What the completion step produces when handlers may throw. A handler
      that throws makes its call report a failure, and the step returns at
      once: the later handlers are not called and the promise is never
      resolved. The outcome is a non-empty prefix of `CompletionTrace`, and
      all of it when no handler that gets called throws. */
  function CompletionOutcome(output: int, val: Bytes, h: Handlers): (r: seq<Event>)
    ensures 1 <= |r| <= |CompletionTrace(output, val, h)|
    ensures r == CompletionTrace(output, val, h)[..|r|]
    ensures Settles(output, h) ==> r == CompletionTrace(output, val, h)
  {
    var s := if output == E_OK && h.success then [Success(val)] else [];
    var f := if output != E_OK && h.fail then [Fail(GetMessageInfo(output), output)] else [];
    var c := if h.complete then [CompleteCalled] else [];
    if s != [] && h.raises.success then s
    else if f != [] && h.raises.fail then f
    else if c != [] && h.raises.complete then s + f + c
    else s + f + c + [Resolved]
  }

  /** No handler the completion step calls for this status throws. */
  predicate Settles(output: int, h: Handlers)
  {
    && !(output == E_OK && h.success && h.raises.success)
    && !(output != E_OK && h.fail && h.raises.fail)
    && !(h.complete && h.raises.complete)
  }

  /** Where the completion step stops: the promise is resolved exactly when
      no handler that gets called throws; otherwise the outcome ends with the
      call that threw, and every call before it returned. */
  lemma CompletionStops(output: int, val: Bytes, h: Handlers)
    ensures Resolved in CompletionOutcome(output, val, h) <==> Settles(output, h)
    ensures var r := CompletionOutcome(output, val, h); Resolved !in r ==> Raises(r[|r| - 1], h.raises)
  {
  }

  /** Every handler call before the last event of the completion step returned. */
  lemma CompletionCallsReturned(output: int, val: Bytes, h: Handlers)
    ensures var r := CompletionOutcome(output, val, h); forall i :: 0 <= i < |r| - 1 ==> !Raises(r[i], h.raises)
  {
  }

  /** The completion step resolves the promise at most once, only as its
      last event, and exactly once when every handler returns normally. */
  lemma CompletionResolvesOnce(output: int, val: Bytes, h: Handlers)
    ensures var r := CompletionOutcome(output, val, h);
      && multiset(r)[Resolved] <= 1
      && (Resolved in r ==> r[|r| - 1] == Resolved)
      && (Returns(h) ==> multiset(r)[Resolved] == 1)
  {
    var r := CompletionOutcome(output, val, h);
    CompletionStops(output, val, h);
    TraceResolvesOnce(output, val, h);
    if Resolved in r {
      assert r == CompletionTrace(output, val, h);
    }
  }

  /** The completion step calls complete only when it was supplied, and
      always when it was supplied and every handler returns normally. */
  lemma CompletionCallsComplete(output: int, val: Bytes, h: Handlers)
    ensures var r := CompletionOutcome(output, val, h);
      && (CompleteCalled in r ==> h.complete)
      && (Returns(h) ==> (CompleteCalled in r <==> h.complete))
  {
  }

  /** For a failing status the trace never holds a success, and it opens
      with the fail call when a fail handler is supplied. */
  lemma CompletionOnFailure(output: int, val: Bytes, h: Handlers)
    requires output != E_OK
    ensures forall e :: e in CompletionTrace(output, val, h) ==> !e.Success?
    ensures h.fail ==> CompletionTrace(output, val, h)[0] == Fail(GetMessageInfo(output), output)
  {
  }

  /** One operation context: the parsed arguments, the handlers supplied, and
      the status the execute step leaves for the completion step. */
  class AsyncContext {
    var key: Bytes
    var def: Bytes
    var val: Bytes
    var output: int
    const handlers: Handlers

    constructor (key: Bytes, def: Bytes, val: Bytes, handlers: Handlers)
      ensures this.key == key && this.def == def && this.val == val
      ensures this.handlers == handlers
      ensures output == E_ERROR
    {
      this.key := key;
      this.def := def;
      this.val := val;
      this.handlers := handlers;
      output := E_ERROR;
    }

    /** get's execute step, as corrected: a failed open returns before the read. */
    method ExecuteGet(pref: Preferences, openCode: int)
      modifies this
      ensures key == old(key) && def == old(def)
      ensures Exec(output, val, pref.entries) == GetExec(pref.entries, openCode, key, def, old(val))
    {
      if |key| > MAX_KEY_LENGTH {
        output := E_KEY_EXCEED_LENGTH_LIMIT;
        return;
      }
      if |def| > MAX_VALUE_LENGTH {
        output := E_DEFAULT_EXCEED_LENGTH_LIMIT;
        return;
      }
      output := openCode;
      if output != E_OK {
        return;
      }
      val := pref.GetString(key, def);
    }

    method ExecuteSet(pref: Preferences, openCode: int)
      modifies this, pref
      ensures key == old(key) && def == old(def) && val == old(val)
      ensures Exec(output, val, pref.entries) == SetExec(old(pref.entries), openCode, key, val)
    {
      if |key| > MAX_KEY_LENGTH {
        output := E_KEY_EXCEED_LENGTH_LIMIT;
        return;
      }
      if |val| > MAX_VALUE_LENGTH {
        output := E_VALUE_EXCEED_LENGTH_LIMIT;
        return;
      }
      output := openCode;
      if output != E_OK {
        return;
      }
      output := pref.PutString(key, val);
    }

    method ExecuteDelete(pref: Preferences, openCode: int)
      modifies this, pref
      ensures key == old(key) && def == old(def) && val == old(val)
      ensures Exec(output, val, pref.entries) == DeleteExec(old(pref.entries), openCode, key, val)
    {
      if |key| > MAX_KEY_LENGTH {
        output := E_KEY_EXCEED_LENGTH_LIMIT;
        return;
      }
      output := openCode;
      if output != E_OK {
        return;
      }
      output := pref.Delete(key);
    }

    method ExecuteClear(pref: Preferences, openCode: int)
      modifies this, pref
      ensures key == old(key) && def == old(def) && val == old(val)
      ensures Exec(output, val, pref.entries) == ClearExec(old(pref.entries), openCode, val)
    {
      output := openCode;
      if output != E_OK {
        return;
      }
      output := pref.Clear();
    }

    /** The completion step: success with the value or fail with the message
        and code, then complete, each only if supplied; the promise is
        resolved last. A handler that throws ends the step where it is. */
    method Complete() returns (trace: seq<Event>)
      ensures trace == CompletionOutcome(output, val, handlers)
    {
      trace := [];
      if output == E_OK && handlers.success {
        trace := trace + [Success(val)];
        if handlers.raises.success {
          return;
        }
      }
      if output != E_OK && handlers.fail {
        trace := trace + [Fail(GetMessageInfo(output), output)];
        if handlers.raises.fail {
          return;
        }
      }
      if handlers.complete {
        trace := trace + [CompleteCalled];
        if handlers.raises.complete {
          return;
        }
      }
      trace := trace + [Resolved];
    }
  }
}
