/** Whole calls of the system storage interface (execute step followed by
    completion step) and sequences of them, each awaited before the next is
    made. The properties here relate several calls: what a write makes a
    later read see, what a delete or a clear makes it miss, and the shape of
    the stored entries that every sequence of calls keeps. */
module StorageSessions {
  import opened PreferencesErrno
  import opened PreferencesStore
  import opened SystemStorage

  /** Which of the four operations a call is. */
  datatype Kind = Get | Set | Delete | Clear

  /** One call as parsed from its options object: the operation, `key`,
      `default`, `value` (absent ones are the empty string) and the handlers. */
  datatype Request = Request(kind: Kind, key: Bytes, def: Bytes, val: Bytes, handlers: Handlers)

  /** What a call, or a sequence of calls, shows the caller, and the store afterwards. */
  datatype Outcome = Outcome(trace: seq<Event>, entries: Entries)

  /** One call together with the status opening the store reports for it. */
  datatype Call = Call(req: Request, openCode: int)

  /** The shape of every stored entry: a non-empty key of at most 32 bytes
      and a value of at most 128 bytes. */
  ghost predicate WellFormed(entries: Entries)
  {
    forall k :: k in entries ==> 1 <= |k| <= MAX_KEY_LENGTH && |entries[k]| <= MAX_VALUE_LENGTH
  }

  /** The number of promise resolutions in a trace. */
  function Resolutions(trace: seq<Event>): (n: nat)
  {
    multiset(trace)[Resolved]
  }

  /** The execute step the request names. */
  function Execute(entries: Entries, req: Request, openCode: int): (r: Exec)
  {
    match req.kind
    case Get => GetExec(entries, openCode, req.key, req.def, req.val)
    case Set => SetExec(entries, openCode, req.key, req.val)
    case Delete => DeleteExec(entries, openCode, req.key, req.val)
    case Clear => ClearExec(entries, openCode, req.val)
  }

  /** One call: the execute step, then the completion step on its result.
      The promise is resolved at most once, and only at the end; when every
      handler returns normally it is resolved exactly once and complete fires
      exactly when supplied. A get never changes the store. */
  function Dispatch(entries: Entries, req: Request, openCode: int): (r: Outcome)
    ensures Resolutions(r.trace) <= 1
    ensures Resolved in r.trace ==> r.trace[|r.trace| - 1] == Resolved
    ensures Returns(req.handlers) ==> Resolutions(r.trace) == 1
    ensures CompleteCalled in r.trace ==> req.handlers.complete
    ensures Returns(req.handlers) ==> (CompleteCalled in r.trace <==> req.handlers.complete)
    ensures req.kind == Get ==> r.entries == entries
  {
    var e := Execute(entries, req, openCode);
    CompletionResolvesOnce(e.output, e.val, req.handlers);
    CompletionCallsComplete(e.output, e.val, req.handlers);
    Outcome(CompletionOutcome(e.output, e.val, req.handlers), e.entries)
  }

  /** No call can store an entry of the wrong shape: the empty key and
      over-long keys and values never reach the store. */
  lemma ExecuteKeepsWellFormed(entries: Entries, req: Request, openCode: int)
    ensures WellFormed(entries) ==> WellFormed(Execute(entries, req, openCode).entries)
  {
    if !WellFormed(entries) {
      return;
    }
    var after := Execute(entries, req, openCode).entries;
    forall k | k in after
      ensures 1 <= |k| <= MAX_KEY_LENGTH && |after[k]| <= MAX_VALUE_LENGTH
    {
      if k !in entries || after[k] != entries[k] {
        assert req.kind == Set && k == req.key;
      }
    }
  }

  /** The store after a sequence of calls, each awaited before the next.
      Every call keeps the entry shape. */
  function Stored(entries: Entries, calls: seq<Call>): (r: Entries)
    ensures WellFormed(entries) ==> WellFormed(r)
    decreases |calls|
  {
    if calls == [] then entries
    else
      var next := Execute(entries, calls[0].req, calls[0].openCode).entries;
      ExecuteKeepsWellFormed(entries, calls[0].req, calls[0].openCode);
      Stored(next, calls[1..])
  }

  /** A sequence of calls, each awaited before the next: the traces of the
      calls one after another, and the store they leave. No call resolves its
      promise more than once, and when every handler returns normally every
      call resolves its promise once. */
  function Session(entries: Entries, calls: seq<Call>): (r: Outcome)
    ensures Resolutions(r.trace) <= |calls|
    ensures (forall c :: c in calls ==> Returns(c.req.handlers)) ==> Resolutions(r.trace) == |calls|
    ensures r.entries == Stored(entries, calls)
    decreases |calls|
  {
    if calls == [] then Outcome([], entries)
    else
      var first := Dispatch(entries, calls[0].req, calls[0].openCode);
      var rest := Session(first.entries, calls[1..]);
      Outcome(first.trace + rest.trace, rest.entries)
  }

  /** The operation as the host runs it: a fresh context is filled from the
      request, the execute step runs against the store, then the completion
      step. */
  method Invoke(pref: Preferences, req: Request, openCode: int) returns (trace: seq<Event>)
    modifies pref
    ensures Outcome(trace, pref.entries) == Dispatch(old(pref.entries), req, openCode)
  {
    var ctx := new AsyncContext(req.key, req.def, req.val, req.handlers);
    match req.kind {
      case Get => ctx.ExecuteGet(pref, openCode);
      case Set => ctx.ExecuteSet(pref, openCode);
      case Delete => ctx.ExecuteDelete(pref, openCode);
      case Clear => ctx.ExecuteClear(pref, openCode);
    }
    trace := ctx.Complete();
  }

  /** Whether a call may change the entry for `k`: a clear, or a set or
      delete of `k` itself. */
  predicate Touches(req: Request, k: Bytes)
  {
    req.kind == Clear || ((req.kind == Set || req.kind == Delete) && req.key == k)
  }

  /** Calls that neither clear nor set nor delete `k` leave its entry as it was. */
  lemma {:induction false} SessionFrame(entries: Entries, calls: seq<Call>, k: Bytes)
    requires forall c :: c in calls ==> !Touches(c.req, k)
    ensures var after := Stored(entries, calls);
      (k in after <==> k in entries) && (k in entries ==> after[k] == entries[k])
    decreases |calls|
  {
    if calls != [] {
      var next := Execute(entries, calls[0].req, calls[0].openCode).entries;
      assert !Touches(calls[0].req, k);
      assert k in next <==> k in entries;
      assert k in entries ==> next[k] == entries[k];
      SessionFrame(next, calls[1..], k);
    }
  }

  /** Whether a call is a set of `k`. */
  predicate Writes(req: Request, k: Bytes)
  {
    req.kind == Set && req.key == k
  }

  /** A key that is not stored stays absent through calls that never set it. */
  lemma {:induction false} AbsentStaysAbsent(entries: Entries, calls: seq<Call>, k: Bytes)
    requires k !in entries
    requires forall c :: c in calls ==> !Writes(c.req, k)
    ensures k !in Stored(entries, calls)
    decreases |calls|
  {
    if calls != [] {
      var next := Execute(entries, calls[0].req, calls[0].openCode).entries;
      assert !Writes(calls[0].req, k);
      assert k !in next;
      AbsentStaysAbsent(next, calls[1..], k);
    }
  }

  /** A successful set of `k` to `v` is seen by a later get of `k` (with a
      default that passes its bound), however many calls that leave `k`
      alone come between: the get succeeds with `v` and its success handler
      receives `v`. */
  lemma SetThenGet(entries: Entries, setReq: Request, between: seq<Call>, getReq: Request)
    requires setReq.kind == Set && getReq.kind == Get && getReq.key == setReq.key
    requires Execute(entries, setReq, E_OK).output == E_OK
    requires forall c :: c in between ==> !Touches(c.req, setReq.key)
    requires |getReq.def| <= MAX_VALUE_LENGTH
    ensures var stored := Stored(Execute(entries, setReq, E_OK).entries, between);
      && Execute(stored, getReq, E_OK) == Exec(E_OK, setReq.val, stored)
      && (getReq.handlers.success ==> Dispatch(stored, getReq, E_OK).trace[0] == Success(setReq.val))
  {
    var written := Execute(entries, setReq, E_OK).entries;
    assert written[setReq.key] == setReq.val;
    SessionFrame(written, between, setReq.key);
  }

  /** After a successful delete of `k`, a get of `k` succeeds with its default. */
  lemma DeleteThenGet(entries: Entries, delReq: Request, getReq: Request)
    requires delReq.kind == Delete && getReq.kind == Get && getReq.key == delReq.key
    requires Execute(entries, delReq, E_OK).output == E_OK
    requires |getReq.def| <= MAX_VALUE_LENGTH
    ensures var left := Dispatch(entries, delReq, E_OK).entries;
      && Execute(left, getReq, E_OK) == Exec(E_OK, getReq.def, left)
      && (getReq.handlers.success ==> Dispatch(left, getReq, E_OK).trace[0] == Success(getReq.def))
  {
  }

  /** Deleting a key that is not stored succeeds and changes nothing. */
  lemma DeleteAbsentKey(entries: Entries, delReq: Request)
    requires delReq.kind == Delete && delReq.key !in entries
    requires 1 <= |delReq.key| <= MAX_KEY_LENGTH
    ensures Execute(entries, delReq, E_OK).output == E_OK
    ensures Dispatch(entries, delReq, E_OK).entries == entries
  {
  }

  /** After a successful clear, a get of any key that passes the bounds,
      made after calls that never set that key, succeeds with its default. */
  lemma ClearThenGet(entries: Entries, clearReq: Request, between: seq<Call>, getReq: Request)
    requires clearReq.kind == Clear && getReq.kind == Get
    requires forall c :: c in between ==> !Writes(c.req, getReq.key)
    requires |getReq.key| <= MAX_KEY_LENGTH && |getReq.def| <= MAX_VALUE_LENGTH
    ensures var left := Stored(Execute(entries, clearReq, E_OK).entries, between);
      && Execute(left, getReq, E_OK) == Exec(E_OK, getReq.def, left)
      && (getReq.handlers.success ==> Dispatch(left, getReq, E_OK).trace[0] == Success(getReq.def))
  {
    var cleared := Execute(entries, clearReq, E_OK).entries;
    assert cleared == map[];
    AbsentStaysAbsent(cleared, between, getReq.key);
  }

  /** A call that fails leaves the store as it was. */
  lemma FailureKeepsStore(entries: Entries, req: Request, openCode: int)
    requires Execute(entries, req, openCode).output != E_OK
    ensures Dispatch(entries, req, openCode).entries == entries
  {
  }

  /** A call that fails never calls success, and hands the final status and
      its message to fail, first, when one is supplied. */
  lemma FailureIsReported(entries: Entries, req: Request, openCode: int)
    requires Execute(entries, req, openCode).output != E_OK
    ensures forall e :: e in Dispatch(entries, req, openCode).trace ==> !e.Success?
    ensures var code := Execute(entries, req, openCode).output;
      req.handlers.fail ==> Dispatch(entries, req, openCode).trace[0] == Fail(GetMessageInfo(code), code)
  {
    var e := Execute(entries, req, openCode);
    assert Dispatch(entries, req, openCode).trace == CompletionOutcome(e.output, e.val, req.handlers);
    CompletionOnFailure(e.output, e.val, req.handlers);
  }

  /** What the fail handler of a set receives for each way the arguments can
      be refused, in the order the checks are made. */
  lemma SetRefusals(entries: Entries, req: Request, openCode: int)
    requires req.kind == Set && req.handlers.fail
    ensures |req.key| > MAX_KEY_LENGTH ==>
      Dispatch(entries, req, openCode).trace[0] == Fail("The key string length should shorter than 32.", E_KEY_EXCEED_LENGTH_LIMIT)
    ensures |req.key| <= MAX_KEY_LENGTH && |req.val| > MAX_VALUE_LENGTH ==>
      Dispatch(entries, req, openCode).trace[0] == Fail("The value string length should shorter than 128.", E_VALUE_EXCEED_LENGTH_LIMIT)
    ensures req.key == [] && |req.val| <= MAX_VALUE_LENGTH && openCode == E_OK ==>
      Dispatch(entries, req, openCode).trace[0] == Fail("The key string is null or empty.", E_KEY_EMPTY)
  {
  }

  /** A get whose default is too long (and whose key is not) fails with
      E_DEFAULT_EXCEED_LENGTH_LIMIT and never calls success. */
  lemma GetDefaultRefusal(entries: Entries, req: Request, openCode: int)
    requires req.kind == Get && |req.key| <= MAX_KEY_LENGTH && |req.def| > MAX_VALUE_LENGTH
    ensures var r := Dispatch(entries, req, openCode);
      && (forall e :: e in r.trace ==> !e.Success?)
      && (req.handlers.fail ==> r.trace[0] == Fail("The default string length should shorter than 128.", E_DEFAULT_EXCEED_LENGTH_LIMIT))
  {
    assert Execute(entries, req, openCode).output == E_DEFAULT_EXCEED_LENGTH_LIMIT;
    FailureIsReported(entries, req, openCode);
  }

  /** A delete of the empty key fails with E_KEY_EMPTY and leaves every entry in place. */
  lemma DeleteEmptyKey(entries: Entries, req: Request)
    requires req.kind == Delete && req.key == []
    ensures var r := Dispatch(entries, req, E_OK);
      && r.entries == entries
      && (req.handlers.fail ==> r.trace[0] == Fail("The key string is null or empty.", E_KEY_EMPTY))
  {
    assert Execute(entries, req, E_OK).output == E_KEY_EMPTY;
    FailureKeepsStore(entries, req, E_OK);
    FailureIsReported(entries, req, E_OK);
  }

  /** A get of the empty key is not refused: it succeeds with the default. */
  lemma GetEmptyKey(entries: Entries, req: Request)
    requires req.kind == Get && req.key == [] && |req.def| <= MAX_VALUE_LENGTH
    ensures Execute(entries, req, E_OK) == Exec(E_OK, req.def, entries)
    ensures req.handlers.success ==> Dispatch(entries, req, E_OK).trace[0] == Success(req.def)
  {
  }
}
