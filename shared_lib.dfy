/**
 * The hot reload of the request handler, src/shared_lib.c: the module
 * globals `last_mod_time` and `current_handle`, the worker's handler slot,
 * and the two operations that update them.
 *
 * `stat`, `dlopen`, `dlsym` and `dlclose` are system calls whose results are
 * inputs here: a stat result is the library's modification time or None, a
 * dlopen result is a new handle or None, and a dlsym result says whether
 * `handle_request` was found. Every `dlclose` is recorded in `closed`.
 */
module SharedLib {
  import opened Common

  /** A library handle returned by dlopen. */
  type Handle = nat

  /** A pointer to `handle_request`, known by the library it was resolved in. */
  datatype Handler = Handler(lib: Handle)

  /** What stat, dlopen and dlsym report during one load_request_handler. */
  datatype LoadOutcome = LoadOutcome(stat: Option<int>, dlopen: Option<Handle>, dlsymFound: bool)

  /** last_mod_time, current_handle, and the handles closed so far. */
  datatype LoaderState = LoaderState(lastModTime: int, currentHandle: Option<Handle>, closed: seq<Handle>)

  /** The loader state after an operation, and the handler it returns or leaves in the slot. */
  datatype Loaded = Loaded(state: LoaderState, handler: Option<Handler>)

  /** The globals at process start (shared_lib.c:10-11). */
  const INITIAL_STATE := LoaderState(0, None, [])

  /**
   * load_request_handler (shared_lib.c:17-52): a failed stat returns NULL and
   * changes nothing; a successful one records the modification time before
   * dlopen is tried, so a later failure still advances it; a missing symbol
   * closes the new handle and clears current_handle.
   */
  function Load(st: LoaderState, o: LoadOutcome): (r: Loaded)
    ensures o.stat.None? ==> r == Loaded(st, None)
    ensures o.stat.Some? ==> r.state.lastModTime == o.stat.value
    ensures r.handler.Some? <==> o.stat.Some? && o.dlopen.Some? && o.dlsymFound
    ensures r.handler.Some? ==> r.handler.value.lib == o.dlopen.value && r.state.currentHandle == o.dlopen
                                && r.state.closed == st.closed
    ensures o.stat.Some? && o.dlopen.Some? && !o.dlsymFound ==>
              r.state.currentHandle.None? && r.state.closed == st.closed + [o.dlopen.value]
    ensures o.stat.Some? && o.dlopen.None? ==> r.state.currentHandle == st.currentHandle && r.state.closed == st.closed
  {
    if o.stat.None? then Loaded(st, None)
    else
      var recorded := st.(lastModTime := o.stat.value);
      if o.dlopen.None? then Loaded(recorded, None)
      else if !o.dlsymFound then
        Loaded(recorded.(currentHandle := None, closed := recorded.closed + [o.dlopen.value]), None)
      else Loaded(recorded.(currentHandle := o.dlopen), Some(Handler(o.dlopen.value)))
  }

  /** Whether check_for_handler_update reloads: its stat succeeded and shows a strictly newer time. */
  predicate IsNewer(st: LoaderState, checkStat: Option<int>)
  {
    checkStat.Some? && checkStat.value > st.lastModTime
  }

  /** dlclose(current_handle) when there is one, then current_handle = NULL. */
  function CloseCurrent(st: LoaderState): (r: LoaderState)
    ensures r.currentHandle.None? && r.lastModTime == st.lastModTime
    ensures r.closed == st.closed + (if st.currentHandle.Some? then [st.currentHandle.value] else [])
  {
    if st.currentHandle.Some? then st.(currentHandle := None, closed := st.closed + [st.currentHandle.value])
    else st
  }

  /**
   * check_for_handler_update as written (shared_lib.c:58-85): `checkStat` is
   * its own stat, `o` what the reload sees. Without a newer time nothing
   * changes; otherwise the current library is closed first and the slot is
   * overwritten with whatever the reload returns, NULL included.
   */
  function CheckUpdate(st: LoaderState, slot: Option<Handler>, checkStat: Option<int>, o: LoadOutcome): (r: Loaded)
    ensures !IsNewer(st, checkStat) ==> r == Loaded(st, slot)
    ensures IsNewer(st, checkStat) ==> r == Load(CloseCurrent(st), o)
  {
    if !IsNewer(st, checkStat) then Loaded(st, slot)
    else Load(CloseCurrent(st), o)
  }

  /**
   * Once a check has seen modification time t and the reload's own stat saw
   * the same t, a second check that sees t again changes nothing, whatever
   * its reload would have reported.
   */
  lemma SecondCheckIsNoOp(st: LoaderState, slot: Option<Handler>, t: int, o: LoadOutcome, o2: LoadOutcome)
    requires o.stat == Some(t)
    ensures var r := CheckUpdate(st, slot, Some(t), o);
            CheckUpdate(r.state, r.handler, Some(t), o2) == r
  {
    var r := CheckUpdate(st, slot, Some(t), o);
    if IsNewer(st, Some(t)) {
      assert r.state.lastModTime == t;
    }
  }

  /**
   * A reload that fails — the second stat, dlopen or dlsym — leaves NULL in
   * the slot although a handler was there before, and the library that
   * handler came from has been closed.
   */
  lemma FailedReloadClearsHandler(st: LoaderState, oldHandler: Handler, checkStat: Option<int>, o: LoadOutcome)
    requires IsNewer(st, checkStat)
    requires st.currentHandle == Some(oldHandler.lib)
    requires !(o.stat.Some? && o.dlopen.Some? && o.dlsymFound)
    ensures var r := CheckUpdate(st, Some(oldHandler), checkStat, o);
            r.handler.None? && oldHandler.lib in r.state.closed
  {
    var closedFirst := CloseCurrent(st);
    assert closedFirst.closed[|closedFirst.closed| - 1] == oldHandler.lib;
  }

  /** The slot's handler comes from the current, still open library. */
  ghost predicate HandlerIsLive(st: LoaderState, slot: Option<Handler>)
  {
    slot.Some? ==> st.currentHandle == Some(slot.value.lib) && slot.value.lib !in st.closed
  }

  /** A library dlopen may return: not the current one and not one closed before. */
  predicate IsFreshHandle(st: LoaderState, o: LoadOutcome)
  {
    o.dlopen.Some? ==> o.dlopen != st.currentHandle && o.dlopen.value !in st.closed
  }

  /**
   * check_for_handler_update as its failure message says it behaves: the new
   * library is loaded before the old one is closed, and only a successful
   * load replaces the current library and the slot; after a failure the old
   * library stays open and the old handler stays in the slot.
   */
  function CheckUpdateIntended(st: LoaderState, slot: Option<Handler>, checkStat: Option<int>, o: LoadOutcome): (r: Loaded)
    ensures !IsNewer(st, checkStat) ==> r == Loaded(st, slot)
  {
    if !IsNewer(st, checkStat) then Loaded(st, slot)
    else
      var loaded := Load(st, o);
      if loaded.handler.None? then Loaded(loaded.state.(currentHandle := st.currentHandle), slot)
      else
        var previous := if st.currentHandle.Some? then [st.currentHandle.value] else [];
        Loaded(loaded.state.(closed := loaded.state.closed + previous), loaded.handler)
  }

  /**
   * With the corrected reload a failure keeps the handler that was in the
   * slot, and a handler in the slot always comes from an open library.
   */
  lemma {:induction false} IntendedReloadKeepsLiveHandler(st: LoaderState, slot: Option<Handler>, checkStat: Option<int>, o: LoadOutcome)
    requires HandlerIsLive(st, slot)
    requires IsFreshHandle(st, o)
    ensures var r := CheckUpdateIntended(st, slot, checkStat, o);
            && HandlerIsLive(r.state, r.handler)
            && (!(o.stat.Some? && o.dlopen.Some? && o.dlsymFound) ==> r.handler == slot)
            && (r.handler.Some? || slot.None?)
  {
    var r := CheckUpdateIntended(st, slot, checkStat, o);
    if IsNewer(st, checkStat) {
      var loaded := Load(st, o);
      if loaded.handler.None? {
        if slot.Some? && o.stat.Some? && o.dlopen.Some? {
          assert loaded.state.closed == st.closed + [o.dlopen.value];
          assert slot.value.lib != o.dlopen.value;
        }
      } else {
        assert r.handler.value.lib == o.dlopen.value;
        assert r.state.closed == st.closed + (if st.currentHandle.Some? then [st.currentHandle.value] else []);
      }
    }
  }

  // ---------------------------------------------------------------------------
  // The globals and the slot as mutable state
  // ---------------------------------------------------------------------------

  /** The caller's `RequestHandlerFunc` variable, which check_for_handler_update overwrites. */
  class HandlerSlot {
    var handler: Option<Handler>

    constructor (handler: Option<Handler>)
      ensures this.handler == handler
    {
      this.handler := handler;
    }
  }

  /** The module globals of shared_lib.c. */
  class Loader {
    var lastModTime: int
    var currentHandle: Option<Handle>
    var closed: seq<Handle>

    constructor ()
      ensures State() == INITIAL_STATE
    {
      lastModTime := 0;
      currentHandle := None;
      closed := [];
    }

    function State(): LoaderState
      reads this
    {
      LoaderState(lastModTime, currentHandle, closed)
    }

    /** dlclose(handle). */
    method DlClose(handle: Handle)
      modifies this
      ensures closed == old(closed) + [handle]
      ensures lastModTime == old(lastModTime) && currentHandle == old(currentHandle)
    {
      closed := closed + [handle];
    }

    /** load_request_handler (shared_lib.c:17-52), step by step on the globals. */
    method LoadRequestHandler(o: LoadOutcome) returns (handler: Option<Handler>)
      modifies this
      ensures Loaded(State(), handler) == Load(old(State()), o)
    {
      if o.stat.None? {
        return None;
      }
      lastModTime := o.stat.value;
      if o.dlopen.None? {
        return None;
      }
      var handle := o.dlopen.value;
      currentHandle := Some(handle);
      if !o.dlsymFound {
        DlClose(handle);
        currentHandle := None;
        return None;
      }
      handler := Some(Handler(handle));
    }

    /** check_for_handler_update as written (shared_lib.c:58-85). */
    method CheckForHandlerUpdate(checkStat: Option<int>, o: LoadOutcome, slot: HandlerSlot)
      modifies this, slot
      ensures Loaded(State(), slot.handler) == CheckUpdate(old(State()), old(slot.handler), checkStat, o)
    {
      if checkStat.None? {
        return;
      }
      if checkStat.value > lastModTime {
        if currentHandle.Some? {
          DlClose(currentHandle.value);
          currentHandle := None;
        }
        slot.handler := LoadRequestHandler(o);
      }
    }

    /** check_for_handler_update with the reload order corrected: load first, switch only on success. */
    method CheckForHandlerUpdateIntended(checkStat: Option<int>, o: LoadOutcome, slot: HandlerSlot)
      modifies this, slot
      ensures Loaded(State(), slot.handler) == CheckUpdateIntended(old(State()), old(slot.handler), checkStat, o)
    {
      if checkStat.None? || checkStat.value <= lastModTime {
        return;
      }
      var previous := currentHandle;
      var loaded := LoadRequestHandler(o);
      if loaded.None? {
        currentHandle := previous;
        return;
      }
      if previous.Some? {
        DlClose(previous.value);
      }
      slot.handler := loaded;
    }
  }
}
