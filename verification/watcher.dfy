/** The file watcher: the event loop `fsLuaWatcherThread` (main.go:209-228)
    and its start-up `startLuaFileListener` (main.go:230-244).

    The goroutine's `select` over the Events and Errors channels is modelled
    as a finite list of items in the order the loop receives them.  An event
    carries the `Script` that the reload it triggers sees: the results of
    the per-cell runs of the file during that pass.
 */
module Watcher {

  import opened Wrappers
  import opened Colors
  import opened Grid
  import opened Reload

  /** fsnotify's operation bits. */
  const CreateOp: bv32 := 1
  const WriteOp: bv32 := 2
  const RemoveOp: bv32 := 4
  const RenameOp: bv32 := 8
  const ChmodOp: bv32 := 16

  /** The test of main.go:216: the Write bit is set. */
  predicate IsWrite(op: bv32) {
    op & WriteOp == WriteOp
  }

  datatype Item =
    | Event(op: bv32, path: string, file: Script)  // a value from watcher.Events
    | EventsClosed                                  // watcher.Events is closed
    | Error(message: string)                        // a value from watcher.Errors
    | ErrorsClosed                                  // watcher.Errors is closed

  /** Why the loop ended: a closed channel, a non-Write event, or (only in
      the model) because the list of items ran out while it kept waiting.
      `NeverStarted` is the outcome of a session whose watcher could not be
      created, so that no loop ran at all. */
  datatype Stop = ChannelClosed | NotAWrite | StillWaiting | NeverStarted

  datatype WatchResult = WatchResult(
    materials: map<string, Material>,
    reloads: seq<string>,   // the path of each reload, in order
    logged: seq<string>,    // the message of each error printed, in order
    stop: Stop)

  /** An item that ends the loop (main.go:213-218, 222-224). */
  predicate Stops(item: Item) {
    || item.EventsClosed? || item.ErrorsClosed?
    || (item.Event? && !IsWrite(item.op))
  }

  function StopOf(item: Item): Stop
    requires Stops(item)
  {
    if item.Event? then NotAWrite else ChannelClosed
  }

  /** `fsLuaWatcherThread` over an `n`-grid. */
  function Watch(n: nat, mats: map<string, Material>, items: seq<Item>): WatchResult
    decreases |items|
  {
    if |items| == 0 then WatchResult(mats, [], [], StillWaiting)
    else
      match items[0]
      case EventsClosed => WatchResult(mats, [], [], ChannelClosed)
      case ErrorsClosed => WatchResult(mats, [], [], ChannelClosed)
      case Event(op, path, file) =>
        if !IsWrite(op) then WatchResult(mats, [], [], NotAWrite)
        else
          var r := Watch(n, FetchReplicube(file, n, mats).materials, items[1..]);
          WatchResult(r.materials, [path] + r.reloads, r.logged, r.stop)
      case Error(message) =>
        var r := Watch(n, mats, items[1..]);
        WatchResult(r.materials, r.reloads, [message] + r.logged, r.stop)
  }

  // ---------------------------------------------------------------------
  // An independent description of the loop.

  /** Index of the first item that ends the loop, or |items|. */
  function FirstStop(items: seq<Item>): (k: nat)
    ensures k <= |items|
    ensures forall i :: 0 <= i < k ==> !Stops(items[i])
    ensures k < |items| ==> Stops(items[k])
  {
    if |items| == 0 then 0
    else if Stops(items[0]) then 0
    else 1 + FirstStop(items[1..])
  }

  /** The paths of the events in `items`. */
  function EventPaths(items: seq<Item>): seq<string> {
    if |items| == 0 then []
    else (if items[0].Event? then [items[0].path] else []) + EventPaths(items[1..])
  }

  /** The messages of the error items in `items`. */
  function Messages(items: seq<Item>): seq<string> {
    if |items| == 0 then []
    else (if items[0].Error? then [items[0].message] else []) + Messages(items[1..])
  }

  /** One reload per event, in order, each with that event's file. */
  function ReloadEach(n: nat, mats: map<string, Material>, items: seq<Item>): map<string, Material>
    decreases |items|
  {
    if |items| == 0 then mats
    else if items[0].Event? then ReloadEach(n, FetchReplicube(items[0].file, n, mats).materials, items[1..])
    else ReloadEach(n, mats, items[1..])
  }

  /** The loop handles the items before the first stopping one: each event
      among them triggers exactly one reload, with its path and its file;
      each error is printed; then the loop ends for the reason the stopping
      item gives, or keeps waiting if there is none. */
  lemma {:induction false} WatchCharacterised(n: nat, mats: map<string, Material>, items: seq<Item>)
    ensures var r, k := Watch(n, mats, items), FirstStop(items);
      && r.reloads == EventPaths(items[..k])
      && r.logged == Messages(items[..k])
      && r.materials == ReloadEach(n, mats, items[..k])
      && r.stop == (if k < |items| then StopOf(items[k]) else StillWaiting)
    decreases |items|
  {
    if |items| > 0 && !Stops(items[0]) {
      var k := FirstStop(items);
      assert items[..k][1..] == items[1..][..k - 1];
      assert items[..k][0] == items[0];
      match items[0]
      case Event(_, _, file) =>
        WatchCharacterised(n, FetchReplicube(file, n, mats).materials, items[1..]);
      case Error(_) =>
        WatchCharacterised(n, mats, items[1..]);
    }
  }

  /** Nothing after the stopping item has any effect. */
  lemma {:induction false} WatchIgnoresAfterStop(n: nat, mats: map<string, Material>,
                                                 before: seq<Item>, stop: Item, after: seq<Item>)
    requires forall i :: 0 <= i < |before| ==> !Stops(before[i])
    requires Stops(stop)
    ensures Watch(n, mats, before + [stop] + after) == Watch(n, mats, before + [stop])
    decreases |before|
  {
    if |before| == 0 {
      assert (before + [stop] + after)[0] == stop == (before + [stop])[0];
    } else {
      var items, items' := before + [stop] + after, before + [stop];
      assert items[1..] == before[1..] + [stop] + after;
      assert items'[1..] == before[1..] + [stop];
      assert items[0] == items'[0] == before[0];
      match before[0]
      case Event(_, _, file) =>
        WatchIgnoresAfterStop(n, FetchReplicube(file, n, mats).materials, before[1..], stop, after);
      case Error(_) =>
        WatchIgnoresAfterStop(n, mats, before[1..], stop, after);
    }
  }

  /** An error item changes no colour, triggers no reload and does not end
      the loop: removing it leaves everything but the log as it was. */
  lemma {:induction false} WatchErrorIsHarmless(n: nat, mats: map<string, Material>,
                                                before: seq<Item>, message: string, after: seq<Item>)
    ensures var r, r' := Watch(n, mats, before + [Error(message)] + after), Watch(n, mats, before + after);
      r.materials == r'.materials && r.reloads == r'.reloads && r.stop == r'.stop
    decreases |before|
  {
    if |before| == 0 {
      assert (before + [Error(message)] + after)[1..] == after;
      assert before + after == after;
    } else {
      var items, items' := before + [Error(message)] + after, before + after;
      assert items[1..] == before[1..] + [Error(message)] + after;
      assert items'[1..] == before[1..] + after;
      assert items[0] == items'[0] == before[0];
      if !Stops(before[0]) {
        match before[0]
        case Event(_, _, file) =>
          WatchErrorIsHarmless(n, FetchReplicube(file, n, mats).materials, before[1..], message, after);
        case Error(_) =>
          WatchErrorIsHarmless(n, mats, before[1..], message, after);
      }
    }
  }

  /** One event decides by its Write bit alone: with the bit set, whatever
      other bits come with it, the event's file is reloaded and the loop
      goes on with the rest; without it the loop ends at once, with no
      reload and no colour change (main.go:216-219). */
  lemma EventStep(n: nat, mats: map<string, Material>, op: bv32, path: string, file: Script, rest: seq<Item>)
    ensures var r := Watch(n, mats, [Event(op, path, file)] + rest);
      && (IsWrite(op) ==>
            var w := Watch(n, FetchReplicube(file, n, mats).materials, rest);
            r.reloads == [path] + w.reloads && r.materials == w.materials
            && r.logged == w.logged && r.stop == w.stop)
      && (!IsWrite(op) ==> r.reloads == [] && r.materials == mats && r.logged == [] && r.stop == NotAWrite)
  {
    assert ([Event(op, path, file)] + rest)[1..] == rest;
  }

  /** The Write test looks at the Write bit only: setting it makes any
      operation a write, clearing it makes any operation a non-write, and
      of fsnotify's single operations only Write passes. */
  lemma OnlyWriteBitMatters(op: bv32)
    ensures IsWrite(op | WriteOp)
    ensures !IsWrite(op & !WriteOp)
    ensures IsWrite(WriteOp)
    ensures !IsWrite(ChmodOp) && !IsWrite(CreateOp) && !IsWrite(RenameOp) && !IsWrite(RemoveOp)
  {
  }

  /** A chmod event, the one an editor's save often brings along, ends the
      loop. */
  lemma ChmodEndsLoop(n: nat, mats: map<string, Material>, path: string, file: Script, rest: seq<Item>)
    ensures var r := Watch(n, mats, [Event(ChmodOp, path, file)] + rest);
      r.stop == NotAWrite && r.reloads == [] && r.materials == mats
  {
    OnlyWriteBitMatters(ChmodOp);
    EventStep(n, mats, ChmodOp, path, file, rest);
  }

  // ---------------------------------------------------------------------
  // Start-up.

  datatype StartResult = StartResult(
    materials: map<string, Material>,
    reloads: seq<string>,
    err: Option<string>,
    watcherClosed: bool)

  /** `startLuaFileListener`.  `newErr` and `addErr` are the errors, if any,
      of `fsnotify.NewWatcher` and `watcher.Add`; `file` is the script the
      file holds at start-up. */
  function StartListener(n: nat, mats: map<string, Material>, filename: string, file: Script,
                         newErr: Option<string>, addErr: Option<string>): StartResult
  {
    if newErr.Some? then StartResult(mats, [], newErr, false)
    else if addErr.Some? then StartResult(mats, [], addErr, true)
    else StartResult(FetchReplicube(file, n, mats).materials, [filename], None, false)
  }

  /** Start-up fails exactly when creating or registering the watcher fails;
      then nothing is reloaded and no colour changes, and a failed
      registration closes the watcher.  Otherwise exactly one eager reload
      of the file runs. */
  lemma StartListenerOutcome(n: nat, mats: map<string, Material>, filename: string, file: Script,
                             newErr: Option<string>, addErr: Option<string>)
    ensures var r := StartListener(n, mats, filename, file, newErr, addErr);
      && (r.err.Some? <==> newErr.Some? || addErr.Some?)
      && (r.err.Some? ==> r.reloads == [] && r.materials == mats)
      && (newErr.None? && addErr.Some? ==> r.watcherClosed && r.err == addErr)
      && (r.err.None? ==> r.reloads == [filename] && r.materials == FetchReplicube(file, n, mats).materials)
  {
  }

  /** Start-up followed by the loop: when start-up succeeds the file is
      reloaded once eagerly and then once per Write event handled.  When
      the watcher cannot be created no loop starts (main.go:231-234); when
      it cannot be registered the watcher is closed (main.go:239), which
      closes the channels the already started loop reads, so it ends. */
  function Session(n: nat, mats: map<string, Material>, filename: string, file: Script,
                   newErr: Option<string>, addErr: Option<string>, items: seq<Item>): WatchResult
  {
    var s := StartListener(n, mats, filename, file, newErr, addErr);
    if newErr.Some? then WatchResult(s.materials, s.reloads, [], NeverStarted)
    else if s.err.Some? then WatchResult(s.materials, s.reloads, [], ChannelClosed)
    else
      var w := Watch(n, s.materials, items);
      WatchResult(w.materials, s.reloads + w.reloads, w.logged, w.stop)
  }

  lemma SessionReloads(n: nat, mats: map<string, Material>, filename: string, file: Script,
                       newErr: Option<string>, addErr: Option<string>, items: seq<Item>)
    requires newErr.None? && addErr.None?
    ensures var r := Session(n, mats, filename, file, newErr, addErr, items);
      && r.reloads == [filename] + EventPaths(items[..FirstStop(items)])
      && r.materials == ReloadEach(n, FetchReplicube(file, n, mats).materials, items[..FirstStop(items)])
  {
    WatchCharacterised(n, FetchReplicube(file, n, mats).materials, items);
  }

  /** A failed start-up reloads nothing and changes no colour; the loop
      never starts when the watcher cannot be created, and ends on its
      closed channels when the file cannot be registered. */
  lemma SessionStartFails(n: nat, mats: map<string, Material>, filename: string, file: Script,
                          newErr: Option<string>, addErr: Option<string>, items: seq<Item>)
    requires newErr.Some? || addErr.Some?
    ensures var r := Session(n, mats, filename, file, newErr, addErr, items);
      && r.reloads == [] && r.materials == mats && r.logged == []
      && r.stop == (if newErr.Some? then NeverStarted else ChannelClosed)
  {
  }
}
