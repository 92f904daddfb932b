# Replicube hot-reload core, modelled in Dafny

myreplicube shows a cube split into an N×N×N grid of small cubes and lets
the user colour the cells from a Lua script that is re-run every time the
file is saved. This project models the three pieces of sequential logic
inside `main.go`:

- **Grid construction** (`createCubeOfCubes`). It builds the n³ cells in
  x-major order. Each cell is named `"cube x y z"`, gets a fresh LightGray
  standard material, and gets a base position from the per-axis formula
  `i·(size+gap) − half + size/2`, where `half = (n·(size+gap) − gap)/2`.
  Positions are exact reals. (`names.dfy`, `grid.dfy`, `colors.dfy`)
- **The reload pass** (`fetchReplicubeLua`, `fetchStepForMiniCubeLua`).
  The pass is a fold over the cells. For each cell it binds centred integer
  coordinates and runs the script. The script is abstract: a function from
  coordinates to `Failed` or `Returned(values)`.
  - A failure ends the pass, so the cells before it keep their new colours.
  - Returned values are pushed on a stack that is cleared only when the
    pass ends. The number of returned values is never checked. So the value
    read for a cell is the top of a stack that still holds every earlier
    cell's results.
  - A non-colour on top, or a cell with no standard material, skips only
    that cell.
  - A colour writes RGB, opacity = A and depth mask = (A ≠ 0).

  (`reload.dfy`)
- **The watcher** (`fsLuaWatcherThread`, `startLuaFileListener`). The loop
  is a fold over the items it receives. A closed channel stops it. A
  non-Write event also stops it. A Write event triggers one reload with
  the event's path. An error is printed and the loop goes on. Start-up
  does one eager reload, but only when the watcher was created and
  registered. (`watcher.dfy`)

Each operation except start-up has a partner proved against it, and
start-up (`Watcher.StartListenerOutcome`) is characterised case by case:
- `ParseName` inverts `Name`.
- `Unflatten` inverts `Flatten`, and the order is lexicographic.
- The geometry is proved centred, evenly spaced and point-symmetric, and
  the n³ base positions sum to the origin.
- The pass is matched to a cell-by-cell description (`FirstFailure`,
  `Pushed`, `ReadFor`).
- The watcher loop is matched to a description by filtering
  (`FirstStop`, `EventPaths`, `ReloadEach`).

## Behaviour of the code worth knowing

The model follows main.go as written, including these behaviours:

- **A non-Write event ends the watching.** The loop returns on any event
  without the Write bit (main.go:216-218), so a chmod or a rename stops
  all later reloads. See `Watcher.EventStep` and `Watcher.ChmodEndsLoop`.
- **The stack carries over between cells.** The check for exactly one
  return value is commented out (main.go:183-185). The stack is cleared
  only when the pass ends (main.go:168). A cell whose script returns
  nothing therefore re-uses the previous cell's value. See
  `Reload.EmptyReturnReusesPrevious`.
- **A failed run leaves a partial update.** The pass returns at the
  failing cell, and the cells already written keep their new colours
  (main.go:178-180). See `Reload.ReloadAbortIsPartial` and
  `Reload.ReloadCell`.
- **Even grids are off-centre by one.** The comment at main.go:106 states
  the intent to centre the structure at the origin, and the base
  positions are centred. The script coordinates use
  `-int((CubeCount-1)/2)` (main.go:174). The division truncates, so an
  even grid runs from −(n/2−1) to n/2. See `Reload.CentredRange`. The
  subtraction is unsigned, but it wraps only at n = 0, where no cell is
  visited (`Reload.Offset`).

## Model

| member | source | states |
|---|---|---|
| `Names.Decimal` | main.go:102 | `%d` renders a number as a non-empty digit string with no leading zero |
| `Names.DecimalRoundTrip` | main.go:102 | reading the `%d` text back as a decimal gives the original number |
| `Names.FieldsSplit` | main.go:102 | splitting `p + " " + q` at spaces, where `p` has no space, gives `p` first and then the fields of `q` |
| `Names.NameRoundTrip` | main.go:102 | `ParseName` recovers `(x, y, z)` from the cell name `"cube x y z"` |
| `Names.NameInjective` | main.go:102 | two cell names are equal exactly when their triples are equal, so name and triple are in bijection |
| `Grid.UnflattenFlatten` | main.go:97-99 | the step number of cell `c` in the x-major traversal leads back to `c` |
| `Grid.FlattenUnflatten` | main.go:97-99 | every step below n³ visits an in-grid cell, and that cell's step number is the step itself |
| `Grid.Order` | main.go:97-99 | the traversal has n³ entries, and the entry at step k is in the grid with step number k |
| `Grid.OrderComplete` | main.go:97-99 | a triple is visited exactly when all of its components are below n, and it is visited at step `Flatten` |
| `Grid.OrderDistinct` | main.go:97-99 | no cell is visited twice |
| `Grid.OrderIsLexicographic` | main.go:97-99 | step i comes before step j exactly when cell i is lexicographically smaller (x, then y, then z) |
| `Grid.OrderNamesDistinct` | main.go:97-115 | the n³ cells have pairwise different names |
| `Grid.CreateCubeOfCubes` | main.go:80-119 | builds n³ meshes in traversal order, each named after its cell at its base position; every cell name maps to a fresh LightGray material and to its base position; other table entries are untouched |
| `Grid.AxisCentred` | main.go:106-109 | cells i and n−1−i on an axis sit symmetrically about 0 |
| `Grid.AxisSpacing` | main.go:107-109 | neighbouring cells on an axis are exactly size+gap apart |
| `Grid.AxisFaces` | main.go:87-88 | the first cell's low face is at −half and the last cell's high face is at +half |
| `Grid.AxisSumClosed` | main.go:107-109 | the sum of the first k cell centres on an axis, in closed form |
| `Grid.AxisCentroid` | main.go:86-110 | the n cell centres along one axis sum to zero |
| `Grid.PosSumOpposite` | main.go:106-110 | if each position in one list of cells is the opposite of the position at the mirrored index of another list, the two sums of positions are opposite |
| `Grid.MirrorFlatten` | main.go:97-99 | the mirror of the cell at step k is visited at step n³−1−k |
| `Grid.OrderMirror` | main.go:97-99 | reading the traversal backwards gives the mirrored cells |
| `Grid.GridCentroid` | main.go:97-110 | the base positions of all n³ cells sum to (0, 0, 0), so the centroid of the structure is the origin, as the comment at main.go:106 intends |
| `Grid.GridPointSymmetric` | main.go:106-110 | each cell and its mirror cell through the centre have opposite base positions |
| `Grid.DefaultCorner` | main.go:121-123 | with n=5, size 0.2 and gap 0.01, half is 0.52 and cell (0,0,0) is at (−0.42, −0.42, −0.42) |
| `Colors.NewStandard` | main.go:103 | a new cell material is a standard material of the given colour |
| `Colors.Painted` | main.go:200-203 | a write gives a standard material with the colour's RGB and opacity A; depth writes are on exactly when the opacity is not zero |
| `Colors.BuiltinDepthMask` | main.go:140-148 | of the built-in colours, only `transparent` turns depth writes off; all the others are fully opaque |
| `Colors.TransparentIsInvisibleRed` | main.go:141-147 | `transparent` has red's RGB and opacity 0, so painting with it differs from painting red |
| `Colors.BuiltinsDistinct` | main.go:140-148 | the six opaque built-in colours are pairwise different |
| `Reload.CentredRange` | main.go:174 | for odd n the script coordinates run from −(n−1)/2 to (n−1)/2; for even n they run from −(n/2−1) to n/2 |
| `Reload.CentreStep` | main.go:174-175 | cells one apart on an axis get script coordinates one apart on that axis |
| `Reload.Write` | main.go:188-203 | a cell's material changes only when the value read is a colour and the material is standard, and then it becomes that colour painted |
| `Reload.WriteCell` | main.go:195-203 | the write changes only the named cell's material and keeps the set of names |
| `Reload.FirstFailure` | main.go:178-180 | every run before the first failure index returns values, and the run at that index fails |
| `Reload.RunVisits` | main.go:169-180 | the script runs for iterations 0..k in order, where k is the first failure (k included); the pass completes exactly when no run fails |
| `Reload.RunFrame` | main.go:167-207 | the pass keeps the set of names and changes no material outside the iterations before the first failure |
| `Reload.RunWritesHead` | main.go:178-203 | a first iteration that succeeds writes the top of the stack its own run leaves |
| `Reload.RunWrites` | main.go:168-203 | each iteration before the first failure gets `Write` of the top of the start stack plus everything returned up to and including that iteration |
| `Reload.RunAbortKeeps` | main.go:178-180 | the failing iteration and every later one keep their material |
| `Reload.PushedSnoc` | main.go:178 | the values pushed by a sequence of runs, extended by one run, are the old values followed by that run's values |
| `Reload.ReadForSplit` | main.go:188 | the value read for iteration i is the top of the stack after the earlier runs, with iteration i's values added |
| `Reload.ReadOwnResult` | main.go:188 | a run that returns values is read as the last value it returned |
| `Reload.EmptyReturnReusesPrevious` | main.go:168-188 | a run that returns nothing is read as the previous iteration's value |
| `Reload.EmptyFirstReturnSkips` | main.go:168-191 | at the start of a pass the stack is empty, so a first run that returns nothing yields no value |
| `Reload.SlotAt` | main.go:169-175 | in-grid cell c is iteration `Flatten(c)`, with its centred coordinates and its name |
| `Reload.SlotsDistinct` | main.go:195 | the names the pass writes under are pairwise different, and they are exactly the grid names |
| `Reload.ReloadVisits` | main.go:169-180 | a full pass runs the script once per cell in x-major order; a failure at k stops it after k+1 runs with `completed` false |
| `Reload.ReloadCell` | main.go:167-207 | a cell before the first failure gets `Write` of the value read for it; the failing cell and all later cells keep their material |
| `Reload.ReloadFrame` | main.go:167-207 | a pass keeps the set of material names and leaves every non-cell material alone |
| `Reload.ReloadAbortIsPartial` | main.go:178-180 | when the run for cell f fails, the pass is not complete, and f and every later cell keep their material, whatever earlier cells were given |
| `Reload.ReloadSkips` | main.go:188-199 | a cell whose read value is not a colour, or whose material is not standard, keeps its material |
| `Reload.ReloadPaints` | main.go:188-203 | a standard cell whose own run returns colour col last, with no run failing up to that cell, gets the RGB of col, opacity col.a and depth mask col.a ≠ 0 |
| `Reload.ReloadIdempotent` | main.go:167-207 | a second pass with the same per-coordinate results changes no material; this applies to a file whose result depends only on x, y and z and that does not change during either pass |
| `Reload.ReloadUniform` | main.go:167-207 | a script returning the same colour for every cell completes the pass and paints every standard cell with that colour |
| `Reload.CheckerCell` | main.go:174-203 | under the checkerboard script, a standard cell gets red when x+y+z is even and blue when it is odd |
| `Reload.CheckerNeighbourColours` | main.go:174-175 | cells that are neighbours on an axis get script coordinates whose sums differ by one, so their checkerboard colours paint differently |
| `Reload.CheckerboardNeighboursDiffer` | main.go:174-203 | under the checkerboard script, cells that are neighbours on an axis end with different materials |
| `Watcher.FirstStop` | main.go:212-224 | the items before the first-stop index do not stop the loop, and the item at that index does |
| `Watcher.WatchCharacterised` | main.go:209-228 | the loop handles exactly the items before the first stopping item: one reload per event with its path and file, in order, and one printed message per error; it then stops for that item's reason, or keeps waiting if there is none |
| `Watcher.WatchIgnoresAfterStop` | main.go:212-224 | items after a stopping item have no effect |
| `Watcher.WatchErrorIsHarmless` | main.go:221-226 | removing an error item from any position of any item list changes no material, no reload and no stop reason |
| `Watcher.OnlyWriteBitMatters` | main.go:216 | for every operation, setting the Write bit makes it pass the Write test and clearing that bit makes it fail; of the single operations, only Write passes |
| `Watcher.EventStep` | main.go:216-219 | for every operation: with the Write bit, the event's file is reloaded under its path and the loop goes on with the remaining items; without it, the loop ends with no reload, no log entry and no colour change |
| `Watcher.ChmodEndsLoop` | main.go:216-218 | a chmod event ends the loop, with no reload and no colour change, whatever follows it |
| `Watcher.StartListenerOutcome` | main.go:230-244 | start-up fails exactly when creating or registering the watcher fails, and then nothing is reloaded; a failed registration closes the watcher; on success the file is reloaded exactly once |
| `Watcher.SessionReloads` | main.go:235-243 | after a successful start-up the reloads are the eager one, followed by one per Write event handled by the loop; the colours come from those reloads, in that order |
| `Watcher.SessionStartFails` | main.go:230-241 | a failed start-up reloads nothing and changes no colour; when the watcher cannot be created no loop runs, and when the file cannot be registered the closed watcher ends the loop |

## Left out

- Rotation (`rotateCubeXYZ`, `renderStepped`). This is Euler-angle
  trigonometry on float32, done on every frame.
- The g3n scene graph: the node registry, meshes, camera, lights, resize
  handling and rendering (main.go:45-78, 121-136, 281-294, 309). These are
  calls into a foreign library.
- The Lua interpreter (`lua.DoFile`, `OpenLibraries`, userdata). It is
  replaced by the abstract `Script`: what the runs of one pass return for
  each cell's coordinates. `DoFile` re-reads and re-runs the file for
  every cell (main.go:178), in one `LuaState` kept for the whole process
  (main.go:39, 306). Within a pass a `Script` covers any such behaviour,
  because each cell has its own coordinates. Across passes the model does
  not track the Lua globals a run leaves behind, nor a save that lands
  during a pass. Binding the built-in colours as globals is abstracted too: only
  the colour table itself is modelled.
- `ToUserData(-1)` on an empty stack. It can happen only when the first
  run of a pass returns nothing. The model reads it as "no value", so the
  cell is skipped. What go-lua does there is not part of this model.
- float32 rounding. Positions are exact reals, so the centring and
  spacing lemmas hold for exact arithmetic only.
- Concurrency:
  - The watcher goroutine starts before `watcher.Add`, so it may run
    alongside the eager reload.
  - The materials are shared with the render loop without
    synchronisation.
  - The `select` between the two channels is replaced by a given order
    of items.
- The fsnotify and OS resources. The fsnotify operation bits
  (Create 1, Write 2, Remove 4, Rename 8, Chmod 16) come from that library,
  and it is not part of this model.
- g3n's defaults for a new standard material are not part of this model.
  The model assumes they are opaque (opacity 1) with depth writes on, and
  takes LightGray to be #D3D3D3.
- `main`: the argument check, `log.Fatal` and the deferred
  `watcher.Close()` (main.go:296-322). These are process plumbing.
- Grid sizes of 2^63 or more. The `int(app.CubeCount)` conversion is not
  modelled; `Reload.Offset` models only the unsigned wrap of `CubeCount - 1`.
- Reload.ReloadIdempotent: holds of main.go only for a file whose result
  depends only on x, y and z and that does not change during either pass.
  `DoFile` re-reads the file for every cell (main.go:178), and the
  interpreter keeps its globals between runs. So a file that keeps state
  in a global (one that flips a flag on every run, say) or a save during a
  pass can give the second pass different values.
- The stack left by `setupLuaState`. Every pass is modelled as starting
  from an empty stack, because each `PushUserData` there is popped by
  `SetGlobal` and every pass ends with `SetTop(0)`.
