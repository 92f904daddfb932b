/** The per-cell reload pass `fetchReplicubeLua` (main.go:167-207) with the
    coordinate binding of `fetchStepForMiniCubeLua` (main.go:158-165).

    The interpreter is abstracted as a `Script`: for the coordinates bound to
    the globals x, y and z it either fails (a parse or runtime error of
    `lua.DoFile`) or returns a list of values, which the interpreter pushes
    onto its stack.  The stack is emptied only when the whole pass ends
    (the deferred `SetTop(0)`, main.go:168), and the number of returned values
    is not checked (main.go:183-185), so the value read for a cell is the top
    of a stack that still holds the results of all earlier cells.
 */
module Reload {

  import opened Wrappers
  import opened Colors
  import opened Grid

  /** A value on the interpreter stack: one of the colour userdata, or
      anything else (a number, a string, nil, a table, ...). */
  datatype Val = ColorVal(color: Color4) | OtherVal

  /** The integer values of the globals x, y and z. */
  datatype Coord = Coord(x: int, y: int, z: int)

  /** Result of one `lua.DoFile`. */
  datatype Outcome = Failed | Returned(values: seq<Val>)

  /** What `lua.DoFile` yields for each binding of x, y and z.  `DoFile`
      re-reads and re-runs the file for every cell (main.go:178), in one
      interpreter state kept for the whole process; a `Script` stands for
      the behaviour of those runs over one pass, so within a pass it is
      fully general (every cell has its own coordinates). */
  type Script = Coord -> Outcome

  /** 2^64: `CubeCount` is a Go `uint`. */
  const UintRange: int := 0x1_0000_0000_0000_0000

  /** `-int((CubeCount - 1) / 2)` (main.go:174), with the unsigned
      subtraction wrapping for a zero count. */
  function Offset(n: nat): int
  {
    -(((n - 1) % UintRange) / 2)
  }

  /** The script coordinates of cell `c` (main.go:174-175). */
  function Centre(n: nat, c: Idx): Coord
  {
    var o := Offset(n);
    Coord(o + c.x, o + c.y, o + c.z)
  }

  /** For an odd grid the coordinates run symmetrically from -(n-1)/2 to
      (n-1)/2; for an even grid they run from -(n/2-1) to n/2, one step
      further on the positive side. */
  lemma CentredRange(n: nat)
    requires 1 <= n < UintRange
    ensures n % 2 == 1 ==> Offset(n) == -((n - 1) / 2) && Offset(n) + (n - 1) == (n - 1) / 2
    ensures n % 2 == 0 ==> Offset(n) == -(n / 2 - 1) && Offset(n) + (n - 1) == n / 2
  {
  }

  /** Cells one step apart along an axis get script coordinates one apart. */
  lemma CentreStep(n: nat, c: Idx)
    ensures Centre(n, Idx(c.x + 1, c.y, c.z)).x == Centre(n, c).x + 1
    ensures Centre(n, Idx(c.x, c.y + 1, c.z)).y == Centre(n, c).y + 1
    ensures Centre(n, Idx(c.x, c.y, c.z + 1)).z == Centre(n, c).z + 1
  {
  }

  /** `ToUserData(-1)`: the value on top of the stack, if there is one. */
  function Top(stack: seq<Val>): Option<Val>
  {
    if |stack| == 0 then None else Some(stack[|stack| - 1])
  }

  /** The material a cell has after the pass has read `top` for it
      (main.go:188-203): a colour on top and a standard material give a
      write; otherwise the cell is skipped. */
  function Write(m: Material, top: Option<Val>): (m': Material)
    ensures m' != m ==> m.Standard? && top.Some? && top.value.ColorVal?
    ensures m.Standard? && top.Some? && top.value.ColorVal? ==> m' == Painted(top.value.color)
  {
    if top.Some? && top.value.ColorVal? && m.Standard? then Painted(top.value.color) else m
  }

  /** Looks the cell's material up by name and applies `Write` to it; a
      name with no material is skipped. */
  function WriteCell(mats: map<string, Material>, name: string, top: Option<Val>): (r: map<string, Material>)
    ensures r.Keys == mats.Keys
    ensures name in mats ==> r[name] == Write(mats[name], top)
    ensures forall key :: key in mats && key != name ==> r[key] == mats[key]
  {
    if name in mats then mats[name := Write(mats[name], top)] else mats
  }

  /** One iteration of the triple loop: the coordinates bound before the
      script runs and the name the cell's material is looked up by
      (main.go:174-175, 195). */
  datatype Slot = Slot(at: Coord, name: string)

  /** The iterations of a pass over an `n`-grid, in x-major order. */
  function Slots(n: nat): seq<Slot>
  {
    var o := Order(n);
    seq(|o|, k requires 0 <= k < |o| => Slot(Centre(n, o[k]), CellName(o[k])))
  }

  /** The state the pass leaves: the materials, the coordinates the script
      was run for (in order) and whether the pass ran to the end. */
  datatype PassResult = PassResult(materials: map<string, Material>, visited: seq<Coord>, completed: bool)

  /** The pass over `slots`, starting from `stack`.  A failing run ends the
      pass at once (main.go:178-180). */
  function Run(script: Script, slots: seq<Slot>,
               mats: map<string, Material>, stack: seq<Val>): PassResult
    decreases |slots|
  {
    if |slots| == 0 then PassResult(mats, [], true)
    else
      match script(slots[0].at)
      case Failed => PassResult(mats, [slots[0].at], false)
      case Returned(vs) =>
        var stack' := stack + vs;
        var r := Run(script, slots[1..], WriteCell(mats, slots[0].name, Top(stack')), stack');
        PassResult(r.materials, [slots[0].at] + r.visited, r.completed)
  }

  /** `fetchReplicubeLua`: the pass over every cell in x-major order,
      starting from the empty stack the previous pass left behind. */
  function FetchReplicube(script: Script, n: nat, mats: map<string, Material>): PassResult
  {
    Run(script, Slots(n), mats, [])
  }

  // ---------------------------------------------------------------------
  // An independent description of the pass.

  /** Index of the first iteration whose script run fails, or |slots|. */
  function FirstFailure(script: Script, slots: seq<Slot>): (k: nat)
    ensures k <= |slots|
    ensures forall i :: 0 <= i < k ==> script(slots[i].at).Returned?
    ensures k < |slots| ==> script(slots[k].at).Failed?
  {
    if |slots| == 0 then 0
    else if script(slots[0].at).Failed? then 0
    else 1 + FirstFailure(script, slots[1..])
  }

  /** When no run fails, the first failure is past the end. */
  lemma {:induction false} NoFailureCompletes(script: Script, slots: seq<Slot>)
    requires forall i :: 0 <= i < |slots| ==> script(slots[i].at).Returned?
    ensures FirstFailure(script, slots) == |slots|
  {
    if |slots| > 0 {
      assert script(slots[0].at).Returned?;
      forall i | 0 <= i < |slots| - 1 ensures script(slots[1..][i].at).Returned? {
        assert slots[1..][i] == slots[i + 1];
      }
      NoFailureCompletes(script, slots[1..]);
    }
  }

  /** Everything the runs for `slots` return, in order. */
  function Pushed(script: Script, slots: seq<Slot>): seq<Val>
    decreases |slots|
  {
    if |slots| == 0 then []
    else
      var more := Pushed(script, slots[1..]);
      match script(slots[0].at)
      case Failed => more
      case Returned(vs) => vs + more
  }

  /** The value read for iteration `i`: the top of the stack after the runs
      for iterations 0..i, that is, the last value any of them returned
      (or the start stack's top when none returned anything). */
  function ReadFor(script: Script, slots: seq<Slot>, stack: seq<Val>, i: nat): Option<Val>
    requires i < |slots|
  {
    Top(stack + Pushed(script, slots[..i + 1]))
  }

  function NamesIn(slots: seq<Slot>): set<string> {
    set i | 0 <= i < |slots| :: slots[i].name
  }

  predicate DistinctNames(slots: seq<Slot>) {
    forall i, j :: 0 <= i < j < |slots| ==> slots[i].name != slots[j].name
  }

  lemma PushedCons(script: Script, slots: seq<Slot>, i: nat, vs: seq<Val>)
    requires i + 1 < |slots| && script(slots[0].at) == Returned(vs)
    ensures Pushed(script, slots[..i + 2]) == vs + Pushed(script, slots[1..][..i + 1])
  {
    assert slots[..i + 2][1..] == slots[1..][..i + 1];
  }

  lemma DistinctTail(slots: seq<Slot>)
    requires |slots| > 0 && DistinctNames(slots)
    ensures DistinctNames(slots[1..])
    ensures slots[0].name !in NamesIn(slots[1..])
  {
    var rest := slots[1..];
    forall i, j | 0 <= i < j < |rest| ensures rest[i].name != rest[j].name {
      assert rest[i] == slots[i + 1] && rest[j] == slots[j + 1];
    }
    forall j | 0 <= j < |rest| ensures rest[j].name != slots[0].name {
      assert rest[j] == slots[j + 1];
    }
  }

  /** The script runs for iterations 0..k in order, k being the first
      failure; the pass completes exactly when no run fails. */
  lemma {:induction false} RunVisits(script: Script, slots: seq<Slot>,
                                     mats: map<string, Material>, stack: seq<Val>)
    ensures var r, k := Run(script, slots, mats, stack), FirstFailure(script, slots);
      && (r.completed <==> k == |slots|)
      && |r.visited| == (if k < |slots| then k + 1 else k)
      && (forall i :: 0 <= i < |r.visited| ==> r.visited[i] == slots[i].at)
  {
    if |slots| > 0 {
      match script(slots[0].at)
      case Failed =>
      case Returned(vs) =>
        var stack' := stack + vs;
        var mats' := WriteCell(mats, slots[0].name, Top(stack'));
        RunVisits(script, slots[1..], mats', stack');
        var r := Run(script, slots, mats, stack);
        var r' := Run(script, slots[1..], mats', stack');
        forall i | 0 <= i < |r.visited| ensures r.visited[i] == slots[i].at {
          if i > 0 {
            assert r.visited[i] == r'.visited[i - 1];
            assert slots[1..][i - 1] == slots[i];
          }
        }
    }
  }

  /** The pass changes no key set, and leaves every material alone whose
      name is not that of an iteration before the first failure. */
  lemma {:induction false} RunFrame(script: Script, slots: seq<Slot>,
                                    mats: map<string, Material>, stack: seq<Val>)
    ensures var r, k := Run(script, slots, mats, stack), FirstFailure(script, slots);
      && r.materials.Keys == mats.Keys
      && (forall key :: key in mats && key !in NamesIn(slots[..k]) ==> r.materials[key] == mats[key])
  {
    if |slots| > 0 {
      match script(slots[0].at)
      case Failed =>
      case Returned(vs) =>
        var stack' := stack + vs;
        var name := slots[0].name;
        var mats' := WriteCell(mats, name, Top(stack'));
        var rest := slots[1..];
        RunFrame(script, rest, mats', stack');
        var k := FirstFailure(script, slots);
        assert slots[..k][0] == slots[0];
        var before, before' := slots[..k], rest[..k - 1];
        assert NamesIn(before') <= NamesIn(before) by {
          forall j | 0 <= j < |before'| ensures before'[j].name in NamesIn(before) {
            assert before[j + 1] == before'[j];
          }
        }
    }
  }

  /** The first iteration, when it succeeds, writes the top of the stack
      its own run leaves, and no later iteration touches that name again. */
  lemma RunWritesHead(script: Script, slots: seq<Slot>,
                      mats: map<string, Material>, stack: seq<Val>)
    requires DistinctNames(slots)
    requires 0 < FirstFailure(script, slots) && slots[0].name in mats
    ensures slots[0].name in Run(script, slots, mats, stack).materials
    ensures Run(script, slots, mats, stack).materials[slots[0].name]
         == Write(mats[slots[0].name], ReadFor(script, slots, stack, 0))
  {
    var vs := script(slots[0].at).values;
    var stack' := stack + vs;
    var mats' := WriteCell(mats, slots[0].name, Top(stack'));
    var rest := slots[1..];
    DistinctTail(slots);
    RunFrame(script, rest, mats', stack');
    var before := rest[..FirstFailure(script, rest)];
    assert NamesIn(before) <= NamesIn(rest) by {
      forall j | 0 <= j < |before| ensures before[j].name in NamesIn(rest) {
        assert before[j] == rest[j];
      }
    }
    assert slots[..1] == [slots[0]];
    assert Pushed(script, slots[..1]) == vs + Pushed(script, slots[..1][1..]);
    assert slots[..1][1..] == [];
  }

  /** Each iteration before the first failure gives its material `Write` of
      the value read for it. */
  lemma {:induction false} RunWrites(script: Script, slots: seq<Slot>,
                                     mats: map<string, Material>, stack: seq<Val>, i: nat)
    requires DistinctNames(slots)
    requires i < FirstFailure(script, slots) && slots[i].name in mats
    ensures slots[i].name in Run(script, slots, mats, stack).materials
    ensures Run(script, slots, mats, stack).materials[slots[i].name]
         == Write(mats[slots[i].name], ReadFor(script, slots, stack, i))
  {
    if i == 0 {
      RunWritesHead(script, slots, mats, stack);
    } else {
      var vs := script(slots[0].at).values;
      var stack' := stack + vs;
      var mats' := WriteCell(mats, slots[0].name, Top(stack'));
      var rest := slots[1..];
      DistinctTail(slots);
      assert slots[i] == rest[i - 1];
      assert rest[i - 1].name in NamesIn(rest);
      RunWrites(script, rest, mats', stack', i - 1);
      PushedCons(script, slots, i - 1, vs);
      assert stack + Pushed(script, slots[..i + 1]) == stack' + Pushed(script, rest[..i]);
    }
  }

  /** An iteration at or after the first failure leaves its material alone. */
  lemma RunAbortKeeps(script: Script, slots: seq<Slot>,
                      mats: map<string, Material>, stack: seq<Val>, i: nat)
    requires DistinctNames(slots)
    requires FirstFailure(script, slots) <= i < |slots| && slots[i].name in mats
    ensures slots[i].name in Run(script, slots, mats, stack).materials
    ensures Run(script, slots, mats, stack).materials[slots[i].name] == mats[slots[i].name]
  {
    var k := FirstFailure(script, slots);
    RunFrame(script, slots, mats, stack);
    forall j | 0 <= j < k ensures slots[..k][j].name != slots[i].name {
      assert slots[..k][j] == slots[j];
    }
  }

  // ---------------------------------------------------------------------
  // What is read for a cell.

  function ValuesOf(o: Outcome): seq<Val> {
    match o
    case Failed => []
    case Returned(vs) => vs
  }

  lemma {:induction false} PushedSnoc(script: Script, slots: seq<Slot>, x: Slot)
    ensures Pushed(script, slots + [x]) == Pushed(script, slots) + ValuesOf(script(x.at))
  {
    if |slots| > 0 {
      assert (slots + [x])[1..] == slots[1..] + [x];
      PushedSnoc(script, slots[1..], x);
    }
  }

  lemma ReadForSplit(script: Script, slots: seq<Slot>, stack: seq<Val>, i: nat)
    requires i < |slots|
    ensures ReadFor(script, slots, stack, i)
         == Top(stack + Pushed(script, slots[..i]) + ValuesOf(script(slots[i].at)))
  {
    assert slots[..i + 1] == slots[..i] + [slots[i]];
    PushedSnoc(script, slots[..i], slots[i]);
  }

  /** A run that returns values is read as the last value it returned. */
  lemma ReadOwnResult(script: Script, slots: seq<Slot>, stack: seq<Val>, i: nat)
    requires i < |slots| && script(slots[i].at).Returned?
    requires |script(slots[i].at).values| > 0
    ensures var vs := script(slots[i].at).values;
      ReadFor(script, slots, stack, i) == Some(vs[|vs| - 1])
  {
    ReadForSplit(script, slots, stack, i);
  }

  /** A run that returns nothing is read as whatever the previous iteration
      read: its result is still on top of the stack (main.go:168, 183-188). */
  lemma EmptyReturnReusesPrevious(script: Script, slots: seq<Slot>, stack: seq<Val>, i: nat)
    requires 0 < i < |slots| && script(slots[i].at) == Returned([])
    ensures ReadFor(script, slots, stack, i) == ReadFor(script, slots, stack, i - 1)
  {
    ReadForSplit(script, slots, stack, i);
    assert slots[..i] == slots[..i - 1] + [slots[i - 1]];
    PushedSnoc(script, slots[..i - 1], slots[i - 1]);
    ReadForSplit(script, slots, stack, i - 1);
  }

  /** At the start of a pass the stack is empty, so a first run that returns
      nothing is read as no value at all, and that cell is skipped. */
  lemma EmptyFirstReturnSkips(script: Script, slots: seq<Slot>)
    requires 0 < |slots| && script(slots[0].at) == Returned([])
    ensures ReadFor(script, slots, [], 0) == None
  {
    ReadForSplit(script, slots, [], 0);
  }

  // ---------------------------------------------------------------------
  // The pass over the whole grid.

  lemma SlotAt(n: nat, c: Idx)
    requires InGrid(n, c)
    ensures Flatten(n, c) < |Slots(n)|
    ensures Slots(n)[Flatten(n, c)] == Slot(Centre(n, c), CellName(c))
  {
    OrderComplete(n, c);
  }

  lemma SlotsDistinct(n: nat)
    ensures DistinctNames(Slots(n))
    ensures NamesIn(Slots(n)) == GridNames(n)
  {
    var sl, o := Slots(n), Order(n);
    forall i, j | 0 <= i < j < |sl| ensures sl[i].name != sl[j].name {
      OrderNamesDistinct(n, i, j);
    }
    forall name | name in GridNames(n) ensures name in NamesIn(sl) {
      var c :| c in o && CellName(c) == name;
      var k :| 0 <= k < |o| && o[k] == c;
      assert sl[k].name == name;
    }
  }

  /** The value read for cell `c` in a pass over an `n`-grid. */
  function CellRead(script: Script, n: nat, c: Idx): Option<Val>
    requires InGrid(n, c)
  {
    SlotAt(n, c);
    ReadFor(script, Slots(n), [], Flatten(n, c))
  }

  /** The script runs once for every cell, in x-major order, unless a run
      fails; then it has run for the cells up to and including the failing
      one and the pass is abandoned. */
  lemma ReloadVisits(script: Script, n: nat, mats: map<string, Material>)
    ensures var r, k := FetchReplicube(script, n, mats), FirstFailure(script, Slots(n));
      && (r.completed <==> k == n * n * n)
      && |r.visited| == (if k < n * n * n then k + 1 else n * n * n)
      && (forall i :: 0 <= i < |r.visited| ==> r.visited[i] == Centre(n, Order(n)[i]))
  {
    RunVisits(script, Slots(n), mats, []);
  }

  /** The material of cell `c` after a pass, with k the first failing
      iteration: a cell visited before k gets `Write` of the value read for
      it; cell k and every later one keep their material; so does every
      material that is not a cell's. */
  lemma ReloadCell(script: Script, n: nat, mats: map<string, Material>, c: Idx)
    requires InGrid(n, c) && CellName(c) in mats
    ensures var r, k, j := FetchReplicube(script, n, mats).materials, FirstFailure(script, Slots(n)), Flatten(n, c);
      && CellName(c) in r
      && j < |Slots(n)|
      && r[CellName(c)] == (if j < k then Write(mats[CellName(c)], CellRead(script, n, c))
                           else mats[CellName(c)])
  {
    SlotAt(n, c);
    SlotsDistinct(n);
    var j, k := Flatten(n, c), FirstFailure(script, Slots(n));
    if j < k {
      RunWrites(script, Slots(n), mats, [], j);
    } else {
      RunAbortKeeps(script, Slots(n), mats, [], j);
    }
  }

  lemma ReloadFrame(script: Script, n: nat, mats: map<string, Material>)
    ensures var r := FetchReplicube(script, n, mats).materials;
      && r.Keys == mats.Keys
      && (forall key :: key in mats && key !in GridNames(n) ==> r[key] == mats[key])
  {
    var sl := Slots(n);
    RunFrame(script, sl, mats, []);
    SlotsDistinct(n);
    var before := sl[..FirstFailure(script, sl)];
    assert NamesIn(before) <= NamesIn(sl) by {
      forall j | 0 <= j < |before| ensures before[j].name in NamesIn(sl) {
        assert before[j] == sl[j];
      }
    }
  }

  /** A failing run for cell f leaves a partial update: the pass is not
      complete, and f and every cell after it keep what they had before the
      pass, whatever the cells before f were given (main.go:178-180). */
  lemma ReloadAbortIsPartial(script: Script, n: nat, mats: map<string, Material>, f: Idx, c: Idx)
    requires InGrid(n, f) && script(Centre(n, f)).Failed?
    requires InGrid(n, c) && Flatten(n, f) <= Flatten(n, c) && CellName(c) in mats
    ensures !FetchReplicube(script, n, mats).completed
    ensures CellName(c) in FetchReplicube(script, n, mats).materials
    ensures FetchReplicube(script, n, mats).materials[CellName(c)] == mats[CellName(c)]
  {
    SlotAt(n, f);
    assert FirstFailure(script, Slots(n)) <= Flatten(n, f);
    ReloadCell(script, n, mats, c);
    ReloadVisits(script, n, mats);
  }

  /** A cell is skipped, keeping its material, when the value read for it is
      not a colour or its material is not a standard one (main.go:188-199). */
  lemma ReloadSkips(script: Script, n: nat, mats: map<string, Material>, c: Idx)
    requires InGrid(n, c) && CellName(c) in mats
    requires var t := CellRead(script, n, c);
      !(t.Some? && t.value.ColorVal?) || !mats[CellName(c)].Standard?
    ensures CellName(c) in FetchReplicube(script, n, mats).materials
    ensures FetchReplicube(script, n, mats).materials[CellName(c)] == mats[CellName(c)]
  {
    ReloadCell(script, n, mats, c);
  }

  /** A standard cell whose own run returns a colour last, with no run
      failing up to it, gets that colour's RGB, its alpha as opacity, and
      depth writes exactly when the alpha is not zero (main.go:200-203). */
  lemma ReloadPaints(script: Script, n: nat, mats: map<string, Material>, c: Idx, col: Color4)
    requires InGrid(n, c) && CellName(c) in mats && mats[CellName(c)].Standard?
    requires forall d :: InGrid(n, d) && Flatten(n, d) <= Flatten(n, c) ==> script(Centre(n, d)).Returned?
    requires var o := script(Centre(n, c)); o.Returned? && |o.values| > 0 && o.values[|o.values| - 1] == ColorVal(col)
    ensures var m := FetchReplicube(script, n, mats).materials;
      && CellName(c) in m
      && m[CellName(c)] == Standard(ToColor(col), col.a, col.a != 0.0)
  {
    var sl, o, j := Slots(n), Order(n), Flatten(n, c);
    SlotAt(n, c);
    forall i | 0 <= i <= j ensures script(sl[i].at).Returned? {
      assert sl[i].at == Centre(n, o[i]);
    }
    assert j < FirstFailure(script, sl);
    ReadOwnResult(script, sl, [], j);
    ReloadCell(script, n, mats, c);
  }

  /** Write is idempotent: rewriting with the same value changes nothing. */
  lemma WriteIdempotent(m: Material, t: Option<Val>)
    ensures Write(Write(m, t), t) == Write(m, t)
  {
  }

  /** Running the same `Script` for a second pass changes no material.
      This speaks of a file whose result depends only on x, y and z and
      that does not change during either pass. */
  lemma ReloadIdempotent(script: Script, n: nat, mats: map<string, Material>)
    ensures var once := FetchReplicube(script, n, mats).materials;
      FetchReplicube(script, n, once).materials == once
  {
    var sl := Slots(n);
    var once := FetchReplicube(script, n, mats).materials;
    var twice := FetchReplicube(script, n, once).materials;
    var k := FirstFailure(script, sl);
    SlotsDistinct(n);
    RunFrame(script, sl, mats, []);
    RunFrame(script, sl, once, []);
    forall key | key in once ensures twice[key] == once[key] {
      if key in NamesIn(sl[..k]) {
        var j :| 0 <= j < k && sl[..k][j].name == key;
        assert sl[j].name == key;
        RunWrites(script, sl, mats, [], j);
        RunWrites(script, sl, once, [], j);
        WriteIdempotent(mats[key], ReadFor(script, sl, [], j));
      }
    }
  }

  /** A script that returns the same colour for every cell paints every
      standard cell material with it. */
  lemma ReloadUniform(col: Color4, n: nat, mats: map<string, Material>, c: Idx)
    requires InGrid(n, c) && CellName(c) in mats && mats[CellName(c)].Standard?
    ensures var r := FetchReplicube(_ => Returned([ColorVal(col)]), n, mats);
      r.completed && CellName(c) in r.materials && r.materials[CellName(c)] == Painted(col)
  {
    var script: Script := _ => Returned([ColorVal(col)]);
    var sl := Slots(n);
    NoFailureCompletes(script, sl);
    ReloadVisits(script, n, mats);
    ReloadCell(script, n, mats, c);
    SlotAt(n, c);
    ReadOwnResult(script, sl, [], Flatten(n, c));
  }

  /** The checkerboard colouring: red where x+y+z is even, blue where odd. */
  function CheckerColour(at: Coord): Color4 {
    if (at.x + at.y + at.z) % 2 == 0 then Builtins["red"] else Builtins["blue"]
  }

  /** The checkerboard script: one value, the checkerboard colour. */
  function Checker(at: Coord): Outcome {
    Returned([ColorVal(CheckerColour(at))])
  }

  /** `b` is the neighbour of `a` one step up along some axis. */
  predicate Adjacent(a: Idx, b: Idx) {
    || b == Idx(a.x + 1, a.y, a.z)
    || b == Idx(a.x, a.y + 1, a.z)
    || b == Idx(a.x, a.y, a.z + 1)
  }

  /** Under the checkerboard script every standard cell is painted with the
      checkerboard colour of its centred coordinates. */
  lemma CheckerCell(n: nat, mats: map<string, Material>, c: Idx)
    requires InGrid(n, c) && CellName(c) in mats && mats[CellName(c)].Standard?
    ensures CellName(c) in FetchReplicube(Checker, n, mats).materials
    ensures FetchReplicube(Checker, n, mats).materials[CellName(c)] == Painted(CheckerColour(Centre(n, c)))
  {
    ReloadPaints(Checker, n, mats, c, CheckerColour(Centre(n, c)));
  }

  /** Under the checkerboard script, axis-neighbouring cells end up with
      different materials. */
  lemma CheckerboardNeighboursDiffer(n: nat, mats: map<string, Material>, a: Idx, b: Idx)
    requires InGrid(n, a) && InGrid(n, b) && Adjacent(a, b)
    requires CellName(a) in mats && mats[CellName(a)].Standard?
    requires CellName(b) in mats && mats[CellName(b)].Standard?
    ensures var r := FetchReplicube(Checker, n, mats).materials;
      CellName(a) in r && CellName(b) in r && r[CellName(a)] != r[CellName(b)]
  {
    CheckerCell(n, mats, a);
    CheckerCell(n, mats, b);
    CheckerNeighbourColours(n, a, b);
  }

  /** Axis neighbours get different checkerboard colours: their
      coordinate sums differ by one. */
  lemma CheckerNeighbourColours(n: nat, a: Idx, b: Idx)
    requires Adjacent(a, b)
    ensures Painted(CheckerColour(Centre(n, a))) != Painted(CheckerColour(Centre(n, b)))
  {
    var p, q := Centre(n, a), Centre(n, b);
    var sum := p.x + p.y + p.z;
    assert q.x + q.y + q.z == sum + 1;
    assert (sum + 1) % 2 != sum % 2;
  }
}
