/** The N×N×N grid of cells built by `createCubeOfCubes` (main.go:80-119):
    cell identities, their traversal order, their names and their base
    positions.  Positions are exact reals, so the centring facts below hold
    for exact arithmetic; the float32 rounding of the original is not modelled.
 */
module Grid {

  import opened Names
  import opened Colors

  /** A cell's integer coordinates; a cell of an `n`-grid has every
      component below `n`. */
  datatype Idx = Idx(x: nat, y: nat, z: nat)

  predicate InGrid(n: nat, c: Idx) {
    c.x < n && c.y < n && c.z < n
  }

  /** The key of cell `c` in the material and base-position tables. */
  function CellName(c: Idx): string {
    Name(c.x, c.y, c.z)
  }

  lemma CellNameInjective()
    ensures forall c, c' {:trigger CellName(c), CellName(c')} ::
      CellName(c) == CellName(c') ==> c == c'
  {
    forall c, c' | CellName(c) == CellName(c')
      ensures c == c'
    {
      NameInjective(c.x, c.y, c.z, c'.x, c'.y, c'.z);
    }
  }

  // ---------------------------------------------------------------------
  // Traversal order: x outermost, then y, then z (main.go:97-99, 169-171).

  /** Position of `c` in the x-major traversal. */
  function Flatten(n: nat, c: Idx): nat {
    (c.x * n + c.y) * n + c.z
  }

  /** The cell visited at step `k` of the x-major traversal. */
  function Unflatten(n: nat, k: nat): Idx
  {
    if n == 0 then Idx(0, 0, 0)
    else
      var q := k / n;
      Idx(q / n, q % n, k % n)
  }

  // Small facts about multiplication, stated once so that the solver is
  // never left to search for them.

  lemma MulNonneg(a: int, b: int)
    requires a >= 0 && b >= 0
    ensures a * b >= 0
  {
  }

  lemma Distrib(a: int, b: int, c: int)
    ensures (a + b) * c == a * c + b * c
  {
  }

  lemma MulMono(a: int, b: int, n: int)
    requires a <= b && n >= 0
    ensures a * n <= b * n
  {
    MulNonneg(b - a, n);
    Distrib(b - a, a, n);
  }

  lemma MulLessCancel(a: int, b: int, n: int)
    requires n >= 0 && a * n < b * n
    ensures a < b
  {
    if b <= a {
      MulMono(b, a, n);
    }
  }

  /** With `0 <= lo < n`, the pair (hi, lo) read in base `n` is ordered by `hi` first. */
  lemma PlaceValueLess(hi: int, lo: int, hi': int, lo': int, n: int)
    requires hi < hi' && 0 <= lo < n && 0 <= lo' && n >= 0
    ensures hi * n + lo < hi' * n + lo'
  {
    MulMono(hi + 1, hi', n);
    Distrib(hi, 1, n);
  }

  lemma DivModUnique(a: int, n: int, q: int, r: int)
    requires n > 0 && 0 <= r < n && a == q * n + r
    ensures a / n == q && a % n == r
  {
    var q', r' := a / n, a % n;
    assert a == q' * n + r';
    if q > q' {
      PlaceValueLess(q', r', q, r, n);
    } else if q < q' {
      PlaceValueLess(q, r, q', r', n);
    }
  }

  lemma UnflattenFlatten(n: nat, c: Idx)
    requires InGrid(n, c)
    ensures Unflatten(n, Flatten(n, c)) == c
  {
    var k := Flatten(n, c);
    DivModUnique(k, n, c.x * n + c.y, c.z);
    DivModUnique(c.x * n + c.y, n, c.x, c.y);
  }

  lemma FlattenUnflatten(n: nat, k: nat)
    requires 0 < n && k < n * n * n
    ensures InGrid(n, Unflatten(n, k))
    ensures Flatten(n, Unflatten(n, k)) == k
  {
    var q, r := k / n, k % n;
    assert k == q * n + r;
    MulLessCancel(q, n * n, n);
    var q2, r2 := q / n, q % n;
    assert q == q2 * n + r2;
    MulLessCancel(q2, n, n);
  }

  lemma FlattenBound(n: nat, c: Idx)
    requires InGrid(n, c)
    ensures Flatten(n, c) < n * n * n
  {
    PlaceValueLess(c.x, c.y, n, 0, n);
    PlaceValueLess(c.x * n + c.y, c.z, n * n, 0, n);
  }

  /** The cells of an `n`-grid in the order main.go visits them. */
  function Order(n: nat): (r: seq<Idx>)
    ensures |r| == n * n * n
    ensures forall k :: 0 <= k < |r| ==> InGrid(n, r[k]) && Flatten(n, r[k]) == k
  {
    if n == 0 then []
    else
      var r := seq(n * n * n, k requires 0 <= k < n * n * n => Unflatten(n, k));
      assert forall k :: 0 <= k < |r| ==> InGrid(n, r[k]) && Flatten(n, r[k]) == k by {
        forall k | 0 <= k < |r| ensures InGrid(n, r[k]) && Flatten(n, r[k]) == k {
          FlattenUnflatten(n, k);
        }
      }
      r
  }

  /** Every in-range triple is visited, at the step `Flatten` gives it,
      and nothing else is. */
  lemma OrderComplete(n: nat, c: Idx)
    ensures c in Order(n) <==> InGrid(n, c)
    ensures InGrid(n, c) ==> Flatten(n, c) < |Order(n)| && Order(n)[Flatten(n, c)] == c
  {
    if InGrid(n, c) {
      FlattenBound(n, c);
      UnflattenFlatten(n, c);
    }
    if InGrid(n, c) {
      assert Order(n)[Flatten(n, c)] == c;
    }
    if c in Order(n) {
      var k :| 0 <= k < |Order(n)| && Order(n)[k] == c;
    }
  }

  /** No cell is visited twice. */
  lemma OrderDistinct(n: nat, i: nat, j: nat)
    requires i < j < |Order(n)|
    ensures Order(n)[i] != Order(n)[j]
  {
  }

  /** Strict lexicographic order on triples: x first, then y, then z. */
  predicate LexLess(a: Idx, b: Idx) {
    a.x < b.x || (a.x == b.x && (a.y < b.y || (a.y == b.y && a.z < b.z)))
  }

  lemma FlattenMonotone(n: nat, a: Idx, b: Idx)
    requires InGrid(n, a) && InGrid(n, b) && LexLess(a, b)
    ensures Flatten(n, a) < Flatten(n, b)
  {
    if a.x < b.x {
      PlaceValueLess(a.x, a.y, b.x, b.y, n);
    }
    if a.x * n + a.y < b.x * n + b.y {
      PlaceValueLess(a.x * n + a.y, a.z, b.x * n + b.y, b.z, n);
    }
  }

  /** The traversal is x-major, then y, then z: an earlier step always
      visits a lexicographically smaller triple, and conversely. */
  lemma {:induction false} OrderIsLexicographic(n: nat, i: nat, j: nat)
    requires i < |Order(n)| && j < |Order(n)|
    ensures i < j <==> LexLess(Order(n)[i], Order(n)[j])
  {
    var o := Order(n);
    if LexLess(o[i], o[j]) {
      FlattenMonotone(n, o[i], o[j]);
    } else if i < j {
      if o[i] != o[j] {
        assert LexLess(o[j], o[i]);
        FlattenMonotone(n, o[j], o[i]);
      }
    }
  }

  /** All n³ cells have pairwise different names. */
  lemma {:induction false} OrderNamesDistinct(n: nat, i: nat, j: nat)
    requires i < |Order(n)| && j < |Order(n)| && i != j
    ensures CellName(Order(n)[i]) != CellName(Order(n)[j])
  {
    CellNameInjective();
  }

  // ---------------------------------------------------------------------
  // Geometry (main.go:87-88, 107-109).

  datatype Vec3 = Vec3(x: real, y: real, z: real)

  /** Half the edge length of the whole structure: n cells and n-1 gaps. */
  function Half(n: nat, size: real, gap: real): real {
    ((n as real) * (size + gap) - gap) / 2.0
  }

  /** Centre of the `i`-th cell along one axis. */
  function AxisPos(n: nat, size: real, gap: real, i: nat): real {
    (i as real) * (size + gap) - Half(n, size, gap) + size / 2.0
  }

  function BasePos(n: nat, size: real, gap: real, c: Idx): Vec3 {
    Vec3(AxisPos(n, size, gap, c.x), AxisPos(n, size, gap, c.y), AxisPos(n, size, gap, c.z))
  }

  /** Cells `i` and `n-1-i` sit symmetrically about the origin. */
  lemma {:induction false} AxisCentred(n: nat, size: real, gap: real, i: nat)
    requires i < n
    ensures AxisPos(n, size, gap, i) + AxisPos(n, size, gap, n - 1 - i) == 0.0
  {
    var j := n - 1 - i;
    assert (i as real) + (j as real) == (n as real) - 1.0;
    assert (i as real) * (size + gap) + (j as real) * (size + gap)
        == ((n as real) - 1.0) * (size + gap);
  }

  /** Neighbouring cells along an axis are exactly `size + gap` apart. */
  lemma {:induction false} AxisSpacing(n: nat, size: real, gap: real, i: nat)
    ensures AxisPos(n, size, gap, i + 1) - AxisPos(n, size, gap, i) == size + gap
  {
    assert ((i + 1) as real) * (size + gap) == (i as real) * (size + gap) + (size + gap);
  }

  /** The first cell's low face is at `-Half` and the last cell's high face
      at `+Half`: the cells fill exactly the interval [-Half, Half]. */
  lemma {:induction false} AxisFaces(n: nat, size: real, gap: real)
    requires n >= 1
    ensures AxisPos(n, size, gap, 0) - size / 2.0 == -Half(n, size, gap)
    ensures AxisPos(n, size, gap, n - 1) + size / 2.0 == Half(n, size, gap)
  {
    assert ((n - 1) as real) * (size + gap) == (n as real) * (size + gap) - (size + gap);
  }

  /** Sum of the first `k` cell centres along an axis. */
  function AxisSum(n: nat, size: real, gap: real, k: nat): real {
    if k == 0 then 0.0 else AxisSum(n, size, gap, k - 1) + AxisPos(n, size, gap, k - 1)
  }

  lemma {:induction false} AxisSumClosed(n: nat, size: real, gap: real, k: nat)
    ensures AxisSum(n, size, gap, k)
         == ((k * (k - 1)) as real) / 2.0 * (size + gap)
          + (k as real) * (size / 2.0 - Half(n, size, gap))
  {
    if k > 0 {
      var j := k - 1;
      AxisSumClosed(n, size, gap, j);
      var d, h := size + gap, Half(n, size, gap);
      assert AxisSum(n, size, gap, k) == AxisSum(n, size, gap, j) + (j as real) * d - h + size / 2.0;
      assert (k * j) as real == ((j * (j - 1)) as real) + 2.0 * (j as real) by {
        if j > 0 {
          assert k * j == j * (j - 1) + 2 * j;
        }
      }
      assert ((k * j) as real) / 2.0 * d == ((j * (j - 1)) as real) / 2.0 * d + (j as real) * d;
      assert (k as real) * (size / 2.0 - h) == (j as real) * (size / 2.0 - h) + (size / 2.0 - h);
    }
  }

  /** The cell centres along an axis average to zero, so the centroid of the
      whole grid is the origin (main.go:106). */
  lemma {:induction false} AxisCentroid(n: nat, size: real, gap: real)
    ensures AxisSum(n, size, gap, n) == 0.0
  {
    AxisSumClosed(n, size, gap, n);
    var nr := n as real;
    var d := size + gap;
    if n > 0 {
      assert (n * (n - 1)) as real == nr * nr - nr;
    }
    assert (nr * nr - nr) / 2.0 * d + nr * (size / 2.0 - (nr * d - gap) / 2.0)
        == (nr * d - nr * nr * d + nr * nr * d - nr * d) / 2.0;
  }

  /** The cell opposite `c` through the centre of the grid. */
  function Mirror(n: nat, c: Idx): (m: Idx)
    requires InGrid(n, c)
    ensures InGrid(n, m)
  {
    Idx(n - 1 - c.x, n - 1 - c.y, n - 1 - c.z)
  }

  /** The grid is point-symmetric about the origin. */
  lemma {:induction false} GridPointSymmetric(n: nat, size: real, gap: real, c: Idx)
    requires InGrid(n, c)
    ensures var p, q := BasePos(n, size, gap, c), BasePos(n, size, gap, Mirror(n, c));
      p.x + q.x == 0.0 && p.y + q.y == 0.0 && p.z + q.z == 0.0
  {
    AxisCentred(n, size, gap, c.x);
    AxisCentred(n, size, gap, c.y);
    AxisCentred(n, size, gap, c.z);
  }

  function Add(p: Vec3, q: Vec3): Vec3 {
    Vec3(p.x + q.x, p.y + q.y, p.z + q.z)
  }

  function Neg(p: Vec3): Vec3 {
    Vec3(-p.x, -p.y, -p.z)
  }

  /** Sum of the base positions of `cells`. */
  function PosSum(n: nat, size: real, gap: real, cells: seq<Idx>): Vec3 {
    if |cells| == 0 then Vec3(0.0, 0.0, 0.0)
    else Add(BasePos(n, size, gap, cells[0]), PosSum(n, size, gap, cells[1..]))
  }

  lemma {:induction false} PosSumSnoc(n: nat, size: real, gap: real, cells: seq<Idx>, c: Idx)
    ensures PosSum(n, size, gap, cells + [c]) == Add(PosSum(n, size, gap, cells), BasePos(n, size, gap, c))
  {
    if |cells| > 0 {
      assert (cells + [c])[1..] == cells[1..] + [c];
      PosSumSnoc(n, size, gap, cells[1..], c);
    }
  }

  /** When `b` read forwards holds the opposites of `a` read backwards,
      the two sums are opposite. */
  lemma {:induction false} PosSumOpposite(n: nat, size: real, gap: real, a: seq<Idx>, b: seq<Idx>)
    requires |a| == |b|
    requires forall i :: 0 <= i < |b| ==> BasePos(n, size, gap, b[i]) == Neg(BasePos(n, size, gap, a[|a| - 1 - i]))
    ensures PosSum(n, size, gap, b) == Neg(PosSum(n, size, gap, a))
  {
    if |a| > 0 {
      var a', b' := a[..|a| - 1], b[1..];
      forall i | 0 <= i < |b'|
        ensures BasePos(n, size, gap, b'[i]) == Neg(BasePos(n, size, gap, a'[|a'| - 1 - i]))
      {
        assert b'[i] == b[i + 1] && a'[|a'| - 1 - i] == a[|a| - 1 - (i + 1)];
      }
      PosSumOpposite(n, size, gap, a', b');
      assert a == a' + [a[|a| - 1]];
      PosSumSnoc(n, size, gap, a', a[|a| - 1]);
    }
  }

  /** Mirroring a cell reverses its place in the traversal. */
  lemma MirrorFlatten(n: nat, c: Idx)
    requires InGrid(n, c)
    ensures Flatten(n, Mirror(n, c)) == n * n * n - 1 - Flatten(n, c)
  {
    var x, y, z, m: int := c.x, c.y, c.z, n;
    Distrib(m - 1, -x, m);
    Distrib(m * m - m - x * m, m - 1 - y, m);
    Distrib(m * m, -m, m);
    Distrib(m * m, -(x * m), m);
    Distrib(x * m, y, m);
    assert (m - 1 - x) * m == m * m - m - x * m;
  }

  /** The traversal read backwards is the traversal of the mirrored cells. */
  lemma OrderMirror(n: nat, i: nat)
    requires i < |Order(n)|
    ensures Order(n)[|Order(n)| - 1 - i] == Mirror(n, Order(n)[i])
  {
    var m := Mirror(n, Order(n)[i]);
    MirrorFlatten(n, Order(n)[i]);
    OrderComplete(n, m);
  }

  /** The base positions of all n³ cells sum to the origin: the centroid of
      the structure is (0, 0, 0), as main.go:106 intends. */
  lemma GridCentroid(n: nat, size: real, gap: real)
    ensures PosSum(n, size, gap, Order(n)) == Vec3(0.0, 0.0, 0.0)
  {
    var o := Order(n);
    forall i | 0 <= i < |o|
      ensures BasePos(n, size, gap, o[i]) == Neg(BasePos(n, size, gap, o[|o| - 1 - i]))
    {
      OrderMirror(n, i);
      GridPointSymmetric(n, size, gap, o[i]);
    }
    PosSumOpposite(n, size, gap, o, o);
  }

  /** The configuration main.go uses (main.go:123, 307): cell (0,0,0) sits at
      (-0.42, -0.42, -0.42). */
  lemma DefaultCorner()
    ensures BasePos(5, 0.2, 0.01, Idx(0, 0, 0)) == Vec3(-0.42, -0.42, -0.42)
    ensures Half(5, 0.2, 0.01) == 0.52
  {
  }

  // ---------------------------------------------------------------------
  // Construction.

  /** A child of the "cubeOfCubes" node: a cube mesh with its name and
      position (main.go:101-114). */
  datatype Mesh = Mesh(name: string, position: Vec3)

  function MeshOf(n: nat, size: real, gap: real, c: Idx): Mesh {
    Mesh(CellName(c), BasePos(n, size, gap, c))
  }

  /** The names of all cells of an `n`-grid. */
  function GridNames(n: nat): set<string> {
    set c | c in Order(n) :: CellName(c)
  }

  const Gray: Material := NewStandard(LightGray)

  /** The base position recorded under a cell name; the name alone
      determines it, because a name determines its triple. */
  function PosOfName(n: nat, size: real, gap: real, name: string): Vec3 {
    match ParseName(name)
    case Some((x, y, z)) => BasePos(n, size, gap, Idx(x, y, z))
    case None => Vec3(0.0, 0.0, 0.0)
  }

  lemma PosOfCellName(n: nat, size: real, gap: real, c: Idx)
    ensures PosOfName(n, size, gap, CellName(c)) == BasePos(n, size, gap, c)
  {
    NameRoundTrip(c.x, c.y, c.z);
  }

  /** A table holding `f(key)` under every key of `keys`. */
  function Table<V>(keys: set<string>, f: string -> V): (t: map<string, V>)
    ensures t.Keys == keys
    ensures forall key :: key in keys ==> t[key] == f(key)
  {
    map key | key in keys :: f(key)
  }

  lemma TableAdd<V>(base: map<string, V>, keys: set<string>, f: string -> V, key: string)
    ensures (base + Table(keys, f))[key := f(key)] == base + Table(keys + {key}, f)
  {
  }

  function NamesOf(children: seq<Mesh>): set<string> {
    set k | 0 <= k < |children| :: children[k].name
  }

  lemma NamesOfAppend(children: seq<Mesh>, m: Mesh)
    ensures NamesOf(children + [m]) == NamesOf(children) + {m.name}
  {
    var c2 := children + [m];
    assert forall k :: 0 <= k < |children| ==> c2[k] == children[k];
    assert c2[|children|] == m;
  }

  lemma AppendAgrees<T>(s: seq<T>, x: T, f: nat -> T)
    requires forall k :: 0 <= k < |s| ==> s[k] == f(k)
    requires f(|s|) == x
    ensures forall k :: 0 <= k < |s| + 1 ==> (s + [x])[k] == f(k)
  {
  }

  /** What the construction loop has established after building `children`:
      they are the first cells of the traversal, and the two tables are the
      original ones extended by a LightGray material and the base position
      under each of their names. */
  ghost predicate Built(n: nat, size: real, gap: real,
                        materials: map<string, Material>, bases: map<string, Vec3>,
                        children: seq<Mesh>,
                        materials': map<string, Material>, bases': map<string, Vec3>)
  {
    && (forall k :: 0 <= k < |children| ==> children[k] == MeshOf(n, size, gap, Unflatten(n, k)))
    && materials' == materials + Table(NamesOf(children), _ => Gray)
    && bases' == bases + Table(NamesOf(children), name => PosOfName(n, size, gap, name))
  }

  lemma BuiltStep(n: nat, size: real, gap: real,
                  materials: map<string, Material>, bases: map<string, Vec3>,
                  children: seq<Mesh>,
                  materials': map<string, Material>, bases': map<string, Vec3>, c: Idx)
    requires Built(n, size, gap, materials, bases, children, materials', bases')
    requires Unflatten(n, |children|) == c
    ensures var m := MeshOf(n, size, gap, c);
      Built(n, size, gap, materials, bases, children + [m],
            materials'[m.name := Gray], bases'[m.name := m.position])
  {
    var m := MeshOf(n, size, gap, c);
    AppendAgrees(children, m, k => MeshOf(n, size, gap, Unflatten(n, k)));
    NamesOfAppend(children, m);
    TableAdd(materials, NamesOf(children), _ => Gray, m.name);
    PosOfCellName(n, size, gap, c);
    TableAdd(bases, NamesOf(children), name => PosOfName(n, size, gap, name), m.name);
  }

  lemma ChildrenNames(n: nat, size: real, gap: real, children: seq<Mesh>)
    requires |children| == n * n * n
    requires forall k :: 0 <= k < |children| ==> children[k] == MeshOf(n, size, gap, Order(n)[k])
    ensures NamesOf(children) == GridNames(n)
  {
    var o := Order(n);
    forall name | name in NamesOf(children) ensures name in GridNames(n) {
      var k :| 0 <= k < |children| && children[k].name == name;
      assert o[k] in o;
    }
    forall name | name in GridNames(n) ensures name in NamesOf(children) {
      var c :| c in o && CellName(c) == name;
      var k :| 0 <= k < |o| && o[k] == c;
      assert children[k].name == name;
    }
  }

  lemma BuiltComplete(n: nat, size: real, gap: real,
                      materials: map<string, Material>, bases: map<string, Vec3>,
                      children: seq<Mesh>,
                      materials': map<string, Material>, bases': map<string, Vec3>)
    requires Built(n, size, gap, materials, bases, children, materials', bases')
    requires |children| == n * n * n
    ensures forall k :: 0 <= k < |children| ==> children[k] == MeshOf(n, size, gap, Order(n)[k])
    ensures materials' == materials + Table(GridNames(n), _ => Gray)
    ensures bases' == bases + Table(GridNames(n), name => PosOfName(n, size, gap, name))
  {
    var o := Order(n);
    assert forall k :: 0 <= k < |children| ==> children[k] == MeshOf(n, size, gap, o[k]);
    ChildrenNames(n, size, gap, children);
  }

  /** Looking a cell up in the tables the construction leaves behind. */
  lemma LookupBuilt(n: nat, size: real, gap: real,
                    materials: map<string, Material>, bases: map<string, Vec3>,
                    c: Idx)
    requires InGrid(n, c)
    ensures CellName(c) in GridNames(n)
    ensures (materials + Table(GridNames(n), _ => Gray))[CellName(c)] == Gray
    ensures (bases + Table(GridNames(n), name => PosOfName(n, size, gap, name)))[CellName(c)]
         == BasePos(n, size, gap, c)
  {
    OrderComplete(n, c);
    PosOfCellName(n, size, gap, c);
  }

  /** `createCubeOfCubes`: builds the n³ meshes in x-major order, registers a
      fresh LightGray material for each under its name, and records each
      base position under its name.  Entries of the two tables whose keys
      are not cell names are left alone. */
  method CreateCubeOfCubes(n: nat, size: real, gap: real,
                           materials: map<string, Material>, bases: map<string, Vec3>)
    returns (children: seq<Mesh>, materials': map<string, Material>, bases': map<string, Vec3>)
    ensures |children| == n * n * n
    ensures forall k :: 0 <= k < |children| ==> children[k] == MeshOf(n, size, gap, Order(n)[k])
    ensures materials'.Keys == materials.Keys + GridNames(n)
    ensures bases'.Keys == bases.Keys + GridNames(n)
    ensures forall c :: InGrid(n, c) ==> CellName(c) in materials' && materials'[CellName(c)] == Gray
    ensures forall c :: InGrid(n, c) ==> CellName(c) in bases' && bases'[CellName(c)] == BasePos(n, size, gap, c)
    ensures forall key :: key in materials && key !in GridNames(n) ==> materials'[key] == materials[key]
    ensures forall key :: key in bases && key !in GridNames(n) ==> bases'[key] == bases[key]
  {
    children, materials', bases' := [], materials, bases;
    for x := 0 to n
      invariant |children| == x * n * n
      invariant Built(n, size, gap, materials, bases, children, materials', bases')
    {
      for y := 0 to n
        invariant |children| == (x * n + y) * n
        invariant Built(n, size, gap, materials, bases, children, materials', bases')
      {
        for z := 0 to n
          invariant |children| == (x * n + y) * n + z
          invariant Built(n, size, gap, materials, bases, children, materials', bases')
        {
          var c := Idx(x, y, z);
          UnflattenFlatten(n, c);
          BuiltStep(n, size, gap, materials, bases, children, materials', bases', c);
          var mesh := MeshOf(n, size, gap, c);
          materials' := materials'[mesh.name := Gray];
          bases' := bases'[mesh.name := mesh.position];
          children := children + [mesh];
        }
        Distrib(x * n + y, 1, n);
      }
      Distrib(x, 1, n);
    }
    BuiltComplete(n, size, gap, materials, bases, children, materials', bases');
    forall c | InGrid(n, c)
      ensures CellName(c) in materials' && materials'[CellName(c)] == Gray
      ensures CellName(c) in bases' && bases'[CellName(c)] == BasePos(n, size, gap, c)
    {
      LookupBuilt(n, size, gap, materials, bases, c);
    }
  }
}
