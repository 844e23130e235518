/** The layout of an agent's observation: how it is packed, and how slices read it back. */
module Observations {

  const PRESERVED_DIM: nat := 13
  const OBSTACLE_DIM: nat := 3
  const INDEX_POSITION: nat := 3

  /** The dimensions that differ between the teams. */
  datatype Layout = Layout(privateDim: nat, opponentDim: nat, teammateDim: nat)

  const CAMERA_LAYOUT: Layout := Layout(9, 4, 6)
  const TARGET_LAYOUT: Layout := Layout(14, 6, 4)

  /** What one agent observes: the states of all others and whether it sees them. */
  datatype View = View(
    preserved: seq<real>,
    self: seq<real>,
    opponents: seq<seq<real>>, opponentMask: seq<bool>,
    obstacles: seq<seq<real>>, obstacleMask: seq<bool>,
    teammates: seq<seq<real>>, teammateMask: seq<bool>)

  predicate Shaped(states: seq<seq<real>>, mask: seq<bool>, dim: nat) {
    |mask| == |states| && forall i :: 0 <= i < |states| ==> |states[i]| == dim
  }

  predicate ValidView(v: View, layout: Layout) {
    && |v.preserved| == PRESERVED_DIM && |v.self| == layout.privateDim
    && Shaped(v.opponents, v.opponentMask, layout.opponentDim)
    && Shaped(v.obstacles, v.obstacleMask, OBSTACLE_DIM)
    && Shaped(v.teammates, v.teammateMask, layout.teammateDim)
  }

  // ---------------------------------------------------------------------- packing

  function Zeros(n: nat): (z: seq<real>)
    ensures |z| == n && forall i :: 0 <= i < n ==> z[i] == 0.0
  {
    seq(n, _ => 0.0)
  }

  function Flag(seen: bool): real { if seen then 1.0 else 0.0 }

  /** One entity: its state and a flag of one, or all zeros if it is not seen. */
  function Entry(state: seq<real>, seen: bool): (e: seq<real>)
    ensures |e| == |state| + 1 && e[|state|] == Flag(seen)
    ensures seen ==> e[..|state|] == state
  {
    if seen then state + [1.0] else Zeros(|state| + 1)
  }

  function Block(states: seq<seq<real>>, mask: seq<bool>): seq<real>
    requires |mask| == |states|
  {
    if states == [] then []
    else Block(states[..|states| - 1], mask[..|mask| - 1]) + Entry(states[|states| - 1], mask[|mask| - 1])
  }

  /** The observation vector; the agent's index is written over one preserved entry. */
  function Pack(v: View, layout: Layout, index: nat): seq<real>
    requires ValidView(v, layout)
  {
    v.preserved[INDEX_POSITION := index as real] + v.self
    + Block(v.opponents, v.opponentMask) + Block(v.obstacles, v.obstacleMask) + Block(v.teammates, v.teammateMask)
  }

  // ----------------------------------------------------------------------- slices

  function CumSum(lengths: seq<nat>): seq<nat> {
    if lengths == [] then []
    else
      var before := CumSum(lengths[..|lengths| - 1]);
      before + [(if before == [] then 0 else before[|before| - 1]) + lengths[|lengths| - 1]]
  }

  /** Where the parts of an observation start and the last one ends. */
  function Indices(layout: Layout, opponents: nat, obstacles: nat, teammates: nat): seq<nat> {
    CumSum([0, PRESERVED_DIM, layout.privateDim, opponents * (layout.opponentDim + 1),
            obstacles * (OBSTACLE_DIM + 1), teammates * (layout.teammateDim + 1)])
  }

  datatype Slice = Slice(start: nat, stop: nat, step: nat)

  datatype Slices = Slices(
    preserved: Slice, self: Slice,
    opponents: Slice, opponentMask: Slice,
    obstacles: Slice, obstacleMask: Slice,
    teammates: Slice, teammateMask: Slice)

  lemma {:induction false} CumSumNext(lengths: seq<nat>, n: nat)
    ensures CumSum(lengths + [n]) == CumSum(lengths) + [(if CumSum(lengths) == [] then 0 else CumSum(lengths)[|CumSum(lengths)| - 1]) + n]
  {
    var more := lengths + [n];
    assert more[..|more| - 1] == lengths && more[|more| - 1] == n;
  }

  lemma CumSumNone()
    ensures CumSum([]) == []
  {
  }

  lemma IndicesAre(layout: Layout, opponents: nat, obstacles: nat, teammates: nat)
    ensures var a := PRESERVED_DIM; var b := a + layout.privateDim; var c := b + opponents * (layout.opponentDim + 1);
      var d := c + obstacles * (OBSTACLE_DIM + 1);
      Indices(layout, opponents, obstacles, teammates) == [0, a, b, c, d, d + teammates * (layout.teammateDim + 1)]
  {
    hide CumSum;
    SixSums(PRESERVED_DIM, layout.privateDim, opponents * (layout.opponentDim + 1),
      obstacles * (OBSTACLE_DIM + 1), teammates * (layout.teammateDim + 1));
  }

  lemma SixSums(p: nat, q: nat, r: nat, s: nat, t: nat)
    ensures CumSum([0, p, q, r, s, t]) == [0, p, p + q, p + q + r, p + q + r + s, p + q + r + s + t]
  {
    hide CumSum;
    CumSumNone();
    CumSumNext([], 0);
    CumSumNext([0], p);
    CumSumNext([0, p], q);
    CumSumNext([0, p, q], r);
    CumSumNext([0, p, q, r], s);
    CumSumNext([0, p, q, r, s], t);
    assert [] + [0] == [0] && [0] + [p] == [0, p] && [0, p] + [q] == [0, p, q] && [0, p, q] + [r] == [0, p, q, r];
    assert [0, p, q, r] + [s] == [0, p, q, r, s] && [0, p, q, r, s] + [t] == [0, p, q, r, s, t];
  }

  function SlicesOf(layout: Layout, opponents: nat, obstacles: nat, teammates: nat): Slices {
    IndicesAre(layout, opponents, obstacles, teammates);
    var i := Indices(layout, opponents, obstacles, teammates);
    Slices(
      Slice(i[0], i[1], 1), Slice(i[1], i[2], 1),
      Slice(i[2], i[3], 1), Slice(i[2] + layout.opponentDim, i[3], layout.opponentDim + 1),
      Slice(i[3], i[4], 1), Slice(i[3] + OBSTACLE_DIM, i[4], OBSTACLE_DIM + 1),
      Slice(i[4], i[5], 1), Slice(i[4] + layout.teammateDim, i[5], layout.teammateDim + 1))
  }

  /** The entries from start, every step-th, before stop and the end of the vector. */
  function Take(s: seq<real>, start: nat, stop: nat, step: nat): seq<real>
    requires 0 < step
    decreases stop - start
  {
    if start >= stop || start >= |s| then [] else [s[start]] + Take(s, start + step, stop, step)
  }

  function Apply(s: seq<real>, slice: Slice): seq<real>
    requires 0 < slice.step
  {
    Take(s, slice.start, slice.stop, slice.step)
  }

  // ------------------------------------------------------------------ reading back

  lemma {:induction false} BlockLength(states: seq<seq<real>>, mask: seq<bool>, dim: nat)
    requires Shaped(states, mask, dim)
    ensures |Block(states, mask)| == |states| * (dim + 1)
  {
    if states != [] {
      BlockLength(states[..|states| - 1], mask[..|mask| - 1], dim);
      assert |states| * (dim + 1) == (|states| - 1) * (dim + 1) + (dim + 1);
    }
  }

  lemma {:induction false} TakeAll(s: seq<real>, start: nat, stop: nat)
    requires start <= stop <= |s|
    ensures Take(s, start, stop, 1) == s[start..stop]
    decreases stop - start
  {
    if start < stop {
      TakeAll(s, start + 1, stop);
    }
  }

  lemma BlockLast(states: seq<seq<real>>, mask: seq<bool>)
    requires |mask| == |states| > 0
    ensures var n := |states| - 1; Block(states, mask) == Block(states[..n], mask[..n]) + Entry(states[n], mask[n])
  {
  }

  lemma SliceOfPrefix(a: seq<real>, b: seq<real>, low: nat, high: nat)
    requires low <= high <= |a|
    ensures (a + b)[low..high] == a[low..high]
  {
  }

  lemma SliceOfEnd(a: seq<real>, b: seq<real>)
    ensures (a + b)[|a|..|a| + |b|] == b
  {
  }

  lemma {:induction false} BlockEntry(states: seq<seq<real>>, mask: seq<bool>, dim: nat, i: nat)
    requires Shaped(states, mask, dim) && i < |states|
    ensures 0 <= i * (dim + 1) <= (i + 1) * (dim + 1) <= |Block(states, mask)|
    ensures Block(states, mask)[i * (dim + 1)..(i + 1) * (dim + 1)] == Entry(states[i], mask[i])
  {
    hide Block, Entry;
    var n := |states| - 1;
    BlockLength(states, mask, dim);
    BlockLength(states[..n], mask[..n], dim);
    Ordered(i, n, dim + 1);
    BlockLast(states, mask);
    var before, last := Block(states[..n], mask[..n]), Entry(states[n], mask[n]);
    if i < n {
      BlockEntry(states[..n], mask[..n], dim, i);
      SliceOfPrefix(before, last, i * (dim + 1), (i + 1) * (dim + 1));
    } else {
      SliceOfEnd(before, last);
    }
  }

  /** What a vector shows of one entity: its state and a one if it is seen, else only zeros. */
  predicate Shows(stretch: seq<real>, state: seq<real>, seen: bool) {
    && |stretch| == |state| + 1
    && if seen then stretch == state + [1.0] else forall k :: 0 <= k < |stretch| ==> stretch[k] == 0.0
  }

  /** Each entity stands at its own stretch of a block, and only if it is seen. */
  lemma BlockAt(states: seq<seq<real>>, mask: seq<bool>, dim: nat, i: nat)
    requires Shaped(states, mask, dim) && i < |states|
    ensures 0 <= i * (dim + 1) <= (i + 1) * (dim + 1) <= |Block(states, mask)|
    ensures Shows(Block(states, mask)[i * (dim + 1)..(i + 1) * (dim + 1)], states[i], mask[i])
  {
    hide Block;
    BlockEntry(states, mask, dim, i);
  }

  lemma TimesOrder(a: nat, b: nat, k: nat)
    requires a <= b
    ensures 0 <= a * k <= b * k
  {
    assert b * k == a * k + (b - a) * k;
    assert 0 <= (b - a) * k && 0 <= a * k;
  }

  lemma Ordered(i: nat, n: nat, k: nat)
    requires i <= n
    ensures 0 <= i * k <= (i + 1) * k == i * k + k
    ensures i * k <= n * k
    ensures i < n ==> (i + 1) * k <= n * k
  {
    TimesOrder(i, n, k);
    TimesOrder(i, i + 1, k);
    if i < n {
      TimesOrder(i + 1, n, k);
    }
  }

  function Flags(mask: seq<bool>): seq<real> {
    seq(|mask|, i requires 0 <= i < |mask| => Flag(mask[i]))
  }

  lemma TakeNext(s: seq<real>, start: nat, stop: nat, step: nat)
    requires 0 < step
    ensures start < stop && start < |s| ==> Take(s, start, stop, step) == [s[start]] + Take(s, start + step, stop, step)
    ensures stop <= start ==> Take(s, start, stop, step) == []
  {
  }

  lemma FlagsNext(mask: seq<bool>, i: nat)
    requires i <= |mask|
    ensures i < |mask| ==> Flags(mask)[i..] == [Flag(mask[i])] + Flags(mask)[i + 1..]
    ensures i == |mask| ==> Flags(mask)[i..] == []
  {
  }

  lemma EntryInside(s: seq<real>, start: nat, block: seq<real>, p: nat)
    requires start + |block| <= |s| && s[start..start + |block|] == block && p < |block|
    ensures s[start + p] == block[p]
  {
    assert s[start..start + |block|][p] == s[start + p];
  }

  /** Reading every last entry of a block, from entity i on, gives the mask from i on. */
  lemma {:induction false} StridedMask(s: seq<real>, start: nat, states: seq<seq<real>>, mask: seq<bool>, dim: nat, i: nat)
    requires Shaped(states, mask, dim) && i <= |states|
    requires start + |Block(states, mask)| <= |s|
    requires s[start..start + |Block(states, mask)|] == Block(states, mask)
    ensures Take(s, start + i * (dim + 1) + dim, start + |states| * (dim + 1), dim + 1) == Flags(mask)[i..]
    decreases |states| - i
  {
    hide Block, Entry, Take, Flags;
    BlockLength(states, mask, dim);
    Ordered(i, |states|, dim + 1);
    FlagsNext(mask, i);
    var low := i * (dim + 1);
    TakeNext(s, start + low + dim, start + |states| * (dim + 1), dim + 1);
    if i < |states| {
      StridedMask(s, start, states, mask, dim, i + 1);
      BlockEntry(states, mask, dim, i);
      FlagAt(Block(states, mask), low, (i + 1) * (dim + 1), states[i], mask[i]);
      EntryInside(s, start, Block(states, mask), low + dim);
    }
  }

  lemma FlagAt(block: seq<real>, low: nat, high: nat, state: seq<real>, seen: bool)
    requires low <= high <= |block| && block[low..high] == Entry(state, seen)
    ensures low + |state| < high && block[low + |state|] == Flag(seen)
  {
    assert |block[low..high]| == |state| + 1;
    assert block[low..high][|state|] == block[low + |state|];
  }

  /** The parts of a vector end where the slices say. */
  lemma PackIndices(v: View, layout: Layout, index: nat)
    requires ValidView(v, layout)
    ensures var i := Indices(layout, |v.opponents|, |v.obstacles|, |v.teammates|);
      var s := Pack(v, layout, index);
      && |i| == 6 && i[0] == 0 && i[0] <= i[1] <= i[2] <= i[3] <= i[4] <= i[5] == |s|
      && s[i[0]..i[1]] == v.preserved[INDEX_POSITION := index as real]
      && s[i[1]..i[2]] == v.self
      && s[i[2]..i[3]] == Block(v.opponents, v.opponentMask)
      && s[i[3]..i[4]] == Block(v.obstacles, v.obstacleMask)
      && s[i[4]..i[5]] == Block(v.teammates, v.teammateMask)
  {
    hide CumSum, Indices, Block, Entry;
    IndicesAre(layout, |v.opponents|, |v.obstacles|, |v.teammates|);
    BlockLength(v.opponents, v.opponentMask, layout.opponentDim);
    BlockLength(v.obstacles, v.obstacleMask, OBSTACLE_DIM);
    BlockLength(v.teammates, v.teammateMask, layout.teammateDim);
    FiveParts(v.preserved[INDEX_POSITION := index as real], v.self, Block(v.opponents, v.opponentMask),
      Block(v.obstacles, v.obstacleMask), Block(v.teammates, v.teammateMask));
  }

  lemma FiveParts(a: seq<real>, b: seq<real>, c: seq<real>, d: seq<real>, e: seq<real>)
    ensures var s := a + b + c + d + e;
      && s[0..|a|] == a
      && s[|a|..|a| + |b|] == b
      && s[|a| + |b|..|a| + |b| + |c|] == c
      && s[|a| + |b| + |c|..|a| + |b| + |c| + |d|] == d
      && s[|a| + |b| + |c| + |d|..|a| + |b| + |c| + |d| + |e|] == e
  {
  }

  /** The slices tile the vector exactly and read back every part: the plain ones the parts
      themselves, the strided ones the masks. */
  lemma SlicesReadBack(v: View, layout: Layout, index: nat)
    requires ValidView(v, layout)
    ensures var sl := SlicesOf(layout, |v.opponents|, |v.obstacles|, |v.teammates|);
      var s := Pack(v, layout, index);
      && sl.preserved.start == 0 && sl.preserved.stop == sl.self.start && sl.self.stop == sl.opponents.start
      && sl.opponents.stop == sl.obstacles.start && sl.obstacles.stop == sl.teammates.start && sl.teammates.stop == |s|
      && Apply(s, sl.preserved) == v.preserved[INDEX_POSITION := index as real]
      && Apply(s, sl.self) == v.self
      && Apply(s, sl.opponents) == Block(v.opponents, v.opponentMask)
      && Apply(s, sl.obstacles) == Block(v.obstacles, v.obstacleMask)
      && Apply(s, sl.teammates) == Block(v.teammates, v.teammateMask)
      && Apply(s, sl.opponentMask) == Flags(v.opponentMask)
      && Apply(s, sl.obstacleMask) == Flags(v.obstacleMask)
      && Apply(s, sl.teammateMask) == Flags(v.teammateMask)
  {
    hide CumSum, Indices, Block, Entry, Pack, Take;
    var i, s := Indices(layout, |v.opponents|, |v.obstacles|, |v.teammates|), Pack(v, layout, index);
    PackIndices(v, layout, index);
    IndicesAre(layout, |v.opponents|, |v.obstacles|, |v.teammates|);
    TakeAll(s, i[0], i[1]);
    TakeAll(s, i[1], i[2]);
    TakeAll(s, i[2], i[3]);
    TakeAll(s, i[3], i[4]);
    TakeAll(s, i[4], i[5]);
    StridedMask(s, i[2], v.opponents, v.opponentMask, layout.opponentDim, 0);
    StridedMask(s, i[3], v.obstacles, v.obstacleMask, OBSTACLE_DIM, 0);
    StridedMask(s, i[4], v.teammates, v.teammateMask, layout.teammateDim, 0);
  }

  /** The slice of the opponents' mask does not depend on the number of obstacles or of
      teammates, so a reader may leave them out. */
  lemma OpponentMaskIgnoresTheRest(layout: Layout, opponents: nat, obstacles: nat, teammates: nat, obstacles': nat, teammates': nat)
    ensures SlicesOf(layout, opponents, obstacles, teammates).opponentMask
         == SlicesOf(layout, opponents, obstacles', teammates').opponentMask
  {
    hide Indices;
    IndicesAre(layout, opponents, obstacles, teammates);
    IndicesAre(layout, opponents, obstacles', teammates');
  }

  // ------------------------------------------------------------------- both teams

  /** All entities and who sees whom. */
  datatype Everyone = Everyone(
    preserved: seq<real>,
    cameras: seq<seq<real>>, cameraSelves: seq<seq<real>>,
    targets: seq<seq<real>>, targetSelves: seq<seq<real>>,
    obstacles: seq<seq<real>>,
    cameraSeesTarget: seq<seq<bool>>, cameraSeesObstacle: seq<seq<bool>>, cameraSeesCamera: seq<seq<bool>>,
    targetSeesCamera: seq<seq<bool>>, targetSeesObstacle: seq<seq<bool>>, targetSeesTarget: seq<seq<bool>>)

  predicate States(states: seq<seq<real>>, dim: nat) {
    forall i :: 0 <= i < |states| ==> |states[i]| == dim
  }

  predicate Matrix(mask: seq<seq<bool>>, rows: nat, columns: nat) {
    |mask| == rows && forall i :: 0 <= i < rows ==> |mask[i]| == columns
  }

  predicate ValidEveryone(e: Everyone) {
    && |e.preserved| == PRESERVED_DIM && |e.cameraSelves| == |e.cameras| && |e.targetSelves| == |e.targets|
    && States(e.cameras, CAMERA_LAYOUT.teammateDim) && States(e.cameraSelves, CAMERA_LAYOUT.privateDim)
    && States(e.targets, TARGET_LAYOUT.teammateDim) && States(e.targetSelves, TARGET_LAYOUT.privateDim)
    && States(e.obstacles, OBSTACLE_DIM)
    && Matrix(e.cameraSeesTarget, |e.cameras|, |e.targets|) && Matrix(e.cameraSeesObstacle, |e.cameras|, |e.obstacles|)
    && Matrix(e.cameraSeesCamera, |e.cameras|, |e.cameras|)
    && Matrix(e.targetSeesCamera, |e.targets|, |e.cameras|) && Matrix(e.targetSeesObstacle, |e.targets|, |e.obstacles|)
    && Matrix(e.targetSeesTarget, |e.targets|, |e.targets|)
  }

  function CameraView(e: Everyone, c: nat): (v: View)
    requires ValidEveryone(e) && c < |e.cameras|
    ensures ValidView(v, CAMERA_LAYOUT)
  {
    View(e.preserved, e.cameraSelves[c], e.targets, e.cameraSeesTarget[c], e.obstacles, e.cameraSeesObstacle[c], e.cameras, e.cameraSeesCamera[c])
  }

  function TargetView(e: Everyone, t: nat): (v: View)
    requires ValidEveryone(e) && t < |e.targets|
    ensures ValidView(v, TARGET_LAYOUT)
  {
    View(e.preserved, e.targetSelves[t], e.cameras, e.targetSeesCamera[t], e.obstacles, e.targetSeesObstacle[t], e.targets, e.targetSeesTarget[t])
  }

  /** The observations of both teams. */
  method JointObservation(e: Everyone) returns (cameras: seq<seq<real>>, targets: seq<seq<real>>)
    requires ValidEveryone(e)
    ensures |cameras| == |e.cameras| && forall c :: 0 <= c < |cameras| ==> cameras[c] == Pack(CameraView(e, c), CAMERA_LAYOUT, c)
    ensures |targets| == |e.targets| && forall t :: 0 <= t < |targets| ==> targets[t] == Pack(TargetView(e, t), TARGET_LAYOUT, t)
  {
    hide Pack, ValidEveryone, ValidView;
    cameras, targets := [], [];
    for c := 0 to |e.cameras|
      invariant |cameras| == c
      invariant forall k :: 0 <= k < c ==> cameras[k] == Pack(CameraView(e, k), CAMERA_LAYOUT, k)
    {
      cameras := cameras + [Pack(CameraView(e, c), CAMERA_LAYOUT, c)];
    }
    for t := 0 to |e.targets|
      invariant |targets| == t
      invariant forall k :: 0 <= k < t ==> targets[k] == Pack(TargetView(e, k), TARGET_LAYOUT, k)
    {
      targets := targets + [Pack(TargetView(e, t), TARGET_LAYOUT, t)];
    }
  }

  /** From the observations of both teams, by the slices of each team alone, the rows of all
      six matrices of who sees whom are read back, and so is every agent's index. */
  lemma ViewMasksReadBack(e: Everyone, c: nat, t: nat)
    requires ValidEveryone(e) && c < |e.cameras| && t < |e.targets|
    ensures var sl := SlicesOf(CAMERA_LAYOUT, |e.targets|, |e.obstacles|, |e.cameras|);
      var s := Pack(CameraView(e, c), CAMERA_LAYOUT, c);
      && Apply(s, sl.opponentMask) == Flags(e.cameraSeesTarget[c])
      && Apply(s, sl.obstacleMask) == Flags(e.cameraSeesObstacle[c])
      && Apply(s, sl.teammateMask) == Flags(e.cameraSeesCamera[c])
      && Apply(s, sl.preserved) == e.preserved[INDEX_POSITION := c as real]
    ensures var sl := SlicesOf(TARGET_LAYOUT, |e.cameras|, |e.obstacles|, |e.targets|);
      var s := Pack(TargetView(e, t), TARGET_LAYOUT, t);
      && Apply(s, sl.opponentMask) == Flags(e.targetSeesCamera[t])
      && Apply(s, sl.obstacleMask) == Flags(e.targetSeesObstacle[t])
      && Apply(s, sl.teammateMask) == Flags(e.targetSeesTarget[t])
      && Apply(s, sl.preserved) == e.preserved[INDEX_POSITION := t as real]
  {
    hide Pack, Apply, Flags, Block;
    SlicesReadBack(CameraView(e, c), CAMERA_LAYOUT, c);
    SlicesReadBack(TargetView(e, t), TARGET_LAYOUT, t);
  }

  // ---------------------------------------------------------- what an agent can see

  /** A part of a vector shows all entities of a kind in order, each as far as it is seen. */
  ghost predicate ShowsAll(part: seq<real>, states: seq<seq<real>>, mask: seq<bool>, dim: nat)
    requires |mask| == |states|
  {
    && |part| == |states| * (dim + 1)
    && forall i :: 0 <= i < |states| ==> ShowsAt(part, states[i], mask[i], dim, i)
  }

  predicate ShowsAt(part: seq<real>, state: seq<real>, seen: bool, dim: nat, i: nat) {
    0 <= i * (dim + 1) <= (i + 1) * (dim + 1) <= |part| && Shows(part[i * (dim + 1)..(i + 1) * (dim + 1)], state, seen)
  }

  lemma BlockShows(states: seq<seq<real>>, mask: seq<bool>, dim: nat)
    requires Shaped(states, mask, dim)
    ensures ShowsAll(Block(states, mask), states, mask, dim)
  {
    hide Block, Shows;
    BlockLength(states, mask, dim);
    forall i | 0 <= i < |states|
      ensures ShowsAt(Block(states, mask), states[i], mask[i], dim, i)
    {
      BlockAt(states, mask, dim, i);
    }
  }

  /** By its own slices an agent reads its own state and all that it sees, and nothing of what
      it does not see. */
  lemma ViewReadsBack(v: View, layout: Layout, index: nat)
    requires ValidView(v, layout)
    ensures var sl := SlicesOf(layout, |v.opponents|, |v.obstacles|, |v.teammates|);
      var s := Pack(v, layout, index);
      && Apply(s, sl.self) == v.self
      && ShowsAll(Apply(s, sl.opponents), v.opponents, v.opponentMask, layout.opponentDim)
      && ShowsAll(Apply(s, sl.obstacles), v.obstacles, v.obstacleMask, OBSTACLE_DIM)
      && ShowsAll(Apply(s, sl.teammates), v.teammates, v.teammateMask, layout.teammateDim)
  {
    hide Pack, Block, ShowsAll, Apply;
    SlicesReadBack(v, layout, index);
    BlockShows(v.opponents, v.opponentMask, layout.opponentDim);
    BlockShows(v.obstacles, v.obstacleMask, OBSTACLE_DIM);
    BlockShows(v.teammates, v.teammateMask, layout.teammateDim);
  }

  /** What each agent of both teams reads of itself and of all others. */
  lemma StatesReadBack(e: Everyone, c: nat, t: nat)
    requires ValidEveryone(e) && c < |e.cameras| && t < |e.targets|
    ensures var sl := SlicesOf(CAMERA_LAYOUT, |e.targets|, |e.obstacles|, |e.cameras|);
      var s := Pack(CameraView(e, c), CAMERA_LAYOUT, c);
      && Apply(s, sl.self) == e.cameraSelves[c]
      && ShowsAll(Apply(s, sl.opponents), e.targets, e.cameraSeesTarget[c], CAMERA_LAYOUT.opponentDim)
      && ShowsAll(Apply(s, sl.obstacles), e.obstacles, e.cameraSeesObstacle[c], OBSTACLE_DIM)
      && ShowsAll(Apply(s, sl.teammates), e.cameras, e.cameraSeesCamera[c], CAMERA_LAYOUT.teammateDim)
    ensures var sl := SlicesOf(TARGET_LAYOUT, |e.cameras|, |e.obstacles|, |e.targets|);
      var s := Pack(TargetView(e, t), TARGET_LAYOUT, t);
      && Apply(s, sl.self) == e.targetSelves[t]
      && ShowsAll(Apply(s, sl.opponents), e.cameras, e.targetSeesCamera[t], TARGET_LAYOUT.opponentDim)
      && ShowsAll(Apply(s, sl.obstacles), e.obstacles, e.targetSeesObstacle[t], OBSTACLE_DIM)
      && ShowsAll(Apply(s, sl.teammates), e.targets, e.targetSeesTarget[t], TARGET_LAYOUT.teammateDim)
  {
    hide Pack, ShowsAll, Apply;
    ViewReadsBack(CameraView(e, c), CAMERA_LAYOUT, c);
    ViewReadsBack(TargetView(e, t), TARGET_LAYOUT, t);
  }

  /** The same states as far as they are seen. */
  predicate SameSeen(states: seq<seq<real>>, states': seq<seq<real>>, mask: seq<bool>) {
    |states| == |states'| == |mask| && forall i :: 0 <= i < |mask| && mask[i] ==> states[i] == states'[i]
  }

  lemma {:induction false} BlockHides(states: seq<seq<real>>, states': seq<seq<real>>, mask: seq<bool>, dim: nat)
    requires Shaped(states, mask, dim) && Shaped(states', mask, dim) && SameSeen(states, states', mask)
    ensures Block(states, mask) == Block(states', mask)
  {
    if states != [] {
      var n := |states| - 1;
      BlockHides(states[..n], states'[..n], mask[..n], dim);
    }
  }

  /** Two situations that an agent cannot tell apart: what it is, who it sees, and the states of
      those it sees are the same. */
  predicate SameView(v: View, v': View) {
    && v.preserved == v'.preserved && v.self == v'.self
    && v.opponentMask == v'.opponentMask && SameSeen(v.opponents, v'.opponents, v.opponentMask)
    && v.obstacleMask == v'.obstacleMask && SameSeen(v.obstacles, v'.obstacles, v.obstacleMask)
    && v.teammateMask == v'.teammateMask && SameSeen(v.teammates, v'.teammates, v.teammateMask)
  }

  lemma PackHides(v: View, v': View, layout: Layout, index: nat)
    requires ValidView(v, layout) && ValidView(v', layout) && SameView(v, v')
    ensures Pack(v, layout, index) == Pack(v', layout, index)
  {
    hide Block;
    BlockHides(v.opponents, v'.opponents, v.opponentMask, layout.opponentDim);
    BlockHides(v.obstacles, v'.obstacles, v.obstacleMask, OBSTACLE_DIM);
    BlockHides(v.teammates, v'.teammates, v.teammateMask, layout.teammateDim);
  }

  /** The unseen is hidden: an agent's vector does not change when the states of the entities
      that it does not see change. */
  lemma UnseenIsHidden(e: Everyone, e': Everyone, c: nat, t: nat)
    requires ValidEveryone(e) && ValidEveryone(e') && c < |e.cameras| == |e'.cameras| && t < |e.targets| == |e'.targets|
    ensures SameSeen(e.targets, e'.targets, e.cameraSeesTarget[c]) && SameSeen(e.obstacles, e'.obstacles, e.cameraSeesObstacle[c])
        && SameSeen(e.cameras, e'.cameras, e.cameraSeesCamera[c])
        && e.preserved == e'.preserved && e.cameraSelves[c] == e'.cameraSelves[c]
        && e.cameraSeesTarget[c] == e'.cameraSeesTarget[c] && e.cameraSeesObstacle[c] == e'.cameraSeesObstacle[c] && e.cameraSeesCamera[c] == e'.cameraSeesCamera[c]
      ==> Pack(CameraView(e, c), CAMERA_LAYOUT, c) == Pack(CameraView(e', c), CAMERA_LAYOUT, c)
    ensures SameSeen(e.cameras, e'.cameras, e.targetSeesCamera[t]) && SameSeen(e.obstacles, e'.obstacles, e.targetSeesObstacle[t])
        && SameSeen(e.targets, e'.targets, e.targetSeesTarget[t])
        && e.preserved == e'.preserved && e.targetSelves[t] == e'.targetSelves[t]
        && e.targetSeesCamera[t] == e'.targetSeesCamera[t] && e.targetSeesObstacle[t] == e'.targetSeesObstacle[t] && e.targetSeesTarget[t] == e'.targetSeesTarget[t]
      ==> Pack(TargetView(e, t), TARGET_LAYOUT, t) == Pack(TargetView(e', t), TARGET_LAYOUT, t)
  {
    hide Pack, SameSeen;
    if SameView(CameraView(e, c), CameraView(e', c)) {
      PackHides(CameraView(e, c), CameraView(e', c), CAMERA_LAYOUT, c);
    }
    if SameView(TargetView(e, t), TargetView(e', t)) {
      PackHides(TargetView(e, t), TargetView(e', t), TARGET_LAYOUT, t);
    }
  }
}
