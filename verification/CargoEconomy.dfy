/** The cargo economy of the tracking game on values: what one call of the goal
    assignment, one step and one reset do to the whole state.  The class in
    Environment.dfy, which works in place on arrays, is proved to follow these
    functions; the laws of the economy are proved about them. */
module CargoEconomy {
  import opened FiniteSets
  import opened Integers
  import opened Sums

  const NUM_WAREHOUSES: nat := 4

  /** The parameters of an environment.  The two scales are ceilings, hence integers. */
  datatype Config = Config(
    numTargets: nat,
    cargoesPerTarget: nat,
    freightScale: int,
    bountyScale: int,
    maxSteps: int,
    startLoaded: bool,
    numHeavy: nat)

  function Ceil(r: real): int { -((-r).Floor) }

  /** Freight for crossing the whole terrain, one per step. */
  function FreightScale(stepSize: real): int
    requires 0.0 < stepSize
  {
    Ceil(2000.0 / stepSize)
  }

  function BountyScale(freightScale: int, bountyFactor: real): int {
    Ceil(freightScale as real * bountyFactor)
  }

  /** A target that can carry more is slower: its step size times its capacity is fixed. */
  function Pace(stepSize: real, capacity: nat): real {
    stepSize / (if capacity == 0 then 1 else capacity) as real
  }

  /** What the configuration check guarantees. */
  predicate ValidConfig(cfg: Config) {
    && 0 < cfg.numTargets
    && NUM_WAREHOUSES <= cfg.cargoesPerTarget
    && 1 <= cfg.freightScale
    && 0 <= cfg.bountyScale
    && 0 < cfg.maxSteps
    && cfg.numHeavy <= cfg.numTargets
  }

  /** The scales of a checked configuration are valid: the freight is at least one and the
      bounty is not negative. */
  lemma ScalesAreValid(stepSize: real, bountyFactor: real)
    requires 0.0 < stepSize && 0.0 <= bountyFactor
    ensures 1 <= FreightScale(stepSize)
    ensures 0 <= BountyScale(FreightScale(stepSize), bountyFactor)
  {
    var q := 2000.0 / stepSize;
    assert q * stepSize == 2000.0;
    assert 0.0 <= FreightScale(stepSize) as real * bountyFactor;
  }

  /** A ceiling is the least integer not below a number. */
  lemma CeilIsLeast(r: real, i: int)
    ensures r <= Ceil(r) as real < r + 1.0
    ensures r <= i as real <==> Ceil(r) <= i
  {
  }

  /** The freight scale is the least number of steps that crosses the terrain, and the bounty
      scale the least integer that is not below the given multiple of it. */
  lemma ScalesAreLeast(stepSize: real, bountyFactor: real, i: int)
    requires 0.0 < stepSize
    ensures 2000.0 <= i as real * stepSize <==> FreightScale(stepSize) <= i
    ensures FreightScale(stepSize) as real * bountyFactor <= i as real <==> BountyScale(FreightScale(stepSize), bountyFactor) <= i
  {
    CeilIsLeast(2000.0 / stepSize, i);
    CeilIsLeast(FreightScale(stepSize) as real * bountyFactor, i);
    QuotientIsAtMost(2000.0, stepSize, i as real);
  }

  lemma QuotientIsAtMost(a: real, b: real, c: real)
    requires 0.0 < b
    ensures a / b <= c <==> a <= c * b
  {
    var q := a / b;
    assert q * b == a;
    assert c * b - a == (c - q) * b;
  }

  /** Everything the environment and the target itself record about one target.
      bits is the environment's row of cargo bits, entityBits the target's own copy. */
  datatype Row = Row(
    capacity: nat,
    goal: int,
    bits: seq<nat>,
    entityBits: seq<nat>,
    empty: seq<bool>,
    freight: int,
    bounty: int,
    steps: nat,
    tracked: nat,
    done: bool)

  datatype State = State(
    rows: seq<Row>,
    remaining: seq<seq<nat>>,
    awaiting: seq<int>,
    delivered: int,
    dense: int,
    delayed: int,
    clock: nat)

  /** A state in the middle of a call, with the two rewards accumulated so far. */
  datatype Outcome = Outcome(state: State, dense: int, delayed: int)

  /** One call of step: the view of the cameras, where the targets stand after they
      moved, and the raw random numbers behind every choice of a new goal. */
  datatype Input = Input(tracked: seq<bool>, inside: seq<seq<bool>>, draw: (nat, nat) -> nat)

  /** One call of reset: the heavy targets, the rounds of random (sender, recipient)
      pairs, the first view, and the permutations used for the initial loads. */
  datatype ResetInput = ResetInput(
    heavy: set<nat>,
    rounds: seq<seq<(nat, nat)>>,
    view: Input,
    order: nat -> seq<nat>,
    redraw: nat -> nat)

  predicate ShapedRow(r: Row) {
    && |r.bits| == NUM_WAREHOUSES
    && |r.entityBits| == NUM_WAREHOUSES
    && |r.empty| == NUM_WAREHOUSES
    && -1 <= r.goal < NUM_WAREHOUSES
  }

  predicate ShapedStock(remaining: seq<seq<nat>>) {
    && |remaining| == NUM_WAREHOUSES
    && forall w :: 0 <= w < NUM_WAREHOUSES ==> |remaining[w]| == NUM_WAREHOUSES
  }

  predicate Shaped(cfg: Config, s: State) {
    && |s.rows| == cfg.numTargets
    && (forall t :: 0 <= t < |s.rows| ==> ShapedRow(s.rows[t]))
    && ShapedStock(s.remaining)
    && |s.awaiting| == NUM_WAREHOUSES
  }

  predicate ShapedInput(cfg: Config, input: Input) {
    && |input.tracked| == cfg.numTargets
    && |input.inside| == cfg.numTargets
    && forall t :: 0 <= t < cfg.numTargets ==> |input.inside[t]| == NUM_WAREHOUSES
  }

  // ---------------------------------------------------------------- choices

  /** The positions that hold true, in ascending order. */
  function FlatNonzero(b: seq<bool>): (r: seq<nat>)
    ensures forall k :: 0 <= k < |r| ==> r[k] < |b| && b[r[k]]
    ensures forall j, k :: 0 <= j < k < |r| ==> r[j] < r[k]
    ensures forall i :: 0 <= i < |b| && b[i] ==> i in r
  {
    if b == [] then []
    else
      var n := |b| - 1;
      var r := FlatNonzero(b[..n]);
      if b[n] then r + [n] else r
  }

  predicate Stocked(row: seq<nat>) {
    exists i :: 0 <= i < |row| && 0 < row[i]
  }

  function Positive(row: seq<nat>): seq<bool> {
    seq(|row|, i requires 0 <= i < |row| => 0 < row[i])
  }

  /** A random choice among the recipients for which a warehouse still holds cargo. */
  function Choice(row: seq<nat>, raw: nat): (goal: nat)
    requires Stocked(row)
    ensures goal < |row| && 0 < row[goal]
  {
    var candidates := FlatNonzero(Positive(row));
    assert candidates != [] by {
      var i :| 0 <= i < |row| && 0 < row[i];
      assert Positive(row)[i];
    }
    candidates[raw % |candidates|]
  }

  /** Every stocked recipient can be chosen, each by as many raw numbers below the number of
      them as any other: by one. */
  lemma ChoiceIsFair(row: seq<nat>, goal: nat) returns (raw: nat)
    requires goal < |row| && 0 < row[goal]
    ensures Stocked(row) && raw < |Recipients(row)| && Choice(row, raw) == goal
    ensures forall other: nat :: other < |Recipients(row)| && Choice(row, other) == goal ==> other == raw
  {
    hide FlatNonzero;
    var candidates := FlatNonzero(Positive(row));
    assert Positive(row)[goal] && goal in candidates;
    CandidatesAreRecipients(row);
    raw :| 0 <= raw < |candidates| && candidates[raw] == goal;
    ChoiceIsCandidate(row, raw);
    forall other: nat | other < |candidates| && Choice(row, other) == goal
      ensures other == raw
    {
      ChoiceIsCandidate(row, other);
      Distinct(candidates, raw, other);
    }
  }

  lemma ChoiceIsCandidate(row: seq<nat>, raw: nat)
    requires Stocked(row) && raw < |FlatNonzero(Positive(row))|
    ensures Choice(row, raw) == FlatNonzero(Positive(row))[raw]
  {
    hide FlatNonzero, Positive;
    SmallRemainder(raw, |FlatNonzero(Positive(row))|);
  }

  lemma SmallRemainder(a: nat, b: nat)
    requires a < b
    ensures a % b == a
  {
  }

  lemma Distinct(s: seq<nat>, i: nat, j: nat)
    requires i < |s| && j < |s| && s[i] == s[j] && forall a, b :: 0 <= a < b < |s| ==> s[a] < s[b]
    ensures i == j
  {
  }

  /** The recipients for which a warehouse holds cargo. */
  function Recipients(row: seq<nat>): set<nat> {
    set g: nat | g < |row| && 0 < row[g]
  }

  lemma {:induction false} CandidatesAreRecipients(row: seq<nat>)
    ensures |FlatNonzero(Positive(row))| == |Recipients(row)|
  {
    var candidates := FlatNonzero(Positive(row));
    ReachedSize(candidates, |candidates|);
    forall g: nat
      ensures g in Reached(candidates, |candidates|) <==> g in Recipients(row)
    {
      if g in Recipients(row) {
        assert Positive(row)[g] && g in candidates;
      }
    }
    assert Reached(candidates, |candidates|) == Recipients(row);
  }

  /** The first warehouse of a list that still holds cargo, NUM_WAREHOUSES if none does. */
  function FirstStocked(order: seq<nat>, remaining: seq<seq<nat>>): (w: nat)
    requires ShapedStock(remaining)
    requires forall k :: 0 <= k < |order| ==> order[k] < NUM_WAREHOUSES
    ensures w <= NUM_WAREHOUSES
    ensures w < NUM_WAREHOUSES ==> w in order && Stocked(remaining[w])
    ensures w == NUM_WAREHOUSES ==> forall k :: 0 <= k < |order| ==> !Stocked(remaining[order[k]])
  {
    if order == [] then NUM_WAREHOUSES
    else if Stocked(remaining[order[0]]) then order[0]
    else FirstStocked(order[1..], remaining)
  }

  /** The warehouse found is the first of the list that has stock. */
  lemma {:induction false} FirstStockedIsFirst(order: seq<nat>, remaining: seq<seq<nat>>) returns (k: nat)
    requires ShapedStock(remaining)
    requires forall i :: 0 <= i < |order| ==> order[i] < NUM_WAREHOUSES
    requires FirstStocked(order, remaining) < NUM_WAREHOUSES
    ensures k < |order| && order[k] == FirstStocked(order, remaining) && Stocked(remaining[order[k]])
    ensures forall i :: 0 <= i < k ==> !Stocked(remaining[order[i]])
  {
    if Stocked(remaining[order[0]]) {
      k := 0;
    } else {
      k := FirstStockedIsFirst(order[1..], remaining);
      k := k + 1;
    }
  }

  function SetCell(m: seq<seq<nat>>, i: nat, j: nat, v: nat): seq<seq<nat>>
    requires i < |m| && j < |m[i]|
  {
    var row: seq<nat> := m[i][j := v];
    m[i := row]
  }

  // ------------------------------------------------------- serving one target

  function Zeros(): (z: seq<nat>) { [0, 0, 0, 0] }

  function ClearedRow(r: Row): Row {
    r.(goal := -1, bits := Zeros(), entityBits := Zeros(), freight := 0, bounty := 0, steps := 0, tracked := 0)
  }

  function Clear(s: State, t: nat): State
    requires t < |s.rows|
  {
    s.(rows := s.rows[t := ClearedRow(s.rows[t])])
  }

  function LoadedRow(cfg: Config, r: Row, goal: nat, weight: nat): Row
    requires goal < |r.bits| && goal < |r.entityBits|
  {
    r.(goal := goal, bits := r.bits[goal := weight], entityBits := r.entityBits[goal := weight],
       freight := weight * cfg.freightScale, bounty := weight * cfg.bountyScale)
  }

  /** Target t takes as much as it can carry of one kind of cargo from warehouse w. */
  function TakeLoad(cfg: Config, s: State, t: nat, w: nat, raw: nat): (s': State)
    requires Shaped(cfg, s) && t < cfg.numTargets && w < NUM_WAREHOUSES && Stocked(s.remaining[w])
    ensures Shaped(cfg, s')
  {
    var goal := Choice(s.remaining[w], raw);
    var weight := Min(s.rows[t].capacity, s.remaining[w][goal]);
    s.(remaining := SetCell(s.remaining, w, goal, s.remaining[w][goal] - weight),
       rows := s.rows[t := LoadedRow(cfg, s.rows[t], goal, weight)])
  }

  /** Target t hands over its cargo at its goal and is paid. */
  function Deliver(cfg: Config, o: Outcome, t: nat): (o': Outcome)
    requires Shaped(cfg, o.state) && t < cfg.numTargets && 0 <= o.state.rows[t].goal
    ensures Shaped(cfg, o'.state)
  {
    var s := o.state;
    var r := s.rows[t];
    var weight := r.bits[r.goal];
    var reward := r.freight + r.bounty;
    Outcome(
      s.(awaiting := s.awaiting[r.goal := s.awaiting[r.goal] - weight], delivered := s.delivered + weight),
      o.dense + reward,
      o.delayed + reward - (weight * cfg.bountyScale - r.bounty))
  }

  /** At every warehouse where it stands, target t sees whether anything is left. */
  function Look(cfg: Config, s: State, t: nat, inside: seq<bool>): (s': State)
    requires Shaped(cfg, s) && t < cfg.numTargets && |inside| == NUM_WAREHOUSES
    ensures Shaped(cfg, s')
  {
    var r := s.rows[t];
    s.(rows := s.rows[t := r.(empty := seq(NUM_WAREHOUSES, w requires 0 <= w < NUM_WAREHOUSES =>
      if inside[w] then !Stocked(s.remaining[w]) else r.empty[w]))])
  }

  /** A target that stands at its goal delivers and reloads there; an unloaded target
      loads at the first stocked warehouse where it stands; any other target waits. */
  function Trade(cfg: Config, o: Outcome, t: nat, inside: seq<bool>, draw: (nat, nat) -> nat): (o': Outcome)
    requires Shaped(cfg, o.state) && t < cfg.numTargets && |inside| == NUM_WAREHOUSES
    ensures Shaped(cfg, o'.state)
  {
    var goal := o.state.rows[t].goal;
    if 0 <= goal then
      if !inside[goal] then o
      else
        var paid := Deliver(cfg, o, t);
        var cleared := Clear(paid.state, t);
        paid.(state := if Stocked(cleared.remaining[goal]) then TakeLoad(cfg, cleared, t, goal, draw(t, goal)) else cleared)
    else if FlatNonzero(inside) == [] then o
    else
      var cleared := Clear(o.state, t);
      var w := FirstStocked(FlatNonzero(inside), cleared.remaining);
      o.(state := if w < NUM_WAREHOUSES then TakeLoad(cfg, cleared, t, w, draw(t, w)) else cleared)
  }

  function Serve(cfg: Config, o: Outcome, t: nat, inside: seq<bool>, draw: (nat, nat) -> nat): (o': Outcome)
    requires Shaped(cfg, o.state) && t < cfg.numTargets && |inside| == NUM_WAREHOUSES
    ensures Shaped(cfg, o'.state)
  {
    var traded := Trade(cfg, o, t, inside, draw);
    traded.(state := Look(cfg, traded.state, t, inside))
  }

  /** The first n targets served, in order. */
  function ServeFirst(cfg: Config, o: Outcome, n: nat, input: Input): (o': Outcome)
    requires Shaped(cfg, o.state) && ShapedInput(cfg, input) && n <= cfg.numTargets
    ensures Shaped(cfg, o'.state)
  {
    if n == 0 then o
    else Serve(cfg, ServeFirst(cfg, o, n - 1, input), n - 1, input.inside[n - 1], input.draw)
  }

  // ------------------------------------------------------------ whole calls

  function Bit(b: bool): nat { if b then 1 else 0 }

  function DecayedRow(r: Row, tracked: bool): Row {
    r.(bounty := if r.bounty - Bit(tracked) <= 0 then 0 else r.bounty - Bit(tracked))
  }

  /** Every tracked target loses one unit of bounty, down to zero. */
  function Decay(s: State, tracked: seq<bool>): State
    requires |tracked| == |s.rows|
  {
    s.(rows := seq(|s.rows|, t requires 0 <= t < |s.rows| => DecayedRow(s.rows[t], tracked[t])))
  }

  /** How many tracked targets still carry a bounty. */
  function Paying(rows: seq<Row>, tracked: seq<bool>): nat
    requires |rows| == |tracked|
  {
    if rows == [] then 0 else Bit(tracked[0] && 0 < rows[0].bounty) + Paying(rows[1..], tracked[1..])
  }

  /** How a call begins: bounties decay and the dense reward pays for it. */
  function Opened(s: State, tracked: seq<bool>): (o: Outcome)
    requires |tracked| == |s.rows|
    ensures |o.state.rows| == |s.rows|
  {
    Outcome(Decay(s, tracked), 0 - Paying(s.rows, tracked), 0)
  }

  /** The flag of a finished task: the goal changed and there was one before. */
  function MarkDone(before: seq<Row>, after: seq<Row>): seq<Row>
    requires |before| == |after|
  {
    seq(|after|, t requires 0 <= t < |after| =>
      after[t].(done := after[t].goal != before[t].goal && 0 <= before[t].goal))
  }

  function AssignGoals(cfg: Config, s: State, input: Input): (o: Outcome)
    requires Shaped(cfg, s) && ShapedInput(cfg, input)
    ensures Shaped(cfg, o.state)
  {
    var served := ServeFirst(cfg, Opened(s, input.tracked), cfg.numTargets, input);
    served.(state := served.state.(rows := MarkDone(s.rows, served.state.rows)))
  }

  function Ticked(rows: seq<Row>, tracked: seq<bool>): seq<Row>
    requires |rows| == |tracked|
  {
    seq(|rows|, t requires 0 <= t < |rows| =>
      rows[t].(steps := rows[t].steps + 1, tracked := rows[t].tracked + Bit(tracked[t])))
  }

  /** The state after one call of step. */
  function Step(cfg: Config, s: State, input: Input): (s': State)
    requires Shaped(cfg, s) && ShapedInput(cfg, input)
    ensures Shaped(cfg, s')
  {
    var o := AssignGoals(cfg, s, input);
    o.state.(rows := Ticked(o.state.rows, input.tracked),
             dense := s.dense + o.dense,
             delayed := s.delayed + o.delayed,
             clock := s.clock + 1)
  }

  /** The flag that ends an episode, as step computes it. */
  predicate Done(cfg: Config, s: State) {
    !(s.clock <= cfg.maxSteps && exists w :: 0 <= w < |s.awaiting| && s.awaiting[w] != 0)
  }

  // ------------------------------------------------------------------ reset

  /** One round of random cargo, each pair adding one unit. */
  function Stow(remaining: seq<seq<nat>>, round: seq<(nat, nat)>): (stock: seq<seq<nat>>)
    requires ShapedStock(remaining)
    requires forall p :: p in round ==> p.0 < NUM_WAREHOUSES && p.1 < NUM_WAREHOUSES
    ensures ShapedStock(stock)
  {
    if round == [] then remaining
    else
      var n := |round| - 1;
      var before := Stow(remaining, round[..n]);
      var (i, j) := round[n];
      SetCell(before, i, j, before[i][j] + 1)
  }

  predicate AllStocked(remaining: seq<seq<nat>>) {
    forall w :: 0 <= w < |remaining| ==> Stocked(remaining[w])
  }

  /** A round of the fill loop, as the random generator draws it: a fixed number of
      pairs of different warehouses. */
  predicate ValidRound(cfg: Config, round: seq<(nat, nat)>) {
    && |round| == cfg.cargoesPerTarget * cfg.numTargets
    && forall p :: p in round ==> p.0 < NUM_WAREHOUSES && p.1 < NUM_WAREHOUSES && p.0 != p.1
  }

  predicate ValidRounds(cfg: Config, rounds: seq<seq<(nat, nat)>>) {
    forall k :: 0 <= k < |rounds| ==> ValidRound(cfg, rounds[k])
  }

  /** The stock after some rounds; no round clears what the rounds before it added. */
  function Filled(cfg: Config, rounds: seq<seq<(nat, nat)>>): (stock: seq<seq<nat>>)
    requires ValidRounds(cfg, rounds)
    ensures ShapedStock(stock)
  {
    if rounds == [] then [Zeros(), Zeros(), Zeros(), Zeros()]
    else Stow(Filled(cfg, rounds[..|rounds| - 1]), rounds[|rounds| - 1])
  }

  function Column(remaining: seq<seq<nat>>, w: nat): seq<int> {
    seq(|remaining|, i requires 0 <= i < |remaining| => if w < |remaining[i]| then remaining[i][w] else 0)
  }

  function ColumnSums(remaining: seq<seq<nat>>): seq<int> {
    seq(NUM_WAREHOUSES, w requires 0 <= w < NUM_WAREHOUSES => Sum(Column(remaining, w)))
  }

  /** What the random generator promises about the inputs of a reset: as many heavy targets
      as configured, the fill loop stops after exactly the given rounds, and the orders are
      permutations. */
  ghost predicate ValidReset(cfg: Config, input: ResetInput) {
    && |input.heavy| == cfg.numHeavy && (forall t :: t in input.heavy ==> t < cfg.numTargets)
    && ValidRounds(cfg, input.rounds)
    && AllStocked(Filled(cfg, input.rounds))
    && (forall k :: 0 <= k < |input.rounds| ==> !AllStocked(Filled(cfg, input.rounds[..k])))
    && ShapedInput(cfg, input.view)
    && (forall t :: IsPermutation(input.order(t), NUM_WAREHOUSES))
  }

  function BlankRow(heavy: bool): Row {
    Row(if heavy then 2 else 1, -1, Zeros(), Zeros(), [false, false, false, false], 0, 0, 0, 0, false)
  }

  function Blank(cfg: Config, heavy: set<nat>, stock: seq<seq<nat>>): State {
    State(seq(cfg.numTargets, t requires 0 <= t < cfg.numTargets => BlankRow(t in heavy)),
          stock, ColumnSums(stock), 0, 0, 0, 0)
  }

  /** A target without a load is given one from the first stocked warehouse of an order. */
  function LoadAt(cfg: Config, s: State, t: nat, order: seq<nat>, raw: nat): (s': State)
    requires Shaped(cfg, s) && t < cfg.numTargets && IsPermutation(order, NUM_WAREHOUSES)
    ensures Shaped(cfg, s')
  {
    var w := FirstStocked(order, s.remaining);
    if s.rows[t].goal < 0 && w < NUM_WAREHOUSES then TakeLoad(cfg, s, t, w, raw) else s
  }

  /** Initial loads for the first n targets. */
  function LoadFirst(cfg: Config, s: State, n: nat, order: nat -> seq<nat>, redraw: nat -> nat): (s': State)
    requires Shaped(cfg, s) && n <= cfg.numTargets
    requires forall t :: IsPermutation(order(t), NUM_WAREHOUSES)
    ensures Shaped(cfg, s')
  {
    if n == 0 then s
    else LoadAt(cfg, LoadFirst(cfg, s, n - 1, order, redraw), n - 1, order(n - 1), redraw(n - 1))
  }

  function Undone(rows: seq<Row>): seq<Row> {
    seq(|rows|, t requires 0 <= t < |rows| => rows[t].(done := false))
  }

  /** The state after the first goal assignment of a reset: its rewards are dropped. */
  function FirstAssignment(cfg: Config, input: ResetInput): (s: State)
    requires ValidReset(cfg, input)
    ensures Shaped(cfg, s)
  {
    var o := AssignGoals(cfg, Blank(cfg, input.heavy, Filled(cfg, input.rounds)), input.view);
    o.state.(rows := Undone(o.state.rows), delivered := 0)
  }

  /** The state after a reset. */
  function Initial(cfg: Config, input: ResetInput): (s: State)
    requires ValidReset(cfg, input)
    ensures Shaped(cfg, s)
  {
    var s := FirstAssignment(cfg, input);
    if cfg.startLoaded then LoadFirst(cfg, s, cfg.numTargets, input.order, input.redraw) else s
  }

  /** The state after any number of calls of step. */
  function Run(cfg: Config, s: State, inputs: seq<Input>): (s': State)
    requires Shaped(cfg, s)
    requires forall k :: 0 <= k < |inputs| ==> ShapedInput(cfg, inputs[k])
    ensures Shaped(cfg, s')
  {
    if inputs == [] then s
    else Step(cfg, Run(cfg, s, inputs[..|inputs| - 1]), inputs[|inputs| - 1])
  }
}
