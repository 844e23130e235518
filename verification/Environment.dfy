/** The environment as the program runs it: counters and arrays updated in place. Every
    method is proved against the functions of CargoEconomy. */
module Environment {
  import opened FiniteSets
  import Integers
  import opened Sums
  import E = CargoEconomy
  import I = CargoInvariants
  import R = CargoReset

  const WIDTH: nat := E.NUM_WAREHOUSES

  /** The part of a target that the cargo economy writes to. */
  class Target {
    const goalBits: array<nat>
    const emptyBits: array<bool>

    constructor ()
      ensures fresh(goalBits) && goalBits.Length == WIDTH
      ensures fresh(emptyBits) && emptyBits.Length == WIDTH
    {
      goalBits := new nat[WIDTH](_ => 0);
      emptyBits := new bool[WIDTH](_ => false);
    }
  }

  function CellRow(m: array2<nat>, i: nat): seq<nat>
    requires i < m.Length0 && m.Length1 == WIDTH
    reads m
  {
    [m[i, 0], m[i, 1], m[i, 2], m[i, 3]]
  }

  /** Fills one row of a matrix with zeros. */
  method FillRow(m: array2<nat>, i: nat)
    requires i < m.Length0 && m.Length1 == WIDTH
    modifies m
    ensures CellRow(m, i) == E.Zeros()
    ensures forall k :: 0 <= k < m.Length0 && k != i ==> CellRow(m, k) == old(CellRow(m, k))
  {
    for j := 0 to WIDTH
      invariant forall k :: 0 <= k < j ==> m[i, k] == 0
      invariant forall k, l :: 0 <= k < m.Length0 && 0 <= l < WIDTH && k != i ==> m[k, l] == old(m[k, l])
    {
      m[i, j] := 0;
    }
  }

  method SetCell(m: array2<nat>, i: nat, j: nat, v: nat)
    requires i < m.Length0 && m.Length1 == WIDTH && j < WIDTH
    modifies m
    ensures CellRow(m, i) == old(CellRow(m, i))[j := v]
    ensures forall k :: 0 <= k < m.Length0 && k != i ==> CellRow(m, k) == old(CellRow(m, k))
  {
    m[i, j] := v;
  }

  /** Fills a target's own bits with zeros. */
  method FillBits(bits: array<nat>)
    requires bits.Length == WIDTH
    modifies bits
    ensures bits[..] == E.Zeros()
  {
    for j := 0 to WIDTH
      invariant forall k :: 0 <= k < j ==> bits[k] == 0
    {
      bits[j] := 0;
    }
  }

  /** How many tracked loads still have a bounty. */
  function Charged(worth: seq<int>, tracked: seq<bool>): nat
    requires |worth| == |tracked|
  {
    if worth == [] then 0
    else Charged(worth[..|worth| - 1], tracked[..|tracked| - 1]) + E.Bit(tracked[|tracked| - 1] && 0 < worth[|worth| - 1])
  }

  lemma {:induction false} PayingByWorth(rows: seq<E.Row>, worth: seq<int>, tracked: seq<bool>)
    requires |rows| == |worth| == |tracked| && forall i :: 0 <= i < |rows| ==> worth[i] == rows[i].bounty
    ensures E.Paying(rows, tracked) == Charged(worth, tracked)
  {
    hide E.Paying;
    if rows == [] {
      NothingPaid(tracked);
    } else {
      var n := |rows| - 1;
      I.PayingLast(rows, tracked);
      PayingByWorth(rows[..n], worth[..n], tracked[..n]);
    }
  }

  lemma NothingPaid(tracked: seq<bool>)
    requires tracked == []
    ensures E.Paying([], tracked) == 0
  {
  }

  /** Every tracked bounty loses one unit, down to zero. */
  method DecayAll(bounties: array<int>, tracked: seq<bool>) returns (charged: int)
    requires |tracked| == bounties.Length
    modifies bounties
    ensures charged == Charged(old(bounties[..]), tracked)
    ensures forall i :: 0 <= i < bounties.Length ==> bounties[i] == var less := old(bounties[i]) - E.Bit(tracked[i]); if less <= 0 then 0 else less
  {
    ghost var worth := bounties[..];
    charged := 0;
    for t := 0 to bounties.Length
      invariant charged == Charged(worth[..t], tracked[..t])
      invariant forall i :: 0 <= i < t ==> bounties[i] == var less := worth[i] - E.Bit(tracked[i]); if less <= 0 then 0 else less
      invariant forall i :: t <= i < bounties.Length ==> bounties[i] == worth[i]
    {
      assert worth[..t + 1][..t] == worth[..t] && tracked[..t + 1][..t] == tracked[..t];
      if tracked[t] && 0 < bounties[t] {
        charged := charged + 1;
      }
      var less := bounties[t] - E.Bit(tracked[t]);
      bounties[t] := if less <= 0 then 0 else less;
    }
    assert worth[..bounties.Length] == worth && tracked[..bounties.Length] == tracked;
  }

  /** Where a target stands it sees whether anything is left. */
  method LookAround(empty: array<bool>, remaining: array2<nat>, inside: seq<bool>)
    requires empty.Length == WIDTH && remaining.Length0 == WIDTH && remaining.Length1 == WIDTH && |inside| == WIDTH
    modifies empty
    ensures forall w :: 0 <= w < WIDTH ==> empty[w] == if inside[w] then !E.Stocked(CellRow(remaining, w)) else old(empty[w])
  {
    hide E.Stocked;
    for w := 0 to WIDTH
      invariant forall v :: 0 <= v < w ==> empty[v] == if inside[v] then !E.Stocked(CellRow(remaining, v)) else old(empty[v])
      invariant forall v :: w <= v < WIDTH ==> empty[v] == old(empty[v])
    {
      if inside[w] {
        empty[w] := !E.Stocked(CellRow(remaining, w));
      }
    }
  }

  predicate DisjointTargets(e: Target, f: Target) {
    e.goalBits != f.goalBits && e.emptyBits != f.emptyBits
  }

  class MultiAgentTracking {
    const cfg: E.Config
    const targets: seq<Target>
    const stepSize: real
    const capacities: array<nat>
    const paces: array<real>
    const remaining: array2<nat>
    const awaiting: array<int>
    const goalBits: array2<nat>
    const goals: array<int>
    const dones: array<bool>
    const targetSteps: array<nat>
    const trackedSteps: array<nat>
    const freights: array<int>
    const bounties: array<int>
    var delivered: int
    var denseTotal: int
    var delayedTotal: int
    var episodeStep: nat

    /** How the buffers are allocated: the right sizes, and no two of them the same. */
    ghost predicate Wired() {
      && E.ValidConfig(cfg)
      && |targets| == cfg.numTargets
      && 0.0 < stepSize && paces.Length == cfg.numTargets
      && capacities.Length == goals.Length == dones.Length == cfg.numTargets
      && targetSteps.Length == trackedSteps.Length == cfg.numTargets
      && freights.Length == bounties.Length == cfg.numTargets
      && remaining.Length0 == WIDTH && remaining.Length1 == WIDTH
      && goalBits.Length0 == cfg.numTargets && goalBits.Length1 == WIDTH
      && awaiting.Length == WIDTH
      && remaining != goalBits
      && awaiting != goals && awaiting != freights && awaiting != bounties
      && goals != freights && goals != bounties && freights != bounties
      && capacities != targetSteps && capacities != trackedSteps && targetSteps != trackedSteps
      && (forall t :: 0 <= t < |targets| ==> WiredTarget(t))
      && (forall s, t :: 0 <= s < |targets| && 0 <= t < |targets| && s != t ==> ApartTargets(s, t))
    }

    ghost predicate ApartTargets(s: nat, t: nat)
      requires s < |targets| && t < |targets|
    {
      DisjointTargets(targets[s], targets[t])
    }

    ghost predicate WiredTarget(t: nat)
      requires t < |targets|
    {
      var e := targets[t];
      && e.goalBits.Length == WIDTH && e.emptyBits.Length == WIDTH
      && e.goalBits != capacities && e.goalBits != targetSteps && e.goalBits != trackedSteps
      && e.emptyBits != dones
    }

    /** Everything the object may write to. */
    ghost function Repr(): set<object> {
      {this, capacities, remaining, awaiting, goalBits, goals, dones, targetSteps, trackedSteps, freights, bounties}
      + (set e | e in targets :: e.goalBits) + (set e | e in targets :: e.emptyBits)
    }

    /** All that is recorded about one target. */
    ghost function RowAt(t: nat): E.Row
      requires Wired() && t < cfg.numTargets
      reads Repr()
    {
      var e := targets[t];
      E.Row(capacities[t], goals[t], CellRow(goalBits, t), e.goalBits[..], e.emptyBits[..],
            freights[t], bounties[t], targetSteps[t], trackedSteps[t], dones[t])
    }

    ghost function Rows(): seq<E.Row>
      requires Wired()
      reads Repr()
    {
      seq(cfg.numTargets, t requires 0 <= t < cfg.numTargets && Wired() reads Repr() => RowAt(t))
    }

    function Stock(): (stock: seq<seq<nat>>)
      requires Wired()
      reads remaining
      ensures E.ShapedStock(stock)
    {
      [CellRow(remaining, 0), CellRow(remaining, 1), CellRow(remaining, 2), CellRow(remaining, 3)]
    }

    /** The state the arrays and counters stand for. */
    ghost function View(): E.State
      requires Wired()
      reads Repr()
    {
      E.State(Rows(), Stock(), awaiting[..], delivered, denseTotal, delayedTotal, episodeStep)
    }

    /** Both copies of the cargo bits of target t are cleared. */
    method ClearBits(t: nat)
      requires Wired() && t < cfg.numTargets
      modifies goalBits, targets[t].goalBits
      ensures View() == old(View()).(rows := old(View()).rows[t := old(View()).rows[t].(bits := E.Zeros(), entityBits := E.Zeros())])
    {
      assert WiredTarget(t);
      ghost var before := View();
      assert before.rows[t] == RowAt(t);
      FillRow(goalBits, t);
      FillBits(targets[t].goalBits);
      forall i | 0 <= i < cfg.numTargets && i != t
        ensures RowAt(i) == before.rows[i]
      {
        assert before.rows[i] == old(RowAt(i));
        assert WiredTarget(i) && ApartTargets(i, t);
        assert targets[i].goalBits[..] == old(targets[i].goalBits[..]);
      }
      assert Rows() == before.rows[t := RowAt(t)];
    }

    /** One of the cargo bits of target t is set in both copies. */
    method WriteBits(t: nat, goal: nat, weight: nat)
      requires Wired() && E.Shaped(cfg, View()) && goal < WIDTH && t < cfg.numTargets
      modifies goalBits, targets[t].goalBits
      ensures View() == old(View()).(rows := old(View()).rows[t := old(View()).rows[t].(bits := old(View()).rows[t].bits[goal := weight], entityBits := old(View()).rows[t].entityBits[goal := weight])])
    {
      assert WiredTarget(t);
      ghost var before := View();
      assert before.rows[t] == RowAt(t);
      hide E.Shaped;
      SetCell(goalBits, t, goal, weight);
      targets[t].goalBits[goal] := weight;
      forall i | 0 <= i < cfg.numTargets && i != t
        ensures RowAt(i) == before.rows[i]
      {
        assert before.rows[i] == old(RowAt(i));
        assert WiredTarget(i) && ApartTargets(i, t);
        assert targets[i].goalBits[..] == old(targets[i].goalBits[..]);
      }
      assert Rows() == before.rows[t := RowAt(t)];
    }

    /** Goal, freight and bounty of target t are set. */
    method SetWorth(t: nat, goal: int, freight: int, bounty: int)
      requires Wired() && t < cfg.numTargets
      modifies freights, bounties, goals
      ensures View() == old(View()).(rows := old(View()).rows[t := old(View()).rows[t].(goal := goal, freight := freight, bounty := bounty)])
    {
      ghost var before := View();
      freights[t], bounties[t] := freight, bounty;
      goals[t] := goal;
      forall i | 0 <= i < cfg.numTargets
        ensures RowAt(i) == if i == t then before.rows[t].(goal := goal, freight := freight, bounty := bounty) else before.rows[i]
      {
        assert before.rows[i] == old(RowAt(i));
      }
      assert Rows() == before.rows[t := RowAt(t)];
    }

    method ResetCounters(t: nat)
      requires Wired() && t < cfg.numTargets
      modifies trackedSteps, targetSteps
      ensures View() == old(View()).(rows := old(View()).rows[t := old(View()).rows[t].(steps := 0, tracked := 0)])
    {
      ghost var before := View();
      trackedSteps[t], targetSteps[t] := 0, 0;
      forall i | 0 <= i < cfg.numTargets
        ensures RowAt(i) == if i == t then before.rows[t].(steps := 0, tracked := 0) else before.rows[i]
      {
        assert before.rows[i] == old(RowAt(i));
        assert WiredTarget(i);
      }
      assert Rows() == before.rows[t := RowAt(t)];
    }

    /** Everything recorded about target t is cleared. */
    method Clear(t: nat)
      requires Wired() && t < cfg.numTargets
      modifies freights, bounties, trackedSteps, targetSteps, goalBits, targets[t].goalBits, goals
      ensures View() == E.Clear(old(View()), t)
    {
      ghost var before := View();
      SetWorth(t, -1, 0, 0);
      ResetCounters(t);
      ClearBits(t);
      assert View().rows == before.rows[t := E.ClearedRow(before.rows[t])];
    }

    /** All records of target t's load are written. */
    method WriteLoad(t: nat, goal: nat, weight: nat)
      requires Wired() && E.Shaped(cfg, View()) && t < cfg.numTargets && goal < WIDTH
      modifies goalBits, freights, bounties, targets[t].goalBits, goals
      ensures View() == old(View()).(rows := old(View()).rows[t := E.LoadedRow(cfg, old(View()).rows[t], goal, weight)])
    {
      ghost var before := View();
      assert before.rows[t] == RowAt(t);
      WriteBits(t, goal, weight);
      SetWorth(t, goal, weight * cfg.freightScale, weight * cfg.bountyScale);
      assert View().rows == before.rows[t := E.LoadedRow(cfg, before.rows[t], goal, weight)];
    }

    /** Cargo leaves a warehouse. */
    method TakeOut(w: nat, goal: nat, left: nat)
      requires Wired() && E.Shaped(cfg, View()) && w < WIDTH && goal < WIDTH
      modifies remaining
      ensures View() == old(View()).(remaining := E.SetCell(old(View()).remaining, w, goal, left))
    {
      SetCell(remaining, w, goal, left);
      hide E.Shaped;
      assert forall i :: 0 <= i < cfg.numTargets ==> RowAt(i) == old(RowAt(i));
      assert Rows() == old(Rows());
    }

    /** Target t takes a load from warehouse w. */
    method TakeLoad(t: nat, w: nat, raw: nat)
      requires Wired() && E.Shaped(cfg, View()) && t < cfg.numTargets && w < WIDTH
      requires E.Stocked(Stock()[w])
      modifies remaining, goalBits, freights, bounties, targets[t].goalBits, goals
      ensures View() == E.TakeLoad(cfg, old(View()), t, w, raw)
    {
      assert View().rows[t] == RowAt(t);
      var row := CellRow(remaining, w);
      var goal := E.Choice(row, raw);
      var left := row[goal];
      var weight := Integers.Min(capacities[t], left);
      TakeOut(w, goal, left - weight);
      assert View().rows[t] == RowAt(t);
      WriteLoad(t, goal, weight);
    }

    /** Target t is paid for its cargo; the two rewards so far are passed through. */
    method Deliver(t: nat, ghost o: E.Outcome, dense: int, delayed: int) returns (dense': int, delayed': int)
      requires Wired() && E.Shaped(cfg, View()) && t < cfg.numTargets && 0 <= goals[t] < WIDTH
      requires o == E.Outcome(View(), dense, delayed)
      modifies awaiting, this`delivered
      ensures E.Outcome(View(), dense', delayed') == E.Deliver(cfg, o, t)
    {
      hide E.Shaped;
      assert o.state.rows[t] == RowAt(t);
      var goal := goals[t];
      var weight := CellRow(goalBits, t)[goal];
      var total := weight * cfg.bountyScale;
      var reward := freights[t] + bounties[t];
      dense' := dense + reward;
      delayed' := delayed + reward - (total - bounties[t]);
      delivered := delivered + weight;
      awaiting[goal] := awaiting[goal] - weight;
      assert forall i :: 0 <= i < cfg.numTargets ==> RowAt(i) == old(RowAt(i));
      assert Rows() == old(Rows());
    }

    /** Target t looks around at every warehouse where it stands. */
    method Look(t: nat, inside: seq<bool>)
      requires Wired() && E.Shaped(cfg, View()) && t < cfg.numTargets && |inside| == WIDTH
      modifies targets[t].emptyBits
      ensures View() == E.Look(cfg, old(View()), t, inside)
    {
      assert WiredTarget(t);
      hide E.Shaped, E.Stocked;
      ghost var before := View();
      ghost var after := E.Look(cfg, before, t, inside);
      assert before.rows[t] == RowAt(t);
      LookAround(targets[t].emptyBits, remaining, inside);
      assert targets[t].emptyBits[..] == after.rows[t].empty;
      assert RowAt(t) == after.rows[t];
      forall i | 0 <= i < cfg.numTargets && i != t
        ensures RowAt(i) == before.rows[i]
      {
        assert before.rows[i] == old(RowAt(i));
        assert WiredTarget(i) && ApartTargets(i, t);
        assert targets[i].emptyBits[..] == old(targets[i].emptyBits[..]);
      }
      assert Rows() == before.rows[t := RowAt(t)];
    }

    /** Target t is paid if it is at its goal, and its records are cleared. */
    method Settle(t: nat, goal: int, ghost o: E.Outcome, ghost now: E.Outcome, dense: int, delayed: int)
        returns (dense': int, delayed': int)
      requires Wired() && E.Shaped(cfg, View()) && t < cfg.numTargets && now == E.Outcome(View(), dense, delayed)
      requires E.Shaped(cfg, o.state) && o.state.rows[t].goal == goal
      requires if 0 <= goal then now == o else now.(state := E.Clear(now.state, t)) == Settled(cfg, o, t)
      modifies Repr()
      ensures E.Outcome(View(), dense', delayed') == Settled(cfg, o, t)
    {
      assert targets[t] in targets;
      assert E.ShapedRow(o.state.rows[t]) && View().rows[t] == RowAt(t);
      dense', delayed' := dense, delayed;
      hide E.Deliver, E.Clear;
      if 0 <= goal {
        dense', delayed' := Deliver(t, o, dense', delayed');
      }
      Clear(t);
    }

    /** Target t, with the given goal before its turn, comes to the k-th warehouse where it
        stands.  It takes a load there, which ends its loop, or goes on to the next one. */
    method Visit(t: nat, goal: int, inside: seq<bool>, k: nat, draw: (nat, nat) -> nat, ghost o: E.Outcome, dense: int, delayed: int)
        returns (dense': int, delayed': int, loaded: bool)
      requires Wired() && E.Shaped(cfg, View()) && t < cfg.numTargets && |inside| == WIDTH && k < |E.FlatNonzero(inside)|
      requires E.Shaped(cfg, o.state) && o.state.rows[t].goal == goal
      requires Turn(cfg, o, t, E.FlatNonzero(inside), k, E.Outcome(View(), dense, delayed))
      modifies Repr()
      ensures E.Shaped(cfg, View())
      ensures var now := E.Outcome(View(), dense', delayed');
        if loaded then now == E.Trade(cfg, o, t, inside, draw)
        else Turn(cfg, o, t, E.FlatNonzero(inside), k + 1, now)
    {
      hide Turn, Settled, E.TakeLoad, E.Trade, E.FlatNonzero, WiredTarget, ApartTargets, E.ValidConfig;
      assert targets[t] in targets;
      var stands := E.FlatNonzero(inside);
      var warehouse := stands[k];
      ghost var now := E.Outcome(View(), dense, delayed);
      if 0 <= goal && goal != warehouse {
        TurnSkips(cfg, o, t, stands, k, now);
        return dense, delayed, false;
      }
      TurnMeets(cfg, o, t, stands, k, now);
      dense', delayed' := Settle(t, goal, o, now, dense, delayed);
      SettledStock(cfg, o, t);
      loaded := E.Stocked(CellRow(remaining, warehouse));
      if loaded {
        TurnTakes(cfg, o, t, inside, draw, k, now);
        TakeLoad(t, warehouse, draw(t, warehouse));
      } else {
        TurnPasses(cfg, o, t, stands, k, now);
      }
    }

    /** The loop over the warehouses where target t stands keeps testing the goal the target
        had before the turn, as the program does. */
    method Trade(t: nat, goal: int, inside: seq<bool>, draw: (nat, nat) -> nat, dense: int, delayed: int)
        returns (dense': int, delayed': int)
      requires Wired() && E.Shaped(cfg, View()) && t < cfg.numTargets && |inside| == WIDTH
      requires goal == View().rows[t].goal
      modifies Repr()
      ensures E.Outcome(View(), dense', delayed') == E.Trade(cfg, E.Outcome(old(View()), dense, delayed), t, inside, draw)
    {
      hide Turn, E.Trade, E.FlatNonzero, E.Shaped, Wired, View, Repr;
      ghost var o := E.Outcome(View(), dense, delayed);
      dense', delayed' := dense, delayed;
      var stands := E.FlatNonzero(inside);
      var k := 0;
      var loaded := false;
      TurnBegins(cfg, o, t, stands);
      while k < |stands| && !loaded
        invariant 0 <= k <= |stands|
        invariant E.Shaped(cfg, View())
        invariant var now := E.Outcome(View(), dense', delayed');
          if loaded then now == E.Trade(cfg, o, t, inside, draw) else Turn(cfg, o, t, stands, k, now)
        decreases |stands| - k
      {
        dense', delayed', loaded := Visit(t, goal, inside, k, draw, o, dense', delayed');
        k := k + 1;
      }
      if !loaded {
        TurnEnds(cfg, o, t, inside, draw, E.Outcome(View(), dense', delayed'));
      }
    }

    /** One turn of target t. */
    method ServeTarget(t: nat, inside: seq<bool>, draw: (nat, nat) -> nat, dense: int, delayed: int)
        returns (dense': int, delayed': int)
      requires Wired() && E.Shaped(cfg, View()) && t < cfg.numTargets && |inside| == WIDTH
      modifies Repr()
      ensures E.Outcome(View(), dense', delayed') == E.Serve(cfg, E.Outcome(old(View()), dense, delayed), t, inside, draw)
    {
      hide E.Trade, E.Look, E.Shaped, E.ValidConfig;
      assert View().rows[t] == RowAt(t);
      assert targets[t] in targets;
      dense', delayed' := Trade(t, goals[t], inside, draw, dense, delayed);
      Look(t, inside);
    }

    /** Every tracked target loses one unit of bounty; charged counts those that had one. */
    method DecayBounties(tracked: seq<bool>) returns (charged: int)
      requires Wired() && E.Shaped(cfg, View()) && |tracked| == cfg.numTargets
      modifies bounties
      ensures E.Outcome(View(), 0 - charged, 0) == E.Opened(old(View()), tracked)
    {
      hide E.Shaped, E.Paying;
      ghost var before := View();
      ghost var worth := bounties[..];
      charged := DecayAll(bounties, tracked);
      forall i | 0 <= i < cfg.numTargets
        ensures RowAt(i) == E.DecayedRow(before.rows[i], tracked[i]) && worth[i] == before.rows[i].bounty
      {
        assert before.rows[i] == old(RowAt(i));
      }
      PayingByWorth(before.rows, worth, tracked);
      assert Rows() == E.Decay(before, tracked).rows;
    }

    /** The flags of the targets that finished a task in this call. */
    method MarkDones(oldGoals: seq<int>, ghost before: seq<E.Row>)
      requires Wired() && |oldGoals| == |before| == cfg.numTargets
      requires forall t :: 0 <= t < cfg.numTargets ==> oldGoals[t] == before[t].goal
      modifies dones
      ensures View() == old(View()).(rows := E.MarkDone(before, old(View()).rows))
    {
      ghost var state := View();
      for t := 0 to cfg.numTargets
        invariant forall i :: 0 <= i < t ==> dones[i] == (goals[i] != oldGoals[i] && 0 <= oldGoals[i])
      {
        dones[t] := goals[t] != oldGoals[t] && 0 <= oldGoals[t];
      }
      forall i | 0 <= i < cfg.numTargets
        ensures RowAt(i) == E.MarkDone(before, state.rows)[i]
      {
        assert state.rows[i] == old(RowAt(i));
        assert WiredTarget(i);
      }
      assert Rows() == E.MarkDone(before, state.rows);
    }

    /** All targets are served, in order. */
    method ServeAll(input: E.Input, ghost start: E.Outcome, charged: int) returns (dense: int, delayed: int)
      requires Wired() && E.Shaped(cfg, View()) && E.ShapedInput(cfg, input)
      requires start == E.Outcome(View(), 0 - charged, 0)
      modifies Repr()
      ensures E.Outcome(View(), dense, delayed) == E.ServeFirst(cfg, start, cfg.numTargets, input)
    {
      hide E.Serve, E.ServeFirst, E.Shaped, Wired, View, Repr;
      dense, delayed := 0 - charged, 0;
      NoneServed(cfg, start, input);
      for t := 0 to cfg.numTargets
        invariant E.Shaped(cfg, View())
        invariant E.Outcome(View(), dense, delayed) == E.ServeFirst(cfg, start, t, input)
      {
        NextServed(cfg, start, t, input);
        dense, delayed := ServeTarget(t, input.inside[t], input.draw, dense, delayed);
      }
    }

    /** The goal assignment: bounties decay, all targets are served, and both team rewards
        of the call are returned. */
    method AssignGoals(input: E.Input) returns (dense: int, delayed: int)
      requires Wired() && E.Shaped(cfg, View()) && E.ShapedInput(cfg, input)
      modifies Repr()
      ensures E.Outcome(View(), dense, delayed) == E.AssignGoals(cfg, old(View()), input)
    {
      hide E.ServeFirst, E.MarkDone;
      ghost var before := View();
      var oldGoals := goals[..];
      assert forall t :: 0 <= t < cfg.numTargets ==> oldGoals[t] == RowAt(t).goal == before.rows[t].goal;
      var charged := DecayBounties(input.tracked);
      ghost var start := E.Opened(before, input.tracked);
      assert E.Shaped(cfg, start.state);
      dense, delayed := ServeAll(input, start, charged);
      MarkDones(oldGoals, before.rows);
    }

    /** The steps since each target took its load, and those in which it was tracked. */
    method Tick(tracked: seq<bool>)
      requires Wired() && |tracked| == cfg.numTargets
      modifies targetSteps, trackedSteps
      ensures View() == old(View()).(rows := E.Ticked(old(View()).rows, tracked))
    {
      ghost var state := View();
      for t := 0 to cfg.numTargets
        invariant forall i :: 0 <= i < t ==>
          targetSteps[i] == old(targetSteps[i]) + 1 && trackedSteps[i] == old(trackedSteps[i]) + E.Bit(tracked[i])
        invariant forall i :: t <= i < cfg.numTargets ==>
          targetSteps[i] == old(targetSteps[i]) && trackedSteps[i] == old(trackedSteps[i])
      {
        targetSteps[t] := targetSteps[t] + 1;
        trackedSteps[t] := trackedSteps[t] + E.Bit(tracked[t]);
      }
      forall i | 0 <= i < cfg.numTargets
        ensures RowAt(i) == E.Ticked(state.rows, tracked)[i]
      {
        assert state.rows[i] == old(RowAt(i));
        assert WiredTarget(i);
      }
      assert Rows() == E.Ticked(state.rows, tracked);
    }

    /** One step of the episode, after the entities have moved.  The game is zero-sum, and a
        sparse environment reports the delayed reward instead of the dense one. */
    method Step(input: E.Input, sparse: bool) returns (cameraReward: int, targetReward: int, done: bool)
      requires Wired() && E.Shaped(cfg, View()) && E.ShapedInput(cfg, input)
      modifies Repr()
      ensures View() == E.Step(cfg, old(View()), input)
      ensures targetReward == if sparse then delayedTotal - old(delayedTotal) else denseTotal - old(denseTotal)
      ensures cameraReward + targetReward == 0
      ensures done == E.Done(cfg, View())
    {
      hide E.AssignGoals, E.Ticked, E.Step, E.Shaped, E.ShapedInput, E.ValidConfig;
      ghost var before := View();
      var dense, delayed := AssignGoals(input);
      I.AssignGoalsOnlyPays(cfg, before, input);
      StepIs(cfg, before, input);
      ghost var served := View();
      AddRewards(dense, delayed);
      ghost var rewarded := View();
      assert rewarded == served.(dense := before.dense + dense, delayed := before.delayed + delayed);
      targetReward := if sparse then delayed else dense;
      cameraReward := 0 - targetReward;
      Tick(input.tracked);
      ghost var ticked := View();
      assert ticked == rewarded.(rows := E.Ticked(served.rows, input.tracked));
      done := Advance();
      assert View() == ticked.(clock := before.clock + 1);
    }

    method AddRewards(dense: int, delayed: int)
      requires Wired()
      modifies this`denseTotal, this`delayedTotal
      ensures View() == old(View()).(dense := old(denseTotal) + dense, delayed := old(delayedTotal) + delayed)
    {
      denseTotal := denseTotal + dense;
      delayedTotal := delayedTotal + delayed;
      assert Rows() == old(Rows());
    }

    /** The clock advances, and the episode may be over. */
    method Advance() returns (done: bool)
      requires Wired()
      modifies this`episodeStep
      ensures View() == old(View()).(clock := old(episodeStep) + 1)
      ensures done == E.Done(cfg, View())
    {
      episodeStep := episodeStep + 1;
      assert Rows() == old(Rows());
      var anyAwaited := exists w :: 0 <= w < awaiting.Length && awaiting[w] != 0;
      done := !(episodeStep <= cfg.maxSteps && anyAwaited);
    }

    // -------------------------------------------------------------------- reset

    /** All records of all targets are cleared, and the capacities are set. */
    method ClearTargets(heavy: set<nat>)
      requires Wired()
      modifies Repr()
      ensures Rows() == seq(cfg.numTargets, t requires 0 <= t < cfg.numTargets => E.BlankRow(t in heavy))
    {
      for t := 0 to cfg.numTargets
        invariant forall i :: 0 <= i < t ==> RowAt(i) == E.BlankRow(i in heavy)
      {
        ClearTarget(t, t in heavy);
      }
    }

    method ClearTarget(t: nat, heavy: bool)
      requires Wired() && t < cfg.numTargets
      modifies capacities, goalBits, goals, freights, bounties, targetSteps, trackedSteps, dones
      modifies targets[t].goalBits, targets[t].emptyBits
      ensures RowAt(t) == E.BlankRow(heavy)
      ensures forall i :: 0 <= i < cfg.numTargets && i != t ==> RowAt(i) == old(RowAt(i))
    {
      assert forall i :: 0 <= i < cfg.numTargets ==> RowAt(i) == View().rows[i];
      Clear(t);
      assert forall i :: 0 <= i < cfg.numTargets ==> RowAt(i) == View().rows[i];
      Renew(t, heavy);
    }

    /** Target t gets its capacity and forgets what it knew. */
    method Renew(t: nat, heavy: bool)
      requires Wired() && t < cfg.numTargets
      modifies capacities, dones, targets[t].emptyBits
      ensures RowAt(t) == old(RowAt(t)).(capacity := if heavy then 2 else 1, empty := [false, false, false, false], done := false)
      ensures forall i :: 0 <= i < cfg.numTargets && i != t ==> RowAt(i) == old(RowAt(i))
    {
      assert WiredTarget(t);
      capacities[t], dones[t] := if heavy then 2 else 1, false;
      var empty := targets[t].emptyBits;
      forall w | 0 <= w < WIDTH { empty[w] := false; }
      assert empty[..] == [false, false, false, false];
      assert targets[t].goalBits[..] == old(targets[t].goalBits[..]);
      forall i | 0 <= i < cfg.numTargets && i != t
        ensures RowAt(i) == old(RowAt(i))
      {
        assert WiredTarget(i) && ApartTargets(i, t);
        assert targets[i].goalBits[..] == old(targets[i].goalBits[..]);
        assert targets[i].emptyBits[..] == old(targets[i].emptyBits[..]);
      }
    }

    /** The heavy targets get slower. */
    method SetPaces(heavy: set<nat>)
      requires Wired()
      modifies paces
      ensures forall t :: 0 <= t < cfg.numTargets ==> paces[t] == E.Pace(stepSize, if t in heavy then 2 else 1)
    {
      for t := 0 to cfg.numTargets
        invariant forall i :: 0 <= i < t ==> paces[i] == E.Pace(stepSize, if i in heavy then 2 else 1)
      {
        paces[t] := E.Pace(stepSize, if t in heavy then 2 else 1);
      }
    }

    /** One round of the fill loop: every pair adds one unit. */
    method Stow(round: seq<(nat, nat)>)
      requires Wired() && E.ValidRound(cfg, round)
      modifies remaining
      ensures Stock() == E.Stow(old(Stock()), round)
    {
      for k := 0 to |round|
        invariant Stock() == E.Stow(old(Stock()), round[..k])
      {
        var (i, j) := round[k];
        assert round[k] in round;
        assert round[..k + 1][..k] == round[..k];
        var row := CellRow(remaining, i);
        SetCell(remaining, i, j, row[j] + 1);
      }
      assert round[..|round|] == round;
    }

    /** What every warehouse awaits, counted from the stock. */
    method CountAwaiting()
      requires Wired()
      modifies awaiting
      ensures awaiting[..] == E.ColumnSums(Stock())
    {
      for w := 0 to WIDTH
        invariant forall v :: 0 <= v < w ==> awaiting[v] == Sum(E.Column(Stock(), v))
      {
        var column := [CellRow(remaining, 0)[w], CellRow(remaining, 1)[w], CellRow(remaining, 2)[w], CellRow(remaining, 3)[w]];
        assert column == E.Column(Stock(), w);
        awaiting[w] := Sum(column);
      }
    }

    method ClearStock()
      requires Wired()
      modifies remaining
      ensures Stock() == [E.Zeros(), E.Zeros(), E.Zeros(), E.Zeros()]
    {
      for i := 0 to WIDTH
        invariant forall k :: 0 <= k < i ==> CellRow(remaining, k) == E.Zeros()
      {
        FillRow(remaining, i);
      }
    }

    /** The fill loop: rounds are added, none cleared, until every warehouse has stock. */
    method FillStock(input: E.ResetInput)
      requires Wired() && E.ValidReset(cfg, input)
      modifies remaining, awaiting
      ensures Stock() == E.Filled(cfg, input.rounds)
      ensures awaiting[..] == E.ColumnSums(Stock())
    {
      hide E.Stow, E.ValidRound, E.AllStocked, IsPermutation;
      ClearStock();
      NothingFilled(cfg);
      var rounds := input.rounds;
      var k := 0;
      assert rounds[..|rounds|] == rounds && rounds[..0] == [];
      var stocked := false;
      while !stocked
        invariant 0 <= k <= |rounds|
        invariant Stock() == E.Filled(cfg, rounds[..k])
        invariant stocked == E.AllStocked(Stock())
        invariant 0 < k ==> awaiting[..] == E.ColumnSums(Stock())
        decreases |rounds| - k
      {
        assert E.ValidRound(cfg, rounds[k]);
        FilledNext(cfg, rounds, k);
        Stow(rounds[k]);
        CountAwaiting();
        k := k + 1;
        stocked := E.AllStocked(Stock());
      }
    }

    /** The finishing touches after the first goal assignment: its flags and its rewards
        are dropped. */
    method DropResults()
      requires Wired()
      modifies dones, this
      ensures View() == old(View()).(rows := E.Undone(old(View()).rows), delivered := 0, dense := 0, delayed := 0)
    {
      ghost var state := View();
      for t := 0 to cfg.numTargets
        invariant View() == state.(rows := Rows())
        invariant forall i :: 0 <= i < t ==> dones[i] == false
      {
        dones[t] := false;
      }
      delivered, denseTotal, delayedTotal := 0, 0, 0;
      forall i | 0 <= i < cfg.numTargets
        ensures RowAt(i) == E.Undone(state.rows)[i]
      {
        assert state.rows[i] == old(RowAt(i));
        assert WiredTarget(i);
      }
      assert Rows() == E.Undone(state.rows);
    }

    /** A target without a load takes one from the first stocked warehouse of an order. */
    method LoadAt(t: nat, order: seq<nat>, raw: nat)
      requires Wired() && E.Shaped(cfg, View()) && t < cfg.numTargets && IsPermutation(order, E.NUM_WAREHOUSES)
      modifies Repr()
      ensures View() == E.LoadAt(cfg, old(View()), t, order, raw)
    {
      hide E.TakeLoad;
      assert targets[t] in targets;
      ghost var before := View();
      assert before.rows[t] == RowAt(t);
      if goals[t] < 0 {
        var k := 0;
        while k < |order|
          invariant 0 <= k <= |order| && View() == before
          invariant forall i :: 0 <= i < k ==> !E.Stocked(before.remaining[order[i]])
        {
          var warehouse := order[k];
          if E.Stocked(CellRow(remaining, warehouse)) {
            FirstStockedAt(order, before.remaining, k);
            TakeLoad(t, warehouse, raw);
            return;
          }
          k := k + 1;
        }
        NoneStocked(order, before.remaining);
      }
    }

    /** Everything is cleared and the warehouses are filled. */
    method Blank(input: E.ResetInput)
      requires Wired() && E.ValidReset(cfg, input)
      modifies Repr()
      ensures View() == E.Blank(cfg, input.heavy, E.Filled(cfg, input.rounds))
    {
      hide E.Filled, E.ValidReset;
      ClearTargets(input.heavy);
      Refill(input);
      ClearTotals();
    }

    method Refill(input: E.ResetInput)
      requires Wired() && E.ValidReset(cfg, input)
      modifies remaining, awaiting
      ensures View() == old(View()).(remaining := E.Filled(cfg, input.rounds), awaiting := E.ColumnSums(E.Filled(cfg, input.rounds)))
    {
      hide E.Filled, E.AllStocked, E.ValidRounds, IsPermutation, E.ShapedInput, E.ColumnSums;
      FillStock(input);
      forall i | 0 <= i < cfg.numTargets
        ensures RowAt(i) == old(RowAt(i))
      {
        assert WiredTarget(i);
      }
      assert Rows() == old(Rows());
    }

    method ClearTotals()
      requires Wired()
      modifies this
      ensures View() == old(View()).(delivered := 0, dense := 0, delayed := 0, clock := 0)
    {
      delivered, denseTotal, delayedTotal, episodeStep := 0, 0, 0, 0;
      assert Rows() == old(Rows());
    }

    /** Every target without a load is given one. */
    method LoadAll(input: E.ResetInput, ghost first: E.State)
      requires Wired() && E.Shaped(cfg, View()) && first == View()
      requires forall t :: IsPermutation(input.order(t), E.NUM_WAREHOUSES)
      modifies Repr()
      ensures View() == E.LoadFirst(cfg, first, cfg.numTargets, input.order, input.redraw)
    {
      hide E.LoadAt, E.LoadFirst, E.Shaped, IsPermutation, Wired, View, Repr;
      NoneLoaded(cfg, first, input);
      for t := 0 to cfg.numTargets
        invariant E.Shaped(cfg, View())
        invariant View() == E.LoadFirst(cfg, first, t, input.order, input.redraw)
      {
        LoadFirstNext(cfg, first, t, input);
        LoadAt(t, input.order(t), input.redraw(t));
      }
    }

    /** The cargo of a new episode. */
    method ResetCargo(input: E.ResetInput)
      requires Wired() && E.ValidReset(cfg, input)
      modifies Repr()
      ensures View() == E.Initial(cfg, input)
    {
      hide E.AssignGoals, E.LoadFirst, E.Blank, E.Filled, E.AllStocked, IsPermutation;
      ghost var blank := E.Blank(cfg, input.heavy, E.Filled(cfg, input.rounds));
      Blank(input);
      BlankTotals(cfg, input.heavy, E.Filled(cfg, input.rounds));
      I.AssignGoalsOnlyPays(cfg, blank, input.view);
      var dense, delayed := AssignGoals(input.view);
      DropResults();
      assert View() == E.FirstAssignment(cfg, input);
      if cfg.startLoaded {
        LoadAll(input, E.FirstAssignment(cfg, input));
      }
    }

    /** A reset.  The new state depends on the inputs alone, not on the episode before; and
        when targets are to start loaded, none is left without a load.  Every target is as
        slow as its capacity is large. */
    method Reset(input: E.ResetInput)
      requires Wired() && E.ValidReset(cfg, input)
      modifies Repr(), paces
      ensures View() == E.Initial(cfg, input)
      ensures cfg.startLoaded ==> forall t :: 0 <= t < cfg.numTargets ==> 0 <= goals[t]
      ensures forall t :: 0 <= t < cfg.numTargets ==> paces[t] == E.Pace(stepSize, capacities[t])
    {
      hide E.Initial, E.ValidReset, E.Pace, E.ValidConfig, View;
      SetPaces(input.heavy);
      ResetCargo(input);
      InitialRows(input);
    }

    lemma InitialRows(input: E.ResetInput)
      requires Wired() && E.ValidReset(cfg, input) && View() == E.Initial(cfg, input)
      ensures forall t :: 0 <= t < cfg.numTargets ==> capacities[t] == (if t in input.heavy then 2 else 1)
      ensures cfg.startLoaded ==> forall t :: 0 <= t < cfg.numTargets ==> 0 <= goals[t]
    {
      hide E.Initial, E.ValidReset, R.Fresh, WiredTarget, ApartTargets;
      R.ResetIsSound(cfg, input);
      forall t | 0 <= t < cfg.numTargets
        ensures capacities[t] == (if t in input.heavy then 2 else 1)
        ensures cfg.startLoaded ==> 0 <= goals[t]
      {
        assert View().rows[t] == RowAt(t);
        R.CapacitiesAtFirst(cfg, input, t);
      }
    }

    static method NewTargets(n: nat) returns (entities: seq<Target>)
      ensures |entities| == n
      ensures forall i :: 0 <= i < n ==> NewTarget(entities[i])
      ensures forall i, j :: 0 <= i < n && 0 <= j < n && i != j ==> DisjointTargets(entities[i], entities[j])
      ensures forall e :: e in entities ==> fresh(e.goalBits) && fresh(e.emptyBits)
    {
      entities := [];
      for t := 0 to n
        invariant |entities| == t
        invariant forall i :: 0 <= i < t ==> NewTarget(entities[i])
        invariant forall e :: e in entities ==> fresh(e.goalBits) && fresh(e.emptyBits)
        invariant forall i, j :: 0 <= i < t && 0 <= j < t && i != j ==> DisjointTargets(entities[i], entities[j])
      {
        var entity := new Target();
        entities := entities + [entity];
      }
    }

    static ghost predicate NewTarget(e: Target) {
      e.goalBits.Length == WIDTH && e.emptyBits.Length == WIDTH
    }

    lemma InRepr(o: object)
      ensures o in Repr() ==>
        || o in {this, capacities, remaining, awaiting, goalBits, goals, dones, targetSteps, trackedSteps, freights, bounties}
        || exists e :: e in targets && (o == e.goalBits || o == e.emptyBits)
    {
    }

    constructor (cfg: E.Config, stepSize: real)
      requires E.ValidConfig(cfg) && 0.0 < stepSize
      ensures Wired() && this.cfg == cfg && this.stepSize == stepSize && fresh(Repr()) && fresh(paces)
    {
      hide E.ValidConfig, DisjointTargets, Repr;
      var entities := NewTargets(cfg.numTargets);
      this.cfg, this.stepSize := cfg, stepSize;
      paces := new real[cfg.numTargets](_ => stepSize);
      capacities := new nat[cfg.numTargets](_ => 1);
      remaining := new nat[WIDTH, WIDTH]((_, _) => 0);
      awaiting := new int[WIDTH](_ => 0);
      goalBits := new nat[cfg.numTargets, WIDTH]((_, _) => 0);
      goals := new int[cfg.numTargets](_ => -1);
      dones := new bool[cfg.numTargets](_ => false);
      targetSteps := new nat[cfg.numTargets](_ => 0);
      trackedSteps := new nat[cfg.numTargets](_ => 0);
      freights := new int[cfg.numTargets](_ => 0);
      bounties := new int[cfg.numTargets](_ => 0);
      delivered, denseTotal, delayedTotal, episodeStep := 0, 0, 0, 0;
      targets := entities;
      new;
      assert forall i :: 0 <= i < |targets| ==> NewTarget(targets[i]);
      assert forall i :: 0 <= i < |targets| ==> WiredTarget(i);
      assert forall i, j :: 0 <= i < |targets| && 0 <= j < |targets| && i != j ==> ApartTargets(i, j);
      forall o | o in Repr()
        ensures fresh(o)
      {
        InRepr(o);
      }
    }
  }

  lemma NothingFilled(cfg: E.Config)
    ensures E.Filled(cfg, []) == [E.Zeros(), E.Zeros(), E.Zeros(), E.Zeros()] && !E.AllStocked(E.Filled(cfg, []))
  {
    assert !E.Stocked(E.Filled(cfg, [])[0]);
  }

  lemma FilledNext(cfg: E.Config, rounds: seq<seq<(nat, nat)>>, k: nat)
    requires E.ValidRounds(cfg, rounds) && k < |rounds|
    ensures E.ValidRounds(cfg, rounds[..k]) && E.ValidRounds(cfg, rounds[..k + 1]) && E.ValidRound(cfg, rounds[k])
    ensures E.ValidRound(cfg, rounds[k]) ==> E.Filled(cfg, rounds[..k + 1]) == E.Stow(E.Filled(cfg, rounds[..k]), rounds[k])
  {
    hide E.Stow, E.ValidRound;
    var more := rounds[..k + 1];
    assert more[..|more| - 1] == rounds[..k] && more[|more| - 1] == rounds[k];
  }

  lemma {:induction false} LoadFirstNext(cfg: E.Config, s: E.State, t: nat, input: E.ResetInput)
    requires E.Shaped(cfg, s) && t < cfg.numTargets && forall i :: IsPermutation(input.order(i), E.NUM_WAREHOUSES)
    ensures E.LoadFirst(cfg, s, t + 1, input.order, input.redraw)
         == E.LoadAt(cfg, E.LoadFirst(cfg, s, t, input.order, input.redraw), t, input.order(t), input.redraw(t))
  {
    hide E.LoadAt, IsPermutation, E.Shaped;
  }

  lemma NoneLoaded(cfg: E.Config, s: E.State, input: E.ResetInput)
    requires E.Shaped(cfg, s) && forall i :: IsPermutation(input.order(i), E.NUM_WAREHOUSES)
    ensures E.LoadFirst(cfg, s, 0, input.order, input.redraw) == s
  {
  }

  lemma NoneServed(cfg: E.Config, o: E.Outcome, input: E.Input)
    requires E.Shaped(cfg, o.state) && E.ShapedInput(cfg, input)
    ensures E.ServeFirst(cfg, o, 0, input) == o
  {
  }

  lemma NextServed(cfg: E.Config, o: E.Outcome, t: nat, input: E.Input)
    requires E.Shaped(cfg, o.state) && E.ShapedInput(cfg, input) && t < cfg.numTargets
    ensures E.ServeFirst(cfg, o, t + 1, input) == E.Serve(cfg, E.ServeFirst(cfg, o, t, input), t, input.inside[t], input.draw)
  {
    hide E.Serve;
  }

  lemma StepIs(cfg: E.Config, s: E.State, input: E.Input)
    requires E.Shaped(cfg, s) && E.ShapedInput(cfg, input)
    ensures var o := E.AssignGoals(cfg, s, input);
      |o.state.rows| == |input.tracked| && E.Step(cfg, s, input) == o.state.(rows := E.Ticked(o.state.rows, input.tracked),
        dense := s.dense + o.dense, delayed := s.delayed + o.delayed, clock := s.clock + 1)
  {
    hide E.AssignGoals, E.Ticked;
  }

  lemma BlankTotals(cfg: E.Config, heavy: set<nat>, stock: seq<seq<nat>>)
    requires E.ShapedStock(stock)
    ensures var s := E.Blank(cfg, heavy, stock);
      E.Shaped(cfg, s) && s.dense == 0 && s.delayed == 0 && s.delivered == 0
  {
  }

  // ------------------------------------------------------ the loop over warehouses

  /** The outcome once target t has been paid, if it was loaded, and cleared. */
  ghost function Settled(cfg: E.Config, o: E.Outcome, t: nat): (o': E.Outcome)
    requires E.Shaped(cfg, o.state) && t < cfg.numTargets
  {
    var paid := if 0 <= o.state.rows[t].goal then E.Deliver(cfg, o, t) else o;
    paid.(state := E.Clear(paid.state, t))
  }

  /** What the loop has done after the first k warehouses without a load having been taken. */
  ghost predicate Turn(cfg: E.Config, o: E.Outcome, t: nat, stands: seq<nat>, k: nat, now: E.Outcome)
    requires E.Shaped(cfg, o.state) && t < cfg.numTargets && k <= |stands|
    requires forall i :: 0 <= i < |stands| ==> stands[i] < WIDTH
  {
    var goal := o.state.rows[t].goal;
    if 0 <= goal then
      if goal in stands[..k] then now == Settled(cfg, o, t) && !E.Stocked(o.state.remaining[goal]) else now == o
    else
      && now == (if k == 0 then o else Settled(cfg, o, t))
      && forall i :: 0 <= i < k ==> !E.Stocked(o.state.remaining[stands[i]])
  }

  lemma SettledStock(cfg: E.Config, o: E.Outcome, t: nat)
    requires E.Shaped(cfg, o.state) && t < cfg.numTargets
    ensures Settled(cfg, o, t).state.remaining == o.state.remaining && E.Shaped(cfg, Settled(cfg, o, t).state)
  {
  }

  lemma TurnBegins(cfg: E.Config, o: E.Outcome, t: nat, stands: seq<nat>)
    requires E.Shaped(cfg, o.state) && t < cfg.numTargets
    requires forall i :: 0 <= i < |stands| ==> stands[i] < WIDTH
    ensures Turn(cfg, o, t, stands, 0, o)
  {
  }

  /** A loaded target passes by a warehouse that is not its goal. */
  lemma TurnSkips(cfg: E.Config, o: E.Outcome, t: nat, stands: seq<nat>, k: nat, now: E.Outcome)
    requires E.Shaped(cfg, o.state) && t < cfg.numTargets && k < |stands|
    requires forall i :: 0 <= i < |stands| ==> stands[i] < WIDTH
    requires Turn(cfg, o, t, stands, k, now) && 0 <= o.state.rows[t].goal != stands[k]
    ensures Turn(cfg, o, t, stands, k + 1, now)
  {
    assert stands[..k + 1] == stands[..k] + [stands[k]];
  }

  /** At a warehouse that matters a loaded target has not been paid before, and clearing
      an unloaded one again changes nothing. */
  lemma TurnMeets(cfg: E.Config, o: E.Outcome, t: nat, stands: seq<nat>, k: nat, now: E.Outcome)
    requires E.Shaped(cfg, o.state) && t < cfg.numTargets && k < |stands|
    requires forall i :: 0 <= i < |stands| ==> stands[i] < WIDTH
    requires forall i, j :: 0 <= i < j < |stands| ==> stands[i] < stands[j]
    requires Turn(cfg, o, t, stands, k, now)
    requires 0 <= o.state.rows[t].goal ==> o.state.rows[t].goal == stands[k]
    ensures if 0 <= o.state.rows[t].goal then now == o
            else t < |now.state.rows| && now.(state := E.Clear(now.state, t)) == Settled(cfg, o, t)
  {
  }

  lemma TurnTakes(cfg: E.Config, o: E.Outcome, t: nat, inside: seq<bool>, draw: (nat, nat) -> nat, k: nat, now: E.Outcome)
    requires E.Shaped(cfg, o.state) && t < cfg.numTargets && |inside| == WIDTH && k < |E.FlatNonzero(inside)|
    requires Turn(cfg, o, t, E.FlatNonzero(inside), k, now)
    requires var w := E.FlatNonzero(inside)[k];
      (0 <= o.state.rows[t].goal ==> o.state.rows[t].goal == w) && E.Stocked(o.state.remaining[w])
    ensures var w, s := E.FlatNonzero(inside)[k], Settled(cfg, o, t);
      && s.state.remaining == o.state.remaining && E.Shaped(cfg, s.state)
      && E.Trade(cfg, o, t, inside, draw) == s.(state := E.TakeLoad(cfg, s.state, t, w, draw(t, w)))
  {
    hide E.TakeLoad, E.Stocked;
    SettledStock(cfg, o, t);
    if o.state.rows[t].goal < 0 {
      FirstStockedAt(E.FlatNonzero(inside), o.state.remaining, k);
    }
  }

  lemma TurnPasses(cfg: E.Config, o: E.Outcome, t: nat, stands: seq<nat>, k: nat, now: E.Outcome)
    requires E.Shaped(cfg, o.state) && t < cfg.numTargets && k < |stands|
    requires forall i :: 0 <= i < |stands| ==> stands[i] < WIDTH
    requires Turn(cfg, o, t, stands, k, now)
    requires (0 <= o.state.rows[t].goal ==> o.state.rows[t].goal == stands[k]) && !E.Stocked(o.state.remaining[stands[k]])
    ensures Turn(cfg, o, t, stands, k + 1, Settled(cfg, o, t))
  {
    assert stands[..k + 1] == stands[..k] + [stands[k]];
  }

  lemma TurnEnds(cfg: E.Config, o: E.Outcome, t: nat, inside: seq<bool>, draw: (nat, nat) -> nat, now: E.Outcome)
    requires E.Shaped(cfg, o.state) && t < cfg.numTargets && |inside| == WIDTH
    requires Turn(cfg, o, t, E.FlatNonzero(inside), |E.FlatNonzero(inside)|, now)
    ensures now == E.Trade(cfg, o, t, inside, draw)
  {
    hide E.TakeLoad, E.Stocked;
    var stands := E.FlatNonzero(inside);
    assert stands[..|stands|] == stands;
    SettledStock(cfg, o, t);
    if o.state.rows[t].goal < 0 && stands != [] {
      NoneStocked(stands, o.state.remaining);
    }
  }

  lemma {:induction false} FirstStockedAt(order: seq<nat>, remaining: seq<seq<nat>>, k: nat)
    requires E.ShapedStock(remaining) && forall i :: 0 <= i < |order| ==> order[i] < WIDTH
    requires k < |order| && E.Stocked(remaining[order[k]])
    requires forall i :: 0 <= i < k ==> !E.Stocked(remaining[order[i]])
    ensures E.FirstStocked(order, remaining) == order[k]
  {
    if k > 0 {
      FirstStockedAt(order[1..], remaining, k - 1);
    }
  }

  lemma {:induction false} NoneStocked(order: seq<nat>, remaining: seq<seq<nat>>)
    requires E.ShapedStock(remaining) && forall i :: 0 <= i < |order| ==> order[i] < WIDTH
    requires forall i :: 0 <= i < |order| ==> !E.Stocked(remaining[order[i]])
    ensures E.FirstStocked(order, remaining) == WIDTH
  {
    if order != [] {
      NoneStocked(order[1..], remaining);
    }
  }
}
