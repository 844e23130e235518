/** The message store of the environment, with its queues, buffers and edge counters
    updated in place. */
module MessageBoard {
  import opened Sums
  import opened Messages

  /** A slot of a map that starts out with empty lists. */
  function Entry(m: map<nat, seq<Message>>, r: nat): seq<Message> {
    if r in m then m[r] else []
  }

  lemma PostKeeps(log: Log, m: Message, n: nat)
    requires ValidLog(log, n)
    ensures ValidLog(log.(window := log.window + [m]), n)
  {
    hide To;
    forall q | 0 <= q < n
      ensures |To(log.window, q)| <= |To(log.window + [m], q)|
    {
      ToLast(log.window, m, q);
    }
  }

  lemma PostFacts(log: Log, m: Message, n: nat, q: nat)
    requires ValidLog(log, n) && q < n
    ensures var log' := log.(window := log.window + [m]);
      && To(log'.window, q) == To(log.window, q) + (if m.recipient == Some(q) then [m] else [])
      && log.taken[q] <= |To(log'.window, q)|
      && Pending(log', q) == Pending(log, q) + (if m.recipient == Some(q) then [m] else [])
  {
    assert (log.window + [m])[..|log.window|] == log.window;
  }

  lemma PostCount(log: Log, m: Message, q: nat, p: nat)
    ensures CountFrom(To(log.window + [m], q), p)
         == CountFrom(To(log.window, q), p) + if m.recipient == Some(q) && m.sender == p then 1 else 0
  {
    assert (log.window + [m])[..|log.window|] == log.window;
    LastEdge(log.window + [m], q, p);
  }

  lemma TakenFacts(log: Log, n: nat, i: nat, r: nat)
    requires ValidLog(log, n) && i < n && r < n
    ensures ValidLog(Taken(log, i), n)
    ensures Pending(Taken(log, i), r) == if r == i then [] else Pending(log, r)
  {
  }

  /** The map holds for each recipient the messages to it. */
  ghost predicate Buffered(buffer: map<nat, seq<Message>>, log: Log, n: nat) {
    forall r :: 0 <= r < n ==> Entry(buffer, r) == To(log.window, r)
  }

  /** The map holds for each recipient the messages pending for it. */
  ghost predicate Queued(queue: map<nat, seq<Message>>, log: Log, n: nat)
    requires ValidLog(log, n)
  {
    forall r :: 0 <= r < n ==> Entry(queue, r) == Pending(log, r)
  }

  /** The matrix counts the messages from each sender to each recipient. */
  ghost predicate Counted(edges: array2<nat>, messages: seq<Message>, n: nat)
    requires edges.Length0 == edges.Length1 == n
    reads edges
  {
    forall s, r :: 0 <= s < n && 0 <= r < n ==> edges[s, r] == CountFrom(To(messages, r), s)
  }

  lemma EntryAfter(map': map<nat, seq<Message>>, r: nat, entry: seq<Message>, q: nat)
    ensures Entry(map'[r := entry], q) == if q == r then entry else Entry(map', q)
  {
  }

  lemma PostBuffered(buffer: map<nat, seq<Message>>, log: Log, m: Message, n: nat)
    requires ValidLog(log, n) && Buffered(buffer, log, n) && m.recipient.Some?
    ensures var r := m.recipient.value;
      Buffered(buffer[r := Entry(buffer, r) + [m]], log.(window := log.window + [m]), n)
  {
    hide To, ValidLog, Entry, Pending;
    var r := m.recipient.value;
    forall q | 0 <= q < n
      ensures Entry(buffer[r := Entry(buffer, r) + [m]], q) == To(log.window + [m], q)
    {
      PostFacts(log, m, n, q);
      EntryAfter(buffer, r, Entry(buffer, r) + [m], q);
      assert Entry(buffer, q) + [] == Entry(buffer, q);
    }
  }

  lemma PostQueued(queue: map<nat, seq<Message>>, log: Log, m: Message, n: nat)
    requires ValidLog(log, n) && Queued(queue, log, n) && m.recipient.Some?
    ensures ValidLog(log.(window := log.window + [m]), n)
    ensures var r := m.recipient.value;
      Queued(queue[r := Entry(queue, r) + [m]], log.(window := log.window + [m]), n)
  {
    hide To, Entry, Pending;
    PostKeeps(log, m, n);
    var r, log' := m.recipient.value, log.(window := log.window + [m]);
    forall q | 0 <= q < n
      ensures Entry(queue[r := Entry(queue, r) + [m]], q) == Pending(log', q)
    {
      PostFacts(log, m, n, q);
      EntryAfter(queue, r, Entry(queue, r) + [m], q);
      assert Entry(queue, q) + [] == Entry(queue, q);
    }
  }

  predicate AllInTeam(messages: seq<Message>, n: nat) {
    forall k :: 0 <= k < |messages| ==> InTeam(messages[k], n)
  }

  /** Message k is the first that names an agent outside the team. */
  predicate Stray(routed: seq<Message>, n: nat, k: nat) {
    k < |routed| && !InTeam(routed[k], n) && forall j :: 0 <= j < k ==> InTeam(routed[j], n)
  }

  /** What sending does to the log, recipient by recipient. */
  lemma SentIsDue(log: Log, messages: seq<Message>, n: nat, r: nat)
    requires ValidLog(log, n) && Addressed(messages, n) && r < n
    ensures var log' := Sent(log, messages, n);
      && ValidLog(log', n)
      && To(log'.window, r) == To(log.window, r) + Due(messages, n, r)
      && Pending(log', r) == Pending(log, r) + Due(messages, n, r)
      && forall s: nat :: CountFrom(To(log'.window, r), s) == CountFrom(To(log.window, r), s) + CountFrom(Due(messages, n, r), s)
  {
    hide To, Route, Accepted, Addressed, Due, CountFrom, Pending;
    MembersAreAccepted(messages, n);
    SentIsPending(log, messages, n, r);
    RouteIsDue(messages, n, r);
    forall s: nat
      ensures CountFrom(To(log.window, r) + Due(messages, n, r), s) == CountFrom(To(log.window, r), s) + CountFrom(Due(messages, n, r), s)
    {
      CountAppend(To(log.window, r), Due(messages, n, r), s);
    }
  }

  /** The store of one team. */
  class Channel {
    const size: nat
    var queue: map<nat, seq<Message>>
    var buffer: map<nat, seq<Message>>
    const edges: array2<nat>
    const totals: array2<nat>
    ghost var log: Log

    /** Queue, buffer and counters are three views of the same stream of messages. */
    ghost predicate Valid()
      reads this, edges, totals
    {
      && edges != totals
      && edges.Length0 == edges.Length1 == totals.Length0 == totals.Length1 == size
      && ValidLog(log, size)
      && Buffered(buffer, log, size) && Queued(queue, log, size)
      && Counted(edges, log.window, size) && Counted(totals, log.closed, size)
    }

    constructor (size: nat)
      ensures Valid() && this.size == size && log == Log([], [], NoneTaken(size))
      ensures fresh(edges) && fresh(totals)
    {
      this.size := size;
      queue, buffer := map[], map[];
      edges := new nat[size, size]((_, _) => 0);
      totals := new nat[size, size]((_, _) => 0);
      log := Log([], [], NoneTaken(size));
    }

    /** One routed message is queued and buffered, and then counted, which fails if sender
        or recipient is not a member of the team. */
    method Post(m: Message) returns (ok: bool)
      requires Valid() && m.recipient.Some?
      modifies this`queue, this`buffer, this`log, edges
      ensures Valid() && log == old(log).(window := old(log).window + [m])
      ensures ok <==> InTeam(m, size)
    {
      hide To, CountFrom, Pending, ValidLog, Entry, Buffered, Queued;
      PostKeeps(log, m, size);
      PostBuffered(buffer, log, m, size);
      PostQueued(queue, log, m, size);
      var s, r := m.sender, m.recipient.value;
      forall p, q | 0 <= p < size && 0 <= q < size
        ensures CountFrom(To(log.window + [m], q), p) == CountFrom(To(log.window, q), p) + if p == s && q == r then 1 else 0
      {
        PostCount(log, m, q, p);
      }
      queue := queue[r := Entry(queue, r) + [m]];
      buffer := buffer[r := Entry(buffer, r) + [m]];
      log := log.(window := log.window + [m]);
      ok := InTeam(m, size);
      if ok {
        edges[s, r] := edges[s, r] + 1;
      }
    }

    /** Posts the routed messages until one names an agent outside the team. */
    method PostAll(routed: seq<Message>) returns (ok: bool)
      requires Valid() && Direct(routed)
      modifies this`queue, this`buffer, this`log, edges
      ensures Valid() && log == old(log).(window := old(log).window + Accepted(routed, size))
      ensures ok <==> FirstStray(routed, size) == |routed|
      ensures ok <==> AllInTeam(routed, size)
    {
      hide Counted, Buffered, Queued, ValidLog;
      ok := true;
      var i := 0;
      while i < |routed| && ok
        invariant 0 <= i <= |routed|
        invariant Valid() && log == old(log).(window := old(log).window + routed[..i])
        invariant ok ==> i <= FirstStray(routed, size)
        invariant !ok ==> i == FirstStray(routed, size) + 1
        decreases |routed| - i
      {
        assert old(log).window + routed[..i] + [routed[i]] == old(log).window + routed[..i + 1];
        ok := Post(routed[i]);
        i := i + 1;
      }
      assert routed[..|routed|] == routed;
      if !ok {
        assert !InTeam(routed[FirstStray(routed, size)], size);
      }
    }

    /** Routes and posts messages.  Among members every recipient gets what is due to it, in
        order, and every edge is counted; otherwise all is queued up to the first routed
        message that names a stranger, and the call fails. */
    method Send(messages: seq<Message>) returns (ok: bool)
      requires Valid()
      modifies this`queue, this`buffer, this`log, edges
      ensures Valid() && log == Sent(old(log), messages, size)
      ensures ok <==> AllInTeam(Route(messages, size), size)
      ensures !ok ==> exists k :: Stray(Route(messages, size), size, k) && log.window == old(log).window + Route(messages, size)[..k + 1]
      ensures Addressed(messages, size) ==> ok
      ensures Addressed(messages, size) ==> forall r :: 0 <= r < size ==> Entry(queue, r) == old(Entry(queue, r)) + Due(messages, size, r)
      ensures Addressed(messages, size) ==> forall r :: 0 <= r < size ==> Entry(buffer, r) == old(Entry(buffer, r)) + Due(messages, size, r)
      ensures Addressed(messages, size) ==> forall s, r :: 0 <= s < size && 0 <= r < size ==>
        edges[s, r] == old(edges[s, r]) + CountFrom(Due(messages, size, r), s)
    {
      hide Route, Addressed, Pending, To, Due, CountFrom, Entry;
      ghost var before := log;
      var routed := Route(messages, size);
      RouteIsDirect(messages, size);
      ok := PostAll(routed);
      if !ok {
        var k := FirstStray(routed, size);
        assert Stray(routed, size, k) && !InTeam(routed[k], size);
      }
      if Addressed(messages, size) {
        RouteStaysInTeam(messages, size);
        forall r | 0 <= r < size
          ensures To(log.window, r) == To(before.window, r) + Due(messages, size, r)
          ensures Pending(log, r) == Pending(before, r) + Due(messages, size, r)
          ensures forall s :: 0 <= s < size ==> CountFrom(To(log.window, r), s) == CountFrom(To(before.window, r), s) + CountFrom(Due(messages, size, r), s)
        {
          SentIsDue(before, messages, size, r);
        }
      }
    }

    /** A recipient takes what is pending for it. */
    method Receive(index: nat) returns (messages: seq<Message>)
      requires Valid() && index < size
      modifies this`queue, this`log
      ensures Valid() && log == Taken(old(log), index)
      ensures messages == Pending(old(log), index) == old(Entry(queue, index))
      ensures forall r :: 0 <= r < size ==> Entry(queue, r) == if r == index then [] else old(Entry(queue, r))
    {
      hide To, CountFrom, Pending;
      ghost var before := log;
      messages := Entry(queue, index);
      queue := queue - {index};
      log := Taken(log, index);
      forall r | 0 <= r < size
        ensures Pending(log, r) == if r == index then [] else Pending(before, r)
        ensures ValidLog(log, size)
      {
        TakenFacts(before, size, index, r);
      }
      TakenFacts(before, size, index, index);
    }

    method ReceiveAll() returns (messages: seq<seq<Message>>)
      requires Valid()
      modifies this`queue, this`log
      ensures Valid() && log == old(log).(taken := AllTaken(old(log).window, size))
      ensures |messages| == size && forall r :: 0 <= r < size ==> messages[r] == Pending(old(log), r) == old(Entry(queue, r))
      ensures queue == map[]
    {
      messages := seq(size, r requires 0 <= r < size reads this => Entry(queue, r));
      queue := map[];
      log := log.(taken := AllTaken(log.window, size));
    }

    /** The end of a step: the info of every teammate, then the counters are added to the
        totals and everything is cleared, taken or not. */
    method Flush() returns (infos: seq<seq<Message>>, incoming: seq<int>, outgoing: seq<int>)
      requires Valid()
      modifies this`queue, this`buffer, this`log, edges, totals
      ensures Valid() && log == Flushed(old(log), size)
      ensures |infos| == |incoming| == |outgoing| == size
      ensures forall r :: 0 <= r < size ==> infos[r] == To(old(log).window, r) == old(Entry(buffer, r))
      ensures queue == map[] && buffer == map[]
      ensures forall s, r :: 0 <= s < size && 0 <= r < size ==> totals[s, r] == old(totals[s, r]) + old(edges[s, r]) && edges[s, r] == 0
      ensures forall r :: 0 <= r < size ==> incoming[r] == FromMembers(infos[r], size)
      ensures forall s :: 0 <= s < size ==> outgoing[s] == CountTo(old(log).window, s, size)
    {
      infos := seq(size, r requires 0 <= r < size reads this => Entry(buffer, r));
      incoming, outgoing := Degrees();
      AddToTotals();
      queue, buffer := map[], map[];
      log := Flushed(log, size);
      forall r | 0 <= r < size
        ensures To(log.window, r) == [] && Pending(log, r) == []
      {
        NothingPending(log, size, r);
      }
    }

    /** Row and column sums of the edge counters. */
    method Degrees() returns (incoming: seq<int>, outgoing: seq<int>)
      requires Valid()
      ensures |incoming| == |outgoing| == size
      ensures forall r :: 0 <= r < size ==> incoming[r] == FromMembers(To(log.window, r), size)
      ensures forall s :: 0 <= s < size ==> outgoing[s] == CountTo(log.window, s, size)
    {
      hide To, CountFrom, Pending, ValidLog;
      incoming, outgoing := [], [];
      for i := 0 to size
        invariant |incoming| == |outgoing| == i
        invariant forall r :: 0 <= r < i ==> incoming[r] == FromMembers(To(log.window, r), size)
        invariant forall s :: 0 <= s < i ==> outgoing[s] == CountTo(log.window, s, size)
      {
        var column := seq(size, s requires 0 <= s < size reads edges, this => edges[s, i] as int);
        var row := seq(size, r requires 0 <= r < size reads edges, this => edges[i, r] as int);
        assert column == Incoming(log.window, size, i);
        assert row == Outgoing(log.window, size, i);
        IncomingIsLength(log.window, size, i);
        OutgoingIsCount(log.window, size, i);
        incoming, outgoing := incoming + [Sum(column)], outgoing + [Sum(row)];
      }
    }

    method AddToTotals()
      requires Valid()
      modifies edges, totals
      ensures forall s, r :: 0 <= s < size && 0 <= r < size ==> edges[s, r] == 0
      ensures forall s, r :: 0 <= s < size && 0 <= r < size ==> totals[s, r] == old(totals[s, r]) + old(edges[s, r])
      ensures Counted(totals, log.closed + log.window, size)
    {
      hide To, CountFrom, Pending;
      forall s, r | 0 <= s < size && 0 <= r < size
        ensures CountFrom(To(log.closed + log.window, r), s) == CountFrom(To(log.closed, r), s) + CountFrom(To(log.window, r), s)
      {
        ToAppend(log.closed, log.window, r);
        CountAppend(To(log.closed, r), To(log.window, r), s);
      }
      forall s, r | 0 <= s < size && 0 <= r < size {
        totals[s, r] := totals[s, r] + edges[s, r];
      }
      forall s, r | 0 <= s < size && 0 <= r < size {
        edges[s, r] := 0;
      }
    }

    method Reset()
      requires Valid()
      modifies this`queue, this`buffer, this`log, edges, totals
      ensures Valid() && log == Log([], [], NoneTaken(size))
    {
      hide To, CountFrom, Pending;
      forall s, r | 0 <= s < size && 0 <= r < size {
        edges[s, r] := 0;
      }
      forall s, r | 0 <= s < size && 0 <= r < size {
        totals[s, r] := 0;
      }
      queue, buffer := map[], map[];
      log := Log([], [], NoneTaken(size));
      forall r | 0 <= r < size
        ensures To(log.window, r) == [] && Pending(log, r) == []
      {
        NothingPending(log, size, r);
      }
      forall s, r | 0 <= s < size && 0 <= r < size
        ensures CountFrom(To([], r), s) == 0
      {
        NoEdges(r, s);
      }
    }
  }

  /** One more event of a trace, and what it hands over. */
  lemma OneMoreEvent(trace: seq<Event>, k: nat, n: nat)
    requires ValidTrace(trace, n) && k < |trace|
    ensures ValidTrace(trace[..k], n) && ValidTrace(trace[..k + 1], n) && ValidEvent(trace[k], n)
    ensures LogOf(trace[..k + 1], n) == Apply(LogOf(trace[..k], n), trace[k], n)
    ensures forall r :: 0 <= r < n ==> Handed(trace[..k + 1], n, r) == HandedWith(trace[..k], trace[k], n, r)
  {
    hide Apply, ValidEvent, ValidLog, Pending;
    var more := trace[..k + 1];
    assert more[..|more| - 1] == trace[..k] && more[|more| - 1] == trace[k];
    forall r | 0 <= r < n
      ensures Handed(more, n, r) == HandedWith(trace[..k], trace[k], n, r)
    {
      assert Handed(trace[..k], n, r) + [] == Handed(trace[..k], n, r);
    }
  }

  function HandedWith(before: seq<Event>, e: Event, n: nat, r: nat): seq<Message>
    requires ValidTrace(before, n) && r < n
  {
    if e.Step? then []
    else if e == Receive(r) || e == ReceiveAll then Handed(before, n, r) + Pending(LogOf(before, n), r)
    else Handed(before, n, r)
  }

  /** Calls a fresh store with all events of a trace, and collects what each recipient is
      handed after the last step: the store's history is the meaning of the trace. */
  method Replay(channel: Channel, trace: seq<Event>) returns (handed: seq<seq<Message>>)
    requires channel.Valid() && channel.log == LogOf([], channel.size) && ValidTrace(trace, channel.size)
    modifies channel, channel.edges, channel.totals
    ensures channel.Valid() && channel.log == LogOf(trace, channel.size)
    ensures |handed| == channel.size && forall r :: 0 <= r < channel.size ==> handed[r] == Handed(trace, channel.size, r)
    ensures forall r :: 0 <= r < channel.size ==> Entry(channel.buffer, r) == handed[r] + Entry(channel.queue, r) == To(RoutedBy(SinceStep(trace), channel.size), r)
  {
    hide To, CountFrom, Pending, Handed, Apply, Sent, LogOf, HandedBy, RoutedBy, SinceStep, ValidTrace, Counted;
    var n := channel.size;
    handed := Nothing(n);
    NothingHanded(n);
    assert trace[..0] == [];
    for k := 0 to |trace|
      invariant ValidTrace(trace[..k], n) && channel.Valid() && channel.log == LogOf(trace[..k], n)
      invariant |handed| == n && forall r :: 0 <= r < n ==> handed[r] == Handed(trace[..k], n, r)
    {
      OneMoreEvent(trace, k, n);
      EventFacts(channel.log, trace[k], n);
      ghost var before, log := handed, channel.log;
      match trace[k] {
        case Send(messages) =>
          var ok := channel.Send(messages);
        case Receive(index) =>
          var taken := channel.Receive(index);
          handed := handed[index := handed[index] + taken];
        case ReceiveAll =>
          var taken := channel.ReceiveAll();
          handed := seq(n, r requires 0 <= r < n => handed[r] + taken[r]);
        case Step =>
          var infos, incoming, outgoing := channel.Flush();
          handed := Nothing(n);
      }
      forall r | 0 <= r < n
        ensures handed[r] == HandedWith(trace[..k], trace[k], n, r)
      {
        assert before[r] == Handed(trace[..k], n, r);
      }
    }
    assert trace[..|trace|] == trace;
    forall r | 0 <= r < n
      ensures Handed(trace, n, r) + Pending(channel.log, r) == To(channel.log.window, r) == To(RoutedBy(SinceStep(trace), n), r)
    {
      HandedInWindow(trace, n, r);
      HandedOnceInOrder(trace, n, r);
    }
  }

  function Nothing(n: nat): seq<seq<Message>> { seq(n, r => []) }

  lemma NothingHanded(n: nat)
    ensures ValidTrace([], n) && forall r :: 0 <= r < n ==> Handed([], n, r) == []
  {
  }

  /** What an event does to the log. */
  lemma EventFacts(log: Log, e: Event, n: nat)
    requires ValidLog(log, n) && ValidEvent(e, n)
    ensures Apply(log, e, n) == match e
      case Send(messages) => Sent(log, messages, n)
      case Receive(index) => Taken(log, index)
      case ReceiveAll => log.(taken := AllTaken(log.window, n))
      case Step => Flushed(log, n)
  {
  }

  /** The two teams. */
  class Board {
    const cameras: Channel
    const targets: Channel

    ghost predicate Valid()
      reads this, cameras, targets, cameras.edges, cameras.totals, targets.edges, targets.totals
    {
      && cameras.Valid() && targets.Valid() && cameras != targets
      && {cameras.edges, cameras.totals} !! {targets.edges, targets.totals}
    }

    constructor (numCameras: nat, numTargets: nat)
      ensures Valid() && cameras.size == numCameras && targets.size == numTargets
      ensures fresh(cameras) && fresh(targets)
    {
      cameras := new Channel(numCameras);
      targets := new Channel(numTargets);
    }

    function ChannelOf(team: Team): Channel {
      if team == CameraTeam then cameras else targets
    }

    /** Sends messages of one team; messages of different teams are refused and nothing
        is changed. */
    method Send(messages: seq<Message>) returns (ok: bool)
      requires Valid()
      modifies cameras, targets, cameras.edges, targets.edges
      ensures Valid()
      ensures (exists i, j :: 0 <= i < j < |messages| && messages[i].team != messages[j].team) ==>
        !ok && cameras.log == old(cameras.log) && targets.log == old(targets.log)
      ensures messages != [] && (forall i :: 0 <= i < |messages| ==> messages[i].team == CameraTeam) ==>
        cameras.log == Sent(old(cameras.log), messages, cameras.size) && targets.log == old(targets.log)
          && (Addressed(messages, cameras.size) ==> ok)
      ensures messages != [] && (forall i :: 0 <= i < |messages| ==> messages[i].team == TargetTeam) ==>
        targets.log == Sent(old(targets.log), messages, targets.size) && cameras.log == old(cameras.log)
          && (Addressed(messages, targets.size) ==> ok)
      ensures messages == [] ==> ok && cameras.log == old(cameras.log) && targets.log == old(targets.log)
    {
      hide Addressed, Sent;
      ok := SameTeam(messages);
      if !ok || messages == [] {
        return;
      }
      ok := ChannelOf(messages[0].team).Send(messages);
    }

    static predicate SameTeam(messages: seq<Message>) {
      forall i, j :: 0 <= i < j < |messages| ==> messages[i].team == messages[j].team
    }
  }
}
