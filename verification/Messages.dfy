/** Messages between teammates: routing, first-in-first-out delivery, buffers for the info
    of a step, and the counts of communication edges. */
module Messages {
  import opened Sums

  datatype Option<T> = None | Some(value: T)
  datatype Team = CameraTeam | TargetTeam

  /** Without a recipient a message is for all teammates. */
  datatype Message = Message(sender: nat, recipient: Option<nat>, content: string, team: Team, broadcasting: bool)

  // ---------------------------------------------------------------- routing

  /** A broadcast message copied to teammates 0 up to n, the sender included. */
  function Copies(m: Message, n: nat): seq<Message> {
    if n == 0 then [] else Copies(m, n - 1) + [m.(recipient := Some(n - 1), broadcasting := true)]
  }

  function RouteOne(m: Message, n: nat): seq<Message> {
    if m.recipient == None then Copies(m, n) else [m]
  }

  function Route(messages: seq<Message>, n: nat): seq<Message> {
    if messages == [] then []
    else Route(messages[..|messages| - 1], n) + RouteOne(messages[|messages| - 1], n)
  }

  /** The messages to one recipient, in order. */
  function To(messages: seq<Message>, r: nat): seq<Message> {
    if messages == [] then []
    else
      var m := messages[|messages| - 1];
      To(messages[..|messages| - 1], r) + if m.recipient == Some(r) then [m] else []
  }

  function CountFrom(messages: seq<Message>, s: nat): nat {
    if messages == [] then 0
    else CountFrom(messages[..|messages| - 1], s) + if messages[|messages| - 1].sender == s then 1 else 0
  }

  /** Sender and recipient of a routed message are members of a team of n. */
  predicate InTeam(m: Message, n: nat) {
    m.sender < n && m.recipient.Some? && m.recipient.value < n
  }

  /** The first message that names an agent outside the team. */
  function FirstStray(messages: seq<Message>, n: nat): (i: nat)
    ensures i <= |messages| && forall j :: 0 <= j < i ==> InTeam(messages[j], n)
    ensures i < |messages| ==> !InTeam(messages[i], n)
  {
    if messages == [] || !InTeam(messages[0], n) then 0 else 1 + FirstStray(messages[1..], n)
  }

  /** What is queued of some routed messages: all up to the first stray one, which is queued
      before it fails to be counted. */
  function Accepted(routed: seq<Message>, n: nat): seq<Message> {
    if FirstStray(routed, n) == |routed| then routed else routed[..FirstStray(routed, n) + 1]
  }

  /** Every message has a recipient. */
  predicate Direct(messages: seq<Message>) {
    forall i :: 0 <= i < |messages| ==> messages[i].recipient.Some?
  }

  lemma {:induction false} CopiesAreDirect(m: Message, n: nat)
    ensures Direct(Copies(m, n))
    ensures forall i :: 0 <= i < |Copies(m, n)| ==> Copies(m, n)[i].sender == m.sender && Copies(m, n)[i].recipient.value < n
  {
    if n > 0 {
      CopiesAreDirect(m, n - 1);
    }
  }

  lemma {:induction false} RouteIsDirect(messages: seq<Message>, n: nat)
    ensures Direct(Route(messages, n))
  {
    if messages != [] {
      RouteIsDirect(messages[..|messages| - 1], n);
      CopiesAreDirect(messages[|messages| - 1], n);
    }
  }

  /** Senders and recipients are members of a team of n. */
  predicate Addressed(messages: seq<Message>, n: nat) {
    forall i :: 0 <= i < |messages| ==> messages[i].sender < n && (messages[i].recipient.Some? ==> messages[i].recipient.value < n)
  }

  /** Among members nothing is lost: everything routed is queued. */
  lemma MembersAreAccepted(messages: seq<Message>, n: nat)
    requires Addressed(messages, n)
    ensures Accepted(Route(messages, n), n) == Route(messages, n)
  {
    RouteStaysInTeam(messages, n);
  }

  lemma {:induction false} RouteStaysInTeam(messages: seq<Message>, n: nat)
    requires Addressed(messages, n)
    ensures forall i :: 0 <= i < |Route(messages, n)| ==> InTeam(Route(messages, n)[i], n)
  {
    if messages != [] {
      RouteStaysInTeam(messages[..|messages| - 1], n);
      CopiesAreDirect(messages[|messages| - 1], n);
    }
  }

  lemma {:induction false} ToAppend(a: seq<Message>, b: seq<Message>, r: nat)
    ensures To(a + b, r) == To(a, r) + To(b, r)
  {
    if b == [] {
      assert a + b == a;
    } else {
      ToAppend(a, b[..|b| - 1], r);
      assert (a + b)[..|a + b| - 1] == a + b[..|b| - 1];
    }
  }

  lemma {:induction false} CountAppend(a: seq<Message>, b: seq<Message>, s: nat)
    ensures CountFrom(a + b, s) == CountFrom(a, s) + CountFrom(b, s)
  {
    if b == [] {
      assert a + b == a;
    } else {
      CountAppend(a, b[..|b| - 1], s);
      assert (a + b)[..|a + b| - 1] == a + b[..|b| - 1];
    }
  }

  /** A broadcast reaches every teammate exactly once, as the sender's content. */
  lemma {:induction false} BroadcastReachesAll(m: Message, n: nat, r: nat)
    requires m.recipient == None
    ensures To(RouteOne(m, n), r) == if r < n then [m.(recipient := Some(r), broadcasting := true)] else []
  {
    CopiesTo(m, n, r);
  }

  lemma ToNone(r: nat)
    ensures To([], r) == []
  {
  }

  /** The last message is the last one to its recipient. */
  lemma ToLast(messages: seq<Message>, m: Message, r: nat)
    ensures To(messages + [m], r) == To(messages, r) + if m.recipient == Some(r) then [m] else []
  {
    assert (messages + [m])[..|messages|] == messages;
  }

  lemma {:induction false} CopiesTo(m: Message, n: nat, r: nat)
    ensures To(Copies(m, n), r) == if r < n then [m.(recipient := Some(r), broadcasting := true)] else []
  {
    hide To;
    if n == 0 {
      ToNone(r);
    } else {
      CopiesTo(m, n - 1, r);
      ToLast(Copies(m, n - 1), m.(recipient := Some(n - 1), broadcasting := true), r);
    }
  }

  // ------------------------------------------------------------------ who gets what

  /** What one message means for recipient r: a message to it is for it as it is, one without
      recipient as a copy if r is of the team, and any other is not for it. */
  function DueOf(m: Message, n: nat, r: nat): seq<Message> {
    if m.recipient == Some(r) then [m]
    else if m.recipient == None && r < n then [Message(m.sender, Some(r), m.content, m.team, true)]
    else []
  }

  /** What is due to one recipient, message by message in the order sent. */
  function Due(messages: seq<Message>, n: nat, r: nat): seq<Message> {
    if messages == [] then [] else DueOf(messages[0], n, r) + Due(messages[1..], n, r)
  }

  lemma {:induction false} DueAppend(a: seq<Message>, b: seq<Message>, n: nat, r: nat)
    ensures Due(a + b, n, r) == Due(a, n, r) + Due(b, n, r)
  {
    hide DueOf;
    if a == [] {
      assert a + b == b;
    } else {
      DueAppend(a[1..], b, n, r);
      assert (a + b)[1..] == a[1..] + b && (a + b)[0] == a[0];
      assert DueOf(a[0], n, r) + (Due(a[1..], n, r) + Due(b, n, r)) == DueOf(a[0], n, r) + Due(a[1..], n, r) + Due(b, n, r);
    }
  }

  lemma DueOne(m: Message, n: nat, r: nat)
    ensures Due([m], n, r) == To(RouteOne(m, n), r)
  {
    hide To, Copies;
    assert [m][1..] == [];
    if m.recipient == None {
      CopiesTo(m, n, r);
    } else {
      ToNone(r);
      ToLast([], m, r);
      assert [] + [m] == [m];
    }
  }

  /** Routing sends to every recipient exactly what is due to it, in the order sent. */
  lemma {:induction false} RouteIsDue(messages: seq<Message>, n: nat, r: nat)
    ensures To(Route(messages, n), r) == Due(messages, n, r)
  {
    hide To, RouteOne, Due;
    if messages == [] {
      NothingDue(n, r);
    } else {
      var before, m := messages[..|messages| - 1], messages[|messages| - 1];
      assert messages == before + [m];
      RouteIsDue(before, n, r);
      ToAppend(Route(before, n), RouteOne(m, n), r);
      DueOne(m, n, r);
      DueAppend(before, [m], n, r);
    }
  }

  lemma NothingDue(n: nat, r: nat)
    ensures Due([], n, r) == [] == To([], r)
  {
  }

  /** Messages are routed one after the other, each as it would be alone. */
  lemma {:induction false} RouteAppends(a: seq<Message>, b: seq<Message>, n: nat)
    ensures Route(a + b, n) == Route(a, n) + Route(b, n)
  {
    hide RouteOne, Route;
    if b == [] {
      assert a + b == a;
      RouteNone(n);
    } else {
      var before, m := b[..|b| - 1], b[|b| - 1];
      RouteAppends(a, before, n);
      RouteLast(before, m, n);
      RouteLast(a + before, m, n);
      assert b == before + [m] && a + b == a + before + [m];
    }
  }

  lemma RouteLast(messages: seq<Message>, m: Message, n: nat)
    ensures Route(messages + [m], n) == Route(messages, n) + RouteOne(m, n)
  {
    hide RouteOne;
    assert (messages + [m])[..|messages|] == messages;
  }

  lemma RouteNone(n: nat)
    ensures Route([], n) == []
  {
  }

  /** A message alone is routed as itself, or as a copy for each member, first to last. */
  lemma {:induction false} RoutedAlone(m: Message, n: nat)
    ensures m.recipient != None ==> Route([m], n) == [m]
    ensures m.recipient == None ==> |Route([m], n)| == n
    ensures m.recipient == None ==> forall r :: 0 <= r < n ==> Route([m], n)[r] == Message(m.sender, Some(r), m.content, m.team, true)
  {
    hide Copies, Route;
    RouteLast([], m, n);
    RouteNone(n);
    assert [] + [m] == [m];
    if m.recipient == None {
      CopiesAt(m, n);
    }
  }

  lemma {:induction false} CopiesAt(m: Message, n: nat)
    ensures |Copies(m, n)| == n
    ensures forall r :: 0 <= r < n ==> Copies(m, n)[r] == Message(m.sender, Some(r), m.content, m.team, true)
  {
    if n > 0 {
      CopiesAt(m, n - 1);
    }
  }

  // ------------------------------------------------------------- the meaning of a trace

  /** What has been queued before the present step and since, and how many messages each
      recipient has taken since. */
  datatype Log = Log(closed: seq<Message>, window: seq<Message>, taken: seq<nat>)

  predicate ValidLog(log: Log, n: nat) {
    && |log.taken| == n
    && forall r :: 0 <= r < n ==> log.taken[r] <= |To(log.window, r)|
  }

  /** The messages a recipient has not taken yet. */
  function Pending(log: Log, r: nat): seq<Message>
    requires r < |log.taken| && log.taken[r] <= |To(log.window, r)|
  {
    To(log.window, r)[log.taken[r]..]
  }

  function NoneTaken(n: nat): seq<nat> { seq(n, r requires 0 <= r < n => 0) }

  function AllTaken(window: seq<Message>, n: nat): seq<nat> {
    seq(n, r requires 0 <= r < n => |To(window, r)|)
  }

  function Sent(log: Log, messages: seq<Message>, n: nat): Log {
    log.(window := log.window + Accepted(Route(messages, n), n))
  }

  function Taken(log: Log, r: nat): Log
    requires r < |log.taken|
  {
    log.(taken := log.taken[r := |To(log.window, r)|])
  }

  function Flushed(log: Log, n: nat): Log {
    Log(log.closed + log.window, [], NoneTaken(n))
  }

  datatype Event = Send(messages: seq<Message>) | Receive(index: nat) | ReceiveAll | Step

  predicate ValidEvent(e: Event, n: nat) {
    match e
    case Receive(index) => index < n
    case _ => true
  }

  predicate ValidTrace(trace: seq<Event>, n: nat) {
    forall k :: 0 <= k < |trace| ==> ValidEvent(trace[k], n)
  }

  function Apply(log: Log, e: Event, n: nat): Log
    requires ValidLog(log, n) && ValidEvent(e, n)
  {
    match e
    case Send(messages) => Sent(log, messages, n)
    case Receive(index) => Taken(log, index)
    case ReceiveAll => log.(taken := AllTaken(log.window, n))
    case Step => Flushed(log, n)
  }

  lemma ApplyKeeps(log: Log, e: Event, n: nat)
    requires ValidLog(log, n) && ValidEvent(e, n)
    ensures ValidLog(Apply(log, e, n), n)
  {
    if e.Send? {
      forall r | 0 <= r < n
        ensures |To(log.window, r)| <= |To(Apply(log, e, n).window, r)|
      {
        ToAppend(log.window, Accepted(Route(e.messages, n), n), r);
      }
    }
  }

  /** The log after a trace that begins with a reset. */
  function LogOf(trace: seq<Event>, n: nat): (log: Log)
    requires ValidTrace(trace, n)
    ensures ValidLog(log, n)
  {
    if trace == [] then Log([], [], NoneTaken(n))
    else
      var before := LogOf(trace[..|trace| - 1], n);
      ApplyKeeps(before, trace[|trace| - 1], n);
      Apply(before, trace[|trace| - 1], n)
  }

  /** What one event queues. */
  function QueuedBy(e: Event, n: nat): seq<Message> {
    if e.Send? then Accepted(Route(e.messages, n), n) else []
  }

  /** All messages queued by the sends of a trace. */
  function RoutedBy(trace: seq<Event>, n: nat): seq<Message> {
    if trace == [] then []
    else RoutedBy(trace[..|trace| - 1], n) + QueuedBy(trace[|trace| - 1], n)
  }

  /** The end of a trace after its last step. */
  function SinceStep(trace: seq<Event>): seq<Event> {
    if trace == [] || trace[|trace| - 1].Step? then []
    else SinceStep(trace[..|trace| - 1]) + [trace[|trace| - 1]]
  }

  /** What one event hands to recipient r. */
  function HandedBy(log: Log, e: Event, r: nat): seq<Message>
    requires r < |log.taken| && log.taken[r] <= |To(log.window, r)|
  {
    if e == Receive(r) || e == ReceiveAll then Pending(log, r) else []
  }

  /** Everything handed to recipient r since the last step, in order. */
  function Handed(trace: seq<Event>, n: nat, r: nat): seq<Message>
    requires ValidTrace(trace, n) && r < n
  {
    if trace == [] || trace[|trace| - 1].Step? then []
    else
      Handed(trace[..|trace| - 1], n, r)
      + HandedBy(LogOf(trace[..|trace| - 1], n), trace[|trace| - 1], r)
  }

  /** The window of the log is what has been queued since the last step, and closed holds
      the rest of what has been queued since the reset. */
  lemma {:induction false} LogIsFaithful(trace: seq<Event>, n: nat)
    requires ValidTrace(trace, n)
    ensures LogOf(trace, n).window == RoutedBy(SinceStep(trace), n)
    ensures LogOf(trace, n).closed + LogOf(trace, n).window == RoutedBy(trace, n)
  {
    hide LogOf, RoutedBy, SinceStep, Apply, QueuedBy, ValidLog, ValidEvent;
    if trace == [] {
      NothingRouted(n);
    } else {
      var before, e := trace[..|trace| - 1], trace[|trace| - 1];
      assert trace == before + [e];
      LogIsFaithful(before, n);
      LogNext(before, e, n);
      RoutedNext(before, e, n);
      SinceNext(before, e);
      ApplyQueues(LogOf(before, n), e, n);
      if e.Step? {
        NothingRouted(n);
        assert LogOf(trace, n).closed + [] == LogOf(trace, n).closed;
        assert RoutedBy(before, n) + [] == RoutedBy(before, n);
      } else {
        RoutedNext(SinceStep(before), e, n);
        var log, more := LogOf(before, n), QueuedBy(e, n);
        assert log.closed + (log.window + more) == log.closed + log.window + more;
      }
    }
  }

  lemma NothingRouted(n: nat)
    ensures LogOf([], n).window == LogOf([], n).closed == RoutedBy([], n) == []
    ensures SinceStep([]) == []
  {
  }

  lemma LogNext(before: seq<Event>, e: Event, n: nat)
    requires ValidTrace(before, n) && ValidEvent(e, n)
    ensures ValidTrace(before + [e], n) && LogOf(before + [e], n) == Apply(LogOf(before, n), e, n)
  {
    hide Apply, ValidEvent, ValidLog;
    assert (before + [e])[..|before|] == before;
  }

  lemma RoutedNext(before: seq<Event>, e: Event, n: nat)
    ensures RoutedBy(before + [e], n) == RoutedBy(before, n) + QueuedBy(e, n)
  {
    hide QueuedBy;
    assert (before + [e])[..|before|] == before;
  }

  lemma SinceNext(before: seq<Event>, e: Event)
    ensures SinceStep(before + [e]) == if e.Step? then [] else SinceStep(before) + [e]
  {
    assert (before + [e])[..|before|] == before;
  }

  lemma ApplyQueues(log: Log, e: Event, n: nat)
    requires ValidLog(log, n) && ValidEvent(e, n)
    ensures e.Step? ==> QueuedBy(e, n) == [] && Apply(log, e, n).closed == log.closed + log.window && Apply(log, e, n).window == []
    ensures !e.Step? ==> Apply(log, e, n).closed == log.closed && Apply(log, e, n).window == log.window + QueuedBy(e, n)
  {
    hide To, Accepted, Route;
    assert log.window + [] == log.window;
  }

  /** What is sent is pending after what was. */
  lemma SentIsPending(log: Log, messages: seq<Message>, n: nat, r: nat)
    requires ValidLog(log, n) && r < n
    ensures ValidLog(Sent(log, messages, n), n)
    ensures To(Sent(log, messages, n).window, r) == To(log.window, r) + To(Accepted(Route(messages, n), n), r)
    ensures Pending(Sent(log, messages, n), r) == Pending(log, r) + To(Accepted(Route(messages, n), n), r)
  {
    hide To, Route, Accepted;
    ApplyKeeps(log, Send(messages), n);
    ToAppend(log.window, Accepted(Route(messages, n), n), r);
  }

  lemma HandOver(log: Log, e: Event, n: nat, r: nat, handed: seq<Message>)
    requires ValidLog(log, n) && ValidEvent(e, n) && r < n && !e.Step?
    requires handed + Pending(log, r) == To(log.window, r) && |handed| == log.taken[r]
    ensures ValidLog(Apply(log, e, n), n)
    ensures var log', handed' := Apply(log, e, n), handed + HandedBy(log, e, r);
      handed' + Pending(log', r) == To(log'.window, r) && |handed'| == log'.taken[r]
  {
    hide To, Route, Accepted;
    ApplyKeeps(log, e, n);
    if e.Send? {
      SentIsPending(log, e.messages, n, r);
      assert handed + [] == handed;
    } else {
      assert e == Receive(r) || e == ReceiveAll ==> Pending(Apply(log, e, n), r) == [];
    }
  }

  lemma {:induction false} HandedInWindow(trace: seq<Event>, n: nat, r: nat)
    requires ValidTrace(trace, n) && r < n
    ensures Handed(trace, n, r) + Pending(LogOf(trace, n), r) == To(LogOf(trace, n).window, r)
    ensures |Handed(trace, n, r)| == LogOf(trace, n).taken[r]
  {
    hide Pending, To, HandedBy;
    if trace == [] || trace[|trace| - 1].Step? {
      NothingPending(LogOf(trace, n), n, r);
    } else {
      var before, e := trace[..|trace| - 1], trace[|trace| - 1];
      HandedInWindow(before, n, r);
      HandOver(LogOf(before, n), e, n, r, Handed(before, n, r));
    }
  }

  lemma NothingPending(log: Log, n: nat, r: nat)
    requires r < n && log.window == [] && log.taken == NoneTaken(n)
    ensures To(log.window, r) == [] && Pending(log, r) == []
  {
  }

  /** Delivery is exact: what a recipient has been handed since the last step, followed by
      what is still pending for it, is what has been routed to it since the last step, each
      message once and in the order of sending. */
  lemma HandedOnceInOrder(trace: seq<Event>, n: nat, r: nat)
    requires ValidTrace(trace, n) && r < n
    ensures Handed(trace, n, r) + Pending(LogOf(trace, n), r) == To(RoutedBy(SinceStep(trace), n), r)
  {
    hide Pending, To, Handed, LogOf;
    HandedInWindow(trace, n, r);
    LogIsFaithful(trace, n);
  }

  // ----------------------------------------------------------------- degrees

  function Incoming(messages: seq<Message>, n: nat, r: nat): seq<int> {
    seq(n, s requires 0 <= s < n => CountFrom(To(messages, r), s))
  }

  function Outgoing(messages: seq<Message>, n: nat, s: nat): seq<int> {
    seq(n, r requires 0 <= r < n => CountFrom(To(messages, r), s))
  }

  /** How many messages come from members of a team of n. */
  function FromMembers(messages: seq<Message>, n: nat): nat {
    if messages == [] then 0
    else FromMembers(messages[..|messages| - 1], n) + if messages[|messages| - 1].sender < n then 1 else 0
  }

  /** All messages come from members exactly when there are as many from members as there
      are messages. */
  lemma {:induction false} AllFromMembers(messages: seq<Message>, n: nat)
    ensures FromMembers(messages, n) <= |messages|
    ensures FromMembers(messages, n) == |messages| <==> forall i :: 0 <= i < |messages| ==> messages[i].sender < n
  {
    if messages != [] {
      AllFromMembers(messages[..|messages| - 1], n);
    }
  }

  /** The incoming edges of a recipient are as many as its messages from members: a message
      of a stranger is buffered, but not counted. */
  lemma {:induction false} IncomingIsLength(messages: seq<Message>, n: nat, r: nat)
    ensures Sum(Incoming(messages, n, r)) == FromMembers(To(messages, r), n)
  {
    IncomingCounts(To(messages, r), n);
    assert Incoming(messages, n, r) == Counts(To(messages, r), n);
  }

  /** How many messages come from each member. */
  function Counts(messages: seq<Message>, n: nat): seq<int> {
    seq(n, s requires 0 <= s < n => CountFrom(messages, s))
  }

  lemma {:induction false} IncomingCounts(messages: seq<Message>, n: nat)
    ensures Sum(Counts(messages, n)) == FromMembers(messages, n)
  {
    if messages == [] {
      SumOfZeros(Counts(messages, n));
    } else {
      var before, m := messages[..|messages| - 1], messages[|messages| - 1];
      IncomingCounts(before, n);
      if m.sender < n {
        var more := Counts(before, n)[m.sender] + 1;
        assert Counts(messages, n) == Counts(before, n)[m.sender := more];
        SumUpdate(Counts(before, n), m.sender, more);
      } else {
        assert Counts(messages, n) == Counts(before, n);
      }
    }
  }

  /** One more message adds one edge at most. */
  lemma LastEdge(messages: seq<Message>, r: nat, s: nat)
    requires messages != []
    ensures var m := messages[|messages| - 1];
      CountFrom(To(messages, r), s) == CountFrom(To(messages[..|messages| - 1], r), s)
        + if m.recipient == Some(r) && m.sender == s then 1 else 0
  {
    var m := messages[|messages| - 1];
    CountAppend(To(messages[..|messages| - 1], r), if m.recipient == Some(r) then [m] else [], s);
  }

  /** How many messages s has sent to members of a team of n. */
  function CountTo(messages: seq<Message>, s: nat, n: nat): nat {
    if messages == [] then 0
    else
      var m := messages[|messages| - 1];
      CountTo(messages[..|messages| - 1], s, n) + if m.sender == s && m.recipient.Some? && m.recipient.value < n then 1 else 0
  }

  /** The outgoing edges of a sender are as many as its messages to members. */
  lemma {:induction false} OutgoingIsCount(messages: seq<Message>, n: nat, s: nat)
    ensures Sum(Outgoing(messages, n, s)) == CountTo(messages, s, n)
  {
    hide To;
    if messages == [] {
      forall r | 0 <= r < n
        ensures Outgoing(messages, n, s)[r] == 0
      {
        NoEdges(r, s);
      }
      SumOfZeros(Outgoing(messages, n, s));
    } else {
      var before, m := messages[..|messages| - 1], messages[|messages| - 1];
      OutgoingIsCount(before, n, s);
      forall q | 0 <= q < n
        ensures Outgoing(messages, n, s)[q] == Outgoing(before, n, s)[q] + if m.recipient == Some(q) && m.sender == s then 1 else 0
      {
        LastEdge(messages, q, s);
      }
      if m.recipient.Some? && m.recipient.value < n {
        var r := m.recipient.value;
        var more := Outgoing(before, n, s)[r] + if m.sender == s then 1 else 0;
        assert Outgoing(messages, n, s) == Outgoing(before, n, s)[r := more];
        SumUpdate(Outgoing(before, n, s), r, more);
      } else {
        assert Outgoing(messages, n, s) == Outgoing(before, n, s);
      }
    }
  }

  lemma NoEdges(r: nat, s: nat)
    ensures CountFrom(To([], r), s) == 0
  {
  }
}
