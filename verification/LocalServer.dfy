/** One local connection: requests answered in order while a subscription interleaves events from the bus. */
module LocalServer {
  import opened Text

  datatype Topic =
    | Container | Image | Volume | Network | Sandbox | Audit | Snapshot | Session | Mcp | Distro | Metrics | Secret

  const ALL_TOPICS: set<Topic> :=
    {Container, Image, Volume, Network, Sandbox, Audit, Snapshot, Session, Mcp, Distro, Metrics, Secret}

  datatype Event = Event(topic: Topic, body: string)

  /** A line from the client. A request that is not a subscription goes to the dispatcher. */
  datatype Line =
    | Blank
    | Unparsable(raw: string)
    | Subscribe(id: int, topics: set<Topic>)
    | ApprovalsSubscribe(id: int)
    | Request(id: int)

  datatype Message = Response(to: Line) | EventNote(event: Event) | ApprovalNote(text: string)

  /** An empty topic list asks for every topic. */
  function Chosen(topics: set<Topic>): (r: set<Topic>) {
    if topics == {} then ALL_TOPICS else topics
  }

  /** `cursor` is the bus position the receiver reads next. */
  datatype Conn = Conn(topics: set<Topic>, cursor: Option<nat>, approvals: bool, out: seq<Message>)

  const NewConn := Conn({}, None, false, [])

  /** Handling a line when `published` events have been published so far. */
  function HandleLine(c: Conn, published: nat, line: Line): Conn {
    match line
    case Blank => c
    case Subscribe(_, ts) => Conn(Chosen(ts), Some(published), true, c.out + [Response(line)])
    case ApprovalsSubscribe(_) => c.(approvals := true, out := c.out + [Response(line)])
    case _ => c.(out := c.out + [Response(line)])
  }

  /** Whether the event at `cursor` is no longer kept by the bus. */
  predicate Lags(cursor: nat, published: nat, capacity: nat) {
    cursor + capacity < published
  }

  /** Receiving from the bus. A receiver that lags skips to the oldest event kept and writes nothing. Any other
      takes the next event and forwards it if it is in one of the topics. */
  function ReceiveEvent(c: Conn, bus: seq<Event>, capacity: nat): Conn
    requires c.cursor.Some? && c.cursor.value < |bus|
  {
    var k := c.cursor.value;
    if Lags(k, |bus|, capacity) then c.(cursor := Some(|bus| - capacity))
    else c.(cursor := Some(k + 1), out := c.out + Forwarded(bus[k], c.topics))
  }

  function Forwarded(e: Event, topics: set<Topic>): seq<Message> {
    if e.topic in topics then [EventNote(e)] else []
  }

  // ----- Whole runs -----

  /** Besides the connection: the lines read; the line, bus position and output length at which the subscription
      in force began; the bus positions consumed since; and whether the receiver lagged since. */
  datatype World = World(bus: seq<Event>, conn: Conn, lines: seq<Line>, opener: Line, start: nat, ackAt: nat,
                         consumed: seq<nat>, lagged: bool)

  const Connected := World([], NewConn, [], Blank, 0, 0, [], false)

  datatype Step = Publish(event: Event) | ReadLine(line: Line) | Receive | Notify(text: string)

  predicate Enabled(w: World, step: Step) {
    match step
    case Receive => w.conn.cursor.Some? && w.conn.cursor.value < |w.bus|
    case Notify(_) => w.conn.approvals
    case _ => true
  }

  function Next(w: World, capacity: nat, step: Step): World
    requires Enabled(w, step)
  {
    match step
    case Publish(e) => w.(bus := w.bus + [e])
    case ReadLine(line) =>
      var c := HandleLine(w.conn, |w.bus|, line);
      var v := w.(conn := c, lines := w.lines + [line]);
      if line.Subscribe? then v.(opener := line, start := |w.bus|, ackAt := |c.out|, consumed := [], lagged := false)
      else v
    case Receive =>
      var k := w.conn.cursor.value;
      var v := w.(conn := ReceiveEvent(w.conn, w.bus, capacity));
      if Lags(k, |w.bus|, capacity) then v.(lagged := true) else v.(consumed := w.consumed + [k])
    case Notify(t) => w.(conn := w.conn.(out := w.conn.out + [ApprovalNote(t)]))
  }

  predicate ValidRun(w: World, capacity: nat, steps: seq<Step>)
    decreases |steps|
  {
    steps == [] || (Enabled(w, steps[0]) && ValidRun(Next(w, capacity, steps[0]), capacity, steps[1..]))
  }

  function Final(w: World, capacity: nat, steps: seq<Step>): World
    requires ValidRun(w, capacity, steps)
    decreases |steps|
  {
    if steps == [] then w else Final(Next(w, capacity, steps[0]), capacity, steps[1..])
  }

  // ----- The daemon's objects -----

  class EventBus {
    var published: seq<Event>
    const capacity: nat

    constructor (capacity: nat)
      ensures published == [] && this.capacity == capacity
    {
      this.capacity, published := capacity, [];
    }

    method Publish(e: Event)
      modifies this
      ensures published == old(published) + [e]
    {
      published := published + [e];
    }

    /** A new receiver sees only what is published from now on. */
    method Subscribe() returns (cursor: nat)
      ensures cursor == |published|
    {
      cursor := |published|;
    }
  }

  class Connection {
    const bus: EventBus
    var topics: set<Topic>
    var cursor: Option<nat>
    var approvals: bool
    var out: seq<Message>

    function View(): Conn
      reads this
    {
      Conn(topics, cursor, approvals, out)
    }

    constructor (bus: EventBus)
      ensures View() == NewConn && this.bus == bus
    {
      this.bus, topics, cursor, approvals, out := bus, {}, None, false, [];
    }

    method HandleRequest(line: Line)
      modifies this
      ensures View() == HandleLine(old(View()), |bus.published|, line)
    {
      match line {
        case Blank => return;
        case Subscribe(_, ts) =>
          topics := Chosen(ts);
          var c := bus.Subscribe();
          cursor := Some(c);
          approvals := true;
        case ApprovalsSubscribe(_) => approvals := true;
        case _ =>
      }
      out := out + [Response(line)];
    }

    method DeliverEvent()
      requires cursor.Some? && cursor.value < |bus.published|
      modifies this`cursor, this`out
      ensures View() == ReceiveEvent(old(View()), bus.published, bus.capacity)
    {
      var k := cursor.value;
      if k + bus.capacity < |bus.published| {
        cursor := Some(|bus.published| - bus.capacity);
      } else {
        cursor := Some(k + 1);
        var e := bus.published[k];
        if e.topic in topics { out := out + [EventNote(e)]; }
      }
    }

    /** The select loop, for any order in which its branches become ready and events are published. */
    method HandleConnection(steps: seq<Step>)
      requires bus.published == [] && View() == NewConn && ValidRun(Connected, bus.capacity, steps)
      modifies this, bus
      ensures bus.published == Final(Connected, bus.capacity, steps).bus
      ensures View() == Final(Connected, bus.capacity, steps).conn
    {
      ghost var w := Connected;
      for i := 0 to |steps|
        invariant bus.published == w.bus && View() == w.conn
        invariant ValidRun(w, bus.capacity, steps[i..])
        invariant Final(w, bus.capacity, steps[i..]) == Final(Connected, bus.capacity, steps)
      {
        assert steps[i..][1..] == steps[i + 1..];
        w := Next(w, bus.capacity, steps[i]);
        match steps[i] {
          case Publish(e) => bus.Publish(e);
          case ReadLine(line) => HandleRequest(line);
          case Receive => DeliverEvent();
          case Notify(t) => out := out + [ApprovalNote(t)];
        }
      }
    }
  }

  // ----- What a connection's output says -----

  function Answered(out: seq<Message>): seq<Line> {
    if out == [] then []
    else Answered(out[..|out| - 1]) + if out[|out| - 1].Response? then [out[|out| - 1].to] else []
  }

  function Notes(out: seq<Message>): seq<Event> {
    if out == [] then []
    else Notes(out[..|out| - 1]) + if out[|out| - 1].EventNote? then [out[|out| - 1].event] else []
  }

  function NonBlank(lines: seq<Line>): seq<Line> {
    if lines == [] then []
    else NonBlank(lines[..|lines| - 1]) + if lines[|lines| - 1].Blank? then [] else [lines[|lines| - 1]]
  }

  /** The events in the given topics, in their order. */
  function InTopics(es: seq<Event>, topics: set<Topic>): seq<Event> {
    if es == [] then []
    else InTopics(es[..|es| - 1], topics) + if es[|es| - 1].topic in topics then [es[|es| - 1]] else []
  }

  predicate Positions(ks: seq<nat>, lo: nat, hi: nat) {
    && (forall i :: 0 <= i < |ks| ==> lo <= ks[i] < hi)
    && (forall i, j :: 0 <= i < j < |ks| ==> ks[i] < ks[j])
  }

  /** The events at the given bus positions. */
  function At(bus: seq<Event>, ks: seq<nat>): seq<Event>
    requires forall i :: 0 <= i < |ks| ==> ks[i] < |bus|
  {
    seq(|ks|, i requires 0 <= i < |ks| => bus[ks[i]])
  }

  lemma {:induction false} Write(out: seq<Message>, m: Message)
    ensures Notes(out + [m]) == Notes(out) + if m.EventNote? then [m.event] else []
    ensures Answered(out + [m]) == Answered(out) + if m.Response? then [m.to] else []
  {
  }

  lemma {:induction false} TakeOne(es: seq<Event>, e: Event, topics: set<Topic>)
    ensures InTopics(es + [e], topics) == InTopics(es, topics) + if e.topic in topics then [e] else []
  {
  }

  // ----- Invariants -----

  predicate AnsweredInv(w: World) {
    && Answered(w.conn.out) == NonBlank(w.lines)
    && (w.conn.cursor.None? ==> Notes(w.conn.out) == [])
  }

  predicate CursorInv(w: World) {
    w.conn.cursor.Some? ==>
      var c := w.conn.cursor.value;
      && w.start <= c <= |w.bus|
      && Positions(w.consumed, w.start, c)
      && |w.consumed| <= c - w.start && (w.lagged <==> |w.consumed| < c - w.start)
  }

  predicate AckInv(w: World) {
    w.conn.cursor.Some? ==>
      && 1 <= w.ackAt <= |w.conn.out|
      && w.opener.Subscribe? && w.conn.topics == Chosen(w.opener.topics)
      && w.conn.out[w.ackAt - 1] == Response(w.opener)
  }

  predicate NotesInv(w: World)
    requires CursorInv(w) && AckInv(w)
  {
    w.conn.cursor.Some? ==> Notes(w.conn.out[w.ackAt..]) == InTopics(At(w.bus, w.consumed), w.conn.topics)
  }

  predicate Inv(w: World) {
    AnsweredInv(w) && CursorInv(w) && AckInv(w) && NotesInv(w)
  }

  lemma {:induction false} ReadLineKeepsAnswered(w: World, capacity: nat, line: Line)
    requires AnsweredInv(w)
    ensures AnsweredInv(Next(w, capacity, ReadLine(line)))
  {
  }

  lemma {:induction false} ReceiveKeepsAnswered(w: World, capacity: nat)
    requires AnsweredInv(w) && Enabled(w, Receive)
    ensures AnsweredInv(Next(w, capacity, Receive))
  {
    var k := w.conn.cursor.value;
    if !Lags(k, |w.bus|, capacity) && w.bus[k].topic in w.conn.topics {
      Write(w.conn.out, EventNote(w.bus[k]));
    } else {
      assert w.conn.out + [] == w.conn.out;
    }
  }

  lemma {:induction false} NextKeepsAnswered(w: World, capacity: nat, step: Step)
    requires AnsweredInv(w) && Enabled(w, step)
    ensures AnsweredInv(Next(w, capacity, step))
  {
    match step
    case Publish(_) =>
    case ReadLine(line) => ReadLineKeepsAnswered(w, capacity, line);
    case Receive => ReceiveKeepsAnswered(w, capacity);
    case Notify(t) => Write(w.conn.out, ApprovalNote(t));
  }

  lemma {:induction false} NextKeepsCursor(w: World, capacity: nat, step: Step)
    requires CursorInv(w) && Enabled(w, step)
    ensures CursorInv(Next(w, capacity, step))
  {
  }

  lemma {:induction false} NextKeepsAck(w: World, capacity: nat, step: Step)
    requires AckInv(w) && Enabled(w, step)
    ensures AckInv(Next(w, capacity, step))
  {
  }

  lemma {:induction false} TailWrite(w: World, v: World, m: Message)
    requires CursorInv(w) && AckInv(w) && w.conn.cursor.Some?
    requires v.ackAt == w.ackAt && v.conn.out == w.conn.out + [m]
    ensures w.ackAt <= |v.conn.out|
    ensures Notes(v.conn.out[w.ackAt..]) == Notes(w.conn.out[w.ackAt..]) + if m.EventNote? then [m.event] else []
  {
    assert v.conn.out[w.ackAt..] == w.conn.out[w.ackAt..] + [m];
    Write(w.conn.out[w.ackAt..], m);
  }

  lemma {:induction false} ReceiveKeepsNotes(w: World, capacity: nat)
    requires Inv(w) && Enabled(w, Receive)
    requires CursorInv(Next(w, capacity, Receive)) && AckInv(Next(w, capacity, Receive))
    ensures NotesInv(Next(w, capacity, Receive))
  {
    var k := w.conn.cursor.value;
    var v := Next(w, capacity, Receive);
    if !Lags(k, |w.bus|, capacity) {
      var e := w.bus[k];
      assert At(v.bus, v.consumed) == At(w.bus, w.consumed) + [e];
      TakeOne(At(w.bus, w.consumed), e, w.conn.topics);
      if e.topic in w.conn.topics {
        TailWrite(w, v, EventNote(e));
      } else {
        assert v.conn.out == w.conn.out;
      }
    }
  }

  lemma {:induction false} ReadLineKeepsNotes(w: World, capacity: nat, line: Line)
    requires Inv(w)
    requires CursorInv(Next(w, capacity, ReadLine(line))) && AckInv(Next(w, capacity, ReadLine(line)))
    ensures NotesInv(Next(w, capacity, ReadLine(line)))
  {
    var v := Next(w, capacity, ReadLine(line));
    if line.Subscribe? {
      assert v.conn.out[v.ackAt..] == [] && At(v.bus, v.consumed) == [];
    } else if !line.Blank? && w.conn.cursor.Some? {
      TailWrite(w, v, Response(line));
    }
  }

  lemma {:induction false} NextKeepsNotes(w: World, capacity: nat, step: Step)
    requires Inv(w) && Enabled(w, step)
    requires CursorInv(Next(w, capacity, step)) && AckInv(Next(w, capacity, step))
    ensures NotesInv(Next(w, capacity, step))
  {
    var v := Next(w, capacity, step);
    match step
    case Publish(e) =>
      if w.conn.cursor.Some? { assert At(v.bus, v.consumed) == At(w.bus, w.consumed); }
    case ReadLine(line) => ReadLineKeepsNotes(w, capacity, line);
    case Receive => ReceiveKeepsNotes(w, capacity);
    case Notify(t) =>
      if w.conn.cursor.Some? { TailWrite(w, v, ApprovalNote(t)); }
  }

  lemma {:induction false} NextKeepsInv(w: World, capacity: nat, step: Step)
    requires Inv(w) && Enabled(w, step)
    ensures Inv(Next(w, capacity, step))
  {
    NextKeepsAnswered(w, capacity, step);
    NextKeepsCursor(w, capacity, step);
    NextKeepsAck(w, capacity, step);
    NextKeepsNotes(w, capacity, step);
  }

  /** Induction over runs: what holds at the start and is kept by every step holds at the end. */
  lemma {:induction false} RunKeeps(inv: World -> bool, w: World, capacity: nat, steps: seq<Step>)
    requires forall v, step :: inv(v) && Enabled(v, step) ==> inv(Next(v, capacity, step))
    requires inv(w) && ValidRun(w, capacity, steps)
    ensures inv(Final(w, capacity, steps))
    decreases |steps|
  {
    if steps != [] { RunKeeps(inv, Next(w, capacity, steps[0]), capacity, steps[1..]); }
  }

  lemma {:induction false} ReachableInv(capacity: nat, steps: seq<Step>)
    requires ValidRun(Connected, capacity, steps)
    ensures Inv(Final(Connected, capacity, steps))
  {
    forall v, step | Inv(v) && Enabled(v, step) ensures Inv(Next(v, capacity, step)) {
      NextKeepsInv(v, capacity, step);
    }
    RunKeeps(Inv, Connected, capacity, steps);
  }

  // ----- Main results, over every interleaving -----

  /** Every non-blank line gets exactly one response, in order. */
  lemma {:induction false} OneResponseEach(capacity: nat, steps: seq<Step>)
    requires ValidRun(Connected, capacity, steps)
    ensures Answered(Final(Connected, capacity, steps).conn.out) == NonBlank(Final(Connected, capacity, steps).lines)
  {
    ReachableInv(capacity, steps);
  }

  /** The events a line's topics ask for: all of them when it names none. */
  function Wanted(es: seq<Event>, topics: set<Topic>): seq<Event> {
    if es == [] then []
    else
      var e := es[|es| - 1];
      Wanted(es[..|es| - 1], topics) + if topics == {} || e.topic in topics then [e] else []
  }

  lemma {:induction false} EveryTopicListed(t: Topic)
    ensures t in ALL_TOPICS
  {
  }

  lemma {:induction false} ChosenWanted(es: seq<Event>, topics: set<Topic>)
    ensures InTopics(es, Chosen(topics)) == Wanted(es, topics)
  {
    if es != [] {
      ChosenWanted(es[..|es| - 1], topics);
      EveryTopicListed(es[|es| - 1].topic);
    }
  }

  /** `opener` is the last subscription among the lines. */
  predicate LastSubscription(lines: seq<Line>, opener: Line) {
    && opener.Subscribe?
    && exists i :: 0 <= i < |lines| && lines[i] == opener && forall j :: i < j < |lines| ==> !lines[j].Subscribe?
  }

  predicate OpenerInv(w: World) {
    && (w.conn.cursor.None? ==> forall i :: 0 <= i < |w.lines| ==> !w.lines[i].Subscribe?)
    && (w.conn.cursor.Some? ==> LastSubscription(w.lines, w.opener))
    && (w.conn.approvals <==> exists i :: 0 <= i < |w.lines| && (w.lines[i].Subscribe? || w.lines[i].ApprovalsSubscribe?))
  }

  lemma {:induction false} ReadLineKeepsOpener(w: World, capacity: nat, line: Line)
    requires OpenerInv(w)
    ensures OpenerInv(Next(w, capacity, ReadLine(line)))
  {
    var v := Next(w, capacity, ReadLine(line));
    assert forall i :: 0 <= i < |w.lines| ==> v.lines[i] == w.lines[i];
    assert v.lines[|w.lines|] == line;
  }

  lemma {:induction false} RunKeepsOpener(w: World, capacity: nat, steps: seq<Step>)
    requires OpenerInv(w) && ValidRun(w, capacity, steps)
    ensures OpenerInv(Final(w, capacity, steps))
    decreases |steps|
  {
    if steps != [] {
      if steps[0].ReadLine? { ReadLineKeepsOpener(w, capacity, steps[0].line); }
      RunKeepsOpener(Next(w, capacity, steps[0]), capacity, steps[1..]);
    }
  }

  /** Without a subscription no event is written. With one, the last, its acknowledgement comes first, and the events
      written after it are those its own topics ask for at increasing bus positions since the subscription. */
  lemma {:induction false} EventsFollowAck(capacity: nat, steps: seq<Step>)
    requires ValidRun(Connected, capacity, steps)
    ensures
      var w := Final(Connected, capacity, steps);
      if forall i :: 0 <= i < |w.lines| ==> !w.lines[i].Subscribe? then Notes(w.conn.out) == []
      else
        && LastSubscription(w.lines, w.opener)
        && 1 <= w.ackAt <= |w.conn.out| && w.conn.out[w.ackAt - 1] == Response(w.opener)
        && Positions(w.consumed, w.start, |w.bus|)
        && Notes(w.conn.out[w.ackAt..]) == Wanted(At(w.bus, w.consumed), w.opener.topics)
  {
    ReachableInv(capacity, steps);
    RunKeepsOpener(Connected, capacity, steps);
    var w := Final(Connected, capacity, steps);
    if w.conn.cursor.Some? { ChosenWanted(At(w.bus, w.consumed), w.opener.topics); }
  }

  /** Approval notices are written only after a line that subscribed to them, of either kind. */
  lemma {:induction false} NoticesNeedSubscription(capacity: nat, steps: seq<Step>, t: string)
    requires ValidRun(Connected, capacity, steps)
    ensures
      var w := Final(Connected, capacity, steps);
      Enabled(w, Notify(t))
      <==> exists i :: 0 <= i < |w.lines| && (w.lines[i].Subscribe? || w.lines[i].ApprovalsSubscribe?)
  {
    RunKeepsOpener(Connected, capacity, steps);
  }

  /** What one receive does: more than `capacity` events behind, it jumps to the oldest kept and loses those between;
      otherwise it consumes exactly the next one. */
  lemma {:induction false} ReceiveMeaning(w: World, capacity: nat)
    requires Inv(w) && Enabled(w, Receive)
    ensures
      var v, k := Next(w, capacity, Receive), w.conn.cursor.value;
      if |w.bus| - k > capacity
      then v.conn.cursor == Some(|w.bus| - capacity) && v.consumed == w.consumed && v.conn.out == w.conn.out
      else v.conn.cursor == Some(k + 1) && v.consumed == w.consumed + [k]
  {
  }

  /** The receiver has gone past an event without reading it exactly when it lagged. */
  lemma {:induction false} SkipsExactlyOnLag(capacity: nat, steps: seq<Step>)
    requires ValidRun(Connected, capacity, steps) && Final(Connected, capacity, steps).conn.cursor.Some?
    ensures
      var w := Final(Connected, capacity, steps);
      w.lagged <==> |w.consumed| < w.conn.cursor.value - w.start
  {
    ReachableInv(capacity, steps);
  }

  lemma {:induction false} FullPositions(ks: seq<nat>, lo: nat, hi: nat, i: nat)
    requires Positions(ks, lo, hi) && |ks| == hi - lo && i < |ks|
    ensures ks[i] >= lo + i
  {
    if i > 0 { FullPositions(ks, lo, hi, i - 1); }
  }

  lemma {:induction false} FullPositionsBelow(ks: seq<nat>, lo: nat, hi: nat, i: nat)
    requires Positions(ks, lo, hi) && |ks| == hi - lo && i < |ks|
    ensures ks[i] <= lo + i
    decreases |ks| - i
  {
    if i + 1 < |ks| { FullPositionsBelow(ks, lo, hi, i + 1); }
  }

  /** A receiver that never lagged has forwarded every event its subscription asks for that it has gone past. */
  lemma {:induction false} CompleteWithoutLag(capacity: nat, steps: seq<Step>)
    requires ValidRun(Connected, capacity, steps)
    requires Final(Connected, capacity, steps).conn.cursor.Some? && !Final(Connected, capacity, steps).lagged
    ensures
      var w := Final(Connected, capacity, steps);
      && w.start <= w.conn.cursor.value <= |w.bus| && w.ackAt <= |w.conn.out|
      && w.opener.Subscribe?
      && Notes(w.conn.out[w.ackAt..]) == Wanted(w.bus[w.start..w.conn.cursor.value], w.opener.topics)
  {
    ReachableInv(capacity, steps);
    var w := Final(Connected, capacity, steps);
    var c := w.conn.cursor.value;
    forall i: nat | i < |w.consumed| ensures w.consumed[i] == w.start + i {
      FullPositions(w.consumed, w.start, c, i);
      FullPositionsBelow(w.consumed, w.start, c, i);
    }
    assert At(w.bus, w.consumed) == w.bus[w.start..c];
    ChosenWanted(w.bus[w.start..c], w.opener.topics);
  }

  /** What has been written stays written, so the two results above hold of every earlier subscription too, up
      to the line that replaced it. */
  lemma {:induction false} OutputGrows(w: World, capacity: nat, steps: seq<Step>)
    requires ValidRun(w, capacity, steps)
    ensures w.conn.out <= Final(w, capacity, steps).conn.out
    decreases |steps|
  {
    if steps != [] {
      OutputGrows(Next(w, capacity, steps[0]), capacity, steps[1..]);
    }
  }
}
