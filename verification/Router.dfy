/** The multiplexer: requests keyed by stream id, futures that complete at most once, and the stream ids
    that one connection hands out. */
module Router {
  import opened Frames
  import Connection
  import Wire

  datatype Outcome = Waiting | Answered(frame: Frame) | Failed | Cancelled

  /** A future, together with the stream id it was registered under. */
  datatype Promise = Promise(streamId: nat, outcome: Outcome)

  /** The router and the connection's id counter, as a value.  `promises` are the futures ever handed out, and
      `pending` maps a stream id to the number of its future. */
  datatype Mux = Mux(counter: nat, promises: seq<Promise>, pending: map<nat, nat>)

  const START := Mux(0, [], map[])

  datatype Event =
    | Allocate                    // next_stream_id alone: the frame then fails to encode
    | Send                        // next_stream_id, then register_request
    | Register(streamId: nat)     // register_request alone
    | Cancel(streamId: nat)       // cancel_request
    | Abandon(promise: nat)       // the waiter gives up (wait_for times out) and cancels its future
    | Arrive(frame: Frame)        // route_frame
    | FailAll

  ghost predicate Consistent(m: Mux) {
    forall s :: s in m.pending ==> m.pending[s] < |m.promises| && m.promises[m.pending[s]].streamId == s
  }

  function Settle(p: Promise, outcome: Outcome): Promise {
    if p.outcome == Waiting then p.(outcome := outcome) else p
  }

  function SettleAt(ps: seq<Promise>, i: nat, outcome: Outcome): seq<Promise> {
    seq(|ps|, j requires 0 <= j < |ps| => if j == i then Settle(ps[j], outcome) else ps[j])
  }

  function SettleAll(ps: seq<Promise>, chosen: set<nat>, outcome: Outcome): seq<Promise> {
    seq(|ps|, j requires 0 <= j < |ps| => if j in chosen then Settle(ps[j], outcome) else ps[j])
  }

  function RegisterIn(m: Mux, streamId: nat): Mux {
    m.(promises := m.promises + [Promise(streamId, Waiting)], pending := m.pending[streamId := |m.promises|])
  }

  /** The entry leaves the map and its future is settled. */
  function Remove(m: Mux, streamId: nat, outcome: Outcome): Mux {
    if streamId in m.pending
    then m.(promises := SettleAt(m.promises, m.pending[streamId], outcome), pending := m.pending - {streamId})
    else m
  }

  function Step(m: Mux, e: Event): Mux {
    match e
    case Allocate => m.(counter := Connection.NextId(m.counter))
    case Send =>
      var id := Connection.NextId(m.counter);
      RegisterIn(m.(counter := id), id)
    case Register(s) => RegisterIn(m, s)
    case Cancel(s) => Remove(m, s, Cancelled)
    case Abandon(i) => m.(promises := SettleAt(m.promises, i, Cancelled))
    case Arrive(frame) =>
      if frame.header.streamId == 0 then m else Remove(m, frame.header.streamId, Answered(frame))
    case FailAll => m.(promises := SettleAll(m.promises, m.pending.Values, Failed), pending := map[])
  }

  function Run(m: Mux, evs: seq<Event>): Mux {
    if |evs| == 0 then m else Step(Run(m, evs[..|evs| - 1]), evs[|evs| - 1])
  }

  // ---------------------------------------------------------------- handlers

  /** A call of the global handler number `index`, or of the notification handler for `opcode`. */
  datatype Call = Global(index: nat, frame: Frame) | Notify(opcode: int, frame: Frame)

  /** The body type under which a handler may be found: a number that is not zero.  True is Python's 1, and a float
      that is a whole number is that number. */
  function NotifyCode(frame: Frame): Wire.Option<int> {
    if !frame.metadata.Table? || "body_type" !in frame.metadata.fields then Wire.None else
    match frame.metadata.fields["body_type"]
    case Number(n) => if n != 0 then Wire.Some(n) else Wire.None
    case Truth(b) => if b then Wire.Some(1) else Wire.None
    case Float(x) => if x != 0.0 && x == x.Floor as real then Wire.Some(x.Floor) else Wire.None
    case _ => Wire.None
  }

  /** The body type of a frame whose metadata is no table cannot be asked for; one that is a list or a table, and not
      empty, cannot be looked up. */
  predicate Unroutable(frame: Frame) {
    !frame.metadata.Table?
    || ("body_type" in frame.metadata.fields
        && match frame.metadata.fields["body_type"]
           case Items(items) => items != []
           case Table(fields) => fields != map[]
           case _ => false)
  }

  lemma UnroutableHasNoCode(frame: Frame)
    ensures Unroutable(frame) ==> NotifyCode(frame).None?
  {
  }

  /** The handlers that a frame is shown to, in order. */
  function CallsFor(globals: nat, notified: set<int>, frame: Frame): seq<Call> {
    GlobalCalls(globals, frame)
      + if frame.header.streamId == 0 && NotifyCode(frame).Some? && NotifyCode(frame).value in notified
        then [Notify(NotifyCode(frame).value, frame)] else []
  }

  function GlobalCalls(globals: nat, frame: Frame): seq<Call> {
    if globals == 0 then [] else GlobalCalls(globals - 1, frame) + [Global(globals - 1, frame)]
  }

  lemma {:induction false} GlobalCallsAt(globals: nat, frame: Frame)
    ensures |GlobalCalls(globals, frame)| == globals
    ensures forall k :: 0 <= k < globals ==> GlobalCalls(globals, frame)[k] == Global(k, frame)
  {
    if globals > 0 {
      GlobalCallsAt(globals - 1, frame);
    }
  }

  /** Every frame is shown to all global handlers, in order; and then to a notification handler exactly if it is a
      push with a body type, not zero, for which one is registered. */
  lemma HandlersReached(globals: nat, notified: set<int>, frame: Frame, opcode: int)
    requires frame.metadata.Table? && "body_type" in frame.metadata.fields
    requires frame.metadata.fields["body_type"] == Number(opcode)
    ensures var calls := CallsFor(globals, notified, frame);
            && (forall k :: 0 <= k < globals ==> k < |calls| && calls[k] == Global(k, frame))
            && calls[globals..] == if frame.header.streamId == 0 && opcode != 0 && opcode in notified
                                   then [Notify(opcode, frame)] else []
  {
    GlobalCallsAt(globals, frame);
  }

  /** What the read loop sees of the router: it raises on nothing but a push that it cannot route. */
  function Reaction(frame: Frame): Connection.Reaction {
    if frame.header.streamId == 0 && Unroutable(frame) then Connection.Raises else Connection.Returns
  }

  // ---------------------------------------------------------------- the classes

  class Future {
    const streamId: nat
    ghost const number: nat       // its position among the futures handed out
    var outcome: Outcome

    constructor (streamId: nat, ghost number: nat)
      ensures this.streamId == streamId && this.number == number && outcome == Waiting
    {
      this.streamId := streamId;
      this.number := number;
      outcome := Waiting;
    }

    /** `set_result`, `set_exception` and `cancel`, behind the source's `if not future.done()`. */
    method Complete(o: Outcome)
      modifies this
      ensures outcome == if old(outcome) == Waiting then o else old(outcome)
    {
      if outcome == Waiting {
        outcome := o;
      }
    }
  }

  class FrameRouter {
    var pendingRequests: map<nat, Future>
    var notifyHandlers: set<int>        // the opcodes with a notification handler
    var globalHandlers: nat             // how many global handlers there are
    var calls: seq<Call>                // what the handlers have been called with
    ghost var futures: seq<Future>      // every future ever handed out

    ghost predicate Valid()
      reads this
    {
      && (forall i :: 0 <= i < |futures| ==> futures[i].number == i)
      && (forall s :: s in pendingRequests ==> pendingRequests[s] in futures && pendingRequests[s].streamId == s)
    }

    /** The router as a value, beside a connection whose counter stands at `counter`. */
    ghost function Value(counter: nat): Mux
      reads this, futures
    {
      Mux(counter, PromisesOf(futures), map s | s in pendingRequests :: pendingRequests[s].number)
    }

    constructor ()
      ensures Valid() && Value(0) == START
      ensures notifyHandlers == {} && globalHandlers == 0 && calls == []
    {
      pendingRequests, futures := map[], [];
      notifyHandlers, globalHandlers, calls := {}, 0, [];
    }

    method RegisterNotifyHandler(opcode: int)
      modifies this`notifyHandlers
      ensures notifyHandlers == old(notifyHandlers) + {opcode}
    {
      notifyHandlers := notifyHandlers + {opcode};
    }

    method AddGlobalHandler()
      modifies this`globalHandlers
      ensures globalHandlers == old(globalHandlers) + 1
    {
      globalHandlers := globalHandlers + 1;
    }

    method RegisterRequest(streamId: nat) returns (future: Future)
      requires Valid()
      modifies this`pendingRequests, this`futures
      ensures Valid() && fresh(future) && future.outcome == Waiting && future.streamId == streamId
      ensures futures == old(futures) + [future]
      ensures forall c :: Value(c) == Step(old(Value(c)), Register(streamId))
    {
      future := new Future(streamId, |futures|);
      pendingRequests := pendingRequests[streamId := future];
      futures := futures + [future];
    }

    /** The entry of a stream id leaves, and its future is completed unless it is done. */
    method Withdraw(streamId: nat, outcome: Outcome)
      requires Valid()
      modifies this`pendingRequests, futures
      ensures Valid() && futures == old(futures)
      ensures forall c :: Value(c) == Remove(old(Value(c)), streamId, outcome)
    {
      if streamId in pendingRequests {
        var future := pendingRequests[streamId];
        pendingRequests := pendingRequests - {streamId};
        future.Complete(outcome);
      }
    }

    method CancelRequest(streamId: nat)
      requires Valid()
      modifies this`pendingRequests, futures
      ensures Valid() && futures == old(futures)
      ensures forall c :: Value(c) == Step(old(Value(c)), Cancel(streamId))
    {
      hide Remove;
      Withdraw(streamId, Cancelled);
    }

    method CallGlobalHandlers(frame: Frame)
      modifies this`calls
      ensures calls == old(calls) + GlobalCalls(globalHandlers, frame)
    {
      for i := 0 to globalHandlers
        invariant calls == old(calls) + GlobalCalls(i, frame)
      {
        calls := calls + [Global(i, frame)];
      }
    }

    method RouteFrame(frame: Frame) returns (reaction: Connection.Reaction)
      requires Valid()
      modifies this`pendingRequests, this`calls, futures
      ensures Valid() && futures == old(futures) && reaction == Reaction(frame)
      ensures calls == old(calls) + CallsFor(globalHandlers, notifyHandlers, frame)
      ensures forall c :: Value(c) == Step(old(Value(c)), Arrive(frame))
    {
      hide Remove, GlobalCalls, NotifyCode, Unroutable, PromisesOf;
      CallGlobalHandlers(frame);
      if frame.header.streamId == 0 {
        UnroutableHasNoCode(frame);
        if Unroutable(frame) {
          assert calls == old(calls) + (GlobalCalls(globalHandlers, frame) + []);
          return Connection.Raises;
        }
        var opcode := NotifyCode(frame);
        if opcode.Some? && opcode.value in notifyHandlers {
          calls := calls + [Notify(opcode.value, frame)];
        }
        return Connection.Returns;
      }
      reaction := Connection.Returns;
      Withdraw(frame.header.streamId, Answered(frame));
    }

    method FailAllPending()
      requires Valid()
      modifies this`pendingRequests, futures
      ensures Valid() && futures == old(futures)
      ensures forall c :: Value(c) == Step(old(Value(c)), FailAll)
    {
      hide PromisesOf, SettleAll;
      var pending := pendingRequests;
      NumbersAreValues(pending, Value(0).pending);
      pendingRequests := map[];
      FailNumbered(pending);
      hide Numbers;
    }

    /** What the loop does to the futures as a sequence. */
    method FailNumbered(pending: map<nat, Future>)
      requires Valid() && forall s :: s in pending ==> pending[s] in futures
      modifies futures
      ensures Valid() && futures == old(futures) && pendingRequests == old(pendingRequests)
      ensures PromisesOf(futures)
           == SettleAll(old(PromisesOf(futures)), Numbers(pending, pending.Keys), Failed)
    {
      hide Numbers;
      FailEach(pending);
    }

    /** The loop of `fail_all` over the entries it has taken out of the map. */
    method FailEach(pending: map<nat, Future>)
      requires Valid() && forall s :: s in pending ==> pending[s] in futures
      modifies futures
      ensures futures == old(futures) && pendingRequests == old(pendingRequests)
      ensures forall i :: 0 <= i < |futures| ==>
        futures[i].outcome
          == if i in Numbers(pending, pending.Keys) then Settled(old(futures[i].outcome), Failed)
             else old(futures[i].outcome)
    {
      var left := pending.Keys;
      while left != {}
        invariant left <= pending.Keys
        invariant forall i :: 0 <= i < |futures| ==>
          futures[i].outcome
            == if i in Numbers(pending, pending.Keys - left) then Settled(old(futures[i].outcome), Failed)
               else old(futures[i].outcome)
      {
        var s :| s in left;
        pending[s].Complete(Failed);
        left := left - {s};
        assert Numbers(pending, pending.Keys - left)
            == Numbers(pending, pending.Keys - left - {s}) + {pending[s].number};
      }
      assert pending.Keys - left == pending.Keys;
    }
  }

  ghost function PromisesOf(futures: seq<Future>): seq<Promise>
    reads futures
  {
    seq(|futures|, i requires 0 <= i < |futures| reads futures => Promise(futures[i].streamId, futures[i].outcome))
  }

  /** How a client sends: the connection's next id, the frame, a registration under the id, and the bytes.  A frame
      that fails to encode has spent its id; bytes that fail to be written leave the registration behind. */
  method SendRequest(connection: Connection.HMMPConnection, router: FrameRouter, encoder: FrameEncoder, r: Request,
                     written: bool)
    returns (result: Wire.Result<Future>)
    requires router.Valid()
    modifies connection, router`pendingRequests, router`futures
    ensures router.Valid()
    ensures old(connection.state) != Connection.Authenticated ==>
      result == Wire.Err(Wire.Closed) && connection.streamIdCounter == old(connection.streamIdCounter)
      && router.futures == old(router.futures) && router.pendingRequests == old(router.pendingRequests)
      && connection.sent == old(connection.sent)
    ensures old(connection.state) == Connection.Authenticated ==>
      var numbered := r.(streamId := connection.streamIdCounter);
      var encoded := EncodeFrame(encoder.msgpack, encoder.clientVersion, numbered);
      && router.Value(connection.streamIdCounter)
         == Step(old(router.Value(connection.streamIdCounter)), if encoded.Ok? then Send else Allocate)
      && (encoded.Err? ==> result == Wire.Err(encoded.error) && connection.sent == old(connection.sent))
      && (encoded.Ok? ==>
            (result.Ok? <==> old(connection.reader).Some? && written)
            && connection.sent == old(connection.sent) + if result.Ok? then encoded.value else [])
    ensures result.Ok? ==>
      fresh(result.value) && result.value.outcome == Waiting && result.value.streamId == connection.streamIdCounter
  {
    hide PromisesOf, EncodeFrame, RegisterIn;
    if connection.state != Connection.Authenticated {
      return Wire.Err(Wire.Closed);
    }
    var id := connection.NextStreamId();
    var frameData :- encoder.Encode(r.(streamId := id));
    var future := router.RegisterRequest(id);
    var _ :- connection.SendFrame(frameData, written);
    result := Wire.Ok(future);
  }

  function Settled(before: Outcome, o: Outcome): Outcome {
    if before == Waiting then o else before
  }

  ghost function Numbers(pending: map<nat, Future>, ids: set<nat>): set<nat> {
    set s | s in ids && s in pending :: pending[s].number
  }

  lemma NumbersAreValues(pending: map<nat, Future>, m: map<nat, nat>)
    requires m.Keys == pending.Keys && forall s :: s in pending ==> m[s] == pending[s].number
    ensures Numbers(pending, pending.Keys) == m.Values
  {
    forall s | s in pending ensures pending[s].number in m.Values {
      assert s in m;
    }
  }

  // ---------------------------------------------------------------- at most once, and only with its own frame

  lemma StepConsistent(m: Mux, e: Event)
    requires Consistent(m)
    ensures Consistent(Step(m, e))
  {
  }

  lemma {:induction false} RunConsistent(evs: seq<Event>)
    ensures Consistent(Run(START, evs))
  {
    if |evs| > 0 {
      RunConsistent(evs[..|evs| - 1]);
      StepConsistent(Run(START, evs[..|evs| - 1]), evs[|evs| - 1]);
    }
  }

  lemma StepSettlesOnce(m: Mux, e: Event, i: nat)
    requires Consistent(m) && i < |m.promises|
    ensures i < |Step(m, e).promises|
    ensures var before, after := m.promises[i], Step(m, e).promises[i];
            && after.streamId == before.streamId
            && (before.outcome != Waiting ==> after == before)
            && (before.outcome == Waiting && after.outcome.Answered? ==>
                  e == Arrive(after.outcome.frame) && after.outcome.frame.header.streamId == before.streamId != 0)
  {
  }

  /** A future completes at most once: whatever it is completed with, no later event changes it. */
  lemma {:induction false} CompletesAtMostOnce(evs: seq<Event>, n: nat, i: nat)
    requires n <= |evs| && i < |Run(START, evs[..n]).promises|
    ensures i < |Run(START, evs).promises|
    ensures Run(START, evs).promises[i].streamId == Run(START, evs[..n]).promises[i].streamId
    ensures var early := Run(START, evs[..n]).promises[i];
            early.outcome != Waiting ==> Run(START, evs).promises[i] == early
    decreases |evs|
  {
    if n == |evs| {
      assert evs[..n] == evs;
    } else {
      var front := evs[..|evs| - 1];
      assert front[..n] == evs[..n];
      CompletesAtMostOnce(front, n, i);
      RunConsistent(front);
      StepSettlesOnce(Run(START, front), evs[|evs| - 1], i);
    }
  }

  /** A future is answered only by a frame of its own stream id, which is never the push stream 0, and only
      by a frame that arrived. */
  lemma {:induction false} AnsweredByOwnFrame(evs: seq<Event>, i: nat)
    requires i < |Run(START, evs).promises| && Run(START, evs).promises[i].outcome.Answered?
    ensures var p := Run(START, evs).promises[i];
            p.outcome.frame.header.streamId == p.streamId != 0 && Arrive(p.outcome.frame) in evs
  {
    var front, last := evs[..|evs| - 1], evs[|evs| - 1];
    assert evs == front + [last];
    RunConsistent(front);
    var m := Run(START, front);
    if i < |m.promises| {
      StepSettlesOnce(m, last, i);
      if m.promises[i].outcome != Waiting {
        AnsweredByOwnFrame(front, i);
      }
    }
  }

  /** A push leaves every request as it was. */
  lemma PushTouchesNothing(m: Mux, frame: Frame)
    requires frame.header.streamId == 0
    ensures Step(m, Arrive(frame)) == m
  {
  }

  function WithoutPushes(evs: seq<Event>): seq<Event> {
    if |evs| == 0 then [] else
    var last := evs[|evs| - 1];
    WithoutPushes(evs[..|evs| - 1]) + if last.Arrive? && last.frame.header.streamId == 0 then [] else [last]
  }

  /** Pushes make no difference to a run: without them it reaches the same futures, entries and stream ids. */
  lemma {:induction false} PushesChangeNoRun(m: Mux, evs: seq<Event>)
    ensures Run(m, WithoutPushes(evs)) == Run(m, evs)
  {
    if |evs| > 0 {
      hide Step;
      var front, last := evs[..|evs| - 1], evs[|evs| - 1];
      PushesChangeNoRun(m, front);
      if last.Arrive? && last.frame.header.streamId == 0 {
        PushTouchesNothing(Run(m, front), last.frame);
        assert WithoutPushes(evs) == WithoutPushes(front);
      } else {
        var kept := WithoutPushes(evs);
        assert kept == WithoutPushes(front) + [last];
        assert kept[..|kept| - 1] == WithoutPushes(front);
      }
    }
  }

  // ---------------------------------------------------------------- behind the read loop

  /** The router as a frame handler; it does not count its calls. */
  function Routing(n: nat, frame: Frame): Connection.Reaction {
    Reaction(frame)
  }

  lemma RouterNeverRaisesClosed(n: nat, frames: seq<Frame>)
    ensures !Connection.EndsIn(Routing, n, frames, Connection.RaisesClosed)
  {
  }

  /** A connection whose frames go to the router always ends disconnected, with one call of the close handler, and
      the router sees every frame of the stream exactly if none but perhaps the last is a push that it cannot
      route. */
  lemma RouterSeesAll(mp: Msgpack, l: Connection.Link, n: nat)
    requires || l.state == Connection.Pending || l.state == Connection.Authenticating
             || l.state == Connection.Authenticated
    requires l.reader.Some?
    ensures var (last, seen) := Connection.Serve(mp, Wire.Some(Routing), l, n);
            var frames := Connection.ReadAll(mp, l.reader.value.data).frames;
            && last == Connection.Link(Connection.Disconnected, Wire.None, true, l.closeCalls + 1)
            && (seen == frames
                <==> forall i :: 0 <= i < |frames| - 1 ==> frames[i].header.streamId != 0 || !Unroutable(frames[i]))
  {
    var frames := Connection.ReadAll(mp, l.reader.value.data).frames;
    Connection.ServeDelivers(mp, Wire.Some(Routing), l, n);
    Connection.HearsAll(Routing, n, frames);
    RouterNeverRaisesClosed(n, frames);
    RaisesOnPushes(n, frames);
    hide Connection.Serve, Connection.ReadAll, Connection.Heard, Connection.EndsIn, Connection.RaisesAtMostLast;
    hide Unroutable, Routing;
  }

  lemma RaisesOnPushes(n: nat, frames: seq<Frame>)
    ensures Connection.RaisesAtMostLast(Routing, n, frames)
       <==> forall i :: 0 <= i < |frames| - 1 ==> frames[i].header.streamId != 0 || !Unroutable(frames[i])
  {
    hide Unroutable;
    if forall i :: 0 <= i < |frames| - 1 ==> Routing(n + i, frames[i]) == Connection.Returns {
      forall i | 0 <= i < |frames| - 1 ensures frames[i].header.streamId != 0 || !Unroutable(frames[i]) {
        assert Routing(n + i, frames[i]) == Connection.Returns;
      }
    }
  }

  // ---------------------------------------------------------------- stream ids and live entries

  /** What one connection does: every registration takes the next stream id. */
  ghost predicate OneConnection(evs: seq<Event>) {
    forall e :: e in evs ==> !e.Register?
  }

  lemma OneConnectionParts(evs: seq<Event>)
    requires |evs| > 0 && OneConnection(evs)
    ensures OneConnection(evs[..|evs| - 1]) && !evs[|evs| - 1].Register?
  {
    assert evs[|evs| - 1] in evs;
  }

  /** How many stream ids the run has handed out. */
  function Allocations(evs: seq<Event>): nat {
    if |evs| == 0 then 0
    else Allocations(evs[..|evs| - 1]) + if evs[|evs| - 1].Send? || evs[|evs| - 1].Allocate? then 1 else 0
  }

  /** For each future the number of its stream id among all that were handed out, counted from 0. */
  function Births(evs: seq<Event>): seq<nat> {
    if |evs| == 0 then []
    else Births(evs[..|evs| - 1]) + if evs[|evs| - 1].Send? then [Allocations(evs[..|evs| - 1])] else []
  }

  /** How many stream ids there are. */
  const CYCLE := 0x7FFF_FFFF

  /** The stream id of allocation number `i`, counted from 0. */
  function IdOf(i: nat): nat {
    i % CYCLE + 1
  }

  lemma NextIdCycles(n: nat)
    ensures Connection.NextId(if n == 0 then 0 else IdOf(n - 1)) == IdOf(n)
  {
    if n > 0 {
      var q := (n - 1) / CYCLE;
      assert n - 1 == CYCLE * q + (n - 1) % CYCLE;
    }
  }

  ghost predicate IdsInOrder(m: Mux, allocations: nat, births: seq<nat>) {
    && m.counter == (if allocations == 0 then 0 else IdOf(allocations - 1))
    && |m.promises| == |births|
    && (forall i :: 0 <= i < |births| ==> births[i] < allocations && m.promises[i].streamId == IdOf(births[i]))
    && (forall i, j :: 0 <= i < j < |births| ==> births[i] < births[j])
  }

  lemma StepKeepsIds(m: Mux, e: Event, allocations: nat, births: seq<nat>)
    requires IdsInOrder(m, allocations, births) && !e.Register?
    ensures IdsInOrder(Step(m, e), allocations + (if e.Send? || e.Allocate? then 1 else 0),
                       births + if e.Send? then [allocations] else [])
  {
    NextIdCycles(allocations);
    hide IdOf, Connection.NextId;
    assert births + [] == births;
  }

  /** On one connection, allocation number `i` is for stream id (i mod (2^31 - 1)) + 1, and the futures are those of
      the allocations that were not wasted, in order. */
  lemma {:induction false} IdsCycle(evs: seq<Event>)
    requires OneConnection(evs)
    ensures IdsInOrder(Run(START, evs), Allocations(evs), Births(evs))
  {
    if |evs| > 0 {
      var front, last := evs[..|evs| - 1], evs[|evs| - 1];
      OneConnectionParts(evs);
      hide IdsInOrder, Step, OneConnection;
      IdsCycle(front);
      StepKeepsIds(Run(START, front), last, Allocations(front), Births(front));
    }
  }

  /** Two allocations have one stream id exactly when they are whole cycles apart. */
  lemma IdsMeet(i: nat, j: nat)
    requires i <= j
    ensures IdOf(i) == IdOf(j) <==> (j - i) % CYCLE == 0
  {
    var max := CYCLE;
    var a, b := i / max, j / max;
    assert i == max * a + i % max && j == max * b + j % max;
    if i % max == j % max {
      assert j - i == max * (b - a);
      WholeCycles(j - i, b - a);
    } else if (j - i) % max == 0 {
      var c := (j - i) / max;
      assert j - i == max * c;
      WholeCycles(j % max - i % max, c - b + a);
    }
  }

  lemma WholeCycles(d: int, k: int)
    requires d == CYCLE * k
    ensures d % CYCLE == 0
    ensures -CYCLE < d < CYCLE ==> d == 0
  {
  }

  /** Every future is either done or still the pending entry of its stream id. */
  ghost predicate NoneLost(m: Mux) {
    forall i :: 0 <= i < |m.promises| && m.promises[i].outcome == Waiting ==>
      m.promises[i].streamId in m.pending && m.pending[m.promises[i].streamId] == i
  }

  /** Registering loses a future exactly when it overwrites one that is still waiting. */
  lemma RegisterLoses(m: Mux, s: nat)
    requires Consistent(m) && NoneLost(m)
    ensures NoneLost(Step(m, Register(s)))
       <==> (s in m.pending ==> m.promises[m.pending[s]].outcome != Waiting)
  {
    var n := RegisterIn(m, s);
    if s in m.pending && m.promises[m.pending[s]].outcome == Waiting {
      assert n.promises[m.pending[s]].outcome == Waiting;
    }
  }

  /** Future number `i` is still waiting, and a multiple of a whole cycle of stream ids, its own included, has been
      handed out since. */
  ghost predicate Blocks(m: Mux, allocations: nat, births: seq<nat>, i: nat) {
    && i < |births| == |m.promises| && m.promises[i].outcome == Waiting
    && (allocations - births[i]) % CYCLE == 0
  }

  ghost predicate Unobstructed(evs: seq<Event>) {
    forall i :: !Blocks(Run(START, evs), Allocations(evs), Births(evs), i)
  }

  /** Nothing is lost at any time during the run. */
  ghost predicate NeverLoses(evs: seq<Event>) {
    forall n :: 0 <= n <= |evs| ==> NoneLost(Run(START, evs[..n]))
  }

  /** Whenever a request is sent, no future is in its way. */
  ghost predicate NoneInTheWay(evs: seq<Event>) {
    forall n :: 0 <= n < |evs| && evs[n] == Send ==> Unobstructed(evs[..n])
  }

  predicate WaitsUnder(m: Mux, id: nat, i: nat) {
    i < |m.promises| && m.promises[i].streamId == id && m.promises[i].outcome == Waiting
  }

  lemma SendOverwrites(m: Mux)
    requires Consistent(m) && NoneLost(m)
    ensures NoneLost(Step(m, Send)) <==> forall i :: !WaitsUnder(m, Connection.NextId(m.counter), i)
  {
    var id := Connection.NextId(m.counter);
    RegisterLoses(m, id);
    hide RegisterIn, Connection.NextId;
    CounterAside(m, id);
    if id in m.pending && m.promises[m.pending[id]].outcome == Waiting {
      assert WaitsUnder(m, id, m.pending[id]);
    }
  }

  lemma CounterAside(m: Mux, id: nat)
    ensures NoneLost(RegisterIn(m.(counter := id), id)) <==> NoneLost(RegisterIn(m, id))
  {
  }

  lemma BlockingIds(m: Mux, allocations: nat, births: seq<nat>, i: nat)
    requires IdsInOrder(m, allocations, births)
    ensures Blocks(m, allocations, births, i) <==> WaitsUnder(m, IdOf(allocations), i)
  {
    if i < |births| {
      IdsMeet(births[i], allocations);
      hide IdOf;
    }
  }

  /** The next send loses nothing exactly when no future is in its way. */
  lemma SendLoses(m: Mux, allocations: nat, births: seq<nat>)
    requires Consistent(m) && IdsInOrder(m, allocations, births) && NoneLost(m)
    ensures NoneLost(Step(m, Send)) <==> forall i :: !Blocks(m, allocations, births, i)
  {
    NextIdCycles(allocations);
    SendOverwrites(m);
    forall i: nat ensures Blocks(m, allocations, births, i) <==> WaitsUnder(m, IdOf(allocations), i) {
      BlockingIds(m, allocations, births, i);
    }
    hide IdOf, Step, NoneLost, Blocks, WaitsUnder, Consistent, Connection.NextId;
  }

  lemma StepLosesNone(m: Mux, e: Event)
    requires Consistent(m) && NoneLost(m) && !e.Register? && !e.Send?
    ensures NoneLost(Step(m, e))
  {
  }

  lemma RunParts(evs: seq<Event>)
    requires |evs| > 0
    ensures var front, last := evs[..|evs| - 1], evs[|evs| - 1];
            && (OneConnection(evs) ==> OneConnection(front) && !last.Register?)
            && (NeverLoses(evs) <==> NeverLoses(front) && NoneLost(Run(START, evs)))
            && (NoneInTheWay(evs) <==> NoneInTheWay(front) && (last == Send ==> Unobstructed(front)))
  {
    hide Run, NoneLost, Unobstructed;
    var front, last := evs[..|evs| - 1], evs[|evs| - 1];
    assert evs == front + [last] && last in evs && evs[..|evs|] == evs;
    assert forall n :: 0 <= n <= |front| ==> front[..n] == evs[..n];
    assert forall n :: 0 <= n < |front| ==> front[n] == evs[n];
  }

  /** One more event: with a send, nothing is lost exactly when no future was in its way. */
  lemma NextLoses(front: seq<Event>, last: Event)
    requires OneConnection(front) && !last.Register? && NeverLoses(front)
    ensures NoneLost(Step(Run(START, front), last)) <==> (last == Send ==> Unobstructed(front))
  {
    assert front[..|front|] == front;
    RunConsistent(front);
    IdsCycle(front);
    hide Run, Step, NoneLost, Consistent, Blocks, IdsInOrder;
    if last == Send {
      SendLoses(Run(START, front), Allocations(front), Births(front));
    } else {
      StepLosesNone(Run(START, front), last);
    }
  }

  /** On one connection no request is ever lost, exactly if at every send no future is still waiting for which a
      multiple of 2^31 - 1 stream ids, its own included, have been handed out. */
  lemma {:induction false} LosesExactly(evs: seq<Event>)
    requires OneConnection(evs)
    ensures NeverLoses(evs) <==> NoneInTheWay(evs)
  {
    if |evs| == 0 {
      assert evs[..0] == [];
    } else {
      RunParts(evs);
      hide NeverLoses, NoneInTheWay, OneConnection, Step, NoneLost, Unobstructed;
      var front, last := evs[..|evs| - 1], evs[|evs| - 1];
      LosesExactly(front);
      if NeverLoses(front) {
        NextLoses(front, last);
      }
    }
  }

  /** No waiting future is as old as a whole cycle of stream ids. */
  ghost predicate Young(m: Mux, allocations: nat, births: seq<nat>) {
    forall i :: 0 <= i < |births| == |m.promises| && m.promises[i].outcome == Waiting ==>
      allocations - births[i] < CYCLE
  }

  /** Every future is done before its stream id comes round again. */
  ghost predicate Prompt(evs: seq<Event>) {
    forall n :: 0 <= n < |evs| && evs[n] == Send ==>
      Young(Run(START, evs[..n]), Allocations(evs[..n]), Births(evs[..n]))
  }

  /** On one connection, if every future is done within 2^31 - 1 allocations, no request is ever lost. */
  lemma PromptRunsLoseNone(evs: seq<Event>)
    requires OneConnection(evs) && Prompt(evs)
    ensures NeverLoses(evs)
  {
    forall n | 0 <= n < |evs| && evs[n] == Send ensures Unobstructed(evs[..n]) {
      var before := evs[..n];
      assert OneConnection(before);
      IdsCycle(before);
      hide Run, Births, Allocations, IdsInOrder, Young, Blocks;
      forall i: nat ensures !Blocks(Run(START, before), Allocations(before), Births(before), i) {
        YoungNeverBlocks(Run(START, before), Allocations(before), Births(before), i);
      }
    }
    LosesExactly(evs);
  }

  lemma YoungNeverBlocks(m: Mux, allocations: nat, births: seq<nat>, i: nat)
    requires IdsInOrder(m, allocations, births) && Young(m, allocations, births)
    ensures !Blocks(m, allocations, births, i)
  {
    if i < |births| == |m.promises| && m.promises[i].outcome == Waiting {
      PartOfCycle(allocations - births[i]);
    }
  }

  lemma PartOfCycle(d: nat)
    ensures 0 < d < CYCLE ==> d % CYCLE != 0
  {
  }

  // ---------------------------------------------------------------- what becomes of a request

  /** What one event makes of future number `i`, waiting under `id`. */
  function Verdict(e: Event, i: nat, id: nat): Outcome {
    match e
    case Arrive(frame) => if frame.header.streamId == id != 0 then Answered(frame) else Waiting
    case Cancel(s) => if s == id then Cancelled else Waiting
    case Abandon(k) => if k == i then Cancelled else Waiting
    case FailAll => Failed
    case _ => Waiting
  }

  /** The first verdict of some events. */
  function Fate(es: seq<Event>, i: nat, id: nat): Outcome {
    if |es| == 0 then Waiting
    else if Verdict(es[0], i, id) != Waiting then Verdict(es[0], i, id)
    else Fate(es[1..], i, id)
  }

  lemma FateFrom(evs: seq<Event>, n: nat, i: nat, id: nat)
    requires n < |evs|
    ensures Fate(evs[n..], i, id)
         == if Verdict(evs[n], i, id) != Waiting then Verdict(evs[n], i, id) else Fate(evs[n + 1..], i, id)
  {
    assert evs[n..][1..] == evs[n + 1..];
  }

  lemma StepDecides(m: Mux, e: Event, i: nat)
    requires Consistent(m) && NoneLost(m) && i < |m.promises| && m.promises[i].outcome == Waiting
    ensures i < |Step(m, e).promises| && Step(m, e).promises[i].outcome == Verdict(e, i, m.promises[i].streamId)
  {
  }

  lemma RunOneMore(evs: seq<Event>, n: nat)
    requires n < |evs|
    ensures Run(START, evs[..n + 1]) == Step(Run(START, evs[..n]), evs[n])
  {
    assert evs[..n + 1][..n] == evs[..n];
  }

  /** As long as no request is lost, a waiting future becomes what the first event that concerns it makes of it: it is
      answered by the first frame that arrives under its id, unless it is cancelled, abandoned or failed before. */
  lemma {:induction false} FutureMeetsFate(evs: seq<Event>, n: nat, i: nat)
    requires NeverLoses(evs) && n <= |evs| && i < |Run(START, evs[..n]).promises|
    requires Run(START, evs[..n]).promises[i].outcome == Waiting
    ensures i < |Run(START, evs).promises|
    ensures var id := Run(START, evs[..n]).promises[i].streamId;
            Run(START, evs).promises[i] == Promise(id, Fate(evs[n..], i, id))
    decreases |evs| - n
  {
    if n == |evs| {
      assert evs[..n] == evs && evs[n..] == [];
    } else {
      var id := Run(START, evs[..n]).promises[i].streamId;
      FateFrom(evs, n, i, id);
      NextDecides(evs, n, i);
      hide Run, Fate, NeverLoses;
      if Verdict(evs[n], i, id) == Waiting {
        FutureMeetsFate(evs, n + 1, i);
      } else {
        CompletesAtMostOnce(evs, n + 1, i);
      }
    }
  }

  lemma NextDecides(evs: seq<Event>, n: nat, i: nat)
    requires NeverLoses(evs) && n < |evs| && i < |Run(START, evs[..n]).promises|
    requires Run(START, evs[..n]).promises[i].outcome == Waiting
    ensures i < |Run(START, evs[..n + 1]).promises|
    ensures var id := Run(START, evs[..n]).promises[i].streamId;
            Run(START, evs[..n + 1]).promises[i] == Promise(id, Verdict(evs[n], i, id))
  {
    var m := Run(START, evs[..n]);
    RunOneMore(evs, n);
    RunConsistent(evs[..n]);
    assert NoneLost(m);
    hide Run, Step, Verdict, NoneLost, Consistent;
    StepSettlesOnce(m, evs[n], i);
    StepDecides(m, evs[n], i);
  }

  // ---------------------------------------------------------------- which requests are pending

  /** The future that waits under stream id `s`: the one registered under it last, unless the id has been cancelled, a
      frame has arrived under it or everything has failed since. */
  function Expected(evs: seq<Event>, s: nat): Wire.Option<nat> {
    if |evs| == 0 then Wire.None else
    var front := evs[..|evs| - 1];
    var before := Expected(front, s);
    match evs[|evs| - 1]
    case Send =>
      if Connection.NextId(Run(START, front).counter) == s then Wire.Some(|Run(START, front).promises|) else before
    case Register(id) => if id == s then Wire.Some(|Run(START, front).promises|) else before
    case Cancel(id) => if id == s then Wire.None else before
    case Arrive(frame) => if frame.header.streamId == s != 0 then Wire.None else before
    case FailAll => Wire.None
    case _ => before
  }

  /** The entries of the router are exactly those. */
  lemma {:induction false} PendingExactly(evs: seq<Event>, s: nat)
    ensures var m := Run(START, evs);
            match Expected(evs, s)
            case Some(i) => s in m.pending && m.pending[s] == i
            case None => s !in m.pending
  {
    if |evs| > 0 {
      PendingExactly(evs[..|evs| - 1], s);
      hide SettleAt, SettleAll, Connection.NextId;
    }
  }
}
