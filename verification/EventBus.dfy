/** The advisory event bus over its in-process transport. */
module EventBuses {

  type Subject = string
  type Handler = nat
  datatype Envelope = Envelope(subject: Subject, payload: string)

  /** One handler call, in the order the calls were made. */
  datatype Invocation = Invocation(handler: Handler, envelope: Envelope)

  datatype Metrics = Metrics(published: nat, degraded: nat, bus: nat, direct: nat, errors: nat)

  /** Publishing copies the subscriber list and calls every callback; a callback is the bus's own
      wire handler bound to a subject. */
  class InProcessTransport {
    var subscribers: map<Subject, seq<Subject>>
    var connected: bool

    constructor ()
      ensures !connected && subscribers == map[]
    {
      subscribers, connected := map[], false;
    }

    method Connect()
      modifies this
      ensures connected && subscribers == old(subscribers)
    {
      connected := true;
    }

    method Subscribe(subject: Subject, callback: Subject)
      modifies this
      ensures connected == old(connected)
      ensures subscribers == old(subscribers)[subject := Callbacks(old(subscribers), subject) + [callback]]
    {
      subscribers := subscribers[subject := Callbacks(subscribers, subject) + [callback]];
    }

    method Close()
      modifies this
      ensures !connected && subscribers == map[]
    {
      subscribers := map[];
      connected := false;
    }
  }

  function Callbacks(subscribers: map<Subject, seq<Subject>>, subject: Subject): seq<Subject> {
    if subject in subscribers then subscribers[subject] else []
  }

  function HandlersOf(handlers: map<Subject, seq<Handler>>, subject: Subject): seq<Handler> {
    if subject in handlers then handlers[subject] else []
  }

  /** The calls one event makes: every handler of its subject, once, in subscription order. */
  function Calls(hs: seq<Handler>, e: Envelope): (r: seq<Invocation>)
    ensures |r| == |hs|
  {
    seq(|hs|, i requires 0 <= i < |hs| => Invocation(hs[i], e))
  }

  /** How many of these calls ended in an error. */
  function Failures(raises: (Handler, Envelope) -> bool, log: seq<Invocation>): nat {
    if log == [] then 0
    else Failures(raises, log[..|log| - 1]) + if raises(log[|log| - 1].handler, log[|log| - 1].envelope) then 1 else 0
  }

  lemma FailuresGrow(raises: (Handler, Envelope) -> bool, log: seq<Invocation>, i: Invocation)
    ensures Failures(raises, log + [i]) == Failures(raises, log) + if raises(i.handler, i.envelope) then 1 else 0
  {
    assert (log + [i])[..|log|] == log;
  }

  class EventBus {
    const advisory: Subject -> bool
    const raises: (Handler, Envelope) -> bool
    const transport: InProcessTransport?
    var handlers: map<Subject, seq<Handler>>
    var bound: set<Subject>
    var metrics: Metrics
    var log: seq<Invocation>
    ghost var publishes: nat

    predicate Connected()
      reads this, transport
    {
      transport != null && transport.connected
    }

    /** Holds in every state the bus reaches when it alone drives its transport. */
    ghost predicate Valid()
      reads this, transport
    {
      && (forall s :: s in handlers ==> advisory(s) && handlers[s] != [])
      && bound == (if Connected() then handlers.Keys else {})
      && (transport != null ==> transport.subscribers == map s | s in bound :: [s])
      && metrics.published + metrics.degraded == publishes
      && metrics.bus + metrics.direct + metrics.errors == |log|
      && metrics.errors == Failures(raises, log)
    }

    constructor (advisory: Subject -> bool, raises: (Handler, Envelope) -> bool, transport: InProcessTransport?)
      requires transport != null ==> !transport.connected && transport.subscribers == map[]
      ensures Valid() && this.transport == transport && this.advisory == advisory
      ensures handlers == map[] && log == [] && publishes == 0
    {
      this.advisory, this.raises, this.transport := advisory, raises, transport;
      handlers, bound, metrics, log, publishes := map[], {}, Metrics(0, 0, 0, 0, 0), [], 0;
    }

    /** Bring the transport online and attach every subject that has handlers. */
    method Connect() returns (ok: bool)
      requires Valid()
      modifies this`bound, transport
      ensures Valid() && ok == Connected() == (transport != null)
    {
      if transport == null { return false; }
      transport.Connect();
      var left := handlers.Keys;
      while left != {}
        invariant left <= handlers.Keys && transport.connected
        invariant bound == old(bound) + (handlers.Keys - left)
        invariant transport.subscribers == map s | s in bound :: [s]
        decreases left
      {
        var subject :| subject in left;
        Bind(subject);
        left := left - {subject};
      }
      assert bound == handlers.Keys;
      return true;
    }

    /** One transport subscription per subject, however many handlers it has. */
    method Bind(subject: Subject)
      requires transport != null && transport.subscribers == map s | s in bound :: [s]
      modifies this`bound, transport
      ensures bound == old(bound) + {subject} && transport.connected == old(transport.connected)
      ensures transport.subscribers == map s | s in bound :: [s]
    {
      if subject in bound { return; }
      transport.Subscribe(subject, subject);
      bound := bound + {subject};
      assert transport.subscribers[subject] == [subject];
    }

    method Close()
      requires Valid()
      modifies this`bound, transport
      ensures Valid() && !Connected()
    {
      bound := {};
      if transport != null { transport.Close(); }
    }

    /** False stands for the error raised for a subject that is not advisory. */
    method Subscribe(subject: Subject, handler: Handler) returns (ok: bool)
      requires Valid()
      modifies this`handlers, this`bound, transport
      ensures Valid() && ok == advisory(subject) && Connected() == old(Connected())
      ensures handlers == if ok then old(handlers)[subject := HandlersOf(old(handlers), subject) + [handler]] else old(handlers)
    {
      if !advisory(subject) { return false; }
      handlers := handlers[subject := HandlersOf(handlers, subject) + [handler]];
      if Connected() { Bind(subject); }
      return true;
    }

    method Dispatch(subject: Subject, e: Envelope, viaBus: bool)
      requires metrics.bus + metrics.direct + metrics.errors == |log| && metrics.errors == Failures(raises, log)
      modifies this`metrics, this`log
      ensures log == old(log) + Calls(HandlersOf(handlers, subject), e)
      ensures metrics.bus + metrics.direct + metrics.errors == |log| && metrics.errors == Failures(raises, log)
      ensures metrics.published == old(metrics.published) && metrics.degraded == old(metrics.degraded)
      ensures if viaBus then metrics.direct == old(metrics.direct) else metrics.bus == old(metrics.bus)
    {
      var hs := HandlersOf(handlers, subject);
      for i := 0 to |hs|
        invariant log == old(log) + Calls(hs[..i], e)
        invariant metrics.bus + metrics.direct + metrics.errors == |log| && metrics.errors == Failures(raises, log)
        invariant metrics.published == old(metrics.published) && metrics.degraded == old(metrics.degraded)
        invariant if viaBus then metrics.direct == old(metrics.direct) else metrics.bus == old(metrics.bus)
      {
        assert Calls(hs[..i + 1], e) == Calls(hs[..i], e) + [Invocation(hs[i], e)];
        FailuresGrow(raises, log, Invocation(hs[i], e));
        log := log + [Invocation(hs[i], e)];
        if raises(hs[i], e) {
          metrics := metrics.(errors := metrics.errors + 1);
        } else if viaBus {
          metrics := metrics.(bus := metrics.bus + 1);
        } else {
          metrics := metrics.(direct := metrics.direct + 1);
        }
      }
      assert hs[..|hs|] == hs;
    }

    /** Connected or degraded, every handler of the subject is called exactly once. */
    method Publish(e: Envelope) returns (ok: bool)
      requires Valid()
      modifies this`metrics, this`log, this`publishes
      ensures Valid() && ok == advisory(e.subject)
      ensures log == if ok then old(log) + Calls(HandlersOf(handlers, e.subject), e) else old(log)
      ensures publishes == old(publishes) + (if ok then 1 else 0)
      ensures ok && Connected() ==> metrics.published == old(metrics.published) + 1 && metrics.direct == old(metrics.direct)
      ensures ok && !Connected() ==> metrics.degraded == old(metrics.degraded) + 1 && metrics.bus == old(metrics.bus)
    {
      if !advisory(e.subject) { return false; }
      publishes := publishes + 1;
      if Connected() {
        var callbacks := Callbacks(transport.subscribers, e.subject);
        for i := 0 to |callbacks|
          invariant log == old(log) + if i == 0 then [] else Calls(HandlersOf(handlers, e.subject), e)
          invariant metrics.bus + metrics.direct + metrics.errors == |log| && metrics.errors == Failures(raises, log)
          invariant metrics.published == old(metrics.published) && metrics.degraded == old(metrics.degraded)
          invariant metrics.direct == old(metrics.direct) && publishes == old(publishes) + 1
        {
          Dispatch(callbacks[i], e, true);
        }
        metrics := metrics.(published := metrics.published + 1);
        return true;
      }
      metrics := metrics.(degraded := metrics.degraded + 1);
      Dispatch(e.subject, e, false);
      return true;
    }
  }

  // ---- whole sessions -----------------------------------------------------------------------

  datatype Op = Connect | Close | Subscribe(subject: Subject, handler: Handler) | Publish(e: Envelope)

  /** Who is subscribed after these operations, whatever the transport did. */
  function Subscribed(advisory: Subject -> bool, ops: seq<Op>): map<Subject, seq<Handler>> {
    if ops == [] then map[] else
      var before := Subscribed(advisory, ops[..|ops| - 1]);
      match ops[|ops| - 1]
      case Subscribe(s, h) => if advisory(s) then before[s := HandlersOf(before, s) + [h]] else before
      case _ => before
  }

  /** The calls a session should make, told without mentioning connections. */
  function Expected(advisory: Subject -> bool, ops: seq<Op>): seq<Invocation> {
    if ops == [] then [] else
      var before := Expected(advisory, ops[..|ops| - 1]);
      match ops[|ops| - 1]
      case Publish(e) =>
        if advisory(e.subject) then before + Calls(HandlersOf(Subscribed(advisory, ops[..|ops| - 1]), e.subject), e) else before
      case _ => before
  }

  /** Any session, over any transport or none, makes exactly the expected calls. */
  method Session(advisory: Subject -> bool, raises: (Handler, Envelope) -> bool, wired: bool, ops: seq<Op>) returns (bus: EventBus)
    ensures bus.Valid() && bus.log == Expected(advisory, ops) && bus.handlers == Subscribed(advisory, ops)
  {
    var transport: InProcessTransport? := null;
    if wired { transport := new InProcessTransport(); }
    bus := new EventBus(advisory, raises, transport);
    for i := 0 to |ops|
      invariant bus.Valid() && bus.advisory == advisory && fresh(bus) && (bus.transport != null ==> fresh(bus.transport))
      invariant bus.log == Expected(advisory, ops[..i]) && bus.handlers == Subscribed(advisory, ops[..i])
    {
      assert ops[..i + 1][..i] == ops[..i];
      match ops[i]
      case Connect => var _ := bus.Connect();
      case Close => bus.Close();
      case Subscribe(s, h) => var _ := bus.Subscribe(s, h);
      case Publish(e) => var _ := bus.Publish(e);
    }
    assert ops[..|ops|] == ops;
  }

  predicate Lifecycle(op: Op) { op.Connect? || op.Close? }

  /** The same session with every connect and close taken out. */
  function Unplugged(ops: seq<Op>): seq<Op> {
    if ops == [] then [] else
      var before := Unplugged(ops[..|ops| - 1]);
      if Lifecycle(ops[|ops| - 1]) then before else before + [ops[|ops| - 1]]
  }

  /** Connecting and closing at any moments neither loses, repeats nor reorders a delivery. */
  lemma {:induction false} ConnectionsDoNotMatter(advisory: Subject -> bool, ops: seq<Op>)
    ensures Expected(advisory, Unplugged(ops)) == Expected(advisory, ops)
    ensures Subscribed(advisory, Unplugged(ops)) == Subscribed(advisory, ops)
  {
    if ops != [] {
      var n := |ops| - 1;
      ConnectionsDoNotMatter(advisory, ops[..n]);
      var u := Unplugged(ops[..n]);
      if !Lifecycle(ops[n]) { assert (u + [ops[n]])[..|u|] == u; }
    }
  }
}
