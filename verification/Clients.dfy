/**
 Clients and their outboxes (internal/chat/client.go) and the client registry of the hub
 (internal/chat/hub.go): register, unregister, kick, broadcast, and the online gauge.
 */
module Clients {

  // ----- The outbox: a bounded channel that drops when full -------------------------------------

  /** The buffer of a channel after a non-blocking send. */
  function Pushed(buffer: seq<string>, cap: nat, m: string): seq<string>
  {
    if |buffer| < cap then buffer + [m] else buffer
  }

  /** The history of one outbox. */
  datatype Outbox = Outbox(cap: nat, buffer: seq<string>, closed: bool,
                           sent: seq<string>, accepted: seq<string>, received: seq<string>, dropped: nat)

  datatype BoxOp = Send(m: string) | Receive | Close

  function NewOutbox(size: int): Outbox { Outbox(Capacity(size), [], false, [], [], [], 0) }

  /** NewClientWithBuffer falls back to 256. */
  function Capacity(size: int): (cap: nat)
    ensures cap > 0
  {
    if size <= 0 then 256 else size
  }

  /** A send on a closed channel panics and an empty receive blocks (or reports the end), so neither
      is a step. */
  predicate Enabled(b: Outbox, op: BoxOp)
  {
    match op case Send(_) => !b.closed case Receive => b.buffer != [] case Close => true
  }

  function BoxStep(b: Outbox, op: BoxOp): Outbox
    requires Enabled(b, op)
  {
    match op
    case Send(m) =>
      var b' := b.(buffer := Pushed(b.buffer, b.cap, m), sent := b.sent + [m]);
      if |b.buffer| < b.cap then b'.(accepted := b.accepted + [m]) else b'.(dropped := b.dropped + 1)
    case Receive => b.(buffer := b.buffer[1..], received := b.received + [b.buffer[0]])
    case Close => b.(closed := true)
  }

  predicate Runs(b: Outbox, ops: seq<BoxOp>)
    decreases ops
  {
    ops == [] || (Enabled(b, ops[0]) && Runs(BoxStep(b, ops[0]), ops[1..]))
  }

  function BoxRun(b: Outbox, ops: seq<BoxOp>): Outbox
    requires Runs(b, ops)
    decreases ops
  {
    if ops == [] then b else BoxRun(BoxStep(b, ops[0]), ops[1..])
  }

  /** `a` is `b` with some elements left out. */
  predicate Subsequence(a: seq<string>, b: seq<string>)
  {
    if a == [] then true else if b == [] then false else
    (a[|a| - 1] == b[|b| - 1] && Subsequence(a[..|a| - 1], b[..|b| - 1])) || Subsequence(a, b[..|b| - 1])
  }

  lemma SubsequenceGrows(a: seq<string>, b: seq<string>, m: string)
    requires Subsequence(a, b)
    ensures Subsequence(a, b + [m]) && Subsequence(a + [m], b + [m])
  {
    assert (b + [m])[..|b|] == b && (a + [m])[..|a|] == a;
  }

  predicate Conserved(b: Outbox)
  {
    && b.received + b.buffer == b.accepted
    && Subsequence(b.accepted, b.sent)
    && |b.sent| == |b.accepted| + b.dropped
    && |b.buffer| <= b.cap
  }

  lemma BoxStepConserves(b: Outbox, op: BoxOp)
    requires Conserved(b) && Enabled(b, op)
    ensures Conserved(BoxStep(b, op))
    ensures BoxStep(b, op).dropped > b.dropped <==> op.Send? && |b.buffer| == b.cap
  {
    if op.Send? {
      SubsequenceGrows(b.accepted, b.sent, op.m);
    }
  }

  /** The messages passed to Send, read off the calls. */
  function SendsOf(ops: seq<BoxOp>): seq<string>
  {
    if ops == [] then [] else (if ops[0].Send? then [ops[0].m] else []) + SendsOf(ops[1..])
  }

  function Receives(ops: seq<BoxOp>): nat
  {
    if ops == [] then 0 else (if ops[0].Receive? then 1 else 0) + Receives(ops[1..])
  }

  /** Over every run of sends, receives and close: what was received followed by what is buffered is
      exactly what was accepted, in order; the rest of what was sent was dropped. */
  lemma {:induction false} OutboxConservation(b: Outbox, ops: seq<BoxOp>)
    requires Conserved(b) && Runs(b, ops)
    ensures Conserved(BoxRun(b, ops))
    decreases ops
  {
    if ops != [] {
      BoxStepConserves(b, ops[0]);
      OutboxConservation(BoxStep(b, ops[0]), ops[1..]);
    }
  }

  /** What was sent is what the calls passed in; each receive takes one message; the outbox is closed exactly
      after a close. */
  lemma {:induction false} OutboxCalls(b: Outbox, ops: seq<BoxOp>)
    requires Runs(b, ops)
    ensures var e := BoxRun(b, ops);
      && e.cap == b.cap && e.sent == b.sent + SendsOf(ops) && |e.received| == |b.received| + Receives(ops)
      && (e.closed <==> b.closed || Close in ops)
    decreases ops
  {
    if ops != [] {
      var b' := BoxStep(b, ops[0]);
      OutboxCalls(b', ops[1..]);
      assert ops == [ops[0]] + ops[1..];
      assert b'.sent == b.sent + (if ops[0].Send? then [ops[0].m] else []);
      hide BoxStep;
    }
  }

  /** So for every new outbox, over every run. */
  lemma NewOutboxConserves(size: int, ops: seq<BoxOp>)
    requires Runs(NewOutbox(size), ops)
    ensures var b := BoxRun(NewOutbox(size), ops);
      && b.sent == SendsOf(ops) && |b.received| == Receives(ops) && (b.closed <==> Close in ops)
      && b.received + b.buffer == b.accepted && Subsequence(b.accepted, b.sent)
      && |b.sent| == |b.accepted| + b.dropped && |b.buffer| <= b.cap
  {
    OutboxConservation(NewOutbox(size), ops);
    OutboxCalls(NewOutbox(size), ops);
  }

  function AllSends(ms: seq<string>): seq<BoxOp> { seq(|ms|, i requires 0 <= i < |ms| => Send(ms[i])) }

  lemma SendsTail(ms: seq<string>)
    requires ms != []
    ensures AllSends(ms) != [] && AllSends(ms)[0] == Send(ms[0]) && AllSends(ms)[1..] == AllSends(ms[1..])
  {
  }

  lemma {:induction false} FillsFrom(b: Outbox, ms: seq<string>)
    requires !b.closed && |b.buffer| <= b.cap
    ensures Runs(b, AllSends(ms))
    ensures var e, room := BoxRun(b, AllSends(ms)), b.cap - |b.buffer|;
      var k := if |ms| <= room then |ms| else room;
      e.buffer == b.buffer + ms[..k] && e.accepted == b.accepted + ms[..k] && e.dropped == b.dropped + |ms| - k
    decreases ms
  {
    if ms != [] {
      var rest := ms[1..];
      FillsFrom(BoxStep(b, Send(ms[0])), rest);
      SendsTail(ms);
      hide Subsequence, AllSends;
      if |b.buffer| < b.cap {
        var room := b.cap - |b.buffer|;
        var k := if |ms| <= room then |ms| else room;
        assert ms[..k] == [ms[0]] + rest[..k - 1];
      }
    }
  }

  /** A new outbox takes as many messages as were asked for, 256 if that is not positive, and drops every
      message after that until one is received. */
  lemma FillsUp(size: int, ms: seq<string>)
    ensures Runs(NewOutbox(size), AllSends(ms))
    ensures var e, room := BoxRun(NewOutbox(size), AllSends(ms)), if size > 0 then size else 256;
      var k := if |ms| <= room then |ms| else room;
      e.buffer == e.accepted == ms[..k] && e.dropped == |ms| - k
  {
    FillsFrom(NewOutbox(size), ms);
  }

  /** Buffered messages still drain after close, and nothing accepted is lost. */
  lemma {:induction false} DrainsAfterClose(b: Outbox)
    requires Conserved(b) && b.closed
    ensures var rs := seq(|b.buffer|, _ => Receive);
      Runs(b, rs) && BoxRun(b, rs).received == b.accepted && BoxRun(b, rs).buffer == []
    decreases |b.buffer|
  {
    var rs := seq(|b.buffer|, _ => Receive);
    if rs != [] {
      var b' := BoxStep(b, Receive);
      BoxStepConserves(b, Receive);
      DrainsAfterClose(b');
      assert rs[1..] == seq(|b'.buffer|, _ => Receive);
    }
  }

  datatype Id = Id(text: string)

  /** A connected client. Its id and name do not change while it is registered. */
  class Client {
    const id: Id
    const name: string
    const cap: nat
    var out: seq<string>
    var closed: bool

    constructor (id: Id, name: string, size: int)
      ensures this.id == id && this.name == name && cap == Capacity(size) && out == [] && !closed
    {
      this.id, this.name, this.out, this.closed := id, name, [], false;
      this.cap := Capacity(size);
    }

    /** Client.Send; a closed channel would panic. */
    method Send(m: string)
      requires !closed
      modifies this`out
      ensures out == Pushed(old(out), cap, m)
    {
      if |out| < cap {
        out := out + [m];
      }
    }

    method Close()
      modifies this`closed
      ensures closed
    {
      closed := true;
    }
  }

  // ----- The registry as a value ----------------------------------------------------------------

  /** `joins` and `leaves` are the ids of the emitted user events. */
  datatype Registry = Registry(clients: map<Id, Client>, closed: set<Client>, online: int,
                               joins: multiset<Id>, leaves: multiset<Id>, overwrites: nat)

  datatype Op = Register(c: Client) | Unregister(c: Client) | Kick(name: string)

  ghost function Empty(): Registry { Registry(map[], {}, 0, multiset{}, multiset{}, 0) }

  ghost function Registered(r: Registry, c: Client): Registry
  {
    r.(clients := r.clients[c.id := c], online := r.online + 1, joins := r.joins + multiset{c.id},
       overwrites := r.overwrites + if c.id in r.clients then 1 else 0)
  }

  /** UnregisterClient removes whatever is stored under c.ID, but closes c. */
  ghost function Unregistered(r: Registry, c: Client): Registry
  {
    if c.id in r.clients then
      r.(clients := r.clients - {c.id}, closed := r.closed + {c}, online := r.online - 1,
         leaves := r.leaves + multiset{c.id})
    else r.(closed := r.closed + {c})
  }

  ghost function Matching(r: Registry, name: string): set<Id>
  {
    set k | k in r.clients && r.clients[k].name == name
  }

  /** All clients stored under `ids` leave. */
  ghost function Removed(r: Registry, ids: set<Id>): Registry
    requires ids <= r.clients.Keys
  {
    r.(clients := r.clients - ids, closed := r.closed + (set k | k in ids :: r.clients[k]),
       online := r.online - |ids|, leaves := r.leaves + multiset(ids))
  }

  ghost function Step(r: Registry, op: Op): Registry
  {
    match op
    case Register(c) => Registered(r, c)
    case Unregister(c) => Unregistered(r, c)
    case Kick(name) => Removed(r, Matching(r, name))
  }

  ghost function Run(r: Registry, ops: seq<Op>): Registry
    decreases ops
  {
    if ops == [] then r else Run(Step(r, ops[0]), ops[1..])
  }

  lemma MapMinus(m: map<Id, Client>, ids: set<Id>)
    requires ids <= m.Keys
    ensures |m - ids| == |m| - |ids|
  {
    assert (m - ids).Keys == m.Keys - ids;
  }

  /** The gauge and the events, in every sequential run. */
  ghost predicate Accounted(r: Registry)
  {
    && (forall k :: k in r.clients ==> r.clients[k].id == k)
    && r.online == |r.clients| + r.overwrites
    && |r.joins| - |r.leaves| == r.online
  }

  lemma RegisterAccounted(r: Registry, c: Client)
    requires Accounted(r)
    ensures Accounted(Registered(r, c))
  {
    assert r.clients[c.id := c].Keys == r.clients.Keys + {c.id};
    assert |r.joins + multiset{c.id}| == |r.joins| + 1;
  }

  lemma RemoveAccounted(r: Registry, ids: set<Id>)
    requires Accounted(r) && ids <= r.clients.Keys
    ensures Accounted(Removed(r, ids))
  {
    MapMinus(r.clients, ids);
    assert |r.leaves + multiset(ids)| == |r.leaves| + |ids|;
  }

  lemma UnregisterAccounted(r: Registry, c: Client)
    requires Accounted(r)
    ensures var u := Unregistered(r, c);
      && Accounted(u) && u.closed == r.closed + {c}
      && u.clients == r.clients - {c.id} && u.online == r.online - (if c.id in r.clients then 1 else 0)
      && Accounted(u.(closed := r.closed))
  {
    if c.id in r.clients {
      MapMinus(r.clients, {c.id});
      assert |r.leaves + multiset{c.id}| == |r.leaves| + 1;
    } else {
      assert r.clients - {c.id} == r.clients;
    }
  }

  lemma StepAccounted(r: Registry, op: Op)
    requires Accounted(r)
    ensures Accounted(Step(r, op))
  {
    match op {
      case Register(c) => RegisterAccounted(r, c);
      case Unregister(c) => UnregisterAccounted(r, c);
      case Kick(name) => RemoveAccounted(r, Matching(r, name));
    }
  }

  /** The online gauge is the number of clients plus the registrations that overwrote a live id. */
  lemma {:induction false} GaugeLaw(r: Registry, ops: seq<Op>)
    requires Accounted(r)
    ensures Accounted(Run(r, ops))
    decreases ops
  {
    if ops != [] {
      StepAccounted(r, ops[0]);
      GaugeLaw(Step(r, ops[0]), ops[1..]);
    }
  }

  /** So in every sequential run of a new hub. */
  lemma GaugeFromEmpty(ops: seq<Op>)
    ensures var r := Run(Empty(), ops);
      r.online == |r.clients| + r.overwrites == |r.joins| - |r.leaves|
  {
    GaugeLaw(Empty(), ops);
  }

  ghost predicate AllOpen(r: Registry) { forall k :: k in r.clients ==> r.clients[k] !in r.closed }

  /** Registered clients stay open under every call except registering a client that was closed. */
  lemma OpenExactly(r: Registry, op: Op)
    requires Accounted(r) && AllOpen(r)
    ensures AllOpen(Step(r, op)) <==> !(op.Register? && op.c in r.closed)
  {
    var r' := Step(r, op);
    if op.Register? {
      assert r'.clients[op.c.id] == op.c;
    }
  }

  /** An id registered, unregistered and registered again leaves a closed client in the registry, and
      the next broadcast would send on its closed outbox. */
  lemma ReRegisteredIsClosed(c: Client)
    ensures var r := Run(Empty(), [Register(c), Unregister(c), Register(c)]);
      c.id in r.clients && r.clients[c.id] == c && c in r.closed
  {
    var u, v := Unregister(c), Register(c);
    var r1 := Step(Empty(), v);
    var r2 := Step(r1, u);
    var r3 := Step(r2, v);
    assert [v][1..] == [] && Run(r2, [v]) == r3;
    assert [u, v][1..] == [v] && Run(r1, [u, v]) == r3;
    assert [v, u, v][1..] == [u, v];
  }

  /** Ids are distinct: each is registered at most once, by a client that is still open. */
  ghost predicate Disciplined(r: Registry, op: Op) { op.Register? ==> op.c.id !in r.joins && op.c !in r.closed }

  ghost predicate DisciplinedRun(r: Registry, ops: seq<Op>)
    decreases ops
  {
    ops == [] || (Disciplined(r, ops[0]) && DisciplinedRun(Step(r, ops[0]), ops[1..]))
  }

  ghost predicate Orderly(r: Registry)
  {
    Accounted(r) && AllOpen(r) && Balanced(r)
  }

  /** The counts of joins and leaves of an orderly registry. */
  ghost predicate Balanced(r: Registry)
  {
    && r.overwrites == 0
    && (forall k :: r.joins[k] == r.leaves[k] + if k in r.clients then 1 else 0)
    && (forall k :: r.joins[k] <= 1)
  }

  lemma RegisterBalanced(r: Registry, c: Client)
    requires Balanced(r) && c.id !in r.joins
    ensures Balanced(Registered(r, c))
  {
    assert r.joins[c.id] == 0;
  }

  lemma KickBalanced(r: Registry, name: string)
    requires Balanced(r)
    ensures Balanced(Removed(r, Matching(r, name)))
  {
    forall k ensures multiset(Matching(r, name))[k] == if k in Matching(r, name) then 1 else 0 {}
  }

  lemma StepOrderly(r: Registry, op: Op)
    requires Orderly(r) && Disciplined(r, op)
    ensures Orderly(Step(r, op))
  {
    StepAccounted(r, op);
    OpenExactly(r, op);
    hide Accounted, AllOpen;
    match op {
      case Register(c) => RegisterBalanced(r, c);
      case Unregister(c) =>
      case Kick(name) => KickBalanced(r, name);
    }
  }

  /** With distinct ids and no re-registration every registered client is open, joins minus leaves is
      the number of clients, and each client leaves at most once, and only after it joined. */
  lemma {:induction false} OrderlyRuns(r: Registry, ops: seq<Op>)
    requires Orderly(r) && DisciplinedRun(r, ops)
    ensures var e := Run(r, ops);
      && Orderly(e) && e.online == |e.clients| == |e.joins| - |e.leaves|
      && (forall k :: e.leaves[k] <= e.joins[k] <= 1)
    decreases ops
  {
    if ops != [] {
      StepOrderly(r, ops[0]);
      OrderlyRuns(Step(r, ops[0]), ops[1..]);
    }
  }

  /** So in every run of a new hub with distinct ids. */
  lemma OrderlyFromEmpty(ops: seq<Op>)
    requires DisciplinedRun(Empty(), ops)
    ensures var e := Run(Empty(), ops);
      && AllOpen(e) && e.online == |e.clients| == |e.joins| - |e.leaves|
      && (forall k :: e.leaves[k] <= e.joins[k] <= 1)
  {
    OrderlyRuns(Empty(), ops);
  }

  // ----- The registry as it runs ----------------------------------------------------------------

  class Hub {
    var clients: map<Id, Client>
    var online: int

    /** All clients created for this hub. */
    ghost var universe: set<Client>
    ghost var view: Registry

    ghost predicate Valid()
      reads this, universe
    {
      && clients == view.clients && online == view.online && Accounted(view)
      && (forall k :: k in clients ==> clients[k] in universe)
      && (forall c :: c in universe ==> (c.closed <==> c in view.closed))
      && view.closed <= universe
    }

    constructor ()
      ensures Valid() && view == Empty() && universe == {}
    {
      clients, online, universe, view := map[], 0, {}, Empty();
    }

    /** A newly created client becomes known to the hub. */
    ghost method Admit(c: Client)
      requires Valid() && !c.closed && c !in universe
      modifies this`universe
      ensures Valid() && universe == old(universe) + {c}
    {
      universe := universe + {c};
    }

    method RegisterClient(c: Client)
      requires Valid() && c in universe
      modifies this`clients, this`online, this`view
      ensures Valid() && view == Registered(old(view), c)
    {
      RegisterAccounted(view, c);
      clients := clients[c.id := c];
      online := online + 1;
      view := Registered(view, c);
    }

    /** clients.LoadAndDelete(c.ID) with its leave event and gauge update. */
    method LoadAndDelete(c: Client)
      requires Valid() && c in universe
      modifies this`clients, this`online, this`view
      ensures Valid() && view == Unregistered(old(view), c).(closed := old(view).closed)
    {
      hide Accounted, Unregistered;
      UnregisterAccounted(view, c);
      if c.id in clients {
        online := online - 1;
      }
      clients := clients - {c.id};
      view := Unregistered(view, c).(closed := view.closed);
    }

    method UnregisterClient(c: Client)
      requires Valid() && c in universe
      modifies this`clients, this`online, this`view, c`closed
      ensures Valid() && view == Unregistered(old(view), c)
    {
      UnregisterAccounted(view, c);
      hide Accounted, Unregistered;
      LoadAndDelete(c);
      CloseKnown(c);
    }

    /** Client.Close of a client the hub knows. */
    method CloseKnown(c: Client)
      requires Valid() && c in universe && Accounted(view.(closed := view.closed + {c}))
      modifies this`view, c`closed
      ensures Valid() && view == old(view).(closed := old(view).closed + {c})
    {
      hide Accounted;
      c.Close();
      view := view.(closed := view.closed + {c});
    }

    /** KickByName visits the clients in any order and unregisters exactly those with that name. */
    method KickByName(name: string) returns (found: bool)
      requires Valid()
      modifies this`clients, this`online, this`view, universe`closed
      ensures Valid() && view == Removed(old(view), Matching(old(view), name))
      ensures found == exists k :: k in old(clients) && old(clients)[k].name == name
    {
      RemoveNone(view);
      hide Accounted, Removed, Unregistered;
      found := false;
      ghost var gone: set<Id> := {};
      var todo := clients.Keys;
      while todo != {}
        invariant Valid() && todo <= old(clients).Keys && gone <= old(clients).Keys
        invariant forall k :: k in old(clients) ==> (k in gone <==> k !in todo && old(clients)[k].name == name)
        invariant view == Removed(old(view), gone) && clients == old(clients) - gone
        invariant found <==> gone != {}
        decreases todo
      {
        var k :| k in todo;
        assert k in clients && clients[k] == old(clients)[k];
        var c := clients[k];
        if c.name == name {
          RemoveOneMore(old(view), gone, k);
          UnregisterClient(c);
          gone := gone + {k};
          found := true;
        }
        todo := todo - {k};
      }
      assert gone == Matching(old(view), name);
    }

    /** SendToAll: every registered client gets the message once, nobody else does. No outbox may be
        closed. */
    method SendToAll(m: string)
      requires Valid() && AllOpen(view)
      modifies universe`out
      ensures forall c :: c in universe ==>
        c.out == if c.id in clients && clients[c.id] == c then Pushed(old(c.out), c.cap, m) else old(c.out)
    {
      var todo := clients.Keys;
      while todo != {}
        invariant todo <= clients.Keys
        invariant forall c :: c in universe ==>
          c.out == if c.id in clients && c.id !in todo && clients[c.id] == c
                   then Pushed(old(c.out), c.cap, m) else old(c.out)
        decreases todo
      {
        var k :| k in todo;
        clients[k].Send(m);
        todo := todo - {k};
      }
    }

    /** SendToUser: every registered client of that name gets the message, nobody else does. */
    method SendToUser(name: string, m: string) returns (found: bool)
      requires Valid() && AllOpen(view)
      modifies universe`out
      ensures found == exists k :: k in clients && clients[k].name == name
      ensures forall c :: c in universe ==>
        c.out == if c.name == name && c.id in clients && clients[c.id] == c
                 then Pushed(old(c.out), c.cap, m) else old(c.out)
    {
      found := false;
      var todo := clients.Keys;
      while todo != {}
        invariant todo <= clients.Keys
        invariant found == exists k :: k in clients && k !in todo && clients[k].name == name
        invariant forall c :: c in universe ==>
          c.out == if c.name == name && c.id in clients && c.id !in todo && clients[c.id] == c
                   then Pushed(old(c.out), c.cap, m) else old(c.out)
        decreases todo
      {
        var k :| k in todo;
        if clients[k].name == name {
          clients[k].Send(m);
          found := true;
        }
        todo := todo - {k};
      }
    }
  }

  lemma RemoveNone(r: Registry)
    ensures Removed(r, {}) == r
  {
    assert r.clients - {} == r.clients;
  }

  /** Unregistering one more matching client. */
  lemma RemoveOneMore(r: Registry, gone: set<Id>, k: Id)
    requires Accounted(r) && gone <= r.clients.Keys && k in r.clients && k !in gone
    ensures Unregistered(Removed(r, gone), r.clients[k]) == Removed(r, gone + {k})
    ensures Removed(r, gone + {k}).clients == r.clients - gone - {k} == r.clients - (gone + {k})
  {
    assert r.clients - gone - {k} == r.clients - (gone + {k});
    assert multiset(gone + {k}) == multiset(gone) + multiset{k};
  }
}
