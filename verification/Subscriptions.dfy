/**
 The subscription table of internal/chat/hub.go: handlers per event type, cancel closures that
 filter a slice in place, and Emit, which copies the slice before starting the handlers.
 */
module Subscriptions {
  import opened Sums

  datatype EventType = EventType(name: string)

  /** A handler function, known by a token. */
  type Handler = nat

  datatype Entry = Entry(id: nat, fn: Handler)

  // ----- The table as a value -------------------------------------------------------------------

  datatype Table = Table(handlers: map<EventType, seq<Entry>>, nextId: nat)

  function Entries(h: Table, t: EventType): seq<Entry> { if t in h.handlers then h.handlers[t] else [] }

  /** The entries whose id is not `id`, in order. */
  function Without(es: seq<Entry>, id: nat): seq<Entry>
  {
    if es == [] then [] else
    var rest, e := Without(es[..|es| - 1], id), es[|es| - 1];
    if e.id == id then rest else rest + [e]
  }

  function Subscribed(h: Table, t: EventType, fn: Handler): Table
  {
    Table(h.handlers[t := Entries(h, t) + [Entry(h.nextId + 1, fn)]], h.nextId + 1)
  }

  /** The cancel closure returned for subscription `id` to `t`. */
  function Cancelled(h: Table, t: EventType, id: nat): Table
  {
    var filtered := Without(Entries(h, t), id);
    if Entries(h, t) == [] then h
    else if filtered == [] then h.(handlers := h.handlers - {t})
    else h.(handlers := h.handlers[t := filtered])
  }

  // ----- The specification: one ordered list of live subscriptions ------------------------------

  datatype Sub = Sub(id: nat, event: EventType, fn: Handler)

  /** The live subscriptions to t, as table entries. */
  function To(live: seq<Sub>, t: EventType): seq<Entry>
  {
    if live == [] then [] else
    var rest, s := To(live[..|live| - 1], t), live[|live| - 1];
    if s.event == t then rest + [Entry(s.id, s.fn)] else rest
  }

  function Drop(live: seq<Sub>, id: nat): seq<Sub>
  {
    if live == [] then [] else
    var rest, s := Drop(live[..|live| - 1], id), live[|live| - 1];
    if s.id == id then rest else rest + [s]
  }

  /** `issued[k]` is the event type of the subscription with id k + 1. */
  datatype State = State(table: Table, live: seq<Sub>, issued: seq<EventType>)

  datatype Op = Subscribe(t: EventType, fn: Handler) | Cancel(id: nat)

  function Init(): State { State(Table(map[], 0), [], []) }

  /** One call; a cancel closure exists only for an issued id and remembers its event type. */
  function Step(s: State, op: Op): State
  {
    match op
    case Subscribe(t, fn) =>
      State(Subscribed(s.table, t, fn), s.live + [Sub(s.table.nextId + 1, t, fn)], s.issued + [t])
    case Cancel(id) =>
      if id == 0 || id > |s.issued| then s
      else s.(table := Cancelled(s.table, s.issued[id - 1], id), live := Drop(s.live, id))
  }

  function Run(s: State, ops: seq<Op>): State
    decreases ops
  {
    if ops == [] then s else Run(Step(s, ops[0]), ops[1..])
  }

  predicate Ordered(live: seq<Sub>) { forall i, j :: 0 <= i < j < |live| ==> live[i].id < live[j].id }

  predicate Known(live: seq<Sub>, issued: seq<EventType>)
  {
    forall i :: 0 <= i < |live| ==> 1 <= live[i].id <= |issued| && issued[live[i].id - 1] == live[i].event
  }

  /** The table shows, for every event type, exactly the live subscriptions to it in order; a key
      exists exactly when its list is nonempty; ids are unique and increasing. */
  ghost predicate Refines(s: State)
  {
    && (forall t :: Entries(s.table, t) == To(s.live, t))
    && (forall t :: t in s.table.handlers ==> s.table.handlers[t] != [])
    && Ordered(s.live) && Known(s.live, s.issued) && s.table.nextId == |s.issued|
  }

  lemma {:induction false} ToDrop(live: seq<Sub>, t: EventType, id: nat)
    ensures To(Drop(live, id), t) == Without(To(live, t), id)
  {
    if live != [] {
      var n := |live| - 1;
      ToDrop(live[..n], t, id);
      var d, s := Drop(live[..n], id), live[n];
      assert (d + [s])[..|d|] == d;
      var e := To(live[..n], t);
      assert (e + [Entry(s.id, s.fn)])[..|e|] == e;
    }
  }

  lemma {:induction false} WithoutAbsent(es: seq<Entry>, id: nat)
    requires forall i :: 0 <= i < |es| ==> es[i].id != id
    ensures Without(es, id) == es
  {
    if es != [] {
      WithoutAbsent(es[..|es| - 1], id);
    }
  }

  /** Every entry listed for t comes from a live subscription to t. */
  lemma {:induction false} ToKnown(live: seq<Sub>, issued: seq<EventType>, t: EventType)
    requires Known(live, issued)
    ensures forall i :: 0 <= i < |To(live, t)| ==>
      1 <= To(live, t)[i].id <= |issued| && issued[To(live, t)[i].id - 1] == t
  {
    if live != [] {
      ToKnown(live[..|live| - 1], issued, t);
    }
  }

  predicate Below(live: seq<Sub>, bound: int) { forall i :: 0 <= i < |live| ==> live[i].id <= bound }

  lemma {:induction false} DropKeeps(live: seq<Sub>, issued: seq<EventType>, id: nat, bound: nat)
    requires Ordered(live) && Known(live, issued) && Below(live, bound)
    ensures Ordered(Drop(live, id)) && Known(Drop(live, id), issued) && Below(Drop(live, id), bound)
  {
    if live != [] {
      var front, last := live[..|live| - 1], live[|live| - 1];
      assert Ordered(front) && Known(front, issued) && Below(front, last.id - 1);
      DropKeeps(front, issued, id, last.id - 1);
      var rest := Drop(front, id);
      assert Ordered(rest) && Known(rest, issued) && Below(rest, last.id - 1);
      hide Drop;
      assert Ordered(rest + [last]) && Known(rest + [last], issued) && Below(rest + [last], bound);
      assert Below(rest, bound);
    }
  }

  lemma SubscribeRefines(s: State, t: EventType, fn: Handler)
    requires Refines(s)
    ensures Refines(Step(s, Subscribe(t, fn)))
  {
    var s' := Step(s, Subscribe(t, fn));
    assert s'.live[..|s.live|] == s.live;
    forall u ensures Entries(s'.table, u) == To(s'.live, u) {
      assert Entries(s.table, u) == To(s.live, u);
    }
    assert Known(s'.live, s'.issued);
  }

  lemma CancelRefines(s: State, id: nat)
    requires Refines(s) && 1 <= id <= |s.issued|
    ensures Refines(Step(s, Cancel(id)))
  {
    hide Drop, To;
    var s', t := Step(s, Cancel(id)), s.issued[id - 1];
    DropKeeps(s.live, s.issued, id, |s.issued|);
    forall u ensures Entries(s'.table, u) == To(s'.live, u) {
      assert Entries(s.table, u) == To(s.live, u);
      ToDrop(s.live, u, id);
      if u != t {
        ToKnown(s.live, s.issued, u);
        WithoutAbsent(To(s.live, u), id);
      }
    }
  }

  lemma StepRefines(s: State, op: Op)
    requires Refines(s)
    ensures Refines(Step(s, op))
  {
    match op {
      case Subscribe(t, fn) => SubscribeRefines(s, t, fn);
      case Cancel(id) => if 1 <= id <= |s.issued| { CancelRefines(s, id); }
    }
  }

  /** In every sequence of subscriptions and cancellations the table refines the list. */
  lemma {:induction false} RunRefines(s: State, ops: seq<Op>)
    requires Refines(s)
    ensures Refines(Run(s, ops))
    decreases ops
  {
    if ops != [] {
      StepRefines(s, ops[0]);
      RunRefines(Step(s, ops[0]), ops[1..]);
    }
  }

  /** So after any calls on a new table: for every event type it shows the live subscriptions in order. */
  lemma TableRefines(ops: seq<Op>, t: EventType)
    ensures var s := Run(Init(), ops);
      && Entries(s.table, t) == To(s.live, t)
      && (t in s.table.handlers <==> To(s.live, t) != [])
      && Ordered(s.live) && s.table.nextId == |s.issued|
  {
    RunRefines(Init(), ops);
  }

  /** How many subscriptions were made. */
  function Made(ops: seq<Op>): nat
  {
    if ops == [] then 0 else Made(ops[..|ops| - 1]) + if ops[|ops| - 1].Subscribe? then 1 else 0
  }

  /** Subscription `id`, read off the calls: made by the id-th Subscribe and not cancelled after it. */
  function LiveSub(ops: seq<Op>, id: nat): Option<Sub>
  {
    if ops == [] then None else
    var front := ops[..|ops| - 1];
    match ops[|ops| - 1]
    case Subscribe(t, fn) => if id == Made(front) + 1 then Some(Sub(id, t, fn)) else LiveSub(front, id)
    case Cancel(k) => if id == k then None else LiveSub(front, id)
  }

  lemma {:induction false} RunLast(s: State, ops: seq<Op>)
    requires ops != []
    ensures Run(s, ops) == Step(Run(s, ops[..|ops| - 1]), ops[|ops| - 1])
    decreases ops
  {
    hide Step;
    if |ops| > 1 {
      assert ops[..|ops| - 1][1..] == ops[1..][..|ops| - 2];
      RunLast(Step(s, ops[0]), ops[1..]);
    }
  }

  lemma {:induction false} DropMembers(live: seq<Sub>, id: nat, x: Sub)
    ensures x in Drop(live, id) <==> x in live && x.id != id
  {
    if live != [] {
      DropMembers(live[..|live| - 1], id, x);
      assert live == live[..|live| - 1] + [live[|live| - 1]];
    }
  }

  /** After any calls on a new table, the live subscriptions are exactly those made and not cancelled since,
      with the event type and handler they were made with. */
  lemma {:induction false} LiveExactly(ops: seq<Op>, x: Sub)
    ensures |Run(Init(), ops).issued| == Made(ops)
    ensures x in Run(Init(), ops).live <==> LiveSub(ops, x.id) == Some(x)
    ensures LiveSub(ops, x.id).Some? ==> 1 <= x.id <= Made(ops)
    decreases |ops|
  {
    if ops != [] {
      var front, op := ops[..|ops| - 1], ops[|ops| - 1];
      LiveExactly(front, x);
      RunLast(Init(), ops);
      RunRefines(Init(), front);
      hide Run, Drop, Cancelled, Subscribed;
      if op.Cancel? {
        DropMembers(Run(Init(), front).live, op.id, x);
      }
    }
  }

  lemma {:induction false} WithoutTwice(es: seq<Entry>, id: nat)
    ensures Without(Without(es, id), id) == Without(es, id)
  {
    if es != [] {
      WithoutTwice(es[..|es| - 1], id);
      var rest, e := Without(es[..|es| - 1], id), es[|es| - 1];
      assert (rest + [e])[..|rest|] == rest;
    }
  }

  /** Calling a cancel closure again changes nothing. */
  lemma CancelIdempotent(h: Table, t: EventType, id: nat)
    ensures Cancelled(Cancelled(h, t, id), t, id) == Cancelled(h, t, id)
  {
    WithoutTwice(Entries(h, t), id);
  }

  // ----- The table as it is stored: slices over backing arrays ----------------------------------

  /** A Go slice: the first len elements of its backing array. */
  datatype Slice = Slice(store: array<Entry>, len: nat)

  class HandlerTable {
    var slices: map<EventType, Slice>
    var nextId: nat

    /** Every backing array the table has used, and the key it was used for. */
    ghost var owner: map<array<Entry>, EventType>

    /** The table this object stores. */
    ghost var view: Table

    /** Lengths fit, no empty list is kept, no two keys share a backing array, and the arrays hold
        the entries of `view`. */
    ghost predicate Valid()
      reads this, owner.Keys
    {
      && view.nextId == nextId && view.handlers.Keys == slices.Keys
      && forall t :: t in slices ==>
        && 0 < slices[t].len <= slices[t].store.Length
        && slices[t].store in owner && owner[slices[t].store] == t
        && slices[t].store[..slices[t].len] == view.handlers[t]
    }

    constructor ()
      ensures Valid() && view == Init().table && owner == map[]
    {
      slices, nextId, owner, view := map[], 0, map[], Init().table;
    }

    /** h.handlers[t] = store[:len], where the other keys are intact. */
    method Assign(t: EventType, store: array<Entry>, len: nat)
      requires 0 < len <= store.Length && (store !in owner || owner[store] == t)
      requires view.nextId == nextId && view.handlers.Keys == slices.Keys
      requires forall u :: u in slices && u != t ==>
        && 0 < slices[u].len <= slices[u].store.Length
        && slices[u].store in owner && owner[slices[u].store] == u
        && slices[u].store[..slices[u].len] == view.handlers[u]
      modifies this`slices, this`owner, this`view
      ensures Valid() && owner == old(owner)[store := t]
      ensures view == old(view).(handlers := old(view).handlers[t := store[..len]])
    {
      slices := slices[t := Slice(store, len)];
      owner := owner[store := t];
      view := view.(handlers := view.handlers[t := store[..len]]);
    }

    /** SubscribeCancelable: append to the slice, in place when its array has room. */
    method Subscribe(t: EventType, fn: Handler) returns (id: nat)
      requires Valid()
      modifies this, owner.Keys
      ensures Valid() && view == Subscribed(old(view), t, fn) && id == nextId
      ensures fresh(owner.Keys - old(owner.Keys))
    {
      var store, len := Room(t);
      nextId := nextId + 1;
      view := view.(nextId := nextId);
      id := nextId;
      store[len] := Entry(id, fn);
      assert store[..len + 1] == Entries(view, t) + [Entry(id, fn)];
      Assign(t, store, len + 1);
    }

    /** The array append writes to, with a free slot after the entries of t: the array of t if it
        has room, a larger copy otherwise. */
    method Room(t: EventType) returns (store: array<Entry>, len: nat)
      requires Valid()
      ensures len < store.Length && store[..len] == Entries(view, t)
      ensures fresh(store) || (t in slices && store == slices[t].store && len == slices[t].len)
    {
      if t in slices {
        len := slices[t].len;
        store := slices[t].store;
        if len == store.Length {
          store := CopyOf(store, len, 2 * len);
        }
      } else {
        store, len := new Entry[1], 0;
      }
    }

    /** The cancel closure: filter the slice in place, then drop the key or store a copy. */
    method Cancel(t: EventType, id: nat)
      requires Valid()
      modifies this, owner.Keys
      ensures Valid() && view == Cancelled(old(view), t, id)
      ensures fresh(owner.Keys - old(owner.Keys))
    {
      if t !in slices {
        return;
      }
      hide Without;
      var a := slices[t].store;
      var kept := FilterInPlace(a, slices[t].len, id);
      if kept == 0 {
        slices := slices - {t};
        view := view.(handlers := view.handlers - {t});
      } else {
        var copied := CopyOf(a, kept, kept);
        Assign(t, copied, kept);
      }
    }

    /** Emit copies the slice under the lock. */
    method Snapshot(t: EventType) returns (copied: array<Entry>)
      requires Valid()
      ensures fresh(copied) && copied[..] == Entries(view, t)
    {
      if t in slices {
        copied := CopyOf(slices[t].store, slices[t].len, slices[t].len);
        assert copied[..] == copied[..slices[t].len];
      } else {
        copied := new Entry[0];
      }
    }
  }

  /** A new array of capacity `cap` that starts with the first n elements of a. */
  method CopyOf(a: array<Entry>, n: nat, cap: nat) returns (b: array<Entry>)
    requires n <= a.Length && n <= cap
    ensures fresh(b) && b.Length == cap && b[..n] == a[..n]
  {
    b := new Entry[cap];
    forall i | 0 <= i < n { b[i] := a[i]; }
  }

  /** The loop over entries[:0]: keep the entries with another id, moving them to the front. */
  method FilterInPlace(a: array<Entry>, n: nat, id: nat) returns (kept: nat)
    requires n <= a.Length
    modifies a
    ensures kept <= n && a[..kept] == Without(old(a[..n]), id)
  {
    ghost var was := a[..n];
    kept := 0;
    var r := 0;
    while r < n
      invariant kept <= r <= n
      invariant a[..kept] == Without(was[..r], id)
      invariant a[r..n] == was[r..]
    {
      assert was[..r + 1][..r] == was[..r];
      assert a[r] == a[r..n][0] == was[r];
      if a[r].id != id {
        a[kept] := a[r];
        kept := kept + 1;
      }
      r := r + 1;
    }
    assert was[..n] == was;
  }

  datatype Call = NewSub(t: EventType, fn: Handler) | CancelSub(t: EventType, id: nat)

  /** Emit starts exactly one call per handler that was live at its snapshot, whatever is subscribed
      or cancelled between the snapshot and the calls. */
  method Emit(h: HandlerTable, t: EventType, meanwhile: seq<Call>) returns (started: seq<Handler>)
    requires h.Valid()
    modifies h, h.owner.Keys
    ensures h.Valid() && |started| == |Entries(old(h.view), t)|
    ensures forall i :: 0 <= i < |started| ==> started[i] == Entries(old(h.view), t)[i].fn
  {
    var copied := h.Snapshot(t);
    ghost var snap := copied[..];
    for i := 0 to |meanwhile|
      invariant h.Valid() && fresh(h.owner.Keys - old(h.owner.Keys))
      invariant copied !in h.owner && copied[..] == snap
    {
      match meanwhile[i] {
        case NewSub(u, fn) => var _ := h.Subscribe(u, fn);
        case CancelSub(u, id) => h.Cancel(u, id);
      }
    }
    started := [];
    for i := 0 to copied.Length
      invariant |started| == i && forall k :: 0 <= k < i ==> started[k] == snap[k].fn
    {
      started := started + [copied[i].fn];
    }
  }
}
