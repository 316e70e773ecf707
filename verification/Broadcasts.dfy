/**
 SendToAll of internal/chat/hub.go running beside joins and departures. Range visits the clients one
 by one; UnregisterClient first deletes and then closes; a send on a closed outbox panics, and Emit
 recovers from it, which ends that broadcast and nothing else.
 */
module Broadcasts {
  import opened Sums

  /** A client and its id: ids are distinct and a client joins once. */
  type Id = nat

  datatype Phase = Ranging | Ended | Panicked

  /** One SendToAll. `seen` are the clients visited, `held` the one visited but not yet sent to, `got`
      those sent to; `stay` are the clients registered when it began and, once it is over, those of them
      still registered then. */
  datatype Cast = Cast(phase: Phase, seen: set<Id>, held: Option<Id>, got: seq<Id>, stay: set<Id>)

  /** `closing` holds the UnregisterClient calls between their delete and their close. */
  datatype State = State(joined: set<Id>, registered: set<Id>, closing: multiset<Id>, closed: set<Id>,
                         casts: seq<Cast>)

  datatype Label =
    | Join(c: Id)
    | Delete(c: Id)          // LoadAndDelete of UnregisterClient, also from KickByName
    | Close(c: Id)           // its Client.Close
    | Start                  // SendToAll begins
    | Load(j: nat, c: Id)    // Range of broadcast j visits c
    | Send(j: nat)           // Client.Send to the client visited
    | End(j: nat)            // Range returns

  function Init(): State { State({}, {}, multiset{}, {}, []) }

  /** A broadcast is over: who stayed is settled. */
  function Settle(k: Cast, phase: Phase, registered: set<Id>): Cast
  {
    k.(phase := phase, stay := k.stay * registered)
  }

  function SendStep(s: State, k: Cast): Cast
    requires k.held.Some?
  {
    if k.held.value in s.closed then Settle(k, Panicked, s.registered)
    else k.(held := None, got := k.got + [k.held.value])
  }

  function Step(s: State, l: Label): Option<State>
  {
    match l
    case Join(c) =>
      if c in s.joined then None else Some(s.(joined := s.joined + {c}, registered := s.registered + {c}))
    case Delete(c) =>
      if c !in s.joined then None
      else Some(s.(registered := s.registered - {c}, closing := s.closing + multiset{c}))
    case Close(c) =>
      if c !in s.closing then None
      else Some(s.(closing := s.closing - multiset{c}, closed := s.closed + {c}))
    case Start => Some(s.(casts := s.casts + [Cast(Ranging, {}, None, [], s.registered)]))
    case Load(j, c) =>
      if j < |s.casts| && s.casts[j].phase.Ranging? && s.casts[j].held.None?
         && c in s.registered && c !in s.casts[j].seen then
        Some(s.(casts := s.casts[j := s.casts[j].(held := Some(c), seen := s.casts[j].seen + {c})]))
      else None
    case Send(j) =>
      if j < |s.casts| && s.casts[j].phase.Ranging? && s.casts[j].held.Some? then
        Some(s.(casts := s.casts[j := SendStep(s, s.casts[j])]))
      else None
    case End(j) =>
      // Range visits every key that is present from its beginning to its end.
      if j < |s.casts| && s.casts[j].phase.Ranging? && s.casts[j].held.None?
         && s.casts[j].stay * s.registered <= s.casts[j].seen then
        Some(s.(casts := s.casts[j := Settle(s.casts[j], Ended, s.registered)]))
      else None
  }

  function Run(s: State, ls: seq<Label>): Option<State>
    decreases ls
  {
    if ls == [] then Some(s) else
    match Step(s, ls[0])
    case None => None
    case Some(s') => Run(s', ls[1..])
  }

  // ----- The invariant --------------------------------------------------------------------------

  predicate NoRepeats(got: seq<Id>) { forall i, j :: 0 <= i < j < |got| ==> got[i] != got[j] }

  /** Exactly the visited clients, except the one in hand, were sent to, each once. */
  ghost predicate CastInv(k: Cast, closed: set<Id>)
  {
    && NoRepeats(k.got)
    && (forall c :: c in k.got <==> c in k.seen && k.held != Some(c))
    && (k.held.Some? ==> k.held.value in k.seen)
    && (k.phase.Ended? ==> k.held.None? && k.stay <= k.seen)
    && (k.phase.Panicked? ==> k.held.Some? && k.held.value in closed && k.held.value !in k.stay)
  }

  ghost predicate Inv(s: State)
  {
    && s.registered <= s.joined && s.closed !! s.registered
    && (forall c :: c in s.closing ==> c in s.joined && c !in s.registered)
    && s.closed <= s.joined
    && (forall j :: 0 <= j < |s.casts| ==> CastInv(s.casts[j], s.closed))
  }

  lemma SendInv(s: State, k: Cast)
    requires CastInv(k, s.closed) && k.phase.Ranging? && k.held.Some? && s.closed !! s.registered
    ensures CastInv(SendStep(s, k), s.closed)
  {
    var c := k.held.value;
    if c !in s.closed {
      var got := k.got + [c];
      assert forall d :: d in got <==> d in k.got || d == c;
    }
  }

  lemma LoadInv(k: Cast, c: Id, closed: set<Id>)
    requires CastInv(k, closed) && k.phase.Ranging? && k.held.None? && c !in k.seen
    ensures CastInv(k.(held := Some(c), seen := k.seen + {c}), closed)
  {
  }

  lemma StepKeeps(s: State, l: Label)
    requires Inv(s) && Step(s, l).Some?
    ensures Inv(Step(s, l).value) && s.closed <= Step(s, l).value.closed
  {
    match l {
      case Send(j) =>
        SendInv(s, s.casts[j]);
        hide CastInv, SendStep;
      case Close(c) =>
        forall j | 0 <= j < |s.casts| ensures CastInv(s.casts[j], s.closed + {c}) {}
        hide CastInv;
      case Load(j, c) =>
        LoadInv(s.casts[j], c, s.closed);
        hide CastInv;
      case End(j) =>
        assert CastInv(Settle(s.casts[j], Ended, s.registered), s.closed);
        hide CastInv, Settle;
      case Start =>
        assert CastInv(Cast(Ranging, {}, None, [], s.registered), s.closed);
        hide CastInv;
      case _ => hide CastInv;
    }
  }

  lemma {:induction false} RunKeeps(s: State, ls: seq<Label>)
    requires Inv(s) && Run(s, ls).Some?
    ensures Inv(Run(s, ls).value)
    decreases ls
  {
    if ls != [] {
      StepKeeps(s, ls[0]);
      hide Inv, Step;
      RunKeeps(Step(s, ls[0]).value, ls[1..]);
    }
  }

  /** Of the clients registered from the beginning of a broadcast to its end, a broadcast that returns
      misses none and reaches each once; one that panics misses exactly those it had not visited. */
  lemma MissedExactly(ls: seq<Label>, j: nat)
    requires Run(Init(), ls).Some? && j < |Run(Init(), ls).value.casts|
    ensures var k := Run(Init(), ls).value.casts[j];
      && NoRepeats(k.got)
      && (k.phase.Ended? ==> forall c :: c in k.stay ==> c in k.got)
      && (k.phase.Panicked? ==> forall c :: c in k.stay ==> (c in k.got <==> c in k.seen))
  {
    RunKeeps(Init(), ls);
    var s := Run(Init(), ls).value;
    assert CastInv(s.casts[j], s.closed);
  }

  /** When a step can be taken. */
  predicate CanStep(s: State, l: Label)
  {
    match l
    case Join(c) => c !in s.joined
    case Delete(c) => c in s.joined
    case Close(c) => c in s.closing
    case Start => true
    case Load(j, c) => j < |s.casts| && s.casts[j].phase.Ranging? && s.casts[j].held.None?
                       && c in s.registered && c !in s.casts[j].seen
    case Send(j) => j < |s.casts| && s.casts[j].phase.Ranging? && s.casts[j].held.Some?
    case End(j) => j < |s.casts| && s.casts[j].phase.Ranging? && s.casts[j].held.None?
                   && forall c :: c in s.casts[j].stay && c in s.registered ==> c in s.casts[j].seen
  }

  lemma StepsExactly(s: State, l: Label)
    ensures Step(s, l).Some? <==> CanStep(s, l)
  {
    if l.End? && l.j < |s.casts| {
      var k := s.casts[l.j];
      assert k.stay * s.registered <= k.seen <==> forall c :: c in k.stay && c in s.registered ==> c in k.seen;
    }
  }

  /** A running broadcast is never stuck: it sends to the client in hand, visits another, or ends. */
  lemma CastMoves(s: State, j: nat) returns (l: Label)
    requires j < |s.casts| && s.casts[j].phase.Ranging?
    ensures Step(s, l).Some? && (l == Send(j) || l == End(j) || (l.Load? && l.j == j))
  {
    var k := s.casts[j];
    if k.held.Some? {
      l := Send(j);
    } else if k.stay * s.registered <= k.seen {
      l := End(j);
    } else {
      var c :| c in k.stay * s.registered && c !in k.seen;
      l := Load(j, c);
    }
  }

  // ----- When a broadcast panics ----------------------------------------------------------------

  /** No step of broadcast j. */
  predicate Still(ls: seq<Label>, j: nat)
  {
    forall i :: 0 <= i < |ls| ==> !((ls[i].Load? || ls[i].Send? || ls[i].End?) && ls[i].j == j)
  }

  lemma {:induction false} ClosedMeanwhile(s: State, ls: seq<Label>, j: nat, c: Id)
    requires Run(s, ls).Some? && Still(ls, j) && j < |s.casts|
    ensures var e := Run(s, ls).value;
      && j < |e.casts| && e.casts[j] == s.casts[j]
      && (c in e.closed <==> c in s.closed || Close(c) in ls)
    decreases ls
  {
    if ls != [] {
      var rest := ls[1..];
      assert ls == [ls[0]] + rest;
      assert Still(rest, j);
      ClosedMeanwhile(Step(s, ls[0]).value, rest, j, c);
    }
  }

  /** The exact interleaving that fails: a broadcast panics at a client if and only if an UnregisterClient
      call closes that client between the visit and the send. */
  lemma PanicsExactly(before: seq<Label>, s: State, j: nat, c: Id, meanwhile: seq<Label>)
    requires Run(Init(), before) == Some(s) && Step(s, Load(j, c)).Some?
    requires Still(meanwhile, j) && Run(Step(s, Load(j, c)).value, meanwhile).Some?
    ensures var e := Run(Step(s, Load(j, c)).value, meanwhile).value;
      && Step(e, Send(j)).Some? && j < |Step(e, Send(j)).value.casts|
      && (Step(e, Send(j)).value.casts[j].phase.Panicked? <==> Close(c) in meanwhile)
  {
    RunKeeps(Init(), before);
    ClosedMeanwhile(Step(s, Load(j, c)).value, meanwhile, j, c);
  }

  /** No client is closed while a running broadcast has it in hand. */
  predicate Apart(s: State, l: Label)
  {
    l.Close? ==> forall j :: 0 <= j < |s.casts| && s.casts[j].phase.Ranging? ==> s.casts[j].held != Some(l.c)
  }

  predicate ApartRun(s: State, ls: seq<Label>)
    decreases ls
  {
    ls == [] || (Step(s, ls[0]).Some? && Apart(s, ls[0]) && ApartRun(Step(s, ls[0]).value, ls[1..]))
  }

  /** No broadcast has panicked, and what they have in hand is open. */
  predicate Calm(s: State)
  {
    forall j :: 0 <= j < |s.casts| ==>
      !s.casts[j].phase.Panicked? && (s.casts[j].held.Some? ==> s.casts[j].held.value !in s.closed)
  }

  lemma CalmKept(s: State, l: Label)
    requires Inv(s) && Calm(s) && Apart(s, l) && Step(s, l).Some?
    ensures Calm(Step(s, l).value)
  {
    if l.Close? {
      forall j | 0 <= j < |s.casts| ensures s.casts[j].held != Some(l.c) {
        assert CastInv(s.casts[j], s.closed);
      }
    }
  }

  lemma {:induction false} CalmRun(s: State, ls: seq<Label>)
    requires Inv(s) && Calm(s) && ApartRun(s, ls)
    ensures Run(s, ls).Some? && Calm(Run(s, ls).value)
    decreases ls
  {
    if ls != [] {
      StepKeeps(s, ls[0]);
      CalmKept(s, ls[0]);
      hide Inv, Step, Calm, Apart;
      CalmRun(Step(s, ls[0]).value, ls[1..]);
    }
  }

  /** Without such an overlap no broadcast panics, so every broadcast that is over reached all clients
      that were registered throughout. */
  lemma ApartReachesAll(ls: seq<Label>)
    requires ApartRun(Init(), ls)
    ensures Run(Init(), ls).Some?
    ensures var casts := Run(Init(), ls).value.casts;
      forall j :: 0 <= j < |casts| ==>
        !casts[j].phase.Panicked? && (casts[j].phase.Ended? ==> forall c :: c in casts[j].stay ==> c in casts[j].got)
  {
    CalmRun(Init(), ls);
    var casts := Run(Init(), ls).value.casts;
    forall j | 0 <= j < |casts| ensures casts[j].phase.Ended? ==> forall c :: c in casts[j].stay ==> c in casts[j].got {
      MissedExactly(ls, j);
    }
  }

  /** A broadcast that has panicked sends to nobody any more, whatever happens next. */
  lemma {:induction false} PanicIsFinal(s: State, ls: seq<Label>, j: nat)
    requires Run(s, ls).Some? && j < |s.casts| && !s.casts[j].phase.Ranging?
    ensures j < |Run(s, ls).value.casts| && Run(s, ls).value.casts[j] == s.casts[j]
    decreases ls
  {
    if ls != [] {
      PanicIsFinal(Step(s, ls[0]).value, ls[1..], j);
    }
  }

  lemma {:induction false} RunSnoc(s: State, ls: seq<Label>, l: Label)
    requires Run(s, ls).Some?
    ensures Run(s, ls + [l]) == Step(Run(s, ls).value, l)
    decreases ls
  {
    hide Step;
    if ls == [] {
      assert ls + [l] == [l] && [l][1..] == [];
    } else {
      assert (ls + [l])[1..] == ls[1..] + [l];
      RunSnoc(Step(s, ls[0]).value, ls[1..], l);
    }
  }

  lemma Extend(ls: seq<Label>, s: State, l: Label) returns (ls': seq<Label>, s': State)
    requires Run(Init(), ls) == Some(s) && Step(s, l).Some?
    ensures Run(Init(), ls') == Some(s') && s' == Step(s, l).value
  {
    RunSnoc(Init(), ls, l);
    ls', s' := ls + [l], Step(s, l).value;
  }

  /** Two clients have joined and a broadcast has the first in hand. */
  lemma InHand(a: Id, b: Id) returns (ls: seq<Label>, s: State)
    requires a != b
    ensures Run(Init(), ls) == Some(s)
    ensures s == State({a, b}, {a, b}, multiset{}, {}, [Cast(Ranging, {a}, Some(a), [], {a, b})])
  {
    ls, s := Extend([], Init(), Join(a));
    hide Run;
    ls, s := Extend(ls, s, Join(b));
    assert s.joined == {a, b} && s.registered == {a, b};
    ls, s := Extend(ls, s, Start);
    ls, s := Extend(ls, s, Load(0, a));
    assert s.casts[0].seen == {a};
  }

  /** The failure does happen: one client leaves while a broadcast has it in hand, and another, which is
      registered all the time, does not get the message. */
  lemma MissedBroadcast(a: Id, b: Id) returns (ls: seq<Label>, s: State)
    requires a != b
    ensures Run(Init(), ls) == Some(s) && s.registered == {b}
    ensures s.casts == [Cast(Panicked, {a}, Some(a), [], {b})]
  {
    hide Run;
    ls, s := InHand(a, b);
    ls, s := Extend(ls, s, Delete(a));
    ls, s := Extend(ls, s, Close(a));
    assert s.registered == {b};
    ls, s := Extend(ls, s, Send(0));
    assert {a, b} * {b} == {b};
  }
}
