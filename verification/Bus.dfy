/**
 The bus wiring of cmd/server/main.go over internal/bus/redisstream/bus.go: several nodes publish
 local events to one stream and consume it in one consumer group. A consumed chat message becomes a
 remote broadcast; a consumed direct message is emitted again under the event type that publishes it.
 */
module Bus {
  import opened Sums

  datatype Kind = Message | Direct

  datatype Msg = Msg(kind: Kind, from: string, to: string, text: string)

  /** `publishing` are the publish handlers started by Emit and not finished; `inbox` is the batch read
      by Consume and not yet handled, which holds the stream entries from index `at` on. */
  datatype Node = Node(publishing: seq<Msg>, inbox: seq<Msg>, at: nat)

  /** A broadcast of a message that was read as entry `at` of the stream. */
  datatype Remote = Remote(at: nat, m: Msg)

  /** `cursor` counts the entries the group has handed out; `remote` lists the remote broadcasts; `said`
      are the messages users sent; `unpublished` are those whose publish failed or died with its node,
      `unhandled` those read by a node that crashed before handling them. */
  datatype State = State(nodes: seq<Node>, stream: seq<Msg>, cursor: nat, remote: seq<Remote>,
                         said: multiset<Msg>, unpublished: multiset<Msg>, unhandled: multiset<Msg>)

  datatype Label =
    | Say(i: nat, m: Msg)              // BroadcastLocal, or /msg for a direct message
    | PublishOk(i: nat, k: nat)
    | PublishFails(i: nat, k: nat)
    | Read(i: nat, n: nat)             // XReadGroup returns the next n entries, at most 100
    | Handle(i: nat)                   // the consume callback, then XAck
    | Crash(i: nat)

  function Init(n: nat): State
  {
    State(seq(n, _ => Node([], [], 0)), [], 0, [], multiset{}, multiset{}, multiset{})
  }

  function Removed(ms: seq<Msg>, k: nat): seq<Msg>
    requires k < |ms|
  {
    ms[..k] + ms[k + 1..]
  }

  function With(s: State, i: nat, n: Node): State
    requires i < |s.nodes|
  {
    s.(nodes := s.nodes[i := n])
  }

  function Step(s: State, l: Label): Option<State>
  {
    if l.i >= |s.nodes| then None else
    var n := s.nodes[l.i];
    match l
    case Say(i, m) =>
      Some(With(s, i, n.(publishing := n.publishing + [m])).(said := s.said + multiset{m}))
    case PublishOk(i, k) =>
      if k >= |n.publishing| then None
      else Some(With(s, i, n.(publishing := Removed(n.publishing, k))).(stream := s.stream + [n.publishing[k]]))
    case PublishFails(i, k) =>
      if k >= |n.publishing| then None
      else Some(Lose(With(s, i, n.(publishing := Removed(n.publishing, k))), [n.publishing[k]], []))
    case Read(i, c) =>
      if n.inbox != [] || c == 0 || c > 100 || s.cursor + c > |s.stream| then None
      else Some(With(s, i, n.(inbox := s.stream[s.cursor..s.cursor + c], at := s.cursor)).(cursor := s.cursor + c))
    case Handle(i) =>
      if n.inbox == [] then None else
      var n' := n.(inbox := n.inbox[1..], at := n.at + 1);
      Some(match n.inbox[0].kind
           case Message => With(s, i, n').(remote := s.remote + [Remote(n.at, n.inbox[0])])
           case Direct => With(s, i, n'.(publishing := n.publishing + [n.inbox[0]])))
    case Crash(i) => Some(Lose(With(s, i, Node([], [], 0)), n.publishing, n.inbox))
  }

  function Lose(s: State, publishing: seq<Msg>, inbox: seq<Msg>): State
  {
    s.(unpublished := s.unpublished + multiset(publishing), unhandled := s.unhandled + multiset(inbox))
  }

  function Count(ms: seq<Msg>, k: Kind): nat
  {
    if ms == [] then 0 else Count(ms[..|ms| - 1], k) + if ms[|ms| - 1].kind == k then 1 else 0
  }

  function Run(s: State, ls: seq<Label>): Option<State>
    decreases ls
  {
    if ls == [] then Some(s) else
    match Step(s, ls[0])
    case None => None
    case Some(s') => Run(s', ls[1..])
  }

  // ----- Counting -------------------------------------------------------------------------------

  lemma {:induction false} CountConcat(a: seq<Msg>, b: seq<Msg>, k: Kind)
    ensures Count(a + b, k) == Count(a, k) + Count(b, k)
  {
    if b == [] {
      assert a + b == a;
    } else {
      assert (a + b)[..|a + b| - 1] == a + b[..|b| - 1];
      CountConcat(a, b[..|b| - 1], k);
    }
  }

  lemma CountOne(m: Msg, k: Kind)
    ensures Count([m], k) == if m.kind == k then 1 else 0
  {
    assert [m][..0] == [];
  }

  lemma NoCount()
    ensures forall k :: Count([], k) == 0
  {
  }

  lemma CountRemoved(ms: seq<Msg>, j: nat, k: Kind)
    requires j < |ms|
    ensures Count(Removed(ms, j), k) + Count([ms[j]], k) == Count(ms, k)
  {
    assert ms == ms[..j] + ([ms[j]] + ms[j + 1..]);
    CountConcat(ms[..j], [ms[j]] + ms[j + 1..], k);
    CountConcat([ms[j]], ms[j + 1..], k);
    CountConcat(ms[..j], ms[j + 1..], k);
  }

  lemma CountHead(ms: seq<Msg>, k: Kind)
    requires ms != []
    ensures Count(ms, k) == Count([ms[0]], k) + Count(ms[1..], k)
  {
    assert ms == [ms[0]] + ms[1..];
    CountConcat([ms[0]], ms[1..], k);
  }

  // ----- Conservation ---------------------------------------------------------------------------

  /** How often m waits in a node to be published, and to be handled if it is a direct message. */
  function Held(m: Msg): Node -> int
  {
    (n: Node) => multiset(n.publishing)[m] + if m.kind.Direct? then multiset(n.inbox)[m] else 0
  }

  /** Message by message, contents and all. A direct message is unread, held, or lost exactly as often as
      it was sent. A chat message never echoes: it is in the stream, waits to be published, or was not
      published, exactly as often as it was said. */
  predicate Conserved(s: State, m: Msg)
  {
    && s.cursor <= |s.stream|
    && (if m.kind.Direct?
        then multiset(s.stream[s.cursor..])[m] + Sum(s.nodes, Held(m)) + s.unpublished[m] + s.unhandled[m]
        else multiset(s.stream)[m] + Sum(s.nodes, Held(m)) + s.unpublished[m]) == s.said[m]
  }

  ghost predicate AllConserved(s: State) { forall m :: Conserved(s, m) }

  lemma SayCounts(s: State, i: nat, m: Msg, x: Msg)
    requires Conserved(s, x) && i < |s.nodes|
    ensures Conserved(Step(s, Say(i, m)).value, x)
  {
    hide Sum;
    SumUpdate(s.nodes, i, s.nodes[i].(publishing := s.nodes[i].publishing + [m]), Held(x));
  }

  lemma MultisetRemoved(ms: seq<Msg>, k: nat)
    requires k < |ms|
    ensures multiset(ms) == multiset(Removed(ms, k)) + multiset{ms[k]}
  {
    assert ms == ms[..k] + ([ms[k]] + ms[k + 1..]);
  }

  lemma PublishCounts(s: State, i: nat, k: nat, ok: bool, x: Msg)
    requires Conserved(s, x) && i < |s.nodes| && k < |s.nodes[i].publishing|
    ensures Conserved(Step(s, if ok then PublishOk(i, k) else PublishFails(i, k)).value, x)
  {
    hide Sum;
    var n := s.nodes[i];
    var m := n.publishing[k];
    SumUpdate(s.nodes, i, n.(publishing := Removed(n.publishing, k)), Held(x));
    MultisetRemoved(n.publishing, k);
    hide Removed;
    assert (s.stream + [m])[s.cursor..] == s.stream[s.cursor..] + [m];
  }

  lemma ReadCounts(s: State, i: nat, c: nat, x: Msg)
    requires Conserved(s, x) && Step(s, Read(i, c)).Some?
    ensures Conserved(Step(s, Read(i, c)).value, x)
  {
    hide Sum;
    var batch := s.stream[s.cursor..s.cursor + c];
    SumUpdate(s.nodes, i, s.nodes[i].(inbox := batch, at := s.cursor), Held(x));
    assert s.stream[s.cursor..] == batch + s.stream[s.cursor + c..];
  }

  /** A direct message moves from the batch to the publishes; a chat message is not held in the batch. */
  lemma HandleHolds(s: State, i: nat, x: Msg)
    requires Step(s, Handle(i)).Some?
    ensures Held(x)(Step(s, Handle(i)).value.nodes[i]) == Held(x)(s.nodes[i])
  {
    var n := s.nodes[i];
    assert n.inbox == [n.inbox[0]] + n.inbox[1..];
    assert multiset(n.inbox)[x] == multiset(n.inbox[1..])[x] + if n.inbox[0] == x then 1 else 0;
    assert multiset(n.publishing + [n.inbox[0]])[x] == multiset(n.publishing)[x] + if n.inbox[0] == x then 1 else 0;
  }

  lemma HandleCounts(s: State, i: nat, x: Msg)
    requires Conserved(s, x) && Step(s, Handle(i)).Some?
    ensures Conserved(Step(s, Handle(i)).value, x)
  {
    HandleHolds(s, i, x);
    hide Sum, Held;
    SumUpdate(s.nodes, i, Step(s, Handle(i)).value.nodes[i], Held(x));
  }

  lemma CrashCounts(s: State, i: nat, x: Msg)
    requires Conserved(s, x) && i < |s.nodes|
    ensures Conserved(Step(s, Crash(i)).value, x)
  {
    hide Sum;
    SumUpdate(s.nodes, i, Node([], [], 0), Held(x));
  }

  lemma StepConserves(s: State, l: Label, x: Msg)
    requires Conserved(s, x) && Step(s, l).Some?
    ensures Conserved(Step(s, l).value, x)
  {
    hide Conserved;
    match l {
      case Say(i, m) => SayCounts(s, i, m, x);
      case PublishOk(i, k) => PublishCounts(s, i, k, true, x);
      case PublishFails(i, k) => PublishCounts(s, i, k, false, x);
      case Read(i, c) => ReadCounts(s, i, c, x);
      case Handle(i) => HandleCounts(s, i, x);
      case Crash(i) => CrashCounts(s, i, x);
    }
  }

  // ----- Who said it ----------------------------------------------------------------------------

  /** Every entry of the stream was said by some user, word for word. */
  ghost predicate Authentic(s: State) { forall i :: 0 <= i < |s.stream| ==> s.stream[i] in s.said }

  lemma {:induction false} HeldAtLeast(ns: seq<Node>, i: nat, m: Msg)
    requires i < |ns|
    ensures 0 <= Held(m)(ns[i]) <= Sum(ns, Held(m))
  {
    var k := |ns| - 1;
    HeldNonNegative(ns[..k], m);
    if i < k {
      HeldAtLeast(ns[..k], i, m);
    }
  }

  lemma {:induction false} HeldNonNegative(ns: seq<Node>, m: Msg)
    ensures Sum(ns, Held(m)) >= 0
  {
    if ns != [] {
      HeldNonNegative(ns[..|ns| - 1], m);
    }
  }

  lemma AuthenticKept(s: State, l: Label)
    requires AllConserved(s) && Authentic(s) && Step(s, l).Some?
    ensures Authentic(Step(s, l).value)
  {
    if l.PublishOk? {
      var m := s.nodes[l.i].publishing[l.k];
      assert m in multiset(s.nodes[l.i].publishing);
      assert Conserved(s, m);
      HeldAtLeast(s.nodes, l.i, m);
    }
    hide Sum, AllConserved, Conserved;
  }

  // ----- Each entry is handed to one reader -----------------------------------------------------

  /** Entry e was read by node n and is not handled yet. */
  predicate Holds(n: Node, e: nat) { n.at <= e < n.at + |n.inbox| }

  predicate Intact(n: Node, stream: seq<Msg>, cursor: nat)
  {
    n.inbox == [] || (n.at + |n.inbox| <= cursor <= |stream| && n.inbox == stream[n.at..n.at + |n.inbox|])
  }

  /** Batches are intact, no entry is in two of them, and what was broadcast is in none any more and was
      broadcast as it stands in the stream. */
  ghost predicate Handed(s: State) { HandedOut(s.nodes, s.stream, s.cursor, s.remote) }

  ghost predicate HandedOut(nodes: seq<Node>, stream: seq<Msg>, cursor: nat, remote: seq<Remote>)
  {
    && cursor <= |stream|
    && (forall i :: 0 <= i < |nodes| ==> Intact(nodes[i], stream, cursor))
    && (forall i, j, e :: 0 <= i < j < |nodes| ==> !(Holds(nodes[i], e) && Holds(nodes[j], e)))
    && (forall r :: r in remote ==> r.at < cursor && stream[r.at] == r.m && r.m.kind.Message?)
    && (forall r, i :: r in remote && 0 <= i < |nodes| ==> !Holds(nodes[i], r.at))
    && (forall a, b :: 0 <= a < b < |remote| ==> remote[a].at != remote[b].at)
  }

  /** A node whose batch shrinks, and a stream that grows, keep the hand-out discipline. */
  lemma ShrinkHanded(s: State, i: nat, n: Node, stream: seq<Msg>)
    requires Handed(s) && i < |s.nodes| && s.stream <= stream
    requires Intact(n, s.stream, s.cursor) && forall e :: Holds(n, e) ==> Holds(s.nodes[i], e)
    ensures HandedOut(s.nodes[i := n], stream, s.cursor, s.remote)
  {
    var nodes := s.nodes[i := n];
    forall j | 0 <= j < |nodes| ensures Intact(nodes[j], stream, s.cursor) {
      var m := nodes[j];
      if m.inbox != [] {
        assert stream[m.at..m.at + |m.inbox|] == s.stream[m.at..m.at + |m.inbox|];
      }
    }
  }

  lemma ReadHanded(s: State, i: nat, c: nat)
    requires Handed(s) && Step(s, Read(i, c)).Some?
    ensures Handed(Step(s, Read(i, c)).value)
  {
    var s' := Step(s, Read(i, c)).value;
    forall j | 0 <= j < |s'.nodes| ensures Intact(s'.nodes[j], s'.stream, s'.cursor) {
      assert j != i ==> Intact(s.nodes[j], s.stream, s.cursor);
    }
    forall j, e: nat | 0 <= j < |s.nodes| && j != i && Holds(s.nodes[j], e) ensures e < s.cursor {
      assert Intact(s.nodes[j], s.stream, s.cursor);
    }
  }

  lemma HandleHanded(s: State, i: nat)
    requires Handed(s) && Step(s, Handle(i)).Some?
    ensures Handed(Step(s, Handle(i)).value)
  {
    var n, s' := s.nodes[i], Step(s, Handle(i)).value;
    assert Intact(n, s.stream, s.cursor);
    assert n.inbox[0] == s.stream[n.at];
    var n' := s'.nodes[i];
    assert Intact(n', s.stream, s.cursor) by {
      assert n.inbox[1..] == s.stream[n.at + 1..n.at + |n.inbox|];
    }
    ShrinkHanded(s, i, n', s.stream);
    if n.inbox[0].kind.Message? {
      assert Holds(n, n.at) && forall r :: r in s.remote ==> r.at != n.at;
      forall j | 0 <= j < |s'.nodes| ensures !Holds(s'.nodes[j], n.at) {
        assert j != i ==> !(Holds(s.nodes[i], n.at) && Holds(s.nodes[j], n.at));
      }
    }
  }

  lemma HandedKept(s: State, l: Label)
    requires Handed(s) && Step(s, l).Some?
    ensures Handed(Step(s, l).value)
  {
    var n := s.nodes[l.i];
    assert Intact(n, s.stream, s.cursor);
    hide HandedOut;
    match l {
      case Say(i, m) => ShrinkHanded(s, i, n.(publishing := n.publishing + [m]), s.stream);
      case PublishOk(i, k) =>
        ShrinkHanded(s, i, n.(publishing := Removed(n.publishing, k)), s.stream + [n.publishing[k]]);
      case PublishFails(i, k) => ShrinkHanded(s, i, n.(publishing := Removed(n.publishing, k)), s.stream);
      case Read(i, c) => ReadHanded(s, i, c);
      case Handle(i) => HandleHanded(s, i);
      case Crash(i) => ShrinkHanded(s, i, Node([], [], 0), s.stream);
    }
  }

  ghost predicate Inv(s: State) { AllConserved(s) && Authentic(s) && Handed(s) }

  lemma StepKeeps(s: State, l: Label)
    requires Inv(s) && Step(s, l).Some?
    ensures Inv(Step(s, l).value)
  {
    HandedKept(s, l);
    AuthenticKept(s, l);
    hide Handed, Authentic, Conserved, Step;
    forall x ensures Conserved(Step(s, l).value, x) {
      StepConserves(s, l, x);
    }
  }

  lemma {:induction false} RunKeeps(s: State, ls: seq<Label>)
    requires Inv(s) && Run(s, ls).Some?
    ensures Inv(Run(s, ls).value)
    decreases ls
  {
    hide Inv;
    if ls != [] {
      StepKeeps(s, ls[0]);
      RunKeeps(Step(s, ls[0]).value, ls[1..]);
    }
  }

  lemma InitInv(n: nat)
    ensures Inv(Init(n))
  {
    forall x ensures Conserved(Init(n), x) {
      SumZero(Init(n).nodes, Held(x));
    }
  }

  /** What users sent, read off the labels. */
  function Said(ls: seq<Label>): multiset<Msg>
  {
    if ls == [] then multiset{} else (if ls[0].Say? then multiset{ls[0].m} else multiset{}) + Said(ls[1..])
  }

  /** Nothing is lost but by a failed publish or a crash. */
  predicate Smooth(ls: seq<Label>) { forall i :: 0 <= i < |ls| ==> !ls[i].PublishFails? && !ls[i].Crash? }

  lemma {:induction false} SaidIs(s: State, ls: seq<Label>)
    requires Run(s, ls).Some?
    ensures Run(s, ls).value.said == s.said + Said(ls)
    decreases ls
  {
    if ls != [] {
      assert Step(s, ls[0]).value.said == s.said + if ls[0].Say? then multiset{ls[0].m} else multiset{};
      hide Step;
      SaidIs(Step(s, ls[0]).value, ls[1..]);
    }
  }

  lemma {:induction false} SmoothLosesNothing(s: State, ls: seq<Label>)
    requires Run(s, ls).Some? && Smooth(ls)
    ensures Run(s, ls).value.unpublished == s.unpublished && Run(s, ls).value.unhandled == s.unhandled
    decreases ls
  {
    if ls != [] {
      LosesExactly(s, ls[0]);
      hide Step;
      SmoothLosesNothing(Step(s, ls[0]).value, ls[1..]);
    }
  }

  /** When a step can be taken: in particular a node reads between 1 and 100 of the entries not yet handed
      out, and only when its last batch is handled. */
  predicate CanStep(s: State, l: Label)
  {
    l.i < |s.nodes| &&
    match l
    case PublishOk(i, k) => k < |s.nodes[i].publishing|
    case PublishFails(i, k) => k < |s.nodes[i].publishing|
    case Read(i, c) => s.nodes[i].inbox == [] && 1 <= c <= 100 && s.cursor + c <= |s.stream|
    case Handle(i) => s.nodes[i].inbox != []
    case _ => true
  }

  lemma StepsExactly(s: State, l: Label)
    ensures Step(s, l).Some? <==> CanStep(s, l)
  {
  }

  /** A failed publish loses that message, a crash what its node was to publish or handle, and no other step
      loses anything. */
  lemma LosesExactly(s: State, l: Label)
    requires Step(s, l).Some?
    ensures var s', n := Step(s, l).value, s.nodes[l.i];
      && s'.unpublished == s.unpublished + (match l case PublishFails(_, k) => multiset{n.publishing[k]}
                                                    case Crash(_) => multiset(n.publishing)
                                                    case _ => multiset{})
      && s'.unhandled == s.unhandled + if l.Crash? then multiset(n.inbox) else multiset{}
  {
    if l.PublishFails? {
      assert multiset([s.nodes[l.i].publishing[l.k]]) == multiset{s.nodes[l.i].publishing[l.k]};
    }
  }

  /** In every run of n nodes, for every message by its contents: direct messages are conserved, chat
      messages never echo, every entry of the stream was said by a user, and each entry causes at most one
      remote broadcast over the whole group, with the sender and text of a message said. */
  lemma BusLaws(n: nat, ls: seq<Label>)
    requires Run(Init(n), ls).Some?
    ensures var s := Run(Init(n), ls).value;
      && s.said == Said(ls) && (forall m :: Conserved(s, m))
      && (forall i :: 0 <= i < |s.stream| ==> s.stream[i] in Said(ls))
      && (forall a, b :: 0 <= a < b < |s.remote| ==> s.remote[a].at != s.remote[b].at)
      && (forall r :: r in s.remote ==>
            r.at < s.cursor <= |s.stream| && s.stream[r.at] == r.m && r.m.kind.Message? && r.m in Said(ls))
  {
    InitInv(n);
    RunKeeps(Init(n), ls);
    SaidIs(Init(n), ls);
    hide Run, Said, Conserved;
  }

  /** Without failures: a direct message is unread or held exactly as often as it was sent, and a chat message
      published or waiting to be exactly as often as it was said. */
  lemma SmoothLaws(n: nat, ls: seq<Label>, m: Msg)
    requires Run(Init(n), ls).Some? && Smooth(ls)
    ensures var s := Run(Init(n), ls).value;
      && s.cursor <= |s.stream|
      && multiset(if m.kind.Direct? then s.stream[s.cursor..] else s.stream)[m] + Sum(s.nodes, Held(m)) == Said(ls)[m]
  {
    InitInv(n);
    RunKeeps(Init(n), ls);
    SaidIs(Init(n), ls);
    SmoothLosesNothing(Init(n), ls);
    assert Conserved(Run(Init(n), ls).value, m);
    hide Run, Said, Sum;
  }

  // ----- Without crashes every handed-out chat message is broadcast ------------------------------

  predicate CrashFree(ls: seq<Label>) { forall i :: 0 <= i < |ls| ==> !ls[i].Crash? }

  /** Entry e was broadcast. */
  ghost predicate Broadcast(s: State, e: nat) { exists i :: 0 <= i < |s.remote| && s.remote[i].at == e }

  /** Every chat message handed out was broadcast or is waiting in a batch. */
  ghost predicate Covered(s: State)
  {
    forall e: nat :: e < s.cursor <= |s.stream| && s.stream[e].kind.Message? ==>
      Seen(s, e)
  }

  /** Entry e was broadcast or waits in a batch. */
  ghost predicate Seen(s: State, e: nat) { Broadcast(s, e) || exists i :: 0 <= i < |s.nodes| && Holds(s.nodes[i], e) }

  /** A batch loses only its first entry, and only when that is handled. */
  lemma BatchKept(s: State, l: Label, i: nat, e: nat)
    requires Step(s, l).Some? && !l.Crash? && i < |s.nodes| && Holds(s.nodes[i], e)
    ensures |Step(s, l).value.nodes| == |s.nodes|
    ensures !(l.Handle? && i == l.i && e == s.nodes[i].at) ==> Holds(Step(s, l).value.nodes[i], e)
  {
  }

  lemma SeenKept(s: State, l: Label, e: nat)
    requires Handed(s) && Step(s, l).Some? && !l.Crash? && Seen(s, e) && e < |s.stream| && s.stream[e].kind.Message?
    ensures Seen(Step(s, l).value, e)
  {
    var s' := Step(s, l).value;
    assert s.remote <= s'.remote;
    if Broadcast(s, e) {
      var r :| 0 <= r < |s.remote| && s.remote[r].at == e;
      assert s'.remote[r].at == e;
    } else {
      var i :| 0 <= i < |s.nodes| && Holds(s.nodes[i], e);
      BatchKept(s, l, i, e);
      if l.Handle? && i == l.i && e == s.nodes[i].at {
        assert Intact(s.nodes[i], s.stream, s.cursor) && s.nodes[i].inbox[0] == s.stream[e];
        assert s'.remote[|s.remote|].at == e;
      }
    }
  }

  lemma CoveredKept(s: State, l: Label)
    requires Handed(s) && Covered(s) && Step(s, l).Some? && !l.Crash?
    ensures Covered(Step(s, l).value)
  {
    var s' := Step(s, l).value;
    assert s.stream <= s'.stream && (s'.cursor == s.cursor || l.Read?);
    forall e: nat | e < s'.cursor <= |s'.stream| && s'.stream[e].kind.Message? ensures Seen(s', e) {
      if e >= s.cursor {
        assert Holds(s'.nodes[l.i], e);
      } else {
        assert s'.stream[e] == s.stream[e];
        SeenKept(s, l, e);
      }
    }
    hide Step, Seen;
  }

  lemma {:induction false} CoveredRun(s: State, ls: seq<Label>)
    requires Handed(s) && Covered(s) && Run(s, ls).Some? && CrashFree(ls)
    ensures Handed(Run(s, ls).value) && Covered(Run(s, ls).value)
    decreases ls
  {
    if ls != [] {
      hide Handed, Covered;
      HandedKept(s, ls[0]);
      CoveredKept(s, ls[0]);
      CoveredRun(Step(s, ls[0]).value, ls[1..]);
    }
  }

  /** In a crash-free run whose batches are all handled, the remote broadcasts are exactly the chat
      messages handed out, each once: other nodes of the group never see them. */
  lemma ExactlyOneBroadcast(n: nat, ls: seq<Label>)
    requires Run(Init(n), ls).Some? && CrashFree(ls)
    requires forall i :: 0 <= i < |Run(Init(n), ls).value.nodes| ==> Run(Init(n), ls).value.nodes[i].inbox == []
    ensures var s := Run(Init(n), ls).value;
      && s.cursor <= |s.stream|
      && (forall e: nat :: Broadcast(s, e) <==> e < s.cursor && s.stream[e].kind.Message?)
      && (forall r :: r in s.remote ==> r.at < |s.stream| && r.m == s.stream[r.at])
      && (forall a, b :: 0 <= a < b < |s.remote| ==> s.remote[a].at != s.remote[b].at)
  {
    InitInv(n);
    CoveredRun(Init(n), ls);
    hide Run;
    var s := Run(Init(n), ls).value;
    forall e: nat | Broadcast(s, e) ensures e < s.cursor && s.stream[e].kind.Message? {
      var i :| 0 <= i < |s.remote| && s.remote[i].at == e;
      assert s.remote[i] in s.remote;
    }
  }

  // ----- Direct messages never drain ------------------------------------------------------------

  lemma {:induction false} SomePositive(ns: seq<Node>, m: Msg) returns (i: nat)
    requires Sum(ns, Held(m)) > 0
    ensures i < |ns| && Held(m)(ns[i]) > 0
  {
    var k := |ns| - 1;
    if Held(m)(ns[k]) > 0 {
      return k;
    }
    i := SomePositive(ns[..k], m);
  }

  lemma Find(ms: seq<Msg>, m: Msg) returns (k: nat)
    requires m in multiset(ms)
    ensures k < |ms| && ms[k] == m
  {
    assert m in ms;
    k :| 0 <= k < |ms| && ms[k] == m;
  }

  /** Labels that neither users nor failures cause. */
  predicate Internal(ls: seq<Label>)
  {
    forall i :: 0 <= i < |ls| ==> ls[i].PublishOk? || ls[i].Read? || ls[i].Handle?
  }

  function Backlog(n: Node): int { |n.inbox| }

  lemma {:induction false} SumNonNegative(ns: seq<Node>)
    ensures Sum(ns, Backlog) >= 0
  {
    if ns != [] {
      SumNonNegative(ns[..|ns| - 1]);
    }
  }

  /** Work left before some held direct message is published again. */
  function Distance(s: State): int
  {
    2 * (|s.stream| - s.cursor) + Sum(s.nodes, Backlog)
  }

  /** Some copy of the direct message m is not lost. */
  predicate LiveCopy(s: State, m: Msg) { m.kind.Direct? && s.said[m] > s.unpublished[m] + s.unhandled[m] }

  ghost predicate Alive(s: State) { |s.nodes| > 0 && exists m :: LiveCopy(s, m) }

  /** One internal step: either a direct message is published again, or the work left shrinks. */
  lemma PumpStep(s: State) returns (l: Label)
    requires Inv(s) && Alive(s)
    ensures Step(s, l).Some? && Internal([l]) && Alive(Step(s, l).value)
    ensures (l.PublishOk? && Count(Step(s, l).value.stream, Direct) == Count(s.stream, Direct) + 1)
            || (Step(s, l).value.stream == s.stream && 0 <= Distance(Step(s, l).value) < Distance(s))
  {
    var m :| LiveCopy(s, m);
    if Sum(s.nodes, Held(m)) > 0 {
      var i := SomePositive(s.nodes, m);
      l := MoveHeld(s, i, m);
    } else {
      IsUnread(s, m);
      l := ReadSomewhere(s);
    }
    AliveStays(s, Step(s, l).value);
    hide Inv, Count, Distance, Sum, Step, Alive, LiveCopy;
  }

  lemma IsUnread(s: State, m: Msg)
    requires Inv(s) && LiveCopy(s, m) && Sum(s.nodes, Held(m)) <= 0
    ensures s.cursor < |s.stream|
  {
    assert Conserved(s, m);
    hide Sum, Handed, Authentic;
  }

  lemma AliveStays(s: State, s': State)
    requires SameSaid(s, s') && |s'.nodes| == |s.nodes| && Alive(s)
    ensures Alive(s')
  {
    var m :| LiveCopy(s, m);
    assert LiveCopy(s', m);
  }

  /** A node that holds m publishes it, or works off its batch. */
  lemma MoveHeld(s: State, i: nat, m: Msg) returns (l: Label)
    requires Inv(s) && i < |s.nodes| && Held(m)(s.nodes[i]) > 0 && m.kind.Direct?
    ensures Step(s, l).Some? && Internal([l]) && |Step(s, l).value.nodes| == |s.nodes| && SameSaid(s, Step(s, l).value)
    ensures (l.PublishOk? && Count(Step(s, l).value.stream, Direct) == Count(s.stream, Direct) + 1)
            || (Step(s, l).value.stream == s.stream && 0 <= Distance(Step(s, l).value) < Distance(s))
  {
    var n := s.nodes[i];
    if m in multiset(n.publishing) {
      var k := Find(n.publishing, m);
      l := PublishOk(i, k);
      CountConcat(s.stream, [m], Direct);
      CountOne(m, Direct);
    } else {
      l := Handle(i);
      SumUpdate(s.nodes, i, Step(s, l).value.nodes[i], Backlog);
      SumNonNegative(Step(s, l).value.nodes);
    }
    hide Inv, Count, Sum;
  }

  /** With unread entries and nothing held anywhere, some node can read or work off its batch. */
  lemma ReadSomewhere(s: State) returns (l: Label)
    requires Inv(s) && |s.nodes| > 0 && s.cursor < |s.stream|
    ensures Step(s, l).Some? && Internal([l]) && Step(s, l).value.stream == s.stream
    ensures |Step(s, l).value.nodes| == |s.nodes| && SameSaid(s, Step(s, l).value)
    ensures 0 <= Distance(Step(s, l).value) < Distance(s)
  {
    hide Count, AllConserved, Authentic;
    assert s.cursor <= |s.stream|;
    hide Inv, Handed;
    l := if s.nodes[0].inbox == [] then Read(0, 1) else Handle(0);
    SumUpdate(s.nodes, 0, Step(s, l).value.nodes[0], Backlog);
    SumNonNegative(Step(s, l).value.nodes);
  }

  lemma {:induction false} RunConcat(s: State, a: seq<Label>, b: seq<Label>)
    requires Run(s, a).Some?
    ensures Run(s, a + b) == Run(Run(s, a).value, b)
    decreases a
  {
    if a == [] {
      assert a + b == b;
    } else {
      assert (a + b)[1..] == a[1..] + b;
      RunConcat(Step(s, a[0]).value, a[1..], b);
    }
  }

  /** Some internal run publishes one more direct entry. */
  lemma {:induction false} Pump(s: State) returns (ls: seq<Label>)
    requires Inv(s) && Alive(s)
    ensures Internal(ls) && Run(s, ls).Some? && Inv(Run(s, ls).value) && Alive(Run(s, ls).value)
    ensures Count(Run(s, ls).value.stream, Direct) == Count(s.stream, Direct) + 1
    decreases Distance(s)
  {
    var l := PumpStep(s);
    StepKeeps(s, l);
    var s' := Step(s, l).value;
    assert [l][1..] == [] && Run(s, [l]) == Some(s');
    hide Inv, Count, Alive;
    if l.PublishOk? {
      ls := [l];
    } else {
      var more := Pump(s');
      ls := [l] + more;
      RunConcat(s, [l], more);
    }
  }

  /** The system never drains: once a direct message was sent and not lost, the nodes alone, with no
      user sending anything, publish direct entries without bound. */
  lemma {:induction false} NeverDrains(s: State, k: nat) returns (ls: seq<Label>)
    requires Inv(s) && Alive(s)
    ensures Internal(ls) && Run(s, ls).Some?
    ensures Count(Run(s, ls).value.stream, Direct) == Count(s.stream, Direct) + k
    decreases k
  {
    if k == 0 {
      return [];
    }
    var first := Pump(s);
    var rest := NeverDrains(Run(s, first).value, k - 1);
    ls := first + rest;
    RunConcat(s, first, rest);
  }

  // ----- Every internal run keeps publishing ----------------------------------------------------

  /** Internal steps a node can take without publishing a direct message: each pending chat publish is
      also read and handled later. */
  function Work(n: Node): int { |n.inbox| + 3 * Count(n.publishing, Message) }

  function Potential(s: State): int { 2 * (|s.stream| - s.cursor) + Sum(s.nodes, Work) }

  lemma {:induction false} WorkNonNegative(ns: seq<Node>)
    ensures Sum(ns, Work) >= 0
  {
    if ns != [] {
      WorkNonNegative(ns[..|ns| - 1]);
    }
  }

  /** Nothing was said or lost between two states. */
  predicate SameSaid(s: State, s': State)
  {
    s'.said == s.said && s'.unpublished == s.unpublished && s'.unhandled == s.unhandled
  }

  lemma PublishPays(s: State, i: nat, k: nat)
    requires s.cursor <= |s.stream| && Step(s, PublishOk(i, k)).Some?
    ensures var s' := Step(s, PublishOk(i, k)).value;
      1 + Potential(s') <= Potential(s) + 3 * (Count(s'.stream, Direct) - Count(s.stream, Direct))
  {
    hide Count, Sum;
    var n := s.nodes[i];
    var m := n.publishing[k];
    SumUpdate(s.nodes, i, n.(publishing := Removed(n.publishing, k)), Work);
    CountRemoved(n.publishing, k, Message);
    CountConcat(s.stream, [m], Direct);
    CountOne(m, Direct);
    CountOne(m, Message);
    hide Removed;
  }

  lemma HandlePays(s: State, i: nat)
    requires s.cursor <= |s.stream| && Step(s, Handle(i)).Some?
    ensures 1 + Potential(Step(s, Handle(i)).value) <= Potential(s)
  {
    hide Count, Sum;
    var n, n' := s.nodes[i], Step(s, Handle(i)).value.nodes[i];
    SumUpdate(s.nodes, i, n', Work);
    CountConcat(n.publishing, [n.inbox[0]], Message);
    CountOne(n.inbox[0], Message);
    assert Work(n') == Work(n) - 1;
  }

  lemma ReadPays(s: State, i: nat, c: nat)
    requires s.cursor <= |s.stream| && Step(s, Read(i, c)).Some?
    ensures 1 + Potential(Step(s, Read(i, c)).value) <= Potential(s)
  {
    hide Count, Sum;
    SumUpdate(s.nodes, i, s.nodes[i].(inbox := s.stream[s.cursor..s.cursor + c], at := s.cursor), Work);
  }

  /** A step either uses up potential or publishes a direct message, which adds two to it. */
  lemma InternalStep(s: State, l: Label)
    requires s.cursor <= |s.stream| && Internal([l]) && Step(s, l).Some?
    ensures var s' := Step(s, l).value;
      && s'.cursor <= |s'.stream| && SameSaid(s, s')
      && 1 + Potential(s') <= Potential(s) + 3 * (Count(s'.stream, Direct) - Count(s.stream, Direct))
  {
    assert [l][0] == l;
    hide Count, Sum, Potential;
    match l {
      case PublishOk(i, k) => PublishPays(s, i, k);
      case Handle(i) => HandlePays(s, i);
      case Read(i, c) => ReadPays(s, i, c);
    }
  }

  lemma InternalParts(ls: seq<Label>)
    requires Internal(ls) && ls != []
    ensures Internal([ls[0]]) && Internal(ls[1..])
  {
  }

  /** In every run of internal steps, whatever the schedule, all steps but a fixed number are paid for by
      direct messages published again: more than Potential(s) + 3 * k steps publish more than k. */
  lemma {:induction false} Circulation(s: State, ls: seq<Label>)
    requires s.cursor <= |s.stream| && Internal(ls) && Run(s, ls).Some?
    ensures var e := Run(s, ls).value;
      && SameSaid(s, e)
      && Potential(e) >= 0
      && |ls| + Potential(e) <= Potential(s) + 3 * (Count(e.stream, Direct) - Count(s.stream, Direct))
      && e.cursor <= |e.stream|
    decreases ls
  {
    if ls == [] {
      WorkNonNegative(s.nodes);
    } else {
      InternalParts(ls);
      InternalStep(s, ls[0]);
      hide Step, Potential, Count, Internal;
      Circulation(Step(s, ls[0]).value, ls[1..]);
    }
  }

  /** While a direct message is alive the nodes are never stuck, so internal runs can always go on. */
  lemma NeverStuck(s: State, ls: seq<Label>) returns (l: Label)
    requires Inv(s) && Alive(s) && Internal(ls) && Run(s, ls).Some?
    ensures Step(Run(s, ls).value, l).Some? && Internal([l])
  {
    RunKeeps(s, ls);
    Circulation(s, ls);
    NodesStay(s, ls);
    AliveStays(s, Run(s, ls).value);
    hide Run, Inv, Alive;
    l := PumpStep(Run(s, ls).value);
  }

  lemma {:induction false} NodesStay(s: State, ls: seq<Label>)
    requires Run(s, ls).Some?
    ensures |Run(s, ls).value.nodes| == |s.nodes|
    decreases ls
  {
    if ls != [] {
      assert |Step(s, ls[0]).value.nodes| == |s.nodes|;
      hide Step;
      NodesStay(Step(s, ls[0]).value, ls[1..]);
    }
  }

  /** Every copy of every direct message is lost. */
  ghost predicate Dead(s: State) { forall m :: !LiveCopy(s, m) }

  /** With every direct message lost, no step publishes one. */
  lemma DeadStep(s: State, l: Label)
    requires Inv(s) && Dead(s) && Internal([l]) && Step(s, l).Some?
    ensures Count(Step(s, l).value.stream, Direct) == Count(s.stream, Direct)
  {
    assert [l][0] == l;
    if l.PublishOk? {
      var m := s.nodes[l.i].publishing[l.k];
      assert m in multiset(s.nodes[l.i].publishing);
      assert Conserved(s, m) && !LiveCopy(s, m);
      HeldAtLeast(s.nodes, l.i, m);
      CountConcat(s.stream, [m], Direct);
      CountOne(m, Direct);
    }
  }

  lemma {:induction false} DeadRun(s: State, ls: seq<Label>)
    requires Inv(s) && Dead(s) && Internal(ls) && Run(s, ls).Some?
    ensures Count(Run(s, ls).value.stream, Direct) == Count(s.stream, Direct)
    decreases ls
  {
    if ls != [] {
      InternalParts(ls);
      InternalStep(s, ls[0]);
      DeadStep(s, ls[0]);
      StepKeeps(s, ls[0]);
      hide Step, Potential, Count, Internal, Inv;
      assert forall m :: LiveCopy(Step(s, ls[0]).value, m) <==> LiveCopy(s, m);
      DeadRun(Step(s, ls[0]).value, ls[1..]);
    }
  }

  /** The system drains exactly when no direct message is alive: then no internal run publishes a direct
      entry or is longer than the potential; otherwise every internal run can be continued, and past the
      potential each three steps bring another direct entry. */
  lemma DrainsExactly(s: State, ls: seq<Label>) returns (next: Label)
    requires Inv(s) && |s.nodes| > 0 && Internal(ls) && Run(s, ls).Some?
    ensures var e := Run(s, ls).value;
      var published := Count(e.stream, Direct) - Count(s.stream, Direct);
      if Alive(s) then Step(e, next).Some? && Internal([next]) && |ls| <= Potential(s) + 3 * published
      else published == 0 && |ls| <= Potential(s)
  {
    Circulation(s, ls);
    if Alive(s) {
      next := NeverStuck(s, ls);
    } else {
      DeadRun(s, ls);
      next := Handle(0);
    }
  }
}
