/**
 Concurrent senders on one TCP session: SendEnvelope takes the session's write lock, encodes, and
 calls WriteFrame, which takes the codec's write lock and writes header and payload separately.
 A direct WriteFrame call without the session lock is allowed too.
 */
module Writers {
  import opened Sums
  import opened Frames

  datatype Phase =
    | Idle
    | WantSession(p: seq<byte>)
    | Encoding(p: seq<byte>)
    | WantCodec(p: seq<byte>, nested: bool)
    | HeaderNext(p: seq<byte>, nested: bool)
    | BodyNext(p: seq<byte>, nested: bool)
    | LeaveCodec(nested: bool)
    | LeaveSession

  /** `order` lists the payloads in the order in which the codec lock was taken for them; `cut` is the
      length of the wire right after the first conn.Write that failed; `refused` are the payloads that
      were too large or could not be encoded. */
  datatype State = State(senders: seq<Phase>, session: Option<nat>, codec: Option<nat>,
                         wire: seq<byte>, order: seq<seq<byte>>, cut: Option<nat>,
                         refused: multiset<seq<byte>>)

  datatype Label =
    | Send(i: nat, p: seq<byte>)        // SendEnvelope is called; p is what the envelope encodes to
    | SendFrame(i: nat, p: seq<byte>)   // WriteFrame is called directly
    | Proceed(i: nat)                   // the next step of sender i
    | EncodeFails(i: nat)
    | WriteFails(i: nat, k: nat)        // a conn.Write fails after k bytes

  function Init(n: nat): State { State(seq(n, _ => Idle), None, None, [], [], None, multiset{}) }

  /** A write that puts only these bytes on the wire and then fails. */
  function Break(s: State, bytes: seq<byte>): State
  {
    s.(wire := s.wire + bytes, cut := if s.cut.Some? then s.cut else Some(|s.wire + bytes|))
  }

  function Become(s: State, i: nat, ph: Phase): State
    requires i < |s.senders|
  {
    s.(senders := s.senders[i := ph])
  }

  function Refuse(s: State, i: nat, p: seq<byte>, ph: Phase): State
    requires i < |s.senders|
  {
    Become(s, i, ph).(refused := s.refused + multiset{p})
  }

  function Advance(s: State, i: nat): Option<State>
    requires i < |s.senders|
  {
    match s.senders[i]
    case Idle => None
    case WantSession(p) => if s.session.Some? then None else Some(Become(s, i, Encoding(p)).(session := Some(i)))
    case Encoding(p) =>
      Some(if |p| > MAX_FRAME then Refuse(s, i, p, LeaveSession) else Become(s, i, WantCodec(p, true)))
    case WantCodec(p, n) =>
      if s.codec.Some? then None
      else Some(Become(s, i, HeaderNext(p, n)).(codec := Some(i), order := s.order + [p]))
    case HeaderNext(p, n) => Some(Become(s, i, BodyNext(p, n)).(wire := s.wire + Header(|p|)))
    case BodyNext(p, n) => Some(Become(s, i, LeaveCodec(n)).(wire := s.wire + p))
    case LeaveCodec(n) => Some(Become(s, i, if n then LeaveSession else Idle).(codec := None))
    case LeaveSession => Some(Become(s, i, Idle).(session := None))
  }

  function Step(s: State, l: Label): Option<State>
  {
    if l.i >= |s.senders| then None else
    match l
    case Send(i, p) => if s.senders[i].Idle? then Some(Become(s, i, WantSession(p))) else None
    case SendFrame(i, p) =>
      if !s.senders[i].Idle? then None
      else Some(if |p| > MAX_FRAME then Refuse(s, i, p, Idle) else Become(s, i, WantCodec(p, false)))
    case Proceed(i) => Advance(s, i)
    case EncodeFails(i) =>
      if s.senders[i].Encoding? then Some(Refuse(s, i, s.senders[i].p, LeaveSession)) else None
    case WriteFails(i, k) =>
      match s.senders[i]
      case HeaderNext(p, n) =>
        if k <= 4 then Some(Break(Become(s, i, LeaveCodec(n)), Header(|p|)[..k])) else None
      case BodyNext(p, n) =>
        if k <= |p| then Some(Break(Become(s, i, LeaveCodec(n)), p[..k])) else None
      case _ => None
  }

  function Run(s: State, ls: seq<Label>): Option<State>
    decreases ls
  {
    if ls == [] then Some(s) else
    match Step(s, ls[0])
    case None => None
    case Some(s') => Run(s', ls[1..])
  }

  predicate InSession(ph: Phase)
  {
    ph.Encoding? || ph.LeaveSession?
    || ((ph.WantCodec? || ph.HeaderNext? || ph.BodyNext? || ph.LeaveCodec?) && ph.nested)
  }

  predicate InCodec(ph: Phase) { ph.HeaderNext? || ph.BodyNext? || ph.LeaveCodec? }

  /** Each lock is held exactly by the sender inside it. */
  predicate Locked(senders: seq<Phase>, session: Option<nat>, codec: Option<nat>)
  {
    && (forall i :: 0 <= i < |senders| ==> (InSession(senders[i]) <==> session == Some(i)))
    && (forall i :: 0 <= i < |senders| ==> (InCodec(senders[i]) <==> codec == Some(i)))
    && (session.Some? ==> session.value < |senders|)
    && (codec.Some? ==> codec.value < |senders|)
    && (forall i :: 0 <= i < |senders| && senders[i].WantCodec? ==> |senders[i].p| <= MAX_FRAME)
  }

  /** The payload whose frame is under way, if any. */
  function Current(s: State): Option<seq<byte>>
  {
    if s.codec.Some? && s.codec.value < |s.senders| then
      match s.senders[s.codec.value]
      case HeaderNext(p, _) => Some(p)
      case BodyNext(p, _) => Some(p)
      case _ => None
    else None
  }

  /** The part of that frame already on the wire. */
  function Partial(s: State): seq<byte>
  {
    if s.codec.Some? && s.codec.value < |s.senders| && s.senders[s.codec.value].BodyNext?
    then Header(|s.senders[s.codec.value].p|) else []
  }

  /** The completed frames. */
  function Complete(s: State): seq<seq<byte>>
  {
    if Current(s).Some? && s.order != [] then s.order[..|s.order| - 1] else s.order
  }

  predicate OnWire(s: State)
  {
    && Writable(s.order)
    && (Current(s).Some? ==> s.order != [] && s.order[|s.order| - 1] == Current(s).value)
    && (s.cut.None? ==> s.wire == Wire(Complete(s)) + Partial(s))
    && (s.cut.Some? ==> s.cut.value <= |s.wire| && s.wire[..s.cut.value] <= Wire(s.order))
  }

  predicate Inv(s: State) { Locked(s.senders, s.session, s.codec) && OnWire(s) }

  lemma {:induction false} WireSnoc(ps: seq<seq<byte>>, p: seq<byte>)
    requires Writable(ps) && |p| <= MAX_FRAME
    ensures Writable(ps + [p]) && Wire(ps + [p]) == Wire(ps) + Framed(p)
  {
    hide Framed;
    if ps == [] {
      assert [p][1..] == [] && ps + [p] == [p];
    } else {
      assert (ps + [p])[1..] == ps[1..] + [p];
      WireSnoc(ps[1..], p);
    }
  }

  /** Replacing the phase of sender i keeps the lock discipline if the locks follow it. */
  lemma BecomeLocked(senders: seq<Phase>, session: Option<nat>, codec: Option<nat>, i: nat, ph: Phase)
    requires Locked(senders, session, codec) && i < |senders| && (ph.WantCodec? ==> |ph.p| <= MAX_FRAME)
    requires InSession(ph) ==> session == Some(i) || session.None?
    requires InCodec(ph) ==> codec == Some(i) || codec.None?
    ensures Locked(senders[i := ph], Holder(InSession(ph), session, i), Holder(InCodec(ph), codec, i))
  {
  }

  function Holder(inside: bool, lock: Option<nat>, i: nat): Option<nat>
  {
    if inside then Some(i) else if lock == Some(i) then None else lock
  }

  lemma AdvanceLocked(s: State, i: nat)
    requires Inv(s) && i < |s.senders| && Advance(s, i).Some?
    ensures var s' := Advance(s, i).value; Locked(s'.senders, s'.session, s'.codec)
  {
    hide Header, Wire;
    var s' := Advance(s, i).value;
    BecomeLocked(s.senders, s.session, s.codec, i, s'.senders[i]);
    match s.senders[i] case WantSession(_) => case Encoding(_) => case WantCodec(_, _) => case HeaderNext(_, _) =>
                       case BodyNext(_, _) => case LeaveCodec(_) => case LeaveSession =>
  }

  lemma LockedKept(s: State, l: Label)
    requires Inv(s) && Step(s, l).Some?
    ensures var s' := Step(s, l).value; Locked(s'.senders, s'.session, s'.codec)
  {
    hide Header, Wire;
    if l.Proceed? {
      AdvanceLocked(s, l.i);
    } else {
      var s' := Step(s, l).value;
      BecomeLocked(s.senders, s.session, s.codec, l.i, s'.senders[l.i]);
    }
  }

  /** Steps that touch neither the codec lock nor its holder leave the wire part alone. */
  lemma OnWireFrame(s: State, s': State, i: nat)
    requires Inv(s) && i < |s.senders| == |s'.senders| && s'.senders == s.senders[i := s'.senders[i]]
    requires !InCodec(s.senders[i]) && s'.codec == s.codec
    requires s'.wire == s.wire && s'.order == s.order && s'.cut == s.cut
    ensures OnWire(s')
  {
    hide Header, Wire;
    assert InCodec(s.senders[i]) <==> s.codec == Some(i);
  }

  lemma AdvanceOnWire(s: State, i: nat)
    requires Inv(s) && i < |s.senders| && InCodec(s.senders[i])
    ensures OnWire(Advance(s, i).value)
  {
    hide Header, Wire;
    match s.senders[i] {
      case HeaderNext(p, n) =>
      case BodyNext(p, n) =>
        var k := |s.order| - 1;
        WireSnoc(s.order[..k], p);
        assert s.order[..k] + [p] == s.order;
        assert Wire(s.order[..k]) + Header(|p|) + p == Wire(s.order[..k]) + Framed(p);
      case LeaveCodec(n) =>
    }
  }

  lemma AcquireOnWire(s: State, i: nat)
    requires Inv(s) && i < |s.senders| && s.senders[i].WantCodec? && s.codec.None?
    ensures OnWire(Advance(s, i).value)
  {
    hide Header, Wire;
    var s' := Advance(s, i).value;
    assert s'.order[..|s.order|] == s.order;
    WireSnoc(s.order, s.senders[i].p);
  }

  lemma FailOnWire(s: State, i: nat, k: nat)
    requires Inv(s) && Step(s, WriteFails(i, k)).Some?
    ensures OnWire(Step(s, WriteFails(i, k)).value)
  {
    hide Header, Wire;
    var s' := Step(s, WriteFails(i, k)).value;
    if s.cut.None? {
      FailFront(s, i, k);
    } else {
      assert s'.wire[..s.cut.value] == s.wire[..s.cut.value];
    }
  }

  /** The first failed write leaves the beginning of the frame under way. */
  lemma FailFront(s: State, i: nat, k: nat)
    requires Inv(s) && s.cut.None? && Step(s, WriteFails(i, k)).Some?
    ensures Step(s, WriteFails(i, k)).value.wire <= Wire(s.order)
  {
    hide Header, Wire;
    var n, p := |s.order| - 1, s.senders[i].p;
    assert InCodec(s.senders[i]) && Current(s) == Some(p);
    WireSnoc(s.order[..n], p);
    assert s.order[..n] + [p] == s.order;
    hide Locked, OnWire;
    var front := Wire(s.order[..n]);
    if s.senders[i].HeaderNext? {
      assert s.wire == front + [];
      assert front + Header(|p|)[..k] <= front + Framed(p);
    } else {
      assert s.wire == front + Header(|p|);
      assert front + Header(|p|) + p[..k] <= front + Framed(p);
    }
  }

  lemma OnWireKept(s: State, l: Label)
    requires Inv(s) && Step(s, l).Some?
    ensures OnWire(Step(s, l).value)
  {
    hide Header, Wire, OnWire;
    if l.Proceed? && InCodec(s.senders[l.i]) {
      AdvanceOnWire(s, l.i);
    } else if l.Proceed? && s.senders[l.i].WantCodec? {
      AcquireOnWire(s, l.i);
    } else if l.WriteFails? {
      FailOnWire(s, l.i, l.k);
    } else {
      OnWireFrame(s, Step(s, l).value, l.i);
    }
  }

  lemma {:induction false} RunKeeps(s: State, ls: seq<Label>)
    requires Inv(s) && Run(s, ls).Some?
    ensures Inv(Run(s, ls).value)
    decreases ls
  {
    if ls != [] {
      LockedKept(s, ls[0]);
      OnWireKept(s, ls[0]);
      RunKeeps(Step(s, ls[0]).value, ls[1..]);
    }
  }

  /** Under any interleaving of any number of senders in which no write failed, a quiet wire holds
      whole frames in lock order, and reading it back yields exactly those payloads, up to the first
      empty one. */
  lemma WholeFrames(n: nat, ls: seq<Label>)
    requires Run(Init(n), ls).Some?
    ensures var s := Run(Init(n), ls).value;
      s.cut.None? && s.codec.None? ==>
        && Writable(s.order) && s.wire == Wire(s.order)
        && Parse(s.wire) == UpToEmpty(s.order)
        && (Parse(s.wire) == s.order <==> NonEmpty(s.order))
  {
    RunKeeps(Init(n), ls);
    var s := Run(Init(n), ls).value;
    ReadBack(s.order);
    assert Wire(s.order) + [] == Wire(s.order);
  }

  /** The bytes on the wire are a prefix of the whole frames in lock order. */
  lemma Completion(s: State) returns (rest: seq<byte>)
    requires Inv(s) && s.cut.None?
    ensures s.wire + rest == Wire(s.order)
  {
    hide Header, Wire;
    rest := [];
    if Current(s).Some? {
      var k, p := |s.order| - 1, Current(s).value;
      WireSnoc(s.order[..k], p);
      assert s.order[..k] + [p] == s.order;
      rest := if s.senders[s.codec.value].BodyNext? then p else Framed(p);
    }
  }

  // ----- What was sent is what was asked for ----------------------------------------------------

  /** The payloads callers passed in, read off the labels. */
  function Called(ls: seq<Label>): multiset<seq<byte>>
  {
    if ls == [] then multiset{} else CallOf(ls[0]) + Called(ls[1..])
  }

  function CallOf(l: Label): multiset<seq<byte>> { if l.Send? || l.SendFrame? then multiset{l.p} else multiset{} }

  /** The payload of a call that has not got the codec lock yet. */
  function Waits(ph: Phase): multiset<seq<byte>>
  {
    if ph.WantSession? || ph.Encoding? || ph.WantCodec? then multiset{ph.p} else multiset{}
  }

  function AllWaiting(senders: seq<Phase>): multiset<seq<byte>>
  {
    if senders == [] then multiset{} else AllWaiting(senders[..|senders| - 1]) + Waits(senders[|senders| - 1])
  }

  lemma {:induction false} WaitingUpdate(senders: seq<Phase>, i: nat, ph: Phase, p: seq<byte>)
    requires i < |senders|
    ensures AllWaiting(senders[i := ph])[p] + Waits(senders[i])[p] == AllWaiting(senders)[p] + Waits(ph)[p]
  {
    var n := |senders| - 1;
    hide Waits;
    var changed := senders[i := ph];
    if i == n {
      assert changed[..n] == senders[..n];
    } else {
      assert changed[..n] == senders[..n][i := ph] && changed[n] == senders[n];
      WaitingUpdate(senders[..n], i, ph, p);
    }
  }

  /** Every payload of a call, wherever it is. */
  function Accounted(s: State): multiset<seq<byte>> { multiset(s.order) + AllWaiting(s.senders) + s.refused }

  /** The payloads of sender i, the order and the refused ones. */
  function Near(s: State, i: nat, p: seq<byte>): nat
    requires i < |s.senders|
  {
    multiset(s.order)[p] + Waits(s.senders[i])[p] + s.refused[p]
  }

  lemma AdvanceMoves(s: State, i: nat, p: seq<byte>)
    requires i < |s.senders| && Advance(s, i).Some?
    ensures var s' := Advance(s, i).value;
      |s'.senders| == |s.senders| && s'.senders == s.senders[i := s'.senders[i]] && Near(s', i, p) == Near(s, i, p)
  {
    hide Header;
    if s.senders[i].WantCodec? {
      assert multiset(s.order + [s.senders[i].p]) == multiset(s.order) + multiset{s.senders[i].p};
    }
  }

  /** Steps that take no lock leave the order alone. */
  lemma OtherMoves(s: State, l: Label, p: seq<byte>)
    requires Step(s, l).Some? && !l.Proceed?
    ensures var s' := Step(s, l).value;
      && |s'.senders| == |s.senders| && s'.senders == s.senders[l.i := s'.senders[l.i]] && s'.order == s.order
      && s'.refused[p] + Waits(s'.senders[l.i])[p] == s.refused[p] + Waits(s.senders[l.i])[p] + CallOf(l)[p]
  {
    match l {
      case Send(i, q) => CallMoves(s, l);
      case SendFrame(i, q) => CallMoves(s, l);
      case EncodeFails(i) => RefusalMoves(s, i);
      case WriteFails(i, k) => FailMoves(s, i, k);
    }
    hide Step, Waits;
  }

  lemma CallMoves(s: State, l: Label)
    requires Step(s, l).Some? && (l.Send? || l.SendFrame?)
    ensures var s' := Step(s, l).value;
      && s'.senders == s.senders[l.i := s'.senders[l.i]] && s'.order == s.order
      && Waits(s.senders[l.i]) == multiset{}
      && ((s'.refused == s.refused && Waits(s'.senders[l.i]) == multiset{l.p})
          || (s'.refused == s.refused + multiset{l.p} && Waits(s'.senders[l.i]) == multiset{}))
  {
    hide Header;
  }

  lemma RefusalMoves(s: State, i: nat)
    requires Step(s, EncodeFails(i)).Some?
    ensures var s' := Step(s, EncodeFails(i)).value;
      && s'.senders == s.senders[i := s'.senders[i]] && s'.order == s.order
      && s'.refused == s.refused + Waits(s.senders[i]) && Waits(s'.senders[i]) == multiset{}
  {
    hide Header;
  }

  lemma FailMoves(s: State, i: nat, k: nat)
    requires Step(s, WriteFails(i, k)).Some?
    ensures var s' := Step(s, WriteFails(i, k)).value;
      && s'.senders == s.senders[i := s'.senders[i]] && s'.order == s.order && s'.refused == s.refused
      && Waits(s'.senders[i]) == Waits(s.senders[i]) == multiset{}
  {
    hide Header;
  }

  /** A step adds the payload it passes in to those of its sender, the order and the refused ones. */
  lemma StepMoves(s: State, l: Label, p: seq<byte>)
    requires Step(s, l).Some?
    ensures var s' := Step(s, l).value;
      && |s'.senders| == |s.senders| && s'.senders == s.senders[l.i := s'.senders[l.i]]
      && Near(s', l.i, p) == Near(s, l.i, p) + CallOf(l)[p]
  {
    if l.Proceed? {
      AdvanceMoves(s, l.i, p);
      hide Advance, Near;
    } else {
      OtherMoves(s, l, p);
      hide Step, Waits, CallOf;
    }
  }

  lemma StepAccountsAt(s: State, l: Label, p: seq<byte>)
    requires Step(s, l).Some?
    ensures Accounted(Step(s, l).value)[p] == (Accounted(s) + CallOf(l))[p]
  {
    StepMoves(s, l, p);
    WaitingUpdate(s.senders, l.i, Step(s, l).value.senders[l.i], p);
    hide Step, AllWaiting, Waits, CallOf;
  }

  lemma StepAccounts(s: State, l: Label)
    requires Step(s, l).Some?
    ensures Accounted(Step(s, l).value) == Accounted(s) + CallOf(l)
    ensures |Step(s, l).value.senders| == |s.senders|
  {
    StepMoves(s, l, []);
    hide Step, Accounted, CallOf;
    forall p ensures Accounted(Step(s, l).value)[p] == (Accounted(s) + CallOf(l))[p] {
      StepAccountsAt(s, l, p);
    }
  }

  /** A payload is refused only for its size, or because encoding failed. */
  lemma StepRefuses(s: State, l: Label)
    requires Step(s, l).Some? && !l.EncodeFails? && forall p :: p in s.refused ==> |p| > MAX_FRAME
    ensures forall p :: p in Step(s, l).value.refused ==> |p| > MAX_FRAME
  {
    hide Header;
  }

  lemma {:induction false} RunAccounts(s: State, ls: seq<Label>)
    requires Run(s, ls).Some?
    ensures Accounted(Run(s, ls).value) == Accounted(s) + Called(ls)
    decreases ls
  {
    hide Step, Accounted;
    if ls != [] {
      StepAccounts(s, ls[0]);
      RunAccounts(Step(s, ls[0]).value, ls[1..]);
    }
  }

  predicate NoEncodeFails(ls: seq<Label>) { forall i :: 0 <= i < |ls| ==> !ls[i].EncodeFails? }

  lemma {:induction false} RunRefuses(s: State, ls: seq<Label>)
    requires Run(s, ls).Some? && NoEncodeFails(ls) && forall p :: p in s.refused ==> |p| > MAX_FRAME
    ensures forall p :: p in Run(s, ls).value.refused ==> |p| > MAX_FRAME
    decreases ls
  {
    hide Step;
    if ls != [] {
      StepRefuses(s, ls[0]);
      RunRefuses(Step(s, ls[0]).value, ls[1..]);
    }
  }

  lemma {:induction false} NobodyWaits(senders: seq<Phase>)
    requires forall i :: 0 <= i < |senders| ==> senders[i].Idle?
    ensures AllWaiting(senders) == multiset{}
  {
    if senders != [] {
      NobodyWaits(senders[..|senders| - 1]);
    }
  }

  /** In every run the payloads of all calls are those that got the codec lock, those that wait for it,
      and those refused, each as often as it was passed in; what got the lock fits a frame, and without an
      encoding failure what was refused does not. */
  lemma CallsAccounted(n: nat, ls: seq<Label>)
    requires Run(Init(n), ls).Some?
    ensures var s := Run(Init(n), ls).value;
      && Called(ls) == multiset(s.order) + AllWaiting(s.senders) + s.refused
      && Writable(s.order)
      && (NoEncodeFails(ls) ==> forall p :: p in s.refused ==> |p| > MAX_FRAME)
  {
    RunKeeps(Init(n), ls);
    RunAccounts(Init(n), ls);
    NobodyWaits(Init(n).senders);
    if NoEncodeFails(ls) {
      RunRefuses(Init(n), ls);
    }
  }

  /** When all calls have returned, nothing failed and every payload fits a frame, the frames on the wire
      carry exactly the payloads passed in, and if none is empty the reader gets exactly those. */
  lemma AllSent(n: nat, ls: seq<Label>)
    requires Run(Init(n), ls).Some? && NoEncodeFails(ls) && Run(Init(n), ls).value.cut.None?
    requires forall i :: 0 <= i < n ==> i < |Run(Init(n), ls).value.senders| && Run(Init(n), ls).value.senders[i].Idle?
    requires forall p :: p in Called(ls) ==> |p| <= MAX_FRAME
    ensures var s := Run(Init(n), ls).value;
      && multiset(s.order) == Called(ls) && Writable(s.order) && s.wire == Wire(s.order)
      && Parse(s.wire) == UpToEmpty(s.order)
      && ([] !in Called(ls) ==> multiset(Parse(s.wire)) == Called(ls))
  {
    var s := Run(Init(n), ls).value;
    CallsAccounted(n, ls);
    SendersStay(Init(n), ls);
    NobodyWaits(s.senders);
    QuietCodec(n, ls);
    WholeFrames(n, ls);
    hide Run, Parse, Wire, UpToEmpty, Called, AllWaiting;
    NothingRefused(multiset(s.order), s.refused, Called(ls));
    if [] !in Called(ls) {
      forall i | 0 <= i < |s.order| ensures s.order[i] != [] {
        assert s.order[i] in multiset(s.order);
      }
    }
  }

  lemma NothingRefused(sent: multiset<seq<byte>>, refused: multiset<seq<byte>>, called: multiset<seq<byte>>)
    requires called == sent + multiset{} + refused && forall p :: p in called ==> |p| <= MAX_FRAME
    requires forall p :: p in refused ==> |p| > MAX_FRAME
    ensures sent == called
  {
    forall p ensures refused[p] == 0 {
      assert called[p] == sent[p] + refused[p];
    }
  }

  /** When every sender is idle nobody holds the codec lock. */
  lemma QuietCodec(n: nat, ls: seq<Label>)
    requires Run(Init(n), ls).Some?
    requires forall i :: 0 <= i < n ==> i < |Run(Init(n), ls).value.senders| && Run(Init(n), ls).value.senders[i].Idle?
    ensures Run(Init(n), ls).value.codec.None?
  {
    RunKeeps(Init(n), ls);
    SendersStay(Init(n), ls);
    hide Run, OnWire;
  }

  lemma {:induction false} SendersStay(s: State, ls: seq<Label>)
    requires Run(s, ls).Some?
    ensures |Run(s, ls).value.senders| == |s.senders|
    decreases ls
  {
    if ls != [] {
      StepAccounts(s, ls[0]);
      hide Step;
      SendersStay(Step(s, ls[0]).value, ls[1..]);
    }
  }

  /** The wire up to the end of the first write that failed. */
  function Front(s: State): seq<byte>
  {
    if s.cut.Some? && s.cut.value <= |s.wire| then s.wire[..s.cut.value] else s.wire
  }

  /** In every run, even while a frame is being written and after a failed write: up to the end of the
      first failed write the wire is the beginning of the frames in lock order, so up to there a reader
      sees no frame that was not sent, nor out of order. */
  lemma NoTornFrame(n: nat, ls: seq<Label>)
    requires Run(Init(n), ls).Some?
    ensures var s := Run(Init(n), ls).value;
      Writable(s.order) && Front(s) <= Wire(s.order) && Parse(Front(s)) <= UpToEmpty(s.order)
  {
    hide Parse;
    RunKeeps(Init(n), ls);
    var s := Run(Init(n), ls).value;
    if s.cut.None? {
      var rest := Completion(s);
      assert s.wire + rest == Wire(s.order);
    }
    var rest := Wire(s.order)[|Front(s)|..];
    assert Front(s) + rest == Wire(s.order);
    ParsePrefix(Front(s), rest);
    ReadBack(s.order);
  }

  /** The wire after a frame of p whose last byte was not written and a frame of q. */
  function TornBytes(p: seq<byte>, q: seq<byte>): seq<byte>
    requires p != []
  {
    Header(|p|) + p[..|p| - 1] + Header(|q|) + q
  }

  /** What was the last byte of p is read from the header of q. */
  function TornPayload(p: seq<byte>, q: seq<byte>): seq<byte>
    requires p != []
  {
    p[..|p| - 1] + [Header(|q|)[0]]
  }

  lemma TornParse(p: seq<byte>, q: seq<byte>)
    requires 0 < |p| <= MAX_FRAME
    ensures Parse(TornBytes(p, q)) != [] && Parse(TornBytes(p, q))[0] == TornPayload(p, q)
  {
    var wire := TornBytes(p, q);
    assert wire[..4] == Header(|p|);
    HeaderRoundTrip(|p|);
    hide Header;
    assert wire[4..4 + |p|] == TornPayload(p, q);
  }

  lemma {:induction false} RunSnoc(s: State, ls: seq<Label>, l: Label)
    requires Run(s, ls).Some?
    ensures Run(s, ls + [l]) == Step(Run(s, ls).value, l)
    decreases ls
  {
    hide Step;
    if ls == [] {
      assert ls + [l] == [l] && [l][1..] == [];
    } else {
      assert (ls + [l])[1..] == ls[1..] + [l];
      RunSnoc(Step(s, ls[0]).value, ls[1..], l);
    }
  }

  lemma Extend(n: nat, ls: seq<Label>, s: State, l: Label) returns (ls': seq<Label>, s': State)
    requires Run(Init(n), ls) == Some(s) && Step(s, l).Some?
    ensures Run(Init(n), ls') == Some(s') && s' == Step(s, l).value
  {
    RunSnoc(Init(n), ls, l);
    ls', s' := ls + [l], Step(s, l).value;
  }

  /** The first of two senders has written the header of p. */
  lemma HeaderOut(p: seq<byte>) returns (ls: seq<Label>, s: State)
    requires 0 < |p| <= MAX_FRAME
    ensures Run(Init(2), ls) == Some(s)
    ensures s == State([BodyNext(p, false), Idle], None, Some(0), Header(|p|), [p], None, multiset{})
  {
    hide Header;
    ls, s := Extend(2, [], Init(2), SendFrame(0, p));
    assert s == Init(2).(senders := [WantCodec(p, false), Idle]);
    hide Run;
    ls, s := Extend(2, ls, s, Proceed(0));
    assert s.senders == [HeaderNext(p, false), Idle];
    ls, s := Extend(2, ls, s, Proceed(0));
    assert [] + Header(|p|) == Header(|p|);
  }

  /** It fails to write the last byte of its payload. */
  lemma FirstFails(p: seq<byte>) returns (ls: seq<Label>, s: State)
    requires 0 < |p| <= MAX_FRAME
    ensures Run(Init(2), ls) == Some(s)
    ensures s == State([Idle, Idle], None, None, Header(|p|) + p[..|p| - 1], [p], Some(3 + |p|), multiset{})
  {
    hide Header, Run;
    ls, s := HeaderOut(p);
    ls, s := Extend(2, ls, s, WriteFails(0, |p| - 1));
    assert s.senders == [LeaveCodec(false), Idle];
    ls, s := Extend(2, ls, s, Proceed(0));
  }

  /** The second sender takes the codec lock for q. */
  lemma SecondEnters(p: seq<byte>, q: seq<byte>) returns (ls: seq<Label>, s: State)
    requires 0 < |p| <= MAX_FRAME && |q| <= MAX_FRAME
    ensures Run(Init(2), ls) == Some(s)
    ensures s == State([Idle, HeaderNext(q, false)], None, Some(1), Header(|p|) + p[..|p| - 1], [p, q], Some(3 + |p|),
                       multiset{})
  {
    hide Run, Header;
    ls, s := FirstFails(p);
    ls, s := Extend(2, ls, s, SendFrame(1, q));
    assert s.senders == [Idle, WantCodec(q, false)];
    ls, s := Extend(2, ls, s, Proceed(1));
  }

  /** It writes its frame behind the broken one. */
  lemma SecondWrites(p: seq<byte>, q: seq<byte>) returns (ls: seq<Label>, s: State)
    requires 0 < |p| <= MAX_FRAME && |q| <= MAX_FRAME
    ensures Run(Init(2), ls) == Some(s)
    ensures s == State([Idle, LeaveCodec(false)], None, Some(1), TornBytes(p, q), [p, q], Some(3 + |p|), multiset{})
  {
    hide Run, Header;
    ls, s := SecondEnters(p, q);
    ls, s := Extend(2, ls, s, Proceed(1));
    assert s.senders == [Idle, BodyNext(q, false)];
    ls, s := Extend(2, ls, s, Proceed(1));
  }

  /** Past a failed write the frames can be torn: the session stays usable, the next sender writes its
      frame, and the reader takes the beginning of that frame for the end of the broken one. */
  lemma TornFrame(p: seq<byte>, q: seq<byte>) returns (ls: seq<Label>, s: State)
    requires 0 < |p| <= MAX_FRAME && |q| <= MAX_FRAME
    ensures Run(Init(2), ls) == Some(s) && s.order == [p, q] && s.codec.None?
    ensures Parse(s.wire) != [] && Parse(s.wire)[0] == TornPayload(p, q)
  {
    TornParse(p, q);
    hide Run, Parse, TornBytes, TornPayload, Header;
    ls, s := SecondWrites(p, q);
    var before := s;
    assert before.senders[1 := Idle] == [Idle, Idle];
    assert Step(before, Proceed(1)) == Some(before.(senders := [Idle, Idle], codec := None));
    hide Step;
    ls, s := Extend(2, ls, s, Proceed(1));
  }

  /** The two locks never deadlock: a sender in the middle of a call can move, or the holder of the
      lock it needs can, or the holder of the inner lock that holder needs can. */
  lemma NoDeadlock(s: State, i: nat) returns (j: nat)
    requires Inv(s) && i < |s.senders| && !s.senders[i].Idle?
    ensures j < |s.senders| && Step(s, Proceed(j)).Some?
  {
    j := i;
    if s.senders[j].WantSession? && s.session.Some? {
      j := s.session.value;
    }
    if s.senders[j].WantCodec? && s.codec.Some? {
      j := s.codec.value;
    }
  }
}
