/**
 What the steps of a run say about a session, read off the labels: when it was last active, what its
 read loop did with each frame, and why it was closed.
 */
module Activity {
  import opened Sums
  import opened Sessions

  /** The clock after a run that started at `now`. */
  function ClockOf(now: int, ls: seq<Label>): int
  {
    if ls == [] then now
    else if ls[|ls| - 1].Advance? then ls[|ls| - 1].to
    else ClockOf(now, ls[..|ls| - 1])
  }

  /** How many connections were accepted. */
  function Accepted(ls: seq<Label>): nat
  {
    if ls == [] then 0 else Accepted(ls[..|ls| - 1]) + if ls[|ls| - 1].Accept? then 1 else 0
  }

  /** What the reader of session i is about to do after a run; Unborn if there is no such session. */
  function ReaderAt(now: int, ls: seq<Label>, i: nat): PC
  {
    match Run(Init(now), ls)
    case Some(w) => if i < |w.sessions| then w.sessions[i].reader else Unborn
    case None => Unborn
  }

  /** After `front`, label l decodes a frame of session i, a heartbeat included. */
  predicate Decodes(now: int, front: seq<Label>, l: Label, i: nat)
  {
    l.Move? && l.i == i && l.t.Reader? && !l.c.Fail? && ReaderAt(now, front, i).Decoding?
  }

  /** The time of the latest decoded frame of session i, or of its acceptance if there was none. */
  function LastDecode(now: int, ls: seq<Label>, i: nat): int
  {
    if ls == [] then now else
    var front, l := ls[..|ls| - 1], ls[|ls| - 1];
    if Decodes(now, front, l, i) || (l.Accept? && Accepted(front) == i) then ClockOf(now, front)
    else LastDecode(now, front, i)
  }

  /** The run up to its last label, and that label. */
  lemma LastStep(now: int, ls: seq<Label>, w: World) returns (w0: World)
    requires Reached(now, ls, w) && ls != []
    ensures Reached(now, ls[..|ls| - 1], w0) && WorldStep(w0, ls[|ls| - 1]) == Some(w)
    ensures WorldInv(w0)
  {
    var front, l := ls[..|ls| - 1], ls[|ls| - 1];
    assert front + [l] == ls;
    RunPrefix(Init(now), front, [l]);
    w0 := Run(Init(now), front).value;
    RunSnoc(Init(now), front, l);
    Reachable(now, front);
  }

  lemma {:induction false} RunPrefix(w: World, a: seq<Label>, b: seq<Label>)
    requires Run(w, a + b).Some?
    ensures Run(w, a).Some?
    decreases a
  {
    hide WorldStep;
    if a != [] {
      assert (a + b)[1..] == a[1..] + b;
      RunPrefix(WorldStep(w, a[0]).value, a[1..], b);
    }
  }

  lemma {:induction false} ClockIs(now: int, ls: seq<Label>, w: World)
    requires Reached(now, ls, w)
    ensures w.now == ClockOf(now, ls) && |w.sessions| == Accepted(ls)
    decreases |ls|
  {
    if ls != [] {
      var w0 := LastStep(now, ls, w);
      ClockIs(now, ls[..|ls| - 1], w0);
    }
  }

  /** A step of session i stores the time exactly when it decodes a frame. */
  lemma StoresExactly(s: Session, t: Thread, c: Choice, env: Env)
    requires SessionInv(s, env.listed) && Step(s, t, c, env).Some?
    ensures Step(s, t, c, env).value.clock.lastActive ==
      if t.Reader? && s.reader.Decoding? && !c.Fail? then env.now else s.clock.lastActive
  {
    ClockFrame(s, t, c, env);
  }

  /** In every run the last activity of a session is the time of its latest decoded frame, or of its
      acceptance: heartbeats count, frames that could not be decoded do not. */
  lemma {:induction false} ActiveIsDecoded(now: int, ls: seq<Label>, w: World, i: nat)
    requires Reached(now, ls, w) && i < |w.sessions|
    ensures w.sessions[i].clock.lastActive == LastDecode(now, ls, i)
    decreases |ls|
  {
    if ls != [] {
      var front, l := ls[..|ls| - 1], ls[|ls| - 1];
      var w0 := LastStep(now, ls, w);
      ClockIs(now, front, w0);
      if i < |w0.sessions| {
        ActiveIsDecoded(now, front, w0, i);
        if l.Move? && l.i == i {
          StoresExactly(w0.sessions[i], l.t, l.c, EnvOf(w0, i));
        }
      }
      hide Step;
    }
  }

  // ----- Active sessions are not timed out ------------------------------------------------------

  /** From label m on, frames of session i are decoded no more than `timeout` apart. */
  predicate FramesApart(now: int, ls: seq<Label>, m: nat, i: nat, timeout: int)
  {
    forall k :: m <= k <= |ls| && i < Accepted(ls[..k]) ==>
      ClockOf(now, ls[..k]) - LastDecode(now, ls[..k], i) <= timeout
  }

  /** What the heartbeat watcher of session i is about to do after a run. */
  function HeartAt(now: int, ls: seq<Label>, i: nat): PC
  {
    match Run(Init(now), ls)
    case Some(w) => if i < |w.sessions| then w.sessions[i].heart else Unborn
    case None => Unborn
  }

  /** From label m on, the watcher compares as soon as it has loaded the last activity. */
  predicate ComparesAtOnce(now: int, ls: seq<Label>, m: nat, i: nat)
  {
    forall k :: m <= k < |ls| && ls[k].Advance? && HeartAt(now, ls[..k], i).Checking? ==>
      ls[k].to == ClockOf(now, ls[..k])
  }

  lemma FrontApart(now: int, ls: seq<Label>, m: nat, i: nat, timeout: int)
    requires FramesApart(now, ls, m, i, timeout) && ComparesAtOnce(now, ls, m, i) && ls != []
    ensures FramesApart(now, ls[..|ls| - 1], m, i, timeout) && ComparesAtOnce(now, ls[..|ls| - 1], m, i)
  {
    var front := ls[..|ls| - 1];
    hide LastDecode, ClockOf, HeartAt, Accepted;
    forall k | m <= k <= |front| && i < Accepted(front[..k])
      ensures ClockOf(now, front[..k]) - LastDecode(now, front[..k], i) <= timeout
    {
      assert front[..k] == ls[..k];
    }
    forall k | m <= k < |front| && front[k].Advance? && HeartAt(now, front[..k], i).Checking?
      ensures front[k].to == ClockOf(now, front[..k])
    {
      assert front[..k] == ls[..k];
    }
  }

  /** A session whose frames are decoded no more than its timeout apart, from a moment before its
      heartbeat watcher started, is never closed by that watcher. */
  lemma {:induction false} NeverTimedOut(now: int, ls: seq<Label>, w: World, m: nat, i: nat)
    requires Reached(now, ls, w) && m <= |ls| && i < |w.sessions|
    requires HeartAt(now, ls[..m], i).Unborn?
    requires FramesApart(now, ls, m, i, w.sessions[i].cfg.timeout) && ComparesAtOnce(now, ls, m, i)
    ensures Spared(w.sessions[i], w.now)
    decreases |ls|
  {
    if m == |ls| {
      assert ls[..m] == ls;
    } else {
      var n := |ls| - 1;
      var front, l := ls[..n], ls[n];
      var w0 := LastStep(now, ls, w);
      assert front[..m] == ls[..m];
      if i < |w0.sessions| {
        CfgStays(w0, l, w, i);
        FrontApart(now, ls, m, i, w.sessions[i].cfg.timeout);
        NeverTimedOut(now, front, w0, m, i);
        assert ls[..n] == front;
        ActiveIsDecoded(now, front, w0, i);
        ClockIs(now, front, w0);
        hide WorldStep, WorldInv, Spared, LastDecode, Accepted, Run;
        SparedStep(w0, l, w, i);
      }
    }
  }

  lemma SparedStep(w0: World, l: Label, w: World, i: nat)
    requires WorldInv(w0) && WorldStep(w0, l) == Some(w) && i < |w0.sessions| && Spared(w0.sessions[i], w0.now)
    requires w0.now - w0.sessions[i].clock.lastActive <= w0.sessions[i].cfg.timeout
    requires l.Advance? && w0.sessions[i].heart.Checking? ==> l.to == w0.now
    ensures i < |w.sessions| && Spared(w.sessions[i], w.now)
  {
    if l.Move? && l.i == i {
      SparedKept(w0.sessions[i], l.t, l.c, EnvOf(w0, i));
      hide Step, Spared;
    }
  }

  /** The configuration of a session is fixed when it is accepted. */
  lemma CfgStays(w0: World, l: Label, w: World, i: nat)
    requires WorldInv(w0) && WorldStep(w0, l) == Some(w) && i < |w0.sessions|
    ensures i < |w.sessions| && w.sessions[i].cfg == w0.sessions[i].cfg
  {
    if l.Move? && l.i == i {
      ClockFrame(w0.sessions[i], l.t, l.c, EnvOf(w0, i));
    }
  }

  // ----- What the read loop does with its frames ------------------------------------------------

  /** Frames read, reads that failed, frames that could not be decoded, heartbeats, other frames decoded,
      and envelopes handed to the gateway. */
  datatype Ledger = Ledger(read: nat, failed: nat, garbled: nat, beats: nat, decoded: nat, delivered: nat)

  function LedgerOf(now: int, ls: seq<Label>, i: nat): Ledger
  {
    if ls == [] then Ledger(0, 0, 0, 0, 0, 0) else
    var front, l := ls[..|ls| - 1], ls[|ls| - 1];
    var g := LedgerOf(now, front, i);
    if l.Move? && l.i == i && l.t.Reader? then Entered(g, ReaderAt(now, front, i), l.c) else g
  }

  /** The entry for a step of the reader at pc. */
  function Entered(g: Ledger, pc: PC, c: Choice): Ledger
  {
    match pc
    case Reading => if c.Fail? then g.(failed := g.failed + 1) else g.(read := g.read + 1)
    case Decoding =>
      (match c
       case Fail => g.(garbled := g.garbled + 1)
       case Skip => g.(beats := g.beats + 1)
       case Proceed => g.(decoded := g.decoded + 1))
    case Delivering => g.(delivered := g.delivered + 1)
    case _ => g
  }

  /** Every frame read is garbled, a heartbeat, or decoded, and every decoded one is delivered, except for
      the one in hand; the loop is left by the first read that fails and by nothing else. */
  predicate Balances(g: Ledger, pc: PC)
  {
    && g.read == g.garbled + g.beats + g.decoded + Bit(pc.Decoding?)
    && g.decoded == g.delivered + Bit(pc.Delivering?)
    && g.failed == Bit(!Opening(pc) && !InLoop(pc) && !pc.Unborn?)
  }

  lemma ReaderFrame(s: Session, t: Thread, c: Choice, env: Env)
    requires SessionInv(s, env.listed) && Step(s, t, c, env).Some?
    ensures !t.Reader? ==> Step(s, t, c, env).value.reader == s.reader
  {
    match t {
      case Reader =>
      case Watcher => if s.watcher.Selecting? {} else {}
      case Heart =>
    }
  }

  lemma LedgerStep(g: Ledger, s: Session, c: Choice, env: Env)
    requires SessionInv(s, env.listed) && Step(s, Reader, c, env).Some? && Balances(g, s.reader)
    ensures Balances(Entered(g, s.reader, c), Step(s, Reader, c, env).value.reader)
  {
    if Opening(s.reader) {
    } else if InLoop(s.reader) {
    } else if s.reader.SessDo? || InSess(s.reader) {
    } else if ClosingCtx(s.reader) {
    }
  }

  lemma {:induction false} LoopLedger(now: int, ls: seq<Label>, w: World, i: nat)
    requires Reached(now, ls, w)
    ensures Balances(LedgerOf(now, ls, i), ReaderAt(now, ls, i))
    decreases |ls|
  {
    if ls != [] {
      var front, l := ls[..|ls| - 1], ls[|ls| - 1];
      var w0 := LastStep(now, ls, w);
      LoopLedger(now, front, w0, i);
      if l.Move? && l.i == i {
        ReaderFrame(w0.sessions[i], l.t, l.c, EnvOf(w0, i));
        if l.t.Reader? {
          LedgerStep(LedgerOf(now, front, i), w0.sessions[i], l.c, EnvOf(w0, i));
        }
      }
      hide Step, Balances;
    }
  }

  // ----- Why a session is closed ----------------------------------------------------------------

  /** The read loop was left, the server cancelled, or the heartbeat watcher gave up. */
  predicate Cause(s: Session)
  {
    || (!Opening(s.reader) && !InLoop(s.reader))
    || s.branch.ByCancel? || ClosingSess(s.heart) || (s.heart.Finished? && !HeartDisabled(s))
  }

  predicate Justified(s: Session, cancelled: bool)
  {
    && (!s.locks.sessOnce.Fresh? || !s.locks.ctxOnce.Fresh? || s.branch.ByCloseChan? ==> Cause(s))
    && (s.branch.ByCancel? ==> cancelled)
    && (s.branch.ByCloseChan? ==> s.locks.chanCloses == 1)
    && (s.heart.Ticking? || s.heart.Checking? || ClosingSess(s.heart) ==> !HeartDisabled(s))
  }

  predicate AllJustified(w: World) { forall i :: 0 <= i < |w.sessions| ==> Justified(w.sessions[i], w.cancelled) }

  lemma JustifiedKept(s: Session, t: Thread, c: Choice, env: Env)
    requires SessionInv(s, env.listed) && Justified(s, env.cancelled) && Step(s, t, c, env).Some?
    ensures Justified(Step(s, t, c, env).value, env.cancelled)
  {
    match t {
      case Reader => JustifiedByReader(s, c, env);
      case Watcher => JustifiedByWatcher(s, c, env);
      case Heart =>
    }
  }

  lemma JustifiedByReader(s: Session, c: Choice, env: Env)
    requires SessionInv(s, env.listed) && Justified(s, env.cancelled) && Step(s, Reader, c, env).Some?
    ensures Justified(Step(s, Reader, c, env).value, env.cancelled)
  {
    if Opening(s.reader) {
      hide SessStep, CtxStep, RemoveStep, LoopStep;
    } else if InLoop(s.reader) {
      hide SessStep, CtxStep, RemoveStep, OpenStep;
    } else {
      JustifiedByClosing(s, c, env);
    }
  }

  lemma JustifiedByClosing(s: Session, c: Choice, env: Env)
    requires SessionInv(s, env.listed) && Justified(s, env.cancelled) && Step(s, Reader, c, env).Some?
    requires !Opening(s.reader) && !InLoop(s.reader)
    ensures Justified(Step(s, Reader, c, env).value, env.cancelled)
  {
    if s.reader.SessDo? || InSess(s.reader) {
    } else if ClosingCtx(s.reader) {
    }
  }

  lemma JustifiedByWatcher(s: Session, c: Choice, env: Env)
    requires SessionInv(s, env.listed) && Justified(s, env.cancelled) && Step(s, Watcher, c, env).Some?
    ensures Justified(Step(s, Watcher, c, env).value, env.cancelled)
  {
    if s.watcher.Selecting? {
    } else if s.watcher.SessDo? || InSess(s.watcher) {
    } else if ClosingCtx(s.watcher) {
    }
  }

  lemma {:induction false} ReachedJustified(now: int, ls: seq<Label>, w: World)
    requires Reached(now, ls, w)
    ensures AllJustified(w) && (w.cancelled <==> Cancel in ls)
    decreases |ls|
  {
    if ls != [] {
      var front, l := ls[..|ls| - 1], ls[|ls| - 1];
      var w0 := LastStep(now, ls, w);
      ReachedJustified(now, front, w0);
      assert ls == front + [l];
      JustifiedStep(w0, l);
      hide Run, AllJustified;
    }
  }

  lemma JustifiedStep(w: World, l: Label)
    requires WorldInv(w) && AllJustified(w) && WorldStep(w, l).Some?
    ensures AllJustified(WorldStep(w, l).value) && (WorldStep(w, l).value.cancelled <==> w.cancelled || l.Cancel?)
  {
    if l.Move? {
      JustifiedKept(w.sessions[l.i], l.t, l.c, EnvOf(w, l.i));
      hide Step, Justified;
    }
  }

  /** In every run: if a session is closed in any way, one of its reads failed, the server was cancelled,
      or its heartbeat watcher gave up; the watcher takes the close-channel branch only after the channel
      is closed. */
  lemma CloseCauses(now: int, ls: seq<Label>, w: World, i: nat)
    requires Reached(now, ls, w) && i < |w.sessions|
    ensures var s := w.sessions[i];
      && (s.locks.connCloses == 1 || s.locks.closed || (i !in w.managed && !s.reader.Storing?) ==>
            || LedgerOf(now, ls, i).failed == 1 || Cancel in ls
            || ClosingSess(s.heart) || (s.heart.Finished? && !HeartDisabled(s)))
      && (s.branch.ByCloseChan? ==> s.locks.chanCloses == 1)
  {
    Reachable(now, ls);
    ReachedJustified(now, ls, w);
    LoopLedger(now, ls, w, i);
    var s := w.sessions[i];
    assert SessionInv(s, i in w.managed) && Justified(s, w.cancelled);
    hide LedgerOf, Run;
  }

  /** A session stays open and registered as long as no read fails, the server is not cancelled, and frames
      are decoded no more than the timeout apart (or the heartbeat is disabled). */
  lemma StaysOpen(now: int, ls: seq<Label>, w: World, m: nat, i: nat)
    requires Reached(now, ls, w) && m <= |ls| && i < |w.sessions| && HeartAt(now, ls[..m], i).Unborn?
    requires LedgerOf(now, ls, i).failed == 0 && Cancel !in ls
    requires HeartDisabled(w.sessions[i]) ||
      (FramesApart(now, ls, m, i, w.sessions[i].cfg.timeout) && ComparesAtOnce(now, ls, m, i))
    ensures var s := w.sessions[i];
      s.locks.connCloses == 0 && !s.locks.closed && (s.reader.Storing? || i in w.managed)
  {
    CloseCauses(now, ls, w, i);
    ReachedJustified(now, ls, w);
    Reachable(now, ls);
    var s := w.sessions[i];
    assert SessionInv(s, i in w.managed) && Justified(s, w.cancelled);
    if !HeartDisabled(s) {
      NeverTimedOut(now, ls, w, m, i);
    }
    hide LedgerOf, Run;
  }

  /** An idle session is closed past the time of its latest decoded frame plus timeout plus interval, if its
      ticker started within the timeout after that frame. */
  lemma IdleSinceDecode(now: int, ls: seq<Label>, w: World, i: nat)
    requires TimelyRun(Init(now), ls) && Reached(now, ls, w) && i < |w.sessions| && Watched(w.sessions[i])
    requires StartedInTime(w.sessions[i])
    requires w.now > LastDecode(now, ls, i) + w.sessions[i].cfg.timeout + w.sessions[i].cfg.interval
    ensures w.sessions[i].locks.connCloses == 1
  {
    ActiveIsDecoded(now, ls, w, i);
    IdleBoundExactly(now, ls, w, i);
  }
}
