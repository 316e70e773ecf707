/**
 The session close protocol of internal/transport: tcp.go, ws.go, session.go, gateway.go and
 session_manager.go as one step system. Every goroutine of every session is a thread with a
 program counter; one label of a run is one atomic step of one thread, a clock advance, the
 cancellation of the server context, or the acceptance of a connection.
 */
module Sessions {
  import opened Sums

  datatype Kind = Tcp | Ws

  /** Reader is handleConnection followed by readLoop; Watcher is lifecycleWatcher (TCP) or the
      ping goroutine (WebSocket); Heart is heartbeatWatcher. */
  datatype Thread = Reader | Watcher | Heart

  /** A sync.Once. `Do` on a running Once blocks until its owner has returned. */
  datatype Once = Fresh | Running(owner: Thread) | Done

  /** The branch taken by the `select` of lifecycleWatcher. */
  datatype Branch = Undecided | ByCancel | ByCloseChan

  /** `nested` says that Session.Close runs inside SessionContext.Close. */
  datatype PC =
    | Unborn
    | Storing | Counting | Welcoming | SpawnWatcher | SpawnHeart   // OnSessionOpen, go, go
    | Reading | Decoding | Delivering                              // readLoop
    | Selecting                                                    // lifecycleWatcher, ws ping
    | Starting | Ticking | Checking(last: int)                     // heartbeatWatcher
    | CtxDo | CtxStore                                             // SessionContext.Close
    | SessDo(nested: bool) | ConnClose(nested: bool) | ChanClose(nested: bool) | SessExit(nested: bool)
    | CtxExit
    | MapDelete | CountDec                                         // SessionManager.Remove
    | Finished

  datatype Config = Config(kind: Kind, interval: int, timeout: int)

  /** The two Once guards, SessionContext.closed, and how often the connection and channel were closed. */
  datatype Locks = Locks(ctxOnce: Once, sessOnce: Once, closed: bool, connCloses: nat, chanCloses: nat)

  datatype Clock = Clock(lastActive: int, tickStart: int, nextTick: int)

  /** Base.state. */
  datatype BaseState = Active | Closed

  datatype Session = Session(
    cfg: Config, reader: PC, watcher: PC, heart: PC, locks: Locks, branch: Branch, missed: nat, clock: Clock,
    state: BaseState)

  /** How a step with several outcomes goes: data / error / heartbeat for the reader, close channel
      / cancelled context for the watcher. */
  datatype Choice = Proceed | Fail | Skip

  datatype Env = Env(now: int, cancelled: bool, listed: bool)

  function NewSession(kind: Kind, interval: int, timeout: int, now: int): Session
  {
    Session(Config(kind, interval, timeout), Storing, Unborn, Unborn,
            Locks(Fresh, Fresh, false, 0, 0), Undecided, 0, Clock(now, now, now), Active)
  }

  function Pc(s: Session, t: Thread): PC
  {
    match t case Reader => s.reader case Watcher => s.watcher case Heart => s.heart
  }

  function Goto(s: Session, t: Thread, pc: PC): Session
  {
    match t
    case Reader => s.(reader := pc)
    case Watcher => s.(watcher := pc)
    case Heart => s.(heart := pc)
  }

  /** The first tick of a ticker that is due after `now`; ticks nobody received are dropped. */
  function NextDue(due: int, interval: int, now: int): int
    decreases now - due
  {
    if due > now || interval <= 0 then due else NextDue(due + interval, interval, now)
  }

  /** Where Session.Close returns to. */
  function AfterSess(nested: bool): PC { if nested then CtxExit else Finished }

  /** handleConnection up to the read loop: OnSessionOpen, then the two `go` statements. */
  function OpenStep(s: Session): Option<Session>
  {
    match s.reader
    case Storing => Some(s.(reader := Counting))
    case Counting => Some(s.(reader := Welcoming))
    case Welcoming => Some(s.(reader := SpawnWatcher))
    case SpawnWatcher => Some(s.(watcher := Selecting, reader := SpawnHeart))
    case SpawnHeart => Some(s.(heart := if s.cfg.kind.Tcp? then Starting else Finished, reader := Reading))
    case _ => None
  }

  /** One turn of readLoop: read a frame or fail, decode it, deliver it. A closed connection only fails. */
  function LoopStep(s: Session, c: Choice, env: Env): Option<Session>
  {
    match s.reader
    case Reading =>
      if c.Fail? then Some(s.(reader := CtxDo))
      else if c.Proceed? && s.locks.connCloses == 0 then Some(s.(reader := Decoding))
      else None
    case Decoding =>
      if c.Fail? then Some(s.(reader := Reading))
      else Some(s.(reader := if c.Skip? then Reading else Delivering, clock := s.clock.(lastActive := env.now)))
    case Delivering => Some(s.(reader := Reading))
    case _ => None
  }

  /** The select of lifecycleWatcher; the WebSocket ping goroutine only waits for the close channel. */
  function SelectStep(s: Session, c: Choice, env: Env): Option<Session>
  {
    if c.Proceed? && s.locks.chanCloses > 0 then
      Some(s.(watcher := if s.cfg.kind.Tcp? then CtxDo else Finished, branch := ByCloseChan))
    else if c.Fail? && s.cfg.kind.Tcp? && env.cancelled then
      Some(s.(watcher := SessDo(false), branch := ByCancel))
    else None
  }

  /** heartbeatWatcher: start the ticker unless it is disabled; take a tick, load the last activity,
      compare. */
  function HeartStep(s: Session, env: Env): Option<Session>
  {
    match s.heart
    case Starting =>
      if HeartDisabled(s) then Some(s.(heart := Finished))
      else Some(s.(heart := Ticking, clock := Clock(s.clock.lastActive, env.now, env.now + s.cfg.interval)))
    case Ticking => if env.now >= s.clock.nextTick then Some(s.(heart := Checking(s.clock.lastActive))) else None
    case Checking(last) =>
      if env.now - last > s.cfg.timeout then Some(s.(heart := SessDo(false)))
      else Some(s.(heart := Ticking, clock := s.clock.(nextTick := NextDue(s.clock.nextTick, s.cfg.interval, env.now))))
    case _ => None
  }

  /** Session.Close: the inner Once around closing the connection and the channel. */
  function SessStep(s: Session, t: Thread): Option<Session>
  {
    match Pc(s, t)
    case SessDo(n) =>
      if s.locks.sessOnce.Done? then Some(Goto(s, t, AfterSess(n)))
      else if s.locks.sessOnce.Fresh? then Some(Goto(s, t, ConnClose(n)).(locks := s.locks.(sessOnce := Running(t))))
      else None
    case ConnClose(n) => Some(Goto(s, t, ChanClose(n)).(locks := s.locks.(connCloses := s.locks.connCloses + 1)))
    case ChanClose(n) => Some(Goto(s, t, SessExit(n)).(locks := s.locks.(chanCloses := s.locks.chanCloses + 1)))
    case SessExit(n) => Some(Goto(s, t, AfterSess(n)).(locks := s.locks.(sessOnce := Done)))
    case _ => None
  }

  /** OnSessionClose: SessionContext.Close around Session.Close. */
  function CtxStep(s: Session, t: Thread): Option<Session>
  {
    match Pc(s, t)
    case CtxDo =>
      if s.locks.ctxOnce.Done? then Some(Goto(s, t, MapDelete))
      else if s.locks.ctxOnce.Fresh? then Some(Goto(s, t, CtxStore).(locks := s.locks.(ctxOnce := Running(t))))
      else None
    case CtxStore => Some(Goto(s, t, SessDo(true)).(locks := s.locks.(closed := true)))
    case CtxExit => Some(Goto(s, t, MapDelete).(locks := s.locks.(ctxOnce := Done)))
    case _ => None
  }

  /** The deferred SessionManager.Remove of OnSessionClose. */
  function RemoveStep(s: Session, t: Thread, listed: bool): Option<Session>
  {
    match Pc(s, t)
    case MapDelete => Some(Goto(s, t, CountDec).(missed := s.missed + if listed then 0 else 1))
    case CountDec => Some(Goto(s, t, if t.Reader? then SessDo(false) else Finished))
    case _ => None
  }

  /** One atomic step of thread `t`, or None when it cannot move. */
  function Step(s: Session, t: Thread, c: Choice, env: Env): Option<Session>
  {
    if t.Reader? && Opening(s.reader) then OpenStep(s)
    else if t.Reader? && InLoop(s.reader) then LoopStep(s, c, env)
    else if t.Watcher? && s.watcher.Selecting? then SelectStep(s, c, env)
    else if t.Heart? && InHeart(s.heart) then HeartStep(s, env)
    else if Pc(s, t).SessDo? || InSess(Pc(s, t)) then SessStep(s, t)
    else if ClosingCtx(Pc(s, t)) then CtxStep(s, t)
    else RemoveStep(s, t, env.listed)
  }

  // ----- The invariant of one session ---------------------------------------------------------

  predicate InCtx(pc: PC)
  {
    pc.CtxStore? || pc.CtxExit? ||
    ((pc.SessDo? || pc.ConnClose? || pc.ChanClose? || pc.SessExit?) && pc.nested)
  }

  predicate InSess(pc: PC) { pc.ConnClose? || pc.ChanClose? || pc.SessExit? }

  predicate Opening(pc: PC) { pc.Storing? || pc.Counting? || pc.Welcoming? || pc.SpawnWatcher? || pc.SpawnHeart? }

  /** In heartbeatWatcher before any close. */
  predicate InHeart(pc: PC) { pc.Starting? || pc.Ticking? || pc.Checking? }

  predicate InLoop(pc: PC) { pc.Reading? || pc.Decoding? || pc.Delivering? }

  /** SessionContext.Close has been called but has not returned. */
  predicate ClosingCtx(pc: PC) { pc.CtxDo? || InCtx(pc) }

  predicate Removing(pc: PC) { pc.MapDelete? || pc.CountDec? }

  /** Session.Close called directly, not through the context. */
  predicate ClosingSess(pc: PC)
  {
    (pc.SessDo? || pc.ConnClose? || pc.ChanClose? || pc.SessExit?) && !pc.nested
  }

  /** Which program each goroutine runs. */
  predicate Shapes(s: Session)
  {
    && (Opening(s.reader) || InLoop(s.reader) || ClosingCtx(s.reader) || Removing(s.reader)
        || s.reader == SessDo(false) || s.reader.Finished?)
    && (s.watcher.Unborn? <==> Opening(s.reader) && !s.reader.SpawnHeart?)
    && (s.heart.Unborn? <==> Opening(s.reader))
    && (match s.branch
        case Undecided => s.watcher.Unborn? || s.watcher.Selecting?
        case ByCancel => s.cfg.kind.Tcp? && (ClosingSess(s.watcher) || s.watcher.Finished?)
        case ByCloseChan =>
          if s.cfg.kind.Tcp? then ClosingCtx(s.watcher) || Removing(s.watcher) || s.watcher.Finished?
          else s.watcher.Finished?)
    && (s.heart.Unborn? || InHeart(s.heart) || ClosingSess(s.heart) || s.heart.Finished?)
    && (s.cfg.kind.Ws? ==> s.heart.Unborn? || s.heart.Finished?)
  }

  /** The two Once guards are held exactly by the thread inside them, and the flags and close
      counts are determined by them. */
  predicate Guards(s: Session)
  {
    && (InCtx(s.reader) <==> s.locks.ctxOnce == Running(Reader))
    && (InCtx(s.watcher) <==> s.locks.ctxOnce == Running(Watcher))
    && (InCtx(s.heart) <==> s.locks.ctxOnce == Running(Heart))
    && (InSess(s.reader) <==> s.locks.sessOnce == Running(Reader))
    && (InSess(s.watcher) <==> s.locks.sessOnce == Running(Watcher))
    && (InSess(s.heart) <==> s.locks.sessOnce == Running(Heart))
    && (s.locks.closed <==> !s.locks.ctxOnce.Fresh? && !s.reader.CtxStore? && !s.watcher.CtxStore?)
    && s.locks.connCloses == (if s.locks.sessOnce.Fresh? || s.reader.ConnClose? || s.watcher.ConnClose?
                                 || s.heart.ConnClose? then 0 else 1)
    && s.locks.chanCloses == (if s.locks.sessOnce.Done? || s.reader.SessExit? || s.watcher.SessExit?
                                 || s.heart.SessExit? then 1 else 0)
    && (s.locks.ctxOnce.Done? ==> s.locks.sessOnce.Done?)
    && (s.reader.CtxExit? || s.watcher.CtxExit? ==> s.locks.sessOnce.Done?)
    && (Removing(s.reader) || Removing(s.watcher) ==> s.locks.ctxOnce.Done?)
    && (s.reader == SessDo(false) || s.reader.Finished? ==> s.locks.ctxOnce.Done?)
    && (s.watcher.Finished? ==> s.locks.chanCloses > 0 && (s.cfg.kind.Tcp? ==> s.locks.sessOnce.Done?))
    && (s.watcher.Finished? && s.cfg.kind.Tcp? && s.branch.ByCloseChan? ==> s.locks.ctxOnce.Done?)
    && (s.heart.Finished? ==> s.locks.sessOnce.Done? || HeartDisabled(s))
  }

  predicate HeartDisabled(s: Session) { s.cfg.kind.Ws? || s.cfg.interval <= 0 || s.cfg.timeout <= 0 }

  /** The thread has executed the map delete of its Remove. */
  predicate ReaderDeleted(s: Session) { s.reader.CountDec? || s.reader == SessDo(false) || s.reader.Finished? }

  predicate WatcherDeleted(s: Session)
  {
    s.cfg.kind.Tcp? && s.branch.ByCloseChan? && (s.watcher.CountDec? || s.watcher.Finished?)
  }

  predicate MapState(s: Session, listed: bool)
  {
    && (listed <==> !s.reader.Storing? && !ReaderDeleted(s) && !WatcherDeleted(s))
    && s.missed == if ReaderDeleted(s) && WatcherDeleted(s) then 1 else 0
  }

  predicate SessionInv(s: Session, listed: bool) { Shapes(s) && Guards(s) && MapState(s, listed) }

  /** Whether the id is in the manager after thread `t` has stepped. */
  function ListedAfter(listed: bool, pc: PC): bool
  {
    if pc.Storing? then true else if pc.MapDelete? then false else listed
  }

  lemma OpenKeeps(s: Session, env: Env)
    requires SessionInv(s, env.listed) && OpenStep(s).Some?
    ensures SessionInv(OpenStep(s).value, ListedAfter(env.listed, s.reader))
  {
    match s.reader case Storing => case Counting => case Welcoming => case SpawnWatcher => case SpawnHeart => case _ =>
  }

  lemma LoopKeeps(s: Session, c: Choice, env: Env)
    requires SessionInv(s, env.listed) && LoopStep(s, c, env).Some?
    ensures SessionInv(LoopStep(s, c, env).value, env.listed)
  {
    match s.reader case Reading => case Decoding => case Delivering => case _ =>
  }

  lemma SelectKeeps(s: Session, c: Choice, env: Env)
    requires SessionInv(s, env.listed) && s.watcher.Selecting? && SelectStep(s, c, env).Some?
    ensures SessionInv(SelectStep(s, c, env).value, env.listed)
  {
  }

  lemma HeartKeeps(s: Session, env: Env)
    requires SessionInv(s, env.listed) && HeartStep(s, env).Some?
    ensures SessionInv(HeartStep(s, env).value, env.listed)
  {
    hide NextDue;
    match s.heart case Starting => case Ticking => case Checking(_) => case _ =>
  }

  lemma SessKeepsReader(s: Session, listed: bool)
    requires SessionInv(s, listed) && SessStep(s, Reader).Some?
    ensures SessionInv(SessStep(s, Reader).value, listed)
  {
    match s.reader case SessDo(_) => case ConnClose(_) => case ChanClose(_) => case SessExit(_) => case _ =>
  }

  lemma CtxKeepsReader(s: Session, listed: bool)
    requires SessionInv(s, listed) && CtxStep(s, Reader).Some?
    ensures SessionInv(CtxStep(s, Reader).value, listed)
  {
    match s.reader case CtxDo => case CtxStore => case CtxExit => case _ =>
  }

  lemma RemoveKeepsReader(s: Session, listed: bool)
    requires SessionInv(s, listed) && RemoveStep(s, Reader, listed).Some?
    ensures SessionInv(RemoveStep(s, Reader, listed).value, ListedAfter(listed, s.reader))
  {
  }

  lemma SessKeepsWatcher(s: Session, listed: bool)
    requires SessionInv(s, listed) && SessStep(s, Watcher).Some?
    ensures SessionInv(SessStep(s, Watcher).value, listed)
  {
    match s.watcher case SessDo(_) => case ConnClose(_) => case ChanClose(_) => case SessExit(_) => case _ =>
  }

  lemma CtxKeepsWatcher(s: Session, listed: bool)
    requires SessionInv(s, listed) && CtxStep(s, Watcher).Some?
    ensures SessionInv(CtxStep(s, Watcher).value, listed)
  {
    match s.watcher case CtxDo => case CtxStore => case CtxExit => case _ =>
  }

  lemma RemoveKeepsWatcher(s: Session, listed: bool)
    requires SessionInv(s, listed) && RemoveStep(s, Watcher, listed).Some?
    ensures SessionInv(RemoveStep(s, Watcher, listed).value, ListedAfter(listed, s.watcher))
  {
  }

  lemma SessKeepsHeart(s: Session, listed: bool)
    requires SessionInv(s, listed) && SessStep(s, Heart).Some?
    ensures SessionInv(SessStep(s, Heart).value, listed)
  {
    match s.heart case SessDo(_) => case ConnClose(_) => case ChanClose(_) => case SessExit(_) => case _ =>
  }

  /** The invariant of a session is kept by every step of every thread. */
  lemma StepKeeps(s: Session, t: Thread, c: Choice, env: Env)
    requires SessionInv(s, env.listed) && Step(s, t, c, env).Some?
    ensures SessionInv(Step(s, t, c, env).value, ListedAfter(env.listed, Pc(s, t)))
  {
    if t.Reader? && Opening(s.reader) {
      OpenKeeps(s, env);
    } else if t.Reader? && InLoop(s.reader) {
      LoopKeeps(s, c, env);
    } else if t.Watcher? && s.watcher.Selecting? {
      SelectKeeps(s, c, env);
    } else if t.Heart? && InHeart(s.heart) {
      HeartKeeps(s, env);
    } else if Pc(s, t).SessDo? || InSess(Pc(s, t)) {
      match t {
        case Reader => SessKeepsReader(s, env.listed);
        case Watcher => SessKeepsWatcher(s, env.listed);
        case Heart => SessKeepsHeart(s, env.listed);
      }
    } else if ClosingCtx(Pc(s, t)) {
      match t {
        case Reader => CtxKeepsReader(s, env.listed);
        case Watcher => CtxKeepsWatcher(s, env.listed);
        case Heart => assert false;
      }
    } else {
      match t {
        case Reader => RemoveKeepsReader(s, env.listed);
        case Watcher => RemoveKeepsWatcher(s, env.listed);
        case Heart => assert false;
      }
    }
  }

  // ----- The server: all sessions, the manager, the clock ---------------------------------------

  /** `managed` and `count` are the sync.Map and the counter of SessionManager; session i has id i,
      since ids are fresh uuids. */
  datatype World = World(now: int, cancelled: bool, sessions: seq<Session>, managed: set<nat>, count: int)

  datatype Label =
    | Accept(kind: Kind, interval: int, timeout: int)
    | Move(i: nat, t: Thread, c: Choice)
    | Advance(to: int)
    | Cancel

  function Init(now: int): World { World(now, false, [], {}, 0) }

  function EnvOf(w: World, i: nat): Env { Env(w.now, w.cancelled, i in w.managed) }

  function ManagedAfter(managed: set<nat>, i: nat, pc: PC): set<nat>
  {
    if pc.Storing? then managed + {i} else if pc.MapDelete? then managed - {i} else managed
  }

  function CountAfter(w: World, pc: PC): int
  {
    if pc.Counting? then w.count + 1 else if pc.CountDec? then w.count - 1 else w.count
  }

  function WorldStep(w: World, l: Label): Option<World>
  {
    match l
    case Accept(kind, interval, timeout) =>
      Some(w.(sessions := w.sessions + [NewSession(kind, interval, timeout, w.now)]))
    case Advance(to) => if to < w.now then None else Some(w.(now := to))
    case Cancel => Some(w.(cancelled := true))
    case Move(i, t, c) =>
      if i >= |w.sessions| then None else
      match Step(w.sessions[i], t, c, EnvOf(w, i))
      case None => None
      case Some(s) =>
        var pc := Pc(w.sessions[i], t);
        Some(w.(sessions := w.sessions[i := s], managed := ManagedAfter(w.managed, i, pc), count := CountAfter(w, pc)))
  }

  /** The state after a run, or None when some label was not enabled. */
  function Run(w: World, ls: seq<Label>): Option<World>
    decreases ls
  {
    if ls == [] then Some(w) else
    match WorldStep(w, ls[0])
    case None => None
    case Some(w') => Run(w', ls[1..])
  }

  function Bit(b: bool): int { if b then 1 else 0 }

  /** What a session has in flight or has lost between the map and the counter. */
  function Weight(s: Session): int
  {
    Bit(s.reader.CountDec?) + Bit(s.watcher.CountDec?) - Bit(s.reader.Counting?) - s.missed
  }

  predicate AllSessions(w: World) { forall i :: 0 <= i < |w.sessions| ==> SessionInv(w.sessions[i], i in w.managed) }

  predicate WorldInv(w: World)
  {
    && AllSessions(w)
    && (forall i :: i in w.managed ==> i < |w.sessions|)
    && w.count == |w.managed| + Sum(w.sessions, Weight)
  }

  lemma ManagedLaw(managed: set<nat>, i: nat, pc: PC)
    ensures var m := ManagedAfter(managed, i, pc);
      && (i in m <==> ListedAfter(i in managed, pc))
      && (forall j :: j != i ==> (j in m <==> j in managed))
      && |m| == |managed| + Bit(i in m) - Bit(i in managed)
  {
    assert i in managed ==> managed + {i} == managed;
    assert i !in managed ==> managed - {i} == managed;
  }

  /** Replacing session i keeps the others. */
  lemma ReplaceKeeps(w: World, w': World, i: nat, s: Session)
    requires AllSessions(w) && i < |w.sessions| && w'.sessions == w.sessions[i := s]
    requires SessionInv(s, i in w'.managed) && forall j :: j != i ==> (j in w'.managed <==> j in w.managed)
    ensures AllSessions(w')
  {
    hide SessionInv;
  }

  lemma MoveKeeps(w: World, i: nat, t: Thread, c: Choice)
    requires WorldInv(w) && WorldStep(w, Move(i, t, c)).Some?
    ensures WorldInv(WorldStep(w, Move(i, t, c)).value)
  {
    hide Step, SessionInv, ManagedAfter, ListedAfter, Weight, Sum, Pc;
    var s, w', env := w.sessions[i], WorldStep(w, Move(i, t, c)).value, EnvOf(w, i);
    var s' := Step(s, t, c, env).value;
    StepKeeps(s, t, c, env);
    MoveBalance(s, t, c, env);
    ManagedLaw(w.managed, i, Pc(s, t));
    ReplaceKeeps(w, w', i, s');
    SumUpdate(w.sessions, i, s', Weight);
  }

  /** The map, the counter and the weight of a session move together. */
  lemma MoveBalance(s: Session, t: Thread, c: Choice, env: Env)
    requires SessionInv(s, env.listed) && Step(s, t, c, env).Some?
    ensures var pc := Pc(s, t);
      Bit(pc.Counting?) - Bit(pc.CountDec?)
      == Bit(ListedAfter(env.listed, pc)) - Bit(env.listed) + Weight(Step(s, t, c, env).value) - Weight(s)
  {
    if t.Reader? && Opening(s.reader) {
    } else if t.Reader? && InLoop(s.reader) {
    } else if t.Watcher? && s.watcher.Selecting? {
    } else if t.Heart? && InHeart(s.heart) {
    } else if Pc(s, t).SessDo? || InSess(Pc(s, t)) {
      match t case Reader => case Watcher => case Heart =>
    } else if ClosingCtx(Pc(s, t)) {
    } else {
    }
  }

  lemma AcceptKeeps(w: World, s: Session)
    requires WorldInv(w) && SessionInv(s, false) && Weight(s) == 0
    ensures WorldInv(w.(sessions := w.sessions + [s]))
  {
    SumAppend(w.sessions, s, Weight);
  }

  lemma WorldStepKeeps(w: World, l: Label)
    requires WorldInv(w) && WorldStep(w, l).Some?
    ensures WorldInv(WorldStep(w, l).value)
    ensures |w.sessions| <= |WorldStep(w, l).value.sessions|
  {
    match l {
      case Accept(kind, interval, timeout) => AcceptKeeps(w, NewSession(kind, interval, timeout, w.now));
      case Move(i, t, c) => MoveKeeps(w, i, t, c);
      case Advance(_) =>
      case Cancel =>
    }
  }

  lemma {:induction false} RunKeeps(w: World, ls: seq<Label>)
    requires WorldInv(w) && Run(w, ls).Some?
    ensures WorldInv(Run(w, ls).value)
    decreases ls
  {
    if ls != [] {
      WorldStepKeeps(w, ls[0]);
      RunKeeps(WorldStep(w, ls[0]).value, ls[1..]);
    }
  }

  /** Every reachable server state satisfies the invariant. */
  lemma Reachable(now: int, ls: seq<Label>)
    requires Run(Init(now), ls).Some?
    ensures WorldInv(Run(Init(now), ls).value)
  {
    RunKeeps(Init(now), ls);
  }

  // ----- Closing happens once -------------------------------------------------------------------

  predicate AllFinished(s: Session) { s.reader.Finished? && s.watcher.Finished? && s.heart.Finished? }

  /** In every interleaving the connection and the close channel are closed at most once, the channel
      after the connection, and exactly once each when all goroutines of the session have ended. */
  lemma ClosedOnce(now: int, ls: seq<Label>, i: nat)
    requires Run(Init(now), ls).Some? && i < |Run(Init(now), ls).value.sessions|
    ensures var s := Run(Init(now), ls).value.sessions[i];
      && s.locks.chanCloses <= s.locks.connCloses <= 1
      && (AllFinished(s) ==> s.locks.connCloses == s.locks.chanCloses == 1 && s.locks.closed)
  {
    Reachable(now, ls);
  }

  // ----- What stops a sender ----------------------------------------------------------------------

  /** SessionContext.Send gets past its own guard and past the guard of SendEnvelope. */
  predicate SendPasses(s: Session) { !s.locks.closed && s.state.Active? }

  /** The reader has gone past the store that marks the context closed, its own or another's. */
  predicate ReaderPast(s: Session)
  {
    !Opening(s.reader) && !InLoop(s.reader) && !s.reader.CtxDo? && !s.reader.CtxStore?
  }

  /** The watcher of a TCP session has taken the close-channel branch and gone past that store. */
  predicate WatcherPast(s: Session)
  {
    s.cfg.kind.Tcp? && s.branch.ByCloseChan? && !s.watcher.CtxDo? && !s.watcher.CtxStore?
  }

  predicate PastConnClose(pc: PC) { pc.ChanClose? || pc.SessExit? || pc.Finished? }

  /** The cancel branch or the heartbeat watcher, which call Session.Close directly, are past the close
      of the connection. */
  predicate ClosedDirectly(s: Session)
  {
    || (s.branch.ByCancel? && PastConnClose(s.watcher))
    || (!HeartDisabled(s) && PastConnClose(s.heart))
  }

  /** Base.state is never set; the connection was closed through a marked context or directly; the
      context is done only after one of the two threads that close it. */
  predicate Marked(s: Session)
  {
    && s.state.Active?
    && (s.locks.connCloses == 1 ==> s.locks.closed || ClosedDirectly(s))
    && (s.locks.ctxOnce.Done? ==> ReaderPast(s) || WatcherPast(s))
    && (s.heart.Ticking? || s.heart.Checking? || ClosingSess(s.heart) ==> !HeartDisabled(s))
  }

  predicate WorldMarked(w: World) { forall i :: 0 <= i < |w.sessions| ==> Marked(w.sessions[i]) }

  lemma MarkedKept(s: Session, t: Thread, c: Choice, env: Env)
    requires SessionInv(s, env.listed) && Marked(s) && Step(s, t, c, env).Some?
    ensures Marked(Step(s, t, c, env).value)
  {
    match t {
      case Reader => MarkedByReader(s, c, env);
      case Watcher => MarkedByWatcher(s, c, env);
      case Heart =>
    }
  }

  lemma MarkedByWatcher(s: Session, c: Choice, env: Env)
    requires SessionInv(s, env.listed) && Marked(s) && Step(s, Watcher, c, env).Some?
    ensures Marked(Step(s, Watcher, c, env).value)
  {
    if s.watcher.Selecting? {
    } else if s.watcher.SessDo? || InSess(s.watcher) {
    } else if ClosingCtx(s.watcher) {
    }
  }

  lemma MarkedByReader(s: Session, c: Choice, env: Env)
    requires SessionInv(s, env.listed) && Marked(s) && Step(s, Reader, c, env).Some?
    ensures Marked(Step(s, Reader, c, env).value)
  {
    if Opening(s.reader) {
    } else if InLoop(s.reader) {
    } else if s.reader.SessDo? || InSess(s.reader) {
    } else if ClosingCtx(s.reader) {
    }
  }

  lemma WorldMarkedKept(w: World, l: Label)
    requires WorldInv(w) && WorldMarked(w) && WorldStep(w, l).Some?
    ensures WorldMarked(WorldStep(w, l).value)
  {
    if l.Move? {
      MarkedKept(w.sessions[l.i], l.t, l.c, EnvOf(w, l.i));
    }
  }

  lemma {:induction false} RunMarked(w: World, ls: seq<Label>)
    requires WorldInv(w) && WorldMarked(w) && Run(w, ls).Some?
    ensures WorldMarked(Run(w, ls).value)
    decreases ls
  {
    if ls != [] {
      WorldStepKeeps(w, ls[0]);
      WorldMarkedKept(w, ls[0]);
      hide WorldStep, WorldInv, WorldMarked;
      RunMarked(WorldStep(w, ls[0]).value, ls[1..]);
    }
  }

  /** In every run: the guard on Base.state never fires. A Send passes exactly while neither the reader
      nor the watcher has gone past marking the context, and it then meets a closed connection exactly
      when the cancel branch or the heartbeat watcher has closed it directly. */
  lemma SendGuards(now: int, ls: seq<Label>, w: World, i: nat)
    requires Run(Init(now), ls) == Some(w) && i < |w.sessions|
    ensures var s := w.sessions[i];
      && s.state.Active?
      && (SendPasses(s) <==> !ReaderPast(s) && !WatcherPast(s))
      && (SendPasses(s) ==> (s.locks.connCloses == 1 <==> ClosedDirectly(s)))
      && (!s.reader.Storing? && i !in w.managed ==> !SendPasses(s))
  {
    Reachable(now, ls);
    RunMarked(Init(now), ls);
    SendExactly(w.sessions[i], i in w.managed);
    DirectExactly(w.sessions[i], i in w.managed);
    hide SessionInv;
  }

  lemma SendExactly(s: Session, listed: bool)
    requires SessionInv(s, listed) && Marked(s)
    ensures SendPasses(s) <==> !ReaderPast(s) && !WatcherPast(s)
    ensures !s.reader.Storing? && !listed ==> !SendPasses(s)
  {
    if ReaderPast(s) {
      assert ClosingCtx(s.reader) || Removing(s.reader) || s.reader == SessDo(false) || s.reader.Finished?;
      assert s.locks.closed;
    }
    if WatcherPast(s) {
      assert InCtx(s.watcher) || Removing(s.watcher) || s.watcher.Finished?;
      assert s.locks.closed;
    }
    if s.locks.closed && s.locks.ctxOnce.Running? {
      match s.locks.ctxOnce.owner {
        case Reader => assert InCtx(s.reader) && ReaderPast(s);
        case Watcher => assert InCtx(s.watcher) && WatcherPast(s);
        case Heart => assert false;
      }
    }
  }

  lemma DirectExactly(s: Session, listed: bool)
    requires SessionInv(s, listed) && Marked(s)
    ensures SendPasses(s) ==> (s.locks.connCloses == 1 <==> ClosedDirectly(s))
  {
  }

  /** A thread waiting for something other than a Once: input, a tick, cancellation, its own birth. */
  predicate Waiting(s: Session, t: Thread)
  {
    Pc(s, t).Unborn? || Pc(s, t).Finished? || Pc(s, t).Reading? || Pc(s, t).Selecting? || Pc(s, t).Ticking?
  }

  /** When a thread can take a step with outcome c: a read on an open connection or a failing one, a
      closed channel or a cancelled context, a due tick, a Once that nobody is running; everything else
      goes on by itself. */
  predicate CanStep(s: Session, t: Thread, c: Choice, env: Env)
  {
    match Pc(s, t)
    case Unborn => false
    case Finished => false
    case Reading => c.Fail? || (c.Proceed? && s.locks.connCloses == 0)
    case Selecting => (c.Proceed? && s.locks.chanCloses == 1) || (c.Fail? && s.cfg.kind.Tcp? && env.cancelled)
    case Ticking => s.clock.nextTick <= env.now
    case CtxDo => !s.locks.ctxOnce.Running?
    case SessDo(_) => !s.locks.sessOnce.Running?
    case _ => true
  }

  lemma StepsExactly(s: Session, t: Thread, c: Choice, env: Env)
    requires SessionInv(s, env.listed)
    ensures Step(s, t, c, env).Some? <==> CanStep(s, t, c, env)
  {
    match t {
      case Reader => if Opening(s.reader) {} else if InLoop(s.reader) {} else {}
      case Watcher => if s.watcher.Selecting? {} else {}
      case Heart =>
    }
  }

  predicate Enabled(s: Session, t: Thread, env: Env) { Step(s, t, Proceed, env).Some? }

  /** The nested guards never deadlock: a thread that is not waiting for the outside can move, or it
      is blocked on a Once whose owner can move, or whose owner is blocked on the inner Once whose
      owner can move. */
  lemma NoDeadlock(s: Session, t: Thread, env: Env) returns (u: Thread)
    requires SessionInv(s, env.listed) && !Waiting(s, t)
    ensures Enabled(s, u, env)
    ensures u != t ==> InSess(Pc(s, u)) || InCtx(Pc(s, u))
  {
    u := t;
    if Pc(s, u).CtxDo? && s.locks.ctxOnce.Running? {
      u := s.locks.ctxOnce.owner;
    }
    if Pc(s, u).SessDo? && s.locks.sessOnce.Running? {
      u := s.locks.sessOnce.owner;
    }
  }

  // ----- The ledger -----------------------------------------------------------------------------

  /** No AddContext or Remove is between its map update and its counter update. */
  predicate Settled(w: World)
  {
    forall i :: 0 <= i < |w.sessions| ==>
      !w.sessions[i].reader.Counting? && !w.sessions[i].reader.CountDec? && !w.sessions[i].watcher.CountDec?
  }

  function Missed(s: Session): int { s.missed }

  /** w is what some run of a server started at `now` leads to. */
  predicate Reached(now: int, ls: seq<Label>, w: World) { Run(Init(now), ls) == Some(w) }

  /** In every run, with no add or remove half done, the counter is the size of the map minus the
      removes that found nothing. */
  lemma CountLaw(now: int, ls: seq<Label>, w: World)
    requires Reached(now, ls, w) && Settled(w)
    ensures w.count == |w.managed| - Sum(w.sessions, Missed)
  {
    Reachable(now, ls);
    SumNegated(w.sessions);
  }

  lemma {:induction false} SumNegated(ss: seq<Session>)
    requires forall i :: 0 <= i < |ss| ==> Weight(ss[i]) == -Missed(ss[i])
    ensures Sum(ss, Weight) == -Sum(ss, Missed)
  {
    if ss != [] {
      SumNegated(ss[..|ss| - 1]);
    }
  }

  /** A finished session drifts the counter by one exactly when it is a TCP session whose watcher
      took the close-channel branch. */
  function Drift(s: Session): int { Bit(s.cfg.kind.Tcp? && s.branch.ByCloseChan?) }

  lemma FinishedDrift(now: int, ls: seq<Label>, w: World, i: nat)
    requires Reached(now, ls, w) && i < |w.sessions|
    requires w.sessions[i].reader.Finished? && w.sessions[i].watcher.Finished?
    ensures var s := w.sessions[i];
      && i !in w.managed && s.missed == Drift(s)
      && (s.cfg.kind.Tcp? ==> s.branch.ByCancel? || s.branch.ByCloseChan?)
  {
    Reachable(now, ls);
  }

  /** WebSocket sessions never drift, so the counter of a WebSocket-only server is exact. */
  lemma WsExact(now: int, ls: seq<Label>, w: World)
    requires Reached(now, ls, w) && Settled(w)
    requires forall i :: 0 <= i < |w.sessions| ==> w.sessions[i].cfg.kind.Ws?
    ensures w.count == |w.managed|
  {
    Reachable(now, ls);
    CountLaw(now, ls, w);
    SumZero(w.sessions, Missed);
  }

  /** When every session has ended the map is empty and the counter is minus the number of TCP
      sessions whose watcher took the close-channel branch. */
  lemma FinalDrift(now: int, ls: seq<Label>, w: World)
    requires Reached(now, ls, w)
    requires forall i :: 0 <= i < |w.sessions| ==> AllFinished(w.sessions[i])
    ensures w.managed == {} && w.count == -Sum(w.sessions, Drift)
  {
    Reachable(now, ls);
    forall i | 0 <= i < |w.sessions| ensures i !in w.managed && Missed(w.sessions[i]) == Drift(w.sessions[i]) {
      FinishedDrift(now, ls, w, i);
    }
    CountLaw(now, ls, w);
    SumCongruent(w.sessions, Missed, Drift);
    assert forall i :: i in w.managed ==> i < |w.sessions|;
  }

  // ----- Runs that drift --------------------------------------------------------------------------

  lemma {:induction false} RunSnoc(w: World, ls: seq<Label>, l: Label)
    requires Run(w, ls).Some?
    ensures Run(w, ls + [l]) == WorldStep(Run(w, ls).value, l)
    decreases ls
  {
    hide WorldStep;
    if ls == [] {
      assert ls + [l] == [l] && [l][1..] == [];
    } else {
      assert (ls + [l])[1..] == ls[1..] + [l];
      RunSnoc(WorldStep(w, ls[0]).value, ls[1..], l);
    }
  }

  /** The newest session of w, in the place of which the runs below put its next state. */
  function Newest(w: World): Session
    requires w.sessions != []
  {
    w.sessions[|w.sessions| - 1]
  }

  /** One more step of the newest session. */
  lemma Extend(now: int, ls: seq<Label>, w: World, t: Thread, c: Choice) returns (ls': seq<Label>, w': World)
    requires Reached(now, ls, w) && w.sessions != []
    requires Step(Newest(w), t, c, EnvOf(w, |w.sessions| - 1)).Some?
    ensures Reached(now, ls', w') && w'.now == w.now && w'.cancelled == w.cancelled
    ensures |w'.sessions| == |w.sessions| && w'.sessions[..|w.sessions| - 1] == w.sessions[..|w.sessions| - 1]
    ensures var i, pc := |w.sessions| - 1, Pc(Newest(w), t);
      && Newest(w') == Step(Newest(w), t, c, EnvOf(w, i)).value
      && w'.managed == ManagedAfter(w.managed, i, pc) && w'.count == CountAfter(w, pc)
  {
    hide Step, Run;
    var l := Move(|w.sessions| - 1, t, c);
    RunSnoc(Init(now), ls, l);
    ls', w' := ls + [l], WorldStep(w, l).value;
  }

  /** w' differs from w only in its newest session, the presence of its id, and the counter. */
  predicate Beside(w: World, w': World, managed: set<nat>, count: int)
  {
    && w.sessions != [] && w'.now == w.now && w'.cancelled == w.cancelled
    && |w'.sessions| == |w.sessions| && w'.sessions[..|w.sessions| - 1] == w.sessions[..|w.sessions| - 1]
    && w'.managed == managed && w'.count == count
  }

  /** A TCP session without heartbeat that has been opened and waits for a frame. */
  function Opened(now: int): Session
  {
    NewSession(Tcp, 0, 0, now).(reader := Reading, watcher := Selecting, heart := Finished)
  }

  /** Accepting and opening one more session. */
  lemma OpenOne(now: int, ls: seq<Label>, w: World) returns (ls': seq<Label>, w': World)
    requires Reached(now, ls, w)
    ensures Reached(now, ls', w') && |w'.sessions| == |w.sessions| + 1 && w'.sessions[..|w.sessions|] == w.sessions
    ensures Newest(w') == Opened(w.now) && w'.managed == w.managed + {|w.sessions|}
    ensures w'.count == w.count + 1 && w'.now == w.now && w'.cancelled == w.cancelled
  {
    hide Run;
    var l := Accept(Tcp, 0, 0);
    RunSnoc(Init(now), ls, l);
    ls', w' := ls + [l], WorldStep(w, l).value;
    hide WorldStep;
    ls', w' := Extend(now, ls', w', Reader, Proceed);
    ls', w' := Extend(now, ls', w', Reader, Proceed);
    ls', w' := Extend(now, ls', w', Reader, Proceed);
    ls', w' := Extend(now, ls', w', Reader, Proceed);
    ls', w' := Extend(now, ls', w', Reader, Proceed);
    ls', w' := Extend(now, ls', w', Heart, Proceed);
  }

  /** The reader has marked the context closed and is about to call Session.Close. */
  function ReaderMarked(s: Session): Session
  {
    s.(reader := SessDo(true), locks := Locks(Running(Reader), Fresh, true, 0, 0))
  }

  /** The read of the newest session fails and its reader marks the context. */
  lemma ReaderMarks(now: int, ls: seq<Label>, w: World) returns (ls': seq<Label>, w': World)
    requires Reached(now, ls, w) && w.sessions != [] && Newest(w) == Opened(w.now)
    ensures Reached(now, ls', w') && Beside(w, w', w.managed, w.count) && Newest(w') == ReaderMarked(Newest(w))
  {
    hide Run, WorldStep;
    ls', w' := Extend(now, ls, w, Reader, Fail);
    ls', w' := Extend(now, ls', w', Reader, Proceed);
    ls', w' := Extend(now, ls', w', Reader, Proceed);
  }

  /** The reader has run Session.Close inside SessionContext.Close. */
  function ReaderClosed(s: Session): Session
  {
    s.(reader := CtxExit, locks := Locks(Running(Reader), Done, true, 1, 1))
  }

  /** The reader closes connection and channel. */
  lemma ReaderCloses(now: int, ls: seq<Label>, w: World) returns (ls': seq<Label>, w': World)
    requires Reached(now, ls, w) && w.sessions != [] && Newest(w) == ReaderMarked(Opened(w.now))
    ensures Reached(now, ls', w') && Beside(w, w', w.managed, w.count)
    ensures Newest(w') == ReaderClosed(Opened(w.now))
  {
    hide Run, WorldStep;
    ls', w' := Extend(now, ls, w, Reader, Proceed);
    ls', w' := Extend(now, ls', w', Reader, Proceed);
    ls', w' := Extend(now, ls', w', Reader, Proceed);
    ls', w' := Extend(now, ls', w', Reader, Proceed);
  }

  /** The reader has removed the id and ended. */
  function ReaderGone(s: Session): Session
  {
    s.(reader := Finished, locks := Locks(Done, Done, true, 1, 1))
  }

  lemma ReaderRemoves(now: int, ls: seq<Label>, w: World) returns (ls': seq<Label>, w': World)
    requires Reached(now, ls, w) && w.sessions != [] && Newest(w) == ReaderClosed(Opened(w.now))
    requires |w.sessions| - 1 in w.managed
    ensures Reached(now, ls', w') && Beside(w, w', w.managed - {|w.sessions| - 1}, w.count - 1)
    ensures Newest(w') == ReaderGone(Opened(w.now))
  {
    hide Run, WorldStep;
    ls', w' := Extend(now, ls, w, Reader, Proceed);
    ls', w' := Extend(now, ls', w', Reader, Proceed);
    ls', w' := Extend(now, ls', w', Reader, Proceed);
    ls', w' := Extend(now, ls', w', Reader, Proceed);
  }

  /** The watcher sees the closed channel and removes the id again. */
  lemma WatcherRemoves(now: int, ls: seq<Label>, w: World) returns (ls': seq<Label>, w': World)
    requires Reached(now, ls, w) && w.sessions != [] && Newest(w) == ReaderGone(Opened(w.now))
    requires |w.sessions| - 1 !in w.managed
    ensures Reached(now, ls', w') && Beside(w, w', w.managed, w.count - 1) && AllFinished(Newest(w'))
  {
    hide Run, WorldStep;
    ls', w' := Extend(now, ls, w, Watcher, Proceed);
    ls', w' := Extend(now, ls', w', Watcher, Proceed);
    ls', w' := Extend(now, ls', w', Watcher, Proceed);
    ls', w' := Extend(now, ls', w', Watcher, Proceed);
  }

  /** The drift is real and without bound: for every n, a run in which n TCP sessions came and went
      leaves the counter at minus n. */
  lemma {:induction false} DriftingRun(now: int, n: nat) returns (ls: seq<Label>, w: World)
    ensures Reached(now, ls, w) && |w.sessions| == n && forall i :: 0 <= i < n ==> AllFinished(w.sessions[i])
    ensures w.managed == {} && w.count + n == 0
  {
    if n == 0 {
      return [], Init(now);
    }
    var ls0, w0 := DriftingRun(now, n - 1);
    hide Run, AllFinished;
    ls, w := OpenOne(now, ls0, w0);
    ls, w := ReaderMarks(now, ls, w);
    ls, w := ReaderCloses(now, ls, w);
    ls, w := ReaderRemoves(now, ls, w);
    ls, w := WatcherRemoves(now, ls, w);
    assert w.sessions[..n - 1] == w0.sessions;
    assert forall i :: 0 <= i < n - 1 ==> w.sessions[i] == w.sessions[..n - 1][i];
  }

  /** After the cancel branch a Send passes both guards although the connection is closed. */
  lemma SendAfterCancel(now: int) returns (ls: seq<Label>, w: World)
    ensures Reached(now, ls, w) && |w.sessions| == 1
    ensures w.sessions[0].locks.connCloses == 1 && w.sessions[0].branch.ByCancel? && SendPasses(w.sessions[0])
  {
    ls, w := OpenOne(now, [], Init(now));
    RunSnoc(Init(now), ls, Cancel);
    hide Run;
    ls, w := ls + [Cancel], w.(cancelled := true);
    ls, w := Extend(now, ls, w, Watcher, Fail);
    ls, w := Extend(now, ls, w, Watcher, Proceed);
    ls, w := Extend(now, ls, w, Watcher, Proceed);
  }

  /** The id of session i was added to the manager and has been removed. */
  predicate Gone(w: World, i: nat) { i < |w.sessions| && !w.sessions[i].reader.Storing? && i !in w.managed }

  /** An id that was added and is gone belongs to a session whose context is marked closed and whose
      connection and channel are closed. */
  lemma GoneIsClosed(now: int, ls: seq<Label>, w: World, i: nat)
    requires Reached(now, ls, w) && Gone(w, i)
    ensures var k := w.sessions[i].locks; k.closed && k.connCloses == 1 && k.chanCloses == 1
  {
    Reachable(now, ls);
  }

  lemma GoneStays(w: World, l: Label, i: nat)
    requires WorldInv(w) && Gone(w, i) && WorldStep(w, l).Some?
    ensures Gone(WorldStep(w, l).value, i)
  {
    if l.Move? && l.i == i {
      StoringLeft(w.sessions[i], l.t, l.c, EnvOf(w, i));
    }
  }

  /** A removed id never comes back, whatever happens next. */
  lemma {:induction false} GoneForever(w: World, ls: seq<Label>, i: nat)
    requires WorldInv(w) && Gone(w, i) && Run(w, ls).Some?
    ensures Gone(Run(w, ls).value, i)
    decreases ls
  {
    if ls != [] {
      WorldStepKeeps(w, ls[0]);
      GoneStays(w, ls[0], i);
      GoneForever(WorldStep(w, ls[0]).value, ls[1..], i);
    }
  }

  lemma StoringLeft(s: Session, t: Thread, c: Choice, env: Env)
    requires SessionInv(s, env.listed) && !s.reader.Storing? && Step(s, t, c, env).Some?
    ensures !Pc(s, t).Storing? && !Step(s, t, c, env).value.reader.Storing?
  {
  }

  // ----- Time: the heartbeat and the end of all goroutines ----------------------------------------

  /** Ticks are served when due: the clock does not pass a tick somebody waits for, nor move while a
      tick is being handled. */
  predicate Punctual(w: World, l: Label)
  {
    l.Advance? ==> forall i :: 0 <= i < |w.sessions| ==>
      && (w.sessions[i].heart.Ticking? ==> l.to <= w.sessions[i].clock.nextTick)
      && (w.sessions[i].heart.Checking? ==> l.to == w.now)
  }

  predicate PunctualRun(w: World, ls: seq<Label>)
    decreases ls
  {
    ls == [] || (Punctual(w, ls[0]) && WorldStep(w, ls[0]).Some? && PunctualRun(WorldStep(w, ls[0]).value, ls[1..]))
  }

  function Max(a: int, b: int): int { if a < b then b else a }

  /** The latest moment at which an idle session is still waiting for a tick. */
  function Deadline(s: Session): int
  {
    Max(s.clock.lastActive + s.cfg.timeout, s.clock.tickStart) + s.cfg.interval
  }

  /** What holds of clock and heartbeat watcher in every run. */
  predicate ClockInv(s: Session, now: int)
  {
    && s.clock.lastActive <= now
    && (s.heart.Ticking? || s.heart.Checking? ==> !HeartDisabled(s))
    && (s.heart.Checking? ==> s.clock.nextTick <= now && s.heart.last <= s.clock.lastActive)
  }

  /** What holds of them in every punctual run. */
  predicate TimedInv(s: Session, now: int)
  {
    && ClockInv(s, now)
    && (s.heart.Ticking? || s.heart.Checking? ==> s.clock.tickStart <= now <= s.clock.nextTick <= Deadline(s))
  }

  predicate WorldClock(w: World) { forall i :: 0 <= i < |w.sessions| ==> ClockInv(w.sessions[i], w.now) }

  predicate WorldTimed(w: World) { forall i :: 0 <= i < |w.sessions| ==> TimedInv(w.sessions[i], w.now) }

  lemma NextDueOnTime(due: int, interval: int)
    requires interval > 0
    ensures NextDue(due, interval, due) == due + interval
  {
    assert NextDue(due + interval, interval, due) == due + interval;
  }

  /** What a step can change of the clock and of the heartbeat thread. */
  lemma ClockFrame(s: Session, t: Thread, c: Choice, env: Env)
    requires SessionInv(s, env.listed) && Step(s, t, c, env).Some?
    ensures var s' := Step(s, t, c, env).value;
      && s'.cfg == s.cfg
      && (t.Watcher? || (t.Reader? && !s.reader.SpawnHeart?) ==> s'.heart == s.heart)
      && (t.Reader? && s.reader.SpawnHeart? ==> s'.heart.Starting? || (s'.heart.Finished? && HeartDisabled(s)))
      && (t.Watcher? || (t.Reader? && !s.reader.Decoding?) ==> s'.clock == s.clock)
      && (t.Heart? && !s.heart.Starting? && !s.heart.Checking? ==> s'.clock == s.clock)
      && (t.Heart? && !InHeart(s.heart) ==> ClosingSess(s'.heart) || s'.heart.Finished?)
  {
    match t {
      case Reader => if Opening(s.reader) {} else if InLoop(s.reader) {} else {}
      case Watcher => if s.watcher.Selecting? {} else {}
      case Heart =>
    }
  }

  lemma TimedKept(s: Session, t: Thread, c: Choice, env: Env)
    requires SessionInv(s, env.listed) && TimedInv(s, env.now) && Step(s, t, c, env).Some?
    ensures TimedInv(Step(s, t, c, env).value, env.now)
  {
    ClockFrame(s, t, c, env);
    if t.Reader? && s.reader.Decoding? {
    } else if t.Heart? && s.heart.Checking? {
      NextDueOnTime(s.clock.nextTick, s.cfg.interval);
    } else if t.Heart? && InHeart(s.heart) {
    }
  }

  lemma ClockKept(s: Session, t: Thread, c: Choice, env: Env)
    requires SessionInv(s, env.listed) && ClockInv(s, env.now) && Step(s, t, c, env).Some?
    ensures ClockInv(Step(s, t, c, env).value, env.now)
  {
    ClockFrame(s, t, c, env);
    if t.Reader? && s.reader.Decoding? {
    } else if t.Heart? && InHeart(s.heart) {
    }
  }

  lemma WorldClockKept(w: World, l: Label)
    requires WorldInv(w) && WorldClock(w) && WorldStep(w, l).Some?
    ensures WorldClock(WorldStep(w, l).value)
  {
    if l.Move? {
      ClockKept(w.sessions[l.i], l.t, l.c, EnvOf(w, l.i));
    }
  }

  lemma {:induction false} RunClock(w: World, ls: seq<Label>)
    requires WorldInv(w) && WorldClock(w) && Run(w, ls).Some?
    ensures WorldInv(Run(w, ls).value) && WorldClock(Run(w, ls).value)
    decreases ls
  {
    if ls != [] {
      WorldStepKeeps(w, ls[0]);
      WorldClockKept(w, ls[0]);
      hide WorldStep, WorldInv, WorldClock;
      RunClock(WorldStep(w, ls[0]).value, ls[1..]);
    }
  }

  lemma WorldTimedKept(w: World, l: Label)
    requires WorldInv(w) && WorldTimed(w) && Punctual(w, l) && WorldStep(w, l).Some?
    ensures WorldTimed(WorldStep(w, l).value)
  {
    if l.Move? {
      TimedKept(w.sessions[l.i], l.t, l.c, EnvOf(w, l.i));
    }
  }

  lemma {:induction false} RunTimed(w: World, ls: seq<Label>)
    requires WorldInv(w) && WorldTimed(w) && PunctualRun(w, ls)
    ensures Run(w, ls).Some? && WorldInv(Run(w, ls).value) && WorldTimed(Run(w, ls).value)
    decreases ls
  {
    if ls != [] {
      WorldStepKeeps(w, ls[0]);
      WorldTimedKept(w, ls[0]);
      RunTimed(WorldStep(w, ls[0]).value, ls[1..]);
    }
  }

  /** The heartbeat is enabled and its ticker has been started. */
  predicate Watched(s: Session) { !HeartDisabled(s) && !s.heart.Unborn? && !s.heart.Starting? }

  /** The heartbeat watcher has left its loop: it is closing the session or has closed it. */
  predicate HeartGaveUp(s: Session) { ClosingSess(s.heart) || (s.heart.Finished? && s.locks.connCloses == 1) }

  /** Past the deadline the heartbeat watcher has left its loop, however long its close then takes. */
  lemma IdleGivesUp(now: int, ls: seq<Label>, w: World, i: nat)
    requires PunctualRun(Init(now), ls) && Reached(now, ls, w) && i < |w.sessions| && Watched(w.sessions[i])
    requires w.now > Deadline(w.sessions[i])
    ensures HeartGaveUp(w.sessions[i])
  {
    RunTimed(Init(now), ls);
    assert SessionInv(w.sessions[i], i in w.managed) && TimedInv(w.sessions[i], w.now);
  }

  /** Closing takes no time either: the clock stands still while a heartbeat watcher that gave up has
      not got the connection closed. */
  predicate Prompt(w: World, l: Label)
  {
    l.Advance? ==> forall i :: 0 <= i < |w.sessions| ==>
      (ClosingSess(w.sessions[i].heart) && w.sessions[i].locks.connCloses == 0 ==> l.to == w.now)
  }

  /** A punctual run whose steps are also prompt. */
  predicate TimelyRun(w: World, ls: seq<Label>)
    decreases ls
  {
    ls == [] || (Punctual(w, ls[0]) && Prompt(w, ls[0]) && WorldStep(w, ls[0]).Some?
                 && TimelyRun(WorldStep(w, ls[0]).value, ls[1..]))
  }

  /** The watcher decides in time. */
  predicate DueInv(s: Session, now: int)
  {
    ClosingSess(s.heart) && s.locks.connCloses == 0 ==> now <= Deadline(s)
  }

  predicate WorldDue(w: World) { forall i :: 0 <= i < |w.sessions| ==> DueInv(w.sessions[i], w.now) }

  lemma DueKept(s: Session, t: Thread, c: Choice, env: Env)
    requires SessionInv(s, env.listed) && TimedInv(s, env.now) && DueInv(s, env.now) && Step(s, t, c, env).Some?
    ensures DueInv(Step(s, t, c, env).value, env.now)
  {
    ClockFrame(s, t, c, env);
    if s.locks.connCloses == 1 {
      ConnStaysClosed(s, t, c, env);
    } else if t.Reader? && s.reader.Decoding? {
    } else if t.Heart? && InHeart(s.heart) {
    }
  }

  lemma {:induction false} RunDue(w: World, ls: seq<Label>)
    requires WorldInv(w) && WorldTimed(w) && WorldDue(w) && TimelyRun(w, ls)
    ensures PunctualRun(w, ls) && Run(w, ls).Some? && WorldInv(Run(w, ls).value)
    ensures WorldTimed(Run(w, ls).value) && WorldDue(Run(w, ls).value)
    decreases ls
  {
    if ls != [] {
      WorldStepKeeps(w, ls[0]);
      WorldTimedKept(w, ls[0]);
      WorldDueKept(w, ls[0]);
      hide WorldStep, WorldInv, WorldTimed, WorldDue, Punctual, Prompt;
      RunDue(WorldStep(w, ls[0]).value, ls[1..]);
    }
  }

  lemma WorldDueKept(w: World, l: Label)
    requires WorldInv(w) && WorldTimed(w) && WorldDue(w) && Prompt(w, l) && WorldStep(w, l).Some?
    ensures WorldDue(WorldStep(w, l).value)
  {
    if l.Move? {
      DueKept(w.sessions[l.i], l.t, l.c, EnvOf(w, l.i));
    }
  }

  /** An idle session does not outlive its deadline: past last activity (or the start of the ticker,
      if that is later than the timeout) plus timeout plus interval, its connection is closed. */
  lemma IdleIsClosed(now: int, ls: seq<Label>, w: World, i: nat)
    requires TimelyRun(Init(now), ls) && Reached(now, ls, w) && i < |w.sessions| && Watched(w.sessions[i])
    requires w.now > Deadline(w.sessions[i])
    ensures w.sessions[i].locks.connCloses == 1
  {
    RunDue(Init(now), ls);
    var s := w.sessions[i];
    assert SessionInv(s, i in w.managed) && TimedInv(s, w.now) && DueInv(s, w.now);
  }

  /** Before its first tick the heartbeat watcher waits, and no tick comes earlier than one interval. */
  predicate Sleeps(s: Session, now: int)
  {
    Watched(s) ==>
      && s.clock.tickStart + s.cfg.interval <= s.clock.nextTick
      && (s.heart.Ticking? || s.clock.tickStart + s.cfg.interval <= now)
  }

  predicate WorldSleeps(w: World) { forall i :: 0 <= i < |w.sessions| ==> Sleeps(w.sessions[i], w.now) }

  lemma {:induction false} NextDueLater(due: int, interval: int, now: int)
    ensures due <= NextDue(due, interval, now)
    decreases now - due
  {
    if due <= now && interval > 0 {
      NextDueLater(due + interval, interval, now);
    }
  }

  lemma SleepsKept(s: Session, t: Thread, c: Choice, env: Env)
    requires SessionInv(s, env.listed) && Sleeps(s, env.now) && Step(s, t, c, env).Some?
    ensures Sleeps(Step(s, t, c, env).value, env.now)
  {
    ClockFrame(s, t, c, env);
    if t.Reader? && s.reader.Decoding? {
    } else if t.Heart? && InHeart(s.heart) {
      NextDueLater(s.clock.nextTick, s.cfg.interval, env.now);
    }
  }

  lemma WorldSleepsKept(w: World, l: Label)
    requires WorldInv(w) && WorldSleeps(w) && WorldStep(w, l).Some?
    ensures WorldSleeps(WorldStep(w, l).value)
  {
    if l.Move? {
      SleepsKept(w.sessions[l.i], l.t, l.c, EnvOf(w, l.i));
    }
  }

  lemma {:induction false} RunSleeps(w: World, ls: seq<Label>)
    requires WorldInv(w) && WorldSleeps(w) && Run(w, ls).Some?
    ensures WorldSleeps(Run(w, ls).value)
    decreases ls
  {
    if ls != [] {
      WorldStepKeeps(w, ls[0]);
      WorldSleepsKept(w, ls[0]);
      hide WorldStep, WorldInv, WorldSleeps;
      RunSleeps(WorldStep(w, ls[0]).value, ls[1..]);
    }
  }

  /** The ticker of s started no later than the timeout after the last activity. */
  predicate StartedInTime(s: Session) { s.clock.tickStart <= s.clock.lastActive + s.cfg.timeout }

  function IdleBound(s: Session): int { s.clock.lastActive + s.cfg.timeout + s.cfg.interval }

  /** Exactly when the bound of last activity plus timeout plus interval is kept. If the ticker started
      in time, the connection is closed past the bound; if not, the bound comes before the first tick,
      until which the heartbeat watcher only waits. */
  lemma IdleBoundExactly(now: int, ls: seq<Label>, w: World, i: nat)
    requires TimelyRun(Init(now), ls) && Reached(now, ls, w) && i < |w.sessions| && Watched(w.sessions[i])
    ensures var s := w.sessions[i];
      && (StartedInTime(s) ==> (w.now > IdleBound(s) ==> s.locks.connCloses == 1))
      && (!StartedInTime(s) ==> IdleBound(s) < s.clock.tickStart + s.cfg.interval
                                && (w.now < s.clock.tickStart + s.cfg.interval ==> s.heart.Ticking?))
  {
    if w.now > Deadline(w.sessions[i]) {
      IdleIsClosed(now, ls, w, i);
    }
    RunSleeps(Init(now), ls);
    assert Sleeps(w.sessions[i], w.now);
  }

  lemma {:induction false} TimelySnoc(w: World, ls: seq<Label>, l: Label)
    requires TimelyRun(w, ls) && Run(w, ls).Some? && WorldStep(Run(w, ls).value, l).Some?
    requires Punctual(Run(w, ls).value, l) && Prompt(Run(w, ls).value, l)
    ensures TimelyRun(w, ls + [l]) && Run(w, ls + [l]) == WorldStep(Run(w, ls).value, l)
    decreases ls
  {
    hide WorldStep, Punctual, Prompt;
    if ls == [] {
      assert ls + [l] == [l] && [l][1..] == [];
    } else {
      assert (ls + [l])[1..] == ls[1..] + [l];
      TimelySnoc(WorldStep(w, ls[0]).value, ls[1..], l);
    }
  }

  /** One more label of a timely run. */
  lemma Prolong(now: int, ls: seq<Label>, w: World, l: Label) returns (ls': seq<Label>, w': World)
    requires TimelyRun(Init(now), ls) && Reached(now, ls, w)
    requires WorldStep(w, l).Some? && Punctual(w, l) && Prompt(w, l)
    ensures TimelyRun(Init(now), ls') && Reached(now, ls', w') && w' == WorldStep(w, l).value
  {
    TimelySnoc(Init(now), ls, l);
    ls', w' := ls + [l], WorldStep(w, l).value;
  }

  /** One more step of the only session. */
  lemma ProlongMove(now: int, ls: seq<Label>, w: World, t: Thread, s': Session) returns (ls': seq<Label>, w': World)
    requires TimelyRun(Init(now), ls) && Reached(now, ls, w) && |w.sessions| == 1
    requires Step(w.sessions[0], t, Proceed, EnvOf(w, 0)) == Some(s')
    ensures TimelyRun(Init(now), ls') && Reached(now, ls', w') && w'.now == w.now && w'.cancelled == w.cancelled
    ensures w'.sessions == [s'] && w'.managed == ManagedAfter(w.managed, 0, Pc(w.sessions[0], t))
    ensures w'.count == CountAfter(w, Pc(w.sessions[0], t))
  {
    hide Step, TimelyRun, Run;
    ls', w' := Prolong(now, ls, w, Move(0, t, Proceed));
  }

  /** A session accepted at `now` whose ticker starts at `start`. */
  function SlowSession(now: int, interval: int, timeout: int, start: int): Session
  {
    NewSession(Tcp, interval, timeout, now).(
      reader := Reading, watcher := Selecting, heart := Ticking, clock := Clock(now, start, start + interval))
  }

  /** Accepted, stored, counted: the welcome message is about to be sent. */
  lemma UpToWelcome(now: int, interval: int, timeout: int) returns (ls: seq<Label>, w: World)
    ensures TimelyRun(Init(now), ls) && Reached(now, ls, w)
    ensures w == World(now, false, [NewSession(Tcp, interval, timeout, now).(reader := Welcoming)], {0}, 1)
  {
    ls, w := Prolong(now, [], Init(now), Accept(Tcp, interval, timeout));
    hide TimelyRun, Run, WorldStep;
    var s := NewSession(Tcp, interval, timeout, now);
    ls, w := ProlongMove(now, ls, w, Reader, s.(reader := Counting));
    ls, w := ProlongMove(now, ls, w, Reader, s.(reader := Welcoming));
  }

  /** The welcome message takes `delay`; then both goroutines are started and reading begins. */
  lemma SlowWelcome(now: int, interval: int, timeout: int, delay: nat) returns (ls: seq<Label>, w: World)
    ensures TimelyRun(Init(now), ls) && Reached(now, ls, w)
    ensures var s := NewSession(Tcp, interval, timeout, now);
      w == World(now + delay, false, [s.(reader := Reading, watcher := Selecting, heart := Starting)], {0}, 1)
  {
    hide TimelyRun, Run;
    ls, w := UpToWelcome(now, interval, timeout);
    ls, w := Prolong(now, ls, w, Advance(now + delay));
    hide WorldStep, Punctual, Prompt;
    var s := NewSession(Tcp, interval, timeout, now);
    ls, w := ProlongMove(now, ls, w, Reader, s.(reader := SpawnWatcher));
    ls, w := ProlongMove(now, ls, w, Reader, s.(reader := SpawnHeart, watcher := Selecting));
    ls, w := ProlongMove(now, ls, w, Reader, s.(reader := Reading, watcher := Selecting, heart := Starting));
  }

  /** It takes another `lag` until the heartbeat goroutine runs and starts its ticker. */
  lemma SlowOpening(now: int, interval: int, timeout: int, delay: nat, lag: nat) returns (ls: seq<Label>, w: World)
    requires interval > 0 && timeout > 0
    ensures TimelyRun(Init(now), ls) && Reached(now, ls, w)
    ensures w == World(now + delay + lag, false, [SlowSession(now, interval, timeout, now + delay + lag)], {0}, 1)
  {
    hide TimelyRun, Run;
    ls, w := SlowWelcome(now, interval, timeout, delay);
    ls, w := Prolong(now, ls, w, Advance(now + delay + lag));
    hide WorldStep, Punctual, Prompt;
    ls, w := ProlongMove(now, ls, w, Heart, SlowSession(now, interval, timeout, now + delay + lag));
  }

  /** A welcome message that blocks for `delay` and a heartbeat goroutine scheduled `lag` later keep the
      ticker from starting, and the idle session is still open one interval after it started: past the
      bound exactly when the two together exceed the timeout. */
  lemma LateTicker(now: int, interval: int, timeout: int, delay: nat, lag: nat) returns (ls: seq<Label>, w: World)
    requires interval > 0 && timeout > 0
    ensures TimelyRun(Init(now), ls) && Reached(now, ls, w) && |w.sessions| == 1
    ensures var s := w.sessions[0];
      && Watched(s) && s.heart.Ticking? && s.locks.connCloses == 0 && s.clock.lastActive == now
      && s.cfg == Config(Tcp, interval, timeout)
      && s.clock.tickStart == now + delay + lag && (w.now > IdleBound(s) <==> delay + lag > timeout)
  {
    hide TimelyRun, Run;
    ls, w := SlowOpening(now, interval, timeout, delay, lag);
    ls, w := Prolong(now, ls, w, Advance(now + delay + lag + interval));
  }

  /** The heartbeat watcher finds that a session has been idle for too long. */
  lemma TimesOut(now: int, interval: int, timeout: int) returns (ls: seq<Label>, w: World)
    requires interval > 0 && timeout > 0
    ensures Reached(now, ls, w) && |w.sessions| == 1
    ensures w.sessions[0] == SlowSession(now, interval, timeout, now).(heart := SessDo(false))
  {
    ls, w := SlowOpening(now, interval, timeout, 0, 0);
    hide Run;
    var l := Advance(now + interval + timeout + 1);
    RunSnoc(Init(now), ls, l);
    ls, w := ls + [l], WorldStep(w, l).value;
    hide WorldStep, TimelyRun, NextDue;
    ls, w := Extend(now, ls, w, Heart, Proceed);
    ls, w := Extend(now, ls, w, Heart, Proceed);
  }

  /** After a heartbeat timeout, too, a Send passes both guards although the connection is closed. */
  lemma SendAfterTimeout(now: int, interval: int, timeout: int) returns (ls: seq<Label>, w: World)
    requires interval > 0 && timeout > 0
    ensures Reached(now, ls, w) && |w.sessions| == 1 && w.sessions[0].cfg == Config(Tcp, interval, timeout)
    ensures w.sessions[0].locks.connCloses == 1 && w.sessions[0].branch.Undecided? && SendPasses(w.sessions[0])
  {
    hide Run, WorldStep;
    ls, w := TimesOut(now, interval, timeout);
    ls, w := Extend(now, ls, w, Heart, Proceed);
    ls, w := Extend(now, ls, w, Heart, Proceed);
  }

  /** Throughout the run, activity of session i is never more than its timeout old. */
  predicate Lively(w: World, ls: seq<Label>, i: nat)
    decreases ls
  {
    && i < |w.sessions|
    && w.now - w.sessions[i].clock.lastActive <= w.sessions[i].cfg.timeout
    && (ls == [] || (WorldStep(w, ls[0]).Some? && Lively(WorldStep(w, ls[0]).value, ls[1..], i)))
  }

  /** The heartbeat watcher of session i compares as soon as it has loaded the last activity. */
  predicate SwiftRun(w: World, ls: seq<Label>, i: nat)
    decreases ls
  {
    ls == [] ||
    (&& (ls[0].Advance? && i < |w.sessions| && w.sessions[i].heart.Checking? ==> ls[0].to == w.now)
     && WorldStep(w, ls[0]).Some? && SwiftRun(WorldStep(w, ls[0]).value, ls[1..], i))
  }

  /** The heartbeat watcher has not decided to close. */
  predicate Spared(s: Session, now: int)
  {
    s.heart.Unborn? || s.heart.Starting? || s.heart.Ticking?
    || (s.heart.Checking? && now - s.heart.last <= s.cfg.timeout) || (HeartDisabled(s) && s.heart.Finished?)
  }

  lemma SparedKept(s: Session, t: Thread, c: Choice, env: Env)
    requires SessionInv(s, env.listed) && Spared(s, env.now) && Step(s, t, c, env).Some?
    requires env.now - s.clock.lastActive <= s.cfg.timeout
    ensures Spared(Step(s, t, c, env).value, env.now)
  {
    ClockFrame(s, t, c, env);
    if t.Heart? && InHeart(s.heart) {
    }
  }

  /** A lively session is never closed by its heartbeat watcher. */
  lemma {:induction false} LivelyIsSpared(w: World, ls: seq<Label>, i: nat)
    requires WorldInv(w) && SwiftRun(w, ls, i) && Lively(w, ls, i) && Spared(w.sessions[i], w.now)
    ensures Run(w, ls).Some? && i < |Run(w, ls).value.sessions|
    ensures Spared(Run(w, ls).value.sessions[i], Run(w, ls).value.now)
    decreases ls
  {
    if ls != [] {
      WorldStepKeeps(w, ls[0]);
      if ls[0].Move? && ls[0].i == i {
        SparedKept(w.sessions[i], ls[0].t, ls[0].c, EnvOf(w, i));
      }
      LivelyIsSpared(WorldStep(w, ls[0]).value, ls[1..], i);
    }
  }

  /** How many ticks from `due` on come no later than `limit`. */
  function Ticks(due: int, limit: int, interval: int): nat
    decreases limit - due
  {
    if due > limit || interval <= 0 then 0 else 1 + Ticks(due + interval, limit, interval)
  }

  lemma {:induction false} TicksMonotone(due: int, limit: int, due': int, limit': int, interval: int)
    requires limit - due <= limit' - due'
    ensures Ticks(due, limit, interval) <= Ticks(due', limit', interval)
    decreases limit - due
  {
    if due <= limit && interval > 0 {
      TicksMonotone(due + interval, limit, due' + interval, limit', interval);
    }
  }

  /** More ticks than any quiet period can need. */
  function TickBound(s: Session): nat { Ticks(0, s.cfg.timeout, s.cfg.interval) }

  /** How many more ticks can find the session still active: those to come, and one that is due or being
      handled. */
  function TicksLeft(s: Session, now: int): nat
  {
    var due, limit := s.clock.nextTick, s.clock.lastActive + s.cfg.timeout;
    if due > now then Ticks(due, limit, s.cfg.interval)
    else if now > limit then 0
    else 1 + Ticks(NextDue(due, s.cfg.interval, now), limit, s.cfg.interval)
  }

  /** Steps left in the closing code. */
  function CloseRank(pc: PC): nat
  {
    match pc
    case SessExit(n) => if n then 8 else 1
    case ChanClose(n) => if n then 9 else 2
    case ConnClose(n) => if n then 10 else 3
    case SessDo(n) => if n then 11 else 4
    case CountDec => 5
    case MapDelete => 6
    case CtxExit => 7
    case CtxStore => 12
    case CtxDo => 13
    case Selecting => 14
    case Unborn => 14
    case _ => 0
  }

  function ReaderRank(s: Session): nat
  {
    match s.reader
    case Reading => 14
    case Delivering => 15
    case Decoding => 18 + 2 * TickBound(s)
    case SpawnHeart => 15
    case SpawnWatcher => 16
    case Welcoming => 17
    case Counting => 18
    case Storing => 19
    case pc => CloseRank(pc)
  }

  function HeartRank(s: Session, now: int): nat
  {
    match s.heart
    case Unborn => 2 * TickBound(s) + 8
    case Starting => 2 * TickBound(s) + 7
    case Ticking => 2 * TicksLeft(s, now) + 6
    case Checking(_) => 2 * TicksLeft(s, now) + 5
    case pc => CloseRank(pc)
  }

  /** An upper bound on the number of steps the goroutines of a closed session can still take. */
  function Rank(s: Session, now: int): nat { ReaderRank(s) + CloseRank(s.watcher) + HeartRank(s, now) }

  lemma {:induction false} NextDueAfter(due: int, interval: int, now: int)
    requires interval > 0
    ensures due <= NextDue(due, interval, now) && now < NextDue(due, interval, now)
    ensures due <= now ==> due + interval <= NextDue(due, interval, now)
    decreases now - due
  {
    if due <= now {
      NextDueAfter(due + interval, interval, now);
    }
  }

  lemma {:induction false} NextDueMonotone(due: int, interval: int, now: int, now': int)
    requires interval > 0 && now <= now'
    ensures NextDue(due, interval, now) <= NextDue(due, interval, now')
    decreases now - due
  {
    if due <= now {
      NextDueMonotone(due + interval, interval, now, now');
    } else {
      NextDueAfter(due, interval, now');
    }
  }

  /** Time passing never adds ticks. */
  lemma TicksLeftShrinks(s: Session, now: int, now': int)
    requires s.cfg.interval > 0 && now <= now'
    ensures TicksLeft(s, now') <= TicksLeft(s, now)
  {
    var due, limit, d := s.clock.nextTick, s.clock.lastActive + s.cfg.timeout, s.cfg.interval;
    if due <= now' <= limit {
      NextDueMonotone(due, d, now, now');
      NextDueAfter(due, d, now');
      TicksMonotone(NextDue(due, d, now'), limit, if due > now then due + d else NextDue(due, d, now), limit, d);
    }
  }

  lemma RankShrinks(s: Session, now: int, now': int)
    requires ClockInv(s, now) && now <= now'
    ensures Rank(s, now') <= Rank(s, now)
  {
    if s.heart.Ticking? || s.heart.Checking? {
      TicksLeftShrinks(s, now, now');
    }
  }

  /** Ticks left right after an activity or the start of the ticker. */
  lemma TicksBounded(s: Session, now: int)
    requires s.cfg.interval > 0 && s.clock.lastActive <= now
    ensures TicksLeft(s, now) <= TickBound(s) + 1
    ensures s.clock.nextTick > now ==> TicksLeft(s, now) <= TickBound(s)
  {
    var due, limit, d := s.clock.nextTick, s.clock.lastActive + s.cfg.timeout, s.cfg.interval;
    var next := if due > now then due else NextDue(due, d, now);
    NextDueAfter(due, d, now);
    TicksMonotone(next, limit, 0, s.cfg.timeout, d);
  }

  lemma RankReader(s: Session, c: Choice, env: Env)
    requires SessionInv(s, env.listed) && ClockInv(s, env.now) && s.locks.connCloses == 1
    requires Step(s, Reader, c, env).Some?
    ensures Rank(Step(s, Reader, c, env).value, env.now) < Rank(s, env.now)
  {
    if s.reader.SpawnHeart? {
    } else if s.reader.Decoding? {
      RankDecoding(s, c, env);
    } else {
      var s' := Step(s, Reader, c, env).value;
      ClockFrame(s, Reader, c, env);
      ReaderRankDrops(s, c, env);
      ReaderAlone(s, c, env);
      assert HeartRank(s', env.now) == HeartRank(s, env.now);
      hide Step, ReaderRank, HeartRank, CloseRank;
    }
  }

  lemma ReaderAlone(s: Session, c: Choice, env: Env)
    requires SessionInv(s, env.listed) && Step(s, Reader, c, env).Some?
    ensures CloseRank(Step(s, Reader, c, env).value.watcher) == CloseRank(s.watcher)
  {
    if Opening(s.reader) {} else if InLoop(s.reader) {} else {}
  }

  lemma RankDecoding(s: Session, c: Choice, env: Env)
    requires SessionInv(s, env.listed) && ClockInv(s, env.now) && s.reader.Decoding?
    ensures Rank(Step(s, Reader, c, env).value, env.now) < Rank(s, env.now)
  {
    var s' := Step(s, Reader, c, env).value;
    if s'.heart.Ticking? || s'.heart.Checking? {
      TicksBounded(s', env.now);
    }
  }

  lemma ReaderRankDrops(s: Session, c: Choice, env: Env)
    requires SessionInv(s, env.listed) && s.locks.connCloses == 1 && Step(s, Reader, c, env).Some?
    requires !s.reader.SpawnHeart? && !s.reader.Decoding?
    ensures ReaderRank(Step(s, Reader, c, env).value) < ReaderRank(s)
  {
    if Opening(s.reader) {
    } else if InLoop(s.reader) {
    } else if s.reader.SessDo? || InSess(s.reader) {
    } else if ClosingCtx(s.reader) {
    } else {
    }
  }

  lemma RankWatcher(s: Session, c: Choice, env: Env)
    requires SessionInv(s, env.listed) && Step(s, Watcher, c, env).Some?
    ensures Rank(Step(s, Watcher, c, env).value, env.now) < Rank(s, env.now)
  {
    var s' := Step(s, Watcher, c, env).value;
    ClockFrame(s, Watcher, c, env);
    WatcherRankDrops(s, c, env);
    assert ReaderRank(s') == ReaderRank(s) && HeartRank(s', env.now) == HeartRank(s, env.now);
    hide Step, ReaderRank, HeartRank, CloseRank;
  }

  lemma WatcherRankDrops(s: Session, c: Choice, env: Env)
    requires SessionInv(s, env.listed) && Step(s, Watcher, c, env).Some?
    ensures var s' := Step(s, Watcher, c, env).value;
      s'.reader == s.reader && CloseRank(s'.watcher) < CloseRank(s.watcher)
  {
    if s.watcher.Selecting? {
    } else if s.watcher.SessDo? || InSess(s.watcher) {
    } else if ClosingCtx(s.watcher) {
    } else {
    }
  }

  /** The steps of the heartbeat loop. */
  lemma RankTick(s: Session, env: Env)
    requires ClockInv(s, env.now) && HeartStep(s, env).Some?
    ensures HeartRank(HeartStep(s, env).value, env.now) < HeartRank(s, env.now)
  {
    var s' := HeartStep(s, env).value;
    if s.heart.Starting? && !HeartDisabled(s) {
      TicksBounded(s', env.now);
    } else if s.heart.Checking? && env.now - s.heart.last <= s.cfg.timeout {
      NextDueAfter(s.clock.nextTick, s.cfg.interval, env.now);
    }
  }

  lemma RankHeart(s: Session, c: Choice, env: Env)
    requires SessionInv(s, env.listed) && ClockInv(s, env.now) && Step(s, Heart, c, env).Some?
    ensures Rank(Step(s, Heart, c, env).value, env.now) < Rank(s, env.now)
  {
    var s' := Step(s, Heart, c, env).value;
    ClockFrame(s, Heart, c, env);
    assert s'.reader == s.reader && s'.watcher == s.watcher && ReaderRank(s') == ReaderRank(s);
    hide ReaderRank;
    if InHeart(s.heart) {
      RankTick(s, env);
      hide HeartRank;
    }
  }

  function Moves(ls: seq<Label>, i: nat): nat
  {
    if ls == [] then 0 else Bit(ls[0].Move? && ls[0].i == i) + Moves(ls[1..], i)
  }

  lemma ConnStaysClosed(s: Session, t: Thread, c: Choice, env: Env)
    requires SessionInv(s, env.listed) && s.locks.connCloses == 1 && Step(s, t, c, env).Some?
    ensures Step(s, t, c, env).value.locks.connCloses == 1
  {
    match t {
      case Reader => if Opening(s.reader) {} else if InLoop(s.reader) {} else {}
      case Watcher => if s.watcher.Selecting? {} else {}
      case Heart =>
    }
  }

  /** One label lowers the rank of a closed session if it is a step of that session, and never raises it. */
  lemma RankStep(w: World, l: Label, i: nat)
    requires WorldInv(w) && WorldClock(w) && WorldStep(w, l).Some?
    requires i < |w.sessions| && w.sessions[i].locks.connCloses == 1
    ensures var w' := WorldStep(w, l).value;
      && i < |w'.sessions| && w'.sessions[i].locks.connCloses == 1
      && Bit(l.Move? && l.i == i) + Rank(w'.sessions[i], w'.now) <= Rank(w.sessions[i], w.now)
  {
    hide Rank, Step;
    if l.Move? && l.i == i {
      var s, t, c, env := w.sessions[i], l.t, l.c, EnvOf(w, i);
      ConnStaysClosed(s, t, c, env);
      match t {
        case Reader => RankReader(s, c, env);
        case Watcher => RankWatcher(s, c, env);
        case Heart => RankHeart(s, c, env);
      }
    } else if l.Advance? {
      RankShrinks(w.sessions[i], w.now, l.to);
    }
  }

  /** After the connection is closed the goroutines of the session take at most Rank more steps in
      any run, with any interleaving of other sessions, ticks and clock advances. */
  lemma {:induction false} ClosedSessionEnds(w: World, ls: seq<Label>, i: nat)
    requires WorldInv(w) && WorldClock(w) && Run(w, ls).Some?
    requires i < |w.sessions| && w.sessions[i].locks.connCloses == 1
    ensures i < |Run(w, ls).value.sessions|
    ensures Moves(ls, i) + Rank(Run(w, ls).value.sessions[i], Run(w, ls).value.now) <= Rank(w.sessions[i], w.now)
    decreases ls
  {
    if ls != [] {
      WorldStepKeeps(w, ls[0]);
      WorldClockKept(w, ls[0]);
      RankStep(w, ls[0], i);
      hide WorldStep, WorldInv, WorldClock, Rank;
      ClosedSessionEnds(WorldStep(w, ls[0]).value, ls[1..], i);
    }
  }

  /** The same for every run from the start: from the moment the connection of session i is closed, its
      goroutines take at most Rank steps, however late ticks are served and whatever else happens. */
  lemma AfterClose(now: int, before: seq<Label>, w: World, after: seq<Label>, i: nat)
    requires Reached(now, before, w) && Run(w, after).Some?
    requires i < |w.sessions| && w.sessions[i].locks.connCloses == 1
    ensures Moves(after, i) <= Rank(w.sessions[i], w.now)
  {
    RunClock(Init(now), before);
    ClosedSessionEnds(w, after, i);
  }

  /** A session with a closed connection is never stuck before its end: some goroutine can step, or
      the only one left is the heartbeat watcher waiting for its next tick. */
  lemma ClosedSessionMoves(s: Session, env: Env)
    requires SessionInv(s, env.listed) && s.locks.connCloses == 1 && !AllFinished(s)
    ensures (exists t: Thread, c: Choice :: Step(s, t, c, env).Some?)
            || (s.reader.Finished? && s.watcher.Finished? && s.heart.Ticking? && env.now < s.clock.nextTick)
  {
    if !Waiting(s, Reader) {
      var u := NoDeadlock(s, Reader, env);
      assert Step(s, u, Proceed, env).Some?;
    } else if s.reader.Reading? {
      assert Step(s, Reader, Fail, env).Some?;
    } else if !Waiting(s, Watcher) {
      var u := NoDeadlock(s, Watcher, env);
      assert Step(s, u, Proceed, env).Some?;
    } else if s.watcher.Selecting? {
      assert Step(s, Watcher, Proceed, env).Some?;
    } else if !Waiting(s, Heart) {
      var u := NoDeadlock(s, Heart, env);
      assert Step(s, u, Proceed, env).Some?;
    } else if s.clock.nextTick <= env.now {
      assert Step(s, Heart, Proceed, env).Some?;
    }
  }
}
