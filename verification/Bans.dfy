/**
 The ban list of internal/chat/hub.go. An expired ban is removed lazily by the IsBanned call that
 meets it; the specification is the log of all bans, of which only the latest per name matters.
 */
module Bans {
  import opened Sums

  datatype Name = Name(text: string)

  /** The zero time means forever. */
  datatype Until = Forever | At(t: int)

  predicate Live(u: Until, now: int) { u.Forever? || now < u.t }

  /** The entry written by BanFor: it holds forever when d <= 0 and for the duration d otherwise. */
  function BanUntil(d: int, now: int): (u: Until)
    ensures forall t :: Live(u, t) <==> d <= 0 || t < now + d
  {
    if d <= 0 then Forever else At(now + d)
  }

  /** The map after IsBanned(name). */
  function Cleaned(banned: map<Name, Until>, name: Name, now: int): map<Name, Until>
  {
    if name in banned && !Live(banned[name], now) then banned - {name} else banned
  }

  class BanList {
    var banned: map<Name, Until>

    constructor ()
      ensures banned == map[]
    {
      banned := map[];
    }

    method BanFor(name: Name, d: int, now: int)
      modifies this
      ensures banned == old(banned)[name := BanUntil(d, now)]
    {
      if d <= 0 {
        banned := banned[name := Forever];
      } else {
        banned := banned[name := At(now + d)];
      }
    }

    method IsBanned(name: Name, now: int) returns (yes: bool)
      modifies this
      ensures yes == (name in old(banned) && Live(old(banned)[name], now))
      ensures banned == Cleaned(old(banned), name, now)
    {
      if name !in banned {
        return false;
      }
      var until := banned[name];
      if until.Forever? {
        return true;
      }
      if now < until.t {
        return true;
      }
      banned := banned - {name};
      return false;
    }
  }

  // ----- Sequential runs agree with the log -----------------------------------------------------

  datatype Op = Ban(name: Name, d: int) | Ask(name: Name)

  datatype Timed = Timed(at: int, op: Op)

  /** The latest ban of `name` in the log. */
  function Latest(log: seq<(Name, Until)>, name: Name): Option<Until>
  {
    if log == [] then None
    else if log[|log| - 1].0 == name then Some(log[|log| - 1].1)
    else Latest(log[..|log| - 1], name)
  }

  predicate SpecBanned(log: seq<(Name, Until)>, name: Name, now: int)
  {
    Latest(log, name).Some? && Live(Latest(log, name).value, now)
  }

  /** The answers of the IsBanned calls of a run, computed from the map. */
  function Answers(banned: map<Name, Until>, ops: seq<Timed>): seq<bool>
    decreases ops
  {
    if ops == [] then [] else
    match ops[0].op
    case Ban(name, d) => Answers(banned[name := BanUntil(d, ops[0].at)], ops[1..])
    case Ask(name) =>
      [name in banned && Live(banned[name], ops[0].at)] + Answers(Cleaned(banned, name, ops[0].at), ops[1..])
  }

  /** The answers the log prescribes. */
  function SpecAnswers(log: seq<(Name, Until)>, ops: seq<Timed>): seq<bool>
    decreases ops
  {
    if ops == [] then [] else
    match ops[0].op
    case Ban(name, d) => SpecAnswers(log + [(name, BanUntil(d, ops[0].at))], ops[1..])
    case Ask(name) => [SpecBanned(log, name, ops[0].at)] + SpecAnswers(log, ops[1..])
  }

  predicate Clocked(ops: seq<Timed>, from: int)
  {
    (forall i :: 0 <= i < |ops| ==> from <= ops[i].at)
    && (forall i, j :: 0 <= i < j < |ops| ==> ops[i].at <= ops[j].at)
  }

  /** The map holds latest bans only, and lacks only names never banned or whose latest ban is over. */
  ghost predicate Agrees(banned: map<Name, Until>, log: seq<(Name, Until)>, now: int)
  {
    && (forall n :: n in banned ==> Latest(log, n) == Some(banned[n]))
    && (forall n :: n !in banned && Latest(log, n).Some? ==> !Live(Latest(log, n).value, now))
  }

  /** With a clock that never goes back, lazy cleaning is invisible: every IsBanned answers as if no
      entry were ever removed. */
  lemma {:induction false} LazyIsExact(banned: map<Name, Until>, log: seq<(Name, Until)>, ops: seq<Timed>, now: int)
    requires Agrees(banned, log, now) && Clocked(ops, now)
    ensures Answers(banned, ops) == SpecAnswers(log, ops)
    decreases ops
  {
    if ops != [] {
      var at := ops[0].at;
      assert Clocked(ops[1..], at);
      match ops[0].op {
        case Ban(name, d) =>
          var e := (name, BanUntil(d, at));
          assert (log + [e])[..|log|] == log;
          LazyIsExact(banned[name := e.1], log + [e], ops[1..], at);
        case Ask(name) =>
          LazyIsExact(Cleaned(banned, name, at), log, ops[1..], at);
      }
    }
  }

  /** So from an empty ban list, every answer of every sequential run is what the log prescribes. */
  lemma AnswersExact(ops: seq<Timed>, now: int)
    requires Clocked(ops, now)
    ensures Answers(map[], ops) == SpecAnswers([], ops)
  {
    LazyIsExact(map[], [], ops, now);
  }

  // ----- IsBanned as two critical sections ------------------------------------------------------

  /** A ban with the serial number of its write. */
  datatype Written = Written(until: Until, serial: nat)

  datatype Caller =
    | Idle
    | HasRead(name: Name, entry: Option<Written>)   // between RUnlock and the checks
    | Deleting(name: Name, stale: Written)          // found expired, before Lock

  /** `latest` is the specification: the last ban written for each name. */
  datatype State = State(now: int, banned: map<Name, Written>, latest: map<Name, Written>, serial: nat,
                         callers: seq<Caller>)

  datatype Label =
    | Write(name: Name, d: int)
    | Read(c: nat, name: Name)
    | Check(c: nat)
    | Delete(c: nat)
    | Tick(to: int)

  function Init(now: int, n: nat): State { State(now, map[], map[], 0, seq(n, _ => Idle)) }

  function Step(s: State, l: Label): Option<State>
  {
    match l
    case Write(name, d) =>
      var w := Written(BanUntil(d, s.now), s.serial + 1);
      Some(s.(banned := s.banned[name := w], latest := s.latest[name := w], serial := s.serial + 1))
    case Read(c, name) =>
      if c < |s.callers| && s.callers[c].Idle? then
        Some(s.(callers := s.callers[c := HasRead(name, if name in s.banned then Some(s.banned[name]) else None)]))
      else None
    case Check(c) =>
      if c < |s.callers| && s.callers[c].HasRead? then
        var e := s.callers[c].entry;
        Some(s.(callers := s.callers[c := if e.None? || Live(e.value.until, s.now) then Idle
                                          else Deleting(s.callers[c].name, e.value)]))
      else None
    case Delete(c) =>
      if c < |s.callers| && s.callers[c].Deleting? then
        Some(s.(banned := s.banned - {s.callers[c].name}, callers := s.callers[c := Idle]))
      else None
    case Tick(to) => if s.now <= to then Some(s.(now := to)) else None
  }

  /** The last state of a run, or None when a label was not enabled. */
  function Run(s: State, ls: seq<Label>): Option<State>
    decreases ls
  {
    if ls == [] then Some(s) else
    match Step(s, ls[0])
    case None => None
    case Some(s') => Run(s', ls[1..])
  }

  /** A temporary entry read by the caller, on which it may still act. */
  function Pending(c: Caller): Option<Written>
  {
    match c
    case HasRead(_, Some(w)) => if w.until.At? then Some(w) else None
    case Deleting(_, w) => Some(w)
    case _ => None
  }

  ghost predicate Inv(s: State)
  {
    && (forall n :: n in s.banned ==> n in s.latest && s.banned[n] == s.latest[n])
    && (forall n :: n in s.latest ==> s.latest[n].serial <= s.serial)
    && (forall i :: 0 <= i < |s.callers| && s.callers[i].Deleting? ==> !Live(s.callers[i].stale.until, s.now))
    && (forall i :: 0 <= i < |s.callers| ==> Backed(s.callers[i], s.latest))
  }

  /** What a caller has read was the latest ban of its name then: it still is, or a later one exists. */
  predicate Backed(c: Caller, latest: map<Name, Written>)
  {
    Pending(c).Some? ==>
      && c.name in latest && Pending(c).value.serial <= latest[c.name].serial
      && (Pending(c).value.serial == latest[c.name].serial ==> Pending(c).value == latest[c.name])
  }

  lemma StepKeeps(s: State, l: Label)
    requires Inv(s) && Step(s, l).Some?
    ensures Inv(Step(s, l).value)
  {
  }

  lemma {:induction false} RunKeeps(s: State, ls: seq<Label>)
    requires Inv(s) && Run(s, ls).Some?
    ensures Inv(Run(s, ls).value)
    decreases ls
  {
    if ls != [] {
      StepKeeps(s, ls[0]);
      RunKeeps(Step(s, ls[0]).value, ls[1..]);
    }
  }

  /** The clock after a run that started at `now`. */
  function ClockOf(now: int, ls: seq<Label>): int
  {
    if ls == [] then now
    else if ls[|ls| - 1].Tick? then ls[|ls| - 1].to
    else ClockOf(now, ls[..|ls| - 1])
  }

  /** The latest ban of a name, read off the labels: duration and time of writing. */
  function LastWrite(now: int, ls: seq<Label>, name: Name): Option<(int, int)>
  {
    if ls == [] then None else
    var front, l := ls[..|ls| - 1], ls[|ls| - 1];
    if l.Write? && l.name == name then Some((l.d, ClockOf(now, front))) else LastWrite(now, front, name)
  }

  lemma {:induction false} RunLast(s: State, ls: seq<Label>)
    requires Run(s, ls).Some? && ls != []
    ensures Run(s, ls[..|ls| - 1]).Some?
    ensures Run(s, ls) == Step(Run(s, ls[..|ls| - 1]).value, ls[|ls| - 1])
    decreases ls
  {
    hide Step;
    if |ls| > 1 {
      assert ls[..|ls| - 1][1..] == ls[1..][..|ls| - 2];
      RunLast(Step(s, ls[0]).value, ls[1..]);
    }
  }

  /** The specification is what the labels say: a name has a ban exactly if one was written, and it is live
      forever if the duration was not positive and for that duration from its writing otherwise. */
  lemma {:induction false} LatestIsLastWrite(now: int, n: nat, ls: seq<Label>, name: Name)
    requires Run(Init(now, n), ls).Some?
    ensures var s, b := Run(Init(now, n), ls).value, LastWrite(now, ls, name);
      && s.now == ClockOf(now, ls)
      && (name in s.latest <==> b.Some?)
      && (b.Some? ==> forall t :: Live(s.latest[name].until, t) <==> b.value.0 <= 0 || t < b.value.1 + b.value.0)
    decreases |ls|
  {
    if ls != [] {
      RunLast(Init(now, n), ls);
      LatestIsLastWrite(now, n, ls[..|ls| - 1], name);
      hide Run, Live, BanUntil;
    }
  }

  predicate LiveEntry(s: State, n: Name) { n in s.banned && Live(s.banned[n].until, s.now) }

  /** Exactly when a step of a reachable state makes a live ban vanish: it is the delete of a call
      that read an older, expired entry of that name, so the ban was written between that read and
      this delete. */
  lemma VanishesExactly(now: int, n: nat, ls: seq<Label>, l: Label, name: Name)
    requires Run(Init(now, n), ls).Some? && Step(Run(Init(now, n), ls).value, l).Some?
    requires !l.Tick?
    ensures var s := Run(Init(now, n), ls).value;
      LiveEntry(s, name) ==>
        (!LiveEntry(Step(s, l).value, name) <==>
          && l.Delete? && s.callers[l.c].name == name
          && s.callers[l.c].stale.serial < s.banned[name].serial && !Live(s.callers[l.c].stale.until, s.now)
          )
  {
    RunKeeps(Init(now, n), ls);
    var s := Run(Init(now, n), ls).value;
    if l.Delete? {
      assert Pending(s.callers[l.c]).Some?;
    }
  }

  /** No ban of a name is written while some call holds a temporary entry of that name. */
  predicate Apart(s: State, l: Label)
  {
    l.Write? ==> forall i :: 0 <= i < |s.callers| && Pending(s.callers[i]).Some? ==> s.callers[i].name != l.name
  }

  predicate ApartRun(s: State, ls: seq<Label>)
    decreases ls
  {
    ls == [] || (Step(s, ls[0]).Some? && Apart(s, ls[0]) && ApartRun(Step(s, ls[0]).value, ls[1..]))
  }

  /** Every missing name has no live ban, and what a call may still delete is the latest entry. */
  ghost predicate Exact(s: State)
  {
    && Inv(s)
    && (forall n :: n in s.latest && n !in s.banned ==> !Live(s.latest[n].until, s.now))
    && (forall i :: 0 <= i < |s.callers| && Pending(s.callers[i]).Some? ==>
          Pending(s.callers[i]).value == s.latest[s.callers[i].name])
  }

  lemma ExactKept(s: State, l: Label)
    requires Exact(s) && Apart(s, l) && Step(s, l).Some?
    ensures Exact(Step(s, l).value)
  {
    StepKeeps(s, l);
  }

  /** Without such an overlap the map agrees with the log after every interleaving: a name is found
      live in the map if and only if its latest ban is live. */
  lemma {:induction false} ApartIsExact(s: State, ls: seq<Label>)
    requires Exact(s) && ApartRun(s, ls)
    ensures Run(s, ls).Some? && Exact(Run(s, ls).value)
    ensures var e := Run(s, ls).value;
      forall n :: LiveEntry(e, n) <==> n in e.latest && Live(e.latest[n].until, e.now)
    decreases ls
  {
    if ls != [] {
      ExactKept(s, ls[0]);
      ApartIsExact(Step(s, ls[0]).value, ls[1..]);
    }
  }

  /** So from an empty list, with any number of concurrent callers. */
  lemma ApartFromStart(now: int, n: nat, ls: seq<Label>)
    requires ApartRun(Init(now, n), ls)
    ensures Run(Init(now, n), ls).Some?
    ensures var e := Run(Init(now, n), ls).value;
      forall name :: LiveEntry(e, name) <==> name in e.latest && Live(e.latest[name].until, e.now)
  {
    ApartIsExact(Init(now, n), ls);
  }

  /** The overlap does happen: a ban expires, one call reads it, a permanent ban is written, and the
      delete of that call removes the permanent ban. */
  lemma LostBan()
    ensures var n := Name("bob");
      var ls := [Write(n, 1), Tick(2), Read(0, n), Check(0), Write(n, 0), Delete(0)];
      && Run(Init(0, 1), ls).Some?
      && n !in Run(Init(0, 1), ls).value.banned
      && Run(Init(0, 1), ls).value.latest[n].until == Forever
  {
    var n := Name("bob");
    var s1 := Step(Init(0, 1), Write(n, 1)).value;
    var s2 := Step(s1, Tick(2)).value;
    var s3 := Step(s2, Read(0, n)).value;
    var s4 := Step(s3, Check(0)).value;
    var s5 := Step(s4, Write(n, 0)).value;
    var s6 := Step(s5, Delete(0)).value;
    var a, b, c, d, e := Delete(0), Write(n, 0), Check(0), Read(0, n), Tick(2);
    assert Run(s5, [a]) == Some(s6);
    assert [b, a][1..] == [a] && Run(s4, [b, a]) == Some(s6);
    assert [c, b, a][1..] == [b, a] && Run(s3, [c, b, a]) == Some(s6);
    assert [d, c, b, a][1..] == [c, b, a] && Run(s2, [d, c, b, a]) == Some(s6);
    assert [e, d, c, b, a][1..] == [d, c, b, a] && Run(s1, [e, d, c, b, a]) == Some(s6);
    var ls := [Write(n, 1), e, d, c, b, a];
    assert ls[1..] == [e, d, c, b, a];
  }
}
