/**
 Registry.Execute of internal/command/registry.go and the built-in commands of builtin.go: how a line
 is split and resolved, who may run it, and what the handlers change.
 */
module Commands {
  import opened Sums
  import opened Text
  import opened Registry
  import Clients
  import Bans

  // ----- From a line to a command ---------------------------------------------------------------

  datatype Parsed = NotCommand | NoParts | Invoke(key: Key, args: seq<string>)

  /** strings.TrimPrefix(s, "/"). */
  function TrimSlash(s: string): string { if s != [] && s[0] == '/' then s[1..] else s }

  /** The key Registry.Get looks up. */
  function GetKey(name: string): Key { Key(ToLower(TrimSlash(TrimSpace(name)))) }

  /** The first half of Execute. */
  function ParseLine(raw: string): Parsed
  {
    var line := TrimSpace(raw);
    if line == [] || line[0] != '/' then NotCommand else
    var parts := Fields(line);
    if parts == [] then NoParts else Invoke(GetKey(TrimSlash(parts[0])), parts[1..])
  }

  function ParseFields(ws: seq<string>): Parsed
  {
    if ws == [] || ws[0] == [] || ws[0][0] != '/' then NotCommand
    else Invoke(GetKey(TrimSlash(ws[0])), ws[1..])
  }

  /** A line means what its fields mean, so spacing does not matter, and the branch for no parts is never
      taken. */
  lemma OnlyFieldsMatter(raw: string)
    ensures ParseLine(raw) == ParseFields(Fields(raw)) && !ParseLine(raw).NoParts?
    ensures ParseLine(Join(Fields(raw))) == ParseLine(raw)
  {
    TrimFields(raw);
    FieldsPlain(raw);
    FieldsJoin(Fields(raw));
    TrimFields(Join(Fields(raw)));
  }

  /** A slash and a word, then more words: the key looked up is the word without another slash. */
  lemma WordsParse(w: string, args: seq<string>)
    requires Plain(w) && AllPlain(args)
    ensures ParseLine(Join([['/'] + w] + args)) == Invoke(Key(ToLower(TrimSlash(w))), args)
  {
    hide Fields, Join, ParseLine;
    var word := ['/'] + w;
    var ws := [word] + args;
    assert Plain(word);
    FieldsJoin(ws);
    OnlyFieldsMatter(Join(ws));
    assert TrimSlash(word) == w && ws[1..] == args;
    TrimPlain(w);
  }

  predicate Resolves(t: Table, k: Key, cmd: Command) { k in t.byName && t.byName[k] == cmd }

  /** After any sequence of Register calls, a slash and any casing w of a whitespace-free name or alias
      of a listed command invokes the key of w without a leading slash, with exactly the remaining words
      as arguments. That is the command itself exactly when w has no leading slash of its own or the
      command also claims the key without it. */
  lemma AnyCasingResolves(cs: seq<Option<Command>>, cmd: Command, w: string, args: seq<string>)
    requires cmd in Calls(NONE, cs).table.list && Key(ToLower(w)) in Keys(cmd)
    requires Plain(w) && AllPlain(args)
    ensures var p := ParseLine(Join([['/'] + w] + args));
      && p == Invoke(Key(ToLower(TrimSlash(w))), args)
      && (Resolves(Calls(NONE, cs).table, p.key, cmd) <==> w[0] != '/' || Key(ToLower(w[1..])) in Keys(cmd))
  {
    hide Calls, Keys, ParseLine, Join, ToLower, AllPlain;
    CallsSound(NONE, cs);
    WordsParse(w, args);
    assert Holder(Calls(NONE, cs).table.byName, cmd, Keys(cmd));
  }

  lemma {:induction false} AliasClaims(aliases: seq<string>, alias: string)
    requires alias in aliases && !Blank(alias)
    ensures Norm(alias) in AliasKeys(aliases)
  {
    hide Norm;
    if aliases[0] != alias {
      assert alias in aliases[1..];
      AliasClaims(aliases[1..], alias);
    }
  }

  /** However a name or alias v of a listed command was spelled when it was registered, in any casing and with
      spaces around it, a slash and v in any other casing finds the command. */
  lemma SpellingResolves(cs: seq<Option<Command>>, cmd: Command, a: string, v: string, b: string,
                         w: string, args: seq<string>)
    requires cmd in Calls(NONE, cs).table.list && (a + v + b == cmd.name || a + v + b in cmd.aliases)
    requires AllSpace(a) && AllSpace(b) && Plain(v) && v[0] != '/'
    requires Plain(w) && ToLower(w) == ToLower(v) && AllPlain(args)
    ensures var p := ParseLine(Join([['/'] + w] + args));
      p.Invoke? && p.args == args && Resolves(Calls(NONE, cs).table, p.key, cmd)
  {
    TrimPadded(a, v, b);
    var spelled := a + v + b;
    assert Norm(spelled) == Key(ToLower(v)) && !Blank(spelled);
    assert w[0] != '/' by {
      LowerCodes(w, 0);
      LowerCodes(v, 0);
    }
    hide ToLower, TrimSpace, ParseLine, Join, Calls;
    if spelled == cmd.name {
      assert Keys(cmd)[0] == Norm(spelled);
    } else {
      AliasClaims(cmd.aliases, spelled);
    }
    AnyCasingResolves(cs, cmd, w, args);
  }

  /** A slash and one word, as a line. */
  lemma SlashWord(w: string)
    requires Plain(w)
    ensures ParseLine(['/'] + w) == Invoke(Key(ToLower(TrimSlash(w))), [])
  {
    WordsParse(w, []);
    hide ParseLine, ToLower, Plain;
    assert [['/'] + w] + [] == [['/'] + w] && Join([['/'] + w]) == ['/'] + w;
  }

  /** A slash before a lower-case word stays as it is. */
  lemma SlashLower(y: string)
    requires LowerWord(y)
    ensures Plain(['/'] + y) && ToLower(['/'] + y) == ['/'] + y && ToLower(y) == y
    ensures Norm(['/'] + y) == Key(['/'] + y)
  {
    TrimPlain(['/'] + y);
  }

  /** A command x with the alias /y registers. */
  lemma SlashRegisters(x: string, y: string, cmd: Command)
    requires LowerWord(x) && LowerWord(y) && cmd.name == x && cmd.aliases == [['/'] + y]
    ensures Register(NONE.table, Some(cmd)) == (Table(map[Key(x) := cmd, Key(['/'] + y) := cmd], [cmd]), Registered)
    ensures Key(['/'] + y) in Keys(cmd)
  {
    NormLower(x);
    SlashLower(y);
    var alias: string := ['/'] + y;
    var aliases: seq<string> := [alias];
    assert x[0] != alias[0] && x != alias;
    hide Norm, LowerWord;
    var m := map[Key(x) := cmd];
    assert aliases[1..] == [] && AliasKeys([]) == [];
    assert BindAliases(m[Key(alias) := cmd], cmd, []) == (m[Key(alias) := cmd], true);
    assert BindAliases(m, cmd, aliases) == (m[Key(alias) := cmd], true);
    assert AliasKeys(aliases) == [Key(alias)] && Keys(cmd)[1] == Key(alias);
    assert NONE.table.list + [cmd] == [cmd];
  }

  /** One more slash before /y looks up y, two more look up /y. */
  lemma SlashLines(y: string)
    requires LowerWord(y)
    ensures ParseLine(['/'] + (['/'] + y)) == Invoke(Key(y), [])
    ensures ParseLine(['/'] + (['/'] + (['/'] + y))) == Invoke(Key(['/'] + y), [])
  {
    SlashLower(y);
    var w := ['/'] + y;
    assert Plain(['/'] + w);
    SlashWord(w);
    SlashWord(['/'] + w);
    hide ParseLine, ToLower, LowerWord;
    assert TrimSlash(w) == y && TrimSlash(['/'] + w) == w;
  }

  lemma OneCall(cmd: Command)
    ensures Calls(NONE, [Some(cmd)]).table == Register(NONE.table, Some(cmd)).0
  {
    hide Register;
    assert [Some(cmd)][1..] == [];
  }

  lemma TwoKeys(x: string, alias: string, y: string, cmd: Command)
    requires y != x && y != alias
    ensures var t := Table(map[Key(x) := cmd, Key(alias) := cmd], [cmd]);
      Key(y) !in t.byName && Resolves(t, Key(alias), cmd)
  {
  }

  /** An alias with a slash is accepted, but a line with one slash before it does not find it; the slash
      is trimmed twice, so it takes two. */
  lemma SlashAlias(x: string, y: string, cmd: Command)
    requires LowerWord(x) && LowerWord(y) && x != y && cmd.name == x && cmd.aliases == [['/'] + y]
    ensures var t := Calls(NONE, [Some(cmd)]).table;
      var one, two := ParseLine(['/'] + (['/'] + y)), ParseLine(['/'] + (['/'] + (['/'] + y)));
      && t.list == [cmd] && Key(['/'] + y) in Keys(cmd)
      && one.Invoke? && one.key !in t.byName
      && two.Invoke? && Resolves(t, two.key, cmd)
  {
    SlashRegisters(x, y, cmd);
    SlashLines(y);
    OneCall(cmd);
    assert |y| != |['/'] + y|;
    TwoKeys(x, ['/'] + y, y, cmd);
    hide Register, Keys, ParseLine, LowerWord, Resolves, Calls;
  }

  // ----- Permission -----------------------------------------------------------------------------

  function Digits(s: string): Option<nat>
  {
    if s == [] then Some(0)
    else if !('0' <= s[|s| - 1] <= '9') then None
    else match Digits(s[..|s| - 1])
      case None => None
      case Some(n) => Some(10 * n + (s[|s| - 1] as int - '0' as int))
  }

  /** strconv.Atoi. */
  function Atoi(s: string): Option<int>
  {
    var body := if s != [] && (s[0] == '-' || s[0] == '+') then s[1..] else s;
    if body == [] then None else
    match Digits(body)
    case None => None
    case Some(n) => Some(if s[0] == '-' then 0 - n else n)
  }

  /** The decimal digits of n. */
  function Decimal(n: nat): string
  {
    (if n < 10 then [] else Decimal(n / 10)) + [('0' as int + n % 10) as char]
  }

  lemma DigitsSnoc(s: string, d: nat, n: nat)
    requires d < 10 && Digits(s) == Some(n)
    ensures Digits(s + [('0' as int + d) as char]) == Some(10 * n + d)
  {
    var c := ('0' as int + d) as char;
    assert '0' <= c <= '9' && c as int - '0' as int == d;
    var t := s + [c];
    assert t[..|t| - 1] == s && t[|t| - 1] == c;
  }

  lemma {:induction false} DigitsDecimal(n: nat)
    ensures Digits(Decimal(n)) == Some(n) && Decimal(n) != [] && '0' <= Decimal(n)[0] <= '9'
  {
    if n < 10 {
      DigitsSnoc([], n, 0);
    } else {
      DigitsDecimal(n / 10);
      DigitsSnoc(Decimal(n / 10), n % 10, n / 10);
    }
    hide Digits;
  }

  /** Atoi reads back decimal numbers, with or without a sign. */
  lemma AtoiDecimal(n: nat)
    ensures Atoi(Decimal(n)) == Some(n)
    ensures Atoi(['+'] + Decimal(n)) == Some(n) && Atoi(['-'] + Decimal(n)) == Some(0 - n)
  {
    DigitsDecimal(n);
    var d := Decimal(n);
    assert (['+'] + d)[1..] == d && (['-'] + d)[1..] == d;
    hide Decimal, Digits;
  }

  type ClientId = nat

  /** Meta["level"] of every client that has one. */
  type Levels = map<ClientId, string>

  /** checkPermission; no client means a server-side call. */
  predicate Permitted(levels: Levels, c: Option<ClientId>, need: int)
  {
    c.None? || need <= 0 ||
    (c.value in levels && levels[c.value] != [] && Atoi(levels[c.value]).Some? && Atoi(levels[c.value]).value >= need)
  }

  /** The level a handler call grants to its client, if it is a successful auth. */
  function Grant(h: Handler, args: seq<string>): Option<string>
  {
    if h.Auth? && |args| == 1 && (args[0] == "0" || args[0] == "1") then Some(args[0]) else None
  }

  /** Which argument lists a handler accepts; `number` is what fmt.Sscan reads from the minutes of
      ban or the size of sendfile. */
  predicate Accepts(h: Handler, args: seq<string>, number: Option<int>)
  {
    match h
    case Auth => Grant(h, args).Some?
    case Kick => |args| == 1
    case Ban => |args| == 1 || (|args| >= 2 && number.Some? && number.value >= 0)
    case Msg => |args| >= 2
    case Notice => |args| >= 2
    case SendFile => |args| >= 3 && number.Some?
    case _ => true
  }

  /** How a handler that was called ends. */
  datatype End = Replied | Refused | Panicked

  /** Whether a handler gets to use the client it is called for: notice never does, auth does before it
      looks at the level, the others once they accept their arguments. */
  predicate UsesClient(h: Handler, args: seq<string>, number: Option<int>)
  {
    match h case Auth => |args| == 1 case Notice => false case _ => Accepts(h, args, number)
  }

  /** A call without a client panics where the handler uses it. */
  function Ending(h: Handler, args: seq<string>, number: Option<int>, who: Option<ClientId>): End
  {
    if who.None? && UsesClient(h, args, number) then Panicked
    else if Accepts(h, args, number) then Replied
    else Refused
  }

  /** Whether a handler has done its work: kick and ban do it before they use the client. */
  predicate Works(h: Handler, e: End) { e.Replied? || (e.Panicked? && (h.Kick? || h.Ban?)) }

  /** A handler that did its work: for whom, what, and how many lines were executed before. */
  datatype Effect = Effect(at: nat, who: Option<ClientId>, handler: Handler, args: seq<string>)

  datatype State = State(levels: Levels, effects: seq<Effect>, lines: nat)

  datatype Result = NotHandled | NotFound | Denied | Ran(cmd: Command, end: End)

  datatype Line = Line(who: Option<ClientId>, raw: string, number: Option<int>)

  function Outcome(m: map<Key, Command>, s: State, l: Line): Result
  {
    match ParseLine(l.raw)
    case NotCommand => NotHandled
    case NoParts => NotHandled
    case Invoke(k, args) =>
      if k !in m then NotFound
      else if !Permitted(s.levels, l.who, m[k].minLevel) then Denied
      else Ran(m[k], Ending(m[k].handler, args, l.number, l.who))
  }

  /** The result of a line, by its first word: without a slash it is not a command, with an unbound key it is
      not found, and otherwise it is denied or runs according to the level. */
  lemma OutcomeExactly(m: map<Key, Command>, s: State, l: Line)
    ensures var o, ws := Outcome(m, s, l), Fields(l.raw);
      if ws == [] || ws[0] == [] || ws[0][0] != '/' then o.NotHandled? else
      var k := GetKey(TrimSlash(ws[0]));
      if k !in m then o.NotFound?
      else if Permitted(s.levels, l.who, m[k].minLevel) then o.Ran? && o.cmd == m[k] else o.Denied?
  {
    OnlyFieldsMatter(l.raw);
    hide ParseLine, Fields, GetKey, TrimSlash;
  }

  /** Which arguments each command takes: how many at least, exactly one for auth and kick, a level for auth,
      and a number for sendfile and, if given and not negative, for ban. */
  lemma UsageExactly(h: Handler, args: seq<string>, number: Option<int>)
    ensures Accepts(h, args, number) <==>
      (&& |args| >= (if h.SendFile? then 3 else if h.Msg? || h.Notice? then 2
                     else if h.Auth? || h.Kick? || h.Ban? then 1 else 0)
       && (h.Auth? || h.Kick? ==> |args| == 1)
       && (h.Auth? ==> args[0] in ["0", "1"])
       && (h.SendFile? ==> number.Some?)
       && (h.Ban? && |args| > 1 ==> number.Some? && number.value >= 0))
  {
  }

  /** One Execute. */
  function Execute(m: map<Key, Command>, s: State, l: Line): State
  {
    var o := Outcome(m, s, l);
    if !o.Ran? || !Works(o.cmd.handler, o.end) then s.(lines := s.lines + 1) else
    var args := ParseLine(l.raw).args;
    var granted := Grant(o.cmd.handler, args);
    State(if granted.Some? && l.who.Some? then s.levels[l.who.value := granted.value] else s.levels,
          s.effects + [Effect(s.lines, l.who, o.cmd.handler, args)], s.lines + 1)
  }

  function Session(m: map<Key, Command>, s: State, ls: seq<Line>): State
  {
    if ls == [] then s else Execute(m, Session(m, s, ls[..|ls| - 1]), ls[|ls| - 1])
  }

  const START: State := State(map[], [], 0)

  /** The level a line sets, read off the line alone: it names the auth command and has one argument,
      0 or 1. */
  function AuthLine(m: map<Key, Command>, raw: string): Option<string>
  {
    var p := ParseLine(raw);
    if p.Invoke? && p.key in m && m[p.key].handler.Auth? && (p.args == ["0"] || p.args == ["1"]) then Some(p.args[0])
    else None
  }

  /** What the latest successful auth line of client c set. */
  function LastAuth(m: map<Key, Command>, ls: seq<Line>, c: ClientId): Option<string>
  {
    if ls == [] then None
    else if ls[|ls| - 1].who == Some(c) && AuthLine(m, ls[|ls| - 1].raw).Some? then AuthLine(m, ls[|ls| - 1].raw)
    else LastAuth(m, ls[..|ls| - 1], c)
  }

  /** Anyone may authenticate. */
  ghost predicate AuthOpen(m: map<Key, Command>) { forall k :: k in m && m[k].handler.Auth? ==> m[k].minLevel <= 0 }

  /** What one line does to the levels, read off the line alone. */
  lemma LevelsAfter(m: map<Key, Command>, s: State, l: Line)
    requires AuthOpen(m)
    ensures Execute(m, s, l).lines == s.lines + 1
    ensures Execute(m, s, l).levels ==
      match AuthLine(m, l.raw)
      case Some(level) => if l.who.Some? then s.levels[l.who.value := level] else s.levels
      case None => s.levels
  {
    hide ParseLine, Atoi;
  }

  /** The metadata of a client after a run is exactly what its latest successful auth line set. */
  lemma {:induction false} LevelIsLastAuth(m: map<Key, Command>, ls: seq<Line>, c: ClientId)
    requires AuthOpen(m)
    ensures var s := Session(m, START, ls);
      && s.lines == |ls|
      && (c in s.levels <==> LastAuth(m, ls, c).Some?)
      && (c in s.levels ==> s.levels[c] == LastAuth(m, ls, c).value)
  {
    if ls != [] {
      var front := ls[..|ls| - 1];
      LevelIsLastAuth(m, front, c);
      LevelsAfter(m, Session(m, START, front), ls[|ls| - 1]);
      hide Execute, AuthLine, AuthOpen;
    }
  }

  /** Only "0" and "1" are ever set. */
  lemma {:induction false} LevelValues(m: map<Key, Command>, ls: seq<Line>, c: ClientId)
    ensures LastAuth(m, ls, c).Some? ==> LastAuth(m, ls, c).value == "0" || LastAuth(m, ls, c).value == "1"
  {
    if ls != [] {
      hide ParseLine;
      LevelValues(m, ls[..|ls| - 1], c);
    }
  }

  lemma AtoiLevels()
    ensures Atoi("0") == Some(0) && Atoi("1") == Some(1)
  {
    assert "0"[..0] == [] && "1"[..0] == [];
  }

  /** In every run, whatever other clients or failed commands did: a command runs for a client exactly when
      it needs no level, or needs level 1 and that client's latest successful auth set level 1. */
  lemma RunsExactly(m: map<Key, Command>, ls: seq<Line>, c: ClientId, raw: string, number: Option<int>)
    requires AuthOpen(m) && ParseLine(raw).Invoke? && ParseLine(raw).key in m
    ensures var need := m[ParseLine(raw).key].minLevel;
      Outcome(m, Session(m, START, ls), Line(Some(c), raw, number)).Ran? <==>
        need <= 0 || (need == 1 && LastAuth(m, ls, c) == Some("1"))
  {
    hide ParseLine, Atoi;
    LevelIsLastAuth(m, ls, c);
    LevelValues(m, ls, c);
    AtoiLevels();
  }

  /** In every run, whatever other clients or failed commands did: the handler of a command that needs
      level 1 runs for a client exactly when that client's latest successful auth set level 1. */
  lemma AdminRunsExactly(m: map<Key, Command>, ls: seq<Line>, c: ClientId, raw: string, number: Option<int>)
    requires AuthOpen(m)
    requires ParseLine(raw).Invoke? && ParseLine(raw).key in m && m[ParseLine(raw).key].minLevel == 1
    ensures Outcome(m, Session(m, START, ls), Line(Some(c), raw, number)).Ran? <==> LastAuth(m, ls, c) == Some("1")
  {
    RunsExactly(m, ls, c, raw, number);
  }

  /** Kick and ban are bound to level 1. */
  ghost predicate AdminOnly(m: map<Key, Command>)
  {
    forall k :: k in m && (m[k].handler.Kick? || m[k].handler.Ban?) ==> m[k].minLevel == 1
  }

  /** e was carried out at a line of the run, and if it is a kick or ban for a client, the latest
      successful auth of that client before that line set level 1. */
  ghost predicate Authorised(m: map<Key, Command>, ls: seq<Line>, e: Effect)
  {
    && e.at < |ls|
    && (e.who.Some? && (e.handler.Kick? || e.handler.Ban?) ==> LastAuth(m, ls[..e.at], e.who.value) == Some("1"))
  }

  lemma NewEffect(m: map<Key, Command>, front: seq<Line>, l: Line, e: Effect)
    requires AuthOpen(m) && AdminOnly(m)
    requires var s := Session(m, START, front); e in Execute(m, s, l).effects && e !in s.effects
    ensures Authorised(m, front + [l], e)
  {
    LevelIsLastAuth(m, front, 0);
    var o := Outcome(m, Session(m, START, front), l);
    if l.who.Some? && (o.cmd.handler.Kick? || o.cmd.handler.Ban?) {
      AdminRunsExactly(m, front, l.who.value, l.raw, l.number);
    }
    hide ParseLine, Outcome, Accepts, Grant, LastAuth, Session, Works;
    assert e.at == |front| && (front + [l])[..e.at] == front;
  }

  /** Every kick and ban ever carried out for a client was authorised when it happened. */
  lemma {:induction false} EffectsAuthorised(m: map<Key, Command>, ls: seq<Line>)
    requires AuthOpen(m) && AdminOnly(m)
    ensures forall e :: e in Session(m, START, ls).effects ==> Authorised(m, ls, e)
  {
    if ls != [] {
      var front, l := ls[..|ls| - 1], ls[|ls| - 1];
      var s := Session(m, START, front);
      EffectsAuthorised(m, front);
      LevelIsLastAuth(m, front, 0);
      forall e | e in Execute(m, s, l).effects && e !in s.effects ensures Authorised(m, ls, e) {
        NewEffect(m, front, l, e);
        assert ls == front + [l];
      }
      hide Execute, LastAuth;
      forall e | e in s.effects ensures Authorised(m, ls, e) {
        assert Authorised(m, front, e) && ls[..e.at] == front[..e.at];
      }
    }
  }

  /** Line i of a run was executed and did its work. */
  predicate Worked(m: map<Key, Command>, ls: seq<Line>, i: nat)
    requires i < |ls|
  {
    var o := Outcome(m, Session(m, START, ls[..i]), ls[i]);
    o.Ran? && Works(o.cmd.handler, o.end)
  }

  /** What line i did: the handler its key is bound to, for its client, with its arguments. */
  function EffectAt(m: map<Key, Command>, ls: seq<Line>, i: nat): Effect
    requires i < |ls| && Worked(m, ls, i)
  {
    var p := ParseLine(ls[i].raw);
    Effect(i, ls[i].who, m[p.key].handler, p.args)
  }

  predicate InOrder(es: seq<Effect>) { forall a, b :: 0 <= a < b < |es| ==> es[a].at < es[b].at }

  /** The effect of the last line, if it worked. */
  function NewEffects(m: map<Key, Command>, ls: seq<Line>): seq<Effect>
    requires ls != []
  {
    if Worked(m, ls, |ls| - 1) then [EffectAt(m, ls, |ls| - 1)] else []
  }

  /** The last line of a run adds its effect exactly when it worked. */
  lemma LastEffect(m: map<Key, Command>, ls: seq<Line>)
    requires ls != []
    ensures var n := |ls| - 1;
      var before := Session(m, START, ls[..n]);
      && Session(m, START, ls).lines == before.lines + 1
      && (before.lines == n ==> Session(m, START, ls).effects == before.effects + NewEffects(m, ls))
  {
    hide ParseLine, Permitted, Ending, Works, Grant;
  }

  /** e is what its line did. */
  predicate Genuine(m: map<Key, Command>, ls: seq<Line>, e: Effect)
  {
    e.at < |ls| && Worked(m, ls, e.at) && e == EffectAt(m, ls, e.at)
  }

  /** What line i did, if it did anything, is listed. */
  predicate Listed(m: map<Key, Command>, ls: seq<Line>, i: nat, es: seq<Effect>)
    requires i < |ls|
  {
    Worked(m, ls, i) ==> EffectAt(m, ls, i) in es
  }

  ghost predicate Lists(m: map<Key, Command>, ls: seq<Line>, es: seq<Effect>)
  {
    && InOrder(es)
    && (forall e :: e in es ==> Genuine(m, ls, e))
    && (forall i :: 0 <= i < |ls| ==> Listed(m, ls, i, es))
  }

  lemma WorkedFront(m: map<Key, Command>, ls: seq<Line>, i: nat)
    requires i + 1 < |ls|
    ensures var front := ls[..|ls| - 1];
      && Worked(m, front, i) == Worked(m, ls, i)
      && (Worked(m, ls, i) ==> EffectAt(m, front, i) == EffectAt(m, ls, i))
  {
    assert ls[..|ls| - 1][..i] == ls[..i];
  }

  /** The effects of a run are exactly those of the lines that worked, each once and in order. */
  lemma {:induction false} EffectsExactly(m: map<Key, Command>, ls: seq<Line>)
    ensures Session(m, START, ls).lines == |ls| && Lists(m, ls, Session(m, START, ls).effects)
  {
    if ls != [] {
      var front := ls[..|ls| - 1];
      EffectsExactly(m, front);
      LastEffect(m, ls);
      hide Session, Lists, NewEffects;
      ListsMore(m, ls, Session(m, START, front).effects);
    }
  }

  lemma EffectsAre(m: map<Key, Command>, ls: seq<Line>, e: Effect)
    ensures e in Session(m, START, ls).effects <==> Genuine(m, ls, e)
  {
    EffectsExactly(m, ls);
    if Genuine(m, ls, e) {
      assert Listed(m, ls, e.at, Session(m, START, ls).effects);
    }
    hide Session, Worked, EffectAt;
  }

  lemma GenuineFront(m: map<Key, Command>, ls: seq<Line>, e: Effect)
    requires ls != [] && Genuine(m, ls[..|ls| - 1], e)
    ensures Genuine(m, ls, e) && e.at < |ls| - 1
  {
    WorkedFront(m, ls, e.at);
    hide Worked, EffectAt;
  }

  lemma ListedMore(m: map<Key, Command>, ls: seq<Line>, i: nat, es: seq<Effect>)
    requires i < |ls| && (i < |ls| - 1 ==> Listed(m, ls[..|ls| - 1], i, es))
    ensures Listed(m, ls, i, es + NewEffects(m, ls))
  {
    if i < |ls| - 1 {
      WorkedFront(m, ls, i);
    }
    hide Worked, EffectAt;
  }

  lemma NewIsGenuine(m: map<Key, Command>, ls: seq<Line>)
    requires ls != []
    ensures |NewEffects(m, ls)| <= 1 && forall e :: e in NewEffects(m, ls) ==> Genuine(m, ls, e) && e.at == |ls| - 1
  {
    hide ParseLine, Outcome, Works;
  }

  lemma ListsMore(m: map<Key, Command>, ls: seq<Line>, es: seq<Effect>)
    requires ls != [] && Lists(m, ls[..|ls| - 1], es)
    ensures Lists(m, ls, es + NewEffects(m, ls))
  {
    NewIsGenuine(m, ls);
    hide Genuine, Listed, NewEffects;
    var added := NewEffects(m, ls);
    forall e | e in es ensures Genuine(m, ls, e) && e.at < |ls| - 1 {
      GenuineFront(m, ls, e);
    }
    forall i | 0 <= i < |ls| ensures Listed(m, ls, i, es + added) {
      ListedMore(m, ls, i, es);
    }
    assert added == [] || added == [added[0]];
    assert InOrder(es + added);
  }

  // ----- The built-in commands ------------------------------------------------------------------

  function NameOf(h: Handler): string
  {
    match h
    case Help => "help" case Quit => "quit" case Who => "who" case Auth => "auth" case Kick => "kick"
    case Ban => "ban" case Msg => "msg" case Notice => "notice" case Ping => "ping" case SendFile => "sendfile"
  }

  function Builtin(h: Handler): Command { Command(NameOf(h), [], if h.Kick? || h.Ban? then 1 else 0, h) }

  function Builtins(hs: seq<Handler>): seq<Command> { seq(|hs|, i requires 0 <= i < |hs| => Builtin(hs[i])) }

  function Offers(hs: seq<Handler>): seq<Option<Command>>
  {
    seq(|hs|, i requires 0 <= i < |hs| => Some(Builtin(hs[i])))
  }

  /** The order of RegisterBuiltins. */
  const ORDER: seq<Handler> := [Help, Quit, Who, Auth, Kick, Ban, Msg, Notice, Ping, SendFile]

  function BuiltinTable(): Table { Calls(NONE, Offers(ORDER)).table }

  /** A nonempty word of lower-case letters. */
  predicate LowerWord(s: string) { s != [] && forall i :: 0 <= i < |s| ==> 'a' <= s[i] <= 'z' }

  lemma LowerNames(h: Handler)
    ensures LowerWord(NameOf(h))
  {
    match h
    case Help => case Quit => case Who => case Auth => case Kick =>
    case Ban => case Msg => case Notice => case Ping => case SendFile =>
  }

  function Initial(h: Handler): char
  {
    match h
    case Help => 'h' case Quit => 'q' case Who => 'w' case Auth => 'a' case Kick => 'k'
    case Ban => 'b' case Msg => 'm' case Notice => 'n' case Ping => 'p' case SendFile => 's'
  }

  lemma InitialOf(h: Handler)
    ensures NameOf(h) != [] && NameOf(h)[0] == Initial(h)
  {
  }

  lemma NamesDiffer(h: Handler, g: Handler)
    requires NameOf(h) == NameOf(g)
    ensures h == g
  {
    InitialOf(h);
    InitialOf(g);
    hide NameOf;
  }

  lemma NormLower(s: string)
    requires LowerWord(s)
    ensures Norm(s) == Key(s) && '/' !in s && Plain(s)
  {
    TrimPlain(s);
    assert ToLower(s) == s;
  }

  /** The table holds exactly the built-in commands of hs, each under its name. */
  ghost predicate Holds(t: Table, hs: seq<Handler>)
  {
    && t.list == Builtins(hs)
    && (forall h :: h in hs ==> Resolves(t, Key(NameOf(h)), Builtin(h)))
    && (forall k :: k in t.byName ==> exists h :: h in hs && k == Key(NameOf(h)))
  }

  lemma CallBuiltin(t: Table, h: Handler)
    requires Key(NameOf(h)) !in t.byName
    ensures Call(History(t, {}), Some(Builtin(h))) ==
      History(Table(t.byName[Key(NameOf(h)) := Builtin(h)], t.list + [Builtin(h)]), {})
  {
    LowerNames(h);
    NormLower(NameOf(h));
    hide Norm, LowerWord, NameOf;
  }

  lemma NameIsNew(t: Table, done: seq<Handler>, h: Handler)
    requires Holds(t, done) && h !in done
    ensures Key(NameOf(h)) !in t.byName
  {
    if Key(NameOf(h)) in t.byName {
      var g :| g in done && Key(NameOf(h)) == Key(NameOf(g));
      NamesDiffer(g, h);
    }
  }

  lemma HoldsMore(t: Table, done: seq<Handler>, h: Handler)
    requires Holds(t, done) && Key(NameOf(h)) !in t.byName
    ensures Holds(Table(t.byName[Key(NameOf(h)) := Builtin(h)], t.list + [Builtin(h)]), done + [h])
  {
    hide NameOf, Builtin;
    assert Builtins(done + [h]) == Builtins(done) + [Builtin(h)];
    assert (done + [h])[|done|] == h;
  }

  lemma AddBuiltin(t: Table, done: seq<Handler>, h: Handler)
    requires Holds(t, done) && h !in done
    ensures var next := Call(History(t, {}), Some(Builtin(h))); next.failed == {} && Holds(next.table, done + [h])
  {
    NameIsNew(t, done, h);
    HoldsMore(t, done, h);
    CallBuiltin(t, h);
    hide Holds, Call, Builtin, NameOf;
  }

  predicate AllDifferent(hs: seq<Handler>) { forall i, j :: 0 <= i < j < |hs| ==> hs[i] != hs[j] }

  lemma HeadIsNew(done: seq<Handler>, hs: seq<Handler>)
    requires AllDifferent(done + hs) && hs != []
    ensures hs[0] !in done && done + [hs[0]] + hs[1..] == done + hs
    ensures Offers(hs)[0] == Some(Builtin(hs[0])) && Offers(hs)[1..] == Offers(hs[1..])
  {
    var all := done + hs;
    assert all[|done|] == hs[0] && forall i :: 0 <= i < |done| ==> all[i] == done[i];
  }

  lemma {:induction false} RegisterAll(t: Table, done: seq<Handler>, hs: seq<Handler>)
    requires Holds(t, done) && AllDifferent(done + hs)
    ensures Holds(Calls(History(t, {}), Offers(hs)).table, done + hs)
    decreases hs
  {
    if hs == [] {
      assert done + hs == done;
      hide Holds;
    } else {
      var h := hs[0];
      HeadIsNew(done, hs);
      AddBuiltin(t, done, h);
      hide Holds, Call, Builtin, AllDifferent, Offers;
      RegisterAll(Call(History(t, {}), Some(Builtin(h))).table, done + [h], hs[1..]);
    }
  }

  /** Where a handler stands in ORDER. */
  function Position(h: Handler): nat
  {
    match h
    case Help => 0 case Quit => 1 case Who => 2 case Auth => 3 case Kick => 4
    case Ban => 5 case Msg => 6 case Notice => 7 case Ping => 8 case SendFile => 9
  }

  lemma OrderComplete()
    ensures AllDifferent(ORDER) && forall h: Handler :: h in ORDER
  {
    assert forall i :: 0 <= i < |ORDER| ==> Position(ORDER[i]) == i;
    forall h: Handler ensures h in ORDER {
      assert ORDER[Position(h)] == h;
    }
  }

  /** RegisterBuiltins succeeds: all ten commands are listed, each is found under its name and nothing
      else is, auth is open to everyone, and kick and ban need level 1. */
  lemma BuiltinsRegistered()
    ensures var t := BuiltinTable();
      && t.list == Builtins(ORDER)
      && (forall h: Handler :: Resolves(t, Key(NameOf(h)), Builtin(h)))
      && (forall k :: k in t.byName ==> k == Key(NameOf(t.byName[k].handler)))
      && AuthOpen(t.byName) && AdminOnly(t.byName)
  {
    OrderComplete();
    hide Calls, NameOf, ORDER;
    assert [] + ORDER == ORDER && Builtins([]) == [];
    RegisterAll(NONE.table, [], ORDER);
  }

  /** A word that lower-cases to letters has no spaces and no leading slash. */
  lemma CasedWord(w: string)
    requires LowerWord(ToLower(w))
    ensures Plain(w) && w[0] != '/'
  {
    assert forall i :: 0 <= i < |w| ==> ToLower(w)[i] == Lower(w[i]);
  }

  /** The administration of the built-in table, in terms of the lines themselves: after any lines by
      anybody, a line of client c that starts with any casing of /kick or /ban runs that command exactly
      when the latest successful auth line of c set level 1, and is denied otherwise. */
  lemma KickAndBan(ls: seq<Line>, c: ClientId, h: Handler, w: string, args: seq<string>, number: Option<int>)
    requires (h.Kick? || h.Ban?) && ToLower(w) == NameOf(h) && AllPlain(args)
    ensures var m := BuiltinTable().byName;
      Outcome(m, Session(m, START, ls), Line(Some(c), Join([['/'] + w] + args), number)) ==
        if LastAuth(m, ls, c) == Some("1") then Ran(Builtin(h), if Accepts(h, args, number) then Replied else Refused)
        else Denied
  {
    BuiltinsRegistered();
    LowerNames(h);
    CasedWord(w);
    WordsParse(w, args);
    hide BuiltinTable, NameOf, ToLower, ParseLine, Join, LastAuth, Session;
    var raw := Join([['/'] + w] + args);
    AdminRunsExactly(BuiltinTable().byName, ls, c, raw, number);
  }

  /** In every run over the built-in table: client c kicked `name` at line i exactly when line i of the run
      is c's, spells /kick with the one argument `name`, and c's latest successful auth line before it set
      level 1. */
  lemma KicksExactly(ls: seq<Line>, i: nat, c: ClientId, name: string)
    ensures var m := BuiltinTable().byName;
      Effect(i, Some(c), Kick, [name]) in Session(m, START, ls).effects <==>
        (i < |ls| && ls[i].who == Some(c) && ParseLine(ls[i].raw) == Invoke(Key("kick"), [name])
         && LastAuth(m, ls[..i], c) == Some("1"))
  {
    assert NameOf(Kick) == "kick";
    DoesExactly(ls, i, c, Kick, [name]);
  }

  /** The same for /ban, with a name and, if there are more arguments, a number that is not negative. */
  lemma BansExactly(ls: seq<Line>, i: nat, c: ClientId, args: seq<string>)
    ensures var m := BuiltinTable().byName;
      Effect(i, Some(c), Ban, args) in Session(m, START, ls).effects <==>
        (i < |ls| && ls[i].who == Some(c) && ParseLine(ls[i].raw) == Invoke(Key("ban"), args)
         && LastAuth(m, ls[..i], c) == Some("1")
         && (|args| == 1 || (|args| > 1 && ls[i].number.Some? && ls[i].number.value >= 0)))
  {
    assert NameOf(Ban) == "ban";
    DoesExactly(ls, i, c, Ban, args);
  }

  /** Handler h worked for client c at line i exactly when the line is c's, names the command, has arguments it
      accepts, and c may run it. */
  lemma DoesExactly(ls: seq<Line>, i: nat, c: ClientId, h: Handler, args: seq<string>)
    ensures var m := BuiltinTable().byName;
      Effect(i, Some(c), h, args) in Session(m, START, ls).effects <==>
        (i < |ls| && ls[i].who == Some(c) && ParseLine(ls[i].raw) == Invoke(Key(NameOf(h)), args)
         && Accepts(h, args, ls[i].number) && (h.Kick? || h.Ban? ==> LastAuth(m, ls[..i], c) == Some("1")))
  {
    BuiltinsRegistered();
    hide BuiltinTable, NameOf;
    var m := BuiltinTable().byName;
    EffectsAre(m, ls, Effect(i, Some(c), h, args));
    if i < |ls| && ls[i].who == Some(c) {
      WorkedExactly(ls, i, c);
      hide Session, ParseLine, Worked, LastAuth, Accepts, AuthOpen, AdminOnly;
      var p := ParseLine(ls[i].raw);
      assert p.Invoke? && p.key == Key(NameOf(h)) ==> Resolves(BuiltinTable(), p.key, Builtin(h));
    }
    hide Session, ParseLine, Worked, LastAuth, Accepts, AuthOpen, AdminOnly;
  }

  lemma WorkedExactly(ls: seq<Line>, i: nat, c: ClientId)
    requires i < |ls| && ls[i].who == Some(c)
    ensures var m, p := BuiltinTable().byName, ParseLine(ls[i].raw);
      Worked(m, ls, i) <==>
        (p.Invoke? && p.key in m && Accepts(m[p.key].handler, p.args, ls[i].number)
         && (m[p.key].minLevel <= 0 || LastAuth(m, ls[..i], c) == Some("1")))
  {
    BuiltinsRegistered();
    hide BuiltinTable, NameOf;
    var m, p := BuiltinTable().byName, ParseLine(ls[i].raw);
    if p.Invoke? && p.key in m {
      RunsExactly(m, ls[..i], c, ls[i].raw, ls[i].number);
      assert m[p.key].minLevel <= 1;
      assert ls[i] == Line(Some(c), ls[i].raw, ls[i].number);
    }
    hide Session, ParseLine, LastAuth, Accepts, Permitted;
  }

  /** A line without a client that finds a command with handler h. */
  lemma ClientlessLine(m: map<Key, Command>, s: State, l: Line, h: Handler)
    requires l.who.None? && ParseLine(l.raw).Invoke?
    requires ParseLine(l.raw).key in m && m[ParseLine(l.raw).key].handler == h
    ensures var o, args := Outcome(m, s, l), ParseLine(l.raw).args;
      && o == Ran(m[ParseLine(l.raw).key], Ending(h, args, l.number, None))
      && Execute(m, s, l).levels == s.levels
      && Execute(m, s, l).effects == s.effects +
           if Works(h, o.end) then [Effect(s.lines, None, h, args)] else []
  {
    hide ParseLine, Ending, Works, Grant, Atoi;
  }

  lemma ClientlessEnding(h: Handler, args: seq<string>, number: Option<int>)
    ensures var e := Ending(h, args, number, None);
      && (e.Panicked? <==> !h.Notice? && (Accepts(h, args, number) || (h.Auth? && |args| == 1)))
      && (Works(h, e) <==> (h.Notice? || h.Kick? || h.Ban?) && Accepts(h, args, number))
  {
  }

  /** A line run without a client, over the built-in table and after any lines by anybody. It panics
      exactly when the command is not notice and its arguments are accepted, or it is auth with one
      argument, legal or not. It never sets a level, and only notice, kick and ban do their work. */
  lemma ServerSide(ls: seq<Line>, h: Handler, w: string, args: seq<string>, number: Option<int>)
    requires ToLower(w) == NameOf(h) && AllPlain(args)
    ensures var m := BuiltinTable().byName;
      var s, l := Session(m, START, ls), Line(None, Join([['/'] + w] + args), number);
      var o := Outcome(m, s, l);
      && o.Ran? && o.cmd == Builtin(h)
      && (o.end.Panicked? <==> !h.Notice? && (Accepts(h, args, number) || (h.Auth? && |args| == 1)))
      && Execute(m, s, l).levels == s.levels
      && Execute(m, s, l).effects == s.effects +
           if (h.Notice? || h.Kick? || h.Ban?) && Accepts(h, args, number) then [Effect(s.lines, None, h, args)] else []
  {
    BuiltinsRegistered();
    LowerNames(h);
    CasedWord(w);
    WordsParse(w, args);
    ClientlessEnding(h, args, number);
    hide BuiltinTable, NameOf, ToLower, ParseLine, Join, Session, AuthOpen, AdminOnly, Outcome, Execute, Ending, Works,
         Accepts;
    assert Resolves(BuiltinTable(), Key(NameOf(h)), Builtin(h));
    var m := BuiltinTable().byName;
    ClientlessLine(m, Session(m, START, ls), Line(None, Join([['/'] + w] + args), number), h);
  }

  /** The only lines that set a level in the built-in table are any casing of /auth with 0 or 1. */
  lemma BuiltinAuthLine(raw: string)
    ensures AuthLine(BuiltinTable().byName, raw) ==
      if ParseLine(raw) == Invoke(Key("auth"), ["0"]) then Some("0")
      else if ParseLine(raw) == Invoke(Key("auth"), ["1"]) then Some("1")
      else None
  {
    BuiltinsRegistered();
    assert NameOf(Auth) == "auth";
    hide BuiltinTable, NameOf, ParseLine;
    assert Resolves(BuiltinTable(), Key(NameOf(Auth)), Builtin(Auth));
  }

  /** In every run over the built-in table each kick and ban for a client was authorised at its line. */
  lemma BuiltinEffects(ls: seq<Line>)
    ensures var m := BuiltinTable().byName;
      forall e :: e in Session(m, START, ls).effects ==> Authorised(m, ls, e)
  {
    BuiltinsRegistered();
    hide BuiltinTable;
    EffectsAuthorised(BuiltinTable().byName, ls);
  }

  /** After a kick the caller is closed exactly when it was closed before or kicked its own name. */
  lemma KickReplyFails(r: Clients.Registry, caller: Clients.Client, name: string)
    requires Clients.Accounted(r)
    ensures caller in Clients.Step(r, Clients.Kick(name)).closed <==>
      caller in r.closed || (caller.name == name && caller.id in r.clients && r.clients[caller.id] == caller)
  {
    if caller.name == name && caller.id in r.clients && r.clients[caller.id] == caller {
      assert caller.id in Clients.Matching(r, name);
    }
  }

  /** time.Minute, in nanoseconds. */
  const MINUTE: int := 60_000_000_000

  /** The ban handler once its arguments are accepted: without minutes the ban is permanent, and so it is with
      0 minutes; otherwise it holds for that long. No other name is touched. */
  method BanHandler(bans: Bans.BanList, name: Bans.Name, minutes: Option<nat>, now: int)
    modifies bans
    ensures bans.banned.Keys == old(bans.banned).Keys + {name}
    ensures forall n :: n in bans.banned && n != name ==> bans.banned[n] == old(bans.banned)[n]
    ensures forall t :: Bans.Live(bans.banned[name], t) <==>
      minutes.None? || minutes.value == 0 || t < now + minutes.value * MINUTE
  {
    var d := if minutes.Some? then minutes.value * MINUTE else 0;
    bans.BanFor(name, d, now);
  }

  /** The kick handler: the kick takes effect in any case; the reply is not sent, because Send on the
      closed outbox panics, exactly when the caller was closed before or kicks its own name. */
  method KickHandler(hub: Clients.Hub, caller: Clients.Client, name: string) returns (replied: bool)
    requires hub.Valid() && caller in hub.universe
    modifies hub`clients, hub`online, hub`view, hub.universe`closed, caller`out
    ensures hub.Valid() && hub.view == Clients.Step(old(hub.view), Clients.Kick(name))
    ensures !replied <==>
      (old(caller.closed)
       || (caller.name == name && caller.id in old(hub.clients) && old(hub.clients)[caller.id] == caller))
    ensures caller.out == if !replied then old(caller.out) else
      Clients.Pushed(old(caller.out), caller.cap,
                     if exists k :: k in old(hub.clients) && old(hub.clients)[k].name == name
                     then "已踢出: " + name else "用户不在线: " + name)
  {
    KickReplyFails(hub.view, caller, name);
    var found := hub.KickByName(name);
    if caller.closed {
      return false;
    }
    caller.Send(if found then "已踢出: " + name else "用户不在线: " + name);
    replied := true;
  }
}
