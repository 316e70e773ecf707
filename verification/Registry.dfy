/** The command table of internal/command/registry.go: Register, Get and List. */
module Registry {
  import opened Sums
  import opened Text

  /** Which handler a command has; see module Commands. */
  datatype Handler = Help | Quit | Who | Auth | Kick | Ban | Msg | Notice | Ping | SendFile

  datatype Command = Command(name: string, aliases: seq<string>, minLevel: int, handler: Handler)

  /** A normalised name or alias. */
  datatype Key = Key(text: string)

  datatype Table = Table(byName: map<Key, Command>, list: seq<Command>)

  datatype Outcome = Registered | NilCommand | EmptyName | SlashInName | NameTaken | AliasTaken

  function Norm(s: string): Key { Key(ToLower(TrimSpace(s))) }

  predicate Blank(s: string) { Norm(s).text == [] }

  /** Binds the aliases in order, skipping blank ones, until one is taken. */
  function BindAliases(m: map<Key, Command>, cmd: Command, aliases: seq<string>): (map<Key, Command>, bool)
    decreases aliases
  {
    if aliases == [] then (m, true)
    else if Blank(aliases[0]) then BindAliases(m, cmd, aliases[1..])
    else if Norm(aliases[0]) in m then (m, false)
    else BindAliases(m[Norm(aliases[0]) := cmd], cmd, aliases[1..])
  }

  /** One Register call: the new table and what was returned. */
  function Register(t: Table, c: Option<Command>): (Table, Outcome)
  {
    if c.None? then (t, NilCommand) else
    var cmd := c.value;
    var name := Norm(cmd.name);
    if name.text == [] then (t, EmptyName)
    else if '/' in name.text then (t, SlashInName)
    else if name in t.byName then (t, NameTaken)
    else
      var (m, ok) := BindAliases(t.byName[name := cmd], cmd, cmd.aliases);
      if ok then (Table(m, t.list + [cmd]), Registered) else (t.(byName := m), AliasTaken)
  }

  class CommandRegistry {
    var byName: map<Key, Command>
    var list: seq<Command>

    ghost function View(): Table
      reads this
    {
      Table(byName, list)
    }

    constructor ()
      ensures View() == Table(map[], [])
    {
      byName, list := map[], [];
    }

    method Add(c: Option<Command>) returns (o: Outcome)
      modifies this
      ensures View() == Register(old(View()), c).0 && o == Register(old(View()), c).1
    {
      if c.None? {
        return NilCommand;
      }
      var cmd := c.value;
      var name := Norm(cmd.name);
      if name.text == [] {
        return EmptyName;
      }
      if '/' in name.text {
        return SlashInName;
      }
      if name in byName {
        return NameTaken;
      }
      byName := byName[name := cmd];
      ghost var goal := BindAliases(byName, cmd, cmd.aliases);
      var i := 0;
      while i < |cmd.aliases|
        invariant i <= |cmd.aliases| && list == old(list)
        invariant BindAliases(byName, cmd, cmd.aliases[i..]) == goal
      {
        assert cmd.aliases[i..][1..] == cmd.aliases[i + 1..];
        var alias := Norm(cmd.aliases[i]);
        if alias.text != [] {
          if alias in byName {
            return AliasTaken;
          }
          byName := byName[alias := cmd];
        }
        i := i + 1;
      }
      list := list + [cmd];
      return Registered;
    }
  }

  // ----- Which keys a command claims ------------------------------------------------------------

  function AliasKeys(aliases: seq<string>): seq<Key>
  {
    if aliases == [] then [] else (if Blank(aliases[0]) then [] else [Norm(aliases[0])]) + AliasKeys(aliases[1..])
  }

  /** The normalised name and the nonblank normalised aliases. */
  function Keys(cmd: Command): seq<Key> { [Norm(cmd.name)] + AliasKeys(cmd.aliases) }

  predicate Distinct(ks: seq<Key>) { forall i, j :: 0 <= i < j < |ks| ==> ks[i] != ks[j] }

  predicate Fresh(ks: seq<Key>, m: map<Key, Command>) { forall i :: 0 <= i < |ks| ==> ks[i] !in m }

  /** m2 keeps every binding of m1. */
  ghost predicate Extends(m1: map<Key, Command>, m2: map<Key, Command>)
  {
    forall k :: k in m1 ==> k in m2 && m2[k] == m1[k]
  }

  /** How many keys can be bound one after the other before one is taken. */
  function Free(ks: seq<Key>, taken: set<Key>): (n: nat)
    ensures n <= |ks|
  {
    if ks == [] || ks[0] in taken then 0 else 1 + Free(ks[1..], taken + {ks[0]})
  }

  /** Key j is bound already or repeats an earlier one. */
  predicate Blocked(ks: seq<Key>, taken: set<Key>, j: nat)
    requires j < |ks|
  {
    ks[j] in taken || ks[j] in ks[..j]
  }

  lemma BlockedTail(ks: seq<Key>, taken: set<Key>, j: nat)
    requires j + 1 < |ks|
    ensures Blocked(ks[1..], taken + {ks[0]}, j) <==> Blocked(ks, taken, j + 1)
  {
    assert ks[..j + 1] == [ks[0]] + ks[1..][..j];
  }

  /** Free stops at the first blocked key. */
  lemma {:induction false} FreeExactly(ks: seq<Key>, taken: set<Key>)
    ensures forall j :: 0 <= j < Free(ks, taken) ==> !Blocked(ks, taken, j)
    ensures Free(ks, taken) < |ks| ==> Blocked(ks, taken, Free(ks, taken))
  {
    if ks != [] && ks[0] !in taken {
      var n := Free(ks[1..], taken + {ks[0]});
      FreeExactly(ks[1..], taken + {ks[0]});
      forall j | 0 <= j < n + 1 ensures !Blocked(ks, taken, j) {
        if j > 0 { BlockedTail(ks, taken, j - 1); }
      }
      if n + 1 < |ks| { BlockedTail(ks, taken, n); }
    }
  }

  lemma FreeAll(ks: seq<Key>, m: map<Key, Command>)
    ensures Free(ks, m.Keys) == |ks| <==> Distinct(ks) && Fresh(ks, m)
  {
    FreeExactly(ks, m.Keys);
    var n := Free(ks, m.Keys);
    if n == |ks| {
      forall i, j | 0 <= i < j < |ks| ensures ks[i] != ks[j] {
        assert !Blocked(ks, m.Keys, j) && ks[..j][i] == ks[i];
      }
      forall i | 0 <= i < |ks| ensures ks[i] !in m {
        assert !Blocked(ks, m.Keys, i);
      }
    }
  }

  /** m with cmd bound at the given keys. */
  function Bind(m: map<Key, Command>, ks: seq<Key>, cmd: Command): map<Key, Command>
  {
    m + map k | k in ks :: cmd
  }

  lemma BindNone(m: map<Key, Command>, cmd: Command)
    ensures Bind(m, [], cmd) == m
  {
  }

  lemma BindCons(m: map<Key, Command>, k: Key, ks: seq<Key>, n: nat, cmd: Command)
    requires n <= |ks|
    ensures Bind(m, ([k] + ks)[..n + 1], cmd) == Bind(m[k := cmd], ks[..n], cmd)
  {
    assert ([k] + ks)[..n + 1] == [k] + ks[..n];
  }

  /** Binding aliases binds exactly the nonblank ones before the first that is taken or repeated, and
      fails exactly when there is such a one. */
  lemma {:induction false} BindLaw(m: map<Key, Command>, cmd: Command, aliases: seq<string>)
    ensures var ks := AliasKeys(aliases);
      var n := Free(ks, m.Keys);
      BindAliases(m, cmd, aliases) == (Bind(m, ks[..n], cmd), n == |ks|)
    decreases aliases
  {
    hide Norm;
    BindNone(m, cmd);
    if aliases != [] {
      var rest, ks := aliases[1..], AliasKeys(aliases[1..]);
      if Blank(aliases[0]) {
        BindLaw(m, cmd, rest);
        assert AliasKeys(aliases) == ks;
      } else {
        var k := Norm(aliases[0]);
        assert AliasKeys(aliases) == [k] + ks && ([k] + ks)[1..] == ks;
        if k !in m {
          BindLaw(m[k := cmd], cmd, rest);
          assert m[k := cmd].Keys == m.Keys + {k};
          BindCons(m, k, ks, Free(ks, m.Keys + {k}), cmd);
        }
      }
    }
  }

  /** A name Register accepts. */
  predicate Usable(name: string) { !Blank(name) && '/' !in Norm(name).text }

  /** The exact effect of a call. A usable command is bound at its keys, name first, up to the first
      one that is taken or repeated: none if that is the name, all of them on success, and otherwise
      those before it stay bound although the call fails and the command is not listed. */
  lemma RegisterExactly(t: Table, cmd: Command)
    ensures var (t', o) := Register(t, Some(cmd));
      var ks := Keys(cmd);
      var n := Free(ks, t.byName.Keys);
      if !Usable(cmd.name) then t' == t && o == (if Blank(cmd.name) then EmptyName else SlashInName) else
        && t' == Table(Bind(t.byName, ks[..n], cmd), if n == |ks| then t.list + [cmd] else t.list)
        && o == if n == 0 then NameTaken else if n == |ks| then Registered else AliasTaken
  {
    var name, ks := Norm(cmd.name), AliasKeys(cmd.aliases);
    hide Norm;
    assert Keys(cmd)[1..] == ks;
    if name !in t.byName {
      BindLaw(t.byName[name := cmd], cmd, cmd.aliases);
      assert t.byName[name := cmd].Keys == t.byName.Keys + {name};
      BindCons(t.byName, name, ks, Free(ks, t.byName.Keys + {name}), cmd);
    } else {
      BindNone(t.byName, cmd);
    }
  }

  /** A call that fails changes the table exactly when it failed on an alias; it never lists anything. */
  lemma FailureResidue(t: Table, c: Option<Command>)
    requires !Register(t, c).1.Registered?
    ensures Register(t, c).0 != t <==> Register(t, c).1.AliasTaken?
    ensures Register(t, c).1.NilCommand? <==> c.None?
    ensures Register(t, c).0.list == t.list
  {
    if Register(t, c).1.AliasTaken? {
      RegisterExactly(t, c.value);
      assert Keys(c.value)[0] == Norm(c.value.name) && Norm(c.value.name) in Register(t, c).0.byName;
    }
  }

  /** A command that repeats its own name among its aliases: the call fails and leaves two keys. */
  lemma ResidueLeft()
    ensures var cmd := Command("a", ["b", "a"], 0, Help);
      Register(Table(map[], []), Some(cmd)) == (Table(map[Key("a") := cmd, Key("b") := cmd], []), AliasTaken)
  {
    var cmd := Command("a", ["b", "a"], 0, Help);
    TrimPlain("a");
    TrimPlain("b");
    assert ToLower("a") == "a" && ToLower("b") == "b";
    hide ToLower, TrimSpace;
    var m := map[Key("a") := cmd];
    assert ["b", "a"][1..] == ["a"];
    assert BindAliases(m, cmd, ["b", "a"]) == (m[Key("b") := cmd], false);
  }

  /** Register succeeds exactly when the name is usable and the keys of the command, name first, are
      pairwise different and unbound. A command that repeats a key among its own names fails too. */
  lemma SucceedsExactly(t: Table, cmd: Command)
    ensures Register(t, Some(cmd)).1.Registered? <==>
      Usable(cmd.name) && Distinct(Keys(cmd)) && Fresh(Keys(cmd), t.byName)
  {
    RegisterExactly(t, cmd);
    FreeAll(Keys(cmd), t.byName);
  }

  // ----- Every sequence of Register calls -------------------------------------------------------

  /** The table and the commands whose call failed on an alias. */
  datatype History = History(table: Table, failed: set<Command>)

  function Call(h: History, c: Option<Command>): History
  {
    var (t, o) := Register(h.table, c);
    History(t, if o.AliasTaken? then h.failed + {c.value} else h.failed)
  }

  function Calls(h: History, cs: seq<Option<Command>>): History
    decreases cs
  {
    if cs == [] then h else Calls(Call(h, cs[0]), cs[1..])
  }

  const NONE: History := History(Table(map[], []), {})

  /** The keys bound to cmd are exactly ks. */
  ghost predicate Holder(m: map<Key, Command>, cmd: Command, ks: seq<Key>)
  {
    forall k :: (k in m && m[k] == cmd) <==> k in ks
  }

  /** cmd holds a nonempty proper front part of its keys. */
  ghost predicate HalfBound(m: map<Key, Command>, cmd: Command)
  {
    exists n :: 0 < n < |Keys(cmd)| && Holder(m, cmd, Keys(cmd)[..n])
  }

  ghost predicate NoRepeats(list: seq<Command>) { forall i, j :: 0 <= i < j < |list| ==> list[i] != list[j] }

  /** Listed commands hold all their keys and nothing else; a command that failed on an alias is not
      listed and holds the keys before that alias; every bound key belongs to one or the other. */
  ghost predicate Sound(h: History)
  {
    var m, list := h.table.byName, h.table.list;
    && (forall cmd :: cmd in list ==> Holder(m, cmd, Keys(cmd)) && cmd !in h.failed)
    && (forall cmd :: cmd in h.failed ==> HalfBound(m, cmd))
    && (forall k :: k in m ==> m[k] in list || m[k] in h.failed)
    && NoRepeats(list)
  }

  /** Binding new keys to a command that holds none moves no other key. */
  lemma BindHolder(m: map<Key, Command>, ks: seq<Key>, cmd: Command)
    requires forall k :: k in ks ==> k !in m
    requires forall k :: k in m ==> m[k] != cmd
    ensures Extends(m, Bind(m, ks, cmd)) && Holder(Bind(m, ks, cmd), cmd, ks)
    ensures forall d, ds :: d != cmd && Holder(m, d, ds) ==> Holder(Bind(m, ks, cmd), d, ds)
    ensures forall k :: k in Bind(m, ks, cmd) ==> k in m || Bind(m, ks, cmd)[k] == cmd
  {
  }

  lemma BindHalf(m: map<Key, Command>, ks: seq<Key>, cmd: Command, d: Command)
    requires forall k :: k in ks ==> k !in m
    requires forall k :: k in m ==> m[k] != cmd
    requires d != cmd && HalfBound(m, d)
    ensures HalfBound(Bind(m, ks, cmd), d)
  {
    hide Keys;
    BindHolder(m, ks, cmd);
    var n :| 0 < n < |Keys(d)| && Holder(m, d, Keys(d)[..n]);
    assert Holder(Bind(m, ks, cmd), d, Keys(d)[..n]);
  }

  /** A listed or half bound command is bound at its name. */
  lemma NameBound(h: History, cmd: Command)
    requires Sound(h) && (cmd in h.table.list || cmd in h.failed)
    ensures Norm(cmd.name) in h.table.byName && h.table.byName[Norm(cmd.name)] == cmd
  {
    var m, ks := h.table.byName, Keys(cmd);
    assert ks[0] == Norm(cmd.name);
    hide Norm, AliasKeys;
    if cmd in h.table.list {
      assert Holder(m, cmd, ks) && ks[0] in ks;
    } else {
      assert HalfBound(m, cmd);
      var n :| 0 < n < |ks| && Holder(m, cmd, ks[..n]);
      assert ks[..n][0] == ks[0];
    }
  }

  /** What a call adds is sound: cmd is listed with all its keys, or half bound with n of them. */
  lemma GrownSound(h: History, cmd: Command, n: nat)
    requires Sound(h) && cmd !in h.table.list && cmd !in h.failed && 0 < n <= |Keys(cmd)|
    requires forall k :: k in Keys(cmd)[..n] ==> k !in h.table.byName
    ensures var m := Bind(h.table.byName, Keys(cmd)[..n], cmd);
      && Extends(h.table.byName, m)
      && Sound(if n == |Keys(cmd)| then History(Table(m, h.table.list + [cmd]), h.failed)
               else History(Table(m, h.table.list), h.failed + {cmd}))
  {
    hide Keys;
    var ks := Keys(cmd)[..n];
    var m := Bind(h.table.byName, ks, cmd);
    BindHolder(h.table.byName, ks, cmd);
    forall d | d in h.failed ensures HalfBound(m, d) {
      BindHalf(h.table.byName, ks, cmd, d);
    }
    hide Bind;
    assert forall d :: d in h.table.list ==> Holder(m, d, Keys(d));
    if n == |Keys(cmd)| {
      assert ks == Keys(cmd);
      var list := h.table.list + [cmd];
      assert list[|h.table.list|] == cmd;
      assert NoRepeats(list);
      hide Holder, HalfBound, NoRepeats;
    } else {
      assert HalfBound(m, cmd);
      hide Holder, HalfBound, NoRepeats;
    }
  }

  lemma CallSound(h: History, c: Option<Command>)
    requires Sound(h)
    ensures Sound(Call(h, c)) && Extends(h.table.byName, Call(h, c).table.byName)
  {
    if c.Some? {
      var cmd := c.value;
      var ks := Keys(cmd);
      var n := Free(ks, h.table.byName.Keys);
      RegisterExactly(h.table, cmd);
      if Usable(cmd.name) && n > 0 {
        FreeExactly(ks, h.table.byName.Keys);
        assert !Blocked(ks, h.table.byName.Keys, 0) && ks[0] == Norm(cmd.name);
        if cmd in h.table.list || cmd in h.failed { NameBound(h, cmd); }
        forall k | k in ks[..n] ensures k !in h.table.byName {
          var j :| 0 <= j < n && ks[..n][j] == k;
          assert !Blocked(ks, h.table.byName.Keys, j);
        }
        hide Sound, Register, Keys, Free, Usable;
        GrownSound(h, cmd, n);
      } else {
        BindNone(h.table.byName, cmd);
      }
    }
  }

  /** A bound key is never rebound or lost, and the table stays sound, over every sequence of calls. */
  lemma {:induction false} CallsSound(h: History, cs: seq<Option<Command>>)
    requires Sound(h)
    ensures Sound(Calls(h, cs)) && Extends(h.table.byName, Calls(h, cs).table.byName)
    ensures h.failed <= Calls(h, cs).failed
    decreases cs
  {
    if cs != [] {
      hide Sound, Register;
      CallSound(h, cs[0]);
      CallsSound(Call(h, cs[0]), cs[1..]);
    }
  }

  /** A command that failed on an alias cannot be registered any more: its name stays bound to it, and
      no later sequence of calls lists it. */
  lemma FailedForever(cs: seq<Option<Command>>, later: seq<Option<Command>>, cmd: Command)
    requires cmd in Calls(NONE, cs).failed
    ensures var h := Calls(Calls(NONE, cs), later);
      && cmd !in h.table.list && Norm(cmd.name) in h.table.byName && h.table.byName[Norm(cmd.name)] == cmd
      && !Register(h.table, Some(cmd)).1.Registered?
  {
    CallsSound(NONE, cs);
    CallsSound(Calls(NONE, cs), later);
    hide Calls, Norm, Keys, Holder;
    NameBound(Calls(Calls(NONE, cs), later), cmd);
  }

  /** Listed commands claim disjoint keys. */
  lemma DisjointKeys(cs: seq<Option<Command>>, i: nat, j: nat, k: Key)
    requires var t := Calls(NONE, cs).table;
      i < |t.list| && j < |t.list| && k in Keys(t.list[i]) && k in Keys(t.list[j])
    ensures i == j
  {
    CallsSound(NONE, cs);
    hide Calls, Keys;
    var t := Calls(NONE, cs).table;
    assert Holder(t.byName, t.list[i], Keys(t.list[i])) && Holder(t.byName, t.list[j], Keys(t.list[j]));
    assert t.byName[k] == t.list[i] == t.list[j];
  }
}
