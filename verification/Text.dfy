/** The string helpers the command registry uses, over ASCII: TrimSpace, ToLower, Fields, Join. */
module Text {

  predicate IsSpace(c: char) { c == ' ' || 9 <= c as int <= 13 }

  function Lower(c: char): char { if 'A' <= c <= 'Z' then (c as int + 32) as char else c }

  function ToLower(s: string): string { seq(|s|, i requires 0 <= i < |s| => Lower(s[i])) }

  /** How many spaces s starts with. */
  function Lead(s: string): (n: nat)
    ensures n <= |s| && (n < |s| ==> !IsSpace(s[n]))
  {
    if s == [] || !IsSpace(s[0]) then 0 else 1 + Lead(s[1..])
  }

  /** How many non-spaces s starts with. */
  function Word(s: string): (n: nat)
    ensures n <= |s| && (n < |s| ==> IsSpace(s[n])) && forall i :: 0 <= i < n ==> !IsSpace(s[i])
    ensures n == 0 ==> s == [] || IsSpace(s[0])
  {
    if s == [] || IsSpace(s[0]) then 0 else 1 + Word(s[1..])
  }

  function TrimRight(s: string): string
  {
    if s != [] && IsSpace(s[|s| - 1]) then TrimRight(s[..|s| - 1]) else s
  }

  function TrimSpace(s: string): string { TrimRight(s[Lead(s)..]) }

  /** The words of s between runs of spaces. */
  function Fields(s: string): seq<string>
    decreases |s|
  {
    var t := s[Lead(s)..];
    if t == [] then [] else
    var n := Word(t);
    assert n > 0 && |t[n..]| < |s|;
    [t[..n]] + Fields(t[n..])
  }

  function Join(ws: seq<string>): string
  {
    if ws == [] then [] else if |ws| == 1 then ws[0] else ws[0] + ([' '] + Join(ws[1..]))
  }

  /** A nonempty string without spaces. */
  predicate Plain(w: string) { w != [] && forall i :: 0 <= i < |w| ==> !IsSpace(w[i]) }

  predicate AllPlain(ws: seq<string>) { forall i :: 0 <= i < |ws| ==> Plain(ws[i]) }

  lemma WordOf(w: string, rest: string)
    requires Plain(w) && (rest == [] || IsSpace(rest[0]))
    ensures Word(w + rest) == |w| && Lead(w + rest) == 0
  {
    var s := w + rest;
    assert forall i :: 0 <= i < |w| ==> s[i] == w[i];
    assert rest != [] ==> s[|w|] == rest[0];
  }

  lemma FieldsWord(w: string, rest: string)
    requires Plain(w) && (rest == [] || IsSpace(rest[0]))
    ensures Fields(w + rest) == [w] + Fields(rest)
  {
    WordOf(w, rest);
    var s := w + rest;
    assert s[Lead(s)..] == s && s[..|w|] == w && s[|w|..] == rest;
  }

  lemma FieldsSpace(c: char, s: string)
    requires IsSpace(c)
    ensures Fields([c] + s) == Fields(s)
  {
    assert ([c] + s)[1..] == s;
    assert ([c] + s)[Lead([c] + s)..] == s[Lead(s)..];
  }

  lemma FieldsTwo(w: string, rest: string)
    requires Plain(w)
    ensures Fields(w + ([' '] + rest)) == [w] + Fields(rest)
  {
    hide Fields;
    FieldsWord(w, [' '] + rest);
    FieldsSpace(' ', rest);
  }

  /** Splitting joined words gives the words back. */
  lemma {:induction false} FieldsJoin(ws: seq<string>)
    requires AllPlain(ws)
    ensures Fields(Join(ws)) == ws
  {
    if ws == [] {
      assert Fields([]) == [];
    } else {
      var w, vs := ws[0], ws[1..];
      assert ws == [w] + vs && Plain(w);
      FieldsJoin(vs);
      hide Fields, Plain, Word, Lead;
      if vs == [] {
        assert Join(ws) == w == w + [];
        FieldsWord(w, []);
      } else {
        FieldsTwo(w, Join(vs));
      }
    }
  }

  lemma {:induction false} FieldsTail(s: string, c: char)
    requires IsSpace(c)
    ensures Fields(s + [c]) == Fields(s)
    decreases |s|
  {
    hide Fields;
    if s == [] {
      FieldsSpace(c, []);
      assert [] + [c] == [c] + [];
    } else if IsSpace(s[0]) {
      var r := s[1..];
      FieldsTail(r, c);
      FieldsSpace(s[0], r);
      FieldsSpace(s[0], r + [c]);
      assert [s[0]] + r == s && [s[0]] + (r + [c]) == s + [c];
    } else {
      var w, r := s[..Word(s)], s[Word(s)..];
      FieldsTail(r, c);
      FieldsWord(w, r);
      FieldsWord(w, r + [c]);
      assert w + r == s && w + (r + [c]) == s + [c];
    }
  }

  lemma {:induction false} FieldsTrimRight(s: string)
    ensures Fields(TrimRight(s)) == Fields(s)
    ensures TrimRight(s) <= s
  {
    hide Fields;
    if s != [] && IsSpace(s[|s| - 1]) {
      var r := s[..|s| - 1];
      FieldsTrimRight(r);
      FieldsTail(r, s[|s| - 1]);
      assert r + [s[|s| - 1]] == s;
    }
  }

  lemma FieldsLead(s: string)
    ensures Fields(s[Lead(s)..]) == Fields(s)
  {
    var t := s[Lead(s)..];
    assert Lead(t) == 0 && t[Lead(t)..] == t;
  }

  /** A string that does not start with a space starts as its first field does. */
  lemma FieldsFirst(u: string)
    requires u != [] && !IsSpace(u[0])
    ensures Fields(u) != [] && Plain(Fields(u)[0]) && Fields(u)[0][0] == u[0]
  {
    assert Lead(u) == 0 && u[0..] == u && Word(u) > 0;
  }

  /** Trimming does not change the fields; a trimmed string starts as its first field does. */
  lemma TrimFields(s: string)
    ensures Fields(TrimSpace(s)) == Fields(s)
    ensures TrimSpace(s) == [] <==> Fields(s) == []
    ensures TrimSpace(s) != [] ==> Plain(Fields(s)[0]) && Fields(s)[0][0] == TrimSpace(s)[0]
  {
    var t, u := s[Lead(s)..], TrimSpace(s);
    FieldsTrimRight(t);
    FieldsLead(s);
    if u != [] {
      assert u[0] == t[0] && !IsSpace(t[0]);
      FieldsFirst(u);
    } else {
      assert Fields([]) == [];
    }
    hide Fields, Plain;
  }

  /** The characters that count as space: tab, line feed, vertical tab, form feed, return, and blank. */
  lemma SpaceCodes(c: char)
    ensures IsSpace(c) <==> c as int in {9, 10, 11, 12, 13, 32}
  {
  }

  /** ToLower works character by character and moves exactly the capital letters, by 32. */
  lemma LowerCodes(s: string, i: nat)
    requires i < |s|
    ensures |ToLower(s)| == |s|
    ensures ToLower(s)[i] as int == s[i] as int + if 65 <= s[i] as int <= 90 then 32 else 0
  {
  }

  predicate AllSpace(s: string) { forall i :: 0 <= i < |s| ==> IsSpace(s[i]) }

  lemma {:induction false} TrimmedRight(s: string) returns (b: string)
    ensures s == TrimRight(s) + b && AllSpace(b)
    ensures TrimRight(s) != [] ==> !IsSpace(TrimRight(s)[|TrimRight(s)| - 1]) && TrimRight(s)[0] == s[0]
  {
    b := [];
    if s != [] && IsSpace(s[|s| - 1]) {
      var n := |s| - 1;
      b := TrimmedRight(s[..n]);
      b := b + [s[n]];
      assert s == s[..n] + [s[n]];
    }
  }

  lemma {:induction false} LeadSpaces(s: string)
    ensures AllSpace(s[..Lead(s)])
  {
    if s != [] && IsSpace(s[0]) {
      LeadSpaces(s[1..]);
      assert s[..Lead(s)] == [s[0]] + s[1..][..Lead(s[1..])];
    }
  }

  /** Trimming takes spaces off both ends and leaves a string that neither starts nor ends with one. */
  lemma TrimExactly(s: string) returns (a: string, b: string)
    ensures s == a + TrimSpace(s) + b && AllSpace(a) && AllSpace(b)
    ensures var t := TrimSpace(s); t != [] ==> !IsSpace(t[0]) && !IsSpace(t[|t| - 1])
  {
    a := s[..Lead(s)];
    LeadSpaces(s);
    b := TrimmedRight(s[Lead(s)..]);
  }

  lemma {:induction false} LeadPadded(a: string, rest: string)
    requires AllSpace(a) && (rest == [] || !IsSpace(rest[0]))
    ensures Lead(a + rest) == |a|
  {
    if a == [] {
      assert a + rest == rest;
    } else {
      LeadPadded(a[1..], rest);
      assert (a + rest)[1..] == a[1..] + rest;
    }
  }

  lemma {:induction false} TrimRightPadded(v: string, b: string)
    requires AllSpace(b) && (v == [] || !IsSpace(v[|v| - 1]))
    ensures TrimRight(v + b) == v
  {
    if b == [] {
      assert v + b == v;
    } else {
      var n := |b| - 1;
      TrimRightPadded(v, b[..n]);
      assert (v + b)[..|v + b| - 1] == v + b[..n];
    }
  }

  /** Whatever spaces surround a word, trimming gives the word; spaces alone give nothing. */
  lemma TrimPadded(a: string, v: string, b: string)
    requires AllSpace(a) && AllSpace(b) && (v == [] || Plain(v))
    ensures TrimSpace(a + v + b) == v
  {
    if v == [] {
      LeadPadded(a + b, []);
      assert a + v + b == a + b == a + b + [];
    } else {
      LeadPadded(a, v + b);
      assert a + v + b == a + (v + b);
      TrimRightPadded(v, b);
    }
  }

  /** Every field is nonempty and free of spaces. */
  lemma {:induction false} FieldsPlain(s: string)
    ensures AllPlain(Fields(s))
    decreases |s|
  {
    var t := s[Lead(s)..];
    if t != [] {
      FieldsPlain(t[Word(t)..]);
    }
  }

  lemma TrimPlain(w: string)
    requires Plain(w)
    ensures TrimSpace(w) == w
  {
    assert w[0..] == w;
  }
}
