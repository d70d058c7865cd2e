/** Splitting an strace argument list at its top-level commas. */
module Splitter {
  import opened Octets

  /** What Python's `str.strip` takes off. */
  predicate IsSpace(c: char) {
    var n := c as int;
    || 9 <= n <= 13 || 28 <= n <= 32 || n == 0x85 || n == 0xA0 || n == 0x1680 || 0x2000 <= n <= 0x200A
    || n == 0x2028 || n == 0x2029 || n == 0x202F || n == 0x205F || n == 0x3000
  }

  function StripLeft(s: string): string {
    if s != "" && IsSpace(s[0]) then StripLeft(s[1..]) else s
  }

  function StripRight(s: string): string {
    if s != "" && IsSpace(s[|s| - 1]) then StripRight(s[..|s| - 1]) else s
  }

  function Strip(s: string): string {
    StripRight(StripLeft(s))
  }

  // ----- the character state -----

  /** Bracket depth (it may go negative), and whether inside a string or just after a backslash in one. */
  datatype Lex = Lex(depth: int, inStr: bool, escape: bool)

  const TOP := Lex(0, false, false)

  function Next(l: Lex, c: char): Lex {
    if l.inStr then
      if l.escape then l.(escape := false)
      else if c == '\\' then l.(escape := true)
      else if c == '\"' then l.(inStr := false)
      else l
    else if c == '\"' then l.(inStr := true)
    else if c == '(' || c == '[' || c == '{' then l.(depth := l.depth + 1)
    else if c == ')' || c == ']' || c == '}' then l.(depth := l.depth - 1)
    else l
  }

  predicate Cuts(l: Lex, c: char) {
    !l.inStr && c == ',' && l.depth == 0
  }

  /** The state after reading all of `s`. */
  function After(l: Lex, s: string): Lex
    decreases |s|
  {
    if s == "" then l else After(Next(l, s[0]), s[1..])
  }

  /** Where the first top-level comma is, or the length of `s`. */
  function CutAt(s: string, l: Lex): (n: nat)
    ensures n <= |s|
  {
    if s == "" || Cuts(l, s[0]) then 0 else 1 + CutAt(s[1..], Next(l, s[0]))
  }

  /** The pieces, given that `have` are already there: at most `max` cuts, and then the rest as it stands. */
  function Split(s: string, have: nat, max: nat): seq<string>
    decreases |s|
  {
    var c := CutAt(s, TOP);
    if c == |s| then (if s == "" then [] else [Strip(s)])
    else if have + 1 >= max then
      [Strip(s[..c])] + (if Strip(s[c + 1..]) == "" then [] else [Strip(s[c + 1..])])
    else [Strip(s[..c])] + Split(s[c + 1..], have + 1, max)
  }

  lemma CutStays(s: string, i: nat)
    requires i < |s|
    ensures s[i..][0] == s[i] && s[i..][1..] == s[i + 1..]
  {
  }

  lemma PieceSoFar(s: string, start: nat, i: nat)
    requires start <= i <= |s|
    ensures i < |s| ==> s[start..i] + [s[i]] == s[start..i + 1]
    ensures s[start..][..i - start] == s[start..i]
    ensures i < |s| ==> s[start..][i - start + 1..] == s[i + 1..]
  {
  }

  /** The character loop. A comma at depth zero outside a string only ever cuts from the top state. */
  method SplitArgs(s: string, max: nat) returns (out: seq<string>)
    ensures out == Split(s, 0, max)
  {
    hide Strip, CutAt, Next, IsSpace;
    out := [];
    var cur: string := "";
    var lex := TOP;
    ghost var start := 0;
    assert s[0..] == s;
    for i := 0 to |s|
      invariant start <= i && cur == s[start..i]
      invariant out + Split(s[start..], |out|, max) == Split(s, 0, max)
      invariant CutAt(s[start..], TOP) == i - start + CutAt(s[i..], lex)
      invariant lex.escape ==> lex.inStr
    {
      var c := s[i];
      CutStays(s, i);
      CutStep(s[i..], lex);
      PieceSoFar(s, start, i);
      if Cuts(lex, c) {
        var piece, rest := Strip(cur), Strip(s[i + 1..]);
        if |out| + 1 >= max {
          Snoc(out, piece, if rest == "" then [] else [rest]);
          out := out + [piece];
          if rest != "" {
            out := out + [rest];
          } else {
            NoTail(out);
          }
          return;
        }
        Snoc(out, piece, Split(s[i + 1..], |out| + 1, max));
        out := out + [piece];
        cur, lex, start := "", TOP, i + 1;
      } else {
        cur := cur + [c];
        NextKeeps(lex, c);
        lex := Next(lex, c);
      }
    }
    assert s[|s|..] == "" && s[start..|s|] == s[start..];
    CutNothing(lex);
    if cur != "" {
      out := out + [Strip(cur)];
    } else {
      NoTail(out);
    }
  }

  lemma CutNothing(l: Lex)
    ensures CutAt("", l) == 0
  {
  }

  lemma CutStep(s: string, l: Lex)
    requires s != ""
    ensures CutAt(s, l) == if Cuts(l, s[0]) then 0 else 1 + CutAt(s[1..], Next(l, s[0]))
  {
  }

  lemma NextKeeps(l: Lex, c: char)
    requires l.escape ==> l.inStr
    ensures Next(l, c).escape ==> Next(l, c).inStr
  {
  }

  // ----- splitting undoes joining -----

  /** An argument as strace prints it: trimmed, brackets and strings closed, no comma at the top level. */
  predicate IsArg(a: string) {
    a != "" && !IsSpace(a[0]) && !IsSpace(a[|a| - 1]) && After(TOP, a) == TOP && CutAt(a, TOP) == |a|
  }

  predicate AreArgs(args: seq<string>) {
    forall i :: 0 <= i < |args| ==> IsArg(args[i])
  }

  function Join(args: seq<string>): string {
    if args == [] then "" else if |args| == 1 then args[0] else args[0] + ", " + Join(args[1..])
  }

  lemma {:induction false} CutAppend(a: string, t: string, l: Lex)
    requires CutAt(a, l) == |a|
    ensures CutAt(a + t, l) == |a| + CutAt(t, After(l, a))
    decreases |a|
  {
    hide Next, Cuts;
    if a == "" {
      assert a + t == t;
    } else {
      assert (a + t)[1..] == a[1..] + t;
      CutAppend(a[1..], t, Next(l, a[0]));
    }
  }

  lemma StripTrimmed(a: string)
    requires a != "" && !IsSpace(a[0]) && !IsSpace(a[|a| - 1])
    ensures Strip(a) == a && Strip(" " + a) == a
  {
    assert (" " + a)[1..] == a;
  }

  lemma {:induction false} JoinEnds(args: seq<string>)
    requires args != [] && AreArgs(args)
    ensures Join(args) != "" && !IsSpace(Join(args)[0]) && !IsSpace(Join(args)[|Join(args)| - 1])
  {
    hide IsSpace, After, CutAt;
    assert IsArg(args[0]);
    if |args| > 1 {
      assert AreArgs(args[1..]);
      JoinEnds(args[1..]);
    }
  }

  /** One argument, perhaps after the space that follows a comma, and then the rest of the text. */
  lemma CutAfterArg(pad: string, a: string, t: string)
    requires (pad == "" || pad == " ") && IsArg(a)
    ensures CutAt(pad + a + t, TOP) == |pad + a| + CutAt(t, TOP) && Strip(pad + a) == a
  {
    hide After, IsSpace;
    StripTrimmed(a);
    CutAppend(a, t, TOP);
    if pad == " " {
      assert (pad + a + t)[1..] == a + t;
      assert Next(TOP, ' ') == TOP;
    } else {
      assert pad + a + t == a + t && pad + a == a;
    }
  }

  lemma SplitOne(pad: string, a: string, t: string, have: nat, max: nat)
    requires (pad == "" || pad == " ") && IsArg(a)
    ensures Split(pad + a, have, max) == [a]
    ensures Split(pad + a + ", " + t, have, max) ==
            [a] + (if have + 1 < max then Split(" " + t, have + 1, max)
                   else if Strip(" " + t) == "" then [] else [Strip(" " + t)])
  {
    hide After, IsSpace, Strip;
    CutNothing(TOP);
    CutAfterArg(pad, a, "");
    NoTail(pad + a);
    CutAfterArg(pad, a, ", " + t);
    var s, n := pad + a + (", " + t), |pad + a|;
    assert pad + a + ", " + t == s;
    assert s[..n] == pad + a && s[n + 1..] == " " + t;
    assert (", " + t)[0] == ',';
  }

  lemma {:induction false} SplitJoin(pad: string, args: seq<string>, have: nat, max: nat)
    requires (pad == "" || pad == " ") && args != [] && AreArgs(args) && have < max
    ensures Split(pad + Join(args), have, max) ==
            if |args| <= max - have then args else args[..max - have] + [Join(args[max - have..])]
    decreases |args|
  {
    hide IsArg, Split, Strip, Join, AreArgs, IsSpace;
    JoinCons(pad, args);
    CutTail(args, if |args| <= max - have then 1 else max - have);
    if |args| == 1 {
      SplitOne(pad, args[0], "", have, max);
    } else {
      var rest := args[1..];
      SplitOne(pad, args[0], Join(rest), have, max);
      if have + 1 < max {
        SplitJoin(" ", rest, have + 1, max);
      } else {
        JoinEnds(rest);
        StripTrimmed(Join(rest));
        NoHead(rest);
      }
    }
  }

  lemma JoinCons(pad: string, args: seq<string>)
    requires args != [] && AreArgs(args)
    ensures IsArg(args[0]) && AreArgs(args[1..])
    ensures pad + Join(args) == if |args| == 1 then pad + args[0] else pad + args[0] + ", " + Join(args[1..])
    ensures |args| == 1 ==> args == [args[0]]
  {
    hide IsArg;
    assert forall i :: 0 <= i < |args[1..]| ==> args[1..][i] == args[i + 1];
    if |args| > 1 {
      Regroup(pad, args[0], ", ", Join(args[1..]));
    }
  }

  lemma Regroup(p: string, a: string, c: string, t: string)
    ensures p + (a + c + t) == p + a + c + t
  {
  }

  const MAX_ARGS := 6

  /** Splitting inverts joining: up to six arguments come back as they are; beyond that, six and the rest verbatim. */
  lemma SplitInvertsJoin(args: seq<string>)
    requires AreArgs(args)
    ensures Split(Join(args), 0, MAX_ARGS) ==
            if |args| <= MAX_ARGS then args else args[..MAX_ARGS] + [Join(args[MAX_ARGS..])]
  {
    hide IsArg, Split, Join, AreArgs;
    if args == [] {
      SplitNothing();
    } else {
      SplitJoin("", args, 0, MAX_ARGS);
      NoHead(Join(args));
    }
  }

  lemma SplitNothing()
    ensures Split(Join([]), 0, MAX_ARGS) == []
  {
    CutNothing(TOP);
  }

  // ----- for every input -----

  /** The text between top-level commas, untouched. */
  function Raw(s: string): seq<string>
    decreases |s|
  {
    var c := CutAt(s, TOP);
    if c == |s| then [s] else [s[..c]] + Raw(s[c + 1..])
  }

  function Commas(ps: seq<string>): string {
    if ps == [] then "" else if |ps| == 1 then ps[0] else ps[0] + "," + Commas(ps[1..])
  }

  function StripAll(ps: seq<string>): (r: seq<string>)
    ensures |r| == |ps| && forall i :: 0 <= i < |ps| ==> r[i] == Strip(ps[i])
  {
    seq(|ps|, i requires 0 <= i < |ps| => Strip(ps[i]))
  }

  /** No character is lost, added or moved: with their commas the raw pieces are the input. */
  lemma {:induction false} RawIsLossless(s: string)
    ensures Raw(s) != [] && Commas(Raw(s)) == s
    decreases |s|
  {
    hide CutAt;
    var c := CutAt(s, TOP);
    if c < |s| {
      CutIsComma(s, TOP);
      var rest := Raw(s[c + 1..]);
      RawIsLossless(s[c + 1..]);
      assert Raw(s)[1..] == rest;
      assert s == s[..c] + "," + s[c + 1..];
    }
  }

  lemma {:induction false} CutIsComma(s: string, l: Lex)
    requires CutAt(s, l) < |s|
    ensures s[CutAt(s, l)] == ','
    decreases |s|
  {
    hide Next;
    if !Cuts(l, s[0]) {
      CutIsComma(s[1..], Next(l, s[0]));
    }
  }

  /** On any input with no more pieces than the cap, the result is those pieces, stripped; an empty tail is dropped. */
  lemma {:induction false} SplitIsRaw(s: string, have: nat, max: nat)
    requires have + |Raw(s)| <= max
    ensures var ps := Raw(s);
            Split(s, have, max) == StripAll(if ps[|ps| - 1] == "" then ps[..|ps| - 1] else ps)
    decreases |s|
  {
    hide CutAt, Strip, StripAll;
    var c := CutAt(s, TOP);
    if c < |s| {
      SplitIsRaw(s[c + 1..], have + 1, max);
      StripCons(s[..c], Raw(s[c + 1..]));
    } else {
      StripOne(s);
    }
  }

  lemma StripCons(x: string, ps: seq<string>)
    ensures StripAll([x] + ps) == [Strip(x)] + StripAll(ps)
    ensures ps != [] ==>
              && ([x] + ps)[|ps|] == ps[|ps| - 1]
              && StripAll(([x] + ps)[..|ps|]) == [Strip(x)] + StripAll(ps[..|ps| - 1])
  {
    hide Strip;
    if ps != [] {
      assert ([x] + ps)[..|ps|] == [x] + ps[..|ps| - 1];
    }
  }

  lemma StripOne(s: string)
    ensures StripAll([s]) == [Strip(s)] && StripAll([s][..0]) == []
  {
  }

  /**
   * On any input with more pieces than the cap: that many, stripped, and everything behind them as one, commas
   * included.
   */
  lemma {:induction false} SplitCapped(s: string, have: nat, max: nat)
    requires have < max < have + |Raw(s)|
    ensures var ps, n := Raw(s), max - have;
            var tail := Strip(Commas(ps[n..]));
            Split(s, have, max) == StripAll(ps[..n]) + (if tail == "" then [] else [tail])
    decreases |s|
  {
    hide CutAt, Strip, Commas, StripAll;
    var c, ps, n := CutAt(s, TOP), Raw(s), max - have;
    var rest := Raw(s[c + 1..]);
    CutTail(ps, n);
    StripCons(s[..c], rest[..n - 1]);
    if have + 1 >= max {
      RawIsLossless(s[c + 1..]);
      assert rest[0..] == rest;
      StripOne(s[..c]);
    } else {
      SplitCapped(s[c + 1..], have + 1, max);
    }
  }
}
