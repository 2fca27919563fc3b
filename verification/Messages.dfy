/** Messages with `{}` placeholders: the lookup, and filling in the arguments. */
module Messages {
  import opened Commons

  datatype Language = En | ZhCN

  type Catalog = map<Language, map<string, string>>

  function Lookup(messages: Catalog, locale: Language, key: string): Option<string> {
    if locale in messages && key in messages[locale] then Some(messages[locale][key]) else None
  }

  /** `t`: the message of the locale, else the English one, else the key itself. */
  function T(messages: Catalog, locale: Language, key: string): string {
    if Lookup(messages, locale, key).Some? then Lookup(messages, locale, key).value
    else if Lookup(messages, En, key).Some? then Lookup(messages, En, key).value
    else key
  }

  predicate HoleAt(s: string, i: int) { 0 <= i && i + 1 < |s| && s[i] == '{' && s[i + 1] == '}' }

  /** The leftmost `{}`, or the length if there is none. */
  function FindHole(s: string): (n: nat)
    ensures n <= |s| && (n < |s| ==> HoleAt(s, n)) && forall i :: 0 <= i < n ==> !HoleAt(s, i)
  {
    if s == [] || HoleAt(s, 0) then 0
    else
      var n := 1 + FindHole(s[1..]);
      assert forall i :: 1 <= i ==> (HoleAt(s, i) <==> HoleAt(s[1..], i - 1));
      n
  }

  function ReplaceAt(s: string, h: nat, a: string): string
    requires h + 2 <= |s|
  {
    s[..h] + a + s[h + 2..]
  }

  /** `replacen("{}", a, 1)` */
  function ReplaceFirst(s: string, a: string): string {
    var h := FindHole(s);
    if h < |s| then ReplaceAt(s, h, a) else s
  }

  /** The arguments one after the other, each into the leftmost hole of the message so far. */
  function Sequential(msg: string, args: seq<string>): string {
    if args == [] then msg else ReplaceFirst(Sequential(msg, args[..|args| - 1]), args[|args| - 1])
  }

  /** All at once: argument `i` into hole `i` of the template. */
  function Fill(msg: string, args: seq<string>): string {
    var h := FindHole(msg);
    if args == [] || h == |msg| then msg else msg[..h] + args[0] + Fill(msg[h + 2..], args[1..])
  }

  /** Text that neither contains a hole nor can become part of one. */
  predicate Safe(a: string) {
    a != [] && FindHole(a) == |a| && a[0] != '}' && a[|a| - 1] != '{'
  }

  // ---- Safe arguments ----

  /** No hole of `p + r` starts in `p`. */
  predicate Settled(p: string, r: string) {
    forall i :: 0 <= i < |p| ==> !HoleAt(p + r, i)
  }

  lemma HoleOf(s: string, h: nat)
    requires h <= |s| && (h < |s| ==> HoleAt(s, h)) && forall i :: 0 <= i < h ==> !HoleAt(s, i)
    ensures FindHole(s) == h
  {
  }

  lemma HoleBehind(p: string, r: string)
    requires Settled(p, r)
    ensures FindHole(p + r) == |p| + FindHole(r)
  {
    var s := p + r;
    var h := FindHole(r);
    forall i | 0 <= i < |p| + h ensures !HoleAt(s, i) {
      if i >= |p| {
        assert !HoleAt(r, i - |p|);
      }
    }
    HoleOf(s, |p| + h);
  }

  lemma ReplaceAtBehind(p: string, r: string, h: nat, a: string)
    requires h + 2 <= |r|
    ensures ReplaceAt(p + r, |p| + h, a) == (p + r[..h] + a) + r[h + 2..]
  {
    assert (p + r)[..|p| + h] == p + r[..h];
    assert (p + r)[|p| + h + 2..] == r[h + 2..];
  }

  lemma ReplaceFirstAt(s: string, h: nat, a: string)
    requires FindHole(s) == h < |s|
    ensures ReplaceFirst(s, a) == ReplaceAt(s, h, a)
  {
  }

  lemma ReplaceJoined(whole: string, p: string, r: string, h: nat, a: string)
    requires whole == p + r && h + 2 <= |r| && FindHole(whole) == |p| + h
    ensures ReplaceFirst(whole, a) == (p + r[..h] + a) + r[h + 2..]
  {
    ReplaceFirstAt(whole, |p| + h, a);
    ReplaceAtBehind(p, r, h, a);
  }

  /** Safe text put into the leftmost hole makes no hole with what stands around it. */
  lemma SafeSettles(p: string, r: string, a: string)
    requires Settled(p, r) && FindHole(r) < |r| && Safe(a)
    ensures var h := FindHole(r); Settled(p + r[..h] + a, r[h + 2..])
  {
    var h := FindHole(r);
    var q := p + r[..h];
    var s := (q + a) + r[h + 2..];
    forall i | 0 <= i < |q + a| ensures !HoleAt(s, i) {
      if i + 1 < |q| {
        assert s[i] == (p + r)[i] && s[i + 1] == (p + r)[i + 1];
        NoHoleInFront(p, r, i);
      } else if i + 1 == |q| {
        assert s[i + 1] == a[0];
      } else if i + 1 < |q + a| {
        assert s[i] == a[i - |q|] && s[i + 1] == a[i - |q| + 1];
        assert !HoleAt(a, i - |q|);
      } else {
        assert s[i] == a[|a| - 1];
      }
    }
  }

  lemma NoHoleInFront(p: string, r: string, i: nat)
    requires Settled(p, r) && i < |p| + FindHole(r)
    ensures !HoleAt(p + r, i)
  {
    HoleBehind(p, r);
  }

  lemma {:induction false} NoHoleNoChange(msg: string, args: seq<string>)
    requires FindHole(msg) == |msg|
    ensures Sequential(msg, args) == msg
  {
    if args != [] {
      NoHoleNoChange(msg, args[..|args| - 1]);
    }
  }

  lemma {:induction false} SequentialFirst(msg: string, args: seq<string>)
    requires args != []
    ensures Sequential(msg, args) == Sequential(ReplaceFirst(msg, args[0]), args[1..])
  {
    var init := args[..|args| - 1];
    if init != [] {
      SequentialFirst(msg, init);
      assert args[1..][..|args| - 2] == init[1..];
    } else {
      assert Sequential(msg, init) == msg;
      assert args[1..] == [];
    }
  }

  predicate SafeButLast(args: seq<string>) { forall i :: 0 <= i < |args| - 1 ==> Safe(args[i]) }

  lemma FillUnfolds(r: string, h: nat, args: seq<string>)
    requires args != [] && FindHole(r) == h < |r|
    ensures Fill(r, args) == r[..h] + args[0] + Fill(r[h + 2..], args[1..])
  {
  }

  lemma FillStep(p: string, r: string, h: nat, args: seq<string>)
    requires args != [] && h + 2 <= |r|
    requires Fill(r, args) == r[..h] + args[0] + Fill(r[h + 2..], args[1..])
    ensures p + Fill(r, args) == (p + r[..h] + args[0]) + Fill(r[h + 2..], args[1..])
  {
    Regroup(p, r[..h], args[0], Fill(r[h + 2..], args[1..]));
  }

  lemma Regroup(p: string, x: string, a: string, f: string)
    ensures p + (x + a + f) == (p + x + a) + f
  {
  }

  lemma {:induction false} FillBehind(p: string, r: string, args: seq<string>)
    requires Settled(p, r) && SafeButLast(args)
    ensures Sequential(p + r, args) == p + Fill(r, args)
    decreases |args|
  {
    var h := FindHole(r);
    if args == [] {
    } else if h == |r| {
      HoleBehind(p, r);
      NoHoleNoChange(p + r, args);
    } else {
      var p', r' := p + r[..h] + args[0], r[h + 2..];
      SequentialFirst(p + r, args);
      HoleBehind(p, r);
      ReplaceJoined(p + r, p, r, h, args[0]);
      FillUnfolds(r, h, args);
      FillStep(p, r, h, args);
      if |args| == 1 {
        assert args[1..] == [];
      } else {
        SafeSettles(p, r, args[0]);
        FillBehind(p', r', args[1..]);
      }
    }
  }

  /** If every argument but the last is safe, filling in one after the other is filling in all at once. */
  lemma SequentialIsSimultaneous(msg: string, args: seq<string>)
    requires SafeButLast(args)
    ensures Sequential(msg, args) == Fill(msg, args)
  {
    assert "" + msg == msg;
    FillBehind("", msg, args);
  }

  // ---- Templates in pieces ----

  /** Pieces of text with a hole between every two of them. */
  function Template(pieces: seq<string>): string
    requires pieces != []
  {
    if |pieces| == 1 then pieces[0] else pieces[0] + "{}" + Template(pieces[1..])
  }

  /** The pieces with the arguments between them; holes without an argument stay, arguments without a hole go. */
  function Woven(pieces: seq<string>, args: seq<string>): string
    requires pieces != []
  {
    if |pieces| == 1 then pieces[0]
    else if args == [] then Template(pieces)
    else pieces[0] + args[0] + Woven(pieces[1..], args[1..])
  }

  ghost predicate HoleFree(pieces: seq<string>) {
    forall i, k :: 0 <= i < |pieces| && 0 <= k ==> !HoleAt(pieces[i], k)
  }

  lemma HoleAfterPiece(piece: string, rest: string)
    requires forall k :: 0 <= k ==> !HoleAt(piece, k)
    ensures FindHole(piece + "{}" + rest) == |piece|
    ensures (piece + "{}" + rest)[..|piece|] == piece && (piece + "{}" + rest)[|piece| + 2..] == rest
  {
    var s := piece + "{}" + rest;
    assert s[|piece|] == '{' && s[|piece| + 1] == '}';
    forall i | 0 <= i < |piece| ensures !HoleAt(s, i) {
      assert !HoleAt(piece, i);
    }
    HoleOf(s, |piece|);
  }

  /** Filling in all at once puts the arguments between the pieces, one after the other. */
  lemma {:induction false} FillWeaves(pieces: seq<string>, args: seq<string>)
    requires pieces != [] && HoleFree(pieces)
    ensures Fill(Template(pieces), args) == Woven(pieces, args)
  {
    if |pieces| == 1 {
      HoleOf(pieces[0], |pieces[0]|);
    } else if args != [] {
      HoleAfterPiece(pieces[0], Template(pieces[1..]));
      FillUnfolds(Template(pieces), |pieces[0]|, args);
      FillWeaves(pieces[1..], args[1..]);
    }
  }

  /** Every message is such a template. */
  lemma {:induction false} PiecesOf(msg: string) returns (pieces: seq<string>)
    ensures pieces != [] && HoleFree(pieces) && Template(pieces) == msg
    decreases |msg|
  {
    var h := FindHole(msg);
    if h == |msg| {
      pieces := [msg];
    } else {
      var rest := PiecesOf(msg[h + 2..]);
      pieces := [msg[..h]] + rest;
      assert pieces[1..] == rest;
      assert msg[h..h + 2] == "{}";
      assert msg == msg[..h] + "{}" + msg[h + 2..];
      forall k | 0 <= k ensures !HoleAt(msg[..h], k) {
        assert k < h ==> !HoleAt(msg, k);
      }
    }
  }

  // ---- Only safe arguments ----

  /** For an argument that is not safe: a template in which the next argument goes astray. */
  function Trap(a: string): string {
    if a == [] then "{{}}{}" else if a[0] == '}' then "{{}{}" else if a[|a| - 1] == '{' then "{}}{}" else "{}{}"
  }

  lemma TwoArgs(msg: string, a: string, b: string)
    ensures Sequential(msg, [a, b]) == ReplaceFirst(ReplaceFirst(msg, a), b)
  {
    assert [a, b][..1] == [a] && [a][..0] == [];
    assert Sequential(msg, []) == msg;
    assert Sequential(msg, [a]) == ReplaceFirst(msg, a);
  }

  /** What the first replacement makes of the trap: there is a hole before the one at the end. */
  lemma TrapSprings(a: string)
    requires !Safe(a)
    ensures var s := ReplaceFirst(Trap(a), a);
      |s| >= 2 && HoleAt(s, |s| - 2) && FindHole(s) + 2 < |s|
  {
    var t := Trap(a);
    if a == [] {
      HoleOf(t, 1);
      assert ReplaceFirst(t, a) == "{}{}";
      HoleOf("{}{}", 0);
    } else if a[0] == '}' {
      HoleOf(t, 1);
      var s := ReplaceFirst(t, a);
      assert s == "{" + a + "{}";
      HoleOf(s, 0);
    } else if a[|a| - 1] == '{' {
      HoleOf(t, 0);
      var s := ReplaceFirst(t, a);
      assert s == a + "}{}";
      assert HoleAt(s, |a| - 1);
    } else {
      HoleOf(t, 0);
      var s := ReplaceFirst(t, a);
      assert s == a + "{}";
      assert HoleAt(s, FindHole(a));
    }
  }

  /** At once, the trap ends in the second argument. */
  lemma TrapFilled(a: string, b: string)
    requires !Safe(a)
    ensures exists front :: Fill(Trap(a), [a, b]) == front + b
  {
    var t := Trap(a);
    var h := if a == [] || a[0] == '}' then 1 else 0;
    HoleOf(t, h);
    var r := t[h + 2..];
    var k := if a == [] then 1 else if a[0] == '}' then 0 else if a[|a| - 1] == '{' then 1 else 0;
    HoleOf(r, k);
    assert [a, b][1..] == [b] && [b][1..] == [];
    assert r[k + 2..] == [] && Fill([], []) == [];
    assert Fill(r, [b]) == r[..k] + b + [];
    assert Fill(t, [a, b]) == t[..h] + a + Fill(r, [b]);
    assert Fill(t, [a, b]) == (t[..h] + a + r[..k]) + b;
  }

  lemma LastStays(s: string, h: nat, b: string)
    requires h + 2 < |s|
    ensures var r := ReplaceAt(s, h, b); r != [] && r[|r| - 1] == s[|s| - 1]
  {
  }

  /** An argument is filled in right in every template, whatever argument follows it, exactly when it is safe. */
  lemma SafeIff(a: string)
    ensures Safe(a) <==> forall msg: string, b: string :: Sequential(msg, [a, b]) == Fill(msg, [a, b])
  {
    if Safe(a) {
      forall msg: string, b: string ensures Sequential(msg, [a, b]) == Fill(msg, [a, b]) {
        SequentialIsSimultaneous(msg, [a, b]);
      }
    } else {
      var t, b := Trap(a), "x";
      TwoArgs(t, a, b);
      TrapSprings(a);
      TrapFilled(a, b);
      var s := ReplaceFirst(t, a);
      ReplaceFirstAt(s, FindHole(s), b);
      LastStays(s, FindHole(s), b);
      var front :| Fill(t, [a, b]) == front + b;
      assert (front + b)[|front + b| - 1] == 'x';
      assert Sequential(t, [a, b]) != Fill(t, [a, b]);
    }
  }

  // ---- t_args ----

  /** A message of the locale asked for is used whenever it exists, else the English one, else the key. */
  method TArgs(messages: Catalog, locale: Language, key: string, args: seq<string>) returns (msg: string)
    ensures locale in messages && key in messages[locale] ==> msg == Sequential(messages[locale][key], args)
    ensures !(locale in messages && key in messages[locale]) && En in messages && key in messages[En] ==>
      msg == Sequential(messages[En][key], args)
    ensures !(locale in messages && key in messages[locale]) && !(En in messages && key in messages[En]) ==>
      msg == Sequential(key, args)
    ensures SafeButLast(args) ==> msg == Fill(T(messages, locale, key), args)
  {
    msg := T(messages, locale, key);
    var i := 0;
    assert args[..0] == [];
    while i < |args|
      invariant 0 <= i <= |args|
      invariant msg == Sequential(T(messages, locale, key), args[..i])
    {
      assert args[..i + 1][..i] == args[..i];
      msg := ReplaceFirst(msg, args[i]);
      i := i + 1;
    }
    assert args[..i] == args;
    if SafeButLast(args) {
      SequentialIsSimultaneous(T(messages, locale, key), args);
    }
  }
}
