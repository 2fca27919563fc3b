/** Editing a `.env` file as text: the setup wizard's upsert and the service's own check. */
module EnvFile {
  import opened Text

  // ---- Lines ----

  /** The index of the first newline, or the length if there is none. */
  function FirstNewline(s: string): (n: nat)
    ensures n <= |s| && (forall i :: 0 <= i < n ==> s[i] != '\n') && (n < |s| ==> s[n] == '\n')
  {
    if s == [] || s[0] == '\n' then 0 else 1 + FirstNewline(s[1..])
  }

  predicate EndsWithCr(s: string) { s != [] && s[|s| - 1] == '\r' }

  function Chop(s: string): string { if EndsWithCr(s) then s[..|s| - 1] else s }

  /** `str::lines`: split at newlines, take one CR off each line that had a newline. */
  function Lines(s: string): seq<string>
    decreases |s|
  {
    if s == [] then []
    else
      var n := FirstNewline(s);
      if n < |s| then [Chop(s[..n])] + Lines(s[n + 1..]) else [s]
  }

  function Unlines(ls: seq<string>): string {
    if ls == [] then "" else Unlines(ls[..|ls| - 1]) + Ended(ls[|ls| - 1])
  }

  function ChopAll(ls: seq<string>): seq<string> {
    if ls == [] then [] else ChopAll(ls[..|ls| - 1]) + [Chop(ls[|ls| - 1])]
  }

  predicate NewlineFree(ls: seq<string>) { forall l :: l in ls ==> '\n' !in l }

  lemma Assoc(a: string, b: string, c: string)
    ensures (a + b) + c == a + (b + c)
  {
  }

  /** A line as it stands in a file. */
  function Ended(line: string): string { line + "\n" }

  lemma {:induction false} FirstNewlineAt(line: string, rest: string)
    requires '\n' !in line
    ensures FirstNewline(Ended(line) + rest) == |line|
  {
    if line != [] {
      FirstNewlineAt(line[1..], rest);
      assert (Ended(line) + rest)[1..] == Ended(line[1..]) + rest;
    }
  }

  lemma LinesOfFirst(line: string, rest: string)
    requires '\n' !in line
    ensures Lines(Ended(line) + rest) == [Chop(line)] + Lines(rest)
  {
    var s := Ended(line) + rest;
    FirstNewlineAt(line, rest);
    assert s[..|line|] == line && s[|line| + 1..] == rest;
  }

  lemma LinesOfOne(line: string)
    requires '\n' !in line
    ensures Lines(Ended(line)) == [Chop(line)]
  {
    LinesOfFirst(line, "");
    assert Ended(line) + "" == Ended(line);
  }

  lemma LastLine(line: string)
    requires '\n' !in line && line != []
    ensures Lines(line) == [line]
  {
    assert forall i :: 0 <= i < |line| ==> line[i] in line;
  }

  lemma CrIsChopped(line: string)
    ensures Chop(line + "\r") == line && Ended(line + "\r") == line + "\r\n"
  {
    Assoc(line, "\r", "\n");
    assert "\r" + "\n" == "\r\n";
  }

  /** Both line endings end a line; a last line that no newline ends keeps all of its text. */
  lemma LineEndings(line: string, rest: string)
    requires '\n' !in line
    ensures !EndsWithCr(line) ==> Lines((line + "\n") + rest) == [line] + Lines(rest)
    ensures Lines((line + "\r\n") + rest) == [line] + Lines(rest)
    ensures line != [] ==> Lines(line) == [line]
  {
    LinesOfFirst(line, rest);
    CrIsChopped(line);
    LinesOfFirst(line + "\r", rest);
    if line != [] {
      LastLine(line);
    }
  }

  /** A text with a newline in it is a first line and a rest. */
  lemma SplitFirst(a: string)
    requires FirstNewline(a) < |a|
    ensures var n := FirstNewline(a); '\n' !in a[..n] && a == Ended(a[..n]) + a[n + 1..]
  {
    var n := FirstNewline(a);
    assert '\n' !in a[..n];
    SplitAt(a, n);
    assert [a[n]] == "\n";
  }

  lemma SplitAt(a: string, n: nat)
    requires n < |a|
    ensures a == (a[..n] + [a[n]]) + a[n + 1..]
  {
  }

  /** What follows a newline does not change the lines before it. */
  lemma {:induction false} LinesAppend(a: string, b: string)
    requires a == [] || a[|a| - 1] == '\n'
    ensures Lines(a + b) == Lines(a) + Lines(b)
    decreases |a|
  {
    if a == [] {
      assert a + b == b;
    } else {
      var n := FirstNewline(a);
      assert n < |a|;
      var line, rest := a[..n], a[n + 1..];
      LastOfRest(a, n);
      SplitFirst(a);
      LinesAppend(rest, b);
      LinesAppendFirst(line, rest, b);
      AssocLines([Chop(line)], Lines(rest), Lines(b));
    }
  }

  lemma LastOfRest(a: string, n: nat)
    requires n < |a|
    ensures var rest := a[n + 1..]; rest == [] || rest[|rest| - 1] == a[|a| - 1]
  {
  }

  lemma AssocLines(a: seq<string>, b: seq<string>, c: seq<string>)
    ensures (a + b) + c == a + (b + c)
  {
  }

  lemma LinesAppendFirst(line: string, rest: string, b: string)
    requires '\n' !in line
    ensures Lines((Ended(line) + rest) + b) == [Chop(line)] + Lines(rest + b)
    ensures Lines(Ended(line) + rest) == [Chop(line)] + Lines(rest)
  {
    Assoc(Ended(line), rest, b);
    LinesOfFirst(line, rest + b);
    LinesOfFirst(line, rest);
  }

  lemma UnlinesEnd(ls: seq<string>)
    ensures Unlines(ls) == [] <==> ls == []
    ensures ls != [] ==> Unlines(ls)[|Unlines(ls)| - 1] == '\n'
  {
  }

  lemma {:induction false} LinesAreNewlineFree(s: string)
    ensures NewlineFree(Lines(s))
    decreases |s|
  {
    if s != [] {
      var n := FirstNewline(s);
      var first, rest := s[..n], if n < |s| then s[n + 1..] else [];
      if n < |s| {
        LinesAreNewlineFree(rest);
        assert Lines(s) == [Chop(first)] + Lines(rest);
        assert '\n' !in Chop(first);
      } else {
        assert first == s;
        assert Lines(s) == [s];
      }
    }
  }

  /** Writing lines out and reading them back takes one CR off each. */
  lemma {:induction false} LinesOfUnlines(ls: seq<string>)
    requires NewlineFree(ls)
    ensures Lines(Unlines(ls)) == ChopAll(ls)
  {
    if ls != [] {
      var init, last := ls[..|ls| - 1], ls[|ls| - 1];
      LinesOfUnlines(init);
      UnlinesEnd(init);
      LinesAppend(Unlines(init), Ended(last));
      LinesOfOne(last);
    }
  }

  lemma {:induction false} ChopAllIsSame(ls: seq<string>)
    requires forall l :: l in ls ==> !EndsWithCr(l)
    ensures ChopAll(ls) == ls
  {
    if ls != [] {
      ChopAllIsSame(ls[..|ls| - 1]);
      assert ls == ls[..|ls| - 1] + [ls[|ls| - 1]];
    }
  }

  // ---- upsert_env ----

  datatype Update = Update(key: string, value: string)

  /** `single_underscore`: `replace("__", "_")`, from left to right. */
  function SingleUnderscore(key: string): string {
    if |key| >= 2 && key[0] == '_' && key[1] == '_' then "_" + SingleUnderscore(key[2..])
    else if key == [] then []
    else [key[0]] + SingleUnderscore(key[1..])
  }

  predicate PairAt(s: string, i: int) { 0 <= i && i + 1 < |s| && s[i] == '_' && s[i + 1] == '_' }

  /** The leftmost pair of underscores becomes one, and a key without a pair stays as it is. */
  lemma {:induction false} SingleUnderscoreReplaces(a: string, b: string)
    requires forall i :: 0 <= i < |a| ==> !PairAt(a + "__" + b, i)
    ensures SingleUnderscore(a + "__" + b) == a + "_" + SingleUnderscore(b)
  {
    var s := a + "__" + b;
    if a == [] {
      assert s[2..] == b;
    } else {
      assert s[1..] == a[1..] + "__" + b;
      assert !PairAt(s, 0);
      forall i | 0 <= i < |a[1..]| ensures !PairAt(a[1..] + "__" + b, i) {
        assert !PairAt(s, i + 1);
      }
      SingleUnderscoreReplaces(a[1..], b);
    }
  }

  lemma {:induction false} SingleUnderscoreFixes(key: string)
    requires forall i :: 0 <= i < |key| ==> !PairAt(key, i)
    ensures SingleUnderscore(key) == key
  {
    if key != [] {
      assert !PairAt(key, 0);
      forall i | 0 <= i < |key| - 1 ensures !PairAt(key[1..], i) {
        assert !PairAt(key, i + 1);
      }
      SingleUnderscoreFixes(key[1..]);
    }
  }

  /** What stands before the first `=`, or the whole line. */
  function KeyOf(line: string): string {
    if line == [] || line[0] == '=' then [] else [line[0]] + KeyOf(line[1..])
  }

  predicate Replaced(line: string, updates: seq<Update>) {
    exists i :: 0 <= i < |updates| && Names(KeyOf(line), updates[i])
  }

  /** A key, or its spelling with single underscores. */
  predicate Names(key: string, u: Update) { key == u.key || key == SingleUnderscore(u.key) }

  function Kept(ls: seq<string>, updates: seq<Update>): seq<string> {
    if ls == [] then []
    else
      var rest := Kept(ls[..|ls| - 1], updates);
      if Replaced(ls[|ls| - 1], updates) then rest else rest + [ls[|ls| - 1]]
  }

  function Line(u: Update): string { u.key + "=" + u.value }

  function NewLines(updates: seq<Update>): seq<string> {
    if updates == [] then [] else NewLines(updates[..|updates| - 1]) + [Line(updates[|updates| - 1])]
  }

  /** The lines of the edited file. */
  function Edited(content: string, updates: seq<Update>): seq<string> {
    Kept(Lines(content), updates) + NewLines(updates)
  }

  method UpsertEnv(content: string, updates: seq<Update>) returns (result: string)
    ensures result == Unlines(Edited(content, updates))
  {
    result := "";
    var lines := Lines(content);
    var i := 0;
    while i < |lines|
      invariant 0 <= i <= |lines|
      invariant result == Unlines(Kept(lines[..i], updates))
    {
      var line := lines[i];
      assert lines[..i + 1][..i] == lines[..i];
      if !Replaced(line, updates) {
        result := result + Ended(line);
      }
      i := i + 1;
    }
    assert lines[..i] == lines;
    ghost var kept := Kept(lines, updates);
    assert kept + NewLines(updates[..0]) == kept;
    var k := 0;
    while k < |updates|
      invariant 0 <= k <= |updates|
      invariant result == Unlines(kept + NewLines(updates[..k]))
    {
      OneMoreUpdate(kept, updates, k);
      result := result + Ended(Line(updates[k]));
      k := k + 1;
    }
    assert updates[..k] == updates;
  }

  lemma OneMoreUpdate(kept: seq<string>, updates: seq<Update>, k: nat)
    requires k < |updates|
    ensures Unlines(kept + NewLines(updates[..k + 1])) == Unlines(kept + NewLines(updates[..k])) + Ended(Line(updates[k]))
  {
    var before, after := kept + NewLines(updates[..k]), kept + NewLines(updates[..k + 1]);
    assert updates[..k + 1][..k] == updates[..k];
    assert after == before + [Line(updates[k])];
    assert after[..|after| - 1] == before;
  }

  lemma {:induction false} NewLinesLength(updates: seq<Update>)
    ensures |NewLines(updates)| == |updates|
    ensures forall i :: 0 <= i < |updates| ==> NewLines(updates)[i] == Line(updates[i])
  {
    if updates != [] {
      NewLinesLength(updates[..|updates| - 1]);
    }
  }

  /** Keys without `=` and newline, values without newline and without a CR at the end. */
  predicate Clean(u: Update) {
    '=' !in u.key && '\n' !in u.key && '\n' !in u.value && !EndsWithCr(u.value)
  }

  predicate AllClean(updates: seq<Update>) { forall i :: 0 <= i < |updates| ==> Clean(updates[i]) }

  lemma {:induction false} KeyOfLine(key: string, rest: string)
    requires '=' !in key
    ensures KeyOf(key + "=" + rest) == key
  {
    var s := key + "=" + rest;
    if key != [] {
      KeyOfLine(key[1..], rest);
      assert s[1..] == key[1..] + "=" + rest;
    }
  }

  lemma NewLinesClean(updates: seq<Update>, i: nat)
    requires AllClean(updates) && i < |updates|
    ensures |NewLines(updates)| == |updates|
    ensures var l := NewLines(updates)[i];
      '\n' !in l && !EndsWithCr(l) && KeyOf(l) == updates[i].key && Replaced(l, updates)
  {
    NewLinesLength(updates);
    var u := updates[i];
    KeyOfLine(u.key, u.value);
    var l := Line(u);
    assert l[|l| - 1] == if u.value == [] then '=' else u.value[|u.value| - 1];
    assert Names(KeyOf(l), updates[i]);
  }

  lemma {:induction false} KeptLines(ls: seq<string>, updates: seq<Update>)
    ensures forall l :: l in Kept(ls, updates) <==> l in ls && !Replaced(l, updates)
  {
    if ls != [] {
      KeptLines(ls[..|ls| - 1], updates);
      assert ls == ls[..|ls| - 1] + [ls[|ls| - 1]];
    }
  }

  lemma EditedIsNewlineFree(content: string, updates: seq<Update>)
    requires AllClean(updates)
    ensures NewlineFree(Edited(content, updates))
  {
    LinesAreNewlineFree(content);
    KeptLines(Lines(content), updates);
    NewLinesLength(updates);
    forall l | l in NewLines(updates) ensures '\n' !in l {
      var i :| 0 <= i < |updates| && NewLines(updates)[i] == l;
      NewLinesClean(updates, i);
    }
  }

  function CountKey(ls: seq<string>, key: string): nat {
    if ls == [] then 0 else CountKey(ls[..|ls| - 1], key) + if KeyOf(ls[|ls| - 1]) == key then 1 else 0
  }

  lemma {:induction false} CountKeyConcat(a: seq<string>, b: seq<string>, key: string)
    ensures CountKey(a + b, key) == CountKey(a, key) + CountKey(b, key)
  {
    if b == [] {
      assert a + b == a;
    } else {
      CountKeyConcat(a, b[..|b| - 1], key);
      assert (a + b)[..|a + b| - 1] == a + b[..|b| - 1];
    }
  }

  lemma {:induction false} CountKeyNone(ls: seq<string>, key: string)
    requires forall l :: l in ls ==> KeyOf(l) != key
    ensures CountKey(ls, key) == 0
  {
    if ls != [] {
      CountKeyNone(ls[..|ls| - 1], key);
    }
  }

  predicate DistinctKeys(updates: seq<Update>) {
    forall i, j :: 0 <= i < j < |updates| ==> updates[i].key != updates[j].key
  }

  lemma {:induction false} CountKeyNew(updates: seq<Update>, key: string)
    requires AllClean(updates) && DistinctKeys(updates)
    ensures CountKey(NewLines(updates), key) == if exists i :: 0 <= i < |updates| && updates[i].key == key then 1 else 0
  {
    if updates != [] {
      var init, last := updates[..|updates| - 1], updates[|updates| - 1];
      CountKeyNew(init, key);
      KeyOfLine(last.key, last.value);
    }
  }

  /**
   The edited file, read back: if no line that is kept ends in a CR, it has exactly the
   lines that name no updated key, in order, and then one line per update. So each updated
   key is there once, with its new value, and its other spelling is gone unless it is itself
   an updated key.
   */
  lemma UpsertReadsBack(content: string, updates: seq<Update>)
    requires AllClean(updates) && DistinctKeys(updates)
    requires forall l :: l in Kept(Lines(content), updates) ==> !EndsWithCr(l)
    ensures var ls := Lines(Unlines(Edited(content, updates)));
      && ls == Edited(content, updates)
      && (forall i :: 0 <= i < |updates| ==> Line(updates[i]) in ls && CountKey(ls, updates[i].key) == 1)
      && (forall i :: 0 <= i < |updates| && (forall j :: 0 <= j < |updates| ==> updates[j].key != SingleUnderscore(updates[i].key))
            ==> CountKey(ls, SingleUnderscore(updates[i].key)) == 0)
  {
    var ls, kept := Edited(content, updates), Kept(Lines(content), updates);
    EditedIsNewlineFree(content, updates);
    LinesOfUnlines(ls);
    NewLinesLength(updates);
    forall l | l in NewLines(updates) ensures !EndsWithCr(l) {
      var i :| 0 <= i < |updates| && NewLines(updates)[i] == l;
      NewLinesClean(updates, i);
    }
    ChopAllIsSame(ls);
    forall i | 0 <= i < |updates|
      ensures Line(updates[i]) in ls && CountKey(ls, updates[i].key) == 1
    {
      assert NewLines(updates)[i] in ls;
      CountUpdated(content, updates, i, updates[i].key);
    }
    forall i | 0 <= i < |updates| && (forall j :: 0 <= j < |updates| ==> updates[j].key != SingleUnderscore(updates[i].key))
      ensures CountKey(ls, SingleUnderscore(updates[i].key)) == 0
    {
      CountUpdated(content, updates, i, SingleUnderscore(updates[i].key));
    }
  }

  lemma CountUpdated(content: string, updates: seq<Update>, i: nat, key: string)
    requires AllClean(updates) && DistinctKeys(updates) && i < |updates| && Names(key, updates[i])
    ensures CountKey(Edited(content, updates), key) ==
      if exists j :: 0 <= j < |updates| && updates[j].key == key then 1 else 0
  {
    var kept := Kept(Lines(content), updates);
    KeptLines(Lines(content), updates);
    forall l | l in kept ensures KeyOf(l) != key {
      assert !Replaced(l, updates);
    }
    CountKeyNone(kept, key);
    CountKeyConcat(kept, NewLines(updates), key);
    CountKeyNew(updates, key);
  }

  // ---- Idempotence ----

  lemma {:induction false} KeptConcat(a: seq<string>, b: seq<string>, updates: seq<Update>)
    ensures Kept(a + b, updates) == Kept(a, updates) + Kept(b, updates)
  {
    if b == [] {
      assert a + b == a;
    } else {
      KeptConcat(a, b[..|b| - 1], updates);
      assert (a + b)[..|a + b| - 1] == a + b[..|b| - 1];
    }
  }

  lemma {:induction false} KeptNone(ls: seq<string>, updates: seq<Update>)
    requires forall l :: l in ls ==> Replaced(l, updates)
    ensures Kept(ls, updates) == []
  {
    if ls != [] {
      KeptNone(ls[..|ls| - 1], updates);
    }
  }

  lemma {:induction false} KeptAll(ls: seq<string>, updates: seq<Update>)
    requires forall l :: l in ls ==> !Replaced(l, updates)
    ensures Kept(ls, updates) == ls
  {
    if ls != [] {
      KeptAll(ls[..|ls| - 1], updates);
      assert ls == ls[..|ls| - 1] + [ls[|ls| - 1]];
    }
  }

  lemma {:induction false} ChopAllConcat(a: seq<string>, b: seq<string>)
    ensures ChopAll(a + b) == ChopAll(a) + ChopAll(b)
  {
    if b == [] {
      assert a + b == a;
    } else {
      ChopAllConcat(a, b[..|b| - 1]);
      assert (a + b)[..|a + b| - 1] == a + b[..|b| - 1];
    }
  }

  lemma {:induction false} UnlinesConcat(a: seq<string>, b: seq<string>)
    ensures Unlines(a + b) == Unlines(a) + Unlines(b)
  {
    if b == [] {
      assert a + b == a;
    } else {
      var init, last := b[..|b| - 1], b[|b| - 1];
      UnlinesConcat(a, init);
      assert (a + b)[..|a + b| - 1] == a + init;
      Assoc(Unlines(a), Unlines(init), Ended(last));
    }
  }

  /** Taking CRs off and dropping lines shortens the text, strictly if any line ended in a CR. */
  lemma {:induction false} ChoppedIsShorter(ls: seq<string>, updates: seq<Update>)
    ensures |Unlines(Kept(ChopAll(ls), updates))| <= |Unlines(ls)|
    ensures (exists l :: l in ls && EndsWithCr(l)) ==> |Unlines(Kept(ChopAll(ls), updates))| < |Unlines(ls)|
  {
    if ls != [] {
      var init, last := ls[..|ls| - 1], ls[|ls| - 1];
      ChoppedIsShorter(init, updates);
      ChoppedLast(init, last, updates);
      assert ls == init + [last];
    }
  }

  lemma UnlinesSnoc(ls: seq<string>, l: string)
    ensures |Unlines(ls + [l])| == |Unlines(ls)| + |l| + 1
  {
    assert (ls + [l])[..|ls|] == ls;
  }

  lemma ChoppedLast(init: seq<string>, last: string, updates: seq<Update>)
    ensures var kept := Kept(ChopAll(init), updates);
      Kept(ChopAll(init + [last]), updates) == if Replaced(Chop(last), updates) then kept else kept + [Chop(last)]
    ensures |Unlines(Kept(ChopAll(init + [last]), updates))| <= |Unlines(Kept(ChopAll(init), updates))| + |Chop(last)| + 1
    ensures |Unlines(init + [last])| == |Unlines(init)| + |last| + 1
  {
    var chopped := ChopAll(init);
    assert (init + [last])[..|init|] == init;
    assert ChopAll(init + [last]) == chopped + [Chop(last)];
    assert (chopped + [Chop(last)])[..|chopped|] == chopped;
    UnlinesSnoc(Kept(chopped, updates), Chop(last));
    UnlinesSnoc(init, last);
  }

  /** What a second run keeps. */
  lemma SecondRun(content: string, updates: seq<Update>)
    requires AllClean(updates)
    ensures Edited(Unlines(Edited(content, updates)), updates)
         == Kept(ChopAll(Kept(Lines(content), updates)), updates) + NewLines(updates)
  {
    var kept, added := Kept(Lines(content), updates), NewLines(updates);
    EditedIsNewlineFree(content, updates);
    LinesOfUnlines(kept + added);
    ChopAllConcat(kept, added);
    NewLinesSettled(updates);
    KeptConcat(ChopAll(kept), added, updates);
    assert Kept(ChopAll(kept), updates) + [] == Kept(ChopAll(kept), updates);
  }

  /** The written lines survive reading back, and a second run replaces all of them. */
  lemma NewLinesSettled(updates: seq<Update>)
    requires AllClean(updates)
    ensures ChopAll(NewLines(updates)) == NewLines(updates) && Kept(NewLines(updates), updates) == []
  {
    var added := NewLines(updates);
    NewLinesLength(updates);
    forall l | l in added ensures !EndsWithCr(l) && Replaced(l, updates) {
      var i :| 0 <= i < |updates| && added[i] == l;
      NewLinesClean(updates, i);
    }
    ChopAllIsSame(added);
    KeptNone(added, updates);
  }

  /** Editing twice is editing once exactly when no line that is kept ends in a CR. */
  lemma IdempotentIff(content: string, updates: seq<Update>)
    requires AllClean(updates)
    ensures var once := Unlines(Edited(content, updates));
      Unlines(Edited(once, updates)) == once
      <==> forall l :: l in Kept(Lines(content), updates) ==> !EndsWithCr(l)
  {
    var kept, added := Kept(Lines(content), updates), NewLines(updates);
    SecondRun(content, updates);
    UnlinesConcat(kept, added);
    UnlinesConcat(Kept(ChopAll(kept), updates), added);
    if forall l :: l in kept ==> !EndsWithCr(l) {
      ChopAllIsSame(kept);
      KeptLines(Lines(content), updates);
      KeptAll(kept, updates);
    } else {
      ChoppedIsShorter(kept, updates);
    }
  }

  // ---- ensure_service_env ----

  predicate StartsWith(s: string, p: string) { |p| <= |s| && s[..|p|] == p }

  predicate At(s: string, p: string, i: int) { 0 <= i <= |s| - |p| && s[i..i + |p|] == p }

  predicate Contains(s: string, p: string) { exists i :: 0 <= i <= |s| && At(s, p, i) }

  /** What follows the first `=`; empty if there is none. */
  function AfterEquals(line: string): string {
    if line == [] then [] else if line[0] == '=' then line[1..] else AfterEquals(line[1..])
  }

  function StripStart(s: string): string { if s != [] && s[0] == '"' then StripStart(s[1..]) else s }

  function StripEnd(s: string): string { if s != [] && s[|s| - 1] == '"' then StripEnd(s[..|s| - 1]) else s }

  /** `trim().trim_matches('"')` */
  function Unquote(s: string): string { StripEnd(StripStart(Trim(s))) }

  predicate ValidJwtLine(line: string) {
    StartsWith(line, "PICHOST_AUTH") && Contains(line, "JWT_SECRET=") && Bytes(Unquote(AfterEquals(line))) >= 32
  }

  predicate EnvHasValidJwt(content: string) {
    exists i :: 0 <= i < |Lines(content)| && ValidJwtLine(Lines(content)[i])
  }

  /** 64 lower-case hexadecimal digits. */
  predicate IsSecret(s: string) {
    |s| == 64 && forall i :: 0 <= i < |s| ==> '0' <= s[i] <= '9' || 'a' <= s[i] <= 'f'
  }

  const JWT_KEY := "PICHOST_AUTH__JWT_SECRET="

  function UrlLine(db: string): string { "PICHOST_DATABASE_URL=" + ("\"" + ("sqlite://" + db) + "\"") }

  function PathLine(storage: string): string { "PICHOST_STORAGE__LOCAL_BASE_PATH=" + ("\"" + storage + "\"") }

  function DefaultEnv(db: string, storage: string): string {
    Ended("PICHOST_DATABASE_MODE=sqlite") + (Ended(UrlLine(db)) + Ended(PathLine(storage)))
  }

  lemma {:induction false} AsciiBytes(s: string)
    requires forall i :: 0 <= i < |s| ==> s[i] < 0x80 as char
    ensures Bytes(s) == |s|
  {
    if s != [] {
      AsciiBytes(s[..|s| - 1]);
    }
  }

  lemma {:induction false} AfterEqualsOf(key: string, rest: string)
    requires '=' !in key
    ensures AfterEquals(key + "=" + rest) == rest
  {
    var s := key + "=" + rest;
    if key != [] {
      AfterEqualsOf(key[1..], rest);
      assert s[1..] == key[1..] + "=" + rest;
    } else {
      assert s[1..] == rest;
    }
  }

  lemma SecretIsRead(secret: string)
    requires IsSecret(secret)
    ensures Unquote(AfterEquals(JWT_KEY + secret)) == secret && Bytes(secret) == 64
  {
    assert JWT_KEY == "PICHOST_AUTH__JWT_SECRET" + "=";
    AfterEqualsOf("PICHOST_AUTH__JWT_SECRET", secret);
    assert !IsSpace(secret[0]) && !IsSpace(secret[63]);
    AsciiBytes(secret);
  }

  lemma SecretLineIsValid(secret: string)
    requires IsSecret(secret)
    ensures ValidJwtLine(JWT_KEY + secret) && '\n' !in JWT_KEY + secret && !EndsWithCr(JWT_KEY + secret)
  {
    var line := JWT_KEY + secret;
    assert line[..12] == "PICHOST_AUTH";
    assert At(line, "JWT_SECRET=", 14);
    SecretIsRead(secret);
    assert line[|line| - 1] == secret[63];
  }

  predicate AllQuotes(s: string) { forall i :: 0 <= i < |s| ==> s[i] == '"' }

  predicate QuotedOutside(s: string) { s != [] && (s[0] == '"' || s[|s| - 1] == '"') }

  lemma {:induction false} StripStartExact(s: string) returns (front: string)
    ensures s == front + StripStart(s) && AllQuotes(front)
    ensures StripStart(s) != [] ==> StripStart(s)[0] != '"'
  {
    if s != [] && s[0] == '"' {
      var f := StripStartExact(s[1..]);
      front := [s[0]] + f;
    } else {
      front := [];
    }
  }

  lemma {:induction false} StripEndExact(s: string) returns (back: string)
    ensures s == StripEnd(s) + back && AllQuotes(back)
    ensures StripEnd(s) != [] ==> StripEnd(s)[|StripEnd(s)| - 1] != '"' && StripEnd(s)[0] == s[0]
  {
    if s != [] && s[|s| - 1] == '"' {
      var b := StripEndExact(s[..|s| - 1]);
      back := b + [s[|s| - 1]];
    } else {
      back := [];
    }
  }

  /** After the white space all quotes go from both ends, and nothing else does. */
  lemma UnquoteExact(s: string) returns (front: string, back: string)
    ensures Trim(s) == front + Unquote(s) + back && AllQuotes(front) && AllQuotes(back)
    ensures !QuotedOutside(Unquote(s))
  {
    front := StripStartExact(Trim(s));
    back := StripEndExact(StripStart(Trim(s)));
    assert front + (Unquote(s) + back) == front + Unquote(s) + back;
  }

  lemma StripEndOne(v: string)
    requires !QuotedOutside(v)
    ensures StripEnd(v + "\"") == v
  {
    assert (v + "\"")[..|v|] == v;
  }

  /** A value in one pair of quotes reads as the value. */
  lemma UnquoteQuoted(v: string)
    requires !QuotedOutside(v)
    ensures Unquote("\"" + v + "\"") == v
  {
    var s := "\"" + v + "\"";
    assert !IsSpace('"') && s[0] == '"' && s[|s| - 1] == '"';
    assert Trim(s) == s;
    assert s[1..] == v + "\"";
    assert StripStart(s) == StripStart(v + "\"");
    if v == [] {
      assert v + "\"" == "\"";
      assert StripStart("\"") == [];
    } else {
      assert (v + "\"")[0] == v[0];
      StripEndOne(v);
    }
  }

  /** Printable ASCII other than the quote. */
  predicate PlainText(s: string) { forall i :: 0 <= i < |s| ==> '!' <= s[i] <= '~' && s[i] != '"' }

  lemma PlainIsRead(value: string)
    requires PlainText(value)
    ensures Unquote(value) == value && Bytes(value) == |value|
  {
    AsciiBytes(value);
    assert value != [] ==> !IsSpace(value[0]) && !IsSpace(value[|value| - 1]);
  }

  /** The service takes a secret of 32 bytes or more, in quotes or not, and none that is shorter. */
  lemma SecretLength(value: string)
    requires PlainText(value)
    ensures ValidJwtLine("PICHOST_AUTH__JWT_SECRET=" + value) <==> |value| >= 32
    ensures ValidJwtLine("PICHOST_AUTH__JWT_SECRET=\"" + value + "\"") <==> |value| >= 32
  {
    PlainIsRead(value);
    JwtLineReads(value);
    var quoted := "\"" + value + "\"";
    JwtLineReads(quoted);
    UnquoteQuoted(value);
    assert "PICHOST_AUTH__JWT_SECRET=\"" + value + "\"" == JWT_KEY + quoted;
  }

  lemma JwtLineReads(value: string)
    ensures ValidJwtLine(JWT_KEY + value) <==> Bytes(Unquote(value)) >= 32
  {
    var line := JWT_KEY + value;
    assert line[..12] == "PICHOST_AUTH";
    assert At(line, "JWT_SECRET=", 14);
    assert JWT_KEY == "PICHOST_AUTH__JWT_SECRET" + "=";
    AfterEqualsOf("PICHOST_AUTH__JWT_SECRET", value);
  }

  lemma ThreeLines(a: string, b: string, c: string)
    requires '\n' !in a && '\n' !in b && '\n' !in c && !EndsWithCr(a) && !EndsWithCr(b) && !EndsWithCr(c)
    ensures Lines(Ended(a) + (Ended(b) + Ended(c))) == [a, b, c]
  {
    LinesOfFirst(a, Ended(b) + Ended(c));
    LinesOfFirst(b, Ended(c));
    LinesOfOne(c);
  }

  lemma NotAuth(line: string)
    requires |line| >= 12 && line[8] != 'A'
    ensures !ValidJwtLine(line)
  {
    assert line[..12][8] == line[8] && "PICHOST_AUTH"[8] == 'A';
  }

  lemma QuotedLine(key: string, value: string)
    requires '\n' !in key && '\n' !in value
    ensures var line := key + "=" + ("\"" + value + "\""); '\n' !in line && !EndsWithCr(line)
  {
    var line := key + "=" + ("\"" + value + "\"");
    assert line[|line| - 1] == '"';
  }

  /** A line that can stand in a file, and not the secret's. */
  predicate OtherLine(line: string) { '\n' !in line && !EndsWithCr(line) && !ValidJwtLine(line) }

  lemma UrlLineIsOther(db: string)
    requires '\n' !in db
    ensures OtherLine(UrlLine(db))
  {
    assert "PICHOST_DATABASE_URL=" == "PICHOST_DATABASE_URL" + "=";
    QuotedLine("PICHOST_DATABASE_URL", "sqlite://" + db);
    NotAuth(UrlLine(db));
  }

  lemma PathLineIsOther(storage: string)
    requires '\n' !in storage
    ensures OtherLine(PathLine(storage))
  {
    assert "PICHOST_STORAGE__LOCAL_BASE_PATH=" == "PICHOST_STORAGE__LOCAL_BASE_PATH" + "=";
    QuotedLine("PICHOST_STORAGE__LOCAL_BASE_PATH", storage);
    NotAuth(PathLine(storage));
  }

  lemma NoSecretAmong(content: string, a: string, b: string, c: string)
    requires content == Ended(a) + (Ended(b) + Ended(c)) && OtherLine(a) && OtherLine(b) && OtherLine(c)
    ensures Lines(content) == [a, b, c] && !EnvHasValidJwt(content)
  {
    ThreeLines(a, b, c);
  }

  /** The lines of the file that the service writes where there is none. */
  lemma DefaultLines(db: string, storage: string)
    requires '\n' !in db && '\n' !in storage
    ensures Lines(DefaultEnv(db, storage)) == ["PICHOST_DATABASE_MODE=sqlite", UrlLine(db), PathLine(storage)]
    ensures !EnvHasValidJwt(DefaultEnv(db, storage))
  {
    NotAuth("PICHOST_DATABASE_MODE=sqlite");
    UrlLineIsOther(db);
    PathLineIsOther(storage);
    NoSecretAmong(DefaultEnv(db, storage), "PICHOST_DATABASE_MODE=sqlite", UrlLine(db), PathLine(storage));
  }

  /** What is read back of it: each path under its own key. */
  lemma DefaultsReadBack(db: string, storage: string)
    requires !QuotedOutside("sqlite://" + db) && !QuotedOutside(storage)
    ensures KeyOf(UrlLine(db)) == "PICHOST_DATABASE_URL" && Unquote(AfterEquals(UrlLine(db))) == "sqlite://" + db
    ensures KeyOf(PathLine(storage)) == "PICHOST_STORAGE__LOCAL_BASE_PATH"
    ensures Unquote(AfterEquals(PathLine(storage))) == storage
  {
    assert "PICHOST_DATABASE_URL=" == "PICHOST_DATABASE_URL" + "=";
    assert "PICHOST_STORAGE__LOCAL_BASE_PATH=" == "PICHOST_STORAGE__LOCAL_BASE_PATH" + "=";
    QuotedReadsBack("PICHOST_DATABASE_URL", "sqlite://" + db);
    QuotedReadsBack("PICHOST_STORAGE__LOCAL_BASE_PATH", storage);
  }

  lemma QuotedReadsBack(key: string, value: string)
    requires '=' !in key && !QuotedOutside(value)
    ensures var line := key + "=" + ("\"" + value + "\""); KeyOf(line) == key && Unquote(AfterEquals(line)) == value
  {
    KeyOfLine(key, "\"" + value + "\"");
    AfterEqualsOf(key, "\"" + value + "\"");
    UnquoteQuoted(value);
  }

  /** One valid line among the lines of a file that ends in a newline makes it pass. */
  lemma AppendedLineCounts(content: string, line: string)
    requires content == [] || content[|content| - 1] == '\n'
    requires ValidJwtLine(line) && '\n' !in line && !EndsWithCr(line)
    ensures EnvHasValidJwt(content + Ended(line))
  {
    LinesAppend(content, Ended(line));
    LinesOfOne(line);
    var ls := Lines(content + Ended(line));
    assert ls[|ls| - 1] == line;
  }

  function WithNewline(s: string): string {
    if s != [] && s[|s| - 1] == '\n' then s else Ended(s)
  }

  /** The four lines of a file that a first start has written. */
  function FirstLines(db: string, storage: string, secret: string): seq<string> {
    ["PICHOST_DATABASE_MODE=sqlite", "PICHOST_DATABASE_URL=" + ("\"" + ("sqlite://" + db) + "\""),
     "PICHOST_STORAGE__LOCAL_BASE_PATH=" + ("\"" + storage + "\""), "PICHOST_AUTH__JWT_SECRET=" + secret]
  }

  lemma DefaultEnvEnds(db: string, storage: string)
    ensures var text := DefaultEnv(db, storage); text != [] && text[|text| - 1] == '\n'
  {
  }

  lemma FirstStart(db: string, storage: string, secret: string)
    requires '\n' !in db && '\n' !in storage && IsSecret(secret)
    ensures !EnvHasValidJwt(DefaultEnv(db, storage))
    ensures Lines(WithNewline(DefaultEnv(db, storage)) + Ended(JWT_KEY + secret)) == FirstLines(db, storage, secret)
  {
    DefaultLines(db, storage);
    DefaultEnvEnds(db, storage);
    SecretLineIsValid(secret);
    LinesAppend(DefaultEnv(db, storage), Ended(JWT_KEY + secret));
    LinesOfOne(JWT_KEY + secret);
  }

  /** The text that `ensure_service_env` starts from. */
  function Base(existing: string, db: string, storage: string): string {
    if existing == [] then DefaultEnv(db, storage) else existing
  }

  /** The text that `ensure_service_env` writes, for any file and any data directory. */
  method EnsureServiceEnv(existing: string, db: string, storage: string, secret: string) returns (content: string)
    requires IsSecret(secret)
    ensures EnvHasValidJwt(content)
    ensures var base := Base(existing, db, storage);
      content == if EnvHasValidJwt(base) then base else WithNewline(base) + Ended(JWT_KEY + secret)
    ensures existing == [] && '\n' !in db && '\n' !in storage ==> Lines(content) == FirstLines(db, storage, secret)
  {
    if existing == [] && '\n' !in db && '\n' !in storage {
      FirstStart(db, storage, secret);
    }
    content := existing;
    if content == [] {
      content := DefaultEnv(db, storage);
    }
    if !EnvHasValidJwt(content) {
      if content == [] || content[|content| - 1] != '\n' {
        content := Ended(content);
      }
      SecretLineIsValid(secret);
      AppendedLineCounts(content, JWT_KEY + secret);
      content := content + Ended(JWT_KEY + secret);
    }
  }

  /** A second start of the service, with whatever secret it would draw, changes nothing. */
  method StartTwice(existing: string, db: string, storage: string, secret: string, other: string)
    returns (once: string, twice: string)
    requires IsSecret(secret) && IsSecret(other)
    ensures once == twice && EnvHasValidJwt(once)
  {
    once := EnsureServiceEnv(existing, db, storage, secret);
    assert once != [];
    twice := EnsureServiceEnv(once, db, storage, other);
  }
}
