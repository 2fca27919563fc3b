/**
 Expiry times kept as text and compared as text. The text is meant to be a timestamp as in
 section 5.1 of RFC 3339, whose fixed-width fields sort like the times they stand for. The
 Rust side writes it with the format `%Y-%m-%dT%H:%M:%fZ`, in which `%f` is the nanoseconds
 alone; SQLite reads the same format with `%f` as seconds and milliseconds. So what the
 Rust side writes has no seconds in it.
 */
module Timestamps {
  import opened Commons

  /** A time in UTC, down to nanoseconds. */
  datatype Time = Time(year: nat, month: nat, day: nat, hour: nat, minute: nat, second: nat, nanos: nat)

  predicate Civil(t: Time) {
    && t.year < 10_000 && t.month < 100 && t.day < 100 && t.hour < 100 && t.minute < 60 && t.second < 60
    && t.nanos < 1_000_000_000
  }

  // ---- Text order ----

  /** Both SQLite and Rust compare text byte by byte. */
  predicate Less(a: string, b: string) {
    b != [] && (a == [] || a[0] < b[0] || (a[0] == b[0] && Less(a[1..], b[1..])))
  }

  function Pow10(w: nat): (p: nat)
    ensures p > 0
  {
    if w == 0 then 1 else 10 * Pow10(w - 1)
  }

  function Digit(n: nat): char
    requires n < 10
  {
    '0' + n as char
  }

  /** `n` in `w` decimal digits. */
  function Digits(n: nat, w: nat): (s: string)
    ensures |s| == w
  {
    if w == 0 then "" else Digits(n / 10, w - 1) + [Digit(n % 10)]
  }

  /** Behind prefixes of one length, what follows decides only where the prefixes are the same. */
  lemma {:induction false} PrefixLess(a: string, b: string, x: string, y: string)
    requires |a| == |b|
    ensures Less(a + x, b + y) <==> Less(a, b) || (a == b && Less(x, y))
  {
    if a == [] {
      assert a + x == x && b + y == y;
    } else {
      assert (a + x)[1..] == a[1..] + x && (b + y)[1..] == b[1..] + y;
      PrefixLess(a[1..], b[1..], x, y);
      assert a == [a[0]] + a[1..] && b == [b[0]] + b[1..];
    }
  }

  lemma LessIrreflexive(a: string)
    ensures !Less(a, a)
  {
    if a != [] {
      LessIrreflexive(a[1..]);
    }
  }

  /** Numbers of one width sort as text like they sort as numbers. */
  lemma {:induction false} DigitsOrder(m: nat, n: nat, w: nat)
    requires m < Pow10(w) && n < Pow10(w)
    ensures Less(Digits(m, w), Digits(n, w)) <==> m < n
    ensures Digits(m, w) == Digits(n, w) <==> m == n
  {
    if w > 0 {
      DigitsOrder(m / 10, n / 10, w - 1);
      var x, y := [Digit(m % 10)], [Digit(n % 10)];
      PrefixLess(Digits(m / 10, w - 1), Digits(n / 10, w - 1), x, y);
      assert Less(x, y) <==> m % 10 < n % 10;
      var a, b := Digits(m, w), Digits(n, w);
      assert a[..w - 1] == Digits(m / 10, w - 1) && b[..w - 1] == Digits(n / 10, w - 1);
      assert a[w - 1] == Digit(m % 10) && b[w - 1] == Digit(n % 10);
    }
  }

  /** Fields of fixed widths, each followed by a separator. */
  function Render(fields: seq<nat>, widths: seq<nat>, separators: string): string
    requires |fields| == |widths| == |separators|
  {
    if fields == [] then ""
    else Digits(fields[0], widths[0]) + ([separators[0]] + Render(fields[1..], widths[1..], separators[1..]))
  }

  predicate FieldsLess(f: seq<nat>, g: seq<nat>)
    requires |f| == |g|
  {
    f != [] && (f[0] < g[0] || (f[0] == g[0] && FieldsLess(f[1..], g[1..])))
  }

  predicate Fits(fields: seq<nat>, widths: seq<nat>) {
    |fields| == |widths| && forall i :: 0 <= i < |fields| ==> fields[i] < Pow10(widths[i])
  }

  lemma RenderUnfolds(f: seq<nat>, widths: seq<nat>, separators: string, x: string)
    requires |f| == |widths| == |separators| && f != []
    ensures Render(f, widths, separators) + x
         == Digits(f[0], widths[0]) + ([separators[0]] + (Render(f[1..], widths[1..], separators[1..]) + x))
  {
    Assoc(Digits(f[0], widths[0]), [separators[0]] + Render(f[1..], widths[1..], separators[1..]), x);
    Assoc([separators[0]], Render(f[1..], widths[1..], separators[1..]), x);
  }

  lemma Assoc(a: string, b: string, c: string)
    ensures (a + b) + c == a + (b + c)
  {
  }

  lemma FieldOrder(a: string, b: string, separator: char, x: string, y: string)
    requires |a| == |b|
    ensures Less(a + ([separator] + x), b + ([separator] + y)) <==> Less(a, b) || (a == b && Less(x, y))
  {
    PrefixLess(a, b, [separator] + x, [separator] + y);
    PrefixLess([separator], [separator], x, y);
    LessIrreflexive([separator]);
  }

  lemma SameParts(f: seq<nat>, g: seq<nat>)
    requires f != [] && g != []
    ensures f == g <==> f[0] == g[0] && f[1..] == g[1..]
  {
    assert f == [f[0]] + f[1..] && g == [g[0]] + g[1..];
  }

  /** Zero-padded fields of fixed width are an order embedding, and what follows them decides ties. */
  lemma {:induction false} RenderOrder(f: seq<nat>, g: seq<nat>, widths: seq<nat>, separators: string, x: string, y: string)
    requires Fits(f, widths) && Fits(g, widths) && |separators| == |widths|
    ensures Less(Render(f, widths, separators) + x, Render(g, widths, separators) + y)
            <==> FieldsLess(f, g) || (f == g && Less(x, y))
    decreases |f|
  {
    if f == [] {
      assert "" + x == x && "" + y == y;
    } else {
      var f', g', ws, seps := f[1..], g[1..], widths[1..], separators[1..];
      var x', y' := Render(f', ws, seps) + x, Render(g', ws, seps) + y;
      RenderUnfolds(f, widths, separators, x);
      RenderUnfolds(g, widths, separators, y);
      DigitsOrder(f[0], g[0], widths[0]);
      FieldOrder(Digits(f[0], widths[0]), Digits(g[0], widths[0]), separators[0], x', y');
      RenderOrder(f', g', ws, seps, x, y);
      SameParts(f, g);
    }
  }

  // ---- The two formats ----

  function MinuteFields(t: Time): seq<nat> { [t.year, t.month, t.day, t.hour, t.minute] }

  const MINUTE_WIDTHS: seq<nat> := [4, 2, 2, 2, 2]

  /** The part both formats share: `YYYY-MM-DDTHH:MM:`. */
  function Head(t: Time): string { Render(MinuteFields(t), MINUTE_WIDTHS, "--T::") }

  /** chrono's `%f`: nine digits of nanoseconds. */
  function RustText(t: Time): string { Head(t) + (Digits(t.nanos, 9) + "Z") }

  /** SQLite's `%f`: seconds and milliseconds. */
  function SqliteText(t: Time): string { Head(t) + (Digits(t.second, 2) + ("." + (Digits(t.nanos / 1_000_000, 3) + "Z"))) }

  /** The digit of 10 to the power `i` stands `i` places before the end. */
  lemma {:induction false} DigitAt(n: nat, w: nat, i: nat)
    requires i < w
    ensures Digits(n, w)[w - 1 - i] == '0' + (Lead(n, i) % 10) as char
  {
    if i > 0 {
      DigitAt(n / 10, w - 1, i - 1);
    }
  }

  lemma RenderStep(f: nat, rest: seq<nat>, w: nat, widths: seq<nat>, c: char, separators: string)
    requires |rest| == |widths| == |separators|
    ensures Render([f] + rest, [w] + widths, [c] + separators) == Digits(f, w) + ([c] + Render(rest, widths, separators))
  {
    assert ([f] + rest)[1..] == rest && ([w] + widths)[1..] == widths && ([c] + separators)[1..] == separators;
  }

  /** `YYYY-MM-DDTHH:MM:`, spelled out. */
  lemma HeadSpelled(t: Time)
    ensures Head(t) == Digits(t.year, 4) + ("-" + (Digits(t.month, 2) + ("-" + (Digits(t.day, 2) + ("T"
                       + (Digits(t.hour, 2) + (":" + (Digits(t.minute, 2) + (":" + "")))))))))
  {
    RenderStep(t.minute, [], 2, [], ':', "");
    RenderStep(t.hour, [t.minute], 2, [2], ':', ":");
    RenderStep(t.day, [t.hour, t.minute], 2, [2, 2], 'T', "::");
    RenderStep(t.month, [t.day, t.hour, t.minute], 2, [2, 2, 2], '-', "T::");
    RenderStep(t.year, [t.month, t.day, t.hour, t.minute], 4, [2, 2, 2, 2], '-', "-T::");
    assert [2] + [2] == [2, 2] && [2] + [2, 2] == [2, 2, 2] && [2] + [2, 2, 2] == [2, 2, 2, 2];
    assert [4] + [2, 2, 2, 2] == MINUTE_WIDTHS;
    assert [t.minute] + [] == [t.minute] && [t.hour] + [t.minute] == [t.hour, t.minute];
    assert [t.day] + [t.hour, t.minute] == [t.day, t.hour, t.minute];
    assert [t.month] + [t.day, t.hour, t.minute] == [t.month, t.day, t.hour, t.minute];
    assert [t.year] + [t.month, t.day, t.hour, t.minute] == MinuteFields(t);
    assert [':'] + "" == ":" && [':'] + ":" == "::" && ['T'] + "::" == "T::" && ['-'] + "T::" == "-T::";
    assert ['-'] + "-T::" == "--T::";
  }

  predicate SameMinute(a: Time, b: Time) { MinuteFields(a) == MinuteFields(b) }

  predicate EarlierMinute(a: Time, b: Time) { FieldsLess(MinuteFields(a), MinuteFields(b)) }

  /** True time. */
  predicate Before(a: Time, b: Time) {
    EarlierMinute(a, b) ||
    (SameMinute(a, b) && (a.second < b.second || (a.second == b.second && a.nanos < b.nanos)))
  }

  lemma Powers()
    ensures Pow10(2) == 100 && Pow10(3) == 1000 && Pow10(4) == 10_000 && Pow10(9) == 1_000_000_000
  {
    assert Pow10(1) == 10;
    assert Pow10(2) == 100;
    assert Pow10(3) == 1000;
    assert Pow10(4) == 10_000;
    assert Pow10(5) == 100_000;
    assert Pow10(6) == 1_000_000;
    assert Pow10(7) == 10_000_000;
    assert Pow10(8) == 100_000_000;
  }

  lemma HeadOrder(a: Time, b: Time, x: string, y: string)
    requires Civil(a) && Civil(b)
    ensures Less(Head(a) + x, Head(b) + y) <==> EarlierMinute(a, b) || (SameMinute(a, b) && Less(x, y))
  {
    Powers();
    RenderOrder(MinuteFields(a), MinuteFields(b), MINUTE_WIDTHS, "--T::", x, y);
  }

  /** `n` without its last `k` digits. */
  function Lead(n: nat, k: nat): nat { if k == 0 then n else Lead(n / 10, k - 1) }

  lemma {:induction false} DigitsSplit(n: nat, w: nat, k: nat)
    ensures Digits(n, w + k) == Digits(Lead(n, k), w) + Digits(n, k)
  {
    if k > 0 {
      DigitsSplit(n / 10, w, k - 1);
      Assoc(Digits(Lead(n, k), w), Digits(n / 10, k - 1), [Digit(n % 10)]);
    } else {
      assert Digits(n, w) == Digits(n, w) + "";
    }
  }

  lemma LeadOfSeven(n: nat)
    ensures Lead(n, 7) == n / 10_000_000
  {
    assert Lead(n, 7) == Lead(n / 10, 6);
    assert Lead(n / 10, 6) == Lead(n / 100, 5);
    assert Lead(n / 100, 5) == Lead(n / 1000, 4);
    assert Lead(n / 1000, 4) == Lead(n / 10_000, 3);
    assert Lead(n / 10_000, 3) == Lead(n / 100_000, 2);
    assert Lead(n / 100_000, 2) == Lead(n / 1_000_000, 1);
  }

  // ---- What the comparisons decide ----

  /** Within a minute, text written by Rust against SQLite's clock: its first two nanosecond digits against the seconds. */
  lemma TailOrder(second: nat, millis: string, nanos: nat)
    requires second < 60 && nanos < 1_000_000_000
    ensures Less(Digits(second, 2) + ("." + millis), Digits(nanos, 9) + "Z") <==> second <= nanos / 10_000_000
  {
    Powers();
    DigitsSplit(nanos, 2, 7);
    LeadOfSeven(nanos);
    var q := nanos / 10_000_000;
    Assoc(Digits(q, 2), Digits(nanos, 7), "Z");
    PrefixLess(Digits(second, 2), Digits(q, 2), "." + millis, Digits(nanos, 7) + "Z");
    DigitsOrder(second, q, 2);
    FirstDigit(nanos, 7);
    assert (Digits(nanos, 7) + "Z")[0] == Digits(nanos, 7)[0];
  }

  lemma {:induction false} FirstDigit(n: nat, w: nat)
    requires w > 0
    ensures '0' <= Digits(n, w)[0] <= '9'
  {
    if w > 1 {
      FirstDigit(n / 10, w - 1);
    }
  }

  /** `expires_at > now` with a Rust expiry and SQLite's clock: right about the minute, and inside one minute about nothing. */
  lemma SqliteClockDecides(expires: Time, now: Time)
    requires Civil(expires) && Civil(now)
    ensures Less(SqliteText(now), RustText(expires))
            <==> EarlierMinute(now, expires) || (SameMinute(now, expires) && now.second <= expires.nanos / 10_000_000)
  {
    var millis := Digits(now.nanos / 1_000_000, 3) + "Z";
    HeadOrder(now, expires, Digits(now.second, 2) + ("." + millis), Digits(expires.nanos, 9) + "Z");
    TailOrder(now.second, millis, expires.nanos);
  }

  /** Both sides written by Rust: inside one minute the nanoseconds decide, whatever the seconds are. */
  lemma RustClockDecides(expires: Time, now: Time)
    requires Civil(expires) && Civil(now)
    ensures Less(RustText(now), RustText(expires))
            <==> EarlierMinute(now, expires) || (SameMinute(now, expires) && now.nanos < expires.nanos)
  {
    Powers();
    HeadOrder(now, expires, Digits(now.nanos, 9) + "Z", Digits(expires.nanos, 9) + "Z");
    PrefixLess(Digits(now.nanos, 9), Digits(expires.nanos, 9), "Z", "Z");
    DigitsOrder(now.nanos, expires.nanos, 9);
    LessIrreflexive("Z");
  }

  /** Had Rust written SQLite's format, text order would be true order to the millisecond. */
  lemma OneFormatWouldDecide(a: Time, b: Time)
    requires Civil(a) && Civil(b)
    ensures Less(SqliteText(a), SqliteText(b))
            <==> Before(a.(nanos := a.nanos / 1_000_000), b.(nanos := b.nanos / 1_000_000))
  {
    Powers();
    var x, y := Digits(a.nanos / 1_000_000, 3) + "Z", Digits(b.nanos / 1_000_000, 3) + "Z";
    HeadOrder(a, b, Digits(a.second, 2) + ("." + x), Digits(b.second, 2) + ("." + y));
    PrefixLess(Digits(a.second, 2), Digits(b.second, 2), "." + x, "." + y);
    DigitsOrder(a.second, b.second, 2);
    PrefixLess(".", ".", x, y);
    LessIrreflexive(".");
    PrefixLess(Digits(a.nanos / 1_000_000, 3), Digits(b.nanos / 1_000_000, 3), "Z", "Z");
    DigitsOrder(a.nanos / 1_000_000, b.nanos / 1_000_000, 3);
    LessIrreflexive("Z");
  }

  /** Nanoseconds into the minute. */
  function Offset(t: Time): int { t.second * 1_000_000_000 + t.nanos }

  lemma MinutesTotal(f: seq<nat>, g: seq<nat>)
    requires |f| == |g|
    ensures FieldsLess(f, g) || FieldsLess(g, f) || f == g
    ensures !(FieldsLess(f, g) && FieldsLess(g, f)) && !(f == g && FieldsLess(f, g))
  {
    if f != [] {
      MinutesTotal(f[1..], g[1..]);
      assert f == [f[0]] + f[1..] && g == [g[0]] + g[1..];
    }
  }

  /**
   Both comparisons agree with true time when the two times lie in different minutes. So
   where one is wrong, the times are less than 60 seconds apart.
   */
  lemma WrongByLessThanAMinute(expires: Time, now: Time)
    requires Civil(expires) && Civil(now)
    ensures !SameMinute(expires, now) ==>
      (Less(SqliteText(now), RustText(expires)) <==> Before(now, expires))
      && (Less(RustText(now), RustText(expires)) <==> Before(now, expires))
    ensures !(Less(SqliteText(now), RustText(expires)) <==> Before(now, expires))
            || !(Less(RustText(now), RustText(expires)) <==> Before(now, expires)) ==>
      SameMinute(expires, now) && -60_000_000_000 < Offset(expires) - Offset(now) < 60_000_000_000
  {
    SqliteClockDecides(expires, now);
    RustClockDecides(expires, now);
    MinutesTotal(MinuteFields(now), MinuteFields(expires));
  }

  /** And both kinds of error happen: an expiry 40 s ahead counts as past, one 44 s ago as to come. */
  lemma BothErrorsHappen()
    ensures var now, expires := Time(2026, 8, 9, 10, 0, 10, 500_000_000), Time(2026, 8, 9, 10, 0, 50, 0);
      Before(now, expires) && !Less(SqliteText(now), RustText(expires)) && !Less(RustText(now), RustText(expires))
    ensures var now, expires := Time(2026, 8, 9, 10, 0, 50, 0), Time(2026, 8, 9, 10, 0, 5, 990_000_000);
      Before(expires, now) && Less(SqliteText(now), RustText(expires)) && Less(RustText(now), RustText(expires))
  {
    var n1, e1 := Time(2026, 8, 9, 10, 0, 10, 500_000_000), Time(2026, 8, 9, 10, 0, 50, 0);
    SqliteClockDecides(e1, n1);
    RustClockDecides(e1, n1);
    MinutesTotal(MinuteFields(n1), MinuteFields(e1));
    var n2, e2 := Time(2026, 8, 9, 10, 0, 50, 0), Time(2026, 8, 9, 10, 0, 5, 990_000_000);
    SqliteClockDecides(e2, n2);
    RustClockDecides(e2, n2);
  }

  // ---- The stores ----

  class SqliteBlacklist {
    var rows: map<string, string>
    ghost var until: map<string, Time>   // the expiry that each row was written for

    ghost predicate Valid()
      reads this
    {
      rows.Keys == until.Keys && forall jti :: jti in rows ==> Civil(until[jti]) && rows[jti] == RustText(until[jti])
    }

    constructor ()
      ensures Valid() && rows == map[]
    {
      rows, until := map[], map[];
    }

    method Revoke(jti: string, expires: Time)
      requires Valid() && Civil(expires)
      modifies this
      ensures Valid() && until == old(until)[jti := expires]
    {
      rows, until := rows[jti := RustText(expires)], until[jti := expires];
    }

    /** Right to the minute. */
    method Check(jti: string, now: Time) returns (revoked: bool)
      requires Valid() && Civil(now)
      ensures jti !in until ==> !revoked
      ensures jti in until && !SameMinute(until[jti], now) ==> (revoked <==> Before(now, until[jti]))
      ensures jti in until && SameMinute(until[jti], now) ==> (revoked <==> now.second <= until[jti].nanos / 10_000_000)
    {
      revoked := jti in rows && Less(SqliteText(now), rows[jti]);
      if jti in rows {
        SqliteClockDecides(until[jti], now);
        WrongByLessThanAMinute(until[jti], now);
        MinutesTotal(MinuteFields(now), MinuteFields(until[jti]));
      }
    }
  }

  datatype Invite = Invite(expiresAt: string, usedBy: Option<int>)

  datatype Status = NotFound | Used | Expired | Usable

  class SqliteInviteStore {
    var rows: map<string, Invite>
    ghost var until: map<string, Time>

    ghost predicate Valid()
      reads this
    {
      rows.Keys == until.Keys && forall code :: code in rows ==> Civil(until[code]) && rows[code].expiresAt == RustText(until[code])
    }

    ghost predicate Open(code: string)
      reads this
    {
      code in rows && rows[code].usedBy == None
    }

    constructor ()
      ensures Valid() && rows == map[]
    {
      rows, until := map[], map[];
    }

    /** A code that exists already is an error and stays as it is. */
    method Create(code: string, expires: Time) returns (ok: bool)
      requires Valid() && Civil(expires)
      modifies this
      ensures Valid() && (ok <==> code !in old(rows))
      ensures ok ==> rows == old(rows)[code := Invite(RustText(expires), None)] && until == old(until)[code := expires]
      ensures !ok ==> rows == old(rows) && until == old(until)
    {
      if code in rows {
        return false;
      }
      rows, until := rows[code := Invite(RustText(expires), None)], until[code := expires];
      return true;
    }

    method Verify(code: string, now: Time) returns (ok: bool)
      requires Valid() && Civil(now)
      ensures ok ==> Open(code)
      ensures Open(code) && !SameMinute(until[code], now) ==> (ok <==> Before(now, until[code]))
      ensures Open(code) && SameMinute(until[code], now) ==> (ok <==> now.second <= until[code].nanos / 10_000_000)
    {
      ok := code in rows && rows[code].usedBy == None && Less(SqliteText(now), rows[code].expiresAt);
      if code in rows {
        SqliteClockDecides(until[code], now);
        WrongByLessThanAMinute(until[code], now);
        MinutesTotal(MinuteFields(now), MinuteFields(until[code]));
      }
    }

    /** Compares with Rust's clock, so inside a minute it may answer otherwise than `Verify`. */
    method VerifyDetail(code: string, now: Time) returns (status: Status)
      requires Valid() && Civil(now)
      ensures status == NotFound <==> code !in rows
      ensures status == Used <==> code in rows && rows[code].usedBy.Some?
      ensures Open(code) && !SameMinute(until[code], now) ==> status == if Before(now, until[code]) then Usable else Expired
      ensures Open(code) && SameMinute(until[code], now) ==> status == if now.nanos < until[code].nanos then Usable else Expired
    {
      if code !in rows {
        return NotFound;
      }
      if rows[code].usedBy.Some? {
        return Used;
      }
      RustClockDecides(until[code], now);
      WrongByLessThanAMinute(until[code], now);
      MinutesTotal(MinuteFields(now), MinuteFields(until[code]));
      return if !Less(RustText(now), rows[code].expiresAt) then Expired else Usable;
    }

    /** Takes a code once, expired or not. */
    method Consume(code: string, user: int) returns (ok: bool)
      requires Valid()
      modifies this
      ensures Valid() && until == old(until)
      ensures ok <==> old(Open(code))
      ensures ok ==> rows == old(rows)[code := Invite(old(rows)[code].expiresAt, Some(user))] && !Open(code)
      ensures !ok ==> rows == old(rows)
    {
      if code !in rows || rows[code].usedBy.Some? {
        return false;
      }
      rows := rows[code := rows[code].(usedBy := Some(user))];
      return true;
    }
  }
}
