/**
 Access and refresh tokens over a blacklist whose entries expire. Time is in milliseconds;
 tokens carry `exp` in whole seconds (section 4.1.4 of RFC 7519), and a decoder accepts them
 up to a leeway later. Requests run one at a time.
 */
module Tokens {
  import opened Commons

  type Jti = int

  /** The part of a token that revocation looks at. */
  datatype Token = Token(jti: Jti, exp: nat)

  /** A refresh token names the access token it was issued with. */
  datatype RefreshToken = RefreshToken(own: Token, access: Token)

  /** Lifetimes and leeway, in seconds. */
  datatype Config = Config(accessTtl: nat, refreshTtl: nat, leeway: nat)

  datatype Denial = Expired | Revoked | NoUser

  type Blacklist = map<Jti, nat>

  /** The clock, the blacklist, and (for the proofs) the tokens issued so far. */
  datatype Auth = Auth(now: nat, blacklist: Blacklist, access: set<Token>, refresh: set<RefreshToken>)

  const INIT := Auth(0, map[], {}, {})

  function Seconds(now: nat): nat { now / 1000 }

  /** `saturating_sub` */
  function Remaining(exp: nat, now: nat): nat {
    if exp > Seconds(now) then exp - Seconds(now) else 0
  }

  /** `generate_tokens` with two new ids. */
  function Generate(cfg: Config, now: nat, accessJti: Jti, refreshJti: Jti): RefreshToken {
    RefreshToken(Token(refreshJti, Seconds(now) + cfg.refreshTtl), Token(accessJti, Seconds(now) + cfg.accessTtl))
  }

  /** SETEX refuses a lifetime of zero, and nobody looks at the error. */
  function Revoke(bl: Blacklist, jti: Jti, ttl: nat, now: nat, works: bool): Blacklist {
    if works && ttl > 0 then bl[jti := now + 1000 * ttl] else bl
  }

  /** Revoking a token for the rest of its life, as `logout` does. */
  function Retire(bl: Blacklist, t: Token, now: nat, works: bool): Blacklist {
    if Remaining(t.exp, now) > 0 then Revoke(bl, t.jti, Remaining(t.exp, now), now, works) else bl
  }

  /** EXISTS; the callers take a failing check for a revoked token. */
  predicate IsRevoked(s: Auth, jti: Jti, checkWorks: bool) {
    !checkWorks || (jti in s.blacklist && s.now < s.blacklist[jti])
  }

  predicate IsExpired(cfg: Config, s: Auth, exp: nat) { Seconds(s.now) > exp + cfg.leeway }

  /** `revoke_old_tokens` */
  function RevokeOldTokens(bl: Blacklist, t: RefreshToken, now: nat, refreshWorks: bool, accessWorks: bool): Blacklist {
    var bl' := Revoke(bl, t.own.jti, Remaining(t.own.exp, now), now, refreshWorks);
    Retire(bl', t.access, now, accessWorks)
  }

  function Issue(s: Auth, t: RefreshToken): Auth {
    s.(access := s.access + {t.access}, refresh := s.refresh + {t})
  }

  /** What `refresh` answers. */
  function RefreshAnswer(cfg: Config, s: Auth, t: RefreshToken, accessJti: Jti, refreshJti: Jti, checkWorks: bool, userFound: bool)
    : Result<RefreshToken, Denial>
  {
    if IsExpired(cfg, s, t.own.exp) then Err(Expired)
    else if IsRevoked(s, t.own.jti, checkWorks) then Err(Revoked)
    else if !userFound then Err(NoUser)
    else Ok(Generate(cfg, s.now, accessJti, refreshJti))
  }

  /** `require_auth`, as far as the token goes. */
  predicate Accepts(cfg: Config, s: Auth, t: Token, checkWorks: bool) {
    !IsExpired(cfg, s, t.exp) && !IsRevoked(s, t.jti, checkWorks)
  }

  // ---- Runs ----

  datatype Step =
    | Login(accessJti: Jti, refreshJti: Jti)
    | Refresh(t: RefreshToken, accessJti: Jti, refreshJti: Jti, checkWorks: bool, userFound: bool,
              refreshWorks: bool, accessWorks: bool)
    | Logout(a: Token, accessWorks: bool)
    | Tick(ms: nat)

  predicate Used(s: Auth, jti: Jti) {
    (exists a :: a in s.access && a.jti == jti) || exists t :: t in s.refresh && t.own.jti == jti
  }

  /** Requests carry tokens that were issued, and new ids have not been used before. */
  predicate Can(s: Auth, step: Step) {
    match step
    case Login(aj, rj) => NewIds(s, aj, rj)
    case Refresh(t, aj, rj, _, _, _, _) => t in s.refresh && NewIds(s, aj, rj)
    case Logout(a, _) => a in s.access
    case Tick(_) => true
  }

  predicate NewIds(s: Auth, aj: Jti, rj: Jti) { aj != rj && !Used(s, aj) && !Used(s, rj) }

  function Redeems(cfg: Config, s: Auth, step: Step): bool
    requires step.Refresh?
  {
    RefreshAnswer(cfg, s, step.t, step.accessJti, step.refreshJti, step.checkWorks, step.userFound).Ok?
  }

  function Next(cfg: Config, s: Auth, step: Step): Auth {
    match step
    case Login(aj, rj) => Issue(s, Generate(cfg, s.now, aj, rj))
    case Refresh(t, aj, rj, checkWorks, userFound, refreshWorks, accessWorks) =>
      (match RefreshAnswer(cfg, s, t, aj, rj, checkWorks, userFound)
       case Err(_) => s
       case Ok(pair) =>
         Issue(s, pair).(blacklist := RevokeOldTokens(s.blacklist, t, s.now, refreshWorks, accessWorks)))
    case Logout(a, accessWorks) =>
      s.(blacklist := Retire(s.blacklist, a, s.now, accessWorks))
    case Tick(ms) => s.(now := s.now + ms)
  }

  /** The ids that this step is asked to revoke, where the blacklist took it. */
  function Spends(cfg: Config, s: Auth, step: Step): set<Jti> {
    match step
    case Refresh(t, _, _, _, _, refreshWorks, accessWorks) =>
      if Redeems(cfg, s, step)
      then (if refreshWorks then {t.own.jti} else {}) + (if accessWorks then {t.access.jti} else {})
      else {}
    case Logout(a, accessWorks) => if accessWorks then {a.jti} else {}
    case _ => {}
  }

  /** A run: `states[i]` is the state before `steps[i]`. */
  ghost predicate Runs(cfg: Config, states: seq<Auth>, steps: seq<Step>) {
    && |states| == |steps| + 1 && states[0] == INIT
    && forall i :: 0 <= i < |steps| ==> Can(states[i], steps[i]) && states[i + 1] == Next(cfg, states[i], steps[i])
  }

  /** All ids revoked in the first `n` steps. */
  function Spent(cfg: Config, states: seq<Auth>, steps: seq<Step>, n: nat): set<Jti>
    requires n <= |steps| < |states|
  {
    if n == 0 then {} else Spent(cfg, states, steps, n - 1) + Spends(cfg, states[n - 1], steps[n - 1])
  }

  // ---- What every run keeps ----

  /** An id belongs to one token, and a refresh token's access token was issued. */
  ghost predicate Keyed(s: Auth) {
    && (forall a, b :: a in s.access && b in s.access && a.jti == b.jti ==> a == b)
    && (forall t, u :: t in s.refresh && u in s.refresh && t.own.jti == u.own.jti ==> t == u)
    && (forall t :: t in s.refresh ==> t.access in s.access)
    && (forall a, t :: a in s.access && t in s.refresh ==> a.jti != t.own.jti)
  }

  /** An entry lives until its token expires and less than a second longer; until then it is there iff the id was revoked. */
  predicate EntryOk(s: Auth, spent: set<Jti>, t: Token) {
    && (t.jti in s.blacklist ==> 1000 * t.exp <= s.blacklist[t.jti] < 1000 * t.exp + 1000)
    && (s.now < 1000 * t.exp ==> (t.jti in s.blacklist <==> t.jti in spent))
  }

  ghost predicate Inv(s: Auth, spent: set<Jti>) {
    && Keyed(s)
    && (forall a :: a in s.access ==> EntryOk(s, spent, a))
    && (forall t :: t in s.refresh ==> EntryOk(s, spent, t.own))
    && (forall jti :: jti in s.blacklist || jti in spent ==> Used(s, jti))
  }

  function SpentWith(spent: set<Jti>, t: Token, works: bool): set<Jti> {
    if works then spent + {t.jti} else spent
  }

  /** The entry that revoking a token writes. */
  lemma RevokeCovers(exp: nat, now: nat)
    ensures Remaining(exp, now) > 0 <==> now < 1000 * exp
    ensures now < 1000 * exp ==> 1000 * exp <= now + 1000 * Remaining(exp, now) < 1000 * exp + 1000
  {
  }

  lemma RevokeKeepsEntry(s: Auth, spent: set<Jti>, r: Token, works: bool, t: Token)
    requires EntryOk(s, spent, t) && (t.jti == r.jti ==> t == r)
    ensures EntryOk(s.(blacklist := Retire(s.blacklist, r, s.now, works)), SpentWith(spent, r, works), t)
  {
    RevokeCovers(r.exp, s.now);
  }

  /** Revoking an issued token keeps everything. */
  lemma RevokeKeepsInv(s: Auth, spent: set<Jti>, r: Token, works: bool)
    requires Inv(s, spent) && (r in s.access || exists t :: t in s.refresh && t.own == r)
    ensures Inv(s.(blacklist := Retire(s.blacklist, r, s.now, works)), SpentWith(spent, r, works))
  {
    var s', spent' := s.(blacklist := Retire(s.blacklist, r, s.now, works)), SpentWith(spent, r, works);
    forall a | a in s'.access ensures EntryOk(s', spent', a) {
      RevokeKeepsEntry(s, spent, r, works, a);
    }
    forall t | t in s'.refresh ensures EntryOk(s', spent', t.own) {
      RevokeKeepsEntry(s, spent, r, works, t.own);
    }
    forall jti | jti in s'.blacklist || jti in spent' ensures Used(s', jti) {
      assert jti != r.jti ==> Used(s, jti);
    }
  }

  lemma IssueKeepsInv(cfg: Config, s: Auth, spent: set<Jti>, aj: Jti, rj: Jti)
    requires Inv(s, spent) && NewIds(s, aj, rj)
    ensures Inv(Issue(s, Generate(cfg, s.now, aj, rj)), spent)
  {
    var t := Generate(cfg, s.now, aj, rj);
    var s' := Issue(s, t);
    forall jti | jti in s'.blacklist || jti in spent ensures Used(s', jti) {
      assert Used(s, jti);
      if a :| a in s.access && a.jti == jti {
        assert a in s'.access;
      } else {
        var u :| u in s.refresh && u.own.jti == jti;
        assert u in s'.refresh;
      }
    }
    assert EntryOk(s', spent, t.own) && EntryOk(s', spent, t.access);
  }

  lemma RotateKeepsInv(s: Auth, spent: set<Jti>, t: RefreshToken, refreshWorks: bool, accessWorks: bool)
    requires Inv(s, spent) && t in s.refresh
    ensures Inv(s.(blacklist := RevokeOldTokens(s.blacklist, t, s.now, refreshWorks, accessWorks)),
                SpentWith(SpentWith(spent, t.own, refreshWorks), t.access, accessWorks))
  {
    RevokeKeepsInv(s, spent, t.own, refreshWorks);
    var s' := s.(blacklist := Retire(s.blacklist, t.own, s.now, refreshWorks));
    RevokeKeepsInv(s', SpentWith(spent, t.own, refreshWorks), t.access, accessWorks);
    assert RevokeOldTokens(s.blacklist, t, s.now, refreshWorks, accessWorks) == Retire(s'.blacklist, t.access, s.now, accessWorks);
  }

  lemma RefreshKeepsInv(cfg: Config, s: Auth, spent: set<Jti>, step: Step)
    requires Inv(s, spent) && Can(s, step) && step.Refresh?
    ensures Inv(Next(cfg, s, step), spent + Spends(cfg, s, step))
  {
    var t := step.t;
    if Redeems(cfg, s, step) {
      IssueKeepsInv(cfg, s, spent, step.accessJti, step.refreshJti);
      RotateKeepsInv(Issue(s, Generate(cfg, s.now, step.accessJti, step.refreshJti)), spent, t, step.refreshWorks, step.accessWorks);
      assert spent + Spends(cfg, s, step) == SpentWith(SpentWith(spent, t.own, step.refreshWorks), t.access, step.accessWorks);
    } else {
      assert spent + Spends(cfg, s, step) == spent;
    }
  }

  lemma TickKeepsInv(s: Auth, spent: set<Jti>, ms: nat)
    requires Inv(s, spent)
    ensures Inv(s.(now := s.now + ms), spent)
  {
    var s' := s.(now := s.now + ms);
    forall a | a in s'.access ensures EntryOk(s', spent, a) {
      assert EntryOk(s, spent, a);
    }
    forall t | t in s'.refresh ensures EntryOk(s', spent, t.own) {
      assert EntryOk(s, spent, t.own);
    }
    forall jti | jti in s'.blacklist || jti in spent ensures Used(s', jti) {
      assert Used(s, jti);
    }
  }

  lemma StepKeepsInv(cfg: Config, s: Auth, spent: set<Jti>, step: Step)
    requires Inv(s, spent) && Can(s, step)
    ensures Inv(Next(cfg, s, step), spent + Spends(cfg, s, step))
  {
    var spent' := spent + Spends(cfg, s, step);
    match step
    case Login(aj, rj) =>
      IssueKeepsInv(cfg, s, spent, aj, rj);
      assert spent' == spent;
    case Refresh(_, _, _, _, _, _, _) =>
      RefreshKeepsInv(cfg, s, spent, step);
    case Logout(a, accessWorks) =>
      RevokeKeepsInv(s, spent, a, accessWorks);
      assert spent' == SpentWith(spent, a, accessWorks);
    case Tick(ms) =>
      TickKeepsInv(s, spent, ms);
      assert spent' == spent;
  }

  lemma {:induction false} RunKeepsInv(cfg: Config, states: seq<Auth>, steps: seq<Step>, n: nat)
    requires Runs(cfg, states, steps) && n <= |steps|
    ensures Inv(states[n], Spent(cfg, states, steps, n))
  {
    if n > 0 {
      RunKeepsInv(cfg, states, steps, n - 1);
      StepKeepsInv(cfg, states[n - 1], Spent(cfg, states, steps, n - 1), steps[n - 1]);
    }
  }

  lemma AccessEntry(cfg: Config, states: seq<Auth>, steps: seq<Step>, n: nat, a: Token)
    requires Runs(cfg, states, steps) && n <= |steps| && a in states[n].access
    ensures EntryOk(states[n], Spent(cfg, states, steps, n), a)
  {
    RunKeepsInv(cfg, states, steps, n);
  }

  lemma RefreshEntry(cfg: Config, states: seq<Auth>, steps: seq<Step>, n: nat, t: RefreshToken)
    requires Runs(cfg, states, steps) && n <= |steps| && t in states[n].refresh
    ensures EntryOk(states[n], Spent(cfg, states, steps, n), t.own)
  {
    RunKeepsInv(cfg, states, steps, n);
  }

  // ---- The main results ----

  /** Before its `exp` an access token is accepted exactly when no earlier request revoked it; after the leeway never. */
  lemma AccessAcceptedIffUnspent(cfg: Config, states: seq<Auth>, steps: seq<Step>, n: nat, a: Token)
    requires Runs(cfg, states, steps) && n <= |steps| && a in states[n].access
    ensures Seconds(states[n].now) < a.exp ==>
      (Accepts(cfg, states[n], a, true) <==> a.jti !in Spent(cfg, states, steps, n))
    ensures Seconds(states[n].now) > a.exp + cfg.leeway ==> !Accepts(cfg, states[n], a, true)
  {
    AccessEntry(cfg, states, steps, n, a);
    RevokeCovers(a.exp, states[n].now);
  }

  /** The same for redeeming a refresh token of a user who exists. */
  lemma RefreshAcceptedIffUnspent(cfg: Config, states: seq<Auth>, steps: seq<Step>, n: nat, t: RefreshToken, aj: Jti, rj: Jti)
    requires Runs(cfg, states, steps) && n <= |steps| && t in states[n].refresh
    ensures Seconds(states[n].now) < t.own.exp ==>
      (RefreshAnswer(cfg, states[n], t, aj, rj, true, true).Ok? <==> t.own.jti !in Spent(cfg, states, steps, n))
    ensures Seconds(states[n].now) > t.own.exp + cfg.leeway ==>
      RefreshAnswer(cfg, states[n], t, aj, rj, true, true) == Err(Expired)
  {
    RefreshEntry(cfg, states, steps, n, t);
    RevokeCovers(t.own.exp, states[n].now);
  }

  /** The blacklist has an entry of the id that has not expired. */
  predicate LiveEntry(s: Auth, jti: Jti) { jti in s.blacklist && s.now < s.blacklist[jti] }

  /**
   A refresh token is redeemed if and only if it is not past `exp` and the leeway, the check of
   the blacklist worked and found no live entry, and its user exists. A refused one changes
   nothing.
   */
  lemma RedeemedIff(cfg: Config, s: Auth, t: RefreshToken, aj: Jti, rj: Jti, checkWorks: bool, userFound: bool,
                    refreshWorks: bool, accessWorks: bool)
    ensures var redeemed := s.now / 1000 <= t.own.exp + cfg.leeway && checkWorks && !LiveEntry(s, t.own.jti) && userFound;
      && (RefreshAnswer(cfg, s, t, aj, rj, checkWorks, userFound).Ok? <==> redeemed)
      && (!redeemed ==> Next(cfg, s, Refresh(t, aj, rj, checkWorks, userFound, refreshWorks, accessWorks)) == s)
  {
  }

  /** In runs, before its `exp`: if and only if it is unspent, the check worked and the user exists. */
  lemma RedeemedInRunsIff(
      cfg: Config, states: seq<Auth>, steps: seq<Step>, n: nat, t: RefreshToken, aj: Jti, rj: Jti, checkWorks: bool, userFound: bool)
    requires Runs(cfg, states, steps) && n <= |steps| && t in states[n].refresh && Seconds(states[n].now) < t.own.exp
    ensures RefreshAnswer(cfg, states[n], t, aj, rj, checkWorks, userFound).Ok?
            <==> userFound && checkWorks && t.own.jti !in Spent(cfg, states, steps, n)
  {
    RefreshEntry(cfg, states, steps, n, t);
    RevokeCovers(t.own.exp, states[n].now);
  }

  lemma {:induction false} SpentGrows(cfg: Config, states: seq<Auth>, steps: seq<Step>, m: nat, n: nat)
    requires m <= n <= |steps| < |states|
    ensures Spent(cfg, states, steps, m) <= Spent(cfg, states, steps, n)
  {
    if m < n {
      SpentGrows(cfg, states, steps, m, n - 1);
    }
  }

  lemma {:induction false} IssuedGrows(cfg: Config, states: seq<Auth>, steps: seq<Step>, m: nat, n: nat)
    requires Runs(cfg, states, steps) && m <= n <= |steps|
    ensures states[m].access <= states[n].access && states[m].refresh <= states[n].refresh
    ensures states[m].now <= states[n].now
  {
    if m < n {
      IssuedGrows(cfg, states, steps, m, n - 1);
    }
  }

  /** A refresh token is redeemed at most once before its `exp`. */
  lemma RedeemedAtMostOnce(cfg: Config, states: seq<Auth>, steps: seq<Step>, i: nat, j: nat)
    requires Runs(cfg, states, steps) && i < j < |steps|
    requires steps[i].Refresh? && steps[j].Refresh? && steps[i].t == steps[j].t
    requires Redeems(cfg, states[i], steps[i]) && steps[i].refreshWorks
    requires Seconds(states[j].now) < steps[j].t.own.exp
    ensures !Redeems(cfg, states[j], steps[j])
  {
    var t := steps[j].t;
    assert t.own.jti in Spent(cfg, states, steps, i + 1);
    SpentGrows(cfg, states, steps, i + 1, j);
    assert Can(states[j], steps[j]);
    RefreshEntry(cfg, states, steps, j, t);
    RevokeCovers(t.own.exp, states[j].now);
  }

  /** A logout, or a rotation of the pair, ends an access token for good: outside [exp, exp + leeway] it is never accepted again. */
  lemma RevokedAccessStaysRejected(cfg: Config, states: seq<Auth>, steps: seq<Step>, i: nat, n: nat, a: Token)
    requires Runs(cfg, states, steps) && i < n <= |steps| && a in states[i].access
    requires steps[i] == Logout(a, true)
             || (steps[i].Refresh? && steps[i].t.access == a && steps[i].accessWorks && Redeems(cfg, states[i], steps[i]))
    requires Seconds(states[n].now) < a.exp || Seconds(states[n].now) > a.exp + cfg.leeway
    ensures !Accepts(cfg, states[n], a, true)
  {
    IssuedGrows(cfg, states, steps, i, n);
    assert a.jti in Spent(cfg, states, steps, i + 1);
    SpentGrows(cfg, states, steps, i + 1, n);
    AccessAcceptedIffUnspent(cfg, states, steps, n, a);
  }

  /** However often an access token is revoked, by logout or by rotation, its entry never ends before its `exp`. */
  lemma CoverageNeverShortened(cfg: Config, states: seq<Auth>, steps: seq<Step>, n: nat, a: Token)
    requires Runs(cfg, states, steps) && n <= |steps| && a in states[n].access && a.jti in states[n].blacklist
    ensures 1000 * a.exp <= states[n].blacklist[a.jti] < 1000 * a.exp + 1000
    ensures n < |steps| ==> a.jti in states[n + 1].blacklist && 1000 * a.exp <= states[n + 1].blacklist[a.jti]
  {
    AccessEntry(cfg, states, steps, n, a);
    if n < |steps| {
      IssuedGrows(cfg, states, steps, n, n + 1);
      AccessEntry(cfg, states, steps, n + 1, a);
    }
  }

  /** The pair that a step issues. */
  predicate Issues(cfg: Config, s: Auth, step: Step, accessJti: Jti, refreshJti: Jti) {
    match step
    case Login(aj, rj) => accessJti == aj && refreshJti == rj
    case Refresh(_, aj, rj, _, _, _, _) => accessJti == aj && refreshJti == rj && Redeems(cfg, s, step)
    case _ => false
  }

  /** A login or a rotation hands out a linked pair with the configured lifetimes, and it works at once. */
  lemma IssuedPairWorks(cfg: Config, states: seq<Auth>, steps: seq<Step>, n: nat, aj: Jti, rj: Jti, aj': Jti, rj': Jti)
    requires Runs(cfg, states, steps) && n < |steps| && Issues(cfg, states[n], steps[n], aj, rj)
    ensures var now, s := Seconds(states[n].now), states[n + 1];
      var a := Token(aj, now + cfg.accessTtl);
      var r := RefreshToken(Token(rj, now + cfg.refreshTtl), a);
      && a in s.access && r in s.refresh
      && (cfg.accessTtl > 0 ==> Accepts(cfg, s, a, true))
      && (cfg.refreshTtl > 0 ==> RefreshAnswer(cfg, s, r, aj', rj', true, true).Ok?)
  {
    var s, step := states[n], steps[n];
    var r := Generate(cfg, s.now, aj, rj);
    assert states[n + 1] == Next(cfg, s, step) && Can(s, step);
    assert r in states[n + 1].refresh;
    NewIdsUnspent(cfg, states, steps, n, aj, rj);
    AccessAcceptedIffUnspent(cfg, states, steps, n + 1, r.access);
    RefreshAcceptedIffUnspent(cfg, states, steps, n + 1, r, aj', rj');
  }

  lemma NewIdsUnspent(cfg: Config, states: seq<Auth>, steps: seq<Step>, n: nat, aj: Jti, rj: Jti)
    requires Runs(cfg, states, steps) && n < |steps| && Issues(cfg, states[n], steps[n], aj, rj)
    ensures aj !in Spent(cfg, states, steps, n + 1) && rj !in Spent(cfg, states, steps, n + 1)
  {
    var s, step := states[n], steps[n];
    RunKeepsInv(cfg, states, steps, n);
    assert Can(s, step) && NewIds(s, aj, rj);
    if step.Refresh? {
      assert Used(s, step.t.own.jti);
      assert Used(s, step.t.access.jti);
    }
  }

  // ---- The service ----

  class AuthService {
    const cfg: Config
    var now: nat
    var blacklist: Blacklist
    ghost var access: set<Token>
    ghost var refresh: set<RefreshToken>

    ghost function View(): Auth
      reads this
    {
      Auth(now, blacklist, access, refresh)
    }

    constructor (cfg: Config)
      ensures View() == INIT && this.cfg == cfg
    {
      this.cfg := cfg;
      now, blacklist, access, refresh := 0, map[], {}, {};
    }

    method LogIn(accessJti: Jti, refreshJti: Jti) returns (pair: RefreshToken)
      modifies this
      ensures pair.own == Token(refreshJti, now / 1000 + cfg.refreshTtl)
      ensures pair.access == Token(accessJti, now / 1000 + cfg.accessTtl)
      ensures access == old(access) + {pair.access} && refresh == old(refresh) + {pair}
      ensures blacklist == old(blacklist) && now == old(now)
      ensures View() == Next(cfg, old(View()), Login(accessJti, refreshJti))
    {
      pair := Generate(cfg, now, accessJti, refreshJti);
      access, refresh := access + {pair.access}, refresh + {pair};
    }

    method RevokeToken(jti: Jti, ttl: nat, works: bool)
      modifies this`blacklist
      ensures blacklist == Revoke(old(blacklist), jti, ttl, now, works)
      ensures blacklist == if works && ttl > 0 then old(blacklist)[jti := now + 1000 * ttl] else old(blacklist)
    {
      if works && ttl > 0 {
        blacklist := blacklist[jti := now + 1000 * ttl];
      }
    }

    method RefreshTokens(t: RefreshToken, accessJti: Jti, refreshJti: Jti, checkWorks: bool, userFound: bool,
                         refreshWorks: bool, accessWorks: bool)
      returns (r: Result<RefreshToken, Denial>)
      modifies this
      ensures r == RefreshAnswer(cfg, old(View()), t, accessJti, refreshJti, checkWorks, userFound)
      ensures
        if old(now) / 1000 > t.own.exp + cfg.leeway then r == Err(Expired)
        else if !checkWorks || (t.own.jti in old(blacklist) && old(now) < old(blacklist)[t.own.jti]) then r == Err(Revoked)
        else if !userFound then r == Err(NoUser)
        else r.Ok?
      ensures r.Err? ==> View() == old(View())
      ensures View() ==
        Next(cfg, old(View()), Refresh(t, accessJti, refreshJti, checkWorks, userFound, refreshWorks, accessWorks))
    {
      if now / 1000 > t.own.exp + cfg.leeway {
        return Err(Expired);
      }
      if !checkWorks || (t.own.jti in blacklist && now < blacklist[t.own.jti]) {
        return Err(Revoked);
      }
      if !userFound {
        return Err(NoUser);
      }
      var pair := Generate(cfg, now, accessJti, refreshJti);
      access, refresh := access + {pair.access}, refresh + {pair};
      RevokeToken(t.own.jti, Remaining(t.own.exp, now), refreshWorks);
      var accessTtl := Remaining(t.access.exp, now);
      if accessTtl > 0 {
        RevokeToken(t.access.jti, accessTtl, accessWorks);
      }
      return Ok(pair);
    }

    /** `require_auth`, as far as the token goes. */
    method Authenticate(a: Token, checkWorks: bool) returns (r: Result<(), Denial>)
      ensures
        if now / 1000 > a.exp + cfg.leeway then r == Err(Expired)
        else if !checkWorks || (a.jti in blacklist && now < blacklist[a.jti]) then r == Err(Revoked)
        else r == Ok(())
      ensures r.Ok? <==> Accepts(cfg, View(), a, checkWorks)
    {
      if now / 1000 > a.exp + cfg.leeway {
        return Err(Expired);
      }
      if !checkWorks || (a.jti in blacklist && now < blacklist[a.jti]) {
        return Err(Revoked);
      }
      return Ok(());
    }

    method LogOut(a: Token, works: bool)
      modifies this`blacklist
      ensures View() == Next(cfg, old(View()), Logout(a, works))
      ensures blacklist ==
        if works && a.exp > now / 1000 then old(blacklist)[a.jti := now + 1000 * (a.exp - now / 1000)] else old(blacklist)
    {
      var ttl := Remaining(a.exp, now);
      if ttl > 0 {
        RevokeToken(a.jti, ttl, works);
      }
    }

    method Wait(ms: nat)
      modifies this`now
      ensures View() == Next(cfg, old(View()), Tick(ms))
    {
      now := now + ms;
    }
  }
}
