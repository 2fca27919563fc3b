/**
 What uploads and deletions do to the image table: quota, and one row per user, content and
 storage config. The backends of one upload run side by side, each first looking for a
 duplicate and then, after writing the file, inserting its row; requests of one user do not
 overlap.

 `indexed` says whether the unique index on (user, sha256) that the migrations create is
 there. The upload code is written as if it were not.
 */
module Uploads {
  import opened Commons

  type User = int
  type Sha = int
  type ConfigId = Option<int>    // None: the local pseudo-config

  datatype Row = Row(user: User, sha: Sha, size: nat, config: ConfigId)

  type Table = seq<Row>

  /** The content being uploaded. */
  datatype File = File(user: User, sha: Sha, size: nat)

  datatype Config = Config(id: ConfigId, local: bool)

  datatype Failure = NotAnImage | TooLarge | OverQuota | TooManyConfigs | NeedsLocal | BackendFailed

  /** `SUM(file_size)` of one user. */
  function Usage(rows: Table, u: User): nat {
    if rows == [] then 0
    else Usage(rows[..|rows| - 1], u) + if rows[|rows| - 1].user == u then rows[|rows| - 1].size else 0
  }

  /** `dedup_exists`: the user has this content under this config. */
  predicate Exists(rows: Table, u: User, sha: Sha, c: ConfigId) {
    exists i :: 0 <= i < |rows| && rows[i].user == u && rows[i].sha == sha && rows[i].config == c
  }

  predicate HasContent(rows: Table, u: User, sha: Sha) {
    exists i :: 0 <= i < |rows| && rows[i].user == u && rows[i].sha == sha
  }

  /** No two rows share user, content and config. */
  predicate NoTwins(rows: Table) {
    forall i, j :: 0 <= i < j < |rows| ==>
      !(rows[i].user == rows[j].user && rows[i].sha == rows[j].sha && rows[i].config == rows[j].config)
  }

  /** What the unique index enforces. */
  predicate UniqueContent(rows: Table) {
    forall i, j :: 0 <= i < j < |rows| ==> !(rows[i].user == rows[j].user && rows[i].sha == rows[j].sha)
  }

  // ---- One backend: `upload_to_single_backend` ----

  /** Before the dedup query, before the insert, and the three ways to end. */
  datatype Branch = Checking | Inserting | Existing | Stored | Failed

  predicate Done(b: Branch) { b.Existing? || b.Stored? || b.Failed? }

  predicate Succeeded(b: Branch) { b.Existing? || b.Stored? }

  /** The next query of one backend; `works` is false when it, or the file write before it, fails. */
  function Advance(indexed: bool, rows: Table, f: File, c: ConfigId, b: Branch, works: bool): (Table, Branch) {
    match b
    case Checking =>
      (rows, if !works then Failed else if Exists(rows, f.user, f.sha, c) then Existing else Inserting)
    case Inserting =>
      if !works || (indexed && HasContent(rows, f.user, f.sha)) then (rows, Failed)
      else (rows + [Row(f.user, f.sha, f.size, c)], Stored)
    case _ => (rows, b)
  }

  // ---- Several backends: `run_backend_uploads` ----

  /** Which backend runs next, and whether its query works. */
  datatype Turn = Turn(branch: nat, works: bool)

  datatype Join = Join(rows: Table, branches: seq<Branch>)

  function Begin(rows: Table, configs: seq<ConfigId>): Join { Join(rows, seq(|configs|, _ => Checking)) }

  function Take(indexed: bool, j: Join, f: File, configs: seq<ConfigId>, t: Turn): Join
    requires |j.branches| == |configs|
  {
    if t.branch < |configs| then
      var (rows, b) := Advance(indexed, j.rows, f, configs[t.branch], j.branches[t.branch], t.works);
      Join(rows, j.branches[t.branch := b])
    else j
  }

  /** The backends of one upload, interleaved as `turns` says. */
  function Play(indexed: bool, rows: Table, f: File, configs: seq<ConfigId>, turns: seq<Turn>): (j: Join)
    ensures |j.branches| == |configs|
  {
    if turns == [] then Begin(rows, configs)
    else Take(indexed, Play(indexed, rows, f, configs, turns[..|turns| - 1]), f, configs, turns[|turns| - 1])
  }

  predicate Finished(j: Join) { forall i :: 0 <= i < |j.branches| ==> Done(j.branches[i]) }

  predicate AllSucceeded(j: Join) { forall i :: 0 <= i < |j.branches| ==> Succeeded(j.branches[i]) }

  predicate Distinct(configs: seq<ConfigId>) {
    forall i, j :: 0 <= i < j < |configs| ==> configs[i] != configs[j]
  }

  function CountStored(bs: seq<Branch>): nat {
    if bs == [] then 0 else CountStored(bs[..|bs| - 1]) + if bs[|bs| - 1].Stored? then 1 else 0
  }

  lemma {:induction false} CountStoredUpdate(bs: seq<Branch>, i: nat, b: Branch)
    requires i < |bs|
    ensures CountStored(bs[i := b]) == CountStored(bs) + (if b.Stored? then 1 else 0) - (if bs[i].Stored? then 1 else 0)
    ensures bs[i].Stored? ==> CountStored(bs) > 0
  {
    var n := |bs| - 1;
    if i < n {
      CountStoredUpdate(bs[..n], i, b);
      assert bs[i := b][..n] == bs[..n][i := b];
    } else {
      assert bs[i := b][..n] == bs[..n];
    }
  }

  lemma {:induction false} CountStoredBound(bs: seq<Branch>)
    ensures CountStored(bs) <= |bs|
    ensures (forall i :: 0 <= i < |bs| ==> bs[i].Checking?) ==> CountStored(bs) == 0
  {
    if bs != [] {
      CountStoredBound(bs[..|bs| - 1]);
    }
  }

  lemma UsageOfTurn(indexed: bool, j: Join, f: File, configs: seq<ConfigId>, t: Turn, u: User)
    requires |j.branches| == |configs|
    ensures var j' := Take(indexed, j, f, configs, t);
      || (CountStored(j'.branches) == CountStored(j.branches) && j'.rows == j.rows)
      || (CountStored(j'.branches) == CountStored(j.branches) + 1
          && Usage(j'.rows, u) == Usage(j.rows, u) + if u == f.user then f.size else 0)
  {
    if t.branch < |configs| {
      var (rows', b) := Advance(indexed, j.rows, f, configs[t.branch], j.branches[t.branch], t.works);
      CountStoredUpdate(j.branches, t.branch, b);
      if j.rows != rows' {
        assert rows'[..|rows'| - 1] == j.rows;
      }
    }
  }

  /** Each stored backend costs one file's size, whatever the order; other users' usage does not move. */
  lemma {:induction false} UsageAfter(indexed: bool, rows: Table, f: File, configs: seq<ConfigId>, turns: seq<Turn>, u: User)
    ensures var j := Play(indexed, rows, f, configs, turns);
      Usage(j.rows, u) == Usage(rows, u) + if u == f.user then f.size * CountStored(j.branches) else 0
  {
    if turns == [] {
      CountStoredBound(Begin(rows, configs).branches);
    } else {
      var before := Play(indexed, rows, f, configs, turns[..|turns| - 1]);
      UsageAfter(indexed, rows, f, configs, turns[..|turns| - 1], u);
      UsageOfTurn(indexed, before, f, configs, turns[|turns| - 1], u);
      assert f.size * (CountStored(before.branches) + 1) == f.size * CountStored(before.branches) + f.size;
    }
  }

  // ---- No twins ----

  /** A backend about to insert has no row yet, and one that succeeded has one. */
  predicate BranchOk(j: Join, f: File, configs: seq<ConfigId>, i: nat)
    requires i < |configs| == |j.branches|
  {
    && (j.branches[i].Inserting? ==> !Exists(j.rows, f.user, f.sha, configs[i]))
    && (Succeeded(j.branches[i]) ==> Exists(j.rows, f.user, f.sha, configs[i]))
  }

  predicate BranchesOk(j: Join, f: File, configs: seq<ConfigId>)
    requires |configs| == |j.branches|
  {
    forall i :: 0 <= i < |configs| ==> BranchOk(j, f, configs, i)
  }

  lemma ExistsAfterInsert(rows: Table, r: Row, u: User, sha: Sha, c: ConfigId)
    ensures Exists(rows + [r], u, sha, c) <==> Exists(rows, u, sha, c) || (r.user == u && r.sha == sha && r.config == c)
  {
    var rows' := rows + [r];
    if Exists(rows, u, sha, c) {
      var i :| 0 <= i < |rows| && rows[i].user == u && rows[i].sha == sha && rows[i].config == c;
      assert rows'[i] == rows[i];
    }
    assert rows'[|rows|] == r;
  }

  lemma TakeKeepsBranches(indexed: bool, j: Join, f: File, configs: seq<ConfigId>, t: Turn)
    requires |j.branches| == |configs| && Distinct(configs) && NoTwins(j.rows) && BranchesOk(j, f, configs)
    ensures var j' := Take(indexed, j, f, configs, t); NoTwins(j'.rows) && BranchesOk(j', f, configs)
  {
    var j' := Take(indexed, j, f, configs, t);
    if t.branch < |configs| {
      assert BranchOk(j, f, configs, t.branch);
      var row := Row(f.user, f.sha, f.size, configs[t.branch]);
      forall i: nat | i < |configs| ensures BranchOk(j', f, configs, i) {
        assert BranchOk(j, f, configs, i);
        ExistsAfterInsert(j.rows, row, f.user, f.sha, configs[i]);
        assert i != t.branch ==> configs[i] != configs[t.branch];
      }
    }
  }

  /** However the backends interleave, no two rows come to share user, content and config. */
  lemma {:induction false} JoinKeepsNoTwins(indexed: bool, rows: Table, f: File, configs: seq<ConfigId>, turns: seq<Turn>)
    requires NoTwins(rows) && Distinct(configs)
    ensures var j := Play(indexed, rows, f, configs, turns); NoTwins(j.rows) && BranchesOk(j, f, configs)
  {
    if turns != [] {
      JoinKeepsNoTwins(indexed, rows, f, configs, turns[..|turns| - 1]);
      TakeKeepsBranches(indexed, Play(indexed, rows, f, configs, turns[..|turns| - 1]), f, configs, turns[|turns| - 1]);
    }
  }

  // ---- Under the unique index ----

  /** The index keeps one row per content, so at most one backend of an upload stores, and only new content. */
  lemma {:induction false} IndexAllowsOneRow(rows: Table, f: File, configs: seq<ConfigId>, turns: seq<Turn>)
    requires UniqueContent(rows)
    ensures var j := Play(true, rows, f, configs, turns);
      && UniqueContent(j.rows) && CountStored(j.branches) <= 1
      && (HasContent(rows, f.user, f.sha) ==> j.rows == rows && CountStored(j.branches) == 0)
      && (CountStored(j.branches) == 1 ==> HasContent(j.rows, f.user, f.sha))
  {
    if turns == [] {
      CountStoredBound(Begin(rows, configs).branches);
    } else {
      var before, t := Play(true, rows, f, configs, turns[..|turns| - 1]), turns[|turns| - 1];
      IndexAllowsOneRow(rows, f, configs, turns[..|turns| - 1]);
      if t.branch < |configs| {
        var (rows', b) := Advance(true, before.rows, f, configs[t.branch], before.branches[t.branch], t.works);
        CountStoredUpdate(before.branches, t.branch, b);
        if before.rows != rows' {
          assert rows'[|before.rows|].user == f.user && rows'[|before.rows|].sha == f.sha;
        }
      }
    }
  }

  /** So with the index in place an upload to two configs never succeeds, not even a repeated one. */
  lemma TwoConfigsNeverSucceed(rows: Table, f: File, configs: seq<ConfigId>, turns: seq<Turn>)
    requires UniqueContent(rows) && Distinct(configs) && |configs| == 2
    ensures !AllSucceeded(Play(true, rows, f, configs, turns))
  {
    var j := Play(true, rows, f, configs, turns);
    IndexAllowsOneRow(rows, f, configs, turns);
    JoinKeepsNoTwins(true, rows, f, configs, turns);
    assert BranchOk(j, f, configs, 0) && BranchOk(j, f, configs, 1);
    if Exists(j.rows, f.user, f.sha, configs[0]) && Exists(j.rows, f.user, f.sha, configs[1]) {
      OneConfigPerContent(j.rows, f, configs[0], configs[1]);
    }
  }

  lemma OneConfigPerContent(rows: Table, f: File, c: ConfigId, d: ConfigId)
    requires UniqueContent(rows) && Exists(rows, f.user, f.sha, c) && Exists(rows, f.user, f.sha, d)
    ensures c == d
  {
    var a :| 0 <= a < |rows| && rows[a].user == f.user && rows[a].sha == f.sha && rows[a].config == c;
    var b :| 0 <= b < |rows| && rows[b].user == f.user && rows[b].sha == f.sha && rows[b].config == d;
    assert a == b;
  }

  // ---- Repeating an upload ----

  /** Where the content exists under every config, no interleaving adds a row. */
  lemma {:induction false} NothingToAdd(indexed: bool, rows: Table, f: File, configs: seq<ConfigId>, turns: seq<Turn>)
    requires forall i :: 0 <= i < |configs| ==> Exists(rows, f.user, f.sha, configs[i])
    ensures var j := Play(indexed, rows, f, configs, turns);
      j.rows == rows && forall i :: 0 <= i < |configs| ==> !j.branches[i].Inserting? && !j.branches[i].Stored?
  {
    if turns != [] {
      NothingToAdd(indexed, rows, f, configs, turns[..|turns| - 1]);
    }
  }

  /** Repeating an upload that fully succeeded adds no row. */
  lemma RepeatAddsNothing(indexed: bool, rows: Table, f: File, configs: seq<ConfigId>, turns: seq<Turn>, again: seq<Turn>)
    requires NoTwins(rows) && Distinct(configs) && AllSucceeded(Play(indexed, rows, f, configs, turns))
    ensures var after := Play(indexed, rows, f, configs, turns).rows;
      Play(indexed, after, f, configs, again).rows == after
  {
    var j := Play(indexed, rows, f, configs, turns);
    JoinKeepsNoTwins(indexed, rows, f, configs, turns);
    forall i | 0 <= i < |configs| ensures Exists(j.rows, f.user, f.sha, configs[i]) {
      assert BranchOk(j, f, configs, i) && Succeeded(j.branches[i]);
    }
    NothingToAdd(indexed, j.rows, f, configs, again);
  }

  /** A backend whose query failed has failed, whatever runs afterwards. */
  lemma {:induction false} FailedTurnFails(indexed: bool, rows: Table, f: File, configs: seq<ConfigId>, turns: seq<Turn>, k: nat)
    requires k < |turns| && turns[k].branch < |configs| && !turns[k].works
    requires !Done(Play(indexed, rows, f, configs, turns[..k]).branches[turns[k].branch])
    ensures Play(indexed, rows, f, configs, turns).branches[turns[k].branch] == Failed
  {
    if k < |turns| - 1 {
      assert turns[..|turns| - 1][..k] == turns[..k];
      FailedTurnFails(indexed, rows, f, configs, turns[..|turns| - 1], k);
    }
  }

  /** When no query fails, no backend fails, unless the index is there. */
  lemma {:induction false} WorkingBranches(indexed: bool, rows: Table, f: File, configs: seq<ConfigId>, turns: seq<Turn>, i: nat)
    requires i < |configs| && forall k :: 0 <= k < |turns| ==> turns[k].works
    ensures var b := Play(indexed, rows, f, configs, turns).branches[i];
      && (!indexed ==> !b.Failed?)
      && ((forall c :: 0 <= c < |configs| ==> Exists(rows, f.user, f.sha, configs[c])) ==> b.Checking? || b.Existing?)
  {
    if turns != [] {
      var before := turns[..|turns| - 1];
      WorkingBranches(indexed, rows, f, configs, before, i);
      if forall c :: 0 <= c < |configs| ==> Exists(rows, f.user, f.sha, configs[c]) {
        NothingToAdd(indexed, rows, f, configs, before);
      }
    }
  }

  /** Without the index an upload whose queries work succeeds in all its backends, once they are done. */
  lemma WorkingUploadSucceeds(rows: Table, f: File, configs: seq<ConfigId>, turns: seq<Turn>)
    requires (forall k :: 0 <= k < |turns| ==> turns[k].works) && Finished(Play(false, rows, f, configs, turns))
    ensures AllSucceeded(Play(false, rows, f, configs, turns))
  {
    var j := Play(false, rows, f, configs, turns);
    forall i | 0 <= i < |j.branches| ensures Succeeded(j.branches[i]) {
      WorkingBranches(false, rows, f, configs, turns, i);
    }
  }

  /** Where every config has the content, it succeeds with the index, too. */
  lemma RepeatSucceeds(indexed: bool, rows: Table, f: File, configs: seq<ConfigId>, turns: seq<Turn>)
    requires (forall k :: 0 <= k < |turns| ==> turns[k].works) && Finished(Play(indexed, rows, f, configs, turns))
    requires forall c :: 0 <= c < |configs| ==> Exists(rows, f.user, f.sha, configs[c])
    ensures AllSucceeded(Play(indexed, rows, f, configs, turns))
  {
    var j := Play(indexed, rows, f, configs, turns);
    forall i | 0 <= i < |j.branches| ensures Succeeded(j.branches[i]) {
      WorkingBranches(indexed, rows, f, configs, turns, i);
    }
  }

  /** The rows of an upload are those it found, and new ones of its own file under its own configs. */
  lemma {:induction false} RowsAfter(indexed: bool, rows: Table, f: File, configs: seq<ConfigId>, turns: seq<Turn>)
    ensures var j := Play(indexed, rows, f, configs, turns);
      && rows <= j.rows
      && forall i :: |rows| <= i < |j.rows| ==>
           j.rows[i].user == f.user && j.rows[i].sha == f.sha && j.rows[i].size == f.size && j.rows[i].config in configs
  {
    if turns != [] {
      RowsAfter(indexed, rows, f, configs, turns[..|turns| - 1]);
    }
  }

  // ---- Requests ----

  datatype Request = Request(
    file: File, isImage: bool, isAdmin: bool, quota: Option<nat>, configs: seq<Config>, keyWorks: bool)

  /** `max_file_size_user` and `max_file_size_admin` */
  datatype Limits = Limits(userMax: nat, adminMax: nat)

  function Ids(configs: seq<Config>): seq<ConfigId> { seq(|configs|, i requires 0 <= i < |configs| => configs[i].id) }

  predicate FitsSize(lim: Limits, r: Request) { r.file.size <= if r.isAdmin then lim.adminMax else lim.userMax }

  /** `check_upload_quotas` */
  function CheckQuotas(lim: Limits, rows: Table, r: Request): Option<Failure> {
    if r.file.size > (if r.isAdmin then lim.adminMax else lim.userMax) then Some(TooLarge)
    else if r.quota.Some? && Usage(rows, r.file.user) + r.file.size > r.quota.value then Some(OverQuota)
    else None
  }

  /** `validate_upload_configs` */
  function ValidateConfigs(configs: seq<Config>): Option<Failure> {
    if |configs| > 2 then Some(TooManyConfigs)
    else if !exists i :: 0 <= i < |configs| && configs[i].local then Some(NeedsLocal)
    else None
  }

  /** The checks before any backend runs. */
  function Refusal(lim: Limits, rows: Table, r: Request): Option<Failure> {
    if !r.isImage then Some(NotAnImage)
    else if CheckQuotas(lim, rows, r).Some? then CheckQuotas(lim, rows, r)
    else if ValidateConfigs(r.configs).Some? then ValidateConfigs(r.configs)
    else if !r.keyWorks then Some(BackendFailed)
    else None
  }

  /** An upload that gets past the checks has one or two configs, one of them local. */
  lemma AcceptedConfigs(lim: Limits, rows: Table, r: Request)
    requires Refusal(lim, rows, r).None?
    ensures 1 <= |r.configs| <= 2 && exists i :: 0 <= i < |r.configs| && r.configs[i].local
  {
    assert ValidateConfigs(r.configs).None?;
  }

  function AfterUpload(indexed: bool, lim: Limits, rows: Table, r: Request, turns: seq<Turn>): Table {
    if Refusal(lim, rows, r).Some? then rows else Play(indexed, rows, r.file, Ids(r.configs), turns).rows
  }

  /**
   An accepted upload leaves the usage within the quota if it had one config or if the
   index is there, and at most one file above it otherwise.
   */
  lemma QuotaAfterUpload(indexed: bool, lim: Limits, rows: Table, r: Request, turns: seq<Turn>)
    requires r.quota.Some? && Refusal(lim, rows, r).None? && (indexed ==> UniqueContent(rows))
    ensures var used := Usage(AfterUpload(indexed, lim, rows, r, turns), r.file.user);
      && used <= r.quota.value + r.file.size
      && (|r.configs| == 1 || indexed ==> used <= r.quota.value)
  {
    var j := Play(indexed, rows, r.file, Ids(r.configs), turns);
    UsageAfter(indexed, rows, r.file, Ids(r.configs), turns, r.file.user);
    CountStoredBound(j.branches);
    AcceptedConfigs(lim, rows, r);
    if indexed {
      IndexAllowsOneRow(rows, r.file, Ids(r.configs), turns);
    }
    assert CheckQuotas(lim, rows, r).None?;
    var n := CountStored(j.branches);
    assert n == 0 || n == 1 || n == 2;
    assert r.file.size * n <= if |r.configs| == 1 || indexed then r.file.size else 2 * r.file.size;
  }

  /** Without the index the excess is real: two stores of a file that just fits go over by its whole size. */
  lemma QuotaExceededByOneFile(lim: Limits, rows: Table, r: Request, turns: seq<Turn>)
    requires r.quota.Some? && Refusal(lim, rows, r).None?
    requires Usage(rows, r.file.user) + r.file.size == r.quota.value
    requires |r.configs| == 2 && CountStored(Play(false, rows, r.file, Ids(r.configs), turns).branches) == 2
    ensures Usage(AfterUpload(false, lim, rows, r, turns), r.file.user) == r.quota.value + r.file.size
  {
    UsageAfter(false, rows, r.file, Ids(r.configs), turns, r.file.user);
  }

  /** Such an upload exists. */
  lemma TwoStoresHappen(f: File)
    ensures Play(false, [], f, [Some(1), Some(2)], [Turn(0, true), Turn(1, true), Turn(0, true), Turn(1, true)]).branches == [Stored, Stored]
  {
    var c: seq<ConfigId> := [Some(1), Some(2)];
    var t1 := [Turn(0, true)];
    var t2 := t1 + [Turn(1, true)];
    var t3 := t2 + [Turn(0, true)];
    var t4 := t3 + [Turn(1, true)];
    assert Play(false, [], f, c, []) == Join([], [Checking, Checking]);
    assert t1[..0] == [];
    assert Play(false, [], f, c, t1) == Join([], [Inserting, Checking]);
    assert t2[..1] == t1;
    assert Play(false, [], f, c, t2) == Join([], [Inserting, Inserting]);
    assert t3[..2] == t2;
    assert Play(false, [], f, c, t3).branches == [Stored, Inserting];
    assert t4[..3] == t3;
    assert t4 == [Turn(0, true), Turn(1, true), Turn(0, true), Turn(1, true)];
  }

  /** With the index one row is stored, the other backend fails, and the row stays. */
  lemma OneRowStays(f: File)
    ensures var turns := [Turn(0, true), Turn(1, true), Turn(0, true), Turn(1, true)];
      var j := Play(true, [], f, [Some(1), Some(2)], turns);
      Finished(j) && !AllSucceeded(j) && j.rows == [Row(f.user, f.sha, f.size, Some(1))]
  {
    var c: seq<ConfigId> := [Some(1), Some(2)];
    var row := Row(f.user, f.sha, f.size, Some(1));
    var t1 := [Turn(0, true)];
    var t2 := t1 + [Turn(1, true)];
    var t3 := t2 + [Turn(0, true)];
    var t4 := t3 + [Turn(1, true)];
    assert Play(true, [], f, c, []) == Join([], [Checking, Checking]);
    assert t1[..0] == [];
    assert Play(true, [], f, c, t1) == Join([], [Inserting, Checking]);
    assert t2[..1] == t1;
    assert Play(true, [], f, c, t2) == Join([], [Inserting, Inserting]);
    assert t3[..2] == t2;
    assert Play(true, [], f, c, t3) == Join([row], [Stored, Inserting]);
    assert t4[..3] == t3;
    assert [row][0] == row && HasContent([row], f.user, f.sha);
    assert Play(true, [], f, c, t4) == Join([row], [Stored, Failed]);
    assert !Succeeded([Stored, Failed][1]);
    assert t4 == [Turn(0, true), Turn(1, true), Turn(0, true), Turn(1, true)];
  }

  /** An accepted upload takes the usage over the quota if and only if two backends store it and two files do not fit. */
  lemma ExceedsIff(indexed: bool, lim: Limits, rows: Table, r: Request, turns: seq<Turn>)
    requires r.quota.Some? && Refusal(lim, rows, r).None?
    ensures var used := Usage(AfterUpload(indexed, lim, rows, r, turns), r.file.user);
      var stored := CountStored(Play(indexed, rows, r.file, Ids(r.configs), turns).branches);
      && used <= r.quota.value + r.file.size
      && (used > r.quota.value <==> stored == 2 && Usage(rows, r.file.user) + 2 * r.file.size > r.quota.value)
  {
    var j := Play(indexed, rows, r.file, Ids(r.configs), turns);
    UsageAfter(indexed, rows, r.file, Ids(r.configs), turns, r.file.user);
    CountStoredBound(j.branches);
    AcceptedConfigs(lim, rows, r);
    assert CheckQuotas(lim, rows, r).None?;
    ExceedsArithmetic(Usage(rows, r.file.user), r.file.size, CountStored(j.branches), r.quota.value);
  }

  lemma ExceedsArithmetic(before: nat, size: nat, stored: nat, quota: nat)
    requires before + size <= quota && stored <= 2
    ensures before + size * stored <= quota + size
    ensures before + size * stored > quota <==> stored == 2 && before + 2 * size > quota
  {
    if stored == 0 {
      assert size * stored == 0;
    } else if stored == 1 {
      assert size * stored == size;
    } else {
      assert size * stored == 2 * size;
    }
  }

  // ---- Runs ----

  datatype Op = Upload(r: Request, turns: seq<Turn>) | Delete(i: nat)

  function Removed(rows: Table, i: nat): Table {
    if i < |rows| then rows[..i] + rows[i + 1..] else rows
  }

  function Do(indexed: bool, lim: Limits, rows: Table, op: Op): Table {
    match op
    case Upload(r, turns) => AfterUpload(indexed, lim, rows, r, turns)
    case Delete(i) => Removed(rows, i)
  }

  /** Requests name distinct configs, and a user's quota stays the same. */
  predicate Fits(quotas: map<User, nat>, op: Op) {
    op.Upload? ==>
      && Distinct(Ids(op.r.configs))
      && op.r.quota == (if op.r.file.user in quotas then Some(quotas[op.r.file.user]) else None)
  }

  function Run(indexed: bool, lim: Limits, ops: seq<Op>): Table {
    if ops == [] then [] else Do(indexed, lim, Run(indexed, lim, ops[..|ops| - 1]), ops[|ops| - 1])
  }

  function Larger(a: nat, b: nat): nat { if a < b then b else a }

  ghost predicate Sound(indexed: bool, lim: Limits, quotas: map<User, nat>, rows: Table) {
    && NoTwins(rows)
    && (indexed ==> UniqueContent(rows))
    && forall u :: u in quotas ==>
         Usage(rows, u) <= quotas[u] + (if indexed then 0 else Larger(lim.userMax, lim.adminMax))
  }

  lemma {:induction false} UsageOfConcat(a: Table, b: Table, u: User)
    ensures Usage(a + b, u) == Usage(a, u) + Usage(b, u)
  {
    if b == [] {
      assert a + b == a;
    } else {
      UsageOfConcat(a, b[..|b| - 1], u);
      assert (a + b)[..|a + b| - 1] == a + b[..|b| - 1];
    }
  }

  lemma RemoveLowersUsage(rows: Table, i: nat, u: User)
    requires i < |rows|
    ensures Usage(Removed(rows, i), u) <= Usage(rows, u)
  {
    UsageOfConcat(rows[..i], rows[i + 1..], u);
    UsageOfConcat(rows[..i], [rows[i]] + rows[i + 1..], u);
    UsageOfConcat([rows[i]], rows[i + 1..], u);
    assert rows == rows[..i] + ([rows[i]] + rows[i + 1..]);
  }

  lemma RemoveKeepsNoTwins(rows: Table, i: nat)
    requires i < |rows|
    ensures NoTwins(rows) ==> NoTwins(Removed(rows, i))
    ensures UniqueContent(rows) ==> UniqueContent(Removed(rows, i))
  {
    var left := Removed(rows, i);
    assert forall k :: 0 <= k < |left| ==> left[k] == rows[if k < i then k else k + 1];
  }

  lemma RemoveKeepsSound(indexed: bool, lim: Limits, quotas: map<User, nat>, rows: Table, i: nat)
    requires Sound(indexed, lim, quotas, rows)
    ensures Sound(indexed, lim, quotas, Removed(rows, i))
  {
    if i < |rows| {
      forall u | u in quotas ensures Usage(Removed(rows, i), u) <= Usage(rows, u) {
        RemoveLowersUsage(rows, i, u);
      }
      RemoveKeepsNoTwins(rows, i);
    }
  }

  lemma UploadKeepsSound(indexed: bool, lim: Limits, quotas: map<User, nat>, rows: Table, r: Request, turns: seq<Turn>)
    requires Sound(indexed, lim, quotas, rows) && Fits(quotas, Upload(r, turns))
    ensures Sound(indexed, lim, quotas, AfterUpload(indexed, lim, rows, r, turns))
  {
    if Refusal(lim, rows, r).None? {
      var configs := Ids(r.configs);
      JoinKeepsNoTwins(indexed, rows, r.file, configs, turns);
      if indexed {
        IndexAllowsOneRow(rows, r.file, configs, turns);
      }
      if r.quota.Some? {
        QuotaAfterUpload(indexed, lim, rows, r, turns);
      }
      assert CheckQuotas(lim, rows, r).None?;
      forall u | u in quotas && u != r.file.user
        ensures Usage(AfterUpload(indexed, lim, rows, r, turns), u) == Usage(rows, u)
      {
        UsageAfter(indexed, rows, r.file, configs, turns, u);
      }
    }
  }

  /**
   After every run of uploads and deletions no two rows share user, content and config, and
   no user is over quota by more than one file; with the index, no user is over it at all.
   */
  lemma {:induction false} RunIsSound(indexed: bool, lim: Limits, quotas: map<User, nat>, ops: seq<Op>)
    requires forall i :: 0 <= i < |ops| ==> Fits(quotas, ops[i])
    ensures Sound(indexed, lim, quotas, Run(indexed, lim, ops))
  {
    if ops != [] {
      var before, op := ops[..|ops| - 1], ops[|ops| - 1];
      RunIsSound(indexed, lim, quotas, before);
      match op
      case Upload(r, turns) => UploadKeepsSound(indexed, lim, quotas, Run(indexed, lim, before), r, turns);
      case Delete(i) => RemoveKeepsSound(indexed, lim, quotas, Run(indexed, lim, before), i);
    }
  }

  /** Operation `i` of a run is an accepted upload of `u` that two backends store. */
  predicate StoredTwice(indexed: bool, lim: Limits, ops: seq<Op>, i: nat, u: User)
    requires i < |ops|
  {
    && ops[i].Upload? && ops[i].r.file.user == u
    && var rows := Run(indexed, lim, ops[..i]);
       Refusal(lim, rows, ops[i].r).None?
       && CountStored(Play(indexed, rows, ops[i].r.file, Ids(ops[i].r.configs), ops[i].turns).branches) == 2
  }

  /** The usage is within the quota, or above it by at most the size of a file that was stored twice. */
  predicate Within(indexed: bool, lim: Limits, ops: seq<Op>, n: nat, u: User, used: nat, quota: nat)
    requires n <= |ops|
  {
    used <= quota || exists i :: 0 <= i < n && StoredTwice(indexed, lim, ops, i, u) && used <= quota + ops[i].r.file.size
  }

  lemma UploadStaysWithin(indexed: bool, lim: Limits, quotas: map<User, nat>, ops: seq<Op>, n: nat, u: User)
    requires n < |ops| && ops[n].Upload? && Fits(quotas, ops[n]) && u in quotas
    requires Within(indexed, lim, ops, n, u, Usage(Run(indexed, lim, ops[..n]), u), quotas[u])
    ensures Within(indexed, lim, ops, n + 1, u,
                   Usage(AfterUpload(indexed, lim, Run(indexed, lim, ops[..n]), ops[n].r, ops[n].turns), u), quotas[u])
  {
    var rows, r, turns := Run(indexed, lim, ops[..n]), ops[n].r, ops[n].turns;
    if Refusal(lim, rows, r).None? {
      if r.file.user == u {
        ExceedsIff(indexed, lim, rows, r, turns);
        assert Usage(AfterUpload(indexed, lim, rows, r, turns), u) > quotas[u] ==> StoredTwice(indexed, lim, ops, n, u);
      } else {
        UsageAfter(indexed, rows, r.file, Ids(r.configs), turns, u);
      }
    }
  }

  /**
   In every run, with or without the index, a user is over quota only after an upload that
   two backends stored, and then by at most the size of its file.
   */
  lemma {:induction false} ExcessIsOneFile(indexed: bool, lim: Limits, quotas: map<User, nat>, ops: seq<Op>, n: nat, u: User)
    requires (forall i :: 0 <= i < |ops| ==> Fits(quotas, ops[i])) && n <= |ops| && u in quotas
    ensures Within(indexed, lim, ops, n, u, Usage(Run(indexed, lim, ops[..n]), u), quotas[u])
  {
    if n == 0 {
      assert ops[..0] == [];
    } else {
      ExcessIsOneFile(indexed, lim, quotas, ops, n - 1, u);
      var rows := Run(indexed, lim, ops[..n - 1]);
      assert ops[..n][..n - 1] == ops[..n - 1];
      assert Run(indexed, lim, ops[..n]) == Do(indexed, lim, rows, ops[n - 1]);
      if ops[n - 1].Upload? {
        UploadStaysWithin(indexed, lim, quotas, ops, n - 1, u);
      } else if ops[n - 1].i < |rows| {
        RemoveLowersUsage(rows, ops[n - 1].i, u);
      }
    }
  }

  /** A user all of whose uploads name one config is never over quota, index or not. */
  lemma OneConfigKeepsQuota(indexed: bool, lim: Limits, quotas: map<User, nat>, ops: seq<Op>, u: User)
    requires (forall i :: 0 <= i < |ops| ==> Fits(quotas, ops[i])) && u in quotas
    requires forall i :: 0 <= i < |ops| && ops[i].Upload? && ops[i].r.file.user == u ==> |ops[i].r.configs| == 1
    ensures Usage(Run(indexed, lim, ops), u) <= quotas[u]
  {
    ExcessIsOneFile(indexed, lim, quotas, ops, |ops|, u);
    assert ops[..|ops|] == ops;
    forall i | 0 <= i < |ops| ensures !StoredTwice(indexed, lim, ops, i, u) {
      if ops[i].Upload? && ops[i].r.file.user == u {
        CountStoredBound(Play(indexed, Run(indexed, lim, ops[..i]), ops[i].r.file, Ids(ops[i].r.configs), ops[i].turns).branches);
      }
    }
  }

  /** The size limit that the uploads of `u` are held to, if they are all an admin's or all not. */
  predicate AllAs(ops: seq<Op>, u: User, admin: bool) {
    forall i :: 0 <= i < |ops| && ops[i].Upload? && ops[i].r.file.user == u ==> ops[i].r.isAdmin == admin
  }

  /** In every run no row of a user who is not an admin is larger than the user limit, and none of an admin than the other. */
  lemma {:induction false} RowsFitLimit(indexed: bool, lim: Limits, ops: seq<Op>, u: User, admin: bool)
    requires AllAs(ops, u, admin)
    ensures forall k :: 0 <= k < |Run(indexed, lim, ops)| && Run(indexed, lim, ops)[k].user == u ==>
      Run(indexed, lim, ops)[k].size <= if admin then lim.adminMax else lim.userMax
  {
    if ops != [] {
      var before, op := ops[..|ops| - 1], ops[|ops| - 1];
      var rows := Run(indexed, lim, before);
      RowsFitLimit(indexed, lim, before, u, admin);
      match op
      case Upload(r, turns) =>
        RowsAfter(indexed, rows, r.file, Ids(r.configs), turns);
        assert Refusal(lim, rows, r).None? ==> CheckQuotas(lim, rows, r).None?;
      case Delete(i) =>
        assert forall k :: 0 <= k < |Removed(rows, i)| ==> Removed(rows, i)[k] in rows;
    }
  }

  // ---- The handler ----

  class UploadService {
    const indexed: bool
    const lim: Limits
    var rows: Table

    constructor (indexed: bool, lim: Limits)
      ensures rows == [] && this.indexed == indexed && this.lim == lim
    {
      this.indexed, this.lim, rows := indexed, lim, [];
    }

    /** `process_upload`, its backends interleaved by `turns`; one row stays even if the other backend fails. */
    method ProcessUpload(r: Request, turns: seq<Turn>) returns (answer: Result<nat, Failure>)
      requires Refusal(lim, rows, r).None? ==> Finished(Play(indexed, rows, r.file, Ids(r.configs), turns))
      modifies this
      ensures rows == AfterUpload(indexed, lim, old(rows), r, turns)
      ensures answer == Err(NotAnImage) <==> !r.isImage
      ensures r.isImage ==>
        (answer == Err(TooLarge) <==> r.file.size > if r.isAdmin then lim.adminMax else lim.userMax)
      ensures answer == Err(OverQuota) <==>
        r.isImage && FitsSize(lim, r) && r.quota.Some? && Usage(old(rows), r.file.user) + r.file.size > r.quota.value
      ensures r.isImage && FitsSize(lim, r) && (r.quota.None? || Usage(old(rows), r.file.user) + r.file.size <= r.quota.value) ==>
        && (answer == Err(TooManyConfigs) <==> |r.configs| > 2)
        && (answer == Err(NeedsLocal) <==> |r.configs| <= 2 && forall i :: 0 <= i < |r.configs| ==> !r.configs[i].local)
      ensures answer.Err? && answer != Err(BackendFailed) ==> rows == old(rows)
      ensures Refusal(lim, old(rows), r).Some? ==> answer == Err(Refusal(lim, old(rows), r).value)
      ensures Refusal(lim, old(rows), r).None? ==>
        answer == if AllSucceeded(Play(indexed, old(rows), r.file, Ids(r.configs), turns)) then Ok(|r.configs|) else Err(BackendFailed)
    {
      if !r.isImage {
        return Err(NotAnImage);
      }
      var maxSize := if r.isAdmin then lim.adminMax else lim.userMax;
      if r.file.size > maxSize {
        return Err(TooLarge);
      }
      if r.quota.Some? {
        var usage := Usage(rows, r.file.user);
        if usage + r.file.size > r.quota.value {
          return Err(OverQuota);
        }
      }
      if |r.configs| > 2 {
        return Err(TooManyConfigs);
      }
      if !exists i :: 0 <= i < |r.configs| && r.configs[i].local {
        return Err(NeedsLocal);
      }
      if !r.keyWorks {
        return Err(BackendFailed);
      }
      var configs := Ids(r.configs);
      var branches: seq<Branch> := seq(|configs|, _ => Checking);
      var k := 0;
      assert turns[..0] == [];
      while k < |turns|
        invariant 0 <= k <= |turns| && |branches| == |configs|
        invariant Join(rows, branches) == Play(indexed, old(rows), r.file, configs, turns[..k])
      {
        assert turns[..k + 1][..k] == turns[..k];
        var t := turns[k];
        if t.branch < |configs| {
          var (rows', b) := Advance(indexed, rows, r.file, configs[t.branch], branches[t.branch], t.works);
          rows, branches := rows', branches[t.branch := b];
        }
        k := k + 1;
      }
      assert turns[..|turns|] == turns;
      if AllSucceeded(Join(rows, branches)) {
        return Ok(|r.configs|);
      }
      return Err(BackendFailed);
    }
  }
}
