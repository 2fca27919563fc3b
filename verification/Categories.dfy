/**
 Gallery categories: a table of rows that name a parent, the check that keeps it shallow,
 and the tree that is built from it. Rows stand in the order of their creation.
 */
module Categories {
  import opened Commons
  import Text

  type Id = int
  type User = int

  datatype Category = Category(id: Id, user: User, name: string, parent: Option<Id>)

  datatype Node = Node(id: Id, name: string, parent: Option<Id>, children: seq<Node>)

  datatype Failure = DepthExceeded | NotFound | InvalidName | NameExists | Internal

  type Table = seq<Category>

  const MAX_DEPTH: int := 2

  predicate UniqueIds(rows: Table) {
    forall i, j :: 0 <= i < j < |rows| ==> rows[i].id != rows[j].id
  }

  /** `SELECT ... WHERE id = $1 AND user_id = $2` */
  function Find(rows: Table, u: User, id: Id): (c: Option<Category>)
    ensures c.Some? ==> c.value in rows && c.value.id == id && c.value.user == u
    ensures c.None? ==> forall r :: r in rows ==> !(r.id == id && r.user == u)
  {
    if rows == [] then None
    else if rows[0].id == id && rows[0].user == u then Some(rows[0])
    else Find(rows[1..], u, id)
  }

  // ---- The depth check ----

  /** `validate_depth`, for any bound. */
  function ValidateDepth(rows: Table, bound: int, u: User, parent: Id, current: int): Result<(), Failure>
    decreases bound - current
  {
    if current >= bound then Err(DepthExceeded)
    else
      match Find(rows, u, parent)
      case None => Err(NotFound)
      case Some(p) => if p.parent.Some? then ValidateDepth(rows, bound, u, p.parent.value, current + 1) else Ok(())
  }

  /** Going up from `from` through the user's rows passes `path` and comes to `next`, or ends at a root. */
  predicate Walk(rows: Table, u: User, from: Id, path: seq<Id>, next: Option<Id>)
    decreases |path|
  {
    if path == [] then next == Some(from)
    else
      && path[0] == from && Find(rows, u, from).Some?
      && var p := Find(rows, u, from).value.parent;
         if p.Some? then Walk(rows, u, p.value, path[1..], next) else |path| == 1 && next == None
  }

  /** The ancestors of `from`, itself included, are at most `n` rows of the user. */
  ghost predicate ShortChain(rows: Table, u: User, from: Id, n: int) {
    exists path :: |path| <= n && Walk(rows, u, from, path, None)
  }

  /** More than `n` ancestors. */
  ghost predicate LongChain(rows: Table, u: User, from: Id, n: int) {
    exists path, next :: |path| == (if n < 0 then 0 else n) && Walk(rows, u, from, path, Some(next))
  }

  /** Among the first `n` ancestors one is missing or somebody else's. */
  ghost predicate BrokenChain(rows: Table, u: User, from: Id, n: int) {
    exists path, next :: |path| < n && Walk(rows, u, from, path, Some(next)) && Find(rows, u, next).None?
  }

  lemma WalkStep(rows: Table, u: User, from: Id, path: seq<Id>, next: Option<Id>)
    requires Find(rows, u, from).Some? && Find(rows, u, from).value.parent.Some?
    ensures Walk(rows, u, from, [from] + path, next) <==> Walk(rows, u, Find(rows, u, from).value.parent.value, path, next)
  {
    assert ([from] + path)[1..] == path;
  }

  lemma ShortChainStep(rows: Table, u: User, from: Id, n: int)
    requires Find(rows, u, from).Some? && Find(rows, u, from).value.parent.Some?
    ensures ShortChain(rows, u, from, n) <==> ShortChain(rows, u, Find(rows, u, from).value.parent.value, n - 1)
  {
    var gp := Find(rows, u, from).value.parent.value;
    if ShortChain(rows, u, from, n) {
      var path :| |path| <= n && Walk(rows, u, from, path, None);
      assert Walk(rows, u, gp, path[1..], None);
    }
    if ShortChain(rows, u, gp, n - 1) {
      var path :| |path| <= n - 1 && Walk(rows, u, gp, path, None);
      WalkStep(rows, u, from, path, None);
      assert Walk(rows, u, from, [from] + path, None);
    }
  }

  lemma LongChainStep(rows: Table, u: User, from: Id, n: int)
    requires n > 0 && Find(rows, u, from).Some? && Find(rows, u, from).value.parent.Some?
    ensures LongChain(rows, u, from, n) <==> LongChain(rows, u, Find(rows, u, from).value.parent.value, n - 1)
  {
    var gp := Find(rows, u, from).value.parent.value;
    if LongChain(rows, u, from, n) {
      var path, next :| |path| == n && Walk(rows, u, from, path, Some(next));
      assert Walk(rows, u, gp, path[1..], Some(next));
    }
    if LongChain(rows, u, gp, n - 1) {
      var path, next :| |path| == n - 1 && Walk(rows, u, gp, path, Some(next));
      WalkStep(rows, u, from, path, Some(next));
      assert Walk(rows, u, from, [from] + path, Some(next));
    }
  }

  lemma BrokenChainStep(rows: Table, u: User, from: Id, n: int)
    requires Find(rows, u, from).Some? && Find(rows, u, from).value.parent.Some?
    ensures BrokenChain(rows, u, from, n) <==> BrokenChain(rows, u, Find(rows, u, from).value.parent.value, n - 1)
  {
    var gp := Find(rows, u, from).value.parent.value;
    if BrokenChain(rows, u, from, n) {
      var path, next :| |path| < n && Walk(rows, u, from, path, Some(next)) && Find(rows, u, next).None?;
      assert path != [];
      assert Walk(rows, u, gp, path[1..], Some(next));
    }
    if BrokenChain(rows, u, gp, n - 1) {
      var path, next :| |path| < n - 1 && Walk(rows, u, gp, path, Some(next)) && Find(rows, u, next).None?;
      WalkStep(rows, u, from, path, Some(next));
      assert Walk(rows, u, from, [from] + path, Some(next));
    }
  }

  lemma ChainsAtTheEnd(rows: Table, u: User, from: Id, n: int)
    requires n <= 0 || Find(rows, u, from).None? || Find(rows, u, from).value.parent.None?
    ensures ShortChain(rows, u, from, n) <==> n > 0 && Find(rows, u, from).Some?
    ensures LongChain(rows, u, from, n) <==> n <= 0
    ensures BrokenChain(rows, u, from, n) <==> n > 0 && Find(rows, u, from).None?
  {
    assert Walk(rows, u, from, [], Some(from));
    if n > 0 && Find(rows, u, from).Some? {
      assert Walk(rows, u, from, [from], None);
    }
  }

  /**
   On any table, cyclic ones included, the check accepts a parent exactly when its chain of
   ancestors ends within `bound - current` rows of the user; it reports the depth when the
   chain is longer, and a missing parent when the chain breaks first.
   */
  lemma {:induction false} ValidateDepthIsExact(rows: Table, bound: int, u: User, parent: Id, current: int)
    ensures ValidateDepth(rows, bound, u, parent, current).Ok? <==> ShortChain(rows, u, parent, bound - current)
    ensures ValidateDepth(rows, bound, u, parent, current) == Err(DepthExceeded) <==> LongChain(rows, u, parent, bound - current)
    ensures ValidateDepth(rows, bound, u, parent, current) == Err(NotFound) <==> BrokenChain(rows, u, parent, bound - current)
    decreases bound - current
  {
    var n := bound - current;
    if n <= 0 || Find(rows, u, parent).None? || Find(rows, u, parent).value.parent.None? {
      ChainsAtTheEnd(rows, u, parent, n);
    } else {
      ValidateDepthIsExact(rows, bound, u, Find(rows, u, parent).value.parent.value, current + 1);
      ShortChainStep(rows, u, parent, n);
      LongChainStep(rows, u, parent, n);
      BrokenChainStep(rows, u, parent, n);
    }
  }

  // ---- Two levels ----

  predicate IsRoot(rows: Table, u: User, id: Id) {
    exists i :: 0 <= i < |rows| && rows[i].id == id && rows[i].user == u && rows[i].parent.None?
  }

  /** Every parent is a root of the same user. */
  predicate TwoLevels(rows: Table) {
    forall i :: 0 <= i < |rows| && rows[i].parent.Some? ==> IsRoot(rows, rows[i].user, rows[i].parent.value)
  }

  predicate Forest(rows: Table) { UniqueIds(rows) && TwoLevels(rows) }

  /** `UNIQUE(user_id, name, parent_id)`, in which no two missing parents are equal. */
  predicate Conflicts(rows: Table, u: User, name: string, parent: Option<Id>) {
    parent.Some? && exists i :: 0 <= i < |rows| && rows[i].user == u && rows[i].name == name && rows[i].parent == parent
  }

  /** With the bound of the program the check accepts exactly the user's roots, and misses exactly what is not the user's. */
  lemma ParentMustBeRoot(rows: Table, u: User, parent: Id)
    requires UniqueIds(rows)
    ensures ValidateDepth(rows, MAX_DEPTH, u, parent, 1).Ok? <==> IsRoot(rows, u, parent)
    ensures ValidateDepth(rows, MAX_DEPTH, u, parent, 1) == Err(NotFound)
            <==> forall c :: c in rows && c.id == parent ==> c.user != u
    ensures ValidateDepth(rows, MAX_DEPTH, u, parent, 1) == Err(DepthExceeded)
            <==> exists c :: c in rows && c.id == parent && c.user == u && c.parent.Some?
  {
    var found := Find(rows, u, parent);
    if IsRoot(rows, u, parent) {
      var i :| 0 <= i < |rows| && rows[i].id == parent && rows[i].user == u && rows[i].parent.None?;
      assert rows[i] in rows;
      var k :| 0 <= k < |rows| && rows[k] == found.value;
      assert k == i;
    } else if found.Some? {
      var k :| 0 <= k < |rows| && rows[k] == found.value;
      assert rows[k].parent.Some?;
    }
  }

  /** No two categories of a user under one parent share a name. */
  predicate SiblingsDistinct(rows: Table) {
    forall i, j :: 0 <= i < j < |rows| ==> !Clash(rows[i], rows[j])
  }

  predicate Clash(c: Category, d: Category) {
    c.parent.Some? && c.user == d.user && c.name == d.name && c.parent == d.parent
  }

  /** A name is refused exactly when taking it would break that. */
  lemma AppendKeepsSiblingsIff(rows: Table, c: Category)
    requires SiblingsDistinct(rows)
    ensures SiblingsDistinct(rows + [c]) <==> !Conflicts(rows, c.user, c.name, c.parent)
  {
    var rows' := rows + [c];
    if Conflicts(rows, c.user, c.name, c.parent) {
      var i :| 0 <= i < |rows| && rows[i].user == c.user && rows[i].name == c.name && rows[i].parent == c.parent;
      assert Clash(rows'[i], rows'[|rows|]);
    } else {
      forall i, j | 0 <= i < j < |rows'| ensures !Clash(rows'[i], rows'[j]) {
        if j < |rows| {
          assert !Clash(rows[i], rows[j]);
        }
      }
    }
  }

  /** `UPDATE categories SET name = $1 WHERE id = $2 AND user_id = $3` */
  function SetName(rows: Table, u: User, id: Id, name: string): (r: Table)
    ensures |r| == |rows|
    ensures forall i :: 0 <= i < |rows| ==>
      r[i] == if rows[i].id == id && rows[i].user == u then rows[i].(name := name) else rows[i]
  {
    seq(|rows|, i requires 0 <= i < |rows| =>
      if rows[i].id == id && rows[i].user == u then rows[i].(name := name) else rows[i])
  }

  /** Some other category of the same user and parent has the name already. */
  predicate NameTaken(rows: Table, k: nat, name: string)
    requires k < |rows|
  {
    exists i :: 0 <= i < |rows| && i != k && Clash(rows[k].(name := name), rows[i])
  }

  lemma RenameKeepsForest(rows: Table, u: User, id: Id, name: string)
    requires Forest(rows)
    ensures Forest(SetName(rows, u, id, name))
  {
    var rows' := SetName(rows, u, id, name);
    forall i | 0 <= i < |rows'| && rows'[i].parent.Some? ensures IsRoot(rows', rows'[i].user, rows'[i].parent.value) {
      var x := rows[i];
      assert IsRoot(rows, x.user, x.parent.value);
      var r :| 0 <= r < |rows| && rows[r].id == x.parent.value && rows[r].user == x.user && rows[r].parent.None?;
      assert rows'[r].id == rows[r].id;
    }
  }

  lemma RenameKeepsSiblingsIff(rows: Table, k: nat, name: string)
    requires UniqueIds(rows) && SiblingsDistinct(rows) && k < |rows|
    ensures SetName(rows, rows[k].user, rows[k].id, name) == rows[k := rows[k].(name := name)]
    ensures SiblingsDistinct(SetName(rows, rows[k].user, rows[k].id, name)) <==> !NameTaken(rows, k, name)
  {
    var rows' := rows[k := rows[k].(name := name)];
    assert SetName(rows, rows[k].user, rows[k].id, name) == rows';
    if NameTaken(rows, k, name) {
      var i :| 0 <= i < |rows| && i != k && Clash(rows[k].(name := name), rows[i]);
      assert if i < k then Clash(rows'[i], rows'[k]) else Clash(rows'[k], rows'[i]);
    } else {
      forall i, j | 0 <= i < j < |rows'| ensures !Clash(rows'[i], rows'[j]) {
        if i != k && j != k {
          assert !Clash(rows[i], rows[j]);
        } else {
          assert !Clash(rows[k].(name := name), rows[if i == k then j else i]);
        }
      }
    }
  }

  /** What the foreign keys leave after a row is deleted: not its children either. */
  function Cascade(rows: Table, id: Id): Table {
    if rows == [] then []
    else
      var rest := Cascade(rows[..|rows| - 1], id);
      var last := rows[|rows| - 1];
      if last.id == id || last.parent == Some(id) then rest else rest + [last]
  }

  lemma {:induction false} CascadeKeeps(rows: Table, id: Id)
    ensures forall c :: c in Cascade(rows, id) <==> c in rows && c.id != id && c.parent != Some(id)
    ensures UniqueIds(rows) ==> UniqueIds(Cascade(rows, id))
  {
    if rows != [] {
      var init := rows[..|rows| - 1];
      CascadeKeeps(init, id);
      assert rows == init + [rows[|rows| - 1]];
      var left := Cascade(init, id);
      forall i | UniqueIds(rows) && 0 <= i < |left| ensures left[i].id != rows[|rows| - 1].id {
        assert left[i] in init;
      }
    }
  }

  /** What is left keeps its order: each half of the table is thinned out on its own. */
  lemma {:induction false} CascadeConcat(a: Table, b: Table, id: Id)
    ensures Cascade(a + b, id) == Cascade(a, id) + Cascade(b, id)
  {
    if b == [] {
      assert a + b == a;
    } else {
      CascadeConcat(a, b[..|b| - 1], id);
      assert (a + b)[..|a + b| - 1] == a + b[..|b| - 1];
    }
  }

  lemma {:induction false} CascadeKeepsSiblings(rows: Table, id: Id)
    requires SiblingsDistinct(rows)
    ensures SiblingsDistinct(Cascade(rows, id))
  {
    if rows != [] {
      var init, last := rows[..|rows| - 1], rows[|rows| - 1];
      CascadeKeepsSiblings(init, id);
      CascadeKeeps(init, id);
      var left := Cascade(init, id);
      forall i | 0 <= i < |left| ensures !Clash(left[i], last) {
        assert left[i] in init;
        var k :| 0 <= k < |init| && init[k] == left[i];
        assert !Clash(rows[k], rows[|rows| - 1]);
      }
    }
  }

  /** The cascade leaves a forest, so it stops there: no row that is left names a row that is gone. */
  lemma CascadeKeepsForest(rows: Table, id: Id)
    requires Forest(rows)
    ensures Forest(Cascade(rows, id))
  {
    CascadeKeeps(rows, id);
    var left := Cascade(rows, id);
    forall i | 0 <= i < |left| && left[i].parent.Some? ensures IsRoot(left, left[i].user, left[i].parent.value) {
      var c := left[i];
      assert c in rows;
      var k :| 0 <= k < |rows| && rows[k] == c;
      assert IsRoot(rows, c.user, c.parent.value);
      var r :| 0 <= r < |rows| && rows[r].id == c.parent.value && rows[r].user == c.user && rows[r].parent.None?;
      assert rows[r] in left;
      var m :| 0 <= m < |left| && left[m] == rows[r];
      assert left[m].id == c.parent.value;
    }
  }

  lemma AppendKeepsForest(rows: Table, c: Category)
    requires Forest(rows) && (forall r :: r in rows ==> r.id != c.id)
    requires c.parent.Some? ==> IsRoot(rows, c.user, c.parent.value)
    ensures Forest(rows + [c])
  {
    var rows' := rows + [c];
    forall i | 0 <= i < |rows'| && rows'[i].parent.Some? ensures IsRoot(rows', rows'[i].user, rows'[i].parent.value) {
      var x := rows'[i];
      assert IsRoot(rows, x.user, x.parent.value);
      var r :| 0 <= r < |rows| && rows[r].id == x.parent.value && rows[r].user == x.user && rows[r].parent.None?;
      assert rows'[r] == rows[r];
    }
  }

  /** The rows that `list_categories` reads for one user. */
  function OwnedBy(rows: Table, u: User): Table {
    if rows == [] then []
    else
      var rest := OwnedBy(rows[..|rows| - 1], u);
      if rows[|rows| - 1].user == u then rest + [rows[|rows| - 1]] else rest
  }

  lemma {:induction false} OwnedByKeeps(rows: Table, u: User)
    ensures forall c :: c in OwnedBy(rows, u) <==> c in rows && c.user == u
    ensures UniqueIds(rows) ==> UniqueIds(OwnedBy(rows, u))
  {
    if rows != [] {
      var init := rows[..|rows| - 1];
      OwnedByKeeps(init, u);
      assert rows == init + [rows[|rows| - 1]];
      var left := OwnedBy(init, u);
      forall i | UniqueIds(rows) && 0 <= i < |left| ensures left[i].id != rows[|rows| - 1].id {
        assert left[i] in init;
      }
    }
  }

  lemma {:induction false} OwnedByConcat(a: Table, b: Table, u: User)
    ensures OwnedBy(a + b, u) == OwnedBy(a, u) + OwnedBy(b, u)
  {
    if b == [] {
      assert a + b == a;
    } else {
      OwnedByConcat(a, b[..|b| - 1], u);
      assert (a + b)[..|a + b| - 1] == a + b[..|b| - 1];
    }
  }

  /** One user's rows of a forest are a forest. */
  lemma OwnRowsFormForest(rows: Table, u: User)
    requires Forest(rows)
    ensures Forest(OwnedBy(rows, u))
  {
    OwnedByKeeps(rows, u);
    var own := OwnedBy(rows, u);
    forall i | 0 <= i < |own| && own[i].parent.Some? ensures IsRoot(own, own[i].user, own[i].parent.value) {
      var c := own[i];
      assert c in rows;
      var k :| 0 <= k < |rows| && rows[k] == c;
      assert IsRoot(rows, c.user, c.parent.value);
      var r :| 0 <= r < |rows| && rows[r].id == c.parent.value && rows[r].user == c.user && rows[r].parent.None?;
      assert rows[r] in own;
      var m :| 0 <= m < |own| && own[m] == rows[r];
      assert own[m].id == c.parent.value;
    }
  }

  // ---- The tree ----

  /** `build_children` */
  function BuildChildren(parent: Id, all: Table): seq<Node> {
    if all == [] then []
    else
      var c := all[|all| - 1];
      var rest := BuildChildren(parent, all[..|all| - 1]);
      if c.parent == Some(parent) then rest + [Node(c.id, c.name, Some(parent), [])] else rest
  }

  /** The roots among `some`, each with its children among `all`. */
  function Roots(some: Table, all: Table): seq<Node> {
    if some == [] then []
    else
      var c := some[|some| - 1];
      var rest := Roots(some[..|some| - 1], all);
      if c.parent.None? then rest + [Node(c.id, c.name, None, BuildChildren(c.id, all))] else rest
  }

  /** How often an id occurs in a forest of nodes. */
  function Occurs(nodes: seq<Node>, x: Id): nat {
    if nodes == [] then 0
    else
      var n := nodes[|nodes| - 1];
      Occurs(nodes[..|nodes| - 1], x) + (if n.id == x then 1 else 0) + Occurs(n.children, x)
  }

  lemma OccursAppend(nodes: seq<Node>, n: Node, x: Id)
    ensures Occurs(nodes + [n], x) == Occurs(nodes, x) + (if n.id == x then 1 else 0) + Occurs(n.children, x)
  {
    assert (nodes + [n])[..|nodes|] == nodes;
  }

  /** How often `x` is the id of a child of `parent`. */
  function AsChild(rows: Table, parent: Id, x: Id): nat {
    if rows == [] then 0
    else AsChild(rows[..|rows| - 1], parent, x)
         + if rows[|rows| - 1].parent == Some(parent) && rows[|rows| - 1].id == x then 1 else 0
  }

  lemma {:induction false} ChildrenOccur(parent: Id, all: Table, x: Id)
    ensures Occurs(BuildChildren(parent, all), x) == AsChild(all, parent, x)
  {
    if all != [] {
      var c := all[|all| - 1];
      ChildrenOccur(parent, all[..|all| - 1], x);
      if c.parent == Some(parent) {
        OccursAppend(BuildChildren(parent, all[..|all| - 1]), Node(c.id, c.name, Some(parent), []), x);
      }
    }
  }

  /** With unique ids, a row with id `x` is a child of its own parent once, and of nobody else. */
  lemma {:induction false} ChildOnce(rows: Table, k: nat, n: nat, parent: Id)
    requires UniqueIds(rows) && k < |rows| && n <= |rows|
    ensures AsChild(rows[..n], parent, rows[k].id) == if k < n && rows[k].parent == Some(parent) then 1 else 0
  {
    if n > 0 {
      ChildOnce(rows, k, n - 1, parent);
      assert rows[..n][..n - 1] == rows[..n - 1];
    }
  }

  /** Whether row `k` is listed by the first `n` rows: as a root itself, or under its root. */
  predicate Listed(rows: Table, k: nat, n: nat)
    requires k < |rows| && n <= |rows|
  {
    if rows[k].parent.None? then k < n
    else exists r :: 0 <= r < n && rows[r].parent.None? && rows[r].id == rows[k].parent.value
  }

  lemma {:induction false} ListedOnce(rows: Table, k: nat, n: nat)
    requires UniqueIds(rows) && k < |rows| && n <= |rows|
    ensures Occurs(Roots(rows[..n], rows), rows[k].id) == if Listed(rows, k, n) then 1 else 0
  {
    if n > 0 {
      var c, x := rows[n - 1], rows[k].id;
      ListedOnce(rows, k, n - 1);
      assert rows[..n][..n - 1] == rows[..n - 1];
      if c.parent.None? {
        OccursAppend(Roots(rows[..n - 1], rows), Node(c.id, c.name, None, BuildChildren(c.id, rows)), x);
        ChildrenOccur(c.id, rows, x);
        ChildOnce(rows, k, |rows|, c.id);
        assert rows[..|rows|] == rows;
        if rows[k].parent == Some(c.id) {
          assert rows[n - 1].id == rows[k].parent.value;
        }
      }
    }
  }

  /** The tree of a forest lists every row exactly once, at any place in the table. */
  lemma TreeListsEachRowOnce(rows: Table, k: nat)
    requires Forest(rows) && k < |rows|
    ensures Occurs(Roots(rows, rows), rows[k].id) == 1
  {
    ListedOnce(rows, k, |rows|);
    assert rows[..|rows|] == rows;
    if rows[k].parent.Some? {
      assert IsRoot(rows, rows[k].user, rows[k].parent.value);
      var r :| 0 <= r < |rows| && rows[r].id == rows[k].parent.value && rows[r].user == rows[k].user && rows[r].parent.None?;
      assert Listed(rows, k, |rows|);
    }
  }

  /** The ids of the rows under `parent`, in row order. */
  function IdsWhere(rows: Table, parent: Option<Id>): seq<Id> {
    if rows == [] then []
    else
      var rest := IdsWhere(rows[..|rows| - 1], parent);
      if rows[|rows| - 1].parent == parent then rest + [rows[|rows| - 1].id] else rest
  }

  lemma {:induction false} IdsWhereConcat(a: Table, b: Table, parent: Option<Id>)
    ensures IdsWhere(a + b, parent) == IdsWhere(a, parent) + IdsWhere(b, parent)
  {
    if b == [] {
      assert a + b == a;
    } else {
      IdsWhereConcat(a, b[..|b| - 1], parent);
      assert (a + b)[..|a + b| - 1] == a + b[..|b| - 1];
    }
  }

  /**
   A new category is listed behind the older ones of its user and parent, and in nobody else's
   list.
   */
  lemma NewestComesLast(rows: Table, c: Category, u: User, parent: Option<Id>)
    ensures IdsWhere(OwnedBy(rows + [c], u), parent)
         == IdsWhere(OwnedBy(rows, u), parent) + if c.user == u && c.parent == parent then [c.id] else []
  {
    OwnedByConcat(rows, [c], u);
    assert OwnedBy([c], u) == if c.user == u then [c] else [];
    IdsWhereConcat(OwnedBy(rows, u), OwnedBy([c], u), parent);
    assert IdsWhere([c], parent) == if c.parent == parent then [c.id] else [];
  }

  function NodeIds(nodes: seq<Node>): seq<Id> { seq(|nodes|, i requires 0 <= i < |nodes| => nodes[i].id) }

  lemma NodeIdsAppend(nodes: seq<Node>, n: Node)
    ensures NodeIds(nodes + [n]) == NodeIds(nodes) + [n.id]
  {
  }

  lemma {:induction false} ChildrenInOrder(parent: Id, all: Table)
    ensures NodeIds(BuildChildren(parent, all)) == IdsWhere(all, Some(parent))
    ensures forall i :: 0 <= i < |BuildChildren(parent, all)| ==> ShowsChild(all, parent, BuildChildren(parent, all)[i])
  {
    if all != [] {
      var init, c := all[..|all| - 1], all[|all| - 1];
      ChildrenInOrder(parent, init);
      assert all == init + [c];
      var cs := BuildChildren(parent, init);
      forall i | 0 <= i < |cs| ensures ShowsChild(all, parent, cs[i]) {
        assert ShowsChild(init, parent, cs[i]);
      }
    }
  }

  /** A leaf with the id and name of some child of `parent`. */
  predicate ShowsChild(rows: Table, parent: Id, n: Node) {
    n.children == [] && n.parent == Some(parent)
    && exists i :: 0 <= i < |rows| && rows[i].parent == n.parent && rows[i].id == n.id && rows[i].name == n.name
  }

  predicate ShowsRoot(rows: Table, n: Node) {
    n.parent.None? && exists i :: 0 <= i < |rows| && rows[i].parent.None? && rows[i].id == n.id && rows[i].name == n.name
  }

  /** The roots come in row order, and under each root exactly its children, in row order. */
  lemma {:induction false} TreeInOrder(some: Table, all: Table)
    ensures var t := Roots(some, all);
      && NodeIds(t) == IdsWhere(some, None)
      && (forall i :: 0 <= i < |t| ==> ShowsRoot(some, t[i]) && NodeIds(t[i].children) == IdsWhere(all, Some(t[i].id)))
      && forall i, k :: 0 <= i < |t| && 0 <= k < |t[i].children| ==> ShowsChild(all, t[i].id, t[i].children[k])
  {
    if some != [] {
      var init, c := some[..|some| - 1], some[|some| - 1];
      TreeInOrder(init, all);
      ChildrenInOrder(c.id, all);
      if c.parent.None? {
        NodeIdsAppend(Roots(init, all), Node(c.id, c.name, None, BuildChildren(c.id, all)));
      }
      var t := Roots(init, all);
      assert some == init + [c] && some[|some| - 1] == c;
      forall i | 0 <= i < |t| ensures ShowsRoot(some, t[i]) {
        assert ShowsRoot(init, t[i]);
      }
    }
  }

  // ---- The handlers ----

  predicate ValidName(name: string) { 0 < Text.Bytes(name) <= 128 }

  /** No white space at the ends, and a length that a creation accepts. */
  predicate ProperName(name: string) { Text.Trim(name) == name && ValidName(name) }

  class CategoryStore {
    var rows: Table

    ghost predicate Valid()
      reads this
    {
      Forest(rows) && SiblingsDistinct(rows)
    }

    ghost predicate NamesProper()
      reads this
    {
      forall c :: c in rows ==> ProperName(c.name)
    }

    constructor ()
      ensures Valid() && NamesProper() && rows == []
    {
      rows := [];
    }

    /** `create_category`; the database picks an id that is not in use. */
    method Create(u: User, name: string, parent: Option<Id>, id: Id) returns (r: Result<Category, Failure>)
      requires Valid() && forall c :: c in rows ==> c.id != id
      modifies this
      ensures Valid() && (old(NamesProper()) ==> NamesProper())
      ensures var size := Text.Bytes(Text.Trim(name)); r == Err(InvalidName) <==> size == 0 || size > 128
      ensures r == Err(NotFound) <==>
        ValidName(Text.Trim(name)) && parent.Some? && forall c :: c in old(rows) && c.id == parent.value ==> c.user != u
      ensures r == Err(DepthExceeded) <==>
        && ValidName(Text.Trim(name)) && parent.Some?
        && exists c :: c in old(rows) && c.id == parent.value && c.user == u && c.parent.Some?
      ensures r == Err(NameExists) <==>
        && ValidName(Text.Trim(name)) && parent.Some? && IsRoot(old(rows), u, parent.value)
        && exists c :: c in old(rows) && c.user == u && c.name == Text.Trim(name) && c.parent == parent
      ensures r != Err(Internal) && (r.Ok? ==> r.value == Category(id, u, Text.Trim(name), parent))
      ensures rows == if r.Ok? then old(rows) + [r.value] else old(rows)
    {
      var trimmed := Text.Trim(name);
      if Text.Bytes(trimmed) == 0 || Text.Bytes(trimmed) > 128 {
        return Err(InvalidName);
      }
      if parent.Some? {
        ParentMustBeRoot(rows, u, parent.value);
        var checked := ValidateDepth(rows, MAX_DEPTH, u, parent.value, 1);
        if checked.Err? {
          return Err(checked.error);
        }
      }
      var c := Category(id, u, trimmed, parent);
      AppendKeepsSiblingsIff(rows, c);
      if Conflicts(rows, u, trimmed, parent) {
        return Err(NameExists);
      }
      AppendKeepsForest(rows, c);
      Text.TrimTwice(name);
      rows := rows + [c];
      return Ok(c);
    }

    /**
     `update_category`: takes the name as it comes. Nobody checks it as a creation would, so
     the names stay proper exactly when this one is; and a taken name is an internal error.
     */
    method Rename(u: User, id: Id, name: Option<string>) returns (r: Result<Category, Failure>)
      requires Valid()
      modifies this
      ensures Valid()
      ensures r == Err(NotFound) <==> forall c :: c in old(rows) && c.id == id ==> c.user != u
      ensures r.Err? ==> rows == old(rows) && (r.error == NotFound || r.error == Internal)
      ensures r == Err(Internal) <==>
        exists k :: 0 <= k < |old(rows)| && Renames(old(rows), k, u, id, name) && NameTaken(old(rows), k, name.value)
      ensures r.Ok? && name.None? ==> rows == old(rows) && r.value in rows && r.value.id == id && r.value.user == u
      ensures r.Ok? && name.Some? ==>
        exists k :: 0 <= k < |old(rows)| && Renames(old(rows), k, u, id, name)
                    && r.value == old(rows)[k].(name := name.value) && rows == old(rows)[k := r.value]
      ensures old(NamesProper()) ==> (NamesProper() <==> r.Err? || ProperName(r.value.name))
    {
      var existing := Find(rows, u, id);
      if existing.None? {
        return Err(NotFound);
      }
      ghost var k :| 0 <= k < |rows| && rows[k] == existing.value;
      var newName := if name.Some? then name.value else existing.value.name;
      RenameKeepsForest(rows, u, id, newName);
      RenameKeepsSiblingsIff(rows, k, newName);
      var updated := SetName(rows, u, id, newName);
      assert updated[k] in updated;
      if !SiblingsDistinct(updated) {
        return Err(Internal);
      }
      rows := updated;
      return Ok(existing.value.(name := newName));
    }

    /** `delete_category` */
    method Delete(u: User, id: Id) returns (r: Result<(), Failure>)
      requires Valid()
      modifies this
      ensures Valid() && (old(NamesProper()) ==> NamesProper())
      ensures r == if Find(old(rows), u, id).Some? then Ok(()) else Err(NotFound)
      ensures r.Ok? ==> forall c :: c in rows <==> c in old(rows) && c.id != id && c.parent != Some(id)
      ensures rows == if r.Ok? then Cascade(old(rows), id) else old(rows)
    {
      if Find(rows, u, id).None? {
        return Err(NotFound);
      }
      CascadeKeepsForest(rows, id);
      CascadeKeepsSiblings(rows, id);
      CascadeKeeps(rows, id);
      rows := Cascade(rows, id);
      return Ok(());
    }

    /** `list_categories`: every row of the user once, under its own parent. */
    method List(u: User) returns (tree: seq<Node>)
      requires Valid()
      ensures NodeIds(tree) == IdsWhere(OwnedBy(rows, u), None)
      ensures forall i :: 0 <= i < |tree| ==> NodeIds(tree[i].children) == IdsWhere(OwnedBy(rows, u), Some(tree[i].id))
      ensures forall c :: c in rows && c.user == u ==> Occurs(tree, c.id) == 1
    {
      OwnRowsFormForest(rows, u);
      OwnedByKeeps(rows, u);
      tree := BuildTree(OwnedBy(rows, u));
    }
  }

  /** Row `k` is the one that this request gives a name to. */
  predicate Renames(rows: Table, k: nat, u: User, id: Id, name: Option<string>)
    requires k < |rows|
  {
    rows[k].id == id && rows[k].user == u && name.Some?
  }

  /** `build_tree` */
  method BuildTree(categories: Table) returns (roots: seq<Node>)
    ensures roots == Roots(categories, categories)
    ensures NodeIds(roots) == IdsWhere(categories, None)
    ensures forall i :: 0 <= i < |roots| ==> NodeIds(roots[i].children) == IdsWhere(categories, Some(roots[i].id))
    ensures Forest(categories) ==> forall c :: c in categories ==> Occurs(roots, c.id) == 1
  {
    roots := [];
    var i := 0;
    while i < |categories|
      invariant 0 <= i <= |categories|
      invariant roots == Roots(categories[..i], categories)
    {
      var cat := categories[i];
      assert categories[..i + 1][..i] == categories[..i];
      if cat.parent.None? {
        roots := roots + [Node(cat.id, cat.name, None, BuildChildren(cat.id, categories))];
      }
      i := i + 1;
    }
    assert categories[..i] == categories;
    TreeInOrder(categories, categories);
    forall c | c in categories && Forest(categories) ensures Occurs(roots, c.id) == 1 {
      var k :| 0 <= k < |categories| && categories[k] == c;
      TreeListsEachRowOnce(categories, k);
    }
  }
}
