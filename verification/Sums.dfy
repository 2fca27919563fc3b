/** Counters kept in maps, and their sums over finite sets. */
module Sums {
  import opened Commons

  /** An absent counter is zero. */
  function Counter(m: map<int, nat>, id: int): nat {
    if id in m then m[id] else 0
  }

  ghost function Sum(ids: set<int>, f: map<int, nat>): nat {
    if ids == {} then 0 else NonEmpty(ids); var x :| x in ids; Counter(f, x) + Sum(ids - {x}, f)
  }

  lemma {:induction false} SumSplit(ids: set<int>, f: map<int, nat>, x: int)
    requires x in ids
    ensures Sum(ids, f) == Counter(f, x) + Sum(ids - {x}, f)
  {
    var y :| y in ids && Sum(ids, f) == Counter(f, y) + Sum(ids - {y}, f);
    if y != x {
      SumSplit(ids - {y}, f, x);
      SumSplit(ids - {x}, f, y);
      assert ids - {y} - {x} == ids - {x} - {y};
    }
  }

  lemma {:induction false} SumSame(ids: set<int>, f: map<int, nat>, g: map<int, nat>)
    requires forall id :: id in ids ==> Counter(f, id) == Counter(g, id)
    ensures Sum(ids, f) == Sum(ids, g)
  {
    if ids != {} {
      NonEmpty(ids);
      var x :| x in ids;
      SumSplit(ids, f, x);
      SumSplit(ids, g, x);
      SumSame(ids - {x}, f, g);
    }
  }

  lemma SumGrow(ids: set<int>, f: map<int, nat>, g: map<int, nat>, x: int)
    requires x in ids && Counter(g, x) == Counter(f, x) + 1
    requires forall id :: id in ids && id != x ==> Counter(f, id) == Counter(g, id)
    ensures Sum(ids, g) == Sum(ids, f) + 1
  {
    SumSplit(ids, f, x);
    SumSplit(ids, g, x);
    SumSame(ids - {x}, f, g);
  }

  lemma {:induction false} SumMonotone(ids: set<int>, f: map<int, nat>, g: map<int, nat>)
    requires forall id :: id in ids ==> Counter(f, id) <= Counter(g, id)
    ensures Sum(ids, f) <= Sum(ids, g)
  {
    if ids != {} {
      NonEmpty(ids);
      var x :| x in ids;
      SumSplit(ids, f, x);
      SumSplit(ids, g, x);
      SumMonotone(ids - {x}, f, g);
    }
  }

  lemma {:induction false} SumOfNew(ids: set<int>, f: map<int, nat>, x: int)
    requires x !in ids && Counter(f, x) == 0
    ensures Sum(ids + {x}, f) == Sum(ids, f)
  {
    SumSplit(ids + {x}, f, x);
    assert ids + {x} - {x} == ids;
  }
}
