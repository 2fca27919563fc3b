/**
 Image metadata behind a cache: reads go through it, and the writers of the API delete the
 key of every image they write. One request runs at a time; requests come from the owner of
 the images they name. The cache may lose any command: a lost DEL leaves an old row behind,
 which is why an entry lives for 600 seconds only.
 */
module ImageCache {
  import opened Commons
  import Text

  type ImageId = int

  /** The columns of an image row that some request changes. */
  datatype Row = Row(name: string, category: Option<int>, status: string, thumbnail: Option<string>)

  datatype Entry = Entry(row: Row, expires: nat)

  datatype Failure = BadRequest | NotFound

  const TTL: nat := 600

  type Table = map<ImageId, Row>

  /** The uncached read. */
  function Direct(db: Table, id: ImageId): Option<Row> {
    if id in db then Some(db[id]) else None
  }

  /** `validate_original_name` */
  predicate ValidName(name: string) {
    0 < Text.Bytes(name) <= 255 && '/' !in name && '\\' !in name && '\0' !in name
  }

  /** `validate_batch_ids` and `validate_batch_move` */
  predicate ValidBatch(ids: seq<ImageId>) { 0 < |ids| <= 100 }

  function SetCategory(db: Table, ids: seq<ImageId>, category: Option<int>): Table {
    map id | id in db :: if id in ids then db[id].(category := category) else db[id]
  }

  function Without(db: Table, ids: seq<ImageId>): Table {
    map id | id in db && id !in ids :: db[id]
  }

  function Present(db: Table, ids: seq<ImageId>): set<ImageId> {
    set id | id in ids && id in db
  }

  predicate LiveIn(cache: map<ImageId, Entry>, clock: nat, id: ImageId) {
    id in cache && clock < cache[id].expires
  }

  /** What the cache answers for `id` is the row the database holds. */
  predicate AgreesIn(db: Table, cache: map<ImageId, Entry>, clock: nat, id: ImageId) {
    LiveIn(cache, clock, id) ==> Direct(db, id) == Some(cache[id].row)
  }

  ghost predicate CoherentIn(db: Table, cache: map<ImageId, Entry>, clock: nat) {
    forall id :: id in cache ==> AgreesIn(db, cache, clock, id)
  }

  /** The database as it stood at a time. */
  datatype Moment = Moment(db: Table, at: nat)

  /** At some moment the entry's row was in the database, and it expires 600 seconds after that moment. */
  ghost predicate WasRead(past: seq<Moment>, id: ImageId, e: Entry) {
    exists m :: m in past && Direct(m.db, id) == Some(e.row) && e.expires == m.at + 600
  }

  ghost predicate Remembered(past: seq<Moment>, cache: map<ImageId, Entry>) {
    forall id :: id in cache ==> WasRead(past, id, cache[id])
  }

  /** `row` was what the database held for `id` less than 600 seconds before `clock`. */
  ghost predicate CurrentLately(past: seq<Moment>, id: ImageId, row: Row, clock: nat) {
    exists m :: m in past && Direct(m.db, id) == Some(row) && m.at <= clock < m.at + 600
  }

  lemma StillRemembered(past: seq<Moment>, cache: map<ImageId, Entry>, m: Moment, left: map<ImageId, Entry>)
    requires Remembered(past, cache)
    requires forall id :: id in left ==> id in cache && left[id] == cache[id]
    ensures Remembered(past + [m], left)
  {
    forall id | id in left ensures WasRead(past + [m], id, left[id]) {
      assert WasRead(past, id, cache[id]);
      var was :| was in past && Direct(was.db, id) == Some(cache[id].row) && cache[id].expires == was.at + 600;
      assert was in past + [m];
    }
  }

  lemma StoreIsRemembered(past: seq<Moment>, cache: map<ImageId, Entry>, m: Moment, id: ImageId)
    requires Remembered(past, cache) && m in past && id in m.db
    ensures Remembered(past, cache[id := Entry(m.db[id], m.at + TTL)])
  {
    var stored := cache[id := Entry(m.db[id], m.at + TTL)];
    forall x | x in stored ensures WasRead(past, x, stored[x]) {
      if x != id {
        assert WasRead(past, x, cache[x]);
      }
    }
  }

  lemma LiveIsRecent(past: seq<Moment>, cache: map<ImageId, Entry>, clock: nat, id: ImageId)
    requires Remembered(past, cache) && LiveIn(cache, clock, id) && forall m :: m in past ==> m.at <= clock
    ensures CurrentLately(past, id, cache[id].row, clock)
  {
    assert WasRead(past, id, cache[id]);
  }

  /** The keys of the DELs that worked are gone from `left`, and nothing else is. */
  ghost predicate LeftBy(cached: map<ImageId, Entry>, left: map<ImageId, Entry>, ids: seq<ImageId>, works: seq<bool>)
    requires |ids| == |works|
  {
    && (forall id :: id in left <==> id in cached && !Deleted(ids, works, |ids|, id))
    && forall id :: id in left ==> left[id] == cached[id]
  }

  class ImageApi {
    var db: Table
    var cache: map<ImageId, Entry>
    var clock: nat                 // seconds
    ghost var past: seq<Moment>    // what the database held after each request and each tick

    ghost predicate Valid()
      reads this
    {
      && past != [] && past[|past| - 1] == Moment(db, clock)
      && (forall m :: m in past ==> m.at <= clock)
      && Remembered(past, cache)
    }

    /** The key of `id` is in the cache and has not expired. */
    predicate Live(id: ImageId)
      reads this
    {
      LiveIn(cache, clock, id)
    }

    predicate Agrees(id: ImageId)
      reads this
    {
      AgreesIn(db, cache, clock, id)
    }

    ghost predicate Coherent()
      reads this
    {
      CoherentIn(db, cache, clock)
    }

    constructor (db: Table)
      ensures Valid() && Coherent() && this.db == db && cache == map[] && clock == 0
      ensures past == [Moment(db, 0)]
    {
      this.db, cache, clock, past := db, map[], 0, [Moment(db, 0)];
    }

    method Tick(seconds: nat)
      requires Valid()
      modifies this`clock, this`past
      ensures Valid() && clock == old(clock) + seconds && past == old(past) + [Moment(db, clock)]
      ensures old(Coherent()) ==> Coherent()
    {
      StillRemembered(past, cache, Moment(db, clock + seconds), cache);
      clock := clock + seconds;
      past := past + [Moment(db, clock)];
      assert forall id :: id in cache && old(Coherent()) ==> old(Agrees(id));
    }

    /** Notes the moment; `cached` is what the cache held before the request took keys out of it. */
    ghost method Record(cached: map<ImageId, Entry>)
      requires past != [] && (forall m :: m in past ==> m.at <= clock) && Remembered(past, cached)
      requires forall id :: id in cache ==> id in cached && cache[id] == cached[id]
      modifies this`past
      ensures Valid() && past == old(past) + [Moment(db, clock)]
    {
      StillRemembered(past, cached, Moment(db, clock), cache);
      past := past + [Moment(db, clock)];
    }

    /**
     `get_image` by way of `cached_meta`; the GET and the SETEX may each fail. A miss that finds
     the row keeps it for 600 seconds; whatever requests ran and whatever DELs were lost before,
     a row that is answered was the row of the database less than 600 seconds ago.
     */
    method GetImage(id: ImageId, getWorks: bool, setWorks: bool) returns (r: Option<Row>)
      requires Valid()
      modifies this`cache, this`past
      ensures Valid() && past == old(past) + [Moment(db, clock)]
      ensures r == if getWorks && old(Live(id)) then Some(old(cache[id].row)) else Direct(db, id)
      ensures old(Coherent()) ==> r == Direct(db, id) && Coherent()
      ensures cache == if !(getWorks && old(Live(id))) && id in db && setWorks
                       then old(cache)[id := Entry(db[id], clock + 600)] else old(cache)
      ensures r.Some? ==> CurrentLately(old(past), id, r.value, clock)
    {
      assert id in cache ==> old(Coherent()) ==> Agrees(id);
      ghost var now := Moment(db, clock);
      StillRemembered(past, cache, now, cache);
      past := past + [now];
      if getWorks && Live(id) {
        LiveIsRecent(old(past), cache, clock, id);
        return Some(cache[id].row);
      }
      r := Direct(db, id);
      assert old(past)[|old(past)| - 1] == now;
      if r.Some? && setWorks {
        StoreIsRemembered(past, cache, now, id);
        cache := cache[id := Entry(r.value, clock + TTL)];
      }
      assert forall x :: x in old(cache) && old(Coherent()) ==> old(Agrees(x));
    }

    method Del(id: ImageId, works: bool)
      modifies this`cache
      ensures cache == if works then old(cache) - {id} else old(cache)
    {
      if works {
        cache := cache - {id};
      }
    }

    /** The DELs of a batch, one key after the other. */
    method DelAll(ids: seq<ImageId>, works: seq<bool>)
      requires |works| == |ids|
      modifies this`cache
      ensures LeftBy(old(cache), cache, ids, works)
    {
      var k := 0;
      while k < |ids|
        invariant 0 <= k <= |ids|
        invariant forall id :: id in cache <==> id in old(cache) && !Deleted(ids, works, k, id)
        invariant forall id :: id in cache ==> cache[id] == old(cache)[id]
      {
        Del(ids[k], works[k]);
        k := k + 1;
      }
    }

    /**
     `rename_image`. A right cache stays right exactly when the DEL worked, or there was nothing
     live to delete, or the name did not change.
     */
    method Rename(id: ImageId, name: string, delWorks: bool) returns (r: Result<Row, Failure>)
      requires Valid()
      modifies this
      ensures Valid() && clock == old(clock) && past == old(past) + [Moment(db, clock)]
      ensures r == Err(BadRequest) <==>
        Text.Bytes(name) == 0 || Text.Bytes(name) > 255 || '/' in name || '\\' in name || '\0' in name
      ensures r == Err(NotFound) <==> ValidName(name) && id !in old(db)
      ensures r.Err? ==> db == old(db) && cache == old(cache)
      ensures r.Ok? ==> id in old(db)
      ensures r.Ok? ==>
        r.value == old(db)[id].(name := name) && db == old(db)[id := r.value]
        && cache == if delWorks then old(cache) - {id} else old(cache)
      ensures old(Coherent()) ==>
        (Coherent() <==> r.Err? || delWorks || !old(Live(id)) || old(db)[id].name == name)
    {
      if ValidName(name) && id in db {
        db := db[id := db[id].(name := name)];
        var updated := db[id];
        Del(id, delWorks);
        if old(Coherent()) {
          WriteAgreement(old(db), db, old(cache), cache, clock, id, delWorks);
        }
        r := Ok(updated);
      } else {
        r := Err(if ValidName(name) then NotFound else BadRequest);
      }
      Record(old(cache));
    }

    /** `move_image`; `None` takes the image out of its category. */
    method Move(id: ImageId, category: Option<int>, owned: bool, delWorks: bool) returns (r: Result<(), Failure>)
      requires Valid()
      modifies this
      ensures Valid() && clock == old(clock) && past == old(past) + [Moment(db, clock)]
      ensures r == if (category.Some? && !owned) || id !in old(db) then Err(NotFound) else Ok(())
      ensures r.Err? ==> db == old(db) && cache == old(cache)
      ensures r.Ok? ==> db == old(db)[id := old(db)[id].(category := category)]
      ensures r.Ok? ==> cache == if delWorks then old(cache) - {id} else old(cache)
      ensures old(Coherent()) ==>
        (Coherent() <==> r.Err? || delWorks || !old(Live(id)) || old(db)[id].category == category)
    {
      if (category.Some? && !owned) || id !in db {
        r := Err(NotFound);
      } else {
        db := db[id := db[id].(category := category)];
        Del(id, delWorks);
        if old(Coherent()) {
          WriteAgreement(old(db), db, old(cache), cache, clock, id, delWorks);
        }
        r := Ok(());
      }
      Record(old(cache));
    }

    /** `delete_image` */
    method Delete(id: ImageId, delWorks: bool) returns (r: Result<(), Failure>)
      requires Valid()
      modifies this
      ensures Valid() && clock == old(clock) && past == old(past) + [Moment(db, clock)]
      ensures r == if id in old(db) then Ok(()) else Err(NotFound)
      ensures db == old(db) - {id}
      ensures cache == if r.Ok? && delWorks then old(cache) - {id} else old(cache)
      ensures old(Coherent()) ==> (Coherent() <==> r.Err? || delWorks || !old(Live(id)))
    {
      if id !in db {
        r := Err(NotFound);
      } else {
        db := db - {id};
        Del(id, delWorks);
        if old(Coherent()) {
          WriteAgreement(old(db), db, old(cache), cache, clock, id, delWorks);
        }
        r := Ok(());
      }
      Record(old(cache));
    }

    /** One statement of a batch, and the DELs that follow it. */
    method WriteBatch(changed: Table, ids: seq<ImageId>, works: seq<bool>)
      requires Valid() && |works| == |ids| && OnlyChanges(db, changed, ids)
      modifies this
      ensures Valid() && clock == old(clock) && db == changed && past == old(past) + [Moment(db, clock)]
      ensures LeftBy(old(cache), cache, ids, works)
      ensures old(Coherent()) ==> (Coherent() <==> Covered(old(cache), clock, old(db), db, ids, works))
    {
      db := changed;
      DelAll(ids, works);
      if old(Coherent()) {
        BatchAgreement(old(db), db, old(cache), cache, clock, ids, works);
      }
      Record(old(cache));
    }

    /** `batch_move_images`: one UPDATE, then one DEL per named id. */
    method BatchMove(ids: seq<ImageId>, category: int, owned: bool, works: seq<bool>)
      returns (r: Result<nat, Failure>)
      requires Valid() && |works| == |ids|
      modifies this
      ensures Valid() && clock == old(clock) && past == old(past) + [Moment(db, clock)]
      ensures r == Err(BadRequest) <==> |ids| == 0 || |ids| > 100
      ensures r == Err(NotFound) <==> 0 < |ids| <= 100 && !owned
      ensures r.Err? ==> db == old(db) && cache == old(cache)
      ensures r.Ok? ==>
        && r == Ok(|Present(old(db), ids)|)
        && db.Keys == old(db).Keys
        && LeftBy(old(cache), cache, ids, works)
        && forall id :: id in db ==>
             db[id] == if id in ids then old(db)[id].(category := Some(category)) else old(db)[id]
      ensures old(Coherent()) ==> (Coherent() <==> r.Err? || Covered(old(cache), clock, old(db), db, ids, works))
    {
      if !ValidBatch(ids) {
        Record(cache);
        return Err(BadRequest);
      }
      if !owned {
        Record(cache);
        return Err(NotFound);
      }
      r := Ok(|Present(db, ids)|);
      BatchesOnlyChange(db, ids, Some(category));
      WriteBatch(SetCategory(db, ids, Some(category)), ids, works);
    }

    /** `batch_delete`: counts what was deleted and what was not there. */
    method BatchDelete(ids: seq<ImageId>, works: seq<bool>) returns (r: Result<(nat, nat), Failure>)
      requires Valid() && |works| == |ids|
      modifies this
      ensures Valid() && clock == old(clock) && past == old(past) + [Moment(db, clock)]
      ensures r == Err(BadRequest) <==> |ids| == 0 || |ids| > 100
      ensures r.Err? ==> r == Err(BadRequest) && db == old(db) && cache == old(cache)
      ensures r.Ok? ==>
        var deleted := |Present(old(db), ids)|;
        && r == Ok((deleted, |ids| - deleted))
        && LeftBy(old(cache), cache, ids, works)
        && (forall id :: id in db <==> id in old(db) && id !in ids)
        && forall id :: id in db ==> db[id] == old(db)[id]
      ensures old(Coherent()) ==> (Coherent() <==> r.Err? || Covered(old(cache), clock, old(db), db, ids, works))
    {
      if !ValidBatch(ids) {
        Record(cache);
        return Err(BadRequest);
      }
      var deleted := |Present(db, ids)|;
      PresentBound(db, ids);
      BatchesOnlyChange(db, ids, None);
      WriteBatch(Without(db, ids), ids, works);
      return Ok((deleted, |ids| - deleted));
    }
  }

  /** Some of the first `k` DELs was for `id` and worked. */
  predicate Deleted(ids: seq<ImageId>, works: seq<bool>, k: nat, id: ImageId)
    requires k <= |ids| == |works|
  {
    exists i :: 0 <= i < k && ids[i] == id && works[i]
  }

  /** Every live key of the batch was deleted, or its row did not change. */
  predicate Covered(cached: map<ImageId, Entry>, clock: nat, was: Table, now: Table, ids: seq<ImageId>, works: seq<bool>)
    requires |ids| == |works|
  {
    forall id :: id in ids && LiveIn(cached, clock, id) ==> Spared(was, now, ids, works, id)
  }

  predicate Spared(was: Table, now: Table, ids: seq<ImageId>, works: seq<bool>, id: ImageId)
    requires |ids| == |works|
  {
    Deleted(ids, works, |ids|, id) || Direct(now, id) == Direct(was, id)
  }

  /** After one write the cache is right exactly when the key was deleted, or was not live, or its row stayed as it was. */
  lemma WriteAgreement(was: Table, now: Table, cached: map<ImageId, Entry>, left: map<ImageId, Entry>, clock: nat,
                       id: ImageId, works: bool)
    requires CoherentIn(was, cached, clock)
    requires forall other :: other != id ==> Direct(now, other) == Direct(was, other)
    requires left == if works then cached - {id} else cached
    ensures CoherentIn(now, left, clock) <==> works || !LiveIn(cached, clock, id) || Direct(now, id) == Direct(was, id)
  {
    assert id in cached ==> AgreesIn(was, cached, clock, id);
    if CoherentIn(now, left, clock) {
      assert id in left ==> AgreesIn(now, left, clock, id);
    } else {
      var x :| x in left && !AgreesIn(now, left, clock, x);
      assert AgreesIn(was, cached, clock, x);
    }
  }

  ghost predicate OnlyChanges(was: Table, now: Table, ids: seq<ImageId>) {
    forall id :: id !in ids ==> Direct(now, id) == Direct(was, id)
  }

  lemma BatchesOnlyChange(db: Table, ids: seq<ImageId>, category: Option<int>)
    ensures OnlyChanges(db, SetCategory(db, ids, category), ids) && OnlyChanges(db, Without(db, ids), ids)
  {
  }

  /** After a batch the cache is right exactly when each changed live key was deleted. */
  lemma BatchAgreement(was: Table, now: Table, cached: map<ImageId, Entry>, left: map<ImageId, Entry>, clock: nat,
                       ids: seq<ImageId>, works: seq<bool>)
    requires CoherentIn(was, cached, clock) && |works| == |ids|
    requires OnlyChanges(was, now, ids) && LeftBy(cached, left, ids, works)
    ensures CoherentIn(now, left, clock) <==> Covered(cached, clock, was, now, ids, works)
  {
    forall id | CoherentIn(now, left, clock) && id in ids && LiveIn(cached, clock, id)
      ensures Spared(was, now, ids, works, id)
    {
      assert AgreesIn(was, cached, clock, id);
      if id in left {
        assert AgreesIn(now, left, clock, id);
      }
    }
    forall id | Covered(cached, clock, was, now, ids, works) && id in left
      ensures AgreesIn(now, left, clock, id)
    {
      assert AgreesIn(was, cached, clock, id);
      assert id in ids && LiveIn(cached, clock, id) ==> Spared(was, now, ids, works, id);
    }
  }

  lemma {:induction false} PresentBound(db: Table, ids: seq<ImageId>)
    ensures |Present(db, ids)| <= |ids|
  {
    if ids != [] {
      var init, last := ids[..|ids| - 1], ids[|ids| - 1];
      PresentBound(db, init);
      assert Present(db, ids) <= Present(db, init) + {last};
      Subset(Present(db, ids), Present(db, init) + {last});
    }
  }

  lemma Subset(a: set<int>, b: set<int>)
    requires a <= b
    ensures |a| <= |b|
  {
    assert b == a + (b - a);
  }
}
