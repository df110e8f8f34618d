/**
 * The unit of work of a database session: rows added with `db.add` are
 * inserted when the session flushes, and a row whose primary key is already
 * taken (committed or pending) makes the flush fail with an integrity error.
 */
module Session {
  import opened Wrappers
  import opened Records

  predicate DistinctKeys<R>(rows: seq<(string, R)>) {
    forall i, j :: 0 <= i < j < |rows| ==> rows[i].0 != rows[j].0
  }

  /** Both halves of a sequence with distinct keys have distinct keys. */
  lemma DistinctKeysSplit<R>(a: seq<(string, R)>, b: seq<(string, R)>)
    requires DistinctKeys(a + b)
    ensures DistinctKeys(a) && DistinctKeys(b)
  {
    assert forall i :: 0 <= i < |a| ==> (a + b)[i] == a[i];
    assert forall i :: 0 <= i < |b| ==> (a + b)[|a| + i] == b[i];
  }

  function KeysOf<R>(rows: seq<(string, R)>): set<string> {
    set i | 0 <= i < |rows| :: rows[i].0
  }

  /** Inserts `rows` in order into the table `m`; `None` when a key is already present. */
  function InsertRows<R>(m: map<string, R>, rows: seq<(string, R)>): (r: Option<map<string, R>>)
    ensures r.Some? <==> DistinctKeys(rows) && forall i :: 0 <= i < |rows| ==> rows[i].0 !in m
    ensures r.Some? ==> r.value.Keys == m.Keys + KeysOf(rows)
    ensures r.Some? ==> forall k :: k in m ==> r.value[k] == m[k]
    ensures r.Some? ==> forall i :: 0 <= i < |rows| ==> r.value[rows[i].0] == rows[i].1
    decreases |rows|
  {
    if rows == [] then Some(m)
    else if rows[0].0 in m then None
    else
      var r := InsertRows(m[rows[0].0 := rows[0].1], rows[1..]);
      assert forall i :: 1 <= i < |rows| ==> rows[i] == rows[1..][i - 1];
      assert KeysOf(rows) == {rows[0].0} + KeysOf(rows[1..]);
      r
  }

  /** Inserting a single row adds exactly that entry. */
  lemma InsertOne<R>(m: map<string, R>, k: string, v: R)
    ensures InsertRows(m, [(k, v)]) == if k in m then None else Some(m[k := v])
  {
    assert [(k, v)][1..] == [];
  }

  lemma {:induction false} InsertRowsAppend<R>(m: map<string, R>, a: seq<(string, R)>, b: seq<(string, R)>)
    ensures InsertRows(m, a + b) == (match InsertRows(m, a) case None => None case Some(m') => InsertRows(m', b))
    decreases |a|
  {
    if a == [] {
      assert a + b == b;
    } else {
      assert (a + b)[0] == a[0];
      assert (a + b)[1..] == a[1..] + b;
      if a[0].0 !in m {
        InsertRowsAppend(m[a[0].0 := a[0].1], a[1..], b);
      }
    }
  }

  /** Rows added to a session and not yet flushed, table by table, in the order they were added. */
  datatype Rows = Rows(
    images: seq<(string, Image)>,
    links: seq<(string, ImageLink)>,
    itineraries: seq<(string, Itinerary)>,
    days: seq<(string, ItineraryDay)>,
    hotels: seq<(string, HotelDetail)>,
    maps: seq<(string, Map)>,
    tags: seq<(string, Tag)>)
  {
    /** These rows, then `next`. */
    function Then(next: Rows): Rows {
      Rows(images + next.images, links + next.links, itineraries + next.itineraries,
           days + next.days, hotels + next.hotels, maps + next.maps, tags + next.tags)
    }
  }

  const NoRows := Rows([], [], [], [], [], [], [])

  /** `db.flush()`: insert every pending row, or fail as a whole. */
  function Flush(t: Tables, r: Rows): Option<Tables> {
    var images := InsertRows(t.images, r.images);
    var links := InsertRows(t.links, r.links);
    var itineraries := InsertRows(t.itineraries, r.itineraries);
    var days := InsertRows(t.days, r.days);
    var hotels := InsertRows(t.hotels, r.hotels);
    var maps := InsertRows(t.maps, r.maps);
    var tags := InsertRows(t.tags, r.tags);
    if images.Some? && links.Some? && itineraries.Some? && days.Some? && hotels.Some? && maps.Some? && tags.Some?
    then Some(Tables(images.value, links.value, itineraries.value, days.value, hotels.value, maps.value, tags.value))
    else None
  }

  /** Flushing two batches one after the other is flushing them together. */
  lemma FlushThen(t: Tables, a: Rows, b: Rows)
    ensures Flush(t, a.Then(b)) == (match Flush(t, a) case None => None case Some(t') => Flush(t', b))
  {
    InsertRowsAppend(t.images, a.images, b.images);
    InsertRowsAppend(t.links, a.links, b.links);
    InsertRowsAppend(t.itineraries, a.itineraries, b.itineraries);
    InsertRowsAppend(t.days, a.days, b.days);
    InsertRowsAppend(t.hotels, a.hotels, b.hotels);
    InsertRowsAppend(t.maps, a.maps, b.maps);
    InsertRowsAppend(t.tags, a.tags, b.tags);
  }

  /** A batch that fails to flush still fails once more rows follow it. */
  lemma FlushPrefixFails(t: Tables, a: Rows, b: Rows)
    requires Flush(t, a).None?
    ensures Flush(t, a.Then(b)).None?
  {
    FlushThen(t, a, b);
  }

  /** A flush succeeds exactly when every table takes its rows. */
  lemma FlushSucceeds(t: Tables, r: Rows)
    ensures Flush(t, r).Some? <==>
      && InsertRows(t.images, r.images).Some? && InsertRows(t.links, r.links).Some?
      && InsertRows(t.itineraries, r.itineraries).Some? && InsertRows(t.days, r.days).Some?
      && InsertRows(t.hotels, r.hotels).Some? && InsertRows(t.maps, r.maps).Some?
      && InsertRows(t.tags, r.tags).Some?
  {
  }

  /** A successful flush inserted every table's rows into that table. */
  lemma FlushParts(t: Tables, r: Rows)
    requires Flush(t, r).Some?
    ensures InsertRows(t.images, r.images) == Some(Flush(t, r).value.images)
    ensures InsertRows(t.links, r.links) == Some(Flush(t, r).value.links)
    ensures InsertRows(t.itineraries, r.itineraries) == Some(Flush(t, r).value.itineraries)
    ensures InsertRows(t.days, r.days) == Some(Flush(t, r).value.days)
    ensures InsertRows(t.hotels, r.hotels) == Some(Flush(t, r).value.hotels)
    ensures InsertRows(t.maps, r.maps) == Some(Flush(t, r).value.maps)
    ensures InsertRows(t.tags, r.tags) == Some(Flush(t, r).value.tags)
  {
  }

  /** A batch holding one itinerary row adds exactly that row, and fails when its id is in use. */
  lemma FlushOneItinerary(t: Tables, r: Rows, id: string, row: Itinerary)
    requires r.itineraries == [(id, row)]
    ensures id in t.itineraries ==> Flush(t, r).None?
    ensures Flush(t, r).Some? ==> Flush(t, r).value.itineraries == t.itineraries[id := row]
  {
    InsertOne(t.itineraries, id, row);
    FlushSucceeds(t, r);
    if Flush(t, r).Some? {
      FlushParts(t, r);
    }
  }

  lemma KeysOfAppend<R>(a: seq<(string, R)>, b: seq<(string, R)>)
    ensures KeysOf(a + b) == KeysOf(a) + KeysOf(b)
  {
    forall k | k in KeysOf(a + b) ensures k in KeysOf(a) + KeysOf(b) {
      var i :| 0 <= i < |a + b| && (a + b)[i].0 == k;
      if i >= |a| {
        assert b[i - |a|].0 == k;
      }
    }
    forall k | k in KeysOf(a) ensures k in KeysOf(a + b) {
      var i :| 0 <= i < |a| && a[i].0 == k;
      assert (a + b)[i].0 == k;
    }
    forall k | k in KeysOf(b) ensures k in KeysOf(a + b) {
      var i :| 0 <= i < |b| && b[i].0 == k;
      assert (a + b)[|a| + i].0 == k;
    }
  }

  /** Distinct keys: as many keys as rows. */
  lemma {:induction false} DistinctKeysCount<R>(rows: seq<(string, R)>)
    requires DistinctKeys(rows)
    ensures |KeysOf(rows)| == |rows|
    decreases |rows|
  {
    if rows != [] {
      var n := |rows| - 1;
      assert rows == rows[..n] + [rows[n]];
      DistinctKeysCount(rows[..n]);
      KeysOfAppend(rows[..n], [rows[n]]);
      assert KeysOf([rows[n]]) == {rows[n].0};
      assert rows[n].0 !in KeysOf(rows[..n]);
    }
  }

  /** The image ids the pending links name. */
  function LinkTargets(r: Rows): set<string> {
    set i | 0 <= i < |r.links| :: r.links[i].1.imageId
  }

  /** Every pending link names a pending image. */
  predicate LinksResolve(r: Rows) {
    LinkTargets(r) <= KeysOf(r.images)
  }

  lemma ThenLinksResolve(a: Rows, b: Rows)
    requires LinksResolve(a) && LinksResolve(b)
    ensures LinksResolve(a.Then(b))
  {
    KeysOfAppend(a.images, b.images);
    forall x | x in LinkTargets(a.Then(b)) ensures x in KeysOf(a.images) + KeysOf(b.images) {
      var i :| 0 <= i < |a.links + b.links| && (a.links + b.links)[i].1.imageId == x;
      if i < |a.links| {
        assert x in LinkTargets(a);
      } else {
        assert b.links[i - |a.links|].1.imageId == x;
        assert x in LinkTargets(b);
      }
    }
  }

  lemma ThenAssociative(a: Rows, b: Rows, c: Rows)
    ensures a.Then(b).Then(c) == a.Then(b.Then(c))
  {
  }

  lemma ThenNoRows(a: Rows)
    ensures a.Then(NoRows) == a && NoRows.Then(a) == a
  {
  }
}
