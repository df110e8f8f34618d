/**
 * The handlers of itinerary/itinerary.py as methods on the database they
 * change: one map per table, updated in place by `create_itinerary` and
 * `delete_itinerary`, and read by `get_itinerary` and `get_itineraries`.
 */
module ItineraryStore {
  import opened Wrappers
  import opened Payload
  import opened Records
  import opened Session
  import opened Entities
  import opened Slugs
  import opened Assembly
  import opened Cascade
  import opened Errors

  /** `add_images_with_links`: queue one image and one link per entry behind `pending`. */
  method AddImagesWithLinks(pending: Rows, es: seq<ImageEntry>, ips: seq<ImagePlan>, kind: OwnerKind, owner: string)
    returns (r: Rows)
    requires |ips| == |es|
    ensures r == pending.Then(ImageRows(es, ips, kind, owner))
  {
    r := pending;
    assert ImageRows(es[..0], ips[..0], kind, owner) == NoRows;
    ThenNoRows(pending);
    var i := 0;
    while i < |es|
      invariant 0 <= i <= |es|
      invariant r == pending.Then(ImageRows(es[..i], ips[..i], kind, owner))
    {
      ImageRowsStep(es, ips, kind, owner, i);
      ThenAssociative(pending, ImageRows(es[..i], ips[..i], kind, owner), ImageRow(es[i], ips[i], kind, owner));
      r := r.Then(ImageRow(es[i], ips[i], kind, owner));
      i := i + 1;
    }
    assert es[..|es|] == es && ips[..|ips|] == ips;
  }

  /** The day loop's rows grow by one day's rows per iteration. */
  lemma DaysRowsStep(dps: seq<DayPlan>, ds: seq<DayEntry>, root: string, i: nat)
    requires DaysFit(dps, ds) && i < |ds|
    ensures DaysFit(dps[..i], ds[..i]) && DaysFit(dps[..i + 1], ds[..i + 1])
    ensures DaysRows(ds[..i + 1], dps[..i + 1], root) == DaysRows(ds[..i], dps[..i], root).Then(DayRows(ds[i], dps[i], root))
  {
    DaysFitPrefix(dps, ds, i);
    DaysFitPrefix(dps, ds, i + 1);
    assert ds[..i + 1][..i] == ds[..i] && dps[..i + 1][..i] == dps[..i];
  }

  /** The tag loop's rows grow by one tag row per iteration. */
  lemma TagRowsStep(tags: seq<TagEntry>, ids: seq<string>, root: string, i: nat)
    requires |ids| == |tags| && i < |tags|
    ensures TagRows(tags[..i + 1], ids[..i + 1], root)
         == TagRows(tags[..i], ids[..i], root).Then(NoRows.(tags := [(ids[i], Tag(tags[i].item, root))]))
  {
    var a := TagRows(tags[..i + 1], ids[..i + 1], root);
    var b := TagRows(tags[..i], ids[..i], root).Then(NoRows.(tags := [(ids[i], Tag(tags[i].item, root))]));
    assert a.tags == b.tags;
  }

  /** One iteration of the day loop (itinerary.py, lines 169-187): the day, its images, its hotel and the hotel's images. */
  method QueueDay(pending: Rows, day: DayEntry, dp: DayPlan, root: string) returns (r: Rows)
    requires DayFits(dp, day)
    ensures r == pending.Then(DayRows(day, dp, root))
  {
    ghost var row := NoRows.(days := [(dp.id, DayRecord(day, root))]);
    ghost var dayImages := ImageRows(day.images, dp.images, DayOwner, dp.id);
    r := pending.Then(NoRows.(days := [(dp.id, DayRecord(day, root))]));
    r := AddImagesWithLinks(r, day.images, dp.images, DayOwner, dp.id);
    ThenAssociative(pending, row, dayImages);
    if day.hotelDetail.Some? {
      var hotel, hp := day.hotelDetail.value, dp.hotel.value;
      ghost var hotelRow := NoRows.(hotels := [(hp.id, HotelDetail(hotel.name, hotel.url, Some(dp.id)))]);
      ghost var hotelImages := ImageRows(hotel.images, hp.images, HotelOwner, hp.id);
      r := r.Then(NoRows.(hotels := [(hp.id, HotelDetail(hotel.name, hotel.url, Some(dp.id)))]));
      r := AddImagesWithLinks(r, hotel.images, hp.images, HotelOwner, hp.id);
      ThenAssociative(pending.Then(row.Then(dayImages)), hotelRow, hotelImages);
      ThenAssociative(pending, row.Then(dayImages), hotelRow.Then(hotelImages));
      assert HotelRows(hotel, hp, dp.id) == hotelRow.Then(hotelImages);
    }
  }

  /** The loop `for day in request.days or []` (lines 168-187). */
  method QueueDays(pending: Rows, ds: seq<DayEntry>, dps: seq<DayPlan>, root: string) returns (r: Rows)
    requires DaysFit(dps, ds)
    ensures r == pending.Then(DaysRows(ds, dps, root))
  {
    r := pending;
    assert DaysRows(ds[..0], dps[..0], root) == NoRows;
    ThenNoRows(pending);
    var i := 0;
    while i < |ds|
      invariant 0 <= i <= |ds|
      invariant DaysFit(dps[..i], ds[..i])
      invariant r == pending.Then(DaysRows(ds[..i], dps[..i], root))
    {
      DaysRowsStep(dps, ds, root, i);
      ThenAssociative(pending, DaysRows(ds[..i], dps[..i], root), DayRows(ds[i], dps[i], root));
      r := QueueDay(r, ds[i], dps[i], root);
      i := i + 1;
    }
    assert ds[..i] == ds && dps[..i] == dps;
  }

  /** The map and its single image, only when both are given (lines 190-194). */
  method QueueMap(pending: Rows, image: Option<ImageEntry>, mp: Option<MapPlan>, root: string) returns (r: Rows)
    requires image.Some? == mp.Some?
    ensures r == pending.Then(MapRows(image, mp, root))
  {
    if image.Some? {
      var m := mp.value;
      r := pending.Then(NoRows.(maps := [(m.id, Map(root))]));
      r := AddImagesWithLinks(r, [image.value], [m.image], MapOwner, m.id);
      assert ImageRows([image.value], [m.image], MapOwner, m.id) == ImageRow(image.value, m.image, MapOwner, m.id);
    } else {
      ThenNoRows(pending);
      r := pending;
    }
  }

  /** The loop `for tag in request.tags or []` (lines 197-199). */
  method QueueTags(pending: Rows, tags: seq<TagEntry>, ids: seq<string>, root: string) returns (r: Rows)
    requires |ids| == |tags|
    ensures r == pending.Then(TagRows(tags, ids, root))
  {
    r := pending;
    assert TagRows(tags[..0], ids[..0], root) == NoRows;
    ThenNoRows(pending);
    var j := 0;
    while j < |tags|
      invariant 0 <= j <= |tags|
      invariant r == pending.Then(TagRows(tags[..j], ids[..j], root))
    {
      TagRowsStep(tags, ids, root, j);
      ThenAssociative(pending, TagRows(tags[..j], ids[..j], root), NoRows.(tags := [(ids[j], Tag(tags[j].item, root))]));
      r := r.Then(NoRows.(tags := [(ids[j], Tag(tags[j].item, root))]));
      j := j + 1;
    }
    assert tags[..j] == tags && ids[..j] == ids;
  }

  /** Everything `create_itinerary` adds before its commit: the root and its images, the days, the map, the tags. */
  method QueueCreation(p: CreateRequest, plan: IdPlan, row: Itinerary) returns (pending: Rows)
    requires PlanFits(plan, p)
    ensures pending == CreateRows(p, plan, row)
  {
    pending := NoRows.(itineraries := [(plan.root, row)]);
    pending := AddImagesWithLinks(pending, p.images, plan.images, ItineraryOwner, plan.root);
    assert pending == RootRows(p, plan, row);
    pending := QueueDays(pending, p.DayList(), plan.days, plan.root);
    pending := QueueMap(pending, p.MapImage(), plan.mapPlan, plan.root);
    pending := QueueTags(pending, p.TagList(), plan.tags, plan.root);
  }

  /**
   * The body of `create_itinerary` up to its commit, on the tables it started
   * from: the Itinerary object gets its slug from the insert listener, every
   * row is queued, and the flush either takes them all or fails.
   */
  method BuildCreation(start: Tables, p: CreateRequest, plan: IdPlan, now: int) returns (r: Result<Tables, CreateError>)
    requires PlanFits(plan, p)
    ensures r == Assemble(start, p, plan, now)
  {
    var entity := new ItineraryEntity.FromRequest(p, now);
    entity.BeforeInsert();
    ghost var slug := SlugOnInsert(p.title, None);
    assert entity.slug == slug;
    if entity.slug.None? || SlugTaken(start, entity.slug.value) {
      return Err(IntegrityError);
    }
    var row := entity.Row();
    assert row == ItineraryRow(p, slug.value, now);
    var pending := QueueCreation(p, plan, row);
    // The commit: every queued row is written, or none.
    var flushed := Flush(start, pending);
    if flushed.None? {
      return Err(IntegrityError);
    }
    return Ok(flushed.value);
  }

  /** `db.query(Itinerary).all()`: every id of the table once, in an order the database chooses. */
  method QueryAll(keys: set<string>) returns (ids: seq<string>)
    ensures forall k :: 0 <= k < |ids| ==> ids[k] in keys
    ensures forall id :: id in keys ==> id in ids
    ensures forall a, b :: 0 <= a < b < |ids| ==> ids[a] != ids[b]
  {
    var remaining := keys;
    ids := [];
    while remaining != {}
      invariant remaining <= keys
      invariant forall k :: 0 <= k < |ids| ==> ids[k] in keys && ids[k] !in remaining
      invariant forall id :: id in keys ==> id in remaining || id in ids
      invariant forall a, b :: 0 <= a < b < |ids| ==> ids[a] != ids[b]
      decreases |remaining|
    {
      var id :| id in remaining;
      ids := ids + [id];
      remaining := remaining - {id};
    }
  }

  class Store {
    var images: map<string, Image>
    var links: map<string, ImageLink>
    var itineraries: map<string, Itinerary>
    var days: map<string, ItineraryDay>
    var hotels: map<string, HotelDetail>
    var maps: map<string, Map>
    var tags: map<string, Tag>

    /** The committed tables. */
    function Snapshot(): Tables
      reads this
    {
      Tables(images, links, itineraries, days, hotels, maps, tags)
    }

    /** The store obeys the schema's integrity rules. */
    predicate Valid()
      reads this
    {
      Consistent(Snapshot())
    }

    /** An empty database. */
    constructor ()
      ensures Snapshot() == EmptyTables && Valid()
    {
      images, links, itineraries, days, hotels, maps, tags := map[], map[], map[], map[], map[], map[], map[];
    }

    /** `db.commit()`: the flushed tables become the committed ones. */
    method Commit(t: Tables)
      modifies this
      ensures Snapshot() == t
    {
      images, links, itineraries, days, hotels, maps := t.images, t.links, t.itineraries, t.days, t.hotels, t.maps;
      tags := t.tags;
    }

    /**
     * `create_itinerary` (itinerary.py, lines 147-204). The new rows are
     * queued in the order the handler adds them and written by the commit;
     * any rejected row aborts the whole creation and leaves the store as it
     * was. The k-th uuid4 drawn is `uuid(k)`; `now` is `datetime.now()`.
     */
    method Create(p: CreateRequest, uuid: nat -> string, now: int) returns (r: Result<string, CreateError>)
      modifies this
      ensures var a := Assemble(old(Snapshot()), p, PlanIds(p, uuid), now);
        && (a.Ok? ==> r == Ok(PlanIds(p, uuid).root) && Snapshot() == a.value)
        && (a.Err? ==> r == Err(IntegrityError) && Snapshot() == old(Snapshot()))
      ensures old(Valid()) && r.Ok? ==> Valid()
    {
      var plan := PlanIds(p, uuid);
      var start := Snapshot();
      var built := BuildCreation(start, p, plan, now);
      if built.Err? {
        return Err(IntegrityError);
      }
      if Consistent(start) {
        AssembleKeepsConsistent(start, p, plan, now);
      }
      Commit(built.value);
      return Ok(plan.root);
    }

    /** The query `filter(Itinerary.slug == slug).first()`. */
    method FindBySlug(slug: string) returns (id: Option<string>)
      ensures id.Some? <==> SlugTaken(Snapshot(), slug)
      ensures id.Some? ==> id.value in itineraries && itineraries[id.value].slug == slug
    {
      if SlugTaken(Snapshot(), slug) {
        var k :| k in itineraries && itineraries[k].slug == slug;
        return Some(k);
      }
      return None;
    }

    /** `get_itinerary` (lines 63-91): the graph of the itinerary carrying `slug`, or the not-found error. */
    method GetItinerary(slug: string) returns (r: Result<ItineraryGraph, Raised>)
      ensures r.Ok? <==> SlugTaken(Snapshot(), slug)
      ensures r.Ok? ==> r.value.id in itineraries && r.value.row.slug == slug && r.value == Graph(Snapshot(), r.value.id)
      ensures r.Err? ==> r.error == NotFound
    {
      var id := FindBySlug(slug);
      if id.None? {
        return Err(NotFound);
      }
      return Ok(Graph(Snapshot(), id.value));
    }

    /** `get_itineraries` (lines 17-39): every itinerary's graph once, and their number. */
    method ListItineraries() returns (items: seq<ItineraryGraph>, total: int)
      ensures total == |items|
      ensures forall k :: 0 <= k < |items| ==> items[k].id in itineraries && items[k] == Graph(Snapshot(), items[k].id)
      ensures forall id :: id in itineraries ==> exists k :: 0 <= k < |items| && items[k].id == id
      ensures forall a, b :: 0 <= a < b < |items| ==> items[a].id != items[b].id
    {
      var t := Snapshot();
      var ids := QueryAll(t.itineraries.Keys);
      items := seq(|ids|, k requires 0 <= k < |ids| => Graph(t, ids[k]));
      total := |items|;
      forall id | id in itineraries ensures exists k :: 0 <= k < |items| && items[k].id == id {
        var k :| 0 <= k < |ids| && ids[k] == id;
        assert items[k].id == id;
      }
    }

    /**
     * `delete_itinerary` (lines 115-130): the itinerary carrying `slug` and its
     * cascaded children go; an unknown slug changes nothing.
     */
    method DeleteItinerary(slug: string) returns (r: Result<(), Raised>)
      modifies this
      ensures r.Ok? <==> SlugTaken(old(Snapshot()), slug)
      ensures r.Err? ==> r.error == NotFound && Snapshot() == old(Snapshot())
      ensures r.Ok? ==> exists id :: id in old(itineraries) && old(itineraries)[id].slug == slug
                                     && Snapshot() == DeleteItineraryRows(old(Snapshot()), id)
      ensures old(Valid()) ==> Valid()
    {
      var id := FindBySlug(slug);
      if id.None? {
        return Err(NotFound);
      }
      var t := Snapshot();
      if Consistent(t) {
        DeleteItineraryKeepsConsistent(t, id.value);
      }
      Commit(DeleteItineraryRows(t, id.value));
      return Ok(());
    }

    /** Deleting an image row: the links naming it go with it. */
    method DeleteImage(image: string)
      modifies this
      ensures Snapshot() == DeleteImageRows(old(Snapshot()), image)
      ensures old(Valid()) ==> Valid()
    {
      var t := Snapshot();
      if Consistent(t) {
        DeleteImageKeepsConsistent(t, image);
      }
      Commit(DeleteImageRows(t, image));
    }

    /** The answer of `GET /itineraries/{slug}`, with the not-found error passed through as 404. */
    method HandleGet(slug: string) returns (r: Result<ItineraryGraph, HttpError>)
      ensures r.Ok? <==> SlugTaken(Snapshot(), slug)
      ensures r.Ok? ==> r.value.id in itineraries && r.value.row.slug == slug && r.value == Graph(Snapshot(), r.value.id)
      ensures r.Err? ==> r.error == HttpError(404, NotFoundDetail)
    {
      var found := GetItinerary(slug);
      match found
      case Ok(g) => return Ok(g);
      case Err(e) => return Err(ClassifyIntended(GetHandler, e));
    }
  }
}
