/**
 * What `create_itinerary` (itinerary/itinerary.py, lines 147-204) adds to the
 * database, as a specification: the ids every new row gets, the rows added to
 * the session in the order the handler adds them, and the all-or-nothing
 * outcome of the commit.
 *
 * `add_images_with_links` is imported by the handler but its body is not part
 * of this model; it is taken to add, per entry, one Image row and one
 * ImageLink row naming that image, the owner kind and the owner id.
 */
module Assembly {
  import opened Wrappers
  import opened Ids
  import opened Payload
  import opened Records
  import opened Session
  import opened Entities
  import opened Slugs

  // ---------------------------------------------------------------------------
  // Ids. Every row gets `generate_id(<table prefix>)`; the uuid4 draws are the
  // parameter `uuid`, consumed in the order the rows are created.
  // ---------------------------------------------------------------------------

  datatype ImagePlan = ImagePlan(imageId: string, linkId: string)

  datatype HotelPlan = HotelPlan(id: string, images: seq<ImagePlan>)

  datatype DayPlan = DayPlan(id: string, images: seq<ImagePlan>, hotel: Option<HotelPlan>)

  datatype MapPlan = MapPlan(id: string, image: ImagePlan)

  datatype IdPlan = IdPlan(root: string, images: seq<ImagePlan>, days: seq<DayPlan>, mapPlan: Option<MapPlan>, tags: seq<string>)

  predicate DayFits(dp: DayPlan, d: DayEntry) {
    && |dp.images| == |d.images|
    && dp.hotel.Some? == d.hotelDetail.Some?
    && (dp.hotel.Some? ==> |dp.hotel.value.images| == |d.hotelDetail.value.images|)
  }

  predicate DaysFit(dps: seq<DayPlan>, ds: seq<DayEntry>) {
    |dps| == |ds| && forall i :: 0 <= i < |ds| ==> DayFits(dps[i], ds[i])
  }

  /** The plan has one id for every row the request asks for. */
  predicate PlanFits(plan: IdPlan, p: CreateRequest) {
    && |plan.images| == |p.images|
    && DaysFit(plan.days, p.DayList())
    && plan.mapPlan.Some? == p.MapImage().Some?
    && |plan.tags| == |p.TagList()|
  }

  /** `n` image/link id pairs, drawn two at a time from the uuids numbered `k` on. */
  function DrawImages(n: nat, uuid: nat -> string, k: nat): (r: seq<ImagePlan>)
    ensures |r| == n
    ensures forall i :: 0 <= i < n ==> HasIdPrefix(ImagePrefix, r[i].imageId) && HasIdPrefix(LinkPrefix, r[i].linkId)
    decreases n
  {
    if n == 0 then []
    else [ImagePlan(GenerateId(ImagePrefix, uuid(k)), GenerateId(LinkPrefix, uuid(k + 1)))] + DrawImages(n - 1, uuid, k + 2)
  }

  function DayDraws(d: DayEntry): nat {
    1 + 2 * |d.images| + (if d.hotelDetail.Some? then 1 + 2 * |d.hotelDetail.value.images| else 0)
  }

  function DrawDay(d: DayEntry, uuid: nat -> string, k: nat): (dp: DayPlan)
    ensures DayFits(dp, d)
  {
    var hk := k + 1 + 2 * |d.images|;
    var hotel :=
      if d.hotelDetail.Some?
      then Some(HotelPlan(GenerateId(HotelPrefix, uuid(hk)), DrawImages(|d.hotelDetail.value.images|, uuid, hk + 1)))
      else None;
    DayPlan(GenerateId(DayPrefix, uuid(k)), DrawImages(|d.images|, uuid, k + 1), hotel)
  }

  function DrawDays(ds: seq<DayEntry>, uuid: nat -> string, k: nat): (r: seq<DayPlan>)
    ensures DaysFit(r, ds)
    decreases |ds|
  {
    if ds == [] then []
    else [DrawDay(ds[0], uuid, k)] + DrawDays(ds[1..], uuid, k + DayDraws(ds[0]))
  }

  function DaysDraws(ds: seq<DayEntry>): nat
    decreases |ds|
  {
    if ds == [] then 0 else DayDraws(ds[0]) + DaysDraws(ds[1..])
  }

  /** The ids of one creation: root, root images, days in order, map, tags. */
  function PlanIds(p: CreateRequest, uuid: nat -> string): (plan: IdPlan)
    ensures PlanFits(plan, p)
  {
    var dk := 1 + 2 * |p.images|;
    var mk := dk + DaysDraws(p.DayList());
    var mp :=
      if p.MapImage().Some?
      then Some(MapPlan(GenerateId(MapPrefix, uuid(mk)), ImagePlan(GenerateId(ImagePrefix, uuid(mk + 1)), GenerateId(LinkPrefix, uuid(mk + 2)))))
      else None;
    var tk := mk + (if mp.Some? then 3 else 0);
    IdPlan(
      GenerateId(ItineraryPrefix, uuid(0)),
      DrawImages(|p.images|, uuid, 1),
      DrawDays(p.DayList(), uuid, dk),
      mp,
      seq(|p.TagList()|, i requires 0 <= i => GenerateId(TagPrefix, uuid(tk + i))))
  }

  // ---------------------------------------------------------------------------
  // Rows, in the order the handler adds them to the session.
  // ---------------------------------------------------------------------------

  /** One entry of `add_images_with_links`: an Image and the ImageLink naming it. */
  function ImageRow(e: ImageEntry, ip: ImagePlan, kind: OwnerKind, owner: string): Rows {
    NoRows.(images := [(ip.imageId, Image(e.url, e.publicId))],
            links := [(ip.linkId, ImageLink(ip.imageId, kind, owner))])
  }

  /** `add_images_with_links(db, entries, kind, owner)`: one image and one link per entry, nothing else. */
  function ImageRows(es: seq<ImageEntry>, ips: seq<ImagePlan>, kind: OwnerKind, owner: string): (r: Rows)
    requires |ips| == |es|
    ensures r.itineraries == [] && r.days == [] && r.hotels == [] && r.maps == [] && r.tags == []
    ensures |r.images| == |r.links| == |es|
    ensures forall i :: 0 <= i < |es| ==> r.images[i] == (ips[i].imageId, Image(es[i].url, es[i].publicId))
    ensures forall i :: 0 <= i < |es| ==> r.links[i] == (ips[i].linkId, ImageLink(ips[i].imageId, kind, owner))
    ensures LinksResolve(r)
  {
    var r := NoRows.(images := seq(|es|, i requires 0 <= i < |es| => (ips[i].imageId, Image(es[i].url, es[i].publicId))),
                     links := seq(|es|, i requires 0 <= i < |es| => (ips[i].linkId, ImageLink(ips[i].imageId, kind, owner))));
    assert forall i :: 0 <= i < |es| ==> r.links[i].1.imageId == r.images[i].0;
    r
  }

  /** The rows of the first `i + 1` entries are those of the first `i`, then entry `i`. */
  lemma ImageRowsStep(es: seq<ImageEntry>, ips: seq<ImagePlan>, kind: OwnerKind, owner: string, i: nat)
    requires |ips| == |es| && i < |es|
    ensures ImageRows(es[..i + 1], ips[..i + 1], kind, owner)
         == ImageRows(es[..i], ips[..i], kind, owner).Then(ImageRow(es[i], ips[i], kind, owner))
  {
    var a := ImageRows(es[..i + 1], ips[..i + 1], kind, owner);
    var b := ImageRows(es[..i], ips[..i], kind, owner).Then(ImageRow(es[i], ips[i], kind, owner));
    assert a.images == b.images;
    assert a.links == b.links;
  }

  /** Entry `e`, with ids `ip`, has its Image row and its ImageLink of kind `kind` to `owner` among the rows. */
  predicate HasImage(r: Rows, e: ImageEntry, ip: ImagePlan, kind: OwnerKind, owner: string) {
    && (ip.imageId, Image(e.url, e.publicId)) in r.images
    && (ip.linkId, ImageLink(ip.imageId, kind, owner)) in r.links
  }

  /** Every entry of `add_images_with_links(db, es, kind, owner)` has its two rows among the rows. */
  predicate HasImages(r: Rows, es: seq<ImageEntry>, ips: seq<ImagePlan>, kind: OwnerKind, owner: string) {
    forall k :: 0 <= k < |es| && k < |ips| ==> HasImage(r, es[k], ips[k], kind, owner)
  }

  lemma ImageRowsHaveImages(es: seq<ImageEntry>, ips: seq<ImagePlan>, kind: OwnerKind, owner: string)
    requires |ips| == |es|
    ensures HasImages(ImageRows(es, ips, kind, owner), es, ips, kind, owner)
  {
    var r := ImageRows(es, ips, kind, owner);
    forall k | 0 <= k < |es| ensures HasImage(r, es[k], ips[k], kind, owner) {
      assert r.images[k] in r.images && r.links[k] in r.links;
    }
  }

  /** Every row pending in `a` is pending in `b`. */
  predicate Within(a: Rows, b: Rows) {
    && (forall x :: x in a.images ==> x in b.images)
    && (forall x :: x in a.links ==> x in b.links)
    && (forall x :: x in a.itineraries ==> x in b.itineraries)
    && (forall x :: x in a.days ==> x in b.days)
    && (forall x :: x in a.hotels ==> x in b.hotels)
    && (forall x :: x in a.maps ==> x in b.maps)
    && (forall x :: x in a.tags ==> x in b.tags)
  }

  lemma WithinThen(a: Rows, b: Rows)
    ensures Within(a, a.Then(b)) && Within(b, a.Then(b))
  {
  }

  lemma HasImagesWithin(a: Rows, b: Rows, es: seq<ImageEntry>, ips: seq<ImagePlan>, kind: OwnerKind, owner: string)
    requires Within(a, b) && HasImages(a, es, ips, kind, owner)
    ensures HasImages(b, es, ips, kind, owner)
  {
    forall k | 0 <= k < |es| && k < |ips| ensures HasImage(b, es[k], ips[k], kind, owner) {
      assert HasImage(a, es[k], ips[k], kind, owner);
    }
  }

  /** The `HotelDetail` row of hotel entry `h` on day `dayId`. */
  function HotelRecord(h: HotelEntry, dayId: string): HotelDetail {
    HotelDetail(h.name, h.url, Some(dayId))
  }

  /** `HotelDetail(name=..., url=..., day=day_obj)` and its images with "hotel_detail" links (itinerary.py, lines 179-187). */
  function HotelRows(h: HotelEntry, hp: HotelPlan, dayId: string): (r: Rows)
    requires |hp.images| == |h.images|
    ensures r.itineraries == [] && r.days == [] && r.maps == [] && r.tags == []
    ensures r.hotels == [(hp.id, HotelRecord(h, dayId))]
    ensures r.images == ImageRows(h.images, hp.images, HotelOwner, hp.id).images
    ensures r.links == ImageRows(h.images, hp.images, HotelOwner, hp.id).links
    ensures LinksResolve(r)
  {
    var own := NoRows.(hotels := [(hp.id, HotelRecord(h, dayId))]);
    var images := ImageRows(h.images, hp.images, HotelOwner, hp.id);
    ThenLinksResolve(own, images);
    own.Then(images)
  }

  function DayRecord(d: DayEntry, root: string): ItineraryDay {
    ItineraryDay(d.dayNumber, d.title, d.description, root)
  }

  /**
   * The day row, its images with "itinerary_day" links, then its hotel
   * detail with that hotel's images when one is given (itinerary.py, lines
   * 169-187).
   */
  function DayRows(d: DayEntry, dp: DayPlan, root: string): (r: Rows)
    requires DayFits(dp, d)
    ensures r.itineraries == [] && r.maps == [] && r.tags == []
    ensures r.days == [(dp.id, DayRecord(d, root))]
    ensures d.hotelDetail.None? ==> r.hotels == []
    ensures d.hotelDetail.None? ==> r.images == ImageRows(d.images, dp.images, DayOwner, dp.id).images
    ensures d.hotelDetail.None? ==> r.links == ImageRows(d.images, dp.images, DayOwner, dp.id).links
    ensures d.hotelDetail.Some? ==> r.hotels == [(dp.hotel.value.id, HotelRecord(d.hotelDetail.value, dp.id))]
    ensures d.hotelDetail.Some? ==>
              r.images == ImageRows(d.images, dp.images, DayOwner, dp.id).images
                        + ImageRows(d.hotelDetail.value.images, dp.hotel.value.images, HotelOwner, dp.hotel.value.id).images
    ensures d.hotelDetail.Some? ==>
              r.links == ImageRows(d.images, dp.images, DayOwner, dp.id).links
                        + ImageRows(d.hotelDetail.value.images, dp.hotel.value.images, HotelOwner, dp.hotel.value.id).links
    ensures LinksResolve(r)
  {
    var row := NoRows.(days := [(dp.id, DayRecord(d, root))]);
    var images := ImageRows(d.images, dp.images, DayOwner, dp.id);
    ThenLinksResolve(row, images);
    var own := row.Then(images);
    assert own.images == images.images && own.links == images.links;
    if d.hotelDetail.Some? then
      var hotel := HotelRows(d.hotelDetail.value, dp.hotel.value, dp.id);
      ThenLinksResolve(own, hotel);
      own.Then(hotel)
    else own
  }

  lemma DaysFitPrefix(dps: seq<DayPlan>, ds: seq<DayEntry>, i: nat)
    requires DaysFit(dps, ds) && i <= |ds|
    ensures DaysFit(dps[..i], ds[..i])
  {
  }

  /** The day records of the first `n` days followed by the next day's record are those of the first `n + 1` days. */
  lemma DayRecordsStep(front: seq<(string, ItineraryDay)>, next: seq<(string, ItineraryDay)>,
                       ds: seq<DayEntry>, dps: seq<DayPlan>, root: string)
    requires |dps| == |ds| > 0 && |front| == |ds| - 1
    requires forall i :: 0 <= i < |front| ==> front[i] == (dps[..|front|][i].id, DayRecord(ds[..|front|][i], root))
    requires next == [(dps[|front|].id, DayRecord(ds[|front|], root))]
    ensures forall i :: 0 <= i < |ds| ==> (front + next)[i] == (dps[i].id, DayRecord(ds[i], root))
  {
    forall i | 0 <= i < |ds| ensures (front + next)[i] == (dps[i].id, DayRecord(ds[i], root)) {
      if i < |front| {
        assert dps[..|front|][i] == dps[i] && ds[..|front|][i] == ds[i];
      }
    }
  }

  /**
   * The rows of the loop `for day in request.days or []`: one day row per
   * entry, in order, each pointing at the itinerary.
   */
  function DaysRows(ds: seq<DayEntry>, dps: seq<DayPlan>, root: string): (r: Rows)
    requires DaysFit(dps, ds)
    ensures r.itineraries == [] && r.maps == [] && r.tags == []
    ensures |r.days| == |ds|
    ensures forall i :: 0 <= i < |ds| ==> r.days[i] == (dps[i].id, DayRecord(ds[i], root))
    ensures LinksResolve(r)
    decreases |ds|
  {
    if ds == [] then NoRows
    else
      var n := |ds| - 1;
      DaysFitPrefix(dps, ds, n);
      var front := DaysRows(ds[..n], dps[..n], root);
      var last := DayRows(ds[n], dps[n], root);
      ThenLinksResolve(front, last);
      DayRecordsStep(front.days, last.days, ds, dps, root);
      front.Then(last)
  }

  /**
   * Day `d`, with ids `dp`, is pending whole: its row, each of its images with
   * an "itinerary_day" link to it, and, when it has a hotel detail, that
   * hotel's row with each of the hotel's images and a "hotel_detail" link.
   */
  predicate DayPending(r: Rows, d: DayEntry, dp: DayPlan, root: string) {
    && (dp.id, DayRecord(d, root)) in r.days
    && HasImages(r, d.images, dp.images, DayOwner, dp.id)
    && (d.hotelDetail.Some? && dp.hotel.Some? ==>
          && (dp.hotel.value.id, HotelRecord(d.hotelDetail.value, dp.id)) in r.hotels
          && HasImages(r, d.hotelDetail.value.images, dp.hotel.value.images, HotelOwner, dp.hotel.value.id))
  }

  lemma DayPendingWithin(a: Rows, b: Rows, d: DayEntry, dp: DayPlan, root: string)
    requires Within(a, b) && DayPending(a, d, dp, root)
    ensures DayPending(b, d, dp, root)
  {
    HasImagesWithin(a, b, d.images, dp.images, DayOwner, dp.id);
    if d.hotelDetail.Some? && dp.hotel.Some? {
      HasImagesWithin(a, b, d.hotelDetail.value.images, dp.hotel.value.images, HotelOwner, dp.hotel.value.id);
    }
  }

  /** The rows of one day hold that day whole. */
  lemma DayRowsPending(d: DayEntry, dp: DayPlan, root: string)
    requires DayFits(dp, d)
    ensures DayPending(DayRows(d, dp, root), d, dp, root)
  {
    var r := DayRows(d, dp, root);
    var own := ImageRows(d.images, dp.images, DayOwner, dp.id);
    ImageRowsHaveImages(d.images, dp.images, DayOwner, dp.id);
    assert r.days[0] in r.days;
    if d.hotelDetail.Some? {
      var h, hp := d.hotelDetail.value, dp.hotel.value;
      var hotel := ImageRows(h.images, hp.images, HotelOwner, hp.id);
      ImageRowsHaveImages(h.images, hp.images, HotelOwner, hp.id);
      WithinThen(own, hotel);
      assert r.hotels[0] in r.hotels;
      HasImagesWithin(own, r, d.images, dp.images, DayOwner, dp.id);
      HasImagesWithin(hotel, r, h.images, hp.images, HotelOwner, hp.id);
    } else {
      HasImagesWithin(own, r, d.images, dp.images, DayOwner, dp.id);
    }
  }

  /** The day loop's rows hold every payload day whole. */
  lemma {:induction false} DaysRowsPending(ds: seq<DayEntry>, dps: seq<DayPlan>, root: string)
    requires DaysFit(dps, ds)
    ensures forall i :: 0 <= i < |ds| ==> DayPending(DaysRows(ds, dps, root), ds[i], dps[i], root)
    decreases |ds|
  {
    if ds != [] {
      var n := |ds| - 1;
      DaysFitPrefix(dps, ds, n);
      var front := DaysRows(ds[..n], dps[..n], root);
      var last := DayRows(ds[n], dps[n], root);
      assert DaysRows(ds, dps, root) == front.Then(last);
      DaysRowsPending(ds[..n], dps[..n], root);
      DayRowsPending(ds[n], dps[n], root);
      PendingSnoc(front, last, ds, dps, root, n);
    }
  }

  /** The first days pending in `front` and the last one in `last` are all pending in both together. */
  lemma PendingSnoc(front: Rows, last: Rows, ds: seq<DayEntry>, dps: seq<DayPlan>, root: string, n: nat)
    requires |ds| == |dps| == n + 1
    requires forall i :: 0 <= i < n ==> DayPending(front, ds[..n][i], dps[..n][i], root)
    requires DayPending(last, ds[n], dps[n], root)
    ensures forall i :: 0 <= i < |ds| ==> DayPending(front.Then(last), ds[i], dps[i], root)
  {
    var r := front.Then(last);
    WithinThen(front, last);
    forall i | 0 <= i < |ds| ensures DayPending(r, ds[i], dps[i], root) {
      if i < n {
        assert DayPending(front, ds[..n][i], dps[..n][i], root);
        assert ds[..n][i] == ds[i] && dps[..n][i] == dps[i];
        DayPendingWithin(front, r, ds[i], dps[i], root);
      } else {
        DayPendingWithin(last, r, ds[i], dps[i], root);
      }
    }
  }

  /** `h` is the hotel detail row the day loop adds for day `i`. */
  predicate IsDayHotel(ds: seq<DayEntry>, dps: seq<DayPlan>, i: int, h: (string, HotelDetail)) {
    && 0 <= i < |ds| && i < |dps|
    && ds[i].hotelDetail.Some? && dps[i].hotel.Some?
    && h == (dps[i].hotel.value.id, HotelRecord(ds[i].hotelDetail.value, dps[i].id))
  }

  /** `h` is the hotel detail row of some payload day. */
  predicate HotelOfSomeDay(ds: seq<DayEntry>, dps: seq<DayPlan>, h: (string, HotelDetail)) {
    exists i :: 0 <= i < |ds| && IsDayHotel(ds, dps, i, h)
  }

  /** Every hotel row is the hotel detail of some payload day that has one. */
  predicate HotelsFromDays(hotels: seq<(string, HotelDetail)>, ds: seq<DayEntry>, dps: seq<DayPlan>) {
    forall j :: 0 <= j < |hotels| ==> HotelOfSomeDay(ds, dps, hotels[j])
  }

  lemma HotelsFromDaysAppend(a: seq<(string, HotelDetail)>, b: seq<(string, HotelDetail)>, ds: seq<DayEntry>, dps: seq<DayPlan>)
    requires HotelsFromDays(a, ds, dps) && HotelsFromDays(b, ds, dps)
    ensures HotelsFromDays(a + b, ds, dps)
  {
    forall j | 0 <= j < |a + b| ensures HotelOfSomeDay(ds, dps, (a + b)[j]) {
      if j < |a| {
        assert (a + b)[j] == a[j];
      } else {
        assert (a + b)[j] == b[j - |a|];
      }
    }
  }

  /** A hotel of one of the first `n` days is a hotel of the whole day list. */
  lemma HotelsFromDaysPrefix(hotels: seq<(string, HotelDetail)>, ds: seq<DayEntry>, dps: seq<DayPlan>, n: nat)
    requires n <= |ds| && n <= |dps| && HotelsFromDays(hotels, ds[..n], dps[..n])
    ensures HotelsFromDays(hotels, ds, dps)
  {
    forall j | 0 <= j < |hotels| ensures HotelOfSomeDay(ds, dps, hotels[j]) {
      assert HotelOfSomeDay(ds[..n], dps[..n], hotels[j]);
      var i :| 0 <= i < n && IsDayHotel(ds[..n], dps[..n], i, hotels[j]);
      assert ds[..n][i] == ds[i] && dps[..n][i] == dps[i];
      assert IsDayHotel(ds, dps, i, hotels[j]);
    }
  }

  /** The day loop adds no hotel row but those of the payload's hotel details. */
  lemma {:induction false} DaysRowsHotelsFromDays(ds: seq<DayEntry>, dps: seq<DayPlan>, root: string)
    requires DaysFit(dps, ds)
    ensures HotelsFromDays(DaysRows(ds, dps, root).hotels, ds, dps)
    decreases |ds|
  {
    if ds != [] {
      var n := |ds| - 1;
      DaysFitPrefix(dps, ds, n);
      var front := DaysRows(ds[..n], dps[..n], root);
      var last := DayRows(ds[n], dps[n], root);
      assert DaysRows(ds, dps, root).hotels == front.hotels + last.hotels;
      DaysRowsHotelsFromDays(ds[..n], dps[..n], root);
      HotelsFromDaysPrefix(front.hotels, ds, dps, n);
      if ds[n].hotelDetail.Some? {
        assert IsDayHotel(ds, dps, n, last.hotels[0]);
        assert HotelOfSomeDay(ds, dps, last.hotels[0]);
      }
      HotelsFromDaysAppend(front.hotels, last.hotels, ds, dps);
    }
  }

  /** Every pending hotel row names a day of the same batch. */
  predicate HotelsOnDays(r: Rows) {
    forall j :: 0 <= j < |r.hotels| ==> r.hotels[j].1.dayId.Some? && r.hotels[j].1.dayId.value in KeysOf(r.days)
  }

  /** When the batch's day ids are distinct, no two of its hotel rows name the same day. */
  predicate OneHotelPerDay(r: Rows) {
    DistinctKeys(r.days) ==> forall j, k :: 0 <= j < k < |r.hotels| ==> r.hotels[j].1.dayId != r.hotels[k].1.dayId
  }

  /** Queuing one batch after another keeps hotels on the batch's own days, one per day. */
  lemma HotelsThen(a: Rows, b: Rows)
    requires HotelsOnDays(a) && HotelsOnDays(b) && OneHotelPerDay(a) && OneHotelPerDay(b)
    ensures HotelsOnDays(a.Then(b)) && OneHotelPerDay(a.Then(b))
  {
    HotelsOnDaysThen(a, b);
    OneHotelPerDayThen(a, b);
  }

  lemma OneHotelPerDayThen(a: Rows, b: Rows)
    requires HotelsOnDays(a) && HotelsOnDays(b) && OneHotelPerDay(a) && OneHotelPerDay(b)
    ensures OneHotelPerDay(a.Then(b))
  {
    var hs := a.hotels + b.hotels;
    if DistinctKeys(a.days + b.days) {
      DistinctKeysSplit(a.days, b.days);
      forall j, k | 0 <= j < k < |hs| ensures hs[j].1.dayId != hs[k].1.dayId {
        if k < |a.hotels| {
          assert hs[j] == a.hotels[j] && hs[k] == a.hotels[k];
        } else if j >= |a.hotels| {
          assert hs[j] == b.hotels[j - |a.hotels|] && hs[k] == b.hotels[k - |a.hotels|];
        } else {
          assert hs[j] == a.hotels[j] && hs[k] == b.hotels[k - |a.hotels|];
          HotelsOnSeparateDays(a, b, j, k - |a.hotels|);
        }
      }
    }
  }

  lemma HotelsOnDaysThen(a: Rows, b: Rows)
    requires HotelsOnDays(a) && HotelsOnDays(b)
    ensures HotelsOnDays(a.Then(b))
  {
    var r := a.Then(b);
    KeysOfAppend(a.days, b.days);
    forall j | 0 <= j < |r.hotels| ensures r.hotels[j].1.dayId.Some? && r.hotels[j].1.dayId.value in KeysOf(r.days) {
      if j >= |a.hotels| {
        assert r.hotels[j] == b.hotels[j - |a.hotels|];
      }
    }
  }

  /** A hotel of the first batch and one of the second name different days when all day ids are distinct. */
  lemma HotelsOnSeparateDays(a: Rows, b: Rows, j: int, k: int)
    requires HotelsOnDays(a) && HotelsOnDays(b) && DistinctKeys(a.days + b.days)
    requires 0 <= j < |a.hotels| && 0 <= k < |b.hotels|
    ensures a.hotels[j].1.dayId != b.hotels[k].1.dayId
  {
    assert a.hotels[j].1.dayId.value in KeysOf(a.days) && b.hotels[k].1.dayId.value in KeysOf(b.days);
    var i1 :| 0 <= i1 < |a.days| && a.days[i1].0 == a.hotels[j].1.dayId.value;
    var i2 :| 0 <= i2 < |b.days| && b.days[i2].0 == b.hotels[k].1.dayId.value;
    assert (a.days + b.days)[i1] == a.days[i1] && (a.days + b.days)[|a.days| + i2] == b.days[i2];
  }

  /** A day's hotel row, when it has one, names that day. */
  lemma DayRowsHotels(d: DayEntry, dp: DayPlan, root: string)
    requires DayFits(dp, d)
    ensures HotelsOnDays(DayRows(d, dp, root)) && OneHotelPerDay(DayRows(d, dp, root))
  {
    var r := DayRows(d, dp, root);
    assert r.days[0].0 == dp.id;
  }

  /**
   * Every hotel row of the day loop points at one of the loop's days, and
   * when the day ids are distinct no two hotel rows share a day.
   */
  lemma {:induction false} DaysRowsHotels(ds: seq<DayEntry>, dps: seq<DayPlan>, root: string)
    requires DaysFit(dps, ds)
    ensures HotelsOnDays(DaysRows(ds, dps, root)) && OneHotelPerDay(DaysRows(ds, dps, root))
    decreases |ds|
  {
    if ds != [] {
      var n := |ds| - 1;
      DaysRowsHotels(ds[..n], dps[..n], root);
      DayRowsHotels(ds[n], dps[n], root);
      HotelsThen(DaysRows(ds[..n], dps[..n], root), DayRows(ds[n], dps[n], root));
    }
  }

  /** `Map(itinerary=...)` and its single image, only when `request.map and request.map.image` (lines 190-194). */
  function MapRows(image: Option<ImageEntry>, mp: Option<MapPlan>, root: string): (r: Rows)
    requires image.Some? == mp.Some?
    ensures r.itineraries == [] && r.days == [] && r.hotels == [] && r.tags == []
    ensures image.None? ==> r == NoRows
    ensures image.Some? ==> r.maps == [(mp.value.id, Map(root))]
    ensures image.Some? ==> r.images == [(mp.value.image.imageId, Image(image.value.url, image.value.publicId))]
    ensures image.Some? ==> r.links == [(mp.value.image.linkId, ImageLink(mp.value.image.imageId, MapOwner, mp.value.id))]
    ensures LinksResolve(r)
  {
    if image.Some? then
      var r := NoRows.(maps := [(mp.value.id, Map(root))]).Then(ImageRow(image.value, mp.value.image, MapOwner, mp.value.id));
      assert r.images[0].0 == r.links[0].1.imageId;
      r
    else NoRows
  }

  /** One `Tag(item=..., itinerary=...)` per payload tag (lines 197-199), and no image link. */
  function TagRows(tags: seq<TagEntry>, ids: seq<string>, root: string): (r: Rows)
    requires |ids| == |tags|
    ensures r.images == [] && r.links == [] && r.itineraries == [] && r.days == [] && r.hotels == [] && r.maps == []
    ensures |r.tags| == |tags|
    ensures forall i :: 0 <= i < |tags| ==> r.tags[i] == (ids[i], Tag(tags[i].item, root))
  {
    NoRows.(tags := seq(|tags|, i requires 0 <= i < |tags| => (ids[i], Tag(tags[i].item, root))))
  }

  /** The root row with its images: the part that precedes the day loop. */
  function RootRows(p: CreateRequest, plan: IdPlan, row: Itinerary): (r: Rows)
    requires |plan.images| == |p.images|
    ensures r.itineraries == [(plan.root, row)] && r.days == [] && r.hotels == [] && r.maps == [] && r.tags == []
    ensures |r.images| == |r.links| == |p.images|
    ensures forall i :: 0 <= i < |p.images| ==> r.images[i] == (plan.images[i].imageId, Image(p.images[i].url, p.images[i].publicId))
    ensures forall i :: 0 <= i < |p.images| ==> r.links[i] == (plan.images[i].linkId, ImageLink(plan.images[i].imageId, ItineraryOwner, plan.root))
    ensures LinksResolve(r)
  {
    var own := NoRows.(itineraries := [(plan.root, row)]);
    var images := ImageRows(p.images, plan.images, ItineraryOwner, plan.root);
    ThenLinksResolve(own, images);
    own.Then(images)
  }

  /** Everything the handler adds before the commit at line 201, in the order it adds them. */
  function CreateRows(p: CreateRequest, plan: IdPlan, row: Itinerary): (r: Rows)
    requires PlanFits(plan, p)
    ensures r.itineraries == [(plan.root, row)]
    ensures p.MapImage().None? ==> r.maps == []
    ensures p.MapImage().Some? ==> r.maps == [(plan.mapPlan.value.id, Map(plan.root))]
    ensures LinksResolve(r)
  {
    var root := RootRows(p, plan, row);
    var days := DaysRows(p.DayList(), plan.days, plan.root);
    var mapRows := MapRows(p.MapImage(), plan.mapPlan, plan.root);
    var tags := TagRows(p.TagList(), plan.tags, plan.root);
    ThenLinksResolve(root, days);
    ThenLinksResolve(root.Then(days), mapRows);
    ThenLinksResolve(root.Then(days).Then(mapRows), tags);
    root.Then(days).Then(mapRows).Then(tags)
  }

  /** Table by table, which part of the handler contributes the rows. */
  lemma CreateRowsParts(p: CreateRequest, plan: IdPlan, row: Itinerary)
    requires PlanFits(plan, p)
    ensures var r := CreateRows(p, plan, row);
      var root := RootRows(p, plan, row);
      var days := DaysRows(p.DayList(), plan.days, plan.root);
      var mapRows := MapRows(p.MapImage(), plan.mapPlan, plan.root);
      && r.images == root.images + days.images + mapRows.images
      && r.links == root.links + days.links + mapRows.links
      && r.days == days.days && r.hotels == days.hotels
      && r.tags == TagRows(p.TagList(), plan.tags, plan.root).tags
  {
    var root := RootRows(p, plan, row);
    var days := DaysRows(p.DayList(), plan.days, plan.root);
    var mapRows := MapRows(p.MapImage(), plan.mapPlan, plan.root);
    var tags := TagRows(p.TagList(), plan.tags, plan.root);
    ThenFour(root, days, mapRows, tags);
  }

  /** The four parts of a creation batch, joined: which tables each part fills. */
  lemma ThenFour(root: Rows, days: Rows, mapRows: Rows, tags: Rows)
    requires root.days == [] && root.hotels == [] && root.tags == [] && days.tags == []
    requires mapRows.days == [] && mapRows.hotels == [] && mapRows.tags == []
    requires tags.images == [] && tags.links == [] && tags.days == [] && tags.hotels == []
    ensures var r := root.Then(days).Then(mapRows).Then(tags);
      && r.images == root.images + days.images + mapRows.images
      && r.links == root.links + days.links + mapRows.links
      && r.days == days.days && r.hotels == days.hotels && r.tags == tags.tags
  {
    var r := root.Then(days).Then(mapRows).Then(tags);
    assert r.images == root.images + days.images + mapRows.images + [];
    assert r.links == root.links + days.links + mapRows.links + [];
    assert r.days == [] + days.days + [] + [];
    assert r.hotels == [] + days.hotels + [] + [];
    assert r.tags == [] + [] + [] + tags.tags;
  }

  /**
   * One day row per payload day, in payload order, each pointing at the root;
   * every hotel row points at one of those days, and no two at the same one.
   */
  lemma CreateRowsDays(p: CreateRequest, plan: IdPlan, row: Itinerary)
    requires PlanFits(plan, p)
    ensures var r := CreateRows(p, plan, row);
      && |r.days| == |p.DayList()|
      && (forall i :: 0 <= i < |p.DayList()| ==> r.days[i] == (plan.days[i].id, DayRecord(p.DayList()[i], plan.root)))
      && HotelsOnDays(r) && OneHotelPerDay(r)
  {
    CreateRowsParts(p, plan, row);
    DaysRowsHotels(p.DayList(), plan.days, plan.root);
  }

  /**
   * Every payload day is in the creation batch whole: its row, its images
   * with "itinerary_day" links, and its hotel detail with the hotel's images
   * and "hotel_detail" links; every hotel row is some payload day's.
   */
  lemma CreateRowsDayDetail(p: CreateRequest, plan: IdPlan, row: Itinerary)
    requires PlanFits(plan, p)
    ensures var r := CreateRows(p, plan, row);
      && (forall i :: 0 <= i < |p.DayList()| ==> DayPending(r, p.DayList()[i], plan.days[i], plan.root))
      && HotelsFromDays(r.hotels, p.DayList(), plan.days)
  {
    var r := CreateRows(p, plan, row);
    var days := DaysRows(p.DayList(), plan.days, plan.root);
    assert Within(days, r) by {
      CreateRowsParts(p, plan, row);
    }
    assert r.hotels == days.hotels by {
      CreateRowsParts(p, plan, row);
    }
    DaysRowsPending(p.DayList(), plan.days, plan.root);
    DaysRowsHotelsFromDays(p.DayList(), plan.days, plan.root);
    forall i | 0 <= i < |p.DayList()| ensures DayPending(r, p.DayList()[i], plan.days[i], plan.root) {
      DayPendingWithin(days, r, p.DayList()[i], plan.days[i], plan.root);
    }
  }

  /** One tag row per payload tag, in order, each pointing at the root. */
  lemma CreateRowsTags(p: CreateRequest, plan: IdPlan, row: Itinerary)
    requires PlanFits(plan, p)
    ensures var r := CreateRows(p, plan, row);
      && |r.tags| == |p.TagList()|
      && forall i :: 0 <= i < |p.TagList()| ==> r.tags[i] == (plan.tags[i], Tag(p.TagList()[i].item, plan.root))
  {
    CreateRowsParts(p, plan, row);
  }

  /**
   * The root's images come first, each with an "itinerary" link; every day
   * image has an "itinerary_day" link to its day and every hotel image a
   * "hotel_detail" link to its hotel; the map image has a "map" link.
   */
  lemma CreateRowsImages(p: CreateRequest, plan: IdPlan, row: Itinerary)
    requires PlanFits(plan, p)
    ensures var r := CreateRows(p, plan, row);
      && (forall i :: 0 <= i < |p.images| ==> r.images[i] == (plan.images[i].imageId, Image(p.images[i].url, p.images[i].publicId)))
      && (forall i :: 0 <= i < |p.images| ==> r.links[i] == (plan.images[i].linkId, ImageLink(plan.images[i].imageId, ItineraryOwner, plan.root)))
      && (forall i :: 0 <= i < |p.DayList()| ==>
            HasImages(r, p.DayList()[i].images, plan.days[i].images, DayOwner, plan.days[i].id))
      && (forall i :: 0 <= i < |p.DayList()| && p.DayList()[i].hotelDetail.Some? && plan.days[i].hotel.Some? ==>
            HasImages(r, p.DayList()[i].hotelDetail.value.images, plan.days[i].hotel.value.images, HotelOwner, plan.days[i].hotel.value.id))
      && (p.MapImage().Some? ==>
        && (plan.mapPlan.value.image.imageId, Image(p.MapImage().value.url, p.MapImage().value.publicId)) in r.images
        && (plan.mapPlan.value.image.linkId, ImageLink(plan.mapPlan.value.image.imageId, MapOwner, plan.mapPlan.value.id)) in r.links)
  {
    CreateRowsDayDetail(p, plan, row);
    CreateRowsParts(p, plan, row);
    var r := CreateRows(p, plan, row);
    var root := RootRows(p, plan, row);
    var days := DaysRows(p.DayList(), plan.days, plan.root);
    var mapRows := MapRows(p.MapImage(), plan.mapPlan, plan.root);
    if p.MapImage().Some? {
      assert r.images[|root.images| + |days.images|] == mapRows.images[0];
      assert r.links[|root.links| + |days.links|] == mapRows.links[0];
    }
  }

  /** The only failure of the creation path: the database rejects a row. */
  datatype CreateError = IntegrityError

  /**
   * The committed tables after `create_itinerary`, or the error that rolls
   * everything back. The slug comes from the insert hook; an empty title
   * leaves it unset, which the NOT NULL column rejects; a slug already in use
   * is rejected by the unique column; any primary key already in use fails
   * the flush. On success the one new itinerary row is the root, carrying
   * the slugified title.
   */
  function Assemble(t: Tables, p: CreateRequest, plan: IdPlan, now: int): (r: Result<Tables, CreateError>)
    requires PlanFits(plan, p)
    ensures p.title == "" ==> r.Err?
    ensures p.title != "" && SlugTaken(t, Slugify(p.title)) ==> r.Err?
    ensures r.Ok? ==> plan.root in r.value.itineraries
  {
    var slug := SlugOnInsert(p.title, None);
    if slug.None? || SlugTaken(t, slug.value) then Err(IntegrityError)
    else
      var row := ItineraryRow(p, slug.value, now);
      FlushOneItinerary(t, CreateRows(p, plan, row), plan.root, row);
      match Flush(t, CreateRows(p, plan, row))
      case None => Err(IntegrityError)
      case Some(t') => Ok(t')
  }

  /** Creation succeeds exactly when the title is set, its slug is unused and the handler's rows flush. */
  lemma AssembleFlushes(t: Tables, p: CreateRequest, plan: IdPlan, now: int)
    requires PlanFits(plan, p)
    ensures Assemble(t, p, plan, now).Ok? <==>
      p.title != "" && !SlugTaken(t, Slugify(p.title)) && Flush(t, CreateRows(p, plan, ItineraryRow(p, Slugify(p.title), now))).Some?
    ensures Assemble(t, p, plan, now).Ok? ==>
      Flush(t, CreateRows(p, plan, ItineraryRow(p, Slugify(p.title), now))) == Some(Assemble(t, p, plan, now).value)
  {
    var slug := SlugOnInsert(p.title, None);
    assert slug.Some? <==> p.title != "";
    if slug.Some? {
      assert slug.value == Slugify(p.title);
    }
  }

  /** The new itinerary is the root id, with the slugified title; an id already in use fails. */
  lemma AssembleRoot(t: Tables, p: CreateRequest, plan: IdPlan, now: int)
    requires PlanFits(plan, p)
    ensures plan.root in t.itineraries ==> Assemble(t, p, plan, now).Err?
    ensures Assemble(t, p, plan, now).Ok? ==>
      Assemble(t, p, plan, now).value.itineraries == t.itineraries[plan.root := ItineraryRow(p, Slugify(p.title), now)]
  {
    if p.title != "" && !SlugTaken(t, Slugify(p.title)) {
      var row := ItineraryRow(p, Slugify(p.title), now);
      FlushOneItinerary(t, CreateRows(p, plan, row), plan.root, row);
      if Assemble(t, p, plan, now).Ok? {
        AssembleFlushes(t, p, plan, now);
      }
    }
  }

  /** `t2` holds every row of `t1`, unchanged. */
  predicate Keeps(t1: Tables, t2: Tables) {
    && (forall k :: k in t1.images ==> k in t2.images && t2.images[k] == t1.images[k])
    && (forall k :: k in t1.links ==> k in t2.links && t2.links[k] == t1.links[k])
    && (forall k :: k in t1.itineraries ==> k in t2.itineraries && t2.itineraries[k] == t1.itineraries[k])
    && (forall k :: k in t1.days ==> k in t2.days && t2.days[k] == t1.days[k])
    && (forall k :: k in t1.hotels ==> k in t2.hotels && t2.hotels[k] == t1.hotels[k])
    && (forall k :: k in t1.maps ==> k in t2.maps && t2.maps[k] == t1.maps[k])
    && (forall k :: k in t1.tags ==> k in t2.tags && t2.tags[k] == t1.tags[k])
  }

  /** Creation only adds rows: nothing committed before is changed or removed. */
  lemma AssembleKeepsRows(t: Tables, p: CreateRequest, plan: IdPlan, now: int)
    requires PlanFits(plan, p) && Assemble(t, p, plan, now).Ok?
    ensures Keeps(t, Assemble(t, p, plan, now).value)
  {
    AssembleFlushes(t, p, plan, now);
    FlushKeepsRows(t, CreateRows(p, plan, ItineraryRow(p, Slugify(p.title), now)));
  }

  /** A successful flush keeps every committed row. */
  lemma FlushKeepsRows(t: Tables, r: Rows)
    requires Flush(t, r).Some?
    ensures Keeps(t, Flush(t, r).value)
  {
    FlushParts(t, r);
  }

  /** Adding a row whose slug is unused makes that slug name exactly the new row. */
  lemma AddedSlugNamesOnlyNew(before: map<string, Itinerary>, root: string, row: Itinerary, after: map<string, Itinerary>)
    requires forall id :: id in before ==> before[id].slug != row.slug
    requires after == before[root := row]
    ensures forall id :: (id in after && after[id].slug == row.slug) <==> id == root
  {
  }

  /** After a creation the slugified title names exactly one itinerary, the new root: the slug query finds it. */
  lemma AssembleSlugFindsRoot(t: Tables, p: CreateRequest, plan: IdPlan, now: int)
    requires PlanFits(plan, p) && Assemble(t, p, plan, now).Ok?
    ensures var its := Assemble(t, p, plan, now).value.itineraries;
      forall id :: (id in its && its[id].slug == Slugify(p.title)) <==> id == plan.root
  {
    AssembleRoot(t, p, plan, now);
    AssembleFlushes(t, p, plan, now);
    AddedSlugNamesOnlyNew(t.itineraries, plan.root, ItineraryRow(p, Slugify(p.title), now), Assemble(t, p, plan, now).value.itineraries);
  }

  /** A request with a title and nothing nested succeeds whenever its slug and root id are unused. */
  lemma AssembleBareSucceeds(t: Tables, p: CreateRequest, plan: IdPlan, now: int)
    requires PlanFits(plan, p)
    requires p.images == [] && p.DayList() == [] && p.MapImage().None? && p.TagList() == []
    requires p.title != "" && !SlugTaken(t, Slugify(p.title)) && plan.root !in t.itineraries
    ensures Assemble(t, p, plan, now).Ok?
  {
    var row := ItineraryRow(p, Slugify(p.title), now);
    CreateRowsParts(p, plan, row);
    var rows := CreateRows(p, plan, row);
    assert rows.images == [] && rows.links == [] && rows.days == [] && rows.hotels == [] && rows.tags == [];
    InsertOne(t.itineraries, plan.root, row);
    FlushSucceeds(t, rows);
    AssembleFlushes(t, p, plan, now);
  }

  // ---------------------------------------------------------------------------
  // The integrity rules survive a creation.
  // ---------------------------------------------------------------------------

  /**
   * The shape of a creation batch for root `id`: one itinerary row, children
   * that point at it, at most one map, hotels on distinct new days, and links
   * naming new images.
   */
  predicate CreateBatch(r: Rows, id: string) {
    && |r.itineraries| == 1 && r.itineraries[0].0 == id
    && (forall i :: 0 <= i < |r.days| ==> r.days[i].1.itineraryId == id)
    && (forall i :: 0 <= i < |r.tags| ==> r.tags[i].1.itineraryId == id)
    && (forall i :: 0 <= i < |r.maps| ==> r.maps[i].1.itineraryId == id)
    && |r.maps| <= 1
    && HotelsOnDays(r) && OneHotelPerDay(r)
    && LinksResolve(r)
  }

  lemma CreateRowsAreBatch(p: CreateRequest, plan: IdPlan, row: Itinerary)
    requires PlanFits(plan, p)
    ensures CreateBatch(CreateRows(p, plan, row), plan.root)
  {
    CreateRowsDays(p, plan, row);
    CreateRowsTags(p, plan, row);
  }

  /**
   * Rows that all point at `id`, added to a table whose rows point into
   * `owners`, leave every row pointing into `owners'` when that holds `id`
   * and every old owner.
   */
  lemma InsertedPointInto<R>(m: map<string, R>, rows: seq<(string, R)>, m': map<string, R>, parent: R -> string,
                             owners: set<string>, owners': set<string>, id: string)
    requires InsertRows(m, rows) == Some(m')
    requires forall k :: k in m ==> parent(m[k]) in owners
    requires forall i :: 0 <= i < |rows| ==> parent(rows[i].1) == id
    requires owners <= owners' && id in owners'
    ensures forall k :: k in m' ==> parent(m'[k]) in owners'
  {
    forall k | k in m' ensures parent(m'[k]) in owners' {
      if k !in m {
        var i :| 0 <= i < |rows| && rows[i].0 == k;
      }
    }
  }

  /** New days, maps and tags point at the new root; old ones at old itineraries. */
  lemma BatchKeepsParents(t: Tables, r: Rows, id: string)
    requires Consistent(t) && CreateBatch(r, id) && Flush(t, r).Some?
    ensures var t' := Flush(t, r).value;
      && (forall d :: d in t'.days ==> t'.days[d].itineraryId in t'.itineraries)
      && (forall m :: m in t'.maps ==> t'.maps[m].itineraryId in t'.itineraries)
      && (forall g :: g in t'.tags ==> t'.tags[g].itineraryId in t'.itineraries)
  {
    var t' := Flush(t, r).value;
    assert InsertRows(t.itineraries, r.itineraries) == Some(t'.itineraries) by { FlushParts(t, r); }
    assert InsertRows(t.days, r.days) == Some(t'.days) by { FlushParts(t, r); }
    assert InsertRows(t.maps, r.maps) == Some(t'.maps) by { FlushParts(t, r); }
    assert InsertRows(t.tags, r.tags) == Some(t'.tags) by { FlushParts(t, r); }
    var owners, owners' := t.itineraries.Keys, t'.itineraries.Keys;
    assert owners <= owners' && id in owners' by {
      assert r.itineraries[0].0 == id;
      assert id in KeysOf(r.itineraries);
    }
    InsertedPointInto(t.days, r.days, t'.days, (d: ItineraryDay) => d.itineraryId, owners, owners', id);
    InsertedPointInto(t.maps, r.maps, t'.maps, (m: Map) => m.itineraryId, owners, owners', id);
    InsertedPointInto(t.tags, r.tags, t'.tags, (g: Tag) => g.itineraryId, owners, owners', id);
  }

  /** New hotels each name a new day, so every hotel names a day of the grown day table. */
  lemma InsertedHotelsNameDays(hotels: map<string, HotelDetail>, rows: seq<(string, HotelDetail)>, hotels': map<string, HotelDetail>,
                               days: set<string>, newDays: set<string>, days': set<string>)
    requires InsertRows(hotels, rows) == Some(hotels')
    requires forall h :: h in hotels && hotels[h].dayId.Some? ==> hotels[h].dayId.value in days
    requires forall j :: 0 <= j < |rows| ==> rows[j].1.dayId.Some? && rows[j].1.dayId.value in newDays
    requires days <= days' && newDays <= days'
    ensures forall h :: h in hotels' && hotels'[h].dayId.Some? ==> hotels'[h].dayId.value in days'
  {
    forall h | h in hotels' && hotels'[h].dayId.Some? ensures hotels'[h].dayId.value in days' {
      if h !in hotels {
        var j :| 0 <= j < |rows| && rows[j].0 == h;
      }
    }
  }

  /** Every hotel names a day, old or new. */
  lemma BatchKeepsHotelDays(t: Tables, r: Rows, id: string)
    requires Consistent(t) && CreateBatch(r, id) && Flush(t, r).Some?
    ensures var t' := Flush(t, r).value;
      forall h :: h in t'.hotels && t'.hotels[h].dayId.Some? ==> t'.hotels[h].dayId.value in t'.days
  {
    var t' := Flush(t, r).value;
    assert InsertRows(t.days, r.days) == Some(t'.days) by { FlushParts(t, r); }
    assert InsertRows(t.hotels, r.hotels) == Some(t'.hotels) by { FlushParts(t, r); }
    InsertedHotelsNameDays(t.hotels, r.hotels, t'.hotels, t.days.Keys, KeysOf(r.days), t'.days.Keys);
  }

  /** New links each name a new image, so every link names an image of the grown image table. */
  lemma InsertedLinksNameImages(links: map<string, ImageLink>, rows: seq<(string, ImageLink)>, links': map<string, ImageLink>,
                                targets: set<string>, images': set<string>)
    requires InsertRows(links, rows) == Some(links')
    requires forall l :: l in links ==> links[l].imageId in images'
    requires forall j :: 0 <= j < |rows| ==> rows[j].1.imageId in targets
    requires targets <= images'
    ensures forall l :: l in links' ==> links'[l].imageId in images'
  {
    forall l | l in links' ensures links'[l].imageId in images' {
      if l !in links {
        var j :| 0 <= j < |rows| && rows[j].0 == l;
      }
    }
  }

  /** Every pending link's image is among the link targets. */
  lemma LinksNameTargets(r: Rows)
    ensures forall j :: 0 <= j < |r.links| ==> r.links[j].1.imageId in LinkTargets(r)
  {
  }

  /** Every link names an image, old or new. */
  lemma BatchKeepsLinkImages(t: Tables, r: Rows, id: string)
    requires Consistent(t) && CreateBatch(r, id) && Flush(t, r).Some?
    ensures var t' := Flush(t, r).value;
      forall l :: l in t'.links ==> t'.links[l].imageId in t'.images
  {
    var t' := Flush(t, r).value;
    assert InsertRows(t.images, r.images) == Some(t'.images) by { FlushParts(t, r); }
    assert InsertRows(t.links, r.links) == Some(t'.links) by { FlushParts(t, r); }
    assert LinkTargets(r) <= t'.images.Keys by {
      assert LinksResolve(r);
    }
    LinksNameTargets(r);
    InsertedLinksNameImages(t.links, r.links, t'.links, LinkTargets(r), t'.images.Keys);
  }

  /** The unique slug column still holds. */
  lemma BatchKeepsSlugsUnique(t: Tables, r: Rows, id: string)
    requires Consistent(t) && CreateBatch(r, id) && Flush(t, r).Some?
    requires !SlugTaken(t, r.itineraries[0].1.slug)
    ensures UniqueSlugs(Flush(t, r).value)
  {
    assert r.itineraries == [(id, r.itineraries[0].1)];
    FlushOneItinerary(t, r, id, r.itineraries[0].1);
    AddedSlugKeepsUnique(t, Flush(t, r).value, id, r.itineraries[0].1);
  }

  /** Adding an itinerary under a fresh id with an unused slug keeps slugs unique. */
  lemma AddedSlugKeepsUnique(t: Tables, t': Tables, id: string, row: Itinerary)
    requires UniqueSlugs(t) && !SlugTaken(t, row.slug) && id !in t.itineraries
    requires t'.itineraries == t.itineraries[id := row]
    ensures UniqueSlugs(t')
  {
  }

  /** Still at most one map per itinerary. */
  lemma BatchKeepsOneMap(t: Tables, r: Rows, id: string)
    requires Consistent(t) && CreateBatch(r, id) && Flush(t, r).Some?
    ensures var t' := Flush(t, r).value;
      forall a, b :: a in t'.maps && b in t'.maps && a != b ==> t'.maps[a].itineraryId != t'.maps[b].itineraryId
  {
    FlushParts(t, r);
    var t' := Flush(t, r).value;
    assert r.itineraries == [(id, r.itineraries[0].1)];
    FlushOneItinerary(t, r, id, r.itineraries[0].1);
    forall a, b | a in t'.maps && b in t'.maps && a != b ensures t'.maps[a].itineraryId != t'.maps[b].itineraryId {
      if a !in t.maps && b !in t.maps {
        assert false;
      } else if a !in t.maps {
        var i :| 0 <= i < |r.maps| && r.maps[i].0 == a;
      } else if b !in t.maps {
        var k :| 0 <= k < |r.maps| && r.maps[k].0 == b;
      }
    }
  }

  /**
   * Hotels added on distinct days that are all new keep at most one hotel
   * per day.
   */
  lemma InsertedHotelsOnePerDay(hotels: map<string, HotelDetail>, rows: seq<(string, HotelDetail)>, hotels': map<string, HotelDetail>,
                                days: set<string>, newDays: set<string>)
    requires InsertRows(hotels, rows) == Some(hotels')
    requires forall a, b :: a in hotels && b in hotels && a != b && hotels[a].dayId.Some? ==> hotels[a].dayId != hotels[b].dayId
    requires forall h :: h in hotels && hotels[h].dayId.Some? ==> hotels[h].dayId.value in days
    requires forall j :: 0 <= j < |rows| ==> rows[j].1.dayId.Some? && rows[j].1.dayId.value in newDays
    requires forall j, k :: 0 <= j < k < |rows| ==> rows[j].1.dayId != rows[k].1.dayId
    requires days !! newDays
    ensures forall a, b :: a in hotels' && b in hotels' && a != b && hotels'[a].dayId.Some? ==> hotels'[a].dayId != hotels'[b].dayId
  {
    forall a, b | a in hotels' && b in hotels' && a != b && hotels'[a].dayId.Some?
      ensures hotels'[a].dayId != hotels'[b].dayId
    {
      if a !in hotels && b !in hotels {
        var j :| 0 <= j < |rows| && rows[j].0 == a;
        var k :| 0 <= k < |rows| && rows[k].0 == b;
        assert j != k;
      } else if a !in hotels {
        var j :| 0 <= j < |rows| && rows[j].0 == a;
      } else if b !in hotels {
        var k :| 0 <= k < |rows| && rows[k].0 == b;
      }
    }
  }

  /** Still at most one hotel detail per day. */
  lemma BatchKeepsOneHotel(t: Tables, r: Rows, id: string)
    requires Consistent(t) && CreateBatch(r, id) && Flush(t, r).Some?
    ensures var t' := Flush(t, r).value;
      forall a, b :: a in t'.hotels && b in t'.hotels && a != b && t'.hotels[a].dayId.Some? ==> t'.hotels[a].dayId != t'.hotels[b].dayId
  {
    var t' := Flush(t, r).value;
    assert InsertRows(t.days, r.days) == Some(t'.days) by { FlushParts(t, r); }
    assert InsertRows(t.hotels, r.hotels) == Some(t'.hotels) by { FlushParts(t, r); }
    assert t.days.Keys !! KeysOf(r.days) by {
      forall x | x in KeysOf(r.days) ensures x !in t.days.Keys {
        var i :| 0 <= i < |r.days| && r.days[i].0 == x;
      }
    }
    InsertedHotelsOnePerDay(t.hotels, r.hotels, t'.hotels, t.days.Keys, KeysOf(r.days));
  }

  /** A successful creation keeps a consistent store consistent. */
  lemma AssembleKeepsConsistent(t: Tables, p: CreateRequest, plan: IdPlan, now: int)
    requires PlanFits(plan, p) && Consistent(t) && Assemble(t, p, plan, now).Ok?
    ensures Consistent(Assemble(t, p, plan, now).value)
  {
    AssembleFlushes(t, p, plan, now);
    var row := ItineraryRow(p, Slugify(p.title), now);
    var rows := CreateRows(p, plan, row);
    CreateRowsAreBatch(p, plan, row);
    BatchKeepsParents(t, rows, plan.root);
    BatchKeepsHotelDays(t, rows, plan.root);
    BatchKeepsLinkImages(t, rows, plan.root);
    BatchKeepsSlugsUnique(t, rows, plan.root);
    BatchKeepsOneMap(t, rows, plan.root);
    BatchKeepsOneHotel(t, rows, plan.root);
  }

  // ---------------------------------------------------------------------------
  // Reading back what was created: the graph of the new root.
  // ---------------------------------------------------------------------------

  /** The days that point at a root absent before the insertion are the inserted ones. */
  lemma NewDaysOnly(t: Tables, r: Rows, id: string, days: map<string, ItineraryDay>)
    requires forall d :: d in t.days ==> t.days[d].itineraryId in t.itineraries
    requires InsertRows(t.days, r.days) == Some(days) && id !in t.itineraries
    requires forall i :: 0 <= i < |r.days| ==> r.days[i].1.itineraryId == id
    ensures (set d | d in days && days[d].itineraryId == id) == KeysOf(r.days)
  {
    forall d | d in KeysOf(r.days) ensures d in days && days[d].itineraryId == id {
      var i :| 0 <= i < |r.days| && r.days[i].0 == d;
    }
  }

  /** The days of a new root loaded back from the store are exactly the batch's days. */
  lemma BatchGraphDays(t: Tables, r: Rows, id: string, t': Tables)
    requires Consistent(t) && InsertRows(t.days, r.days) == Some(t'.days)
    requires id !in t.itineraries && id in t'.itineraries
    requires forall i :: 0 <= i < |r.days| ==> r.days[i].1.itineraryId == id
    ensures var g := Graph(t', id);
      && |g.days| == |r.days|
      && forall i :: 0 <= i < |r.days| ==> r.days[i].0 in g.days && g.days[r.days[i].0].row == r.days[i].1
  {
    NewDaysOnly(t, r, id, t'.days);
    var g := Graph(t', id);
    assert g.days.Keys == KeysOf(r.days);
    DistinctKeysCount(r.days);
  }

  lemma NewTagsOnly(t: Tables, r: Rows, id: string, tags: map<string, Tag>)
    requires forall g :: g in t.tags ==> t.tags[g].itineraryId in t.itineraries
    requires InsertRows(t.tags, r.tags) == Some(tags) && id !in t.itineraries
    requires forall i :: 0 <= i < |r.tags| ==> r.tags[i].1.itineraryId == id
    ensures (set x | x in tags && tags[x].itineraryId == id) == KeysOf(r.tags)
  {
    forall x | x in KeysOf(r.tags) ensures x in tags && tags[x].itineraryId == id {
      var i :| 0 <= i < |r.tags| && r.tags[i].0 == x;
    }
  }

  /** The tags of a new root loaded back from the store are exactly the batch's tags. */
  lemma BatchGraphTags(t: Tables, r: Rows, id: string, t': Tables)
    requires Consistent(t) && InsertRows(t.tags, r.tags) == Some(t'.tags)
    requires id !in t.itineraries && id in t'.itineraries
    requires forall i :: 0 <= i < |r.tags| ==> r.tags[i].1.itineraryId == id
    ensures var g := Graph(t', id);
      && |g.tags| == |r.tags|
      && forall i :: 0 <= i < |r.tags| ==> r.tags[i].0 in g.tags && g.tags[r.tags[i].0] == r.tags[i].1
  {
    NewTagsOnly(t, r, id, t'.tags);
    var g := Graph(t', id);
    assert g.tags.Keys == KeysOf(r.tags);
    DistinctKeysCount(r.tags);
  }

  lemma NewMapsOnly(t: Tables, r: Rows, id: string, maps: map<string, Map>)
    requires forall m :: m in t.maps ==> t.maps[m].itineraryId in t.itineraries
    requires InsertRows(t.maps, r.maps) == Some(maps) && id !in t.itineraries
    requires forall i :: 0 <= i < |r.maps| ==> r.maps[i].1.itineraryId == id
    ensures (set m | m in maps && maps[m].itineraryId == id) == KeysOf(r.maps)
  {
    forall m | m in KeysOf(r.maps) ensures m in maps && maps[m].itineraryId == id {
      var i :| 0 <= i < |r.maps| && r.maps[i].0 == m;
    }
  }

  /** The map of a new root loaded back from the store is the batch's map, if any. */
  lemma BatchGraphMaps(t: Tables, r: Rows, id: string, t': Tables)
    requires Consistent(t) && InsertRows(t.maps, r.maps) == Some(t'.maps)
    requires id !in t.itineraries && id in t'.itineraries
    requires forall i :: 0 <= i < |r.maps| ==> r.maps[i].1.itineraryId == id
    ensures Graph(t', id).mapDetail.Keys == KeysOf(r.maps)
    ensures |Graph(t', id).mapDetail| == |KeysOf(r.maps)|
  {
    NewMapsOnly(t, r, id, t'.maps);
  }

  /** A pending image with a pending link of kind `kind` to `owner` is one of that owner's images once flushed. */
  lemma BatchImageLinked(t: Tables, r: Rows, t': Tables, kind: OwnerKind, owner: string, image: (string, Image), linkId: string)
    requires InsertRows(t.images, r.images) == Some(t'.images) && InsertRows(t.links, r.links) == Some(t'.links)
    requires image in r.images && (linkId, ImageLink(image.0, kind, owner)) in r.links
    ensures var images := ImagesFor(t', kind, owner);
      image.0 in images && images[image.0] == image.1
  {
    var i :| 0 <= i < |r.links| && r.links[i] == (linkId, ImageLink(image.0, kind, owner));
    var k :| 0 <= k < |r.images| && r.images[k] == image;
    ImagesForMeans(t', kind, owner, image.0);
  }

  /** The loaded new itinerary has one day per payload day, in payload order, and no other. */
  lemma AssembleGraphDays(t: Tables, p: CreateRequest, plan: IdPlan, now: int)
    requires PlanFits(plan, p) && Consistent(t) && Assemble(t, p, plan, now).Ok?
    ensures var g := Graph(Assemble(t, p, plan, now).value, plan.root);
      && |g.days| == |p.DayList()|
      && forall i :: 0 <= i < |p.DayList()| ==>
           plan.days[i].id in g.days && g.days[plan.days[i].id].row == DayRecord(p.DayList()[i], plan.root)
  {
    AssembleRoot(t, p, plan, now);
    AssembleFlushes(t, p, plan, now);
    var t' := Assemble(t, p, plan, now).value;
    var row := ItineraryRow(p, Slugify(p.title), now);
    var rows := CreateRows(p, plan, row);
    CreateRowsDays(p, plan, row);
    FlushParts(t, rows);
    BatchGraphDays(t, rows, plan.root, t');
  }

  /**
   * After inserting `rows` into a hotel table whose hotels name days of
   * `oldDays`, the hotels on the new day `day` are the one row `hotel` names,
   * or none.
   */
  lemma NewDayHotels(hotels: map<string, HotelDetail>, rows: seq<(string, HotelDetail)>, hotels': map<string, HotelDetail>,
                     oldDays: set<string>, day: string, hotel: Option<(string, HotelDetail)>)
    requires InsertRows(hotels, rows) == Some(hotels')
    requires forall h :: h in hotels && hotels[h].dayId.Some? ==> hotels[h].dayId.value in oldDays
    requires day !in oldDays
    requires forall j :: 0 <= j < |rows| && rows[j].1.dayId == Some(day) ==> hotel == Some(rows[j])
    requires hotel.Some? ==> hotel.value in rows && hotel.value.1.dayId == Some(day)
    ensures forall h :: (h in hotels' && hotels'[h].dayId == Some(day)) <==> (hotel.Some? && h == hotel.value.0)
    ensures hotel.Some? ==> hotels'[hotel.value.0] == hotel.value.1
  {
    forall h | h in hotels' && hotels'[h].dayId == Some(day) ensures hotel.Some? && h == hotel.value.0 {
      var j :| 0 <= j < |rows| && rows[j].0 == h;
    }
    if hotel.Some? {
      var j :| 0 <= j < |rows| && rows[j] == hotel.value;
    }
  }

  /** Each loaded day of the new itinerary holds every image of its payload day. */
  lemma AssembleGraphDayImages(t: Tables, p: CreateRequest, plan: IdPlan, now: int, i: int)
    requires PlanFits(plan, p) && Consistent(t) && Assemble(t, p, plan, now).Ok? && 0 <= i < |p.DayList()|
    ensures var g := Graph(Assemble(t, p, plan, now).value, plan.root);
      var d, dp := p.DayList()[i], plan.days[i];
      && dp.id in g.days
      && forall k :: 0 <= k < |d.images| ==>
           dp.images[k].imageId in g.days[dp.id].images && g.days[dp.id].images[dp.images[k].imageId] == Image(d.images[k].url, d.images[k].publicId)
  {
    var t' := Assemble(t, p, plan, now).value;
    var row := ItineraryRow(p, Slugify(p.title), now);
    var rows := CreateRows(p, plan, row);
    var d, dp := p.DayList()[i], plan.days[i];
    assert dp.id in Graph(t', plan.root).days by {
      AssembleGraphDays(t, p, plan, now);
    }
    assert HasImages(rows, d.images, dp.images, DayOwner, dp.id) by {
      CreateRowsDayDetail(p, plan, row);
      assert DayPending(rows, d, dp, plan.root);
    }
    assert InsertRows(t.images, rows.images) == Some(t'.images) && InsertRows(t.links, rows.links) == Some(t'.links) by {
      AssembleFlushes(t, p, plan, now);
      FlushParts(t, rows);
    }
    GraphDay(t', plan.root, dp.id);
    forall k | 0 <= k < |d.images|
      ensures var images := ImagesFor(t', DayOwner, dp.id);
        dp.images[k].imageId in images && images[dp.images[k].imageId] == Image(d.images[k].url, d.images[k].publicId)
    {
      assert HasImage(rows, d.images[k], dp.images[k], DayOwner, dp.id);
      BatchImageLinked(t, rows, t', DayOwner, dp.id, (dp.images[k].imageId, Image(d.images[k].url, d.images[k].publicId)), dp.images[k].linkId);
    }
  }

  /** The hotel detail row the handler adds for day `d`, if it has a hotel. */
  function DayHotelRow(d: DayEntry, dp: DayPlan): Option<(string, HotelDetail)> {
    if d.hotelDetail.Some? && dp.hotel.Some? then Some((dp.hotel.value.id, HotelRecord(d.hotelDetail.value, dp.id))) else None
  }

  /**
   * In rows whose day ids are distinct and whose hotels all come from the
   * payload days, the hotel rows naming day `i` are exactly that day's hotel
   * detail.
   */
  lemma DayHotelOfRows(r: Rows, ds: seq<DayEntry>, dps: seq<DayPlan>, root: string, i: int)
    requires HotelsFromDays(r.hotels, ds, dps) && DistinctKeys(r.days)
    requires |r.days| == |ds| && forall k :: 0 <= k < |ds| && k < |dps| ==> r.days[k].0 == dps[k].id
    requires 0 <= i < |ds| && i < |dps| && DayPending(r, ds[i], dps[i], root)
    ensures forall j :: 0 <= j < |r.hotels| && r.hotels[j].1.dayId == Some(dps[i].id) ==> DayHotelRow(ds[i], dps[i]) == Some(r.hotels[j])
    ensures DayHotelRow(ds[i], dps[i]).Some? ==> DayHotelRow(ds[i], dps[i]).value in r.hotels
    ensures DayHotelRow(ds[i], dps[i]).Some? ==> DayHotelRow(ds[i], dps[i]).value.1.dayId == Some(dps[i].id)
  {
    forall j | 0 <= j < |r.hotels| && r.hotels[j].1.dayId == Some(dps[i].id)
      ensures DayHotelRow(ds[i], dps[i]) == Some(r.hotels[j])
    {
      assert HotelOfSomeDay(ds, dps, r.hotels[j]);
      var i' :| 0 <= i' < |ds| && IsDayHotel(ds, dps, i', r.hotels[j]);
      assert r.days[i'].0 == r.days[i].0;
    }
  }

  /** In a batch with distinct day ids, the hotel rows naming day `i` are exactly that day's hotel detail. */
  lemma CreateRowsDayHotel(p: CreateRequest, plan: IdPlan, row: Itinerary, i: int)
    requires PlanFits(plan, p) && DistinctKeys(CreateRows(p, plan, row).days) && 0 <= i < |p.DayList()|
    ensures var r := CreateRows(p, plan, row);
      var dp, hotel := plan.days[i], DayHotelRow(p.DayList()[i], plan.days[i]);
      && (forall j :: 0 <= j < |r.hotels| && r.hotels[j].1.dayId == Some(dp.id) ==> hotel == Some(r.hotels[j]))
      && (hotel.Some? ==> hotel.value in r.hotels && hotel.value.1.dayId == Some(dp.id))
  {
    var r := CreateRows(p, plan, row);
    var ds, dps := p.DayList(), plan.days;
    assert |r.days| == |ds| && forall k :: 0 <= k < |ds| && k < |dps| ==> r.days[k].0 == dps[k].id by {
      CreateRowsDays(p, plan, row);
    }
    assert HotelsFromDays(r.hotels, ds, dps) && DayPending(r, ds[i], dps[i], plan.root) by {
      CreateRowsDayDetail(p, plan, row);
    }
    DayHotelOfRows(r, ds, dps, plan.root, i);
  }

  /** A day of itinerary `id` is loaded with its images and its hotel details. */
  lemma GraphDay(t: Tables, id: string, day: string)
    requires id in t.itineraries && day in Graph(t, id).days
    ensures Graph(t, id).days[day] == DayGraph(t.days[day], ImagesFor(t, DayOwner, day), HotelsOf(t, day))
  {
  }

  /** When the hotels on `day` are exactly the one row `hotel` names, or none, so is the loaded hotel detail. */
  lemma HotelsOfExactly(t: Tables, day: string, hotel: Option<(string, HotelDetail)>)
    requires forall h :: (h in t.hotels && t.hotels[h].dayId == Some(day)) <==> (hotel.Some? && h == hotel.value.0)
    requires hotel.Some? ==> t.hotels[hotel.value.0] == hotel.value.1
    ensures hotel.None? ==> HotelsOf(t, day) == map[]
    ensures hotel.Some? ==> HotelsOf(t, day).Keys == {hotel.value.0} && HotelsOf(t, day)[hotel.value.0].row == hotel.value.1
  {
  }

  /**
   * Each loaded day of the new itinerary has exactly the hotel detail its
   * payload day gives: none without one, else that one row with the given
   * name and url.
   */
  lemma AssembleGraphDayHotel(t: Tables, p: CreateRequest, plan: IdPlan, now: int, i: int)
    requires PlanFits(plan, p) && Consistent(t) && Assemble(t, p, plan, now).Ok? && 0 <= i < |p.DayList()|
    ensures var g := Graph(Assemble(t, p, plan, now).value, plan.root);
      var d, dp := p.DayList()[i], plan.days[i];
      && dp.id in g.days
      && (d.hotelDetail.None? ==> g.days[dp.id].hotelDetail == map[])
      && (d.hotelDetail.Some? ==>
            && g.days[dp.id].hotelDetail.Keys == {dp.hotel.value.id}
            && g.days[dp.id].hotelDetail[dp.hotel.value.id].row == HotelRecord(d.hotelDetail.value, dp.id))
  {
    var t' := Assemble(t, p, plan, now).value;
    var row := ItineraryRow(p, Slugify(p.title), now);
    var rows := CreateRows(p, plan, row);
    var d, dp := p.DayList()[i], plan.days[i];
    var hotel := DayHotelRow(d, dp);
    assert plan.root in t'.itineraries && dp.id in Graph(t', plan.root).days by {
      AssembleRoot(t, p, plan, now);
      AssembleGraphDays(t, p, plan, now);
    }
    assert InsertRows(t.hotels, rows.hotels) == Some(t'.hotels) && InsertRows(t.days, rows.days) == Some(t'.days) by {
      AssembleFlushes(t, p, plan, now);
      FlushParts(t, rows);
    }
    assert rows.days[i].0 == dp.id by {
      CreateRowsDays(p, plan, row);
    }
    CreateRowsDayHotel(p, plan, row, i);
    NewDayHotels(t.hotels, rows.hotels, t'.hotels, t.days.Keys, dp.id, hotel);
    HotelsOfExactly(t', dp.id, hotel);
    GraphDay(t', plan.root, dp.id);
  }

  /** The loaded hotel detail of a payload day holds every image of the payload's hotel. */
  lemma AssembleGraphHotelImages(t: Tables, p: CreateRequest, plan: IdPlan, now: int, i: int)
    requires PlanFits(plan, p) && Consistent(t) && Assemble(t, p, plan, now).Ok? && 0 <= i < |p.DayList()|
    requires p.DayList()[i].hotelDetail.Some?
    ensures var g := Graph(Assemble(t, p, plan, now).value, plan.root);
      var h, dp := p.DayList()[i].hotelDetail.value, plan.days[i];
      && dp.id in g.days && dp.hotel.Some? && dp.hotel.value.id in g.days[dp.id].hotelDetail
      && forall k :: 0 <= k < |h.images| ==>
           var images := g.days[dp.id].hotelDetail[dp.hotel.value.id].images;
           dp.hotel.value.images[k].imageId in images
           && images[dp.hotel.value.images[k].imageId] == Image(h.images[k].url, h.images[k].publicId)
  {
    var t' := Assemble(t, p, plan, now).value;
    var row := ItineraryRow(p, Slugify(p.title), now);
    var rows := CreateRows(p, plan, row);
    var d, dp := p.DayList()[i], plan.days[i];
    var h, hp := d.hotelDetail.value, dp.hotel.value;
    assert dp.id in Graph(t', plan.root).days && hp.id in Graph(t', plan.root).days[dp.id].hotelDetail by {
      AssembleGraphDayHotel(t, p, plan, now, i);
    }
    assert HasImages(rows, h.images, hp.images, HotelOwner, hp.id) by {
      CreateRowsDayDetail(p, plan, row);
      assert DayPending(rows, d, dp, plan.root);
    }
    assert InsertRows(t.images, rows.images) == Some(t'.images) && InsertRows(t.links, rows.links) == Some(t'.links) by {
      AssembleFlushes(t, p, plan, now);
      FlushParts(t, rows);
    }
    GraphDay(t', plan.root, dp.id);
    assert Graph(t', plan.root).days[dp.id].hotelDetail[hp.id].images == ImagesFor(t', HotelOwner, hp.id);
    forall k | 0 <= k < |h.images|
      ensures var images := ImagesFor(t', HotelOwner, hp.id);
        hp.images[k].imageId in images && images[hp.images[k].imageId] == Image(h.images[k].url, h.images[k].publicId)
    {
      assert HasImage(rows, h.images[k], hp.images[k], HotelOwner, hp.id);
      BatchImageLinked(t, rows, t', HotelOwner, hp.id, (hp.images[k].imageId, Image(h.images[k].url, h.images[k].publicId)), hp.images[k].linkId);
    }
  }

  /** The loaded new itinerary has one tag per payload tag, and no other. */
  lemma AssembleGraphTags(t: Tables, p: CreateRequest, plan: IdPlan, now: int)
    requires PlanFits(plan, p) && Consistent(t) && Assemble(t, p, plan, now).Ok?
    ensures var g := Graph(Assemble(t, p, plan, now).value, plan.root);
      && |g.tags| == |p.TagList()|
      && forall i :: 0 <= i < |p.TagList()| ==>
           plan.tags[i] in g.tags && g.tags[plan.tags[i]] == Tag(p.TagList()[i].item, plan.root)
  {
    AssembleRoot(t, p, plan, now);
    AssembleFlushes(t, p, plan, now);
    var t' := Assemble(t, p, plan, now).value;
    var row := ItineraryRow(p, Slugify(p.title), now);
    var rows := CreateRows(p, plan, row);
    CreateRowsTags(p, plan, row);
    FlushParts(t, rows);
    BatchGraphTags(t, rows, plan.root, t');
  }

  lemma CreateRowsMapKeys(p: CreateRequest, plan: IdPlan, row: Itinerary)
    requires PlanFits(plan, p)
    ensures KeysOf(CreateRows(p, plan, row).maps) == (if p.MapImage().Some? then {plan.mapPlan.value.id} else {})
    ensures |KeysOf(CreateRows(p, plan, row).maps)| == (if p.MapImage().Some? then 1 else 0)
  {
    var rows := CreateRows(p, plan, row);
    if p.MapImage().Some? {
      assert rows.maps[0].0 == plan.mapPlan.value.id;
    }
  }

  /** The loaded new itinerary has a map exactly when the request gave a map image. */
  lemma AssembleGraphMap(t: Tables, p: CreateRequest, plan: IdPlan, now: int)
    requires PlanFits(plan, p) && Consistent(t) && Assemble(t, p, plan, now).Ok?
    ensures var g := Graph(Assemble(t, p, plan, now).value, plan.root);
      && g.mapDetail.Keys == (if p.MapImage().Some? then {plan.mapPlan.value.id} else {})
      && |g.mapDetail| == (if p.MapImage().Some? then 1 else 0)
  {
    AssembleRoot(t, p, plan, now);
    AssembleFlushes(t, p, plan, now);
    var t' := Assemble(t, p, plan, now).value;
    var row := ItineraryRow(p, Slugify(p.title), now);
    var rows := CreateRows(p, plan, row);
    FlushParts(t, rows);
    CreateRowsAreBatch(p, plan, row);
    CreateRowsMapKeys(p, plan, row);
    BatchGraphMaps(t, rows, plan.root, t');
  }

  /** The new map's single image relation holds the request's map image. */
  lemma AssembleGraphMapImage(t: Tables, p: CreateRequest, plan: IdPlan, now: int)
    requires PlanFits(plan, p) && Consistent(t) && Assemble(t, p, plan, now).Ok? && p.MapImage().Some?
    ensures var g := Graph(Assemble(t, p, plan, now).value, plan.root);
      var mp := plan.mapPlan.value;
      && mp.id in g.mapDetail
      && mp.image.imageId in g.mapDetail[mp.id].image
      && g.mapDetail[mp.id].image[mp.image.imageId] == Image(p.MapImage().value.url, p.MapImage().value.publicId)
  {
    AssembleGraphMap(t, p, plan, now);
    AssembleFlushes(t, p, plan, now);
    var t' := Assemble(t, p, plan, now).value;
    var row := ItineraryRow(p, Slugify(p.title), now);
    var rows := CreateRows(p, plan, row);
    CreateRowsImages(p, plan, row);
    FlushParts(t, rows);
    var mp := plan.mapPlan.value;
    var e := p.MapImage().value;
    BatchImageLinked(t, rows, t', MapOwner, mp.id, (mp.image.imageId, Image(e.url, e.publicId)), mp.image.linkId);
  }

  /** The loaded new itinerary is the built row, and every request image is among its images. */
  lemma AssembleGraphImages(t: Tables, p: CreateRequest, plan: IdPlan, now: int)
    requires PlanFits(plan, p) && Assemble(t, p, plan, now).Ok?
    ensures plan.root in Assemble(t, p, plan, now).value.itineraries
    ensures var g := Graph(Assemble(t, p, plan, now).value, plan.root);
      && g.row == ItineraryRow(p, Slugify(p.title), now)
      && forall i :: 0 <= i < |p.images| ==>
           plan.images[i].imageId in g.images && g.images[plan.images[i].imageId] == Image(p.images[i].url, p.images[i].publicId)
  {
    AssembleRoot(t, p, plan, now);
    AssembleFlushes(t, p, plan, now);
    var t' := Assemble(t, p, plan, now).value;
    var row := ItineraryRow(p, Slugify(p.title), now);
    var rows := CreateRows(p, plan, row);
    CreateRowsImages(p, plan, row);
    FlushParts(t, rows);
    forall i | 0 <= i < |p.images|
      ensures var images := ImagesFor(t', ItineraryOwner, plan.root);
        plan.images[i].imageId in images && images[plan.images[i].imageId] == Image(p.images[i].url, p.images[i].publicId)
    {
      assert rows.images[i] in rows.images && rows.links[i] in rows.links;
      BatchImageLinked(t, rows, t', ItineraryOwner, plan.root, rows.images[i], plan.images[i].linkId);
    }
  }
}
