/**
 * The seven tables of models.py as maps from primary key to row, the
 * polymorphic image relation read through the link table, the integrity
 * rules a well-formed store keeps, and the eagerly loaded itinerary graph.
 */
module Records {
  import opened Wrappers
  import opened Payload

  /** The owner kinds written into `ImageLink.entity_type`. */
  datatype OwnerKind = ItineraryOwner | DayOwner | HotelOwner | MapOwner {
    /** The string stored in the `entity_type` column. */
    function Name(): string {
      match this
      case ItineraryOwner => "itinerary"
      case DayOwner => "itinerary_day"
      case HotelOwner => "hotel_detail"
      case MapOwner => "map"
    }
  }

  datatype Image = Image(url: string, publicId: string)

  datatype ImageLink = ImageLink(imageId: string, entityType: OwnerKind, entityId: string)

  datatype Itinerary = Itinerary(
    title: string,
    overview: string,
    slug: string,
    duration: int,
    arrivalCity: string,
    departureCity: string,
    accommodation: string,
    location: string,
    discount: int,
    costInclusive: Option<seq<CostItem>>,
    costExclusive: Option<seq<CostItem>>,
    createdAt: int)

  datatype ItineraryDay = ItineraryDay(dayNumber: int, title: string, description: string, itineraryId: string)

  datatype HotelDetail = HotelDetail(name: string, url: Option<string>, dayId: Option<string>)

  datatype Map = Map(itineraryId: string)

  datatype Tag = Tag(item: string, itineraryId: string)

  /** The committed content of the database: one map per table, keyed by id. */
  datatype Tables = Tables(
    images: map<string, Image>,
    links: map<string, ImageLink>,
    itineraries: map<string, Itinerary>,
    days: map<string, ItineraryDay>,
    hotels: map<string, HotelDetail>,
    maps: map<string, Map>,
    tags: map<string, Tag>)

  const EmptyTables := Tables(map[], map[], map[], map[], map[], map[], map[])

  /** Some itinerary already carries `slug` (the `unique=True` column). */
  predicate SlugTaken(t: Tables, slug: string) {
    exists id :: id in t.itineraries && t.itineraries[id].slug == slug
  }

  predicate UniqueSlugs(t: Tables) {
    forall a, b :: a in t.itineraries && b in t.itineraries && a != b ==> t.itineraries[a].slug != t.itineraries[b].slug
  }

  /**
   * The invariant the handlers maintain: unique slugs (the one constraint
   * the database itself enforces), every foreign key names an existing row,
   * an image link names an existing image, and the `uselist=False` relations
   * hold at most one row (one map per itinerary, one hotel detail per day).
   * SQLite checks no foreign key unless told to, and `uselist=False` only
   * shapes what the ORM loads, so apart from the slugs this is kept by the
   * create and delete operations, not by the schema. Link owners are not
   * constrained: nothing ties `entity_id` to a row.
   */
  predicate Consistent(t: Tables) {
    && UniqueSlugs(t)
    && (forall d :: d in t.days ==> t.days[d].itineraryId in t.itineraries)
    && (forall h :: h in t.hotels && t.hotels[h].dayId.Some? ==> t.hotels[h].dayId.value in t.days)
    && (forall m :: m in t.maps ==> t.maps[m].itineraryId in t.itineraries)
    && (forall g :: g in t.tags ==> t.tags[g].itineraryId in t.itineraries)
    && (forall l :: l in t.links ==> t.links[l].imageId in t.images)
    && (forall a, b :: a in t.maps && b in t.maps && a != b ==> t.maps[a].itineraryId != t.maps[b].itineraryId)
    && (forall a, b :: a in t.hotels && b in t.hotels && a != b && t.hotels[a].dayId.Some? ==> t.hotels[a].dayId != t.hotels[b].dayId)
  }

  /**
   * The `images` relationships of Itinerary, ItineraryDay, HotelDetail and
   * Map: the images named by links whose `entity_type` is `kind` and whose
   * `entity_id` is `owner`, joined to the image table.
   */
  function ImagesFor(t: Tables, kind: OwnerKind, owner: string): (r: map<string, Image>)
    ensures r.Keys <= t.images.Keys
    ensures forall i :: i in r ==> r[i] == t.images[i]
  {
    var ids := set l | l in t.links && t.links[l].entityType == kind && t.links[l].entityId == owner && t.links[l].imageId in t.images
                 :: t.links[l].imageId;
    map i | i in ids :: t.images[i]
  }

  /** An image id is in `ImagesFor` exactly when a link of that kind and owner names it. */
  lemma ImagesForMeans(t: Tables, kind: OwnerKind, owner: string, image: string)
    ensures image in ImagesFor(t, kind, owner) <==>
      image in t.images && exists l :: l in t.links && t.links[l] == ImageLink(image, kind, owner)
  {
    if image in ImagesFor(t, kind, owner) {
      var l :| l in t.links && t.links[l].entityType == kind && t.links[l].entityId == owner && t.links[l].imageId == image;
      assert t.links[l] == ImageLink(image, kind, owner);
    }
  }

  datatype HotelGraph = HotelGraph(row: HotelDetail, images: map<string, Image>)

  datatype DayGraph = DayGraph(row: ItineraryDay, images: map<string, Image>, hotelDetail: map<string, HotelGraph>)

  datatype MapGraph = MapGraph(row: Map, image: map<string, Image>)

  /** An itinerary with every level `selectinload` fetches: images, days with images and hotel, map with image, tags. */
  datatype ItineraryGraph = ItineraryGraph(
    id: string,
    row: Itinerary,
    images: map<string, Image>,
    days: map<string, DayGraph>,
    mapDetail: map<string, MapGraph>,
    tags: map<string, Tag>)

  function HotelsOf(t: Tables, day: string): map<string, HotelGraph> {
    map h | h in t.hotels && t.hotels[h].dayId == Some(day) :: HotelGraph(t.hotels[h], ImagesFor(t, HotelOwner, h))
  }

  /** The full graph of itinerary `id` as the two read handlers load it. */
  function Graph(t: Tables, id: string): (g: ItineraryGraph)
    requires id in t.itineraries
    ensures g.id == id && g.row == t.itineraries[id]
    ensures forall d :: d in g.days <==> d in t.days && t.days[d].itineraryId == id
    ensures forall m :: m in g.mapDetail <==> m in t.maps && t.maps[m].itineraryId == id
    ensures forall x :: x in g.tags <==> x in t.tags && t.tags[x].itineraryId == id
  {
    ItineraryGraph(id, t.itineraries[id], ImagesFor(t, ItineraryOwner, id), DaysOf(t, id), MapsOf(t, id), TagsOf(t, id))
  }

  /** The `days` relationship of itinerary `id`, each day with its images and hotel detail. */
  function DaysOf(t: Tables, id: string): map<string, DayGraph> {
    map d | d in t.days && t.days[d].itineraryId == id :: DayGraph(t.days[d], ImagesFor(t, DayOwner, d), HotelsOf(t, d))
  }

  /** The `map` relationship of itinerary `id`, with its image. */
  function MapsOf(t: Tables, id: string): map<string, MapGraph> {
    map m | m in t.maps && t.maps[m].itineraryId == id :: MapGraph(t.maps[m], ImagesFor(t, MapOwner, m))
  }

  /** The `tags` relationship of itinerary `id`. */
  function TagsOf(t: Tables, id: string): map<string, Tag> {
    map x | x in t.tags && t.tags[x].itineraryId == id :: t.tags[x]
  }

  lemma AtMostOneKey<V>(m: map<string, V>)
    requires forall a, b :: a in m && b in m ==> a == b
    ensures |m| <= 1
  {
    if m != map[] {
      var a :| a in m;
      assert m.Keys == {a};
    }
  }

  /** In a consistent store a graph holds at most one map and each day at most one hotel detail. */
  lemma GraphOneToOne(t: Tables, id: string)
    requires Consistent(t) && id in t.itineraries
    ensures |Graph(t, id).mapDetail| <= 1
    ensures forall d :: d in Graph(t, id).days ==> |Graph(t, id).days[d].hotelDetail| <= 1
  {
    var g := Graph(t, id);
    AtMostOneKey(g.mapDetail);
    forall d | d in g.days
      ensures |g.days[d].hotelDetail| <= 1
    {
      AtMostOneKey(g.days[d].hotelDetail);
    }
  }
}
