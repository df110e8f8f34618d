/**
 * The creation payload accepted by `POST /itineraries/create`, shaped after
 * the `*CreateSchema` classes of itinerary/schema.py. Lists the schema makes
 * optional with an empty default are plain sequences, except `days` and
 * `tags`, which the handler reads as `request.days or []` and
 * `request.tags or []`.
 */
module Payload {
  import opened Wrappers

  /** One object of `cost_inclusive` / `cost_exclusive`: an opaque JSON record. */
  datatype CostItem = CostItem(fields: map<string, string>)

  datatype ImageEntry = ImageEntry(url: string, publicId: string)

  datatype HotelEntry = HotelEntry(name: string, url: Option<string>, images: seq<ImageEntry>)

  datatype DayEntry = DayEntry(
    dayNumber: int,
    title: string,
    description: string,
    hotelDetail: Option<HotelEntry>,
    images: seq<ImageEntry>)

  datatype MapEntry = MapEntry(image: Option<ImageEntry>)

  datatype TagEntry = TagEntry(item: string)

  datatype CreateRequest = CreateRequest(
    title: string,
    overview: string,
    duration: int,
    arrivalCity: string,
    departureCity: string,
    accommodation: string,
    location: string,
    discount: Option<int>,
    price: int,
    costInclusive: Option<seq<CostItem>>,
    costExclusive: Option<seq<CostItem>>,
    days: Option<seq<DayEntry>>,
    mapDetail: Option<MapEntry>,
    tags: Option<seq<TagEntry>>,
    images: seq<ImageEntry>)
  {
    /** `request.days or []` */
    function DayList(): seq<DayEntry> {
      days.GetOr([])
    }

    /** `request.tags or []` */
    function TagList(): seq<TagEntry> {
      tags.GetOr([])
    }

    /** The map image, present only when `request.map and request.map.image` holds. */
    function MapImage(): Option<ImageEntry> {
      if mapDetail.Some? then mapDetail.value.image else None
    }

    /** `request.discount or 0` */
    function DiscountOrZero(): int {
      if discount.Some? && discount.value != 0 then discount.value else 0
    }
  }
}
