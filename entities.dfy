/**
 * The Itinerary object before it reaches the table, and the two event
 * listeners of models.py that set its slug in place: `before_insert` only
 * fills a missing slug, `before_update` always re-derives it from a non-empty
 * title.
 */
module Entities {
  import opened Wrappers
  import opened Slugs
  import opened Payload
  import opened Records

  /** `not target.slug`: no slug, or the empty one. */
  predicate SlugUnset(slug: Option<string>) {
    slug.None? || slug.value == ""
  }

  /** The slug after `create_itinerary_slug` ran on an object with this title and slug. */
  function SlugOnInsert(title: string, slug: Option<string>): (r: Option<string>)
    ensures title != "" && SlugUnset(slug) ==> r == Some(Slugify(title))
    ensures title == "" || !SlugUnset(slug) ==> r == slug
  {
    if title != "" && SlugUnset(slug) then Some(Slugify(title)) else slug
  }

  /** The slug after `update_itinerary_slug` ran on an object with this title and slug. */
  function SlugOnUpdate(title: string, slug: Option<string>): (r: Option<string>)
    ensures title != "" ==> r == Some(Slugify(title))
    ensures title == "" ==> r == slug
  {
    if title != "" then Some(Slugify(title)) else slug
  }

  /** A slug the insert hook keeps is overwritten by the update hook whenever the title is set and differs. */
  lemma PresetSlugSurvivesInsertOnly(title: string, preset: string)
    requires title != "" && preset != "" && preset != Slugify(title)
    ensures SlugOnInsert(title, Some(preset)) == Some(preset)
    ensures SlugOnUpdate(title, Some(preset)) != Some(preset)
  {
  }

  /** Whatever either hook writes is a slug, and running the update hook again changes nothing. */
  lemma HookedSlugsAreSlugs(title: string, slug: Option<string>)
    requires title != ""
    ensures SlugOnInsert(title, None).Some? && IsSlug(SlugOnInsert(title, None).value)
    ensures IsSlug(SlugOnUpdate(title, slug).value)
    ensures SlugOnUpdate(title, SlugOnUpdate(title, slug)) == SlugOnUpdate(title, slug)
  {
  }

  /**
   * On a new itinerary the update hook, which fires again when the flushes of
   * the create handler mark it dirty, leaves the slug the insert hook wrote.
   */
  lemma UpdateAfterInsertKeepsSlug(title: string)
    ensures SlugOnUpdate(title, SlugOnInsert(title, None)) == SlugOnInsert(title, None)
  {
  }

  /** The row `create_itinerary` builds from the request (itinerary.py, lines 149-160) once the slug is known. */
  function ItineraryRow(request: CreateRequest, slug: string, createdAt: int): (row: Itinerary)
    ensures row.slug == slug && row.title == request.title
    ensures row.discount == request.discount.GetOr(0)
  {
    Itinerary(request.title, request.overview, slug, request.duration, request.arrivalCity,
              request.departureCity, request.accommodation, request.location, request.DiscountOrZero(),
              request.costInclusive, request.costExclusive, createdAt)
  }

  /** A mapped Itinerary object, whose listeners update `slug` in place. */
  class ItineraryEntity {
    var title: string
    var overview: string
    var duration: int
    var arrivalCity: string
    var departureCity: string
    var accommodation: string
    var location: string
    var discount: int
    var costInclusive: Option<seq<CostItem>>
    var costExclusive: Option<seq<CostItem>>
    var createdAt: int
    var slug: Option<string>

    /** `Itinerary(title=..., discount=request.discount or 0, ...)`: no slug yet. */
    constructor FromRequest(request: CreateRequest, now: int)
      ensures title == request.title && overview == request.overview && duration == request.duration
      ensures arrivalCity == request.arrivalCity && departureCity == request.departureCity
      ensures accommodation == request.accommodation && location == request.location
      ensures discount == request.DiscountOrZero()
      ensures costInclusive == request.costInclusive && costExclusive == request.costExclusive
      ensures createdAt == now && slug == None
    {
      title := request.title;
      overview := request.overview;
      duration := request.duration;
      arrivalCity := request.arrivalCity;
      departureCity := request.departureCity;
      accommodation := request.accommodation;
      location := request.location;
      discount := if request.discount.Some? && request.discount.value != 0 then request.discount.value else 0;
      costInclusive := request.costInclusive;
      costExclusive := request.costExclusive;
      createdAt := now;
      slug := None;
    }

    /** `create_itinerary_slug` (models.py, lines 86-89). */
    method BeforeInsert()
      modifies this`slug
      ensures slug == SlugOnInsert(title, old(slug))
    {
      if title != "" && SlugUnset(slug) {
        slug := Some(Slugify(title));
      }
    }

    /** `update_itinerary_slug` (models.py, lines 92-95). */
    method BeforeUpdate()
      modifies this`slug
      ensures slug == SlugOnUpdate(title, old(slug))
    {
      if title != "" {
        slug := Some(Slugify(title));
      }
    }

    /** The row this object becomes when inserted. */
    function Row(): (row: Itinerary)
      reads this
      requires slug.Some?
      ensures row.slug == slug.value && row.title == title && row.discount == discount
    {
      Itinerary(title, overview, slug.value, duration, arrivalCity, departureCity, accommodation,
                location, discount, costInclusive, costExclusive, createdAt)
    }
  }
}
