/**
 * The delete cascades of models.py over the tables. An itinerary owns its
 * days, its map and its tags (`cascade="all, delete-orphan"`, lines 78-80), a
 * day owns its hotel detail (lines 152-154), and an image owns the links that
 * name it (line 33 and the `ondelete="CASCADE"` key at line 43). The image
 * relations of the owners are `viewonly`, so deleting an owner leaves images
 * and links alone.
 */
module Cascade {
  import opened Wrappers
  import opened Records

  /** The hotel's day is a day of itinerary `id`. */
  predicate OnDayOf(t: Tables, dayId: Option<string>, id: string) {
    dayId.Some? && dayId.value in t.days && t.days[dayId.value].itineraryId == id
  }

  /** `db.delete(itinerary)` with its cascades: the itinerary, its days, their hotels, its map and tags. */
  function DeleteItineraryRows(t: Tables, id: string): (r: Tables)
    ensures r.images == t.images && r.links == t.links
    ensures r.itineraries == t.itineraries - {id}
    ensures forall d :: d in r.days <==> d in t.days && t.days[d].itineraryId != id
    ensures forall h :: h in r.hotels <==> h in t.hotels && !OnDayOf(t, t.hotels[h].dayId, id)
    ensures forall m :: m in r.maps <==> m in t.maps && t.maps[m].itineraryId != id
    ensures forall g :: g in r.tags <==> g in t.tags && t.tags[g].itineraryId != id
    ensures forall d :: d in r.days ==> r.days[d] == t.days[d]
    ensures forall h :: h in r.hotels ==> r.hotels[h] == t.hotels[h]
    ensures forall m :: m in r.maps ==> r.maps[m] == t.maps[m]
    ensures forall g :: g in r.tags ==> r.tags[g] == t.tags[g]
  {
    Tables(
      t.images,
      t.links,
      t.itineraries - {id},
      map d | d in t.days && t.days[d].itineraryId != id :: t.days[d],
      map h | h in t.hotels && !OnDayOf(t, t.hotels[h].dayId, id) :: t.hotels[h],
      map m | m in t.maps && t.maps[m].itineraryId != id :: t.maps[m],
      map g | g in t.tags && t.tags[g].itineraryId != id :: t.tags[g])
  }

  /** Deleting a day row alone: its hotel detail goes with it. */
  function DeleteDayRows(t: Tables, day: string): (r: Tables)
    ensures r.images == t.images && r.links == t.links && r.itineraries == t.itineraries
    ensures r.maps == t.maps && r.tags == t.tags
    ensures r.days == t.days - {day}
    ensures forall h :: h in r.hotels <==> h in t.hotels && t.hotels[h].dayId != Some(day)
    ensures forall h :: h in r.hotels ==> r.hotels[h] == t.hotels[h]
  {
    t.(days := t.days - {day},
       hotels := map h | h in t.hotels && t.hotels[h].dayId != Some(day) :: t.hotels[h])
  }

  /** Deleting an image: every link naming it goes too. */
  function DeleteImageRows(t: Tables, image: string): (r: Tables)
    ensures r.images == t.images - {image}
    ensures forall l :: l in r.links <==> l in t.links && t.links[l].imageId != image
    ensures forall l :: l in r.links ==> r.links[l] == t.links[l]
    ensures r.itineraries == t.itineraries && r.days == t.days && r.hotels == t.hotels
    ensures r.maps == t.maps && r.tags == t.tags
  {
    t.(images := t.images - {image},
       links := map l | l in t.links && t.links[l].imageId != image :: t.links[l])
  }

  /** After the cascade no row refers to the deleted itinerary or to one of its deleted days. */
  lemma DeleteItineraryLeavesNoChildren(t: Tables, id: string)
    requires Consistent(t)
    ensures var r := DeleteItineraryRows(t, id);
      && id !in r.itineraries
      && (forall d :: d in r.days ==> r.days[d].itineraryId != id)
      && (forall m :: m in r.maps ==> r.maps[m].itineraryId != id)
      && (forall g :: g in r.tags ==> r.tags[g].itineraryId != id)
      && (forall h :: h in r.hotels && r.hotels[h].dayId.Some? ==> r.hotels[h].dayId.value in r.days)
  {
  }

  /** The cascade keeps a consistent store consistent. */
  lemma DeleteItineraryKeepsConsistent(t: Tables, id: string)
    requires Consistent(t)
    ensures Consistent(DeleteItineraryRows(t, id))
  {
    DeleteItineraryKeepsParents(t, id);
    DeleteItineraryKeepsHotelDays(t, id);
    assert UniqueSlugs(DeleteItineraryRows(t, id));
  }

  /** Every surviving day, map and tag still points at a surviving itinerary. */
  lemma DeleteItineraryKeepsParents(t: Tables, id: string)
    requires Consistent(t)
    ensures var r := DeleteItineraryRows(t, id);
      && (forall d :: d in r.days ==> r.days[d].itineraryId in r.itineraries)
      && (forall m :: m in r.maps ==> r.maps[m].itineraryId in r.itineraries)
      && (forall g :: g in r.tags ==> r.tags[g].itineraryId in r.itineraries)
  {
  }

  /** Every surviving hotel detail still names a surviving day. */
  lemma DeleteItineraryKeepsHotelDays(t: Tables, id: string)
    requires Consistent(t)
    ensures var r := DeleteItineraryRows(t, id);
      forall h :: h in r.hotels && r.hotels[h].dayId.Some? ==> r.hotels[h].dayId.value in r.days
  {
  }

  /** Deleting a day keeps a consistent store consistent. */
  lemma DeleteDayKeepsConsistent(t: Tables, day: string)
    requires Consistent(t)
    ensures Consistent(DeleteDayRows(t, day))
  {
  }

  /** Deleting an image keeps a consistent store consistent. */
  lemma DeleteImageKeepsConsistent(t: Tables, image: string)
    requires Consistent(t)
    ensures Consistent(DeleteImageRows(t, image))
  {
  }

  /**
   * The image relations are view-only: deleting an itinerary changes no
   * owner's images, not even those of the deleted owners, whose links stay.
   */
  lemma DeleteItineraryKeepsImageRelations(t: Tables, id: string, kind: OwnerKind, owner: string)
    ensures ImagesFor(DeleteItineraryRows(t, id), kind, owner) == ImagesFor(t, kind, owner)
  {
  }

  /** Deleting an image removes it from every owner's images, and nothing else. */
  lemma DeleteImageLeavesRelations(t: Tables, image: string, kind: OwnerKind, owner: string)
    ensures ImagesFor(DeleteImageRows(t, image), kind, owner) == ImagesFor(t, kind, owner) - {image}
  {
    var r := DeleteImageRows(t, image);
    forall i | i in ImagesFor(t, kind, owner) - {image} ensures i in ImagesFor(r, kind, owner) {
      ImagesForMeans(t, kind, owner, i);
      var l :| l in t.links && t.links[l] == ImageLink(i, kind, owner);
      ImagesForMeans(r, kind, owner, i);
    }
  }

  /** A day that survives the cascade keeps its hotel detail. */
  lemma DeleteItineraryKeepsHotels(t: Tables, id: string, d: string)
    requires d in t.days && t.days[d].itineraryId != id
    ensures HotelsOf(DeleteItineraryRows(t, id), d) == HotelsOf(t, d)
  {
    var r := DeleteItineraryRows(t, id);
    forall h | h in t.hotels && t.hotels[h].dayId == Some(d) ensures h in r.hotels {
    }
    assert HotelsOf(r, d).Keys == HotelsOf(t, d).Keys;
  }

  lemma DeleteItineraryKeepsOtherDays(t: Tables, id: string, other: string)
    requires other != id
    ensures DaysOf(DeleteItineraryRows(t, id), other) == DaysOf(t, other)
  {
    var r := DeleteItineraryRows(t, id);
    var a, b := DaysOf(r, other), DaysOf(t, other);
    assert a.Keys == b.Keys;
    forall d | d in a ensures a[d] == b[d] {
      DeleteItineraryKeepsHotels(t, id, d);
      DeleteItineraryKeepsImageRelations(t, id, DayOwner, d);
    }
  }

  lemma DeleteItineraryKeepsOtherMaps(t: Tables, id: string, other: string)
    requires other != id
    ensures MapsOf(DeleteItineraryRows(t, id), other) == MapsOf(t, other)
  {
    var r := DeleteItineraryRows(t, id);
    var a, b := MapsOf(r, other), MapsOf(t, other);
    assert a.Keys == b.Keys;
    forall m | m in a ensures a[m] == b[m] {
      DeleteItineraryKeepsImageRelations(t, id, MapOwner, m);
    }
  }

  lemma DeleteItineraryKeepsOtherTags(t: Tables, id: string, other: string)
    requires other != id
    ensures TagsOf(DeleteItineraryRows(t, id), other) == TagsOf(t, other)
  {
    var r := DeleteItineraryRows(t, id);
    assert TagsOf(r, other).Keys == TagsOf(t, other).Keys;
  }

  /** Any other itinerary loads back exactly as before the cascade. */
  lemma DeleteItineraryKeepsOthers(t: Tables, id: string, other: string)
    requires other in t.itineraries && other != id
    ensures other in DeleteItineraryRows(t, id).itineraries
    ensures Graph(DeleteItineraryRows(t, id), other) == Graph(t, other)
  {
    DeleteItineraryKeepsOtherDays(t, id, other);
    DeleteItineraryKeepsOtherMaps(t, id, other);
    DeleteItineraryKeepsOtherTags(t, id, other);
    DeleteItineraryKeepsImageRelations(t, id, ItineraryOwner, other);
  }
}
