/** The records the hotel service stores: hotels with their nested rooms, the
    input shapes of `createHotel` and `addRoom`, and the partial update of
    `updateHotel`. A JSON object is modelled as its named fields plus `extra`,
    the map of every other (descriptive) field, whose values are opaque. */
module HotelTypes {
  import opened Wrappers

  /** Descriptive fields the service never interprets, by field name. */
  type Fields = map<string, string>

  datatype Room = Room(
    roomTitle: string,
    hotelSlug: string,   // slug of the owning hotel, a lookup key only
    roomSlug: string,    // derived from roomTitle
    roomImage: string,   // URL, empty until an image is uploaded
    extra: Fields)

  datatype Hotel = Hotel(
    id: string,          // name of the record's file, from the creation time
    slug: string,        // derived from title, not unique
    title: string,
    images: seq<string>,
    rooms: seq<Room>,
    extra: Fields)

  /** The body accepted by `createHotel`: a hotel without id and slug. Its
      images and rooms are accepted but overridden. */
  datatype HotelData = HotelData(
    title: string,
    images: seq<string>,
    rooms: seq<Room>,
    extra: Fields)

  /** The body accepted by `addRoom`: a room without roomSlug and roomImage.
      Its hotelSlug is overridden by the hotel the room is added to. */
  datatype RoomData = RoomData(
    roomTitle: string,
    hotelSlug: string,
    extra: Fields)

  /** A partial hotel: each named field may be absent, and `extra` holds only
      the descriptive fields that are present. */
  datatype HotelPatch = HotelPatch(
    id: Option<string>,
    slug: Option<string>,
    title: Option<string>,
    images: Option<seq<string>>,
    rooms: Option<seq<Room>>,
    extra: Fields)

  /** The patch that carries no field at all. */
  const EmptyPatch: HotelPatch := HotelPatch(None, None, None, None, None, map[])

  /** The patch `{ images: urls }`. */
  function ImagesPatch(urls: seq<string>): HotelPatch
  {
    EmptyPatch.(images := Some(urls))
  }

  /** Shallow merge `{ ...h, ...p }`: every field present in the patch replaces
      the hotel's field as a whole; every absent field is kept. */
  function Merge(h: Hotel, p: HotelPatch): (r: Hotel)
    ensures p.id.Some? ==> r.id == p.id.value
    ensures p.id.None? ==> r.id == h.id
    ensures p.slug.Some? ==> r.slug == p.slug.value
    ensures p.slug.None? ==> r.slug == h.slug
    ensures p.title.Some? ==> r.title == p.title.value
    ensures p.title.None? ==> r.title == h.title
    ensures p.images.Some? ==> r.images == p.images.value
    ensures p.images.None? ==> r.images == h.images
    ensures p.rooms.Some? ==> r.rooms == p.rooms.value
    ensures p.rooms.None? ==> r.rooms == h.rooms
    ensures r.extra.Keys == h.extra.Keys + p.extra.Keys
    ensures forall k :: k in p.extra ==> r.extra[k] == p.extra[k]
    ensures forall k :: k in h.extra && k !in p.extra ==> r.extra[k] == h.extra[k]
  {
    Hotel(
      p.id.GetOr(h.id),
      p.slug.GetOr(h.slug),
      p.title.GetOr(h.title),
      p.images.GetOr(h.images),
      p.rooms.GetOr(h.rooms),
      h.extra + p.extra)
  }

  /** The patch with the fields of `p` overridden by those present in `q`. */
  function Then(p: HotelPatch, q: HotelPatch): HotelPatch
  {
    HotelPatch(
      if q.id.Some? then q.id else p.id,
      if q.slug.Some? then q.slug else p.slug,
      if q.title.Some? then q.title else p.title,
      if q.images.Some? then q.images else p.images,
      if q.rooms.Some? then q.rooms else p.rooms,
      p.extra + q.extra)
  }

  /** Merging the empty patch changes nothing. */
  lemma MergeEmpty(h: Hotel)
    ensures Merge(h, EmptyPatch) == h
  {
    assert h.extra + map[] == h.extra;
  }

  /** Two successive shallow merges are one merge of the combined patch. */
  lemma MergeThen(h: Hotel, p: HotelPatch, q: HotelPatch)
    ensures Merge(Merge(h, p), q) == Merge(h, Then(p, q))
  {
    assert (h.extra + p.extra) + q.extra == h.extra + (p.extra + q.extra);
  }
}
