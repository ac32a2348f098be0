/**
 * The records the hotel services read and build: request arguments, the
 * database rows they query, and the hotel and room entities they return.
 * The entities are plain records; the services fill them field by field.
 */
module Entities {

  datatype Option<T> = None | Some(value: T)

  /** The two kinds of exception the services tell apart. */
  datatype Failure =
    | FilterException(message: string)  // drops one hotel from the list
    | OtherException(message: string)   // any other exception: aborts the whole list

  /** What a PHP call that may throw produces: a value or an exception. */
  datatype Outcome<T> = Ok(value: T) | Thrown(failure: Failure)
  {
    predicate IsFilterRejection() { Thrown? && failure.FilterException? }
    predicate IsFault() { Thrown? && failure.OtherException? }
  }

  /** A `min`/`max` pair of the request, each bound optional (`isset`). */
  datatype Range = Range(min: Option<int>, max: Option<int>)

  /**
   * The `$args` array of `list`, with the keys the code reads.
   * `lat` and `lng` are strings (they go through `floatval`); `distance` is the radius.
   */
  datatype Args = Args(
    search: Option<string>,
    lat: Option<string>,
    lng: Option<string>,
    distance: Option<real>,
    price: Range,
    surface: Range,
    rooms: Option<int>,
    bathRooms: Option<int>,
    types: Option<seq<string>>)

  /** A row of `wp_users`; the conversion reads `ID` and `display_name`. */
  datatype UserRow = UserRow(id: int, displayName: string)

  /** A row of `wp_usermeta`. */
  datatype MetaRow = MetaRow(userId: int, key: string, value: string)

  /**
   * A row of `wp_posts` together with its `wp_postmeta` attributes
   * `price`, `surface`, `type`, `bedrooms_count` and `bathrooms_count`
   * (None when the post has no such attribute row).
   */
  datatype Post = Post(
    id: int,
    author: int,
    postType: string,
    title: string,
    price: Option<int>,
    surface: Option<int>,
    roomType: Option<string>,
    bedrooms: Option<int>,
    bathrooms: Option<int>)

  /** The `address` block built by `getMetas`; a missing meta key reads as null. */
  datatype Address = Address(
    line1: Option<string>,
    line2: Option<string>,
    city: Option<string>,
    zip: Option<string>,
    country: Option<string>)

  /** The array `getMetas` returns. */
  datatype Metas = Metas(
    address: Address,
    geoLat: Option<string>,
    geoLng: Option<string>,
    coverImage: Option<string>,
    phone: Option<string>)

  /** The row `getReviews` fetches: rounded average (null without reviews) and count. */
  datatype Reviews = Reviews(rating: Option<int>, count: int)

  /** RoomEntity as `getCheapestRoom` fills it. */
  datatype Room = Room(
    id: int,
    title: string,
    surface: int,
    price: int,
    bedrooms: int,
    bathrooms: int,
    roomType: string)

  /** HotelEntity; a field a setter has not been called for yet is None. */
  datatype Hotel = Hotel(
    id: int,
    name: string,
    address: Option<Address>,
    geoLat: Option<string>,
    geoLng: Option<string>,
    imageUrl: Option<string>,
    phone: Option<string>,
    rating: Option<int>,
    ratingCount: Option<int>,
    cheapestRoom: Option<Room>,
    distance: Option<real>)

  /** `(new HotelEntity())->setId(..)->setName(..)`. */
  function NewHotel(id: int, name: string): Hotel
  {
    Hotel(id, name, None, None, None, None, None, None, None, None, None)
  }
}
