/**
 * OneRequestHotelService: the same conversion and list as the unoptimized
 * service, calling `getMetas`, `getReviews` and `getCheapestRoom` that it
 * inherits rather than defines; here they are the `Services` it is given.
 */
module OneRequest {
  import opened Entities
  import Pipeline
  import Unoptimized

  /**
   * `convertEntityFromArray`: set id and name, then the metas, the reviews
   * and the cheapest room, each fetched for the hotel as filled so far;
   * an exception from any of them leaves the method. Last the radius check.
   */
  method ConvertEntityFromArray(svc: Pipeline.Services, geo: Pipeline.Geo, data: UserRow, args: Args)
    returns (converted: Outcome<Hotel>)
    ensures converted == Pipeline.Convert(svc, geo, data, args)
  {
    var hotel := NewHotel(data.id, data.displayName);

    var metasData := svc.getMetas(hotel);
    if metasData.Thrown? {
      return Thrown(metasData.failure);
    }
    hotel := hotel.(address := Some(metasData.value.address));
    hotel := hotel.(geoLat := metasData.value.geoLat);
    hotel := hotel.(geoLng := metasData.value.geoLng);
    hotel := hotel.(imageUrl := metasData.value.coverImage);
    hotel := hotel.(phone := metasData.value.phone);

    var reviewsData := svc.getReviews(hotel);
    if reviewsData.Thrown? {
      return Thrown(reviewsData.failure);
    }
    hotel := hotel.(rating := reviewsData.value.rating);
    hotel := hotel.(ratingCount := Some(reviewsData.value.count));

    var cheapestRoom := svc.getCheapestRoom(hotel, args);
    if cheapestRoom.Thrown? {
      return Thrown(cheapestRoom.failure);
    }
    hotel := hotel.(cheapestRoom := Some(cheapestRoom.value));

    if args.lat.Some? && args.lng.Some? && args.distance.Some? {
      hotel := hotel.(distance := Some(geo.computeDistance(
        Pipeline.FloatOf(geo, args.lat),
        Pipeline.FloatOf(geo, args.lng),
        Pipeline.FloatOf(geo, hotel.geoLat),
        Pipeline.FloatOf(geo, hotel.geoLng))));
      if hotel.distance.value > args.distance.value {
        return Thrown(FilterException(Pipeline.OutOfRadiusMessage));
      }
    }
    converted := Ok(hotel);
  }

  /**
   * `list`: convert every row in order inside a try block; a
   * FilterException skips the row, any other exception escapes the loop
   * and no list is returned.
   */
  method List(svc: Pipeline.Services, geo: Pipeline.Geo, users: seq<UserRow>, args: Args)
    returns (listed: Outcome<seq<Hotel>>)
    ensures listed == Pipeline.Collect(svc, geo, users, args)
  {
    var results: seq<Hotel> := [];
    var i := 0;
    while i < |users|
      invariant 0 <= i <= |users|
      invariant Pipeline.Collect(svc, geo, users[..i], args) == Ok(results)
    {
      var converted := ConvertEntityFromArray(svc, geo, users[i], args);
      Pipeline.CollectStep(svc, geo, users, args, i);
      if converted.Ok? {
        results := results + [converted.value];
      } else if converted.failure.OtherException? {
        Pipeline.CollectThrownIsFinal(svc, geo, users, args, i + 1);
        return Thrown(converted.failure);
      }
      i := i + 1;
    }
    assert users[..i] == users;
    listed := Ok(results);
  }

  /**
   * Given the unoptimized service's own enrichment steps over the same
   * tables, the one-request service lists the same hotels in the same order.
   */
  method ListsAgree(db: Unoptimized.Db, geo: Pipeline.Geo, args: Args)
    returns (unoptimized: Outcome<seq<Hotel>>, oneRequest: Outcome<seq<Hotel>>)
    ensures unoptimized == oneRequest
    ensures oneRequest.Ok?
  {
    unoptimized := Unoptimized.List(db, geo, args);
    oneRequest := List(Unoptimized.Collaborators(db), geo, db.users, args);
  }
}
