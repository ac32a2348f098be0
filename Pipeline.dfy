/**
 * What both hotel services do with one `wp_users` row (`convertEntityFromArray`)
 * and with all of them (`list`), stated over the enrichment steps they call.
 * The two services differ only in where those steps come from.
 */
module Pipeline {
  import opened Entities

  /**
   * The enrichment steps `convertEntityFromArray` calls on the hotel built so
   * far; each may return a value or throw.
   */
  datatype Services = Services(
    getMetas: Hotel -> Outcome<Metas>,
    getReviews: Hotel -> Outcome<Reviews>,
    getCheapestRoom: (Hotel, Args) -> Outcome<Room>)

  /**
   * PHP's `floatval` on strings and the great-circle `computeDistance`, both
   * left uninterpreted: only the comparison of their result with the radius
   * is modelled.
   */
  datatype Geo = Geo(floatval: string -> real, computeDistance: (real, real, real, real) -> real)

  const NoRoomMessage: string := "Aucune chambre ne correspond aux critères"
  const OutOfRadiusMessage: string := "L'hôtel est en dehors du rayon de recherche"

  /** `isset($args['lat']) && isset($args['lng']) && isset($args['distance'])`. */
  predicate RadiusActive(args: Args)
  {
    args.lat.Some? && args.lng.Some? && args.distance.Some?
  }

  /** `floatval` of a value that may be null (null gives 0.0). */
  function FloatOf(geo: Geo, s: Option<string>): real
  {
    if s.Some? then geo.floatval(s.value) else 0.0
  }

  /** The distance from the search point to the hotel's stored coordinates. */
  function DistanceFrom(geo: Geo, args: Args, hotel: Hotel): real
    requires RadiusActive(args)
  {
    geo.computeDistance(FloatOf(geo, args.lat), FloatOf(geo, args.lng),
                        FloatOf(geo, hotel.geoLat), FloatOf(geo, hotel.geoLng))
  }

  /** The setters called with the result of `getMetas`. */
  function WithMetas(hotel: Hotel, m: Metas): Hotel
  {
    hotel.(address := Some(m.address), geoLat := m.geoLat, geoLng := m.geoLng,
           imageUrl := m.coverImage, phone := m.phone)
  }

  /** The setters called with the result of `getReviews`. */
  function WithReviews(hotel: Hotel, r: Reviews): Hotel
  {
    hotel.(rating := r.rating, ratingCount := Some(r.count))
  }

  /** The metas a hotel holds, read back from its fields. */
  function MetasHeld(hotel: Hotel): Metas
    requires hotel.address.Some?
  {
    Metas(hotel.address.value, hotel.geoLat, hotel.geoLng, hotel.imageUrl, hotel.phone)
  }

  /**
   * The last step: with lat, lng and distance all set, store the distance
   * and throw a FilterException when it is larger than the radius (a hotel
   * exactly at the radius is kept). Otherwise the hotel is returned as it is.
   */
  function CheckRadius(geo: Geo, hotel: Hotel, args: Args): (r: Outcome<Hotel>)
    ensures r.Thrown? <==> RadiusActive(args) && DistanceFrom(geo, args, hotel) > args.distance.value
    ensures r.Thrown? ==> r.failure == FilterException(OutOfRadiusMessage)
    ensures r.Ok? ==> r.value.(distance := hotel.distance) == hotel
    ensures r.Ok? && RadiusActive(args) ==>
              r.value.distance == Some(DistanceFrom(geo, args, hotel)) &&
              r.value.distance.value <= args.distance.value
    ensures r.Ok? && !RadiusActive(args) ==> r.value.distance == hotel.distance
  {
    if RadiusActive(args) then
      var d := DistanceFrom(geo, args, hotel);
      if d > args.distance.value then Thrown(FilterException(OutOfRadiusMessage))
      else Ok(hotel.(distance := Some(d)))
    else Ok(hotel)
  }

  /**
   * `convertEntityFromArray`: id and name from the row, then metas, reviews,
   * the cheapest room and the radius check, in that order; the first
   * exception thrown is the outcome.
   */
  function Convert(svc: Services, geo: Geo, row: UserRow, args: Args): (r: Outcome<Hotel>)
    ensures r.Ok? ==> r.value.id == row.id && r.value.name == row.displayName
    ensures r.Ok? ==> r.value.address.Some? && r.value.ratingCount.Some? && r.value.cheapestRoom.Some?
    // each step received the hotel as the earlier steps left it, and its result is what the hotel holds
    ensures r.Ok? ==> svc.getMetas(NewHotel(row.id, row.displayName)) == Ok(MetasHeld(r.value))
    ensures r.Ok? ==>
              svc.getReviews(r.value.(rating := None, ratingCount := None, cheapestRoom := None, distance := None))
              == Ok(Reviews(r.value.rating, r.value.ratingCount.value))
    ensures r.Ok? ==>
              svc.getCheapestRoom(r.value.(cheapestRoom := None, distance := None), args)
              == Ok(r.value.cheapestRoom.value)
    // a distance is stored iff the radius filter is on, and then it is within the radius
    ensures r.Ok? ==> (r.value.distance.Some? <==> RadiusActive(args))
    ensures r.Ok? && RadiusActive(args) ==> r.value.distance.value <= args.distance.value
    // the first step that throws decides the outcome, with its exception unchanged
    ensures var h0 := NewHotel(row.id, row.displayName);
            svc.getMetas(h0).Thrown? ==> r == Thrown(svc.getMetas(h0).failure)
    ensures var h0 := NewHotel(row.id, row.displayName);
            svc.getMetas(h0).Ok? ==>
              var h1 := WithMetas(h0, svc.getMetas(h0).value);
              svc.getReviews(h1).Thrown? ==> r == Thrown(svc.getReviews(h1).failure)
    ensures var h0 := NewHotel(row.id, row.displayName);
            svc.getMetas(h0).Ok? ==>
              var h1 := WithMetas(h0, svc.getMetas(h0).value);
              svc.getReviews(h1).Ok? ==>
                var h2 := WithReviews(h1, svc.getReviews(h1).value);
                svc.getCheapestRoom(h2, args).Thrown? ==> r == Thrown(svc.getCheapestRoom(h2, args).failure)
    // when every step returns, the radius check on the enriched hotel is the outcome
    ensures var h0 := NewHotel(row.id, row.displayName);
            svc.getMetas(h0).Ok? ==>
              var h1 := WithMetas(h0, svc.getMetas(h0).value);
              svc.getReviews(h1).Ok? ==>
                var h2 := WithReviews(h1, svc.getReviews(h1).value);
                svc.getCheapestRoom(h2, args).Ok? ==>
                  r == CheckRadius(geo, h2.(cheapestRoom := Some(svc.getCheapestRoom(h2, args).value)), args)
  {
    var hotel := NewHotel(row.id, row.displayName);
    match svc.getMetas(hotel)
    case Thrown(e) => Thrown(e)
    case Ok(metas) =>
      var hotel := WithMetas(hotel, metas);
      match svc.getReviews(hotel)
      case Thrown(e) => Thrown(e)
      case Ok(reviews) =>
        var hotel := WithReviews(hotel, reviews);
        match svc.getCheapestRoom(hotel, args)
        case Thrown(e) => Thrown(e)
        case Ok(room) =>
          CheckRadius(geo, hotel.(cheapestRoom := Some(room)), args)
  }

  /** Once a step throws, the later steps have no say in the outcome. */
  lemma LaterStepsIgnoredAfterThrow(svc: Services, other: Services, geo: Geo, other_geo: Geo,
                                    row: UserRow, args: Args)
    requires svc.getMetas == other.getMetas
    requires svc.getMetas(NewHotel(row.id, row.displayName)).Thrown?
    ensures Convert(svc, geo, row, args) == Convert(other, other_geo, row, args)
    ensures Convert(svc, geo, row, args) == Thrown(svc.getMetas(NewHotel(row.id, row.displayName)).failure)
  {
  }

  /** Without the radius filter, the distance function is never consulted. */
  lemma GeoUnusedWithoutRadius(svc: Services, geo: Geo, other_geo: Geo, row: UserRow, args: Args)
    requires !RadiusActive(args)
    ensures Convert(svc, geo, row, args) == Convert(svc, other_geo, row, args)
  {
  }

  /**
   * `list`: convert every row in order, dropping the rows whose conversion
   * throws a FilterException; any other exception escapes and nothing is
   * returned.
   */
  function Collect(svc: Services, geo: Geo, rows: seq<UserRow>, args: Args): (r: Outcome<seq<Hotel>>)
    ensures !r.IsFilterRejection()
    ensures r.Ok? ==> |r.value| <= |rows|
    decreases |rows|
  {
    if |rows| == 0 then Ok([])
    else
      var before := Collect(svc, geo, rows[..|rows| - 1], args);
      if before.Thrown? then before
      else
        match Convert(svc, geo, rows[|rows| - 1], args)
        case Ok(hotel) => Ok(before.value + [hotel])
        case Thrown(FilterException(_)) => before
        case Thrown(e) => Thrown(e)
  }

  /** One more row: its conversion decides how the list so far grows. */
  lemma CollectStep(svc: Services, geo: Geo, rows: seq<UserRow>, args: Args, i: nat)
    requires i < |rows|
    requires Collect(svc, geo, rows[..i], args).Ok?
    ensures Convert(svc, geo, rows[i], args).Ok? ==>
              Collect(svc, geo, rows[..i + 1], args) ==
              Ok(Collect(svc, geo, rows[..i], args).value + [Convert(svc, geo, rows[i], args).value])
    ensures Convert(svc, geo, rows[i], args).IsFilterRejection() ==>
              Collect(svc, geo, rows[..i + 1], args) == Collect(svc, geo, rows[..i], args)
    ensures Convert(svc, geo, rows[i], args).IsFault() ==>
              Collect(svc, geo, rows[..i + 1], args) == Thrown(Convert(svc, geo, rows[i], args).failure)
  {
    assert rows[..i + 1][..i] == rows[..i];
  }

  /** An exception that escaped from the first `i` rows is the outcome of the whole list. */
  lemma {:induction false} CollectThrownIsFinal(svc: Services, geo: Geo, rows: seq<UserRow>, args: Args, i: nat)
    requires i <= |rows|
    requires Collect(svc, geo, rows[..i], args).Thrown?
    ensures Collect(svc, geo, rows, args) == Collect(svc, geo, rows[..i], args)
    decreases |rows| - i
  {
    if i < |rows| {
      var next := rows[..i + 1];
      assert next[..|next| - 1] == rows[..i];
      CollectThrownIsFinal(svc, geo, rows, args, i + 1);
    } else {
      assert rows[..i] == rows;
    }
  }

  /**
   * The list aborts iff some row's conversion throws something other than a
   * FilterException, and then with the first such exception in row order.
   */
  lemma {:induction false} CollectAbortsOnFirstFault(svc: Services, geo: Geo, rows: seq<UserRow>, args: Args)
    ensures Collect(svc, geo, rows, args).Thrown? <==>
              exists j :: 0 <= j < |rows| && Convert(svc, geo, rows[j], args).IsFault()
    ensures Collect(svc, geo, rows, args).Thrown? ==>
              exists j :: 0 <= j < |rows| &&
                Convert(svc, geo, rows[j], args) == Thrown(Collect(svc, geo, rows, args).failure) &&
                Convert(svc, geo, rows[j], args).IsFault() &&
                forall i :: 0 <= i < j ==> !Convert(svc, geo, rows[i], args).IsFault()
    decreases |rows|
  {
    if |rows| > 0 {
      var prefix := rows[..|rows| - 1];
      CollectAbortsOnFirstFault(svc, geo, prefix, args);
      assert forall i :: 0 <= i < |prefix| ==> prefix[i] == rows[i];
      var last := Convert(svc, geo, rows[|rows| - 1], args);
      if Collect(svc, geo, prefix, args).Thrown? {
        var j :| 0 <= j < |prefix| && Convert(svc, geo, prefix[j], args).IsFault();
        assert Convert(svc, geo, rows[j], args).IsFault();
      } else if last.IsFault() {
        assert forall i :: 0 <= i < |rows| - 1 ==> !Convert(svc, geo, prefix[i], args).IsFault();
      } else {
        forall j | 0 <= j < |rows| ensures !Convert(svc, geo, rows[j], args).IsFault() {
          if j < |rows| - 1 {
            assert !Convert(svc, geo, prefix[j], args).IsFault();
          }
        }
      }
    }
  }

  /**
   * A list that did not abort holds, in row order, exactly the hotels of the
   * rows whose conversion succeeded: `kept` lists their row indexes, and
   * every other row was dropped by a FilterException.
   */
  lemma {:induction false} CollectKeepsAcceptedInOrder(svc: Services, geo: Geo, rows: seq<UserRow>, args: Args)
    returns (kept: seq<int>)
    requires Collect(svc, geo, rows, args).Ok?
    ensures |kept| == |Collect(svc, geo, rows, args).value|
    ensures forall k :: 0 <= k < |kept| ==>
              0 <= kept[k] < |rows| &&
              Convert(svc, geo, rows[kept[k]], args) == Ok(Collect(svc, geo, rows, args).value[k])
    ensures forall k, l :: 0 <= k < l < |kept| ==> kept[k] < kept[l]
    ensures forall j :: 0 <= j < |rows| && j !in kept ==>
              Convert(svc, geo, rows[j], args).IsFilterRejection()
    decreases |rows|
  {
    if |rows| == 0 {
      kept := [];
    } else {
      var n := |rows| - 1;
      var prefix := rows[..n];
      var before := Collect(svc, geo, prefix, args);
      assert before.Ok?;
      var keptBefore := CollectKeepsAcceptedInOrder(svc, geo, prefix, args);
      assert forall i :: 0 <= i < n ==> prefix[i] == rows[i];
      var last := Convert(svc, geo, rows[n], args);
      if last.Ok? {
        kept := keptBefore + [n];
        assert Collect(svc, geo, rows, args).value == before.value + [last.value];
      } else {
        kept := keptBefore;
      }
    }
  }
}
