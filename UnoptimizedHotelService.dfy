/**
 * UnoptimizedHotelService: one batch of queries per hotel. The database is
 * an in-memory `Db`; the meta fetch, the cheapest-room statement (built as
 * text, bound, and answered by `CheapestPost`), the per-hotel conversion and
 * the list loop are modelled step by step.
 */
module Unoptimized {
  import opened Entities
  import opened Filters
  import Pipeline

  /** The tables the service queries. */
  datatype Db = Db(
    users: seq<UserRow>,               // wp_users, in fetch order
    usermeta: seq<MetaRow>,            // wp_usermeta, in fetch order
    posts: seq<Post>,                  // wp_posts with their wp_postmeta attributes
    reviewAggregate: int -> Reviews)   // the row getReviews' aggregate query returns per hotel id

  function Lookup(m: map<string, string>, key: string): Option<string>
  {
    if key in m then Some(m[key]) else None
  }

  predicate RowFor(row: MetaRow, userId: int, key: string)
  {
    row.userId == userId && row.key == key
  }

  /**
   * The value of the last `wp_usermeta` row of `userId` with `key`, in fetch
   * order; None when the user has no such row.
   */
  function LastValue(rows: seq<MetaRow>, userId: int, key: string): (r: Option<string>)
    ensures r.None? <==> forall i :: 0 <= i < |rows| ==> !RowFor(rows[i], userId, key)
    decreases |rows|
  {
    if |rows| == 0 then None
    else
      var n := |rows| - 1;
      if RowFor(rows[n], userId, key) then Some(rows[n].value)
      else
        var before := LastValue(rows[..n], userId, key);
        assert forall i :: 0 <= i < n ==> rows[..n][i] == rows[i];
        before
  }

  /** A value found is that of a matching row after which no matching row follows. */
  lemma {:induction false} LastValueIsLastRow(rows: seq<MetaRow>, userId: int, key: string)
    requires LastValue(rows, userId, key).Some?
    ensures exists i :: 0 <= i < |rows| && RowFor(rows[i], userId, key) &&
              rows[i].value == LastValue(rows, userId, key).value &&
              forall j :: i < j < |rows| ==> !RowFor(rows[j], userId, key)
    decreases |rows|
  {
    var n := |rows| - 1;
    var v := LastValue(rows, userId, key).value;
    if RowFor(rows[n], userId, key) {
      assert rows[n].value == v;
    } else {
      var prefix := rows[..n];
      assert LastValue(prefix, userId, key).value == v;
      LastValueIsLastRow(prefix, userId, key);
      var i :| 0 <= i < n && RowFor(prefix[i], userId, key) && prefix[i].value == v &&
               forall j :: i < j < n ==> !RowFor(prefix[j], userId, key);
      assert prefix[i] == rows[i];
      assert forall j :: i < j < |rows| ==> !RowFor(rows[j], userId, key) by {
        assert forall j :: i < j < n ==> prefix[j] == rows[j];
      }
    }
  }

  /**
   * `getMeta`: fold the user's `meta_key`/`meta_value` rows into a map; a
   * later row overwrites an earlier one with the same key.
   */
  method GetMeta(usermeta: seq<MetaRow>, userId: int) returns (output: map<string, string>)
    ensures forall key :: Lookup(output, key) == LastValue(usermeta, userId, key)
  {
    output := map[];
    var i := 0;
    while i < |usermeta|
      invariant 0 <= i <= |usermeta|
      invariant forall key :: Lookup(output, key) == LastValue(usermeta[..i], userId, key)
    {
      var result := usermeta[i];
      if result.userId == userId {  // WHERE user_id = :userid
        output := output[result.key := result.value];
      }
      assert usermeta[..i + 1][..i] == usermeta[..i];
      i := i + 1;
    }
    assert usermeta[..i] == usermeta;
  }

  /**
   * What `getMetas` returns for a hotel: the five address keys, the two geo
   * keys, `coverImage` and `phone`, each the last stored value (null if none).
   */
  function MetasOf(usermeta: seq<MetaRow>, hotelId: int): Metas
  {
    Metas(
      Address(LastValue(usermeta, hotelId, "address_1"),
              LastValue(usermeta, hotelId, "address_2"),
              LastValue(usermeta, hotelId, "address_city"),
              LastValue(usermeta, hotelId, "address_zip"),
              LastValue(usermeta, hotelId, "address_country")),
      LastValue(usermeta, hotelId, "geo_lat"),
      LastValue(usermeta, hotelId, "geo_lng"),
      LastValue(usermeta, hotelId, "coverImage"),
      LastValue(usermeta, hotelId, "phone"))
  }

  /** `getMetas`: project the meta map onto the fixed keys. */
  method GetMetas(db: Db, hotel: Hotel) returns (metaDatas: Metas)
    ensures metaDatas == MetasOf(db.usermeta, hotel.id)
  {
    var data := GetMeta(db.usermeta, hotel.id);
    metaDatas := Metas(
      Address(Lookup(data, "address_1"),
              Lookup(data, "address_2"),
              Lookup(data, "address_city"),
              Lookup(data, "address_zip"),
              Lookup(data, "address_country")),
      Lookup(data, "geo_lat"),
      Lookup(data, "geo_lng"),
      Lookup(data, "coverImage"),
      Lookup(data, "phone"));
  }

  /** `getCheapestRoom`'s WHERE fragments, appended one test at a time. */
  method BuildWhereClauses(args: Args) returns (whereClauses: seq<Fragment>)
    ensures whereClauses == Fragments(args)
  {
    whereClauses := [];
    if args.surface.min.Some? {
      whereClauses := whereClauses + [SurfaceAtLeast(args.surface.min.value)];
    }
    assert whereClauses == FragmentsBefore(args, 1);
    if args.surface.max.Some? {
      whereClauses := whereClauses + [SurfaceAtMost(args.surface.max.value)];
    }
    assert whereClauses == FragmentsBefore(args, 2);
    if args.price.min.Some? {
      whereClauses := whereClauses + [PriceAtLeast(args.price.min.value)];
    }
    assert whereClauses == FragmentsBefore(args, 3);
    if args.price.max.Some? {
      whereClauses := whereClauses + [PriceAtMost(args.price.max.value)];
    }
    assert whereClauses == FragmentsBefore(args, 4);
    if args.rooms.Some? {
      whereClauses := whereClauses + [BedroomsAtLeast(args.rooms.value)];
    }
    assert whereClauses == FragmentsBefore(args, 5);
    if args.bathRooms.Some? {
      whereClauses := whereClauses + [BathroomsAtLeast(args.bathRooms.value)];
    }
    assert whereClauses == FragmentsBefore(args, 6);
    if args.types.Some? && |args.types.value| > 0 {
      whereClauses := whereClauses + [TypeIn(args.types.value)];
    }
    assert whereClauses == FragmentsBefore(args, 7);
  }

  const SelectList: string :=
    "SELECT post.ID,\n        post.post_title AS title,\n        PriceData.meta_value AS price, \n"
    + "        SurfaceData.meta_value AS surface, \n        TypeData.meta_value AS type, \n"
    + "        BedroomsCountData.meta_value AS bedrooms, \n"
    + "        BathroomsCountData.meta_value AS bathrooms\n        FROM wp_posts AS post"

  const RoomJoins: string :=
    " INNER JOIN wp_postmeta AS PriceData ON post.ID = PriceData.post_id AND PriceData.meta_key = 'price'"
    + " INNER JOIN wp_postmeta AS SurfaceData ON post.ID = SurfaceData.post_id AND SurfaceData.meta_key = 'surface'"
    + " INNER JOIN wp_postmeta AS TypeData ON post.ID = TypeData.post_id AND TypeData.meta_key = 'type'"
    + " INNER JOIN wp_postmeta AS BedroomsCountData ON post.ID = BedroomsCountData.post_id AND BedroomsCountData.meta_key = 'bedrooms_count'"
    + " INNER JOIN wp_postmeta AS BathroomsCountData ON post.ID = BathroomsCountData.post_id AND BathroomsCountData.meta_key = 'bathrooms_count'"

  const RoomRestriction: string := " WHERE post_author = :hotelId AND post_type = 'room'"

  const OrderLimit: string := " GROUP BY post.ID ORDER BY price asc LIMIT 1"

  /** Everything before the optional fragments. */
  const QueryHead: string := SelectList + RoomJoins + RoomRestriction

  function Texts(clauses: seq<Fragment>): (texts: seq<string>)
    ensures |texts| == |clauses|
    ensures forall i :: 0 <= i < |clauses| ==> texts[i] == clauses[i].Text()
  {
    seq(|clauses|, i requires 0 <= i < |clauses| => clauses[i].Text())
  }

  /**
   * `getCheapestRoom`'s query text: the fixed SELECT and joins, the author
   * and type restriction, `" AND "` and the joined fragments only when there
   * are any, then the grouping, ordering and limit.
   */
  method AssembleQuery(whereClauses: seq<Fragment>) returns (sqlQuery: string)
    ensures QueryHead <= sqlQuery
    ensures IsSuffix(OrderLimit, sqlQuery)
    ensures |whereClauses| == 0 ==> sqlQuery == QueryHead + OrderLimit
    ensures |whereClauses| > 0 ==>
              sqlQuery == QueryHead + " AND " + Implode(" AND ", Texts(whereClauses)) + OrderLimit
    ensures forall i :: 0 <= i < |whereClauses| ==> IsInfix(whereClauses[i].Text(), sqlQuery)
  {
    sqlQuery := SelectList;
    sqlQuery := sqlQuery + RoomJoins;
    sqlQuery := sqlQuery + RoomRestriction;
    assert sqlQuery == QueryHead;
    if |whereClauses| > 0 {
      var conjunction := Implode(" AND ", Texts(whereClauses));
      sqlQuery := sqlQuery + " AND " + conjunction;
      sqlQuery := sqlQuery + OrderLimit;
      forall i | 0 <= i < |whereClauses| ensures IsInfix(whereClauses[i].Text(), sqlQuery) {
        ImplodeContainsPieces(" AND ", Texts(whereClauses), i);
        InfixInConcat(whereClauses[i].Text(), QueryHead + " AND ", conjunction, OrderLimit);
      }
    } else {
      sqlQuery := sqlQuery + OrderLimit;
    }
    assert sqlQuery[|sqlQuery| - |OrderLimit|..] == OrderLimit;
  }

  /** The placeholder names the fragments use. */
  function PlaceholderNames(clauses: seq<Fragment>): set<Param>
  {
    set f | f in clauses && f.Binding().Some? :: f.Binding().value.0
  }

  /** The bindings the fragments call for, made one after the other. */
  function BindingsOf(clauses: seq<Fragment>): map<Param, int>
    decreases |clauses|
  {
    if |clauses| == 0 then map[]
    else
      var m := BindingsOf(clauses[..|clauses| - 1]);
      var last := clauses[|clauses| - 1];
      if last.Binding().Some? then m[last.Binding().value.0 := last.Binding().value.1] else m
  }

  /** Appending at most one fragment adds at most its own binding. */
  lemma BindingsOfAppend(before: seq<Fragment>, piece: seq<Fragment>)
    requires |piece| <= 1
    ensures BindingsOf(before + piece) ==
              if piece != [] && piece[0].Binding().Some?
              then BindingsOf(before)[piece[0].Binding().value.0 := piece[0].Binding().value.1]
              else BindingsOf(before)
  {
    if piece == [] {
      assert before + piece == before;
    } else {
      var all := before + piece;
      assert all[..|all| - 1] == before;
    }
  }

  /** A placeholder name belongs to one kind of fragment only; none is `hotelId`. */
  lemma NameDeterminesRank(f: Fragment, g: Fragment)
    requires f.Binding().Some? && g.Binding().Some?
    ensures f.Binding().value.0 != HotelId
    ensures f.Binding().value.0 == g.Binding().value.0 ==> f.Rank() == g.Rank()
  {
  }

  /**
   * For fragments in strictly increasing test order, binding them one after
   * the other binds exactly their placeholders, each to its own fragment's
   * value: no later fragment overwrites an earlier one.
   */
  lemma {:induction false} BindingsOfOrdered(clauses: seq<Fragment>)
    requires forall i, j :: 0 <= i < j < |clauses| ==> clauses[i].Rank() < clauses[j].Rank()
    ensures BindingsOf(clauses).Keys == PlaceholderNames(clauses)
    ensures HotelId !in BindingsOf(clauses)
    ensures forall f :: f in clauses && f.Binding().Some? ==>
              BindingsOf(clauses)[f.Binding().value.0] == f.Binding().value.1
    decreases |clauses|
  {
    if |clauses| > 0 {
      var n := |clauses| - 1;
      var prefix := clauses[..n];
      var last := clauses[n];
      assert clauses == prefix + [last];
      BindingsOfOrdered(prefix);
      var m := BindingsOf(prefix);
      if last.Binding().Some? {
        NameDeterminesRank(last, last);
        assert PlaceholderNames(clauses) == PlaceholderNames(prefix) + {last.Binding().value.0};
        forall f | f in clauses && f.Binding().Some?
          ensures BindingsOf(clauses)[f.Binding().value.0] == f.Binding().value.1
        {
          if f != last {
            var i :| 0 <= i < n && clauses[i] == f;
            NameDeterminesRank(f, last);
          }
        }
      } else {
        assert PlaceholderNames(clauses) == PlaceholderNames(prefix);
      }
    }
  }

  /** The numeric field the builder's test `rank` reads (None when unset, and for the type list). */
  function FieldAt(args: Args, rank: nat): Option<int>
  {
    match rank
    case 0 => args.surface.min
    case 1 => args.surface.max
    case 2 => args.price.min
    case 3 => args.price.max
    case 4 => args.rooms
    case 5 => args.bathRooms
    case _ => None
  }

  /** The placeholder the builder's test `rank` binds its field to. */
  function ParamAt(rank: nat): Param
  {
    match rank
    case 0 => SurfaceMin
    case 1 => SurfaceMax
    case 2 => PriceMin
    case 3 => PriceMax
    case 4 => Rooms
    case _ => BathRooms
  }

  /** The bindings after binding `name` to `value` if it is set. */
  function WithBinding(params: map<Param, int>, name: Param, value: Option<int>): map<Param, int>
  {
    if value.Some? then params[name := value.value] else params
  }

  /** One bind call (or none) extends the bindings of the fragments so far by the next test's. */
  lemma BindStep(args: Args, rank: nat, params: map<Param, int>, next: map<Param, int>)
    requires rank < 6
    requires rank == 0 ==> params == map[]
    requires rank > 0 ==> params == BindingsOf(FragmentsBefore(args, rank))
    requires next == WithBinding(params, ParamAt(rank), FieldAt(args, rank))
    ensures rank < 5 ==> next == BindingsOf(FragmentsBefore(args, rank + 1))
    ensures rank == 5 ==> next == BindingsOf(Fragments(args))
  {
    var before := FragmentsBefore(args, rank);
    var piece := FragmentAt(args, rank);
    FieldMatchesFragment(args, rank);
    BindingsOfAppend(before, piece);
    if rank == 5 {
      FieldMatchesFragment(args, 6);
      BindingsOfAppend(FragmentsBefore(args, 6), FragmentAt(args, 6));
    }
  }

  /** Test `rank` binds a placeholder exactly when it appends a fragment that has one, to the same value. */
  lemma FieldMatchesFragment(args: Args, rank: nat)
    requires rank < 7
    ensures FragmentsBefore(args, rank + 1) == FragmentsBefore(args, rank) + FragmentAt(args, rank)
    ensures FieldAt(args, rank).Some? <==>
              FragmentAt(args, rank) != [] && FragmentAt(args, rank)[0].Binding().Some?
    ensures FieldAt(args, rank).Some? ==>
              FragmentAt(args, rank)[0].Binding() == Some((ParamAt(rank), FieldAt(args, rank).value))
  {
  }

  /** `if (isset(..)) $stmt->bindParam(name, ..)`: bind `name` when the value is set. */
  method BindIfSet(params: map<Param, int>, name: Param, value: Option<int>) returns (next: map<Param, int>)
    ensures next == WithBinding(params, name, value)
    ensures value.Some? ==> next[name] == value.value
    ensures forall other :: other != name ==> (other in next <==> other in params)
  {
    next := params;
    if value.Some? {
      next := next[name := value.value];
    }
  }

  /**
   * The statement's bindings: `hotelId` and the placeholder of every fragment
   * with a bound value, each bound to the value its fragment compares with.
   */
  lemma StatementBindings(args: Args, hotelId: int, params: map<Param, int>)
    requires params == BindingsOf(Fragments(args))[HotelId := hotelId]
    ensures params.Keys == {HotelId} + PlaceholderNames(Fragments(args))
    ensures params[HotelId] == hotelId
    ensures forall f :: f in Fragments(args) && f.Binding().Some? ==>
              params[f.Binding().value.0] == f.Binding().value.1
  {
    var fs := Fragments(args);
    BindingsOfOrdered(fs);
    forall f | f in fs && f.Binding().Some?
      ensures params[f.Binding().value.0] == f.Binding().value.1
    {
      NameDeterminesRank(f, f);
    }
  }

  /**
   * `getCheapestRoom`'s bindParam / bindValue calls: one per set numeric
   * field, in the order the fragments were appended, then `hotelId`. The
   * type list is never bound: its values are written into the SQL text.
   */
  method BindParameters(args: Args, hotelId: int) returns (params: map<Param, int>)
    ensures params == BindingsOf(Fragments(args))[HotelId := hotelId]
    ensures params.Keys == {HotelId} + PlaceholderNames(Fragments(args))
    ensures params[HotelId] == hotelId
    ensures forall f :: f in Fragments(args) && f.Binding().Some? ==>
              params[f.Binding().value.0] == f.Binding().value.1
  {
    params := map[];
    ghost var before := params;
    params := BindIfSet(params, SurfaceMin, args.surface.min);
    BindStep(args, 0, before, params);
    before := params;
    params := BindIfSet(params, SurfaceMax, args.surface.max);
    BindStep(args, 1, before, params);
    before := params;
    params := BindIfSet(params, PriceMin, args.price.min);
    BindStep(args, 2, before, params);
    before := params;
    params := BindIfSet(params, PriceMax, args.price.max);
    BindStep(args, 3, before, params);
    before := params;
    params := BindIfSet(params, Rooms, args.rooms);
    BindStep(args, 4, before, params);
    before := params;
    params := BindIfSet(params, BathRooms, args.bathRooms);
    BindStep(args, 5, before, params);
    params := params[HotelId := hotelId];
    StatementBindings(args, hotelId, params);
  }

  /** The outcome of `getCheapestRoom` for the given tables. */
  function CheapestRoomOf(posts: seq<Post>, hotelId: int, args: Args): Outcome<Room>
  {
    match CheapestPost(posts, hotelId, Fragments(args))
    case None => Thrown(FilterException(Pipeline.NoRoomMessage))
    case Some(p) => Ok(RoomOf(p))
  }

  /** A room post of the hotel that passes every active filter. */
  predicate Qualifies(p: Post, hotelId: int, args: Args)
  {
    p.author == hotelId && p.postType == "room" && HasAttributes(p) && FiltersHold(p, args)
  }

  /** A post satisfies the statement's WHERE clause iff it qualifies. */
  lemma CandidateIffQualifies(p: Post, hotelId: int, args: Args)
    ensures Candidate(p, hotelId, Fragments(args)) <==> Qualifies(p, hotelId, args)
  {
    FragmentsMeanFilters(p, args);
  }

  /**
   * No qualifying post means a FilterException; otherwise the room is
   * copied from a qualifying post than which no qualifying post is cheaper.
   */
  lemma CheapestRoomOfQualifies(posts: seq<Post>, hotelId: int, args: Args)
    ensures CheapestRoomOf(posts, hotelId, args).Thrown? <==>
              forall i :: 0 <= i < |posts| ==> !Qualifies(posts[i], hotelId, args)
    ensures CheapestRoomOf(posts, hotelId, args).Thrown? ==>
              CheapestRoomOf(posts, hotelId, args).failure == FilterException(Pipeline.NoRoomMessage)
    ensures CheapestRoomOf(posts, hotelId, args).Ok? ==>
              exists i :: 0 <= i < |posts| && Qualifies(posts[i], hotelId, args) &&
                RoomOf(posts[i]) == CheapestRoomOf(posts, hotelId, args).value &&
                forall j :: 0 <= j < |posts| && Qualifies(posts[j], hotelId, args) ==>
                  CheapestRoomOf(posts, hotelId, args).value.price <= posts[j].price.value
  {
    var fs := Fragments(args);
    forall i | 0 <= i < |posts|
      ensures Candidate(posts[i], hotelId, fs) <==> Qualifies(posts[i], hotelId, args)
    {
      CandidateIffQualifies(posts[i], hotelId, args);
    }
    var r := CheapestPost(posts, hotelId, fs);
    if r.Some? {
      var i :| 0 <= i < |posts| && posts[i] == r.value;
      assert Qualifies(posts[i], hotelId, args);
    }
  }

  /**
   * `getCheapestRoom`: build, bind and run the statement; no row throws a
   * FilterException, otherwise the room is filled from the row.
   */
  method GetCheapestRoom(db: Db, hotel: Hotel, args: Args) returns (cheapestRoom: Outcome<Room>)
    ensures cheapestRoom == CheapestRoomOf(db.posts, hotel.id, args)
    ensures cheapestRoom.Thrown? <==> forall i :: 0 <= i < |db.posts| ==> !Qualifies(db.posts[i], hotel.id, args)
    ensures cheapestRoom.Thrown? ==> cheapestRoom.failure == FilterException(Pipeline.NoRoomMessage)
    ensures cheapestRoom.Ok? ==>
              exists i :: 0 <= i < |db.posts| && Qualifies(db.posts[i], hotel.id, args) &&
                RoomOf(db.posts[i]) == cheapestRoom.value &&
                forall j :: 0 <= j < |db.posts| && Qualifies(db.posts[j], hotel.id, args) ==>
                  cheapestRoom.value.price <= db.posts[j].price.value
  {
    var whereClauses := BuildWhereClauses(args);
    var sqlQuery := AssembleQuery(whereClauses);
    var params := BindParameters(args, hotel.id);
    // the database answers the prepared statement
    var result := CheapestPost(db.posts, hotel.id, whereClauses);
    if result.None? {
      cheapestRoom := Thrown(FilterException(Pipeline.NoRoomMessage));
    } else {
      cheapestRoom := Ok(RoomOf(result.value));
    }
    CheapestRoomOfQualifies(db.posts, hotel.id, args);
  }

  /** The enrichment steps as this service implements them. */
  function Collaborators(db: Db): Pipeline.Services
  {
    Pipeline.Services(
      (h: Hotel) => Ok(MetasOf(db.usermeta, h.id)),
      (h: Hotel) => Ok(db.reviewAggregate(h.id)),
      (h: Hotel, a: Args) => CheapestRoomOf(db.posts, h.id, a))
  }

  /**
   * `convertEntityFromArray`: fill the hotel from the row, its metas, its
   * reviews and its cheapest room, then apply the radius check.
   */
  method ConvertEntityFromArray(db: Db, geo: Pipeline.Geo, data: UserRow, args: Args)
    returns (converted: Outcome<Hotel>)
    ensures converted == Pipeline.Convert(Collaborators(db), geo, data, args)
  {
    var hotel := NewHotel(data.id, data.displayName);

    var metasData := GetMetas(db, hotel);
    hotel := hotel.(address := Some(metasData.address));
    hotel := hotel.(geoLat := metasData.geoLat);
    hotel := hotel.(geoLng := metasData.geoLng);
    hotel := hotel.(imageUrl := metasData.coverImage);
    hotel := hotel.(phone := metasData.phone);

    var reviewsData := db.reviewAggregate(hotel.id);  // getReviews
    hotel := hotel.(rating := reviewsData.rating);
    hotel := hotel.(ratingCount := Some(reviewsData.count));

    var cheapestRoom := GetCheapestRoom(db, hotel, args);
    if cheapestRoom.Thrown? {
      return Thrown(cheapestRoom.failure);
    }
    hotel := hotel.(cheapestRoom := Some(cheapestRoom.value));

    if args.lat.Some? && args.lng.Some? && args.distance.Some? {
      hotel := hotel.(distance := Some(geo.computeDistance(
        Pipeline.FloatOf(geo, args.lat),
        Pipeline.FloatOf(geo, args.lng),
        Pipeline.FloatOf(geo, hotel.geoLat),
        Pipeline.FloatOf(geo, hotel.geoLng))));
      if hotel.distance.value > args.distance.value {
        return Thrown(FilterException(Pipeline.OutOfRadiusMessage));
      }
    }
    converted := Ok(hotel);
  }

  /**
   * Over the in-memory tables a conversion either succeeds or is rejected:
   * `getMetas` and `getReviews` always answer, and the only exceptions are
   * the two FilterExceptions.
   */
  lemma TablesNeverFault(db: Db, geo: Pipeline.Geo, row: UserRow, args: Args)
    ensures !Pipeline.Convert(Collaborators(db), geo, row, args).IsFault()
  {
  }

  /** The radius filter is on and the hotel's stored coordinates lie beyond it. */
  predicate BeyondRadius(db: Db, geo: Pipeline.Geo, row: UserRow, args: Args)
  {
    Pipeline.RadiusActive(args) &&
    Pipeline.DistanceFrom(geo, args, Pipeline.WithMetas(NewHotel(row.id, row.displayName),
                                                        MetasOf(db.usermeta, row.id)))
    > args.distance.value
  }

  /**
   * Over the tables, a row is rejected for want of a room iff none of the
   * hotel's posts qualifies, rejected as too far iff one does but the hotel
   * lies beyond the radius, and converted iff one qualifies and it does not.
   */
  lemma {:induction false} ConvertDecidedByRoomsAndRadius(db: Db, geo: Pipeline.Geo, row: UserRow, args: Args)
    ensures Pipeline.Convert(Collaborators(db), geo, row, args) == Thrown(FilterException(Pipeline.NoRoomMessage))
            <==> forall i :: 0 <= i < |db.posts| ==> !Qualifies(db.posts[i], row.id, args)
    ensures Pipeline.Convert(Collaborators(db), geo, row, args) == Thrown(FilterException(Pipeline.OutOfRadiusMessage))
            <==> (exists i :: 0 <= i < |db.posts| && Qualifies(db.posts[i], row.id, args)) &&
                 BeyondRadius(db, geo, row, args)
    ensures Pipeline.Convert(Collaborators(db), geo, row, args).Ok?
            <==> (exists i :: 0 <= i < |db.posts| && Qualifies(db.posts[i], row.id, args)) &&
                 !BeyondRadius(db, geo, row, args)
  {
    CheapestRoomOfQualifies(db.posts, row.id, args);
    assert Pipeline.NoRoomMessage[0] != Pipeline.OutOfRadiusMessage[0];
  }

  /**
   * `list`: convert every `wp_users` row in order, skipping the ones that
   * throw a FilterException. Any other exception would leave the loop, but
   * the in-memory tables never raise one, so the list always comes back.
   */
  method List(db: Db, geo: Pipeline.Geo, args: Args) returns (listed: Outcome<seq<Hotel>>)
    ensures listed == Pipeline.Collect(Collaborators(db), geo, db.users, args)
    ensures listed.Ok?
  {
    var rows := db.users;  // SELECT * FROM wp_users
    var results: seq<Hotel> := [];
    var i := 0;
    while i < |rows|
      invariant 0 <= i <= |rows|
      invariant Pipeline.Collect(Collaborators(db), geo, rows[..i], args) == Ok(results)
    {
      var converted := ConvertEntityFromArray(db, geo, rows[i], args);
      TablesNeverFault(db, geo, rows[i], args);
      Pipeline.CollectStep(Collaborators(db), geo, rows, args, i);
      if converted.Ok? {
        results := results + [converted.value];
      }
      // otherwise a FilterException, caught: the in-memory tables raise nothing else
      i := i + 1;
    }
    assert rows[..i] == rows;
    listed := Ok(results);
  }
}
