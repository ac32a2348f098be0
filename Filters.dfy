/**
 * The WHERE-clause fragments `getCheapestRoom` can emit, what each one means
 * for a room post, and the database's answer to the cheapest-room statement:
 * the cheapest post of the hotel that passes every fragment.
 */
module Filters {
  import opened Entities

  /** The named placeholders of the cheapest-room statement. */
  datatype Param = SurfaceMin | SurfaceMax | PriceMin | PriceMax | Rooms | BathRooms | HotelId
  {
    function Name(): string
    {
      match this
      case SurfaceMin => "surfaceMin"
      case SurfaceMax => "surfaceMax"
      case PriceMin => "priceMin"
      case PriceMax => "priceMax"
      case Rooms => "rooms"
      case BathRooms => "bathRooms"
      case HotelId => "hotelId"
    }
  }

  /** Distinct placeholders have distinct names. */
  lemma NamesInjective(p: Param, q: Param)
    ensures p.Name() == q.Name() ==> p == q
  {
  }

  /** One predicate fragment, with the value its named placeholder is bound to. */
  datatype Fragment =
    | SurfaceAtLeast(bound: int)
    | SurfaceAtMost(bound: int)
    | PriceAtLeast(bound: int)
    | PriceAtMost(bound: int)
    | BedroomsAtLeast(bound: int)
    | BathroomsAtLeast(bound: int)
    | TypeIn(types: seq<string>)
  {
    /** Position of the fragment's field in the fixed order the builder tests them. */
    function Rank(): nat
    {
      match this
      case SurfaceAtLeast(_) => 0
      case SurfaceAtMost(_) => 1
      case PriceAtLeast(_) => 2
      case PriceAtMost(_) => 3
      case BedroomsAtLeast(_) => 4
      case BathroomsAtLeast(_) => 5
      case TypeIn(_) => 6
    }

    /** The named placeholder and its value; the type list is inlined, not bound. */
    function Binding(): Option<(Param, int)>
    {
      match this
      case SurfaceAtLeast(n) => Some((SurfaceMin, n))
      case SurfaceAtMost(n) => Some((SurfaceMax, n))
      case PriceAtLeast(n) => Some((PriceMin, n))
      case PriceAtMost(n) => Some((PriceMax, n))
      case BedroomsAtLeast(n) => Some((Rooms, n))
      case BathroomsAtLeast(n) => Some((BathRooms, n))
      case TypeIn(_) => None
    }

    /** The attribute column the fragment compares. */
    function Column(): string
    {
      match this
      case SurfaceAtLeast(_) => "SurfaceData.meta_value"
      case SurfaceAtMost(_) => "SurfaceData.meta_value"
      case PriceAtLeast(_) => "PriceData.meta_value"
      case PriceAtMost(_) => "PriceData.meta_value"
      case BedroomsAtLeast(_) => "BedroomsCountData.meta_value"
      case BathroomsAtLeast(_) => "BathroomsCountData.meta_value"
      case TypeIn(_) => "TypeData.meta_value"
    }

    /**
     * The SQL text of the fragment, e.g. `SurfaceData.meta_value >= :surfaceMin`
     * or `TypeData.meta_value IN ("a","b")`.
     */
    function Text(): (t: string)
      ensures Binding().Some? ==> IsSuffix(":" + Binding().value.0.Name(), t)
      ensures TypeIn? ==> IsInfix(Implode("\",\"", types), t)
    {
      match this
      case TypeIn(ts) =>
        var prefix := Column() + " IN (\"";
        var t := prefix + Implode("\",\"", ts) + "\")";
        assert t[|prefix|..|prefix| + |Implode("\",\"", ts)|] == Implode("\",\"", ts);
        assert OccursAt(Implode("\",\"", ts), t, |prefix|);
        t
      case _ =>
        var comparison := if SurfaceAtMost? || PriceAtMost? then " <= " else " >= ";
        var placeholder := ":" + Binding().value.0.Name();
        var t := Column() + comparison + placeholder;
        assert t[|t| - |placeholder|..] == placeholder;
        t
    }

    /** What the fragment demands of a room post (the joined attribute must exist). */
    predicate Holds(p: Post)
    {
      match this
      case SurfaceAtLeast(n) => p.surface.Some? && p.surface.value >= n
      case SurfaceAtMost(n) => p.surface.Some? && p.surface.value <= n
      case PriceAtLeast(n) => p.price.Some? && p.price.value >= n
      case PriceAtMost(n) => p.price.Some? && p.price.value <= n
      case BedroomsAtLeast(n) => p.bedrooms.Some? && p.bedrooms.value >= n
      case BathroomsAtLeast(n) => p.bathrooms.Some? && p.bathrooms.value >= n
      case TypeIn(ts) => p.roomType.Some? && p.roomType.value in ts
    }
  }

  predicate IsSuffix(tail: string, s: string)
  {
    |tail| <= |s| && s[|s| - |tail|..] == tail
  }

  predicate OccursAt(part: string, s: string, at: int)
  {
    0 <= at && at + |part| <= |s| && s[at..at + |part|] == part
  }

  predicate IsInfix(part: string, s: string)
  {
    exists at :: 0 <= at <= |s| && OccursAt(part, s, at)
  }

  lemma InfixInConcat(part: string, a: string, s: string, b: string)
    requires IsInfix(part, s)
    ensures IsInfix(part, a + s + b)
  {
    var at :| 0 <= at <= |s| && OccursAt(part, s, at);
    assert 0 <= at && at + |part| <= |s| && s[at..at + |part|] == part;
    assert (a + s + b)[|a| + at..|a| + at + |part|] == s[at..at + |part|];
    assert OccursAt(part, a + s + b, |a| + at);
  }

  /** PHP `implode($glue, $pieces)`. */
  function Implode(glue: string, pieces: seq<string>): string
    decreases |pieces|
  {
    if |pieces| == 0 then ""
    else if |pieces| == 1 then pieces[0]
    else pieces[0] + glue + Implode(glue, pieces[1..])
  }

  /** Every piece occurs in the imploded text. */
  lemma {:induction false} ImplodeContainsPieces(glue: string, pieces: seq<string>, k: int)
    requires 0 <= k < |pieces|
    ensures IsInfix(pieces[k], Implode(glue, pieces))
    decreases |pieces|
  {
    var s := Implode(glue, pieces);
    if |pieces| == 1 {
      assert OccursAt(pieces[0], s, 0);
    } else if k == 0 {
      assert s[0..|pieces[0]|] == pieces[0];
      assert OccursAt(pieces[0], s, 0);
    } else {
      ImplodeContainsPieces(glue, pieces[1..], k - 1);
      InfixInConcat(pieces[k], pieces[0] + glue, Implode(glue, pieces[1..]), "");
      assert pieces[0] + glue + Implode(glue, pieces[1..]) + "" == s;
    }
  }

  /**
   * The fragment the builder's test number `rank` appends for `args`, if
   * its field is set (an empty type list counts as unset).
   */
  function FragmentAt(args: Args, rank: nat): (piece: seq<Fragment>)
    ensures |piece| <= 1
    ensures forall f :: f in piece ==> f.Rank() == rank
  {
    if rank == 0 && args.surface.min.Some? then [SurfaceAtLeast(args.surface.min.value)]
    else if rank == 1 && args.surface.max.Some? then [SurfaceAtMost(args.surface.max.value)]
    else if rank == 2 && args.price.min.Some? then [PriceAtLeast(args.price.min.value)]
    else if rank == 3 && args.price.max.Some? then [PriceAtMost(args.price.max.value)]
    else if rank == 4 && args.rooms.Some? then [BedroomsAtLeast(args.rooms.value)]
    else if rank == 5 && args.bathRooms.Some? then [BathroomsAtLeast(args.bathRooms.value)]
    else if rank == 6 && args.types.Some? && |args.types.value| > 0 then [TypeIn(args.types.value)]
    else []
  }

  /** The fragments of the tests numbered 0 to `rank` - 1, in test order. */
  function FragmentsBefore(args: Args, rank: nat): (fs: seq<Fragment>)
    requires rank <= 7
    ensures forall f :: f in fs <==> f.Rank() < rank && f in FragmentAt(args, f.Rank())
    ensures forall i, j :: 0 <= i < j < |fs| ==> fs[i].Rank() < fs[j].Rank()
  {
    if rank == 0 then []
    else
      var before := FragmentsBefore(args, rank - 1);
      assert forall i :: 0 <= i < |before| ==> before[i] in before;
      before + FragmentAt(args, rank - 1)
  }

  /**
   * The fragments `getCheapestRoom` appends for `args`: one per set field,
   * in the order surface min, surface max, price min, price max, rooms,
   * bathRooms, types; an empty type list adds nothing.
   */
  function Fragments(args: Args): (fs: seq<Fragment>)
    ensures forall f :: f in fs <==> f in FragmentAt(args, f.Rank())
    ensures forall i, j :: 0 <= i < j < |fs| ==> fs[i].Rank() < fs[j].Rank()
  {
    FragmentsBefore(args, 7)
  }

  /** A fragment, with its bound value, is emitted iff its field is set. */
  lemma FragmentPresentIffSet(args: Args)
    ensures forall n :: SurfaceAtLeast(n) in Fragments(args) <==> args.surface.min == Some(n)
    ensures forall n :: SurfaceAtMost(n) in Fragments(args) <==> args.surface.max == Some(n)
    ensures forall n :: PriceAtLeast(n) in Fragments(args) <==> args.price.min == Some(n)
    ensures forall n :: PriceAtMost(n) in Fragments(args) <==> args.price.max == Some(n)
    ensures forall n :: BedroomsAtLeast(n) in Fragments(args) <==> args.rooms == Some(n)
    ensures forall n :: BathroomsAtLeast(n) in Fragments(args) <==> args.bathRooms == Some(n)
    ensures forall ts :: TypeIn(ts) in Fragments(args) <==> args.types == Some(ts) && |ts| > 0
  {
    SurfaceFragments(args);
    PriceFragments(args);
    CountFragments(args);
    TypeFragment(args);
  }

  // The four parts of FragmentPresentIffSet, one proof obligation each.

  lemma SurfaceFragments(args: Args)
    ensures forall n :: SurfaceAtLeast(n) in Fragments(args) <==> args.surface.min == Some(n)
    ensures forall n :: SurfaceAtMost(n) in Fragments(args) <==> args.surface.max == Some(n)
  {
  }

  lemma PriceFragments(args: Args)
    ensures forall n :: PriceAtLeast(n) in Fragments(args) <==> args.price.min == Some(n)
    ensures forall n :: PriceAtMost(n) in Fragments(args) <==> args.price.max == Some(n)
  {
  }

  lemma CountFragments(args: Args)
    ensures forall n :: BedroomsAtLeast(n) in Fragments(args) <==> args.rooms == Some(n)
    ensures forall n :: BathroomsAtLeast(n) in Fragments(args) <==> args.bathRooms == Some(n)
  {
  }

  lemma TypeFragment(args: Args)
    ensures forall ts :: TypeIn(ts) in Fragments(args) <==> args.types == Some(ts) && |ts| > 0
  {
  }

  /** Two requests whose tests up to `rank` append the same fragments get the same list. */
  lemma {:induction false} SameFragmentsBefore(a: Args, b: Args, rank: nat)
    requires rank <= 7
    requires forall r :: 0 <= r < rank ==> FragmentAt(a, r) == FragmentAt(b, r)
    ensures FragmentsBefore(a, rank) == FragmentsBefore(b, rank)
  {
    if rank > 0 {
      SameFragmentsBefore(a, b, rank - 1);
    }
  }

  /** An empty `types` array is the same as no `types` key at all. */
  lemma EmptyTypesLikeAbsent(args: Args)
    ensures Fragments(args.(types := Some([]))) == Fragments(args.(types := None))
  {
    var a, b := args.(types := Some([])), args.(types := None);
    assert forall r :: 0 <= r < 7 ==> FragmentAt(a, r) == FragmentAt(b, r);
    SameFragmentsBefore(a, b, 7);
  }

  /** The filters of `args`, stated field by field (the reference for the fragments). */
  predicate FiltersHold(p: Post, args: Args)
  {
    && (args.surface.min.Some? ==> p.surface.Some? && p.surface.value >= args.surface.min.value)
    && (args.surface.max.Some? ==> p.surface.Some? && p.surface.value <= args.surface.max.value)
    && (args.price.min.Some? ==> p.price.Some? && p.price.value >= args.price.min.value)
    && (args.price.max.Some? ==> p.price.Some? && p.price.value <= args.price.max.value)
    && (args.rooms.Some? ==> p.bedrooms.Some? && p.bedrooms.value >= args.rooms.value)
    && (args.bathRooms.Some? ==> p.bathrooms.Some? && p.bathrooms.value >= args.bathRooms.value)
    && (args.types.Some? && |args.types.value| > 0 ==>
          p.roomType.Some? && p.roomType.value in args.types.value)
  }

  /** The conjunction of the WHERE fragments. */
  predicate Satisfies(p: Post, clauses: seq<Fragment>)
  {
    forall f :: f in clauses ==> f.Holds(p)
  }

  /** The AND of the emitted fragments is exactly the set of active filters. */
  lemma FragmentsMeanFilters(p: Post, args: Args)
    ensures Satisfies(p, Fragments(args)) <==> FiltersHold(p, args)
  {
    var fs := Fragments(args);
    if Satisfies(p, fs) {
      FiltersFollowFromFragments(p, args);
    }
    if FiltersHold(p, args) {
      forall f | f in fs ensures f.Holds(p) {
        assert f in FragmentAt(args, f.Rank());
      }
    }
  }

  lemma FiltersFollowFromFragments(p: Post, args: Args)
    requires Satisfies(p, Fragments(args))
    ensures FiltersHold(p, args)
  {
    var fs := Fragments(args);
    if args.surface.min.Some? { assert SurfaceAtLeast(args.surface.min.value) in fs; }
    if args.surface.max.Some? { assert SurfaceAtMost(args.surface.max.value) in fs; }
    if args.price.min.Some? { assert PriceAtLeast(args.price.min.value) in fs; }
    if args.price.max.Some? { assert PriceAtMost(args.price.max.value) in fs; }
    if args.rooms.Some? { assert BedroomsAtLeast(args.rooms.value) in fs; }
    if args.bathRooms.Some? { assert BathroomsAtLeast(args.bathRooms.value) in fs; }
    if args.types.Some? && |args.types.value| > 0 { assert TypeIn(args.types.value) in fs; }
  }

  /** The five INNER JOINs: the post has every room attribute. */
  predicate HasAttributes(p: Post)
  {
    p.price.Some? && p.surface.Some? && p.roomType.Some? && p.bedrooms.Some? && p.bathrooms.Some?
  }

  /** A row of the cheapest-room statement before ORDER BY / LIMIT. */
  predicate Candidate(p: Post, hotelId: int, clauses: seq<Fragment>)
  {
    p.author == hotelId && p.postType == "room" && HasAttributes(p) && Satisfies(p, clauses)
  }

  /**
   * The row `fetch()` returns for `... ORDER BY price asc LIMIT 1`: a
   * candidate of minimal price, None when there is no candidate. Among equal
   * prices the first post in table order is taken.
   */
  function CheapestPost(posts: seq<Post>, hotelId: int, clauses: seq<Fragment>): (r: Option<Post>)
    ensures r.None? <==> forall i :: 0 <= i < |posts| ==> !Candidate(posts[i], hotelId, clauses)
    ensures r.Some? ==> r.value in posts && Candidate(r.value, hotelId, clauses)
    ensures r.Some? ==> forall i :: 0 <= i < |posts| && Candidate(posts[i], hotelId, clauses) ==>
                          r.value.price.value <= posts[i].price.value
    decreases |posts|
  {
    if |posts| == 0 then None
    else
      var rest := CheapestPost(posts[1..], hotelId, clauses);
      assert forall i :: 1 <= i < |posts| ==> posts[i] == posts[1..][i - 1];
      if !Candidate(posts[0], hotelId, clauses) then rest
      else if rest.None? || posts[0].price.value <= rest.value.price.value then Some(posts[0])
      else rest
  }

  /** The decimal text a non-negative price is stored as in `meta_value`. */
  function Digits(n: nat): string
    decreases n
  {
    var last := ['0' + (n % 10) as char];
    if n < 10 then last else Digits(n / 10) + last
  }

  /** Text order, character by character, as the column's collation compares digit strings. */
  predicate TextAtMost(a: string, b: string)
    decreases |a|
  {
    if |a| == 0 then true
    else if |b| == 0 then false
    else if a[0] != b[0] then a[0] < b[0]
    else TextAtMost(a[1..], b[1..])
  }

  /** Any two texts are comparable. */
  lemma {:induction false} TextAtMostTotal(a: string, b: string)
    ensures TextAtMost(a, b) || TextAtMost(b, a)
    decreases |a|
  {
    if |a| > 0 && |b| > 0 && a[0] == b[0] {
      TextAtMostTotal(a[1..], b[1..]);
    }
  }

  /** The text order is transitive. */
  lemma {:induction false} TextAtMostTransitive(a: string, b: string, c: string)
    requires TextAtMost(a, b) && TextAtMost(b, c)
    ensures TextAtMost(a, c)
    decreases |a|
  {
    if |a| > 0 && a[0] == b[0] && b[0] == c[0] {
      TextAtMostTransitive(a[1..], b[1..], c[1..]);
    }
  }

  /**
   * The row `ORDER BY price asc LIMIT 1` yields as written: `price` is the
   * text `meta_value` column, so candidates are ordered by their price text.
   * Among equal texts the first post in table order is taken.
   */
  function CheapestPostByText(posts: seq<Post>, hotelId: int, clauses: seq<Fragment>): (r: Option<Post>)
    ensures r.None? <==> forall i :: 0 <= i < |posts| ==> !Candidate(posts[i], hotelId, clauses)
    ensures r.Some? ==> r.value in posts && Candidate(r.value, hotelId, clauses)
    // no candidate's price text sorts before the chosen one's
    ensures r.Some? ==> forall i :: 0 <= i < |posts| && Candidate(posts[i], hotelId, clauses) ==>
              TextAtMost(PriceText(r.value), PriceText(posts[i]))
    decreases |posts|
  {
    if |posts| == 0 then None
    else
      var rest := CheapestPostByText(posts[1..], hotelId, clauses);
      assert forall i :: 1 <= i < |posts| ==> posts[i] == posts[1..][i - 1];
      if !Candidate(posts[0], hotelId, clauses) then rest
      else if rest.None? then
        assert TextAtMost(PriceText(posts[0]), PriceText(posts[0])) by {
          TextAtMostTotal(PriceText(posts[0]), PriceText(posts[0]));
        }
        Some(posts[0])
      else if TextAtMost(PriceText(posts[0]), PriceText(rest.value)) then
        var first := PriceText(posts[0]);
        assert forall i :: 0 <= i < |posts| && Candidate(posts[i], hotelId, clauses) ==>
                 TextAtMost(first, PriceText(posts[i])) by {
          forall i | 0 <= i < |posts| && Candidate(posts[i], hotelId, clauses)
            ensures TextAtMost(first, PriceText(posts[i]))
          {
            if i == 0 {
              TextAtMostTotal(first, first);
            } else {
              TextAtMostTransitive(first, PriceText(rest.value), PriceText(posts[i]));
            }
          }
        }
        Some(posts[0])
      else
        TextAtMostTotal(PriceText(posts[0]), PriceText(rest.value));
        rest
  }

  /** The stored text of a post's price (negative prices carry a minus sign). */
  function PriceText(p: Post): string
    requires p.price.Some?
  {
    if p.price.value < 0 then "-" + Digits(-p.price.value) else Digits(p.price.value)
  }

  /**
   * Ordering the price text picks a room of 1000 over one of 950, since
   * "1000" sorts before "950"; the numeric order picks the 950 one.
   */
  lemma TextOrderPicksDearerRoom()
    ensures
      var cheap := Post(1, 7, "room", "Cheap", Some(950), Some(20), Some("standard"), Some(1), Some(1));
      var dear := Post(2, 7, "room", "Dear", Some(1000), Some(20), Some("standard"), Some(1), Some(1));
      && CheapestPostByText([cheap, dear], 7, []) == Some(dear)
      && CheapestPost([cheap, dear], 7, []) == Some(cheap)
  {
    var cheap := Post(1, 7, "room", "Cheap", Some(950), Some(20), Some("standard"), Some(1), Some(1));
    var dear := Post(2, 7, "room", "Dear", Some(1000), Some(20), Some("standard"), Some(1), Some(1));
    assert Candidate(cheap, 7, []) && Candidate(dear, 7, []);
    assert Digits(950) == "950" by {
      assert Digits(9) == "9";
      assert Digits(95) == "95";
    }
    assert Digits(1000) == "1000" by {
      assert Digits(1) == "1";
      assert Digits(10) == "10";
      assert Digits(100) == "100";
    }
    assert !TextAtMost("950", "1000");
    assert [cheap, dear][1..] == [dear];
    assert [dear][1..] == [];
  }

  /** The RoomEntity filled from a selected row. */
  function RoomOf(p: Post): Room
    requires HasAttributes(p)
  {
    Room(p.id, p.title, p.surface.value, p.price.value, p.bedrooms.value, p.bathrooms.value,
         p.roomType.value)
  }

  /**
   * With a price ceiling of 1000 and at least 2 bedrooms, of two rooms priced
   * 800 (1 bedroom) and 950 (2 bedrooms) the 950 one is selected: the cheaper
   * room is excluded by the bedroom filter, not by price.
   */
  lemma RoomFilterDecidesOverPrice()
    ensures
      var args := Args(None, None, None, None, Range(None, Some(1000)), Range(None, None),
                       Some(2), None, None);
      var single := Post(1, 7, "room", "Single", Some(800), Some(20), Some("standard"), Some(1), Some(1));
      var double := Post(2, 7, "room", "Double", Some(950), Some(30), Some("standard"), Some(2), Some(1));
      CheapestPost([single, double], 7, Fragments(args)) == Some(double)
  {
    var args := Args(None, None, None, None, Range(None, Some(1000)), Range(None, None),
                     Some(2), None, None);
    var single := Post(1, 7, "room", "Single", Some(800), Some(20), Some("standard"), Some(1), Some(1));
    var double := Post(2, 7, "room", "Double", Some(950), Some(30), Some("standard"), Some(2), Some(1));
    var fs := Fragments(args);
    FragmentPresentIffSet(args);
    assert !Candidate(single, 7, fs) by { assert BedroomsAtLeast(2) in fs; }
    FragmentsMeanFilters(double, args);
    assert Candidate(double, 7, fs);
    assert [single, double][1..] == [double];
    var rest := CheapestPost([double], 7, fs);
    assert rest.Some? && rest.value in [double];
  }
}
