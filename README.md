# Hotel listing pipeline

A Dafny model of the hotel listing core of the `tp-performances-backend`
repository: the two hotel services `UnoptimizedHotelService` and
`OneRequestHotelService`.

`list($args)` reads every `wp_users` row and turns each into a `HotelEntity`.
For each row, `convertEntityFromArray` runs these steps in order:

1. It sets the id and the display name.
2. It loads the user metas (address, coordinates, cover image, phone).
3. It loads the review aggregate.
4. It loads the cheapest room that passes the request's filters.
5. When `lat`, `lng` and `distance` are all given, it stores the distance to the search point.

A hotel is dropped from the list when it has no qualifying room, or when it lies outside the radius. Both cases raise a
`FilterException`, and `list` catches it. Any other exception escapes `list`,
and no list is returned.

The model has five modules:

- `Entities` (Entities.dfy): the request arguments, the table rows and the entities. A PHP call that may throw
  is an `Outcome`: `Ok(value)` or `Thrown(FilterException | OtherException)`.
- `Filters` (Filters.dfy): the WHERE fragments of the cheapest-room statement, covering
  - their SQL text and their named placeholders;
  - what they demand of a room post;
  - the selection of the cheapest qualifying post.
- `Pipeline` (Pipeline.dfy): `convertEntityFromArray` and `list` as functions (`Convert`, `Collect`). They are stated over
  the three enrichment steps (`Services`), with the lemmas about them.
- `Unoptimized` (UnoptimizedHotelService.dfy): the unoptimized service over in-memory tables (`Db`). It covers
  - the `getMeta` loop and the `getMetas` projection;
  - the fragment builder, the query text and the parameter binding of `getCheapestRoom`;
  - the step-by-step conversion and the list loop.
  Each method is proved equal to the function that specifies it.
- `OneRequest` (OneRequestHotelService.dfy): the one-request service. It inherits `getMetas`,
  `getReviews`, `getCheapestRoom` and `computeDistance`, so its conversion and list take the enrichment steps as a parameter. It also proves that
  the two services list the same hotels.

## Model

| member | source | states |
|---|---|---|
| Unoptimized.LastValue | src/Services/Hotel/UnoptimizedHotelService.php:60-64 | None iff the user has no row with the key |
| Unoptimized.LastValueIsLastRow | src/Services/Hotel/UnoptimizedHotelService.php:62-64 | a value found is that of a matching row after which no matching row follows: the last row wins |
| Unoptimized.GetMeta | src/Services/Hotel/UnoptimizedHotelService.php:48-71 | for every key, the folded map holds exactly the last value stored under it for that user, and no key without a row |
| Unoptimized.GetMetas | src/Services/Hotel/UnoptimizedHotelService.php:82-104 | the metas are `MetasOf`: the five address keys in the address block, then `geo_lat`, `geo_lng`, `coverImage`, `phone`, each the user's last value or null |
| Filters.NamesInjective | src/Services/Hotel/UnoptimizedHotelService.php:173-233 | two placeholders with the same name are the same placeholder, so each name in the statement is bound once |
| Filters.Fragment.Text | src/Services/Hotel/UnoptimizedHotelService.php:172-197 | a numeric fragment's text ends with `:` and its placeholder's name; the type fragment's text contains the types joined by `","` |
| Filters.FragmentAt | src/Services/Hotel/UnoptimizedHotelService.php:172-199 | each `isset` test appends at most one fragment, of its own field |
| Filters.Fragments | src/Services/Hotel/UnoptimizedHotelService.php:170-199 | a fragment is in the list iff the test for its field appends it; the fragments are in strictly increasing test order (surface min, surface max, price min, price max, rooms, bathRooms, types) |
| Filters.FragmentPresentIffSet | src/Services/Hotel/UnoptimizedHotelService.php:172-199 | for each field, the fragment with value n is emitted iff the field is set to n; the type fragment iff `types` is set and non-empty |
| Filters.EmptyTypesLikeAbsent | src/Services/Hotel/UnoptimizedHotelService.php:196-199 | an empty `types` array yields the same fragments as no `types` key |
| Filters.ImplodeContainsPieces | src/Services/Hotel/UnoptimizedHotelService.php:197-204 | every piece given to `implode` occurs in its result |
| Filters.FragmentsMeanFilters | src/Services/Hotel/UnoptimizedHotelService.php:170-205 | a post satisfies every emitted fragment iff it passes every filter the arguments set, stated field by field |
| Unoptimized.BuildWhereClauses | src/Services/Hotel/UnoptimizedHotelService.php:170-199 | the appended list is exactly `Fragments(args)`, with the properties above |
| Unoptimized.AssembleQuery | src/Services/Hotel/UnoptimizedHotelService.php:153-207 | the query starts with the SELECT, the joins and `WHERE post_author = :hotelId AND post_type = 'room'`, and ends with `GROUP BY post.ID ORDER BY price asc LIMIT 1`. With no fragments nothing sits in between; otherwise `" AND "` and the fragments joined by `" AND "` do. Every fragment's text occurs in the query |
| Unoptimized.NameDeterminesRank | src/Services/Hotel/UnoptimizedHotelService.php:212-236 | each placeholder name belongs to one field test only, and no fragment uses `hotelId` |
| Unoptimized.BindingsOfOrdered | src/Services/Hotel/UnoptimizedHotelService.php:212-234 | binding fragments in test order binds exactly their placeholders, each to its own fragment's value (none is overwritten) |
| Unoptimized.StatementBindings | src/Services/Hotel/UnoptimizedHotelService.php:212-236 | the bound names are exactly `hotelId` plus the placeholders of the emitted fragments. `hotelId` is bound to the hotel's id, and each placeholder to its fragment's value. The type list is never bound |
| Unoptimized.BindIfSet | src/Services/Hotel/UnoptimizedHotelService.php:212-214 | binds the name to the value when the value is set, and leaves every other name as it was |
| Unoptimized.BindParameters | src/Services/Hotel/UnoptimizedHotelService.php:212-236 | the bindings are those of the emitted fragments plus `hotelId`; with `StatementBindings`, every emitted placeholder is bound and no other |
| Filters.CheapestPost | src/Services/Hotel/UnoptimizedHotelService.php:153-207 | None iff no post of the hotel of type `room` with all five attributes satisfies every fragment. Otherwise it returns such a post, and that post's price is at most every other such post's price |
| Filters.RoomFilterDecidesOverPrice | src/Services/Hotel/UnoptimizedHotelService.php:172-240 | with a price ceiling of 1000 and at least 2 bedrooms, a room at 950 with 2 bedrooms is chosen over one at 800 with 1 bedroom |
| Filters.CheapestPostByText | src/Services/Hotel/UnoptimizedHotelService.php:153-207 | the statement as written: None iff no post qualifies; otherwise a qualifying post whose price text sorts no later than any other qualifying post's |
| Filters.TextAtMostTotal | src/Services/Hotel/UnoptimizedHotelService.php:207 | any two price texts are comparable in the column's text order |
| Filters.TextAtMostTransitive | src/Services/Hotel/UnoptimizedHotelService.php:207 | the text order is transitive |
| Filters.TextOrderPicksDearerRoom | src/Services/Hotel/UnoptimizedHotelService.php:207 | of two qualifying rooms at 950 and 1000, text order selects the 1000 one and numeric order the 950 one |
| Unoptimized.CandidateIffQualifies | src/Services/Hotel/UnoptimizedHotelService.php:164-207 | a post is a row of the statement (the hotel's, of type `room`, with the five joined attributes, satisfying the fragments) iff it qualifies under the request's filters |
| Unoptimized.CheapestRoomOfQualifies | src/Services/Hotel/UnoptimizedHotelService.php:238-253 | the statement's outcome is the no-room FilterException iff no post qualifies. Otherwise it is the room of a qualifying post, and no qualifying post is cheaper |
| Unoptimized.GetCheapestRoom | src/Services/Hotel/UnoptimizedHotelService.php:148-258 | throws `FilterException("Aucune chambre ne correspond aux critères")` iff no post qualifies. Otherwise it returns the room copied from a qualifying post, and no qualifying post is cheaper |
| Pipeline.CheckRadius | src/Services/Hotel/UnoptimizedHotelService.php:307-318 | throws `FilterException("L'hôtel est en dehors du rayon de recherche")` iff lat, lng and distance are all set and the computed distance exceeds the radius (equal is kept). Only the distance changes: it is stored iff the check runs |
| Pipeline.Convert | src/Services/Hotel/UnoptimizedHotelService.php:285-321 | a converted hotel has the row's id and name, an address, a review count and a cheapest room. Each step's result is what the hotel holds, and each step got the hotel as the earlier steps left it. A distance is stored iff the radius filter is on, and it is within the radius. The first step that throws decides the outcome, with its exception unchanged. When all three steps return, the outcome is the radius check on the hotel they filled |
| Pipeline.LaterStepsIgnoredAfterThrow | src/Services/Hotel/UnoptimizedHotelService.php:290-305 | once `getMetas` throws, the outcome is that exception whatever the later steps and the distance function do |
| Pipeline.GeoUnusedWithoutRadius | src/Services/Hotel/UnoptimizedHotelService.php:307-318 | without lat, lng and distance all set, the distance function has no effect on the outcome |
| Pipeline.Collect | src/Services/Hotel/UnoptimizedHotelService.php:341-357 | the list never ends with a FilterException (it is caught), and has at most one hotel per row |
| Pipeline.CollectStep | src/Services/Hotel/UnoptimizedHotelService.php:348-352 | one more row appends its hotel, leaves the list unchanged on a FilterException, or ends it with any other exception |
| Pipeline.CollectThrownIsFinal | src/Services/Hotel/UnoptimizedHotelService.php:347-353 | an exception that escaped from the first rows is the outcome of the whole list |
| Pipeline.CollectAbortsOnFirstFault | src/Services/Hotel/UnoptimizedHotelService.php:347-353 | the list aborts iff some row's conversion throws something other than a FilterException, and then with the first such exception in row order |
| Pipeline.CollectKeepsAcceptedInOrder | src/Services/Hotel/UnoptimizedHotelService.php:346-356 | a completed list is, in row order, exactly the hotels of the rows whose conversion succeeded; every other row was rejected by a FilterException |
| Unoptimized.ConvertEntityFromArray | src/Services/Hotel/UnoptimizedHotelService.php:285-321 | the setter sequence over the tables equals `Pipeline.Convert` with this service's own steps |
| Unoptimized.ConvertDecidedByRoomsAndRadius | src/Services/Hotel/UnoptimizedHotelService.php:304-321 | over the tables, a row is rejected with the no-room message iff none of the hotel's posts qualifies. It is rejected with the out-of-radius message iff one qualifies but the hotel lies beyond the radius. It is converted iff one qualifies and the hotel is within the radius |
| Unoptimized.TablesNeverFault | src/Services/Hotel/UnoptimizedHotelService.php:285-321 | over the in-memory tables a conversion never throws anything but a FilterException |
| Unoptimized.List | src/Services/Hotel/UnoptimizedHotelService.php:341-357 | the loop's result equals `Pipeline.Collect` over `wp_users` in fetch order, and over the in-memory tables it always completes |
| OneRequest.ConvertEntityFromArray | src/Services/Hotel/OneRequestHotelService.php:19-80 | for any inherited `getMetas`, `getReviews` and `getCheapestRoom`, the setter sequence (each exception leaving the method) equals `Pipeline.Convert` |
| OneRequest.List | src/Services/Hotel/OneRequestHotelService.php:101-118 | the try/catch loop equals `Pipeline.Collect`: FilterException rows skipped, any other exception escapes with no list |
| OneRequest.ListsAgree | src/Services/Hotel/OneRequestHotelService.php:19-118 | given the unoptimized service's steps over the same tables, both services return the same list of hotels |

## Left out

- `computeDistance` (UnoptimizedHotelService.php:271-277) and `floatval` are uninterpreted functions in `Pipeline.Geo`. Only the `>` comparison with the radius is modelled, and the radius and distance are reals, not PHP floats.
- `getReviews`' aggregate (`ROUND(AVG(meta_value))`, `COUNT`) is an input, `Db.reviewAggregate`. The invariant "rating is null iff the count is 0" is neither assumed nor checked.
- Database plumbing is left out: `getDB`, `PDOSingleton`, `prepare`, `execute` and `fetch`. The tables are sequences, and the statement's execution is `Filters.CheapestPost` over the same fragments its text was built from. The SQL text is not parsed.
- `Unoptimized.List` has no rethrow branch, since over the in-memory tables none is reachable: no PDO error can happen there. The rethrow path is modelled in `OneRequest.List` and `Pipeline.Collect`.
- OneRequest.ListsAgree assumes two things about members of `OneRequestHotelService` that are not part of this model:
  - `$timer->start('getRooms')` at OneRequestHotelService.php:26 returns normally. The unoptimized service uses `startTimer`/`endTimer` instead.
  - The inherited `computeDistance` (OneRequestHotelService.php:68) is the unoptimized service's, so both services are given the same `Geo`.
- Unoptimized.List and OneRequest.ListsAgree assume the server does not enforce MySQL's `ONLY_FULL_GROUP_BY` mode, which is on by default since MySQL 5.7.5. Under that mode the statement of UnoptimizedHotelService.php:153-207 is refused for every hotel, whatever the data: its SELECT list names `meta_value` columns that do not depend on `post.ID`. `execute` then throws, and `list` throws with it. `listed.Ok?` and `oneRequest.Ok?` rest on this assumption.
- `Timers`, `SingletonTrait`, the `RoomService` wiring and the entity setter chains are left out. `HotelEntity` and `RoomEntity` are plain records.
- The two `$sqlQuery` strings and `$sqlArgs` of OneRequestHotelService.php:28-45 are never executed and are not modelled. The second string is malformed: it has a comma before `FROM`.
- MySQL string/number coercion is not modelled:
  - Prices, surfaces and counts are integers, bound as `PDO::PARAM_INT`, and the WHERE comparisons are numeric.
  - The text order of `ORDER BY price` is modelled only for the finding below.
- The `types` list is inlined into the SQL text without escaping. Its text is modelled, but injection and the collation's case-insensitive comparison are not: `TypeIn` uses exact string membership.
- `search` is read by no core code.
- Hotels are processed in the order of the `wp_users` fetch, which is the order of `Db.users`.
- The SQL leaves the tie-break among rooms of equal price open. The model takes the first in table order.
- A missing meta key reads as null, not a fault (PHP 8 raises a warning, not an exception), so the address fields are `Option`s.
- A `Post` holds at most one value per attribute. In the tables, a room may have several `price`, `surface`, `bedrooms_count`, `bathrooms_count` or `type` rows. The INNER JOINs of UnoptimizedHotelService.php:164-168 then give one row per combination. `GROUP BY post.ID` (line 207) collapses them and returns an arbitrary one's price. This case is not modelled.
- Filters.Candidate: the statement's `post_type = 'room'` is compared under the column's case-insensitive collation, but `Candidate` and `Unoptimized.Qualifies` test for exactly `"room"`.
- The request keys are the ones the code reads, `rooms` and `bathRooms`. The docblock at UnoptimizedHotelService.php:333-334 names `bedrooms` and `bathrooms` instead.

## Findings

| source | as written | input that shows it | evidently intended | confidence | as-written member | corrected member |
|---|---|---|---|---|---|---|
| src/Services/Hotel/UnoptimizedHotelService.php:155,207 | `ORDER BY price asc` orders the text column `PriceData.meta_value`, so prices compare as strings | two qualifying rooms of one hotel priced 950 and 1000: "1000" sorts first, so the 1000 room is returned | the numerically cheapest qualifying room | medium, not executed | Filters.CheapestPostByText (Filters.TextOrderPicksDearerRoom) | Filters.CheapestPost |
