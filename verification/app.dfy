/**
  The top-level component: the two feed requests, the normalisation of the
  fetched user and venue records, and the view that shows "Loading..." until
  the user select component has rendered.

  `stringToLower` is defined in a module that is not part of this model; it
  is passed to the normalisation functions as the parameter `lower`.
 */
module App {
  import opened Interfaces
  import opened Seqs
  import opened VenueResults

  /** What the HTTP driver is asked to fetch. */
  datatype RequestOptions = RequestOptions(category: string, url: string)

  /** The two feed requests, one per category, each naming the static file of its category. */
  function Requests(): (r: seq<RequestOptions>)
    ensures |r| == 2
    ensures r[0].category != r[1].category
    ensures {r[0].category, r[1].category} == {"users", "venues"}
    ensures forall k :: 0 <= k < |r| ==> r[k].url == "/" + r[k].category + ".json"
  {
    [RequestOptions("users", "/users.json"), RequestOptions("venues", "/venues.json")]
  }

  /** A user record as the users feed delivers it. */
  datatype RawUser = RawUser(name: string, drinks: seq<string>, wontEat: seq<string>)

  /** A venue record as the venues feed delivers it. */
  datatype RawVenue = RawVenue(name: string, drinks: seq<string>, food: seq<string>)

  function NormaliseUser(raw: RawUser, lower: string -> string): User
  {
    User(raw.name, Map(raw.wontEat, lower), Map(raw.drinks, lower))
  }

  /** A venue's food is built from its drinks, as the source does; the raw
      `food` field is not read. */
  function NormaliseVenue(raw: RawVenue, lower: string -> string): Venue
  {
    Venue(raw.name, Map(raw.drinks, lower), Map(raw.drinks, lower))
  }

  /** The users feed: one user per record, in order, with the name kept and
      every drink and every food they won't eat lower-cased. */
  function NormaliseUsers(body: seq<RawUser>, lower: string -> string): (r: seq<User>)
    ensures |r| == |body|
    ensures forall k :: 0 <= k < |body| ==>
      && r[k].name == body[k].name
      && |r[k].drinks| == |body[k].drinks|
      && |r[k].wontEat| == |body[k].wontEat|
    ensures forall k, j :: 0 <= k < |body| && 0 <= j < |body[k].drinks| ==>
      r[k].drinks[j] == lower(body[k].drinks[j])
    ensures forall k, j :: 0 <= k < |body| && 0 <= j < |body[k].wontEat| ==>
      r[k].wontEat[j] == lower(body[k].wontEat[j])
  {
    Map(body, (raw: RawUser) => NormaliseUser(raw, lower))
  }

  /** The venues feed: one venue per record, in order, with the name kept,
      every drink lower-cased, and the food list equal to the drink list. */
  function NormaliseVenues(body: seq<RawVenue>, lower: string -> string): (r: seq<Venue>)
    ensures |r| == |body|
    ensures forall k :: 0 <= k < |body| ==>
      && r[k].name == body[k].name
      && |r[k].drinks| == |body[k].drinks|
      && r[k].food == r[k].drinks
    ensures forall k, j :: 0 <= k < |body| && 0 <= j < |body[k].drinks| ==>
      r[k].drinks[j] == lower(body[k].drinks[j])
  {
    Map(body, (raw: RawVenue) => NormaliseVenue(raw, lower))
  }

  /** The raw `food` field has no effect on the normalised venue. */
  lemma RawFoodIgnored(raw: RawVenue, food: seq<string>, lower: string -> string)
    ensures NormaliseVenue(raw.(food := food), lower) == NormaliseVenue(raw, lower)
  {
  }

  /** A string is missing from a lower-cased list exactly when it differs
      from the lower-cased form of every item. */
  lemma AbsentFromLowered(x: string, items: seq<string>, lower: string -> string)
    ensures x !in Map(items, lower) <==> forall j :: 0 <= j < |items| ==> x != lower(items[j])
  {
    var lowered := Map(items, lower);
    if x in lowered {
      var j :| 0 <= j < |lowered| && lowered[j] == x;
      assert x == lower(items[j]);
    }
  }

  /** After normalisation a user can drink at a venue exactly when some drink
      of the venue and some drink of the user agree once lower-cased, so
      "Beer" matches "beer" whenever `lower` maps both to the same string. */
  lemma NormalisedCanDrink(user: RawUser, venue: RawVenue, lower: string -> string)
    ensures CanDrink(NormaliseVenue(venue, lower), NormaliseUser(user, lower)) <==>
      exists i, j :: 0 <= i < |venue.drinks| && 0 <= j < |user.drinks| &&
        lower(venue.drinks[i]) == lower(user.drinks[j])
  {
    var v, u := NormaliseVenue(venue, lower), NormaliseUser(user, lower);
    forall i | 0 <= i < |venue.drinks|
      ensures v.drinks[i] in u.drinks <==>
        exists j :: 0 <= j < |user.drinks| && lower(venue.drinks[i]) == lower(user.drinks[j])
    {
      assert v.drinks[i] == lower(venue.drinks[i]);
      AbsentFromLowered(v.drinks[i], user.drinks, lower);
    }
  }

  /** After normalisation a user can eat at a venue exactly when some
      lower-cased drink of the venue is not among the lower-cased foods the
      user won't eat: the venue's drinks stand in for its food. */
  lemma NormalisedCanEat(user: RawUser, venue: RawVenue, lower: string -> string)
    ensures CanEat(NormaliseVenue(venue, lower), NormaliseUser(user, lower)) <==>
      exists i :: 0 <= i < |venue.drinks| &&
        forall j :: 0 <= j < |user.wontEat| ==> lower(venue.drinks[i]) != lower(user.wontEat[j])
  {
    var v, u := NormaliseVenue(venue, lower), NormaliseUser(user, lower);
    assert |v.food| == |venue.drinks|;
    forall i | 0 <= i < |venue.drinks|
      ensures v.food[i] !in u.wontEat <==>
        forall j :: 0 <= j < |user.wontEat| ==> lower(venue.drinks[i]) != lower(user.wontEat[j])
    {
      assert v.food[i] == lower(venue.drinks[i]);
      AbsentFromLowered(v.food[i], user.wontEat, lower);
    }
  }

  /** The latest output of each child component, `null` before its first. */
  datatype ViewState<V> = ViewState(userSelectDOM: Option<V>, venueResultsDOM: Option<V>)

  /** An output of one of the two child components. */
  datatype Emission<V> = FromUserSelect(vnode: V) | FromVenueResults(vnode: V)

  /** Output k is the last one from the user select component. */
  predicate LastUserSelectAt<V>(emissions: seq<Emission<V>>, k: int)
  {
    && 0 <= k < |emissions|
    && emissions[k].FromUserSelect?
    && forall m :: k < m < |emissions| ==> !emissions[m].FromUserSelect?
  }

  /** Output k is the last one from the venue results component. */
  predicate LastVenueResultsAt<V>(emissions: seq<Emission<V>>, k: int)
  {
    && 0 <= k < |emissions|
    && emissions[k].FromVenueResults?
    && forall m :: k < m < |emissions| ==> !emissions[m].FromVenueResults?
  }

  /** The last output of a component is the final output if it came from
      that component, and otherwise its last output before the final one. */
  lemma LastInPrefix<V>(emissions: seq<Emission<V>>)
    requires |emissions| > 0
    ensures var n := |emissions| - 1;
      forall k :: LastUserSelectAt(emissions, k) ==>
        if emissions[n].FromUserSelect? then k == n else LastUserSelectAt(emissions[..n], k)
    ensures var n := |emissions| - 1;
      forall k :: LastVenueResultsAt(emissions, k) ==>
        if emissions[n].FromVenueResults? then k == n else LastVenueResultsAt(emissions[..n], k)
  {
  }

  /** What `xs.combine` of the two outputs, each started with `null`, holds
      after the given outputs: the last output of each component. */
  function LatestState<V>(emissions: seq<Emission<V>>): (r: ViewState<V>)
    ensures r.userSelectDOM.Some? <==> exists k :: 0 <= k < |emissions| && emissions[k].FromUserSelect?
    ensures r.venueResultsDOM.Some? <==> exists k :: 0 <= k < |emissions| && emissions[k].FromVenueResults?
    ensures |emissions| > 0 && emissions[|emissions| - 1].FromUserSelect? ==>
      r.userSelectDOM == Some(emissions[|emissions| - 1].vnode)
    ensures |emissions| > 0 && emissions[|emissions| - 1].FromVenueResults? ==>
      r.venueResultsDOM == Some(emissions[|emissions| - 1].vnode)
  {
    if |emissions| == 0 then ViewState(None, None)
    else
      var state := LatestState(emissions[..|emissions| - 1]);
      match emissions[|emissions| - 1]
      case FromUserSelect(v) => state.(userSelectDOM := Some(v))
      case FromVenueResults(v) => state.(venueResultsDOM := Some(v))
  }

  /** Each slot holds the vnode of its component's last output, however
      many outputs of the other component came after it. */
  lemma {:induction false} LatestStateHoldsLast<V>(emissions: seq<Emission<V>>)
    ensures forall k :: LastUserSelectAt(emissions, k) ==>
      LatestState(emissions).userSelectDOM == Some(emissions[k].vnode)
    ensures forall k :: LastVenueResultsAt(emissions, k) ==>
      LatestState(emissions).venueResultsDOM == Some(emissions[k].vnode)
  {
    if |emissions| > 0 {
      LastInPrefix(emissions);
      LatestStateHoldsLast(emissions[..|emissions| - 1]);
    }
  }

  /** The page: a loading message, or both child outputs. */
  datatype Page<V> = Loading | Loaded(userSelect: V, venueResults: Option<V>)

  /** `view`: loading while the user select component has not rendered;
      afterwards both outputs, the venue results possibly still absent. */
  function View<V>(state: ViewState<V>): (r: Page<V>)
    ensures r.Loading? <==> state.userSelectDOM.None?
    ensures r.Loaded? ==> Some(r.userSelect) == state.userSelectDOM && r.venueResults == state.venueResultsDOM
  {
    match state.userSelectDOM
    case None => Loading
    case Some(v) => Loaded(v, state.venueResultsDOM)
  }

  /** The page says "Loading..." exactly until the user select component first
      renders, and never again afterwards. */
  lemma LoadingUntilUserSelect<V>(emissions: seq<Emission<V>>, later: seq<Emission<V>>)
    ensures View(LatestState(emissions)).Loading? <==>
      forall k :: 0 <= k < |emissions| ==> !emissions[k].FromUserSelect?
    ensures !View(LatestState(emissions)).Loading? ==> !View(LatestState(emissions + later)).Loading?
  {
    if !View(LatestState(emissions)).Loading? {
      var k :| 0 <= k < |emissions| && emissions[k].FromUserSelect?;
      assert (emissions + later)[k] == emissions[k];
    }
  }
}
