/**
  The venue results component: for the selected users, decide which venues
  every one of them can both drink and eat at, and describe why the other
  venues fail.
 */
module VenueResults {
  import opened Interfaces
  import opened Seqs

  /** How one venue suits one user. */
  datatype UserVenueFit = UserVenueFit(canDrink: bool, canEat: bool, user: User)

  /** One venue with its fit for every selected user, in user order. */
  datatype VenueFitness = VenueFitness(venue: Venue, userFits: seq<UserVenueFit>)

  /** The venues everybody can go to, and the rest. */
  datatype VenuesPartition = VenuesPartition(valid: seq<VenueFitness>, invalid: seq<VenueFitness>)

  /** Some drink the venue pours is one the user drinks, by exact string equality. */
  function CanDrink(venue: Venue, user: User): (r: bool)
    ensures r <==> exists i :: 0 <= i < |venue.drinks| && venue.drinks[i] in user.drinks
  {
    var shared := Filter(venue.drinks, (drink: string) => IndexOf(user.drinks, drink) > -1);
    assert |shared| > 0 ==> shared[0] in shared;
    |shared| > 0
  }

  /** Some food the venue serves is not on the user's list of foods they won't eat. */
  function CanEat(venue: Venue, user: User): (r: bool)
    ensures r <==> exists i :: 0 <= i < |venue.food| && venue.food[i] !in user.wontEat
  {
    var acceptable := Filter(venue.food, (food: string) => IndexOf(user.wontEat, food) < 0);
    assert |acceptable| > 0 ==> acceptable[0] in acceptable;
    |acceptable| > 0
  }

  function Fit(venue: Venue, user: User): UserVenueFit
  {
    UserVenueFit(CanDrink(venue, user), CanEat(venue, user), user)
  }

  /** The fitness of every venue for every user: venues in order, and within
      each venue the users in order. */
  function VenueFitnesses(users: seq<User>, venues: seq<Venue>): (r: seq<VenueFitness>)
    ensures |r| == |venues|
    ensures forall k :: 0 <= k < |venues| ==> r[k].venue == venues[k] && |r[k].userFits| == |users|
    ensures forall k, j :: 0 <= k < |venues| && 0 <= j < |users| ==>
      var fit := r[k].userFits[j];
      && fit.user == users[j]
      && fit.canDrink == CanDrink(venues[k], users[j])
      && fit.canEat == CanEat(venues[k], users[j])
  {
    Map(venues, (venue: Venue) => VenueFitness(venue, Map(users, (user: User) => Fit(venue, user))))
  }

  /** The test a venue's fits must pass to be a place to go (`every`). */
  predicate AllCanEatAndDrink(vf: VenueFitness)
  {
    forall j :: 0 <= j < |vf.userFits| ==> vf.userFits[j].canDrink && vf.userFits[j].canEat
  }

  /** The test that makes a venue a place to avoid (`some`). */
  predicate SomeCannot(vf: VenueFitness)
  {
    exists j :: 0 <= j < |vf.userFits| && (!vf.userFits[j].canDrink || !vf.userFits[j].canEat)
  }

  /** `partitionVenues`: no result without users; otherwise the venues split,
      in order, into those every user can drink and eat at and the rest. */
  function PartitionVenues(users: seq<User>, venues: seq<Venue>): (r: Option<VenuesPartition>)
    ensures r.None? <==> |users| == 0
    ensures r.Some? ==> Interleaving(VenueFitnesses(users, venues), r.value.valid, r.value.invalid)
    ensures r.Some? ==> IsSubseq(r.value.valid, VenueFitnesses(users, venues))
    ensures r.Some? ==> IsSubseq(r.value.invalid, VenueFitnesses(users, venues))
    ensures r.Some? ==> forall vf :: vf in r.value.valid ==> AllCanEatAndDrink(vf)
    ensures r.Some? ==> forall vf :: vf in r.value.invalid ==> SomeCannot(vf) && !AllCanEatAndDrink(vf)
  {
    if |users| > 0 then
      var fitnesses := VenueFitnesses(users, venues);
      FilterSplit(fitnesses, AllCanEatAndDrink, SomeCannot);
      Some(VenuesPartition(Filter(fitnesses, AllCanEatAndDrink), Filter(fitnesses, SomeCannot)))
    else
      None
  }

  /** Every venue is a place to go or a place to avoid, never both, never neither. */
  lemma PartitionCoversVenues(users: seq<User>, venues: seq<Venue>)
    requires |users| > 0
    ensures var p := PartitionVenues(users, venues).value;
      && |p.valid| + |p.invalid| == |venues|
      && multiset(p.valid) + multiset(p.invalid) == multiset(VenueFitnesses(users, venues))
  {
    var p := PartitionVenues(users, venues).value;
    InterleavingCounts(VenueFitnesses(users, venues), p.valid, p.invalid);
  }

  /** A venue's fitness lands in the list whose test it passes. */
  lemma PartitionFollowsTests(users: seq<User>, venues: seq<Venue>, vf: VenueFitness)
    requires |users| > 0
    requires vf in VenueFitnesses(users, venues)
    ensures var p := PartitionVenues(users, venues).value;
      && (vf in p.valid <==> AllCanEatAndDrink(vf))
      && (vf in p.invalid <==> SomeCannot(vf))
  {
    var fitnesses := VenueFitnesses(users, venues);
    var p := PartitionVenues(users, venues).value;
    assert p.valid == Filter(fitnesses, AllCanEatAndDrink);
    assert p.invalid == Filter(fitnesses, SomeCannot);
  }

  /** The `every` test of the k-th venue, read in terms of the users. */
  lemma EveryTestReadsUsers(users: seq<User>, venues: seq<Venue>, k: int)
    requires 0 <= k < |venues|
    ensures var vf := VenueFitnesses(users, venues)[k];
      AllCanEatAndDrink(vf) <==>
        forall j :: 0 <= j < |users| ==> CanDrink(venues[k], users[j]) && CanEat(venues[k], users[j])
  {
  }

  /** The `some` test of the k-th venue, read in terms of the users. */
  lemma SomeTestReadsUsers(users: seq<User>, venues: seq<Venue>, k: int)
    requires 0 <= k < |venues|
    ensures var vf := VenueFitnesses(users, venues)[k];
      SomeCannot(vf) <==>
        exists j :: 0 <= j < |users| && (!CanDrink(venues[k], users[j]) || !CanEat(venues[k], users[j]))
  {
  }

  /** The k-th venue is a place to go exactly when every selected user can both
      drink and eat there, and a place to avoid exactly when some user cannot. */
  lemma {:induction false} VenueClassification(users: seq<User>, venues: seq<Venue>, k: int)
    requires |users| > 0
    requires 0 <= k < |venues|
    ensures var p := PartitionVenues(users, venues).value;
      var vf := VenueFitnesses(users, venues)[k];
      && vf.venue == venues[k]
      && (vf in p.valid <==>
            forall j :: 0 <= j < |users| ==> CanDrink(venues[k], users[j]) && CanEat(venues[k], users[j]))
      && (vf in p.invalid <==>
            exists j :: 0 <= j < |users| && (!CanDrink(venues[k], users[j]) || !CanEat(venues[k], users[j])))
  {
    PartitionFollowsTests(users, venues, VenueFitnesses(users, venues)[k]);
    EveryTestReadsUsers(users, venues, k);
    SomeTestReadsUsers(users, venues, k);
  }

  /** A venue with no food fails every user's food test. */
  lemma NoFoodNoEating(venue: Venue, user: User)
    requires |venue.food| == 0
    ensures !CanEat(venue, user)
  {
  }

  /** The sentence `userVenueFitnessView` writes about one user. */
  datatype Reason = CannotEatOrDrink | CannotDrink | CannotEat | CanEatAndDrinkHere

  /** The reason shown for a fit: each combination of the two flags has its own. */
  function ChooseReason(fit: UserVenueFit): (r: Reason)
    ensures r == CannotEatOrDrink <==> !fit.canDrink && !fit.canEat
    ensures r == CannotDrink <==> !fit.canDrink && fit.canEat
    ensures r == CannotEat <==> fit.canDrink && !fit.canEat
    ensures r == CanEatAndDrinkHere <==> fit.canDrink && fit.canEat
  {
    if !fit.canDrink && !fit.canEat then CannotEatOrDrink
    else if !fit.canDrink then CannotDrink
    else if !fit.canEat then CannotEat
    else CanEatAndDrinkHere
  }

  function ReasonSuffix(reason: Reason): string
  {
    match reason
    case CannotEatOrDrink => " cannot eat or drink."
    case CannotDrink => " cannot drink."
    case CannotEat => " cannot eat."
    case CanEatAndDrinkHere => " can eat and drink here."
  }

  /** The text shown for one user under a venue to avoid. */
  function ReasonText(fit: UserVenueFit): (r: string)
    ensures r == fit.user.name + " cannot eat or drink." <==> !fit.canDrink && !fit.canEat
    ensures r == fit.user.name + " cannot drink." <==> !fit.canDrink && fit.canEat
    ensures r == fit.user.name + " cannot eat." <==> fit.canDrink && !fit.canEat
    ensures r == fit.user.name + " can eat and drink here." <==> fit.canDrink && fit.canEat
  {
    fit.user.name + ReasonSuffix(ChooseReason(fit))
  }

  /** The fits listed under a venue to avoid: those of users who cannot drink or cannot eat. */
  function FailingFits(vf: VenueFitness): (r: seq<UserVenueFit>)
    ensures IsSubseq(r, vf.userFits)
    ensures |r| > 0 <==> SomeCannot(vf)
    ensures forall fit :: fit in r ==> ChooseReason(fit) != CanEatAndDrinkHere
    ensures forall fit :: multiset(r)[fit] == (if !fit.canDrink || !fit.canEat then multiset(vf.userFits)[fit] else 0)
  {
    var failing := Filter(vf.userFits, (fit: UserVenueFit) => !fit.canDrink || !fit.canEat);
    assert |failing| > 0 ==> failing[0] in failing;
    failing
  }

  /** A venue to avoid, with one line per user it fails. */
  datatype Avoided = Avoided(venueName: string, reasons: seq<string>)

  /** What the results view shows: a prompt, or the two lists of venues. */
  datatype ResultsView = SelectPrompt | Listing(placesToGo: seq<string>, placesToAvoid: seq<Avoided>)

  /** The name a venue is listed under. */
  function FitnessName(vf: VenueFitness): string
  {
    vf.venue.name
  }

  /** The entry of a venue to avoid: its name and one reason per failing user. */
  function AvoidedEntry(vf: VenueFitness): Avoided
  {
    Avoided(vf.venue.name, Map(FailingFits(vf), ReasonText))
  }

  function AvoidedName(a: Avoided): string
  {
    a.venueName
  }

  function VenueName(v: Venue): string
  {
    v.name
  }

  /** `venueResultsView`: the prompt when there is no partition, else the
      names of the places to go and, per place to avoid, its reasons. */
  function VenueResultsView(partition: Option<VenuesPartition>): (r: ResultsView)
    ensures r.SelectPrompt? <==> partition.None?
    ensures partition.Some? ==>
      && |r.placesToGo| == |partition.value.valid|
      && |r.placesToAvoid| == |partition.value.invalid|
    ensures partition.Some? ==> forall k :: 0 <= k < |partition.value.valid| ==>
      r.placesToGo[k] == partition.value.valid[k].venue.name
    ensures partition.Some? ==> forall k :: 0 <= k < |partition.value.invalid| ==>
      && r.placesToAvoid[k].venueName == partition.value.invalid[k].venue.name
      && |r.placesToAvoid[k].reasons| == |FailingFits(partition.value.invalid[k])|
      && forall j :: 0 <= j < |r.placesToAvoid[k].reasons| ==>
        r.placesToAvoid[k].reasons[j] == ReasonText(FailingFits(partition.value.invalid[k])[j])
  {
    match partition
    case None => SelectPrompt
    case Some(p) => Listing(Map(p.valid, FitnessName), Map(p.invalid, AvoidedEntry))
  }

  /** With users selected, the names of the places to go and of the places
      to avoid merge back, in order, into the names of the venues. */
  lemma ListedNamesMerge(users: seq<User>, venues: seq<Venue>)
    requires |users| > 0
    ensures var v := VenueResultsView(PartitionVenues(users, venues));
      Interleaving(Map(venues, VenueName), v.placesToGo, Map(v.placesToAvoid, AvoidedName))
  {
    var fitnesses := VenueFitnesses(users, venues);
    var p := PartitionVenues(users, venues).value;
    MapInterleaving(fitnesses, p.valid, p.invalid, FitnessName);
    FitnessNames(users, venues);
    ListedNames(p);
  }

  /** The venue fitnesses list the venues' names in venue order. */
  lemma FitnessNames(users: seq<User>, venues: seq<Venue>)
    ensures Map(VenueFitnesses(users, venues), FitnessName) == Map(venues, VenueName)
  {
    var fitnesses := VenueFitnesses(users, venues);
    forall k | 0 <= k < |venues|
      ensures Map(fitnesses, FitnessName)[k] == Map(venues, VenueName)[k]
    {
      assert fitnesses[k].venue == venues[k];
    }
  }

  /** The view lists the names of the places to go and to avoid in partition order. */
  lemma ListedNames(p: VenuesPartition)
    ensures var v := VenueResultsView(Some(p));
      && Map(p.valid, FitnessName) == v.placesToGo
      && Map(p.invalid, FitnessName) == Map(v.placesToAvoid, AvoidedName)
  {
  }

  /** Shown for a selection: nothing but the prompt without users; otherwise
      the places to go and the places to avoid merge back, in order, into the
      venue list, and every venue to avoid gives at least one reason. */
  lemma {:induction false} ResultsViewOfSelection(users: seq<User>, venues: seq<Venue>)
    ensures var v := VenueResultsView(PartitionVenues(users, venues));
      && (v.SelectPrompt? <==> |users| == 0)
      && (v.Listing? ==> |v.placesToGo| + |v.placesToAvoid| == |venues|)
      && (v.Listing? ==> Interleaving(Map(venues, VenueName), v.placesToGo, Map(v.placesToAvoid, AvoidedName)))
      && (v.Listing? ==> forall k :: 0 <= k < |v.placesToAvoid| ==> |v.placesToAvoid[k].reasons| > 0)
  {
    if |users| > 0 {
      PartitionCoversVenues(users, venues);
      ListedNamesMerge(users, venues);
      var p := PartitionVenues(users, venues).value;
      forall k | 0 <= k < |p.invalid|
        ensures |FailingFits(p.invalid[k])| > 0
      {
        assert p.invalid[k] in p.invalid;
      }
    }
  }

  /** Alice drinks beer and won't eat fish; Bar1 pours beer and serves fish
      and chips, so she can go: chips are food she eats. */
  lemma ScenarioPlaceToGo()
    ensures var alice := User("Alice", ["fish"], ["beer"]);
      var bar1 := Venue("Bar1", ["fish", "chips"], ["beer"]);
      PartitionVenues([alice], [bar1]) ==
        Some(VenuesPartition([VenueFitness(bar1, [UserVenueFit(true, true, alice)])], []))
  {
    var alice := User("Alice", ["fish"], ["beer"]);
    var bar1 := Venue("Bar1", ["fish", "chips"], ["beer"]);
    assert bar1.drinks[0] in alice.drinks;
    assert bar1.food[1] !in alice.wontEat;
    assert CanDrink(bar1, alice) && CanEat(bar1, alice);
    var fitnesses := VenueFitnesses([alice], [bar1]);
    assert |fitnesses| == 1 && |fitnesses[0].userFits| == 1;
    assert fitnesses[0].userFits[0] == UserVenueFit(true, true, alice);
    assert fitnesses[0].userFits == [UserVenueFit(true, true, alice)];
    assert fitnesses[0] == VenueFitness(bar1, [UserVenueFit(true, true, alice)]);
    assert fitnesses == [VenueFitness(bar1, [UserVenueFit(true, true, alice)])];
  }

  /** Bar2 pours only wine and serves only fish: Alice must avoid it, and the
      reason given is that she can neither eat nor drink there. */
  lemma ScenarioPlaceToAvoid()
    ensures var alice := User("Alice", ["fish"], ["beer"]);
      var bar2 := Venue("Bar2", ["fish"], ["wine"]);
      var fit := UserVenueFit(false, false, alice);
      && PartitionVenues([alice], [bar2]) == Some(VenuesPartition([], [VenueFitness(bar2, [fit])]))
      && ChooseReason(fit) == CannotEatOrDrink
  {
    var alice := User("Alice", ["fish"], ["beer"]);
    var bar2 := Venue("Bar2", ["fish"], ["wine"]);
    assert bar2.drinks[0] !in alice.drinks by {
      assert "wine"[0] != "beer"[0];
    }
    assert bar2.food[0] in alice.wontEat;
    assert !CanDrink(bar2, alice) && !CanEat(bar2, alice);
    var fitnesses := VenueFitnesses([alice], [bar2]);
    assert |fitnesses| == 1 && |fitnesses[0].userFits| == 1;
    assert fitnesses[0].userFits[0] == UserVenueFit(false, false, alice);
    assert fitnesses[0].userFits == [UserVenueFit(false, false, alice)];
    assert fitnesses[0] == VenueFitness(bar2, [UserVenueFit(false, false, alice)]);
    assert fitnesses == [VenueFitness(bar2, [UserVenueFit(false, false, alice)])];
  }
}
