/**
  The wish-list view model (`RestaurantViewModel`): an in-memory list of
  restaurant records, the favourites derived from it by filtering on the
  favourite flag, and the toggle that flips that flag on the first record
  whose id matches.
 */
module Favorites {
  import opened Wrappers

  /** A restaurant's identity (a `UUID` in the app; only equality matters). */
  type Id = nat

  /** One `SpotRestaurant` record. */
  datatype SpotRestaurant = SpotRestaurant(id: Id, image: string, name: string, hours: string, rating: real, isFavorite: bool)

  /** The same record with its favourite flag flipped (`isFavorite.toggle()`). */
  function Flipped(r: SpotRestaurant): SpotRestaurant {
    r.(isFavorite := !r.isFavorite)
  }

  // ---------------------------------------------------------------------------
  // The derived favourites view

  /** `localRestaurants.filter { $0.isFavorite }`. */
  function FavoritesOf(rs: seq<SpotRestaurant>): (fs: seq<SpotRestaurant>)
    ensures |fs| <= |rs|
    ensures forall k :: 0 <= k < |fs| ==> fs[k].isFavorite && fs[k] in rs
  {
    if rs == [] then []
    else if rs[0].isFavorite then [rs[0]] + FavoritesOf(rs[1..])
    else FavoritesOf(rs[1..])
  }

  /** The positions, from `from` on, of the favourite records, in increasing order. */
  function FavoritePositions(rs: seq<SpotRestaurant>, from: nat): (ix: seq<nat>)
    requires from <= |rs|
    ensures forall k :: 0 <= k < |ix| ==> from <= ix[k] < |rs|
    decreases |rs| - from
  {
    if from == |rs| then []
    else (if rs[from].isFavorite then [from] else []) + FavoritePositions(rs, from + 1)
  }

  /** The positions a favourite is taken from strictly increase, and are exactly those of favourite records. */
  lemma {:induction false} FavoritePositionsExact(rs: seq<SpotRestaurant>, from: nat)
    requires from <= |rs|
    ensures var ix := FavoritePositions(rs, from);
            (forall k, l :: 0 <= k < l < |ix| ==> ix[k] < ix[l])
            && forall i :: from <= i < |rs| ==> (i in ix <==> rs[i].isFavorite)
    decreases |rs| - from
  {
    if from < |rs| {
      FavoritePositionsExact(rs, from + 1);
    }
  }

  /** The k-th favourite of `rs[from..]` is the record at the k-th favourite position. */
  lemma {:induction false} FavoritesAtPositions(rs: seq<SpotRestaurant>, from: nat)
    requires from <= |rs|
    ensures |FavoritesOf(rs[from..])| == |FavoritePositions(rs, from)|
    ensures forall k :: 0 <= k < |FavoritePositions(rs, from)| ==>
              FavoritesOf(rs[from..])[k] == rs[FavoritePositions(rs, from)[k]]
    decreases |rs| - from
  {
    if from < |rs| {
      FavoritesAtPositions(rs, from + 1);
      assert rs[from..][0] == rs[from];
      assert rs[from..][1..] == rs[from + 1..];
    }
  }

  /**
    `favoriteRestaurants` is exactly the favourite records of the list, in
    list order: the k-th favourite is the record at the k-th favourite
    position, the positions strictly increase, and a position is one of them
    exactly when its record is a favourite.
   */
  lemma FavoritesAreOrderedSubsequence(rs: seq<SpotRestaurant>)
    ensures var fs, ix := FavoritesOf(rs), FavoritePositions(rs, 0);
            |fs| == |ix|
            && (forall k :: 0 <= k < |ix| ==> fs[k] == rs[ix[k]])
            && (forall k, l :: 0 <= k < l < |ix| ==> ix[k] < ix[l])
            && forall i :: 0 <= i < |rs| ==> (i in ix <==> rs[i].isFavorite)
  {
    FavoritesAtPositions(rs, 0);
    FavoritePositionsExact(rs, 0);
    assert rs[0..] == rs;
  }

  /** A record is among the favourites exactly when it is in the list with its flag set. */
  lemma {:induction false} InFavoritesIff(rs: seq<SpotRestaurant>, x: SpotRestaurant)
    ensures x in FavoritesOf(rs) <==> x in rs && x.isFavorite
  {
    if rs != [] {
      InFavoritesIff(rs[1..], x);
      assert rs == [rs[0]] + rs[1..];
    }
  }

  // ---------------------------------------------------------------------------
  // Finding and toggling a record

  /** `firstIndex(where: { $0.id == id })` as a specification. */
  function FirstMatch(rs: seq<SpotRestaurant>, id: Id): (r: Option<nat>)
    ensures r.Some? ==> r.value < |rs| && rs[r.value].id == id
                        && forall j :: 0 <= j < r.value ==> rs[j].id != id
    ensures r.None? <==> forall j :: 0 <= j < |rs| ==> rs[j].id != id
  {
    if rs == [] then None
    else if rs[0].id == id then Some(0)
    else match FirstMatch(rs[1..], id)
      case None => None
      case Some(i) => Some(i + 1)
  }

  /** The list after `toggleFavorite` for a record with this id. */
  function Toggle(rs: seq<SpotRestaurant>, id: Id): seq<SpotRestaurant> {
    match FirstMatch(rs, id)
    case None => rs
    case Some(i) => rs[i := Flipped(rs[i])]
  }

  /**
    What a toggle changes: the length stays, the first record with the id has
    its flag flipped and every other field kept, and every other record is
    left as it was; with no record of that id nothing changes.
   */
  lemma ToggleEffect(rs: seq<SpotRestaurant>, id: Id)
    ensures |Toggle(rs, id)| == |rs|
    ensures (forall j :: 0 <= j < |rs| ==> rs[j].id != id) ==> Toggle(rs, id) == rs
    ensures forall i :: 0 <= i < |rs| && rs[i].id == id && (forall j :: 0 <= j < i ==> rs[j].id != id) ==>
              Toggle(rs, id)[i].isFavorite == !rs[i].isFavorite
              && Toggle(rs, id)[i] == rs[i].(isFavorite := Toggle(rs, id)[i].isFavorite)
              && forall j :: 0 <= j < |rs| && j != i ==> Toggle(rs, id)[j] == rs[j]
  {
    forall i | 0 <= i < |rs| && rs[i].id == id && (forall j :: 0 <= j < i ==> rs[j].id != id)
      ensures FirstMatch(rs, id) == Some(i)
    {
      FirstMatchAt(rs, id, i);
    }
  }

  /** The first position holding the id is the one `FirstMatch` finds. */
  lemma FirstMatchAt(rs: seq<SpotRestaurant>, id: Id, i: nat)
    requires i < |rs| && rs[i].id == id
    requires forall j :: 0 <= j < i ==> rs[j].id != id
    ensures FirstMatch(rs, id) == Some(i)
  {
  }

  /** Toggling keeps every id where it was, so the same record is found again. */
  lemma {:induction false} FirstMatchIgnoresFlags(rs: seq<SpotRestaurant>, ts: seq<SpotRestaurant>, id: Id)
    requires |rs| == |ts|
    requires forall j :: 0 <= j < |rs| ==> rs[j].id == ts[j].id
    ensures FirstMatch(rs, id) == FirstMatch(ts, id)
  {
    if rs != [] {
      FirstMatchIgnoresFlags(rs[1..], ts[1..], id);
    }
  }

  /** A toggle changes flags only, so every position keeps its id. */
  lemma ToggleKeepsIds(rs: seq<SpotRestaurant>, id: Id)
    ensures |Toggle(rs, id)| == |rs|
    ensures forall j :: 0 <= j < |rs| ==> Toggle(rs, id)[j].id == rs[j].id
    ensures UniqueIds(rs) ==> UniqueIds(Toggle(rs, id))
  {
  }

  /** Toggling the same restaurant twice restores the original list. */
  lemma ToggleTwice(rs: seq<SpotRestaurant>, id: Id)
    ensures Toggle(Toggle(rs, id), id) == rs
  {
    var once := Toggle(rs, id);
    FirstMatchIgnoresFlags(rs, once, id);
  }

  /** Some favourite carries this id. */
  predicate IsFavoriteId(rs: seq<SpotRestaurant>, id: Id) {
    exists k :: 0 <= k < |FavoritesOf(rs)| && FavoritesOf(rs)[k].id == id
  }

  predicate UniqueIds(rs: seq<SpotRestaurant>) {
    forall i, j :: 0 <= i < j < |rs| ==> rs[i].id != rs[j].id
  }

  lemma IsFavoriteIdIff(rs: seq<SpotRestaurant>, id: Id)
    ensures IsFavoriteId(rs, id) <==> exists i :: 0 <= i < |rs| && rs[i].id == id && rs[i].isFavorite
  {
    var fs := FavoritesOf(rs);
    if IsFavoriteId(rs, id) {
      var k :| 0 <= k < |fs| && fs[k].id == id;
      assert fs[k] in rs;
      var i :| 0 <= i < |rs| && rs[i] == fs[k];
    }
    if i :| 0 <= i < |rs| && rs[i].id == id && rs[i].isFavorite {
      InFavoritesIff(rs, rs[i]);
      var k :| 0 <= k < |fs| && fs[k] == rs[i];
    }
  }

  /**
    After toggling a restaurant that is in the list, it is among the
    favourites exactly when it was not before: the record itself moves in or
    out of the favourites, and, ids being unique as `UUID`s are, so does its id.
   */
  lemma ToggleFlipsFavorite(rs: seq<SpotRestaurant>, id: Id)
    requires exists j :: 0 <= j < |rs| && rs[j].id == id
    ensures FirstMatch(rs, id).Some?
    ensures var i := FirstMatch(rs, id).value;
            Toggle(rs, id)[i] in FavoritesOf(Toggle(rs, id)) <==> rs[i] !in FavoritesOf(rs)
    ensures UniqueIds(rs) ==> (IsFavoriteId(Toggle(rs, id), id) <==> !IsFavoriteId(rs, id))
  {
    var i := FirstMatch(rs, id).value;
    var ts := Toggle(rs, id);
    InFavoritesIff(rs, rs[i]);
    InFavoritesIff(ts, ts[i]);
    if UniqueIds(rs) {
      IsFavoriteIdIff(rs, id);
      IsFavoriteIdIff(ts, id);
      assert forall j :: 0 <= j < |rs| && rs[j].id == id ==> j == i;
    }
  }

  /** Toggling a present restaurant grows or shrinks the favourites by exactly one. */
  lemma {:induction false} ToggleChangesFavoriteCount(rs: seq<SpotRestaurant>, i: nat)
    requires i < |rs|
    ensures |FavoritesOf(rs[i := Flipped(rs[i])])| == |FavoritesOf(rs)| + (if rs[i].isFavorite then -1 else 1)
  {
    if i > 0 {
      ToggleChangesFavoriteCount(rs[1..], i - 1);
      assert rs[i := Flipped(rs[i])][1..] == rs[1..][i - 1 := Flipped(rs[1..][i - 1])];
    } else {
      assert rs[i := Flipped(rs[i])][1..] == rs[1..];
    }
  }

  /** The three records the view model starts with, in this order, given their fresh ids. */
  function SeedRestaurants(id1: Id, id2: Id, id3: Id): seq<SpotRestaurant> {
    [ SpotRestaurant(id1, "1", "상무초밥 송도직영점", "영업 시간: 11:00 - 21:30", 4.5, false),
      SpotRestaurant(id2, "2", "건강밥상마니 송도점", "영업 시간: 11:00 - 22:00", 4.2, false),
      SpotRestaurant(id3, "3", "송도 슈블라", "영업 시간: 11:00 - 21:00", 4.4, false) ]
  }

  /** The seed list starts with no favourites. */
  lemma SeedHasNoFavorites(id1: Id, id2: Id, id3: Id)
    ensures |SeedRestaurants(id1, id2, id3)| == 3
    ensures FavoritesOf(SeedRestaurants(id1, id2, id3)) == []
  {
    var s := SeedRestaurants(id1, id2, id3);
    assert FavoritesOf(s) == FavoritesOf(s[1..]);
    assert FavoritesOf(s[1..]) == FavoritesOf(s[2..]) by { assert s[1..][1..] == s[2..]; }
    assert FavoritesOf(s[2..]) == [] by { assert s[2..][1..] == []; }
  }

  // ---------------------------------------------------------------------------
  // The observable object

  /** `RestaurantViewModel`: owns the list and publishes it. */
  class RestaurantViewModel {
    var localRestaurants: seq<SpotRestaurant>

    /** The seed list; each `SpotRestaurant` draws a fresh `UUID`, taken here as three distinct arguments. */
    constructor (id1: Id, id2: Id, id3: Id)
      requires id1 != id2 && id1 != id3 && id2 != id3
      ensures localRestaurants == SeedRestaurants(id1, id2, id3)
      ensures |localRestaurants| == 3 && FavoriteRestaurants() == []
      ensures UniqueIds(localRestaurants)
    {
      localRestaurants := SeedRestaurants(id1, id2, id3);
      SeedHasNoFavorites(id1, id2, id3);
    }

    /** `favoriteRestaurants`, recomputed from the list on every read. */
    function FavoriteRestaurants(): (fs: seq<SpotRestaurant>)
      reads this
      ensures forall x :: x in fs <==> x in localRestaurants && x.isFavorite
    {
      var fs := FavoritesOf(localRestaurants);
      assert forall x :: x in fs <==> x in localRestaurants && x.isFavorite by {
        forall x ensures x in fs <==> x in localRestaurants && x.isFavorite {
          InFavoritesIff(localRestaurants, x);
        }
      }
      fs
    }

    /** `firstIndex(where:)`: a linear search from the front. */
    static method FirstIndex(rs: seq<SpotRestaurant>, id: Id) returns (r: Option<nat>)
      ensures r == FirstMatch(rs, id)
    {
      var i := 0;
      while i < |rs|
        invariant 0 <= i <= |rs|
        invariant forall j :: 0 <= j < i ==> rs[j].id != id
      {
        if rs[i].id == id {
          r := Some(i);
          FirstMatchAt(rs, id, i);
          return;
        }
        i := i + 1;
      }
      r := None;
    }

    /** `toggleFavorite(for:)`: flips the flag of the first record with the same id, if any. */
    method ToggleFavorite(restaurant: SpotRestaurant)
      modifies this
      ensures localRestaurants == Toggle(old(localRestaurants), restaurant.id)
      ensures |localRestaurants| == |old(localRestaurants)|
      ensures UniqueIds(old(localRestaurants)) ==> UniqueIds(localRestaurants)
    {
      ToggleKeepsIds(localRestaurants, restaurant.id);
      var found := FirstIndex(localRestaurants, restaurant.id);
      match found {
        case None =>
        case Some(index) =>
          localRestaurants := localRestaurants[index := Flipped(localRestaurants[index])];
      }
    }
  }
}
