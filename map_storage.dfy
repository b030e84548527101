/**
 * The in-memory backend (`MapStorage`): three maps updated in place under a
 * mutex. `Locations` maps an id to its URL, `Users` a user to the ids it
 * created, `Deleted` an id to its deletion mark. The ghost fields `Urls` and
 * `Owners` record the stored URLs in creation order and who created each;
 * `Valid()` ties the maps to them as `MapModel` describes.
 */
module MapBackend {
  import opened Common
  import opened Decimal
  import opened MapModel
  import opened Configuration

  class MapStorage {
    const Cfg: Config
    var Locations: map<string, string>
    var Users: map<string, seq<string>>
    var Deleted: map<string, bool>
    ghost var Urls: seq<string>
    ghost var Owners: seq<string>

    ghost predicate Valid()
      reads this
    {
      Mirrors(Locations, Users, Deleted, Urls, Owners)
    }

    /** `NewMapStorage`: all three maps empty. */
    constructor (cfg: Config)
      ensures Valid() && Cfg == cfg
      ensures Urls == [] && Owners == [] && Deleted == map[]
    {
      Cfg := cfg;
      Locations, Users, Deleted := map[], map[], map[];
      Urls, Owners := [], [];
    }

    /** `PingDB`: there is no medium to reach. */
    function PingDB(): Option<Error>
    {
      None
    }

    /**
     * The inner loop of `CreateShort`: a scan of `Locations`, in the map's
     * unspecified order, for an id that holds `longURL`.
     */
    method FindURL(longURL: string) returns (found: bool, id: string)
      requires Valid()
      ensures found == (longURL in Urls)
      ensures found ==> id == Sprint(IndexOf(Urls, longURL) + 1)
    {
      found, id := false, "";
      var keys := Locations.Keys;
      while keys != {} && !found
        invariant keys <= Locations.Keys
        invariant found ==> id in Locations && Locations[id] == longURL
        invariant !found ==> forall k :: k in Locations && k !in keys ==> Locations[k] != longURL
        decreases |keys|
      {
        var k :| k in keys;
        if Locations[k] == longURL {
          found, id := true, k;
        }
        keys := keys - {k};
      }
      if found {
        LocationsFind(Urls, longURL, id);
      } else if longURL in Urls {
        LocationAt(Urls, IndexOf(Urls, longURL) + 1);
      }
    }

    /**
     * `CreateShort`: validates and stores the URLs one by one, as `CreateRun`
     * says. A URL already stored yields its existing id and makes the call
     * return `ErrExists`; an invalid URL ends the call with nil and "wrong
     * url", keeping what the URLs before it stored.
     */
    method CreateShort(userID: string, urls: seq<string>, isURI: string -> bool) returns (result: Option<seq<string>>, err: Option<Error>)
      requires Valid()
      modifies this
      ensures Valid()
      ensures var c := CreateRun(old(Urls), old(Owners), userID, urls, isURI);
        && (result, err) == Outcome(c)
        && Urls == c.urls && Owners == c.owners
      ensures Deleted == old(Deleted)
      ensures result.Some? ==>
        && |result.value| == |urls|
        && forall j :: 0 <= j < |urls| ==> result.value[j] in Locations && Locations[result.value[j]] == urls[j]
    {
      var ids, known, bad := StoreAll(userID, urls, isURI);
      if bad.Some? {
        return None, Some(WrongURL(bad.value));
      }
      RunIdsResolve(old(Urls), old(Owners), userID, urls, isURI);
      assert Resolves(ids, Urls, urls);
      result, err := Some(ids), if known then Some(ErrExists) else None;
    }

    /**
     * The loop of `CreateShort`: the ids so far, whether some URL was known,
     * and the invalid URL that stopped it, with the store as `CreateRun` says.
     */
    method StoreAll(userID: string, urls: seq<string>, isURI: string -> bool) returns (ids: seq<string>, known: bool, bad: Option<string>)
      requires Valid()
      modifies this`Locations, this`Users, this`Urls, this`Owners
      ensures Valid()
      ensures CreateRun(old(Urls), old(Owners), userID, urls, isURI) == Created(Urls, Owners, ids, known, bad)
    {
      ghost var urls0, owners0 := Urls, Owners;
      ids, known, bad := [], false, None;
      var i := 0;
      while i < |urls|
        invariant 0 <= i <= |urls| && Valid()
        invariant CreateRun(urls0, owners0, userID, urls[..i], isURI) == Created(Urls, Owners, ids, known, None)
      {
        var longURL := urls[i];
        ghost var prev := Created(Urls, Owners, ids, known, None);
        if !isURI(longURL) {
          RunStopsAt(urls0, owners0, userID, urls, i, isURI, prev);
          return ids, known, Some(longURL);
        }
        var id, found := Shorten(userID, longURL);
        RunTurn(urls0, owners0, userID, urls, i, isURI, prev, id, found, Urls, Owners);
        ids, known := ids + [id], known || found;
        i := i + 1;
      }
      assert urls[..i] == urls;
    }

    /** One turn of the loop of `CreateShort` for a valid URL: the existing id, or a new one under which the URL is stored. */
    method Shorten(userID: string, longURL: string) returns (id: string, found: bool)
      requires Valid()
      modifies this`Locations, this`Users, this`Urls, this`Owners
      ensures Valid()
      ensures (Urls, Owners, id, found) == Put(old(Urls), old(Owners), userID, longURL)
    {
      found, id := FindURL(longURL);
      if !found {
        id := Store(userID, longURL);
      }
    }

    /** The write of `CreateShort` for a URL not stored yet: it goes under the next id, which joins the creator's list. */
    method Store(userID: string, longURL: string) returns (id: string)
      requires Valid() && longURL !in Urls
      modifies this`Locations, this`Users, this`Urls, this`Owners
      ensures Valid()
      ensures Urls == old(Urls) + [longURL] && Owners == old(Owners) + [userID]
      ensures id == Sprint(|Urls|)
    {
      StoreMirrors(Locations, Users, Deleted, Urls, Owners, userID, longURL);
      id := Sprint(|Locations| + 1);
      Locations := Locations[id := longURL];
      Users := Users[userID := (if userID in Users then Users[userID] else []) + [id]];
      Urls, Owners := Urls + [longURL], Owners + [userID];
    }

    /** `GetOriginal`: "k" yields the k-th URL, with `ErrDeleted` when it is marked; an unknown id yields "" and `ErrNotFound`. */
    function GetOriginal(id: string): (r: (string, Option<Error>))
      reads this
      ensures Valid() ==> forall k :: 1 <= k <= |Urls| && id == Sprint(k) ==> r.0 == Urls[k - 1] && r.1 != Some(ErrNotFound)
      ensures Valid() ==> (r == ("", Some(ErrNotFound)) <==> forall k :: 1 <= k <= |Urls| ==> id != Sprint(k))
      ensures r.1 == None || r.1 == Some(ErrDeleted) || r.1 == Some(ErrNotFound)
      ensures r.1 == Some(ErrDeleted) <==> id in Deleted && Deleted[id] && id in Locations
    {
      LocationsOfShape(Urls);
      KeyOfStored(Locations, Urls, id);
      if id in Locations then
        (Locations[id], if id in Deleted && Deleted[id] then Some(ErrDeleted) else None)
      else
        ("", Some(ErrNotFound))
    }

    /** The inner loop of `MarkAsDeleted`: does `userID`'s list hold `id`? */
    method Owns(userID: string, id: string) returns (owned: bool)
      requires Valid()
      ensures owned == (userID in Owners && id in IdsOf(Owners, userID))
    {
      owned := false;
      if userID in Users {
        var can := Users[userID];
        var j := 0;
        while j < |can| && !owned
          invariant 0 <= j <= |can|
          invariant owned == (id in can[..j])
        {
          owned := can[j] == id;
          assert can[..j + 1] == can[..j] + [can[j]];
          j := j + 1;
        }
        assert !owned ==> can[..j] == can;
      }
    }

    /** Whether `userID` created the URL stored under `id`. */
    ghost predicate Owned(userID: string, id: string)
      reads this
    {
      userID in Owners && id in IdsOf(Owners, userID)
    }

    /** The loop of `MarkAsDeleted`: the marks after marking every id of `ids` that `userID` created. */
    method MarksAfter(userID: string, ids: seq<string>) returns (del: map<string, bool>)
      requires Valid()
      ensures del == Deleted + map id | id in ids && Owned(userID, id) :: true
      ensures forall id :: id in del ==> id in Locations && del[id]
    {
      del := Deleted;
      var i := 0;
      while i < |ids|
        invariant 0 <= i <= |ids|
        invariant forall id :: id in del <==> id in Deleted || (id in ids[..i] && Owned(userID, id))
        invariant forall id :: id in del ==> id in Locations && del[id]
      {
        var owned := Owns(userID, ids[i]);
        if owned {
          UsersWithinLocations(Urls, Owners, userID, ids[i]);
          del := del[ids[i] := true];
        }
        assert ids[..i + 1] == ids[..i] + [ids[i]];
        i := i + 1;
      }
      assert ids[..i] == ids;
    }

    /** `MarkAsDeleted`: marks the ids of `ids` that `userID` created and ignores the rest; never fails. */
    method MarkAsDeleted(userID: string, ids: seq<string>) returns (err: Option<Error>)
      requires Valid()
      modifies this`Deleted
      ensures Valid() && err == None
      ensures Deleted == old(Deleted) + map id | id in ids && Owned(userID, id) :: true
    {
      var del := MarksAfter(userID, ids);
      Deleted := del;
      err := None;
    }

    /** `GetURLArrayByUser`: the user's links in creation order, each with its URL; never nil and never fails. */
    method GetURLArrayByUser(userID: string) returns (history: Option<seq<URLs>>, err: Option<Error>)
      requires Valid()
      ensures err == None && history.Some?
      ensures var mine := IdsOf(Owners, userID);
        && |history.value| == |mine|
        && forall i :: 0 <= i < |mine| ==>
             mine[i] in LocationsOf(Urls)
             && history.value[i] == URLs(ShortLink(Cfg.BaseURL, mine[i]), LocationsOf(Urls)[mine[i]])
    {
      var allShort := if userID in Users then Users[userID] else [];
      assert allShort == IdsOf(Owners, userID) by {
        if userID !in Owners {
          IdsOfAbsent(Owners, userID);
        }
      }
      IdsWithinLocations(Urls, Owners, userID);
      var h: seq<URLs> := [];
      var i := 0;
      while i < |allShort|
        invariant 0 <= i <= |allShort| && |h| == i
        invariant forall j :: 0 <= j < i ==> allShort[j] in Locations && h[j] == URLs(ShortLink(Cfg.BaseURL, allShort[j]), Locations[allShort[j]])
      {
        var id := allShort[i];
        var original := if id in Locations then Locations[id] else "";
        h := h + [URLs(ShortLink(Cfg.BaseURL, id), original)];
        i := i + 1;
      }
      history, err := Some(h), None;
    }

    /** `GetStatistic`: the number of stored URLs and of distinct users that created one. */
    function GetStatistic(): (r: (Statistic, Option<Error>))
      reads this
      ensures r.1 == None
      ensures Valid() ==> r.0.Urls == |Urls| && r.0.Users == |set u | u in Owners|
    {
      LocationsOfShape(Urls);
      UsersOfSize(Owners);
      (Statistic(|Locations|, |Users|), None)
    }
  }
}
