/**
 * The abstract state of the in-memory backend and the meaning of its
 * `CreateShort` loop. The store is determined by the URLs in creation order
 * and the user that created each one: the k-th URL (1-based) has id
 * `Sprint(k)`, `Locations` maps every id to its URL and `Users` lists every
 * user's ids in creation order.
 */
module MapModel {
  import opened Common
  import opened Decimal

  /** No string occurs twice in `s`. */
  ghost predicate Distinct(s: seq<string>)
  {
    forall i, j :: 0 <= i < j < |s| ==> s[i] != s[j]
  }

  lemma DistinctSnoc(s: seq<string>, x: string)
    ensures Distinct(s + [x]) <==> Distinct(s) && x !in s
  {
    var t := s + [x];
    assert forall i :: 0 <= i < |s| ==> t[i] == s[i];
    assert t[|s|] == x;
    if x in s {
      var i :| 0 <= i < |s| && s[i] == x;
      assert t[i] == t[|s|];
    }
  }

  /** `Locations` of a store holding `urls` in creation order. */
  /** In a sequence without repeats, equal elements sit at the same index. */
  lemma DistinctSame(s: seq<string>, i: nat, j: nat)
    requires Distinct(s) && i < |s| && j < |s| && s[i] == s[j]
    ensures i == j
  {
  }

  ghost function LocationsOf(urls: seq<string>): map<string, string>
    decreases |urls|
  {
    if urls == [] then map[] else LocationsOf(urls[..|urls| - 1])[Sprint(|urls|) := urls[|urls| - 1]]
  }

  /** The keys of `Locations` are exactly "1" .. "n", and "k" holds the k-th URL. */
  lemma {:induction false} LocationsOfShape(urls: seq<string>)
    ensures |LocationsOf(urls)| == |urls|
    ensures forall k :: 1 <= k <= |urls| ==> Sprint(k) in LocationsOf(urls) && LocationsOf(urls)[Sprint(k)] == urls[k - 1]
    decreases |urls|
  {
    if urls != [] {
      var n := |urls|;
      var prev := urls[..n - 1];
      LocationsOfShape(prev);
      if Sprint(n) in LocationsOf(prev) {
        LocationKey(prev, Sprint(n));
        var k :| 1 <= k <= n - 1 && Sprint(n) == Sprint(k);
        SprintInjective(n, k);
      }
      forall k | 1 <= k < n
        ensures LocationsOf(urls)[Sprint(k)] == urls[k - 1]
      {
        SprintInjective(n, k);
      }
    }
  }

  /** Every id of the store is some "k" with k at most the number of URLs. */
  lemma {:induction false} LocationKey(urls: seq<string>, id: string)
    requires id in LocationsOf(urls)
    ensures exists k :: 1 <= k <= |urls| && id == Sprint(k)
    decreases |urls|
  {
    var n := |urls|;
    if id == Sprint(n) {
      assert 1 <= n <= |urls| && id == Sprint(n);
    } else {
      var prev := urls[..n - 1];
      assert id in LocationsOf(prev);
      LocationKey(prev, id);
      var k :| 1 <= k <= n - 1 && id == Sprint(k);
      assert 1 <= k <= |urls| && id == Sprint(k);
    }
  }

  /** With distinct URLs, an id holding `u` is the id of the first (and only) occurrence of `u`. */
  /** The same, for a map that mirrors `urls`, whether or not `id` is a key. */
  lemma KeyOfStored(locations: map<string, string>, urls: seq<string>, id: string)
    ensures locations == LocationsOf(urls) && id in locations ==> exists k :: 1 <= k <= |urls| && id == Sprint(k)
  {
    if locations == LocationsOf(urls) && id in locations {
      LocationKey(urls, id);
    }
  }

  lemma LocationsFind(urls: seq<string>, u: string, id: string)
    requires Distinct(urls)
    requires id in LocationsOf(urls) && LocationsOf(urls)[id] == u
    ensures u in urls && id == Sprint(IndexOf(urls, u) + 1)
  {
    LocationKey(urls, id);
    var k :| 1 <= k <= |urls| && id == Sprint(k);
    LocationAt(urls, k);
    DistinctSame(urls, IndexOf(urls, u), k - 1);
  }

  /** A store that only grew keeps every id it had, with the same URL. */
  lemma LocationsOfExtend(a: seq<string>, b: seq<string>)
    requires a <= b
    ensures forall id :: id in LocationsOf(a) ==> id in LocationsOf(b) && LocationsOf(b)[id] == LocationsOf(a)[id]
  {
    LocationsOfShape(a);
    LocationsOfShape(b);
    forall id | id in LocationsOf(a)
      ensures id in LocationsOf(b) && LocationsOf(b)[id] == LocationsOf(a)[id]
    {
      LocationKey(a, id);
      var k :| 1 <= k <= |a| && id == Sprint(k);
      assert b[k - 1] == a[k - 1];
    }
  }

  /** The ids created by `user`, in creation order, when the k-th URL was created by `owners[k-1]`. */
  ghost function IdsOf(owners: seq<string>, user: string): seq<string>
    decreases |owners|
  {
    if owners == [] then []
    else IdsOf(owners[..|owners| - 1], user) + (if owners[|owners| - 1] == user then [Sprint(|owners|)] else [])
  }

  /** `Users`: every user that created something, with the ids it created. */
  ghost function UsersOf(owners: seq<string>): map<string, seq<string>>
  {
    map u | u in owners :: IdsOf(owners, u)
  }

  /** The per-user lists partition the ids: "k" is in exactly the list of the user that created the k-th URL. */
  lemma {:induction false} IdsOfExact(owners: seq<string>, user: string)
    ensures forall k: nat :: Sprint(k) in IdsOf(owners, user) <==> 1 <= k <= |owners| && owners[k - 1] == user
    ensures user !in owners ==> IdsOf(owners, user) == []
    decreases |owners|
  {
    if owners != [] {
      var n := |owners|;
      var prev := owners[..n - 1];
      IdsOfExact(prev, user);
      forall k: nat
        ensures Sprint(k) in IdsOf(owners, user) <==> 1 <= k <= n && owners[k - 1] == user
      {
        SprintInjective(n, k);
        if 1 <= k < n {
          assert owners[k - 1] == prev[k - 1];
        }
      }
      assert user !in owners ==> user !in prev;
    }
  }

  /** A user that created nothing has no ids. */
  lemma {:induction false} IdsOfAbsent(owners: seq<string>, user: string)
    requires user !in owners
    ensures IdsOf(owners, user) == []
    decreases |owners|
  {
    if owners != [] {
      IdsOfAbsent(owners[..|owners| - 1], user);
    }
  }

  /** The store holds as many ids as URLs. */
  lemma LocationsOfSize(urls: seq<string>)
    ensures |LocationsOf(urls)| == |urls|
  {
    LocationsOfShape(urls);
  }

  /** Every id in a user's list is some "k" with k at most the number of URLs. */
  lemma {:induction false} IdsOfKeys(owners: seq<string>, user: string, id: string)
    requires id in IdsOf(owners, user)
    ensures exists k :: 1 <= k <= |owners| && id == Sprint(k)
    decreases |owners|
  {
    var n := |owners|;
    if id == Sprint(n) {
      assert 1 <= n <= |owners| && id == Sprint(n);
    } else {
      var prev := owners[..n - 1];
      assert id in IdsOf(prev, user);
      IdsOfKeys(prev, user, id);
      var k :| 1 <= k <= n - 1 && id == Sprint(k);
      assert 1 <= k <= |owners| && id == Sprint(k);
    }
  }

  /** Creating one more URL extends exactly its creator's ids. */
  lemma IdsOfAppend(owners: seq<string>, user: string, u: string)
    ensures IdsOf(owners + [user], u) == IdsOf(owners, u) + (if u == user then [Sprint(|owners| + 1)] else [])
  {
    assert (owners + [user])[..|owners|] == owners;
  }

  /** An id of every user's list is an id of the store. */
  lemma UsersWithinLocations(urls: seq<string>, owners: seq<string>, user: string, id: string)
    requires |owners| == |urls|
    requires user in UsersOf(owners) && id in UsersOf(owners)[user]
    ensures id in LocationsOf(urls)
  {
    IdsOfKeys(owners, user, id);
    var k :| 1 <= k <= |owners| && id == Sprint(k);
    LocationsOfShape(urls);
  }

  /** Every id of a user's list is an id of the store. */
  lemma IdsWithinLocations(urls: seq<string>, owners: seq<string>, user: string)
    requires |owners| == |urls|
    ensures forall id :: id in IdsOf(owners, user) ==> id in LocationsOf(urls)
  {
    LocationsOfShape(urls);
    forall id | id in IdsOf(owners, user)
      ensures id in LocationsOf(urls)
    {
      IdsOfKeys(owners, user, id);
    }
  }

  /** Creating one more URL appends its id to the creator's list and to no other. */
  lemma UsersOfAppend(owners: seq<string>, user: string)
    ensures UsersOf(owners + [user]) == UsersOf(owners)[user := IdsOf(owners, user) + [Sprint(|owners| + 1)]]
  {
    var lhs := UsersOf(owners + [user]);
    var rhs := UsersOf(owners)[user := IdsOf(owners, user) + [Sprint(|owners| + 1)]];
    forall u
      ensures u in lhs <==> u in rhs
    {
      assert u in owners + [user] <==> u in owners || u == user;
    }
    forall u | u in lhs
      ensures lhs[u] == rhs[u]
    {
      IdsOfAppend(owners, user, u);
    }
    assert lhs == rhs;
  }

  /** Storing a URL not stored yet: the URLs stay distinct, it goes under the next id, which joins its creator's list. */
  lemma StoreNew(urls: seq<string>, owners: seq<string>, user: string, u: string)
    requires Distinct(urls) && |owners| == |urls| && u !in urls
    ensures Distinct(urls + [u])
    ensures LocationsOf(urls + [u]) == LocationsOf(urls)[Sprint(|urls| + 1) := u]
    ensures UsersOf(owners + [user])
         == UsersOf(owners)[user := (if user in UsersOf(owners) then UsersOf(owners)[user] else []) + [Sprint(|urls| + 1)]]
  {
    assert (urls + [u])[..|urls|] == urls;
    DistinctSnoc(urls, u);
    var mine := if user in UsersOf(owners) then UsersOf(owners)[user] else [];
    assert mine == IdsOf(owners, user) by {
      if user !in owners {
        IdsOfAbsent(owners, user);
      }
    }
    UsersOfAppend(owners, user);
  }

  /**
   * The maps of a store that holds `urls` in creation order, the k-th
   * created by `owners[k-1]`: `Locations`, `Users`, and deletion marks that
   * are set only on stored ids.
   */
  ghost predicate Mirrors(locations: map<string, string>, users: map<string, seq<string>>, deleted: map<string, bool>,
                          urls: seq<string>, owners: seq<string>)
  {
    && |owners| == |urls|
    && Distinct(urls)
    && locations == LocationsOf(urls)
    && users == UsersOf(owners)
    && (forall id :: id in deleted ==> id in locations && deleted[id])
  }

  lemma MirrorsIntro(locations: map<string, string>, users: map<string, seq<string>>, deleted: map<string, bool>,
                     urls: seq<string>, owners: seq<string>)
    requires |owners| == |urls| && Distinct(urls) && locations == LocationsOf(urls) && users == UsersOf(owners)
    requires forall id :: id in deleted ==> id in locations && deleted[id]
    ensures Mirrors(locations, users, deleted, urls, owners)
  {
  }

  /** Storing a URL not stored yet under the next id, and appending that id to its creator's list, keeps the maps in step. */
  lemma StoreMirrors(locations: map<string, string>, users: map<string, seq<string>>, deleted: map<string, bool>,
                     urls: seq<string>, owners: seq<string>, user: string, u: string)
    requires Mirrors(locations, users, deleted, urls, owners) && u !in urls
    ensures |locations| == |urls|
    ensures var id := Sprint(|urls| + 1);
      Mirrors(locations[id := u], users[user := (if user in users then users[user] else []) + [id]], deleted, urls + [u], owners + [user])
  {
    LocationsOfSize(urls);
    StoreNew(urls, owners, user, u);
    MirrorsIntro(locations[Sprint(|urls| + 1) := u], users[user := (if user in users then users[user] else []) + [Sprint(|urls| + 1)]], deleted, urls + [u], owners + [user]);
  }

  /** The number of users is the number of distinct creators. */
  lemma UsersOfSize(owners: seq<string>)
    ensures |UsersOf(owners)| == |set u | u in owners|
  {
    assert UsersOf(owners).Keys == set u | u in owners;
  }

  // ---------------------------------------------------------------------
  // The batch loop of CreateShort.

  ghost function IndexOf(s: seq<string>, x: string): (i: nat)
    requires x in s
    ensures i < |s| && s[i] == x && x !in s[..i]
    decreases |s|
  {
    if s[0] == x then 0 else assert s == [s[0]] + s[1..]; 1 + IndexOf(s[1..], x)
  }

  /**
   * The store, the ids produced, whether some URL was already stored, and the
   * first URL that failed validation after the loop stopped at it.
   */
  datatype Created = Created(
    urls: seq<string>,
    owners: seq<string>,
    ids: seq<string>,
    known: bool,
    bad: Option<string>)

  /**
   * Looking `u` up in the store and storing it under the next id if absent:
   * the new URLs and owners, the id of `u`, and whether it was there already.
   */
  ghost function Put(urls: seq<string>, owners: seq<string>, user: string, u: string): (seq<string>, seq<string>, string, bool)
  {
    if u in urls then (urls, owners, Sprint(IndexOf(urls, u) + 1), true)
    else (urls + [u], owners + [user], Sprint(|urls| + 1), false)
  }

  /** One turn of the loop: validate, then find an existing id or store under the next id. */
  ghost function Step(c: Created, user: string, u: string, isURI: string -> bool): Created
    requires c.bad == None
  {
    if !isURI(u) then c.(bad := Some(u))
    else
      var p := Put(c.urls, c.owners, user, u);
      Created(p.0, p.1, c.ids + [p.2], c.known || p.3, None)
  }

  /** A turn of the loop over `batch` for the valid URL `batch[i]`, given what the store returned. */
  lemma RunTurn(urls0: seq<string>, owners0: seq<string>, user: string, batch: seq<string>, i: nat, isURI: string -> bool,
                c: Created, id: string, found: bool, urls': seq<string>, owners': seq<string>)
    requires i < |batch| && isURI(batch[i])
    requires CreateRun(urls0, owners0, user, batch[..i], isURI) == c && c.bad == None
    requires (urls', owners', id, found) == Put(c.urls, c.owners, user, batch[i])
    ensures CreateRun(urls0, owners0, user, batch[..i + 1], isURI) == Created(urls', owners', c.ids + [id], c.known || found, None)
  {
    RunSnoc(urls0, owners0, user, batch, i, isURI);
  }

  /** The loop over `batch` from the store (`urls0`, `owners0`); it stops at the first invalid URL. */
  ghost function CreateRun(urls0: seq<string>, owners0: seq<string>, user: string, batch: seq<string>, isURI: string -> bool): Created
    decreases |batch|
  {
    if batch == [] then Created(urls0, owners0, [], false, None)
    else
      var prev := CreateRun(urls0, owners0, user, batch[..|batch| - 1], isURI);
      if prev.bad.Some? then prev else Step(prev, user, batch[|batch| - 1], isURI)
  }

  /** One more URL of the batch: a step of the loop unless it has stopped. */
  lemma RunSnoc(urls0: seq<string>, owners0: seq<string>, user: string, batch: seq<string>, i: nat, isURI: string -> bool)
    requires i < |batch|
    requires CreateRun(urls0, owners0, user, batch[..i], isURI).bad == None
    ensures CreateRun(urls0, owners0, user, batch[..i + 1], isURI)
         == Step(CreateRun(urls0, owners0, user, batch[..i], isURI), user, batch[i], isURI)
  {
    assert batch[..i + 1][..i] == batch[..i];
  }

  /** What the call returns: nil and "wrong url" after an abort, else the ids with ErrExists if any URL was known. */
  function Outcome(c: Created): (Option<seq<string>>, Option<Error>)
  {
    if c.bad.Some? then (None, Some(WrongURL(c.bad.value)))
    else (Some(c.ids), if c.known then Some(ErrExists) else None)
  }

  /** Once the loop has stopped, the rest of the batch changes nothing. */
  lemma {:induction false} RunStops(urls0: seq<string>, owners0: seq<string>, user: string, batch: seq<string>, i: nat, isURI: string -> bool)
    requires i <= |batch|
    requires CreateRun(urls0, owners0, user, batch[..i], isURI).bad.Some?
    ensures CreateRun(urls0, owners0, user, batch, isURI) == CreateRun(urls0, owners0, user, batch[..i], isURI)
    decreases |batch| - i
  {
    if i < |batch| {
      assert batch[..i + 1][..i] == batch[..i];
      RunStops(urls0, owners0, user, batch, i + 1, isURI);
    } else {
      assert batch[..i] == batch;
    }
  }

  /** The loop stops at the invalid URL `batch[i]`: the run is the one before it, marked with that URL. */
  lemma RunStopsAt(urls0: seq<string>, owners0: seq<string>, user: string, batch: seq<string>, i: nat, isURI: string -> bool, c: Created)
    requires i < |batch| && !isURI(batch[i])
    requires CreateRun(urls0, owners0, user, batch[..i], isURI) == c && c.bad == None
    ensures CreateRun(urls0, owners0, user, batch, isURI) == c.(bad := Some(batch[i]))
  {
    RunSnoc(urls0, owners0, user, batch, i, isURI);
    RunStops(urls0, owners0, user, batch, i + 1, isURI);
  }

  /** A valid store stays valid: URLs stay distinct and every new URL is owned by the caller. */
  lemma {:induction false} RunKeepsStore(urls0: seq<string>, owners0: seq<string>, user: string, batch: seq<string>, isURI: string -> bool)
    requires Distinct(urls0) && |owners0| == |urls0|
    ensures var c := CreateRun(urls0, owners0, user, batch, isURI);
      && Distinct(c.urls) && |c.owners| == |c.urls|
      && urls0 <= c.urls && owners0 <= c.owners
      && (forall k :: |owners0| <= k < |c.owners| ==> c.owners[k] == user)
      && (c.bad == None ==> |c.ids| == |batch|)
    decreases |batch|
  {
    if batch != [] {
      var n := |batch| - 1;
      var prev := CreateRun(urls0, owners0, user, batch[..n], isURI);
      RunKeepsStore(urls0, owners0, user, batch[..n], isURI);
      if prev.bad == None {
        StepKeepsStore(prev, user, batch[n], isURI);
      }
    }
  }

  /** Every id of `ids` resolves, in the store holding `urls`, to the URL at the same position of `batch`. */
  ghost predicate Resolves(ids: seq<string>, urls: seq<string>, batch: seq<string>)
  {
    && |ids| == |batch|
    && forall j :: 0 <= j < |batch| ==> ids[j] in LocationsOf(urls) && LocationsOf(urls)[ids[j]] == batch[j]
  }

  /** A step keeps the URLs distinct and only appends to the store, a URL of the caller's. */
  lemma StepKeepsStore(c: Created, user: string, u: string, isURI: string -> bool)
    requires c.bad == None && Distinct(c.urls) && |c.owners| == |c.urls|
    ensures var c' := Step(c, user, u, isURI);
      && Distinct(c'.urls) && |c'.owners| == |c'.urls|
      && c.urls <= c'.urls && c.owners <= c'.owners
      && (forall k :: |c.owners| <= k < |c'.owners| ==> c'.owners[k] == user)
      && (c'.bad == None ==> |c'.ids| == |c.ids| + 1)
  {
    DistinctSnoc(c.urls, u);
  }

  /** Every returned id resolves, in the final store, to the URL at the same position of the batch. */
  lemma {:induction false} RunIdsResolve(urls0: seq<string>, owners0: seq<string>, user: string, batch: seq<string>, isURI: string -> bool)
    ensures var c := CreateRun(urls0, owners0, user, batch, isURI);
      c.bad == None ==> Resolves(c.ids, c.urls, batch)
    decreases |batch|
  {
    var c := CreateRun(urls0, owners0, user, batch, isURI);
    if batch != [] && c.bad == None {
      var n := |batch| - 1;
      var init := batch[..n];
      var prev := CreateRun(urls0, owners0, user, init, isURI);
      RunIdsResolve(urls0, owners0, user, init, isURI);
      assert prev.urls <= c.urls && c.ids == prev.ids + [c.ids[n]]
          && c.ids[n] in LocationsOf(c.urls) && LocationsOf(c.urls)[c.ids[n]] == batch[n] by {
        assert c == Step(prev, user, batch[n], isURI);
        StepResolves(prev, user, batch[n], isURI);
      }
      assert batch == init + [batch[n]];
      ResolvesSnoc(prev.ids, prev.urls, c.urls, init, c.ids[n], batch[n]);
    }
  }

  /** Ids that resolve keep resolving in a grown store, and one more resolving id extends them. */
  lemma ResolvesSnoc(ids: seq<string>, urls: seq<string>, urls': seq<string>, batch: seq<string>, id: string, u: string)
    requires Resolves(ids, urls, batch) && urls <= urls'
    requires id in LocationsOf(urls') && LocationsOf(urls')[id] == u
    ensures Resolves(ids + [id], urls', batch + [u])
  {
    LocationsOfExtend(urls, urls');
    assert forall j :: 0 <= j < |batch| ==> (ids + [id])[j] == ids[j] && (batch + [u])[j] == batch[j];
  }

  /** The k-th URL is stored under "k". */
  lemma LocationAt(urls: seq<string>, k: nat)
    requires 1 <= k <= |urls|
    ensures Sprint(k) in LocationsOf(urls) && LocationsOf(urls)[Sprint(k)] == urls[k - 1]
  {
    LocationsOfShape(urls);
  }

  /** The id a valid step returns resolves to its URL, and the step only extends the store. */
  lemma StepResolves(c: Created, user: string, u: string, isURI: string -> bool)
    requires c.bad == None
    ensures var c' := Step(c, user, u, isURI);
      && c.urls <= c'.urls
      && (c'.bad == None ==>
            && |c'.ids| == |c.ids| + 1 && c'.ids[..|c.ids|] == c.ids
            && c'.ids[|c.ids|] in LocationsOf(c'.urls) && LocationsOf(c'.urls)[c'.ids[|c.ids|]] == u)
  {
    var c' := Step(c, user, u, isURI);
    if c'.bad == None {
      if u in c.urls {
        LocationAt(c.urls, IndexOf(c.urls, u) + 1);
      } else {
        assert c'.urls[..|c'.urls| - 1] == c.urls;
      }
    }
  }

  /** Storing distinct, valid, new URLs: they get the next ids in order, nobody signals ErrExists. */
  lemma {:induction false} RunFresh(urls0: seq<string>, owners0: seq<string>, user: string, batch: seq<string>, isURI: string -> bool)
    requires Distinct(batch)
    requires forall j :: 0 <= j < |batch| ==> isURI(batch[j]) && batch[j] !in urls0
    ensures var c := CreateRun(urls0, owners0, user, batch, isURI);
      && c.bad == None && !c.known
      && c.urls == urls0 + batch
      && |c.owners| == |owners0| + |batch|
      && c.ids == IdRange(|urls0| + 1, |batch|)
    decreases |batch|
  {
    if batch != [] {
      var n := |batch| - 1;
      RunFresh(urls0, owners0, user, batch[..n], isURI);
      assert batch[n] !in batch[..n];
      assert IdRange(|urls0| + 1, |batch|) == IdRange(|urls0| + 1, n) + [Sprint(|urls0| + n + 1)];
      assert urls0 + batch == urls0 + batch[..n] + [batch[n]];
    }
  }

  /** `Locations` of `urls` maps "j" to the j-th URL, and to nothing else. */
  ghost predicate Numbered(urls: seq<string>)
  {
    && |LocationsOf(urls)| == |urls|
    && forall j :: 0 <= j < |urls| ==> Sprint(j + 1) in LocationsOf(urls) && LocationsOf(urls)[Sprint(j + 1)] == urls[j]
  }

  /** On an empty store, k distinct valid URLs get ids "1" .. "k" and `Locations` maps "j" to the j-th URL. */
  lemma EmptyStoreBatch(user: string, batch: seq<string>, isURI: string -> bool)
    requires Distinct(batch)
    requires forall j :: 0 <= j < |batch| ==> isURI(batch[j])
    ensures var c := CreateRun([], [], user, batch, isURI);
      && Outcome(c) == (Some(IdRange(1, |batch|)), None)
      && c.urls == batch && Numbered(c.urls)
  {
    var c := CreateRun([], [], user, batch, isURI);
    assert c.urls == batch && c.bad == None && !c.known && c.ids == IdRange(1, |batch|) by {
      RunFresh([], [], user, batch, isURI);
      assert [] + batch == batch;
    }
    FirstIds(batch);
  }

  lemma FirstIds(urls: seq<string>)
    ensures Numbered(urls)
  {
    LocationsOfShape(urls);
    forall j | 0 <= j < |urls|
      ensures Sprint(j + 1) in LocationsOf(urls) && LocationsOf(urls)[Sprint(j + 1)] == urls[j]
    {
      assert 1 <= j + 1 <= |urls|;
    }
  }

  /** Some URL of `batch` was stored before or repeats an earlier one of the batch. */
  ghost predicate Repeats(urls0: seq<string>, batch: seq<string>)
  {
    exists j :: 0 <= j < |batch| && (batch[j] in urls0 || batch[j] in batch[..j])
  }

  lemma RepeatsSnoc(urls0: seq<string>, batch: seq<string>, u: string)
    ensures Repeats(urls0, batch + [u]) <==> Repeats(urls0, batch) || u in urls0 || u in batch
  {
    var b := batch + [u];
    assert b[..|batch|] == batch;
    assert forall j :: 0 <= j < |batch| ==> b[j] == batch[j] && b[..j] == batch[..j];
    if Repeats(urls0, b) {
      var j :| 0 <= j < |b| && (b[j] in urls0 || b[j] in b[..j]);
      if j < |batch| {
        assert Repeats(urls0, batch);
      }
    }
    if u in urls0 || u in batch {
      assert b[|batch|] == u;
    }
  }

  /** A valid step signals ErrExists exactly when the URL was stored already. */
  lemma StepKnown(c: Created, user: string, u: string, isURI: string -> bool)
    requires c.bad == None
    ensures var c' := Step(c, user, u, isURI);
      c'.bad == None ==> (c'.known <==> c.known || u in c.urls)
  {
  }

  /** Without an abort, ErrExists is signalled exactly when some URL was stored before or repeats an earlier one of the batch. */
  lemma {:induction false} RunExists(urls0: seq<string>, owners0: seq<string>, user: string, batch: seq<string>, isURI: string -> bool)
    ensures var c := CreateRun(urls0, owners0, user, batch, isURI);
      c.bad == None ==> (c.known <==> Repeats(urls0, batch))
    decreases |batch|
  {
    var c := CreateRun(urls0, owners0, user, batch, isURI);
    if batch != [] && c.bad == None {
      var n := |batch| - 1;
      var init := batch[..n];
      var prev := CreateRun(urls0, owners0, user, init, isURI);
      assert c.known <==> prev.known || batch[n] in prev.urls by {
        assert c == Step(prev, user, batch[n], isURI);
        StepKnown(prev, user, batch[n], isURI);
      }
      assert batch[n] in prev.urls <==> batch[n] in urls0 || batch[n] in init by {
        RunUrls(urls0, owners0, user, init, isURI);
      }
      assert Repeats(urls0, batch) <==> Repeats(urls0, init) || batch[n] in urls0 || batch[n] in init by {
        RepeatsSnoc(urls0, init, batch[n]);
        assert init + [batch[n]] == batch;
      }
      RunExists(urls0, owners0, user, init, isURI);
    }
  }

  /** Without an abort, every URL of the batch is stored. */
  lemma RunStoresBatch(urls0: seq<string>, owners0: seq<string>, user: string, batch: seq<string>, isURI: string -> bool)
    ensures var c := CreateRun(urls0, owners0, user, batch, isURI);
      c.bad == None ==> forall j :: 0 <= j < |batch| ==> batch[j] in c.urls
  {
    RunUrls(urls0, owners0, user, batch, isURI);
  }

  /** Without an abort, the stored URLs are those stored before plus the batch's URLs. */
  lemma {:induction false} RunUrls(urls0: seq<string>, owners0: seq<string>, user: string, batch: seq<string>, isURI: string -> bool)
    ensures var c := CreateRun(urls0, owners0, user, batch, isURI);
      c.bad == None ==> forall x :: x in c.urls <==> x in urls0 || x in batch
    decreases |batch|
  {
    if batch != [] {
      var n := |batch| - 1;
      RunUrls(urls0, owners0, user, batch[..n], isURI);
      assert batch == batch[..n] + [batch[n]];
    }
  }

  /**
   * An invalid URL stops the call: the result is nil with "wrong url" for the
   * first invalid URL, and the store is what the URLs before it made it.
   */
  lemma {:induction false} RunAbort(urls0: seq<string>, owners0: seq<string>, user: string, batch: seq<string>, isURI: string -> bool, i: nat)
    requires i < |batch| && !isURI(batch[i])
    requires forall j :: 0 <= j < i ==> isURI(batch[j])
    ensures var c := CreateRun(urls0, owners0, user, batch, isURI);
      var before := CreateRun(urls0, owners0, user, batch[..i], isURI);
      && Outcome(c) == (None, Some(WrongURL(batch[i])))
      && c.urls == before.urls && c.owners == before.owners
  {
    NoAbortBefore(urls0, owners0, user, batch[..i], isURI);
    assert batch[..i + 1][..i] == batch[..i];
    RunStops(urls0, owners0, user, batch, i + 1, isURI);
  }

  /** A batch of valid URLs never aborts. */
  lemma {:induction false} NoAbortBefore(urls0: seq<string>, owners0: seq<string>, user: string, batch: seq<string>, isURI: string -> bool)
    requires forall j :: 0 <= j < |batch| ==> isURI(batch[j])
    ensures CreateRun(urls0, owners0, user, batch, isURI).bad == None
    decreases |batch|
  {
    if batch != [] {
      NoAbortBefore(urls0, owners0, user, batch[..|batch| - 1], isURI);
    }
  }
}
