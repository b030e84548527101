/**
 * The relational backend on values: the table `items` as a sequence of rows
 * in storage order, the statements a call issues, and a failure oracle that
 * says which of them the driver fails. `Insert` is what one `CreateShort`
 * call does to the committed table and the `LastID` counter.
 */
module DBModel {
  import opened Common
  import opened Decimal

  /** One row of `items (id, url, cookie, deleted)`; the cookie is the creating user. */
  datatype Row = Row(id: string, url: string, cookie: string, deleted: bool)

  datatype Column = IdColumn | UrlColumn | CookieColumn

  function Cell(r: Row, c: Column): string
  {
    match c
    case IdColumn => r.id
    case UrlColumn => r.url
    case CookieColumn => r.cookie
  }

  /** `WHERE c = key LIMIT 1`, in table order: the index of the first matching row, or `|t|` when none matches. */
  function FirstMatch(t: seq<Row>, c: Column, key: string): (k: nat)
    ensures k <= |t|
    ensures k < |t| ==> Cell(t[k], c) == key
    ensures forall j :: 0 <= j < k ==> Cell(t[j], c) != key
    decreases |t|
  {
    if t == [] then 0 else if Cell(t[0], c) == key then 0 else 1 + FirstMatch(t[1..], c, key)
  }

  /** A match in `t` is still the first one after rows are appended; a miss in `t` continues into the appended rows. */
  lemma FirstMatchAppend(t: seq<Row>, s: seq<Row>, c: Column, key: string)
    ensures FirstMatch(t, c, key) < |t| ==> FirstMatch(t + s, c, key) == FirstMatch(t, c, key)
    ensures FirstMatch(t, c, key) == |t| ==> FirstMatch(t + s, c, key) == |t| + FirstMatch(s, c, key)
  {
    assert forall j :: 0 <= j < |t| ==> (t + s)[j] == t[j];
    assert forall j :: 0 <= j < |s| ==> (t + s)[|t| + j] == s[j];
  }

  /** No two rows share an id. */
  predicate UniqueIds(t: seq<Row>)
  {
    forall a, b :: 0 <= a < b < |t| ==> t[a].id != t[b].id
  }

  /** With unique ids, a row's id finds that row. */
  lemma FirstMatchUnique(t: seq<Row>, j: nat)
    requires UniqueIds(t) && j < |t|
    ensures FirstMatch(t, IdColumn, t[j].id) == j
  {
    assert forall a :: 0 <= a < j ==> t[a].id != t[j].id;
  }

  /**
   * The counter is ahead of the table: ids are unique and none of them is
   * the decimal form of a number above `lastID`, so the ids `CreateShort`
   * allocates next are fresh.
   */
  ghost predicate IdsBelow(t: seq<Row>, lastID: nat)
  {
    && UniqueIds(t)
    && forall k: nat, j :: lastID < k && 0 <= j < |t| ==> t[j].id != Sprint(k)
  }

  lemma IdsBelowMono(t: seq<Row>, a: nat, b: nat)
    requires IdsBelow(t, a) && a <= b
    ensures IdsBelow(t, b)
  {
  }

  lemma IdsBelowPrefix(t: seq<Row>, s: seq<Row>, n: nat)
    requires IdsBelow(t + s, n)
    ensures IdsBelow(t, n)
  {
    assert forall j :: 0 <= j < |t| ==> (t + s)[j] == t[j];
  }

  /** Appending a row under the next id keeps the counter ahead of the table. */
  lemma IdsBelowNext(t: seq<Row>, n: nat, r: Row)
    requires IdsBelow(t, n) && r.id == Sprint(n + 1)
    ensures IdsBelow(t + [r], n + 1)
    ensures FirstMatch(t, IdColumn, r.id) == |t|
  {
    var t' := t + [r];
    assert forall j :: 0 <= j < |t| ==> t'[j] == t[j];
    forall k: nat, j | n + 1 < k && 0 <= j < |t'|
      ensures t'[j].id != Sprint(k)
    {
      if j == |t| {
        SprintInjective(n + 1, k);
      }
    }
  }

  /** A statement of one call: its kind and the position of the URL or id it serves (0 outside the loop). */
  datatype Stmt = Stmt(op: Op, index: nat)

  /** The state of a `CreateShort` transaction: rows inserted so far, the counter, the ids collected, whether a URL was known, and the failed statement. */
  datatype Pending = Pending(rows: seq<Row>, lastID: nat, ids: seq<string>, dup: bool, fault: Option<Op>)

  /**
   * One turn of the URL loop: the lookup (on the committed table) and, for
   * a URL with a row, the scan of its id; for a URL without one, the
   * increment of the counter and the insert.
   */
  ghost function Step(items: seq<Row>, user: string, p: Pending, i: nat, u: string, fails: Stmt -> bool): (r: Pending)
    requires p.fault == None
    ensures |p.ids| <= |r.ids| <= |p.ids| + 1 && r.ids[..|p.ids|] == p.ids
    ensures r.fault == None ==> |r.ids| == |p.ids| + 1
    ensures FirstMatch(items, UrlColumn, u) < |items| ==> Known(p, items[FirstMatch(items, UrlColumn, u)].id, i, fails) == r
    ensures FirstMatch(items, UrlColumn, u) == |items| ==> Fresh(p, u, user, i, fails) == r
  {
    var k := FirstMatch(items, UrlColumn, u);
    if k < |items| then Known(p, items[k].id, i, fails) else Fresh(p, u, user, i, fails)
  }

  /** A URL with a committed row: its id is scanned and `ErrExists` noted, unless the scan or the cursor fails. */
  ghost function Known(p: Pending, id: string, i: nat, fails: Stmt -> bool): (r: Pending)
    requires p.fault == None
    ensures r.rows == p.rows && r.lastID == p.lastID
    ensures r.ids == p.ids || r.ids == p.ids + [id]
    ensures r.fault == None ==> r.ids == p.ids + [id] && r.dup
  {
    if fails(Stmt(Query, i)) then p.(fault := Some(Query))
    else if fails(Stmt(Scan, i)) then p.(fault := Some(Scan))
    else
      var p1 := p.(ids := p.ids + [id], dup := true);
      if fails(Stmt(RowsErr, i)) then p1.(fault := Some(RowsErr)) else p1
  }

  /** A URL without a committed row: the counter advances and the row is inserted under the new id, unless a statement fails. */
  ghost function Fresh(p: Pending, u: string, user: string, i: nat, fails: Stmt -> bool): (r: Pending)
    requires p.fault == None
    ensures r.dup == p.dup
    ensures r.fault == None ==> r.rows == p.rows + [Row(Sprint(p.lastID + 1), u, user, false)] && r.ids == p.ids + [Sprint(p.lastID + 1)]
    ensures r.fault != None ==> r.rows == p.rows && r.ids == p.ids
    ensures r.lastID == (if r.fault == None || r.fault == Some(Exec) then p.lastID + 1 else p.lastID)
  {
    if fails(Stmt(Query, i)) then p.(fault := Some(Query))
    else if fails(Stmt(RowsErr, i)) then p.(fault := Some(RowsErr))
    else if fails(Stmt(Exec, i)) then p.(lastID := p.lastID + 1, fault := Some(Exec))
    else Pending(p.rows + [Row(Sprint(p.lastID + 1), u, user, false)], p.lastID + 1, p.ids + [Sprint(p.lastID + 1)], p.dup, None)
  }

  /** The URL loop over `urls`; it stops at the first failed statement. */
  ghost function Run(items: seq<Row>, lastID: nat, user: string, urls: seq<string>, fails: Stmt -> bool): Pending
    decreases |urls|
  {
    if urls == [] then Pending([], lastID, [], false, None)
    else
      var prev := Run(items, lastID, user, urls[..|urls| - 1], fails);
      if prev.fault.Some? then prev else Step(items, user, prev, |urls| - 1, urls[|urls| - 1], fails)
  }

  /** What one `CreateShort` call returns and leaves: ids, error, whether it panicked, the committed table and the counter. */
  datatype Committed = Committed(ids: seq<string>, err: Option<Error>, panicked: bool, table: seq<Row>, lastID: nat)

  /**
   * The whole call. A failed `Begin` leaves a nil transaction whose deferred
   * `Rollback` panics; any other failure rolls back, so the table is
   * unchanged, but the counter keeps its increments. A commit adds the
   * inserted rows and reports `ErrExists` when some URL was already stored.
   */
  ghost function Insert(items: seq<Row>, lastID: nat, user: string, urls: seq<string>, fails: Stmt -> bool): Committed
  {
    if fails(Stmt(Begin, 0)) then Committed([], Some(Medium(Begin)), true, items, lastID)
    else if fails(Stmt(Prepare, 0)) then Committed([], Some(Medium(Prepare)), false, items, lastID)
    else
      var p := Run(items, lastID, user, urls, fails);
      if p.fault.Some? then Committed(p.ids, Some(Medium(p.fault.value)), false, items, p.lastID)
      else if fails(Stmt(Commit, 0)) then Committed(p.ids, Some(Medium(Commit)), false, items, p.lastID)
      else Committed(p.ids, if p.dup then Some(ErrExists) else None, false, items + p.rows, p.lastID)
  }

  /** Once a statement has failed, the rest of the URLs change nothing. */
  lemma {:induction false} RunStops(items: seq<Row>, lastID: nat, user: string, urls: seq<string>, fails: Stmt -> bool, i: nat)
    requires i <= |urls|
    requires Run(items, lastID, user, urls[..i], fails).fault.Some?
    ensures Run(items, lastID, user, urls, fails) == Run(items, lastID, user, urls[..i], fails)
    decreases |urls| - i
  {
    if i < |urls| {
      assert urls[..i + 1][..i] == urls[..i];
      RunStops(items, lastID, user, urls, fails, i + 1);
    } else {
      assert urls[..i] == urls;
    }
  }

  /**
   * The transaction's shape: an id per URL unless a statement failed; new
   * rows belong to the caller, are live and carry the URL; the counter
   * advanced once per insert, plus once for an insert that failed.
   */
  lemma {:induction false} RunShape(items: seq<Row>, lastID: nat, user: string, urls: seq<string>, fails: Stmt -> bool)
    ensures var p := Run(items, lastID, user, urls, fails);
      && (p.fault == None ==> |p.ids| == |urls|)
      && |p.ids| <= |urls|
      && p.lastID == lastID + |p.rows| + (if p.fault == Some(Exec) then 1 else 0)
      && (forall k :: 0 <= k < |p.rows| ==> p.rows[k].cookie == user && !p.rows[k].deleted && p.rows[k].id == Sprint(lastID + k + 1))
    decreases |urls|
  {
    if urls != [] {
      RunShape(items, lastID, user, urls[..|urls| - 1], fails);
    }
  }

  /** Without a failure, the rows inserted get the ids following the counter, so the counter stays ahead of the table. */
  lemma {:induction false} RunKeepsIds(items: seq<Row>, lastID: nat, user: string, urls: seq<string>, fails: Stmt -> bool)
    requires IdsBelow(items, lastID)
    ensures var p := Run(items, lastID, user, urls, fails);
      p.fault == None ==> IdsBelow(items + p.rows, p.lastID)
    decreases |urls|
  {
    var p := Run(items, lastID, user, urls, fails);
    if urls != [] && p.fault == None {
      var n := |urls| - 1;
      var prev := Run(items, lastID, user, urls[..n], fails);
      RunKeepsIds(items, lastID, user, urls[..n], fails);
      if p.rows != prev.rows {
        var r := Row(Sprint(prev.lastID + 1), urls[n], user, false);
        assert p.rows == prev.rows + [r];
        IdsBelowNext(items + prev.rows, prev.lastID, r);
        assert items + p.rows == items + prev.rows + [r];
      }
    }
  }

  /** The id `id` finds, in `t`, a row holding the URL `u`. */
  ghost predicate Holds(t: seq<Row>, id: string, u: string)
  {
    FirstMatch(t, IdColumn, id) < |t| && t[FirstMatch(t, IdColumn, id)].url == u
  }

  /** The id `id` finds, in `t`, a live row of `user`. */
  ghost predicate LiveOf(t: seq<Row>, id: string, user: string)
  {
    FirstMatch(t, IdColumn, id) < |t| && t[FirstMatch(t, IdColumn, id)].cookie == user && !t[FirstMatch(t, IdColumn, id)].deleted
  }

  /** Id j finds URL j in `t`, and a live row of `user` when URL j had no row in `items`. */
  ghost predicate Resolves(items: seq<Row>, t: seq<Row>, user: string, ids: seq<string>, urls: seq<string>)
  {
    && |ids| == |urls|
    && forall j :: 0 <= j < |urls| ==>
         && Holds(t, ids[j], urls[j])
         && (FirstMatch(items, UrlColumn, urls[j]) == |items| ==> LiveOf(t, ids[j], user))
  }

  lemma HoldsAppend(t: seq<Row>, s: seq<Row>, id: string, u: string, user: string)
    ensures Holds(t, id, u) ==> Holds(t + s, id, u)
    ensures LiveOf(t, id, user) ==> LiveOf(t + s, id, user)
  {
    FirstMatchAppend(t, s, IdColumn, id);
    var k := FirstMatch(t, IdColumn, id);
    if k < |t| {
      assert (t + s)[k] == t[k];
    }
  }

  /**
   * Round trip: without a failure, the id returned for each URL finds, in
   * the table the commit leaves, a row holding that URL; for a URL that had
   * no committed row it is a live row of the caller.
   */
  lemma {:induction false} RunResolves(items: seq<Row>, lastID: nat, user: string, urls: seq<string>, fails: Stmt -> bool)
    requires IdsBelow(items, lastID)
    ensures var p := Run(items, lastID, user, urls, fails);
      p.fault == None ==> Resolves(items, items + p.rows, user, p.ids, urls)
    decreases |urls|
  {
    var p := Run(items, lastID, user, urls, fails);
    if urls != [] && p.fault == None {
      var n := |urls| - 1;
      var prev := Run(items, lastID, user, urls[..n], fails);
      RunResolves(items, lastID, user, urls[..n], fails);
      RunKeepsIds(items, lastID, user, urls[..n], fails);
      ResolvesStep(items, user, prev, n, urls[..n], urls[n], fails);
      SplitLast(urls);
    }
  }

  /** One step keeps `Resolves`, with the step's URL added. */
  lemma ResolvesStep(items: seq<Row>, user: string, prev: Pending, i: nat, urls: seq<string>, u: string, fails: Stmt -> bool)
    requires prev.fault == None && IdsBelow(items + prev.rows, prev.lastID)
    requires Resolves(items, items + prev.rows, user, prev.ids, urls)
    ensures var p := Step(items, user, prev, i, u, fails);
      p.fault == None ==> Resolves(items, items + p.rows, user, p.ids, urls + [u])
  {
    var p := Step(items, user, prev, i, u, fails);
    if p.fault == None {
      var t := items + prev.rows;
      var id := p.ids[|prev.ids|];
      var extra := p.rows[|prev.rows|..];
      StepResolves(items, user, prev, i, u, fails);
      assert items + p.rows == t + extra;
      ResolvesSnoc(items, t, extra, user, prev.ids, urls, id, u);
      assert p.ids == prev.ids + [id];
    }
  }

  lemma ResolvesSnoc(items: seq<Row>, t: seq<Row>, extra: seq<Row>, user: string, ids: seq<string>, urls: seq<string>, id: string, u: string)
    requires Resolves(items, t, user, ids, urls)
    requires Holds(t + extra, id, u) && (FirstMatch(items, UrlColumn, u) == |items| ==> LiveOf(t + extra, id, user))
    ensures Resolves(items, t + extra, user, ids + [id], urls + [u])
  {
    forall j | 0 <= j < |urls|
      ensures Holds(t + extra, ids[j], urls[j])
      ensures FirstMatch(items, UrlColumn, urls[j]) == |items| ==> LiveOf(t + extra, ids[j], user)
    {
      HoldsAppend(t, extra, ids[j], urls[j], user);
    }
  }

  /** The id one step adds finds, in the table after the step, a row holding its URL. */
  lemma StepResolves(items: seq<Row>, user: string, p: Pending, i: nat, u: string, fails: Stmt -> bool)
    requires p.fault == None && IdsBelow(items + p.rows, p.lastID)
    ensures var p' := Step(items, user, p, i, u, fails);
      var t := items + p'.rows;
      p'.fault == None ==>
        && p.rows <= p'.rows
        && Holds(t, p'.ids[|p.ids|], u)
        && (FirstMatch(items, UrlColumn, u) == |items| ==> LiveOf(t, p'.ids[|p.ids|], user))
  {
    var p' := Step(items, user, p, i, u, fails);
    var k := FirstMatch(items, UrlColumn, u);
    var t0 := items + p.rows;
    if p'.fault == None {
      if k < |items| {
        assert t0[k] == items[k];
        FirstMatchUnique(t0, k);
      } else {
        var r := Row(Sprint(p.lastID + 1), u, user, false);
        IdsBelowNext(t0, p.lastID, r);
        FirstMatchAppend(t0, [r], IdColumn, r.id);
        assert items + p'.rows == t0 + [r];
      }
    }
  }

  /** Without a failure, `ErrExists` is reported exactly when some URL had a committed row. */
  lemma {:induction false} RunDup(items: seq<Row>, lastID: nat, user: string, urls: seq<string>, fails: Stmt -> bool)
    ensures var p := Run(items, lastID, user, urls, fails);
      p.fault == None ==> (p.dup <==> exists j :: 0 <= j < |urls| && FirstMatch(items, UrlColumn, urls[j]) < |items|)
    decreases |urls|
  {
    var p := Run(items, lastID, user, urls, fails);
    if urls != [] && p.fault == None {
      var n := |urls| - 1;
      var prev := Run(items, lastID, user, urls[..n], fails);
      assert p == Step(items, user, prev, n, urls[n], fails);
      RunDup(items, lastID, user, urls[..n], fails);
      assert forall j :: 0 <= j < n ==> urls[..n][j] == urls[j];
      if FirstMatch(items, UrlColumn, urls[n]) < |items| {
        assert p.dup;
      } else {
        assert p.dup == prev.dup;
      }
    }
  }

  /** Without a failure, a URL that had a committed row gets that row's id. */
  lemma {:induction false} RunKnown(items: seq<Row>, lastID: nat, user: string, urls: seq<string>, fails: Stmt -> bool)
    ensures var p := Run(items, lastID, user, urls, fails);
      p.fault == None ==> KnownIds(items, p.ids, urls)
    decreases |urls|
  {
    var p := Run(items, lastID, user, urls, fails);
    if urls != [] && p.fault == None {
      var n := |urls| - 1;
      var prev := Run(items, lastID, user, urls[..n], fails);
      assert p == Step(items, user, prev, n, urls[n], fails);
      RunKnown(items, lastID, user, urls[..n], fails);
      assert p.ids == prev.ids + [p.ids[n]];
      assert urls == urls[..n] + [urls[n]];
      KnownSnoc(items, prev.ids, urls[..n], p.ids[n], urls[n]);
    }
  }

  /** Id j is the committed id of URL j, whenever URL j had a committed row. */
  ghost predicate KnownIds(items: seq<Row>, ids: seq<string>, urls: seq<string>)
  {
    && |ids| == |urls|
    && forall j :: 0 <= j < |urls| && FirstMatch(items, UrlColumn, urls[j]) < |items| ==>
         ids[j] == items[FirstMatch(items, UrlColumn, urls[j])].id
  }

  lemma KnownSnoc(items: seq<Row>, ids: seq<string>, urls: seq<string>, id: string, u: string)
    requires KnownIds(items, ids, urls)
    requires FirstMatch(items, UrlColumn, u) < |items| ==> id == items[FirstMatch(items, UrlColumn, u)].id
    ensures KnownIds(items, ids + [id], urls + [u])
  {
    assert forall j :: 0 <= j < |urls| ==> (ids + [id])[j] == ids[j] && (urls + [u])[j] == urls[j];
  }

  /**
   * The effect of one call: a committed call (nil or `ErrExists`) returns an
   * id per URL and adds the inserted rows after the old ones; every other
   * outcome leaves the table as it was, and only a failed `Begin` panics.
   * The counter never goes back.
   */
  lemma InsertEffect(items: seq<Row>, lastID: nat, user: string, urls: seq<string>, fails: Stmt -> bool)
    ensures var c := Insert(items, lastID, user, urls, fails);
      && lastID <= c.lastID
      && (c.panicked <==> fails(Stmt(Begin, 0)))
      && (c.err == None || c.err == Some(ErrExists) ==> !c.panicked && |c.ids| == |urls| && items <= c.table)
      && (c.err != None && c.err != Some(ErrExists) ==> c.table == items && c.err.value.Medium?)
  {
    RunShape(items, lastID, user, urls, fails);
  }

  /** The counter stays ahead of the table across any call, committed or not. */
  lemma InsertKeepsIds(items: seq<Row>, lastID: nat, user: string, urls: seq<string>, fails: Stmt -> bool)
    requires IdsBelow(items, lastID)
    ensures var c := Insert(items, lastID, user, urls, fails);
      IdsBelow(c.table, c.lastID)
  {
    var c := Insert(items, lastID, user, urls, fails);
    if c.table == items {
      assert lastID <= c.lastID by {
        RunShape(items, lastID, user, urls, fails);
      }
      IdsBelowMono(items, lastID, c.lastID);
    } else {
      RunKeepsIds(items, lastID, user, urls, fails);
    }
  }

  /**
   * Round trip through `GetOriginal`: after a committed call every returned
   * id looks up its URL, or `ErrDeleted` for a URL stored earlier and since
   * deleted; a URL that had no row always looks up as itself.
   */
  lemma InsertThenLookup(items: seq<Row>, lastID: nat, user: string, urls: seq<string>, fails: Stmt -> bool)
    requires IdsBelow(items, lastID)
    ensures var c := Insert(items, lastID, user, urls, fails);
      c.err == None || c.err == Some(ErrExists) ==>
        && |c.ids| == |urls|
        && forall j :: 0 <= j < |urls| ==>
             && (Lookup(c.table, c.ids[j]) == (urls[j], None) || Lookup(c.table, c.ids[j]) == ("", Some(ErrDeleted)))
             && (FirstMatch(items, UrlColumn, urls[j]) == |items| ==> Lookup(c.table, c.ids[j]) == (urls[j], None))
  {
    var c := Insert(items, lastID, user, urls, fails);
    if c.err == None || c.err == Some(ErrExists) {
      var p := Run(items, lastID, user, urls, fails);
      assert p.fault == None && c.ids == p.ids && c.table == items + p.rows;
      assert Resolves(items, c.table, user, c.ids, urls) by {
        RunResolves(items, lastID, user, urls, fails);
      }
      assert UniqueIds(c.table) by {
        InsertKeepsIds(items, lastID, user, urls, fails);
      }
      LookupsResolve(items, c.table, user, c.ids, urls);
    }
  }

  /** With unique ids, each id that resolves is found by `Lookup`, unless its row is deleted; a row inserted by the call is live. */
  lemma LookupsResolve(items: seq<Row>, t: seq<Row>, user: string, ids: seq<string>, urls: seq<string>)
    requires UniqueIds(t) && Resolves(items, t, user, ids, urls)
    ensures |ids| == |urls|
    ensures forall j :: 0 <= j < |urls| ==>
      && (Lookup(t, ids[j]) == (urls[j], None) || Lookup(t, ids[j]) == ("", Some(ErrDeleted)))
      && (FirstMatch(items, UrlColumn, urls[j]) == |items| ==> Lookup(t, ids[j]) == (urls[j], None))
  {
    forall j | 0 <= j < |urls|
      ensures Lookup(t, ids[j]) == (urls[j], None) || Lookup(t, ids[j]) == ("", Some(ErrDeleted))
      ensures FirstMatch(items, UrlColumn, urls[j]) == |items| ==> Lookup(t, ids[j]) == (urls[j], None)
    {
      LookupHolds(t, ids[j], urls[j]);
    }
  }

  lemma LookupHolds(t: seq<Row>, id: string, u: string)
    requires UniqueIds(t) && Holds(t, id, u)
    ensures Lookup(t, id) == (u, None) || Lookup(t, id) == ("", Some(ErrDeleted))
    ensures Holds(t, id, u) && !t[FirstMatch(t, IdColumn, id)].deleted ==> Lookup(t, id) == (u, None)
  {
  }

  function NoFaults(s: Stmt): bool
  {
    false
  }

  /**
   * The duplicate lookup sees committed rows only: a URL repeated in one
   * batch on an empty table is inserted twice, under two ids, and nothing
   * reports `ErrExists`.
   */
  lemma RepeatedInBatch(user: string)
    ensures Insert([], 0, user, ["a", "a"], NoFaults)
      == Committed(["1", "2"], None, false, [Row("1", "a", user, false), Row("2", "a", user, false)], 2)
  {
    assert ["a", "a"][..1] == ["a"];
    assert ["a"][..0] == [];
  }

  function ExecFails(s: Stmt): bool
  {
    s.op == Exec
  }

  /** A failed insert rolls the table back but keeps the counter's increment. */
  lemma FailedInsertKeepsCount(items: seq<Row>, lastID: nat, user: string, u: string)
    requires FirstMatch(items, UrlColumn, u) == |items|
    ensures Insert(items, lastID, user, [u], ExecFails)
      == Committed([], Some(Medium(Exec)), false, items, lastID + 1)
  {
    assert [u][..0] == [];
    var p0 := Pending([], lastID, [], false, None);
    assert Run(items, lastID, user, [], ExecFails) == p0;
    assert !ExecFails(Stmt(Query, 0)) && !ExecFails(Stmt(RowsErr, 0)) && ExecFails(Stmt(Exec, 0));
    assert Fresh(p0, u, user, 0, ExecFails) == p0.(lastID := lastID + 1, fault := Some(Exec));
    assert Run(items, lastID, user, [u], ExecFails) == Step(items, user, p0, 0, u, ExecFails);
  }

  /**
   * The counter skips the ids of a rolled-back batch, so the row count that
   * seeds it at the next start can be below a stored id: here "1" is lost
   * to a failed insert, "b" is stored under "2", and after a restart
   * (counter 1) the next URL is stored under "2" as well, which then looks
   * up as "b".
   */
  lemma RestartReusesId(user: string)
    ensures var lost := Insert([], 0, user, ["a"], ExecFails);
      var kept := Insert(lost.table, lost.lastID, user, ["b"], NoFaults);
      var again := Insert(kept.table, |kept.table|, user, ["c"], NoFaults);
      && kept.table == [Row("2", "b", user, false)]
      && !IdsBelow(kept.table, |kept.table|)
      && again.ids == ["2"] && again.err == None
      && Lookup(again.table, "2") == ("b", None)
  {
    FailedInsertKeepsCount([], 0, user, "a");
    assert Sprint(2) == "2";
    InsertOneFresh([], 1, user, "b");
    var t := [Row("2", "b", user, false)];
    assert FirstMatch(t, UrlColumn, "c") == 1;
    InsertOneFresh(t, 1, user, "c");
    var t2 := t + [Row("2", "c", user, false)];
    assert FirstMatch(t2, IdColumn, "2") == 0;
    assert t[0].id == Sprint(2);
  }

  /** A single URL without a row, with nothing failing, is stored under the next id. */
  lemma InsertOneFresh(items: seq<Row>, lastID: nat, user: string, u: string)
    requires FirstMatch(items, UrlColumn, u) == |items|
    ensures Insert(items, lastID, user, [u], NoFaults)
      == Committed([Sprint(lastID + 1)], None, false, items + [Row(Sprint(lastID + 1), u, user, false)], lastID + 1)
  {
    assert [u][..0] == [];
    var p0 := Pending([], lastID, [], false, None);
    assert Run(items, lastID, user, [], NoFaults) == p0;
    assert Fresh(p0, u, user, 0, NoFaults) == Pending([Row(Sprint(lastID + 1), u, user, false)], lastID + 1, [Sprint(lastID + 1)], false, None);
    assert Run(items, lastID, user, [u], NoFaults) == Step(items, user, p0, 0, u, NoFaults);
  }

  /**
   * `GetOriginal` after the query ran: no row gives "" and `ErrNotFound`, a
   * deleted row gives "" and `ErrDeleted` (the URL withheld), a live row its URL.
   */
  function Lookup(t: seq<Row>, id: string): (r: (string, Option<Error>))
    ensures r.1 == None || r.1 == Some(ErrNotFound) || r.1 == Some(ErrDeleted)
    ensures r.1 != None ==> r.0 == ""
    ensures r.1 == Some(ErrNotFound) <==> forall j :: 0 <= j < |t| ==> t[j].id != id
    ensures UniqueIds(t) ==> forall j :: 0 <= j < |t| && t[j].id == id ==>
      r == (if t[j].deleted then ("", Some(ErrDeleted)) else (t[j].url, None))
  {
    var k := FirstMatch(t, IdColumn, id);
    if k == |t| then ("", Some(ErrNotFound))
    else
      (FirstMatchUniqueAll(t, id);
       if t[k].deleted then ("", Some(ErrDeleted)) else (t[k].url, None))
  }

  lemma FirstMatchUniqueAll(t: seq<Row>, id: string)
    requires FirstMatch(t, IdColumn, id) < |t|
    ensures UniqueIds(t) ==> forall j :: 0 <= j < |t| && t[j].id == id ==> FirstMatch(t, IdColumn, id) == j
  {
    if UniqueIds(t) {
      forall j | 0 <= j < |t| && t[j].id == id
        ensures FirstMatch(t, IdColumn, id) == j
      {
        FirstMatchUnique(t, j);
      }
    }
  }

  /** The table after one `UPDATE items SET deleted = true WHERE id = $1 AND cookie = $2`. */
  function Update(t: seq<Row>, id: string, user: string): (t': seq<Row>)
    ensures |t'| == |t|
  {
    seq(|t|, k requires 0 <= k < |t| => if t[k].id == id && t[k].cookie == user then t[k].(deleted := true) else t[k])
  }

  /**
   * The table after every update of `MarkAsDeleted(user, ids)`: exactly the
   * rows of `user` whose id is listed become deleted; ids, URLs and owners
   * stay, and a deleted row stays deleted.
   */
  function Marked(t: seq<Row>, user: string, ids: seq<string>): (t': seq<Row>)
    ensures |t'| == |t|
    ensures forall k :: 0 <= k < |t| ==>
      && t'[k].id == t[k].id && t'[k].url == t[k].url && t'[k].cookie == t[k].cookie
      && (t'[k].deleted <==> t[k].deleted || (t[k].cookie == user && t[k].id in ids))
    decreases |ids|
  {
    if ids == [] then t else Update(Marked(t, user, ids[..|ids| - 1]), ids[|ids| - 1], user)
  }

  /** Marking twice is marking once, and a user's marks never touch another user's rows. */
  lemma MarkedIdempotent(t: seq<Row>, user: string, ids: seq<string>)
    ensures Marked(Marked(t, user, ids), user, ids) == Marked(t, user, ids)
    ensures forall k :: 0 <= k < |t| && t[k].cookie != user ==> Marked(t, user, ids)[k] == t[k]
  {
    var once := Marked(t, user, ids);
    var twice := Marked(once, user, ids);
    assert forall k :: 0 <= k < |t| ==> twice[k] == once[k];
  }

  /** Marking changes no id, so the counter stays ahead of the table. */
  lemma MarkedKeepsIds(t: seq<Row>, user: string, ids: seq<string>, lastID: nat)
    requires IdsBelow(t, lastID)
    ensures IdsBelow(Marked(t, user, ids), lastID)
  {
  }

  /**
   * `SELECT id, url FROM items WHERE cookie = $1`, in table order: the bare
   * id and the URL of every row of `user`, deleted rows included.
   */
  function OwnedRows(t: seq<Row>, user: string): (h: seq<URLs>)
    ensures |h| <= |t|
    decreases |t|
  {
    if t == [] then []
    else
      var h := OwnedRows(t[..|t| - 1], user);
      var r := t[|t| - 1];
      if r.cookie == user then h + [URLs(r.id, r.url)] else h
  }

  /** The rows `OwnedRows` lists are exactly the user's rows. */
  lemma {:induction false} OwnedRowsExact(t: seq<Row>, user: string, e: URLs)
    ensures e in OwnedRows(t, user) <==> exists j :: 0 <= j < |t| && t[j].cookie == user && URLs(t[j].id, t[j].url) == e
    decreases |t|
  {
    if t != [] {
      var n := |t| - 1;
      OwnedRowsExact(t[..n], user, e);
      if exists j :: 0 <= j < |t| && t[j].cookie == user && URLs(t[j].id, t[j].url) == e {
        var j :| 0 <= j < |t| && t[j].cookie == user && URLs(t[j].id, t[j].url) == e;
        if j < n {
          assert t[..n][j] == t[j];
        }
      }
      if e in OwnedRows(t[..n], user) {
        var j :| 0 <= j < n && t[..n][j].cookie == user && URLs(t[..n][j].id, t[..n][j].url) == e;
        assert t[j] == t[..n][j];
      }
    }
  }

  /**
   * The first point in the cursor loop over `count` rows, from `i` on, where
   * the driver fails: advancing to row n (`RowsErr`, n may be `count`, the
   * last advance) or scanning row n (`Scan`); `count + 1` when none fails.
   */
  function FirstFault(fails: Stmt -> bool, i: nat, count: nat): (n: nat)
    requires i <= count + 1
    ensures i <= n <= count + 1
    ensures n <= count ==> fails(Stmt(RowsErr, n)) || (n < count && fails(Stmt(Scan, n)))
    ensures forall m :: i <= m < n ==> !fails(Stmt(RowsErr, m)) && (m < count ==> !fails(Stmt(Scan, m)))
    decreases count + 1 - i
  {
    if i == count + 1 then i
    else if fails(Stmt(RowsErr, i)) || (i < count && fails(Stmt(Scan, i))) then i
    else FirstFault(fails, i + 1, count)
  }

  /** A Go slice built by appending from nil: nil while empty. */
  function Appended<T>(s: seq<T>): (r: Option<seq<T>>)
    ensures r == None <==> s == []
    ensures r.Some? ==> r.value == s
  {
    if s == [] then None else Some(s)
  }

  /**
   * `GetURLArrayByUser` after its query ran over `rows`: the rows read
   * before the first failure, and that failure's error; every row and nil
   * when nothing fails.
   */
  function Listing(rows: seq<URLs>, fails: Stmt -> bool): (r: (Option<seq<URLs>>, Option<Error>))
    ensures r.1 == None ==> r.0 == Appended(rows) && forall m :: 0 <= m < |rows| ==> !fails(Stmt(Scan, m))
    ensures r.1 != None ==> r.1 == Some(Medium(RowsErr)) || r.1 == Some(Medium(Scan))
    ensures r.0 == None || r.0.value <= rows
  {
    var n := FirstFault(fails, 0, |rows|);
    if n > |rows| then (Appended(rows), None)
    else (Appended(rows[..n]), Some(Medium(if fails(Stmt(RowsErr, n)) then RowsErr else Scan)))
  }

  /** Without driver failures the listing is every row of the user, and nil exactly when the user has none. */
  lemma ListingNoFaults(t: seq<Row>, user: string)
    ensures Listing(OwnedRows(t, user), NoFaults) == (Appended(OwnedRows(t, user)), None)
    ensures Listing(OwnedRows(t, user), NoFaults).0 == None <==> forall j :: 0 <= j < |t| ==> t[j].cookie != user
  {
    var h := OwnedRows(t, user);
    if h != [] {
      OwnedRowsExact(t, user, h[0]);
    } else {
      forall j | 0 <= j < |t|
        ensures t[j].cookie != user
      {
        OwnedRowsExact(t, user, URLs(t[j].id, t[j].url));
      }
    }
  }
}
