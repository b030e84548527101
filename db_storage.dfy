/**
 * The relational backend (`DBStorage`): the committed rows of `items` and
 * the in-memory counter `LastID`. Every statement a method issues may fail,
 * as the oracle `fails` says; a transaction's changes become visible only
 * at its commit. `Valid()` says the counter is ahead of every stored id.
 */
module DBBackend {
  import opened Common
  import opened Decimal
  import opened Configuration
  import opened DBModel

  class DBStorage {
    const Cfg: Config
    var Items: seq<Row>
    var LastID: nat

    ghost predicate Valid()
      reads this
    {
      IdsBelow(Items, LastID)
    }

    constructor (cfg: Config, table: seq<Row>)
      ensures Cfg == cfg && Items == table && LastID == 0
    {
      Cfg, Items, LastID := cfg, table, 0;
    }

    /**
     * `NewDBStorage`: connects to the database holding `table` and seeds the
     * counter with `SELECT COUNT(*) FROM items`. The storage is valid exactly
     * when no stored id is the decimal form of a number above the row count.
     */
    static method NewDBStorage(cfg: Config, table: seq<Row>, openFails: bool, countFails: bool) returns (s: DBStorage, err: Option<Error>)
      ensures fresh(s) && s.Cfg == cfg && s.Items == table
      ensures openFails ==> err == Some(Medium(Open)) && s.LastID == 0
      ensures !openFails && countFails ==> err == Some(Medium(Scan)) && s.LastID == 0
      ensures !openFails && !countFails ==> err == None && s.LastID == |table|
      ensures err == None ==> (s.Valid() <==> IdsBelow(table, |table|))
    {
      s := new DBStorage(cfg, table);
      if openFails {
        return s, Some(Medium(Open));
      }
      if countFails {
        return s, Some(Medium(Scan));
      }
      s.LastID := |table|;
      err := None;
    }

    /** `PingDB`: the driver's ping of the connection. */
    function PingDB(pingFails: bool): Option<Error>
    {
      if pingFails then Some(Medium(Ping)) else None
    }

    /**
     * `CreateShort`, as `Insert` says: in one transaction, looks each URL up
     * among the committed rows and inserts the unknown ones under the next
     * values of the counter. The counter is not restored when the
     * transaction rolls back.
     */
    method CreateShort(userID: string, urls: seq<string>, fails: Stmt -> bool) returns (result: seq<string>, err: Option<Error>, panicked: bool)
      modifies this`Items, this`LastID
      ensures Committed(result, err, panicked, Items, LastID) == Insert(old(Items), old(LastID), userID, urls, fails)
      ensures old(Valid()) ==> Valid()
    {
      if Valid() {
        InsertKeepsIds(Items, LastID, userID, urls, fails);
      }
      if fails(Stmt(Begin, 0)) {
        return [], Some(Medium(Begin)), true;
      }
      if fails(Stmt(Prepare, 0)) {
        return [], Some(Medium(Prepare)), false;
      }
      var pending, dup, fault;
      pending, result, dup, fault := Shorten(userID, urls, fails);
      if fault.Some? {
        return result, Some(Medium(fault.value)), false;
      }
      if fails(Stmt(Commit, 0)) {
        return result, Some(Medium(Commit)), false;
      }
      Items := Items + pending;
      err := if dup then Some(ErrExists) else None;
      panicked := false;
    }

    /** The URL loop of `CreateShort`, inside the transaction: it stops at the first failed statement. */
    method Shorten(userID: string, urls: seq<string>, fails: Stmt -> bool) returns (pending: seq<Row>, result: seq<string>, dup: bool, fault: Option<Op>)
      modifies this`LastID
      ensures Pending(pending, LastID, result, dup, fault) == Run(Items, old(LastID), userID, urls, fails)
    {
      pending, result, dup, fault := [], [], false, None;
      var i := 0;
      while i < |urls|
        invariant i <= |urls| && fault == None
        invariant Run(Items, old(LastID), userID, urls[..i], fails) == Pending(pending, LastID, result, dup, None)
      {
        var p := Pending(pending, LastID, result, dup, None);
        var p' := LookupOrInsert(userID, p, i, urls[i], fails);
        assert urls[..i + 1][..i] == urls[..i];
        pending, LastID, result, dup, fault := p'.rows, p'.lastID, p'.ids, p'.dup, p'.fault;
        if fault.Some? {
          RunStops(Items, old(LastID), userID, urls, fails, i + 1);
          return;
        }
        i := i + 1;
      }
      assert urls[..i] == urls;
    }

    /**
     * One turn of the URL loop of `CreateShort` on the transaction state
     * `p`: the lookup on the committed rows, then the scan of the id found
     * or the increment of the counter and the insert, each of which may fail.
     */
    method LookupOrInsert(userID: string, p: Pending, i: nat, u: string, fails: Stmt -> bool) returns (p': Pending)
      requires p.fault == None
      ensures p' == Step(Items, userID, p, i, u, fails)
    {
      if fails(Stmt(Query, i)) {
        return p.(fault := Some(Query));
      }
      var k := FirstMatch(Items, UrlColumn, u);
      p' := p;
      if k < |Items| {
        if fails(Stmt(Scan, i)) {
          return p.(fault := Some(Scan));
        }
        p' := p'.(ids := p'.ids + [Items[k].id], dup := true);
      }
      if fails(Stmt(RowsErr, i)) {
        return p'.(fault := Some(RowsErr));
      }
      if k == |Items| {
        var id := Sprint(p.lastID + 1);
        if fails(Stmt(Exec, i)) {
          return p.(lastID := p.lastID + 1, fault := Some(Exec));
        }
        p' := Pending(p.rows + [Row(id, u, userID, false)], p.lastID + 1, p.ids + [id], p.dup, None);
      }
    }

    /**
     * `GetOriginal`: a failed query yields "" and its error; otherwise no row
     * gives `ErrNotFound`, a deleted row "" and `ErrDeleted`, a live row its
     * URL. No other error is possible.
     */
    function GetOriginal(id: string, queryFails: bool): (r: (string, Option<Error>))
      reads this
      ensures queryFails ==> r == ("", Some(Medium(Query)))
      ensures !queryFails ==> r.1 == None || r.1 == Some(ErrNotFound) || r.1 == Some(ErrDeleted)
      ensures r.1 != None ==> r.0 == ""
      ensures !queryFails ==> (r.1 == Some(ErrNotFound) <==> forall j :: 0 <= j < |Items| ==> Items[j].id != id)
      ensures !queryFails && Valid() ==> forall j :: 0 <= j < |Items| && Items[j].id == id ==>
        r == (if Items[j].deleted then ("", Some(ErrDeleted)) else (Items[j].url, None))
    {
      if queryFails then ("", Some(Medium(Query))) else Lookup(Items, id)
    }

    /**
     * `MarkAsDeleted`: in one transaction, one update per id of the rows
     * whose id and cookie match; zero matching rows is no error. Any failure
     * rolls every update back; a failed `Begin` panics.
     */
    method MarkAsDeleted(userID: string, ids: seq<string>, fails: Stmt -> bool) returns (err: Option<Error>, panicked: bool)
      modifies this`Items
      ensures panicked <==> fails(Stmt(Begin, 0))
      ensures err == None <==> !fails(Stmt(Begin, 0)) && !fails(Stmt(Prepare, 0)) && !fails(Stmt(Commit, 0)) && forall i :: 0 <= i < |ids| ==> !fails(Stmt(Exec, i))
      ensures err == None ==> Items == Marked(old(Items), userID, ids)
      ensures err != None ==> Items == old(Items) && err.value.Medium?
      ensures old(Valid()) ==> Valid()
    {
      if Valid() {
        MarkedKeepsIds(Items, userID, ids, LastID);
      }
      if fails(Stmt(Begin, 0)) {
        return Some(Medium(Begin)), true;
      }
      panicked := false;
      if fails(Stmt(Prepare, 0)) {
        return Some(Medium(Prepare)), false;
      }
      var work := Items;
      var i := 0;
      while i < |ids|
        invariant i <= |ids| && work == Marked(Items, userID, ids[..i])
        invariant forall j :: 0 <= j < i ==> !fails(Stmt(Exec, j))
      {
        if fails(Stmt(Exec, i)) {
          return Some(Medium(Exec)), false;
        }
        assert ids[..i + 1][..i] == ids[..i];
        work := Update(work, ids[i], userID);
        i := i + 1;
      }
      assert ids[..i] == ids;
      if fails(Stmt(Commit, 0)) {
        return Some(Medium(Commit)), false;
      }
      Items := work;
      err := None;
    }

    /**
     * `GetURLArrayByUser`: the bare id and the URL of every row of the user,
     * deleted ones included, as `Listing` says; a failed query yields nil
     * and its error.
     */
    method GetURLArrayByUser(userID: string, fails: Stmt -> bool) returns (history: Option<seq<URLs>>, err: Option<Error>)
      ensures fails(Stmt(Query, 0)) ==> history == None && err == Some(Medium(Query))
      ensures !fails(Stmt(Query, 0)) ==> (history, err) == Listing(OwnedRows(Items, userID), fails)
    {
      if fails(Stmt(Query, 0)) {
        return None, Some(Medium(Query));
      }
      var rows := OwnedRows(Items, userID);
      var all: seq<URLs> := [];
      var n := 0;
      while n < |rows|
        invariant n <= |rows| && all == rows[..n]
        invariant forall m :: 0 <= m < n ==> !fails(Stmt(RowsErr, m)) && !fails(Stmt(Scan, m))
      {
        if fails(Stmt(RowsErr, n)) {
          return Appended(all), Some(Medium(RowsErr));
        }
        if fails(Stmt(Scan, n)) {
          return Appended(all), Some(Medium(Scan));
        }
        all := all + [rows[n]];
        n := n + 1;
      }
      assert all == rows;
      if fails(Stmt(RowsErr, n)) {
        return Appended(all), Some(Medium(RowsErr));
      }
      history, err := Appended(all), None;
    }
  }
}
