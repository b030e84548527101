/**
 * The decisions of the HTTP handlers around the storage: how `ShortURLs`
 * assembles a batch answer, and which status each storage outcome gets in
 * `RecoverOriginalURL`, `RecoverOriginalURLPost` and `RecoverAllURL`. The
 * storage call is a parameter: `create` is what `CreateShort` of the
 * caller's storage answers for a list of URLs, and a lookup or a history is
 * passed as the value the storage returned.
 */
module Handlers {
  import opened Common
  import opened Decimal
  import opened MapModel
  import opened MapBackend
  import opened FileBackend
  import opened DBModel
  import opened DBBackend
  import opened Repository
  import opened Lines

  /** The answer of a storage's `CreateShort` for each list of URLs. */
  type Shortener = seq<string> -> (Option<seq<string>>, Option<Error>)

  /** The number of elements of a Go slice, nil counting as empty. */
  function Len<T>(s: Option<seq<T>>): nat
  {
    if s.Some? then |s.value| else 0
  }

  /** A storage error other than `ErrExists`: the handlers give up on it. */
  predicate Fails(err: Option<Error>)
  {
    err != None && err != Some(ErrExists)
  }

  /**
   * `ShortURLs`: passes the original URLs of the batch, in order, to
   * `CreateShort`; on an error other than `ErrExists` answers nil and that
   * error; otherwise answers, for entry i, its correlation id and the link
   * of id i, together with the storage's error. Indexing a reply shorter
   * than the batch panics.
   */
  method ShortURLs(base: string, batch: seq<URLBatch>, create: Shortener) returns (out: Option<seq<URLBatch>>, err: Option<Error>, panicked: bool)
    ensures var reply := create(Originals(batch));
      && (Fails(reply.1) ==> out == None && err == reply.1 && !panicked)
      && (!Fails(reply.1) ==> (panicked <==> Len(reply.0) < |batch|))
      && (!Fails(reply.1) && !panicked ==>
            && err == reply.1 && out.Some? && |out.value| == |batch|
            && forall i :: 0 <= i < |batch| ==>
                 out.value[i] == URLBatch(batch[i].CorrelationID, "", ShortLink(base, reply.0.value[i])))
    ensures Complete(create(Originals(batch)), |batch|) ==> !panicked
  {
    var urls: seq<string> := [];
    var i := 0;
    while i < |batch|
      invariant i <= |batch| && |urls| == i
      invariant forall j :: 0 <= j < i ==> urls[j] == batch[j].OriginalURL
    {
      urls := urls + [batch[i].OriginalURL];
      i := i + 1;
    }
    assert urls == Originals(batch);
    var reply := create(urls);
    var result, e := reply.0, reply.1;
    if Fails(e) {
      return None, e, false;
    }
    var ids: seq<string> := if result.Some? then result.value else [];
    var entries: seq<URLBatch> := [];
    i := 0;
    while i < |batch|
      invariant i <= |batch| && |entries| == i && i <= |ids|
      invariant forall j :: 0 <= j < i ==> entries[j] == URLBatch(batch[j].CorrelationID, "", ShortLink(base, ids[j]))
    {
      if i >= |ids| {
        return None, e, true;
      }
      entries := entries + [URLBatch(batch[i].CorrelationID, "", ShortLink(base, ids[i]))];
      i := i + 1;
    }
    out, err, panicked := Some(entries), e, false;
  }

  /** The original URLs of a batch, in order. */
  function Originals(batch: seq<URLBatch>): (urls: seq<string>)
    ensures |urls| == |batch|
    ensures forall j :: 0 <= j < |batch| ==> urls[j] == batch[j].OriginalURL
  {
    seq(|batch|, j requires 0 <= j < |batch| => batch[j].OriginalURL)
  }

  /** A piece of a response body: an error or plain text, a `{"result": ...}` object, or a JSON history. */
  datatype Part = Text(text: string) | Result(link: string) | History(entries: seq<URLs>)

  /** An HTTP response: status, the one header a handler sets (`Location` or `Content-Type`), and the body; or a panic. */
  datatype Response = Response(status: nat, header: Option<string>, body: seq<Part>) | Panicked

  /**
   * `RecoverOriginalURL` for the id of the path and what `GetOriginal(id)`
   * answered: a redirect to the URL, or the status of the error.
   */
  function RecoverOriginalURL(id: string, got: (string, Option<Error>)): (r: Response)
    ensures r.Response?
    ensures r.status == 307 <==> id != "" && got.1 == None
    ensures r.status == 307 ==> r.header == Some(got.0)
    ensures r.status != 307 ==> r.header == None
    ensures id == "" ==> r.status == 400
    ensures id != "" && got.1 == Some(ErrDeleted) ==> r.status == 410
    ensures id != "" && got.1 == Some(ErrNotFound) ==> r.status == 404
    ensures id != "" && Fails(got.1) && got.1 != Some(ErrDeleted) && got.1 != Some(ErrNotFound) ==> r.status == 500
  {
    if id == "" then Response(400, None, [Text("missing id parameter")])
    else if got.1 == Some(ErrDeleted) then Response(410, None, [Text("url is deleted")])
    else if got.1 == Some(ErrNotFound) then Response(404, None, [Text("not found")])
    else if got.1 != None then Response(500, None, [Text(Message(got.1.value))])
    else Response(307, Some(got.0), [])
  }

  /** On the map backend a stored id redirects to its URL until it is deleted, then answers 410. */
  lemma MapRecover(m: MapStorage, k: nat)
    requires m.Valid() && 1 <= k <= |m.Urls|
    ensures var r := RecoverOriginalURL(Sprint(k), m.GetOriginal(Sprint(k)));
      && (Sprint(k) in m.Deleted ==> r.status == 410)
      && (Sprint(k) !in m.Deleted ==> r.status == 307 && r.header == Some(m.Urls[k - 1]))
  {
    assert Sprint(k) != "";
    LocationAt(m.Urls, k);
  }

  /** On the map backend an id that no stored URL has answers 404. */
  lemma MapRecoverUnknown(m: MapStorage, id: string)
    requires m.Valid() && id != ""
    requires forall k :: 1 <= k <= |m.Urls| ==> id != Sprint(k)
    ensures RecoverOriginalURL(id, m.GetOriginal(id)).status == 404
  {
  }

  /** On the database backend a live row redirects to its URL and a deleted row answers 410. */
  lemma DBRecover(d: DBStorage, j: nat)
    requires d.Valid() && j < |d.Items| && d.Items[j].id != ""
    ensures var r := RecoverOriginalURL(d.Items[j].id, d.GetOriginal(d.Items[j].id, false));
      && (d.Items[j].deleted ==> r.status == 410)
      && (!d.Items[j].deleted ==> r.status == 307 && r.header == Some(d.Items[j].url))
  {
  }

  /** The file backend never answers 410: its lookups hit (307) or miss (404). */
  lemma FileNeverGone(lines: seq<string>, id: string)
    requires id != ""
    ensures RecoverOriginalURL(id, Find(lines, id)).status in {307, 404}
  {
    FindMiss(lines, id);
  }

  /** A `POST /` request as the handler reads it: the cookie, the body, the content type, and the `url` field when the JSON body parses. */
  datatype PostRequest = PostRequest(hasCookie: bool, body: string, isJSON: bool, parsed: Option<string>)

  /** The URL a `POST /` request asks to shorten: the JSON `url` field, or the whole plain body. */
  function PostedURL(req: PostRequest): string
    requires req.isJSON ==> req.parsed.Some?
  {
    if req.isJSON then req.parsed.value else req.body
  }

  /**
   * `RecoverOriginalURLPost`: 400 without a cookie, with an empty body, with
   * JSON that does not parse, or when the storage fails with an error other
   * than `ErrExists`; otherwise the link of the first id, 409 for a URL the
   * storage already knew and 201 for a new one. Indexing an empty reply
   * panics.
   */
  function RecoverOriginalURLPost(base: string, req: PostRequest, create: Shortener): (r: Response)
    ensures !req.hasCookie || req.body == "" || (req.isJSON && req.parsed == None) ==> r.Response? && r.status == 400 && r.header == None
    ensures req.hasCookie && req.body != "" && (req.isJSON ==> req.parsed.Some?) ==>
      var reply := create([PostedURL(req)]);
      && (Fails(reply.1) ==> r == Response(400, None, [Text(Message(reply.1.value))]))
      && (!Fails(reply.1) ==> (r == Panicked <==> Len(reply.0) == 0))
      && (!Fails(reply.1) && Len(reply.0) > 0 ==>
            && r.status == (if reply.1 == Some(ErrExists) then 409 else 201)
            && r.body == [if req.isJSON then Result(ShortLink(base, reply.0.value[0])) else Text(ShortLink(base, reply.0.value[0]))])
  {
    if !req.hasCookie then Response(400, None, [Text("http: named cookie not present")])
    else if req.body == "" then Response(400, None, [Text("wrong body")])
    else if req.isJSON && req.parsed == None then Response(400, None, [Text("invalid JSON")])
    else
      var (res, errCreate) := create([PostedURL(req)]);
      if Fails(errCreate) then Response(400, None, [Text(Message(errCreate.value))])
      else if Len(res) == 0 then Panicked
      else
        var link := ShortLink(base, res.value[0]);
        var status := if errCreate == Some(ErrExists) then 409 else 201;
        if req.isJSON then Response(status, Some("application/json"), [Result(link)])
        else Response(status, Some("text/plain; charset=utf-8"), [Text(link)])
  }

  /**
   * On the map backend, posting a valid URL answers 201 and its new link the
   * first time, and 409 with the same link once the URL is stored.
   */
  lemma MapPost(urls0: seq<string>, owners0: seq<string>, user: string, u: string, isURI: string -> bool)
    requires Distinct(urls0) && |owners0| == |urls0| && isURI(u)
    ensures var reply := Outcome(CreateRun(urls0, owners0, user, [u], isURI));
      && reply.0.Some? && |reply.0.value| == 1
      && (u !in urls0 ==> reply == (Some([Sprint(|urls0| + 1)]), None))
      && (u in urls0 ==> reply == (Some([Sprint(IndexOf(urls0, u) + 1)]), Some(ErrExists)))
  {
    assert [u][..0] == [];
    var prev := CreateRun(urls0, owners0, user, [], isURI);
    assert prev == Created(urls0, owners0, [], false, None);
    var c := CreateRun(urls0, owners0, user, [u], isURI);
    assert c == MapModel.Step(prev, user, u, isURI);
    if u in urls0 {
      assert c.ids == [Sprint(IndexOf(urls0, u) + 1)] && c.known && c.bad == None;
    } else {
      assert c.ids == [Sprint(|urls0| + 1)] && !c.known && c.bad == None;
    }
  }

  /**
   * `RecoverAllURL` for the cookie and what `GetURLArrayByUser` answered.
   * After a storage error the handler writes 500 and does not return, so a
   * non-empty history is written after the error text, still under 500 and
   * without the JSON content type, whose header comes too late.
   */
  function RecoverAllURL(hasCookie: bool, got: (Option<seq<URLs>>, Option<Error>)): (r: Response)
    ensures r.Response?
    ensures !hasCookie ==> r.status == 400
    ensures hasCookie && got.1 != None ==> r.status == 500 && (Len(got.0) > 0 <==> |r.body| == 2)
    ensures r.status == 204 <==> hasCookie && got.1 == None && Len(got.0) == 0
    ensures r.status == 200 <==> hasCookie && got.1 == None && Len(got.0) > 0
    ensures r.status == 200 ==> r.body == [History(got.0.value)] && r.header == Some("application/json")
  {
    if !hasCookie then Response(400, None, [Text("http: named cookie not present")])
    else
      var errText := if got.1 != None then [Text(Message(got.1.value))] else [];
      if Len(got.0) == 0 then
        if got.1 != None then Response(500, None, errText) else Response(204, None, [])
      else
        Response(if got.1 != None then 500 else 200, if got.1 != None then None else Some("application/json"), errText + [History(got.0.value)])
  }

  /**
   * On the map backend the history `GetURLArrayByUser` returns (one entry
   * per id of the user) answers 204 exactly when the user created no URL; a
   * user without rows on the database backend gets 204 too.
   */
  lemma NoHistoryNoContent(m: MapStorage, user: string, h: seq<URLs>, t: seq<Row>)
    requires m.Valid() && |h| == |IdsOf(m.Owners, user)|
    requires forall j :: 0 <= j < |t| ==> t[j].cookie != user
    ensures RecoverAllURL(true, (Some(h), None)).status == 204 <==> user !in m.Owners
    ensures RecoverAllURL(true, Listing(OwnedRows(t, user), NoFaults)).status == 204
  {
    IdsOfExact(m.Owners, user);
    if user in m.Owners {
      var i :| 0 <= i < |m.Owners| && m.Owners[i] == user;
      assert Sprint(i + 1) in IdsOf(m.Owners, user);
    }
    ListingNoFaults(t, user);
  }

  /**
   * The file backend's history, read from the position the constructor or
   * `CreateShort` leaves (the end of the file), is empty: 204 however many
   * lines the file holds.
   */
  lemma FileHistoryAtEnd(content: string, from: nat, base: string)
    requires |content| <= from
    ensures RecoverAllURL(true, (FileBackend.History(content, from, base), None)).status == 204
  {
    HistoryAtEnd(content, from, base);
  }

  /** Read from the start of the file, as intended, the history answers 200 exactly when the file holds a line. */
  lemma FileHistoryFromStart(content: string, base: string)
    ensures RecoverAllURL(true, (FileBackend.History(content, 0, base), None)).status == (if LinesOf(content) == [] then 204 else 200)
  {
    HistoryFromStart(content, base);
  }
}
