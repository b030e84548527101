/**
 * The append-only file backend (`FileStorage`). The file's bytes are
 * `Content`; the i-th line that a scan yields (1-based) is the URL with id
 * `Sprint(i)`. `LastID` is the counter the constructor seeds with the number
 * of lines and `CreateShort` advances; `Pos` is the offset of the open
 * file's read/write position, which the methods that scan or seek move.
 */
module FileBackend {
  import opened Common
  import opened Decimal
  import opened Lines
  import opened Configuration

  /** `GetOriginal` over the scanned lines: the first line whose number prints as `id`. */
  function Find(lines: seq<string>, id: string): (string, Option<Error>)
  {
    FindFrom(lines, id, 0)
  }

  function FindFrom(lines: seq<string>, id: string, i: nat): (string, Option<Error>)
    decreases |lines| - i
  {
    if i >= |lines| then ("", Some(ErrNotFound))
    else if Sprint(i + 1) == id then (lines[i], None)
    else FindFrom(lines, id, i + 1)
  }

  /** The id "k" finds the k-th line. */
  lemma {:induction false} FindHit(lines: seq<string>, k: nat)
    requires 1 <= k <= |lines|
    ensures Find(lines, Sprint(k)) == (lines[k - 1], None)
  {
    FindFromHit(lines, k, 0);
  }

  lemma {:induction false} FindFromHit(lines: seq<string>, k: nat, i: nat)
    requires i < k <= |lines|
    ensures FindFrom(lines, Sprint(k), i) == (lines[k - 1], None)
    decreases k - i
  {
    if i + 1 != k {
      SprintInjective(i + 1, k);
      FindFromHit(lines, k, i + 1);
    }
  }

  /** An id that is no line's number yields "" and `ErrNotFound`; no other error is ever returned. */
  lemma FindMiss(lines: seq<string>, id: string)
    ensures Find(lines, id).1 == None || Find(lines, id) == ("", Some(ErrNotFound))
    ensures Find(lines, id).1 == Some(ErrNotFound) <==> forall k :: 1 <= k <= |lines| ==> Sprint(k) != id
  {
    FindFromShape(lines, id, 0);
    FindFromMiss(lines, id, 0);
  }

  lemma {:induction false} FindFromShape(lines: seq<string>, id: string, i: nat)
    ensures FindFrom(lines, id, i).1 == None || FindFrom(lines, id, i) == ("", Some(ErrNotFound))
    decreases |lines| - i
  {
    if i < |lines| {
      FindFromShape(lines, id, i + 1);
    }
  }

  lemma {:induction false} FindFromMiss(lines: seq<string>, id: string, i: nat)
    requires i <= |lines|
    ensures FindFrom(lines, id, i).1 == Some(ErrNotFound) <==> forall k :: i < k <= |lines| ==> Sprint(k) != id
    decreases |lines| - i
  {
    if i < |lines| {
      FindFromMiss(lines, id, i + 1);
      if Sprint(i + 1) == id {
        assert FindFrom(lines, id, i) == (lines[i], None);
        assert i < i + 1 <= |lines| && Sprint(i + 1) == id;
      }
    }
  }

  /**
   * Round trip: URLs appended as lines to a file that ends at a line start
   * are found under the ids that follow its line count.
   */
  lemma StoreRoundTrip(content: string, urls: seq<string>, j: nat)
    requires AtLineStart(content) && j < |urls|
    requires forall i :: 0 <= i < |urls| ==> OneLine(urls[i])
    ensures Find(LinesOf(content + Join(urls)), Sprint(|LinesOf(content)| + 1 + j)) == (urls[j], None)
  {
    var before := LinesOf(content);
    assert LinesOf(content + Join(urls)) == before + urls by {
      AppendLines(content, urls);
    }
    FindAppended(before, urls, j);
  }

  /** The j-th of the lines appended after `before` is found under the id `|before| + 1 + j`. */
  lemma FindAppended(before: seq<string>, urls: seq<string>, j: nat)
    requires j < |urls|
    ensures Find(before + urls, Sprint(|before| + 1 + j)) == (urls[j], None)
  {
    FindHit(before + urls, |before| + 1 + j);
  }

  /** One-line URLs appended at a line start become the file's next lines. */
  lemma AppendLines(content: string, urls: seq<string>)
    requires AtLineStart(content)
    requires forall i :: 0 <= i < |urls| ==> OneLine(urls[i])
    ensures LinesOf(content + Join(urls)) == LinesOf(content) + urls
  {
    LinesOfAppend(content, Join(urls));
    LinesOfJoin(urls);
  }

  /** The history entries a scan from offset `from` yields: each line read, numbered from 1; nil when none. */
  function History(content: string, from: nat, base: string): Option<seq<URLs>>
  {
    var lines := LinesOf(content[if from < |content| then from else |content|..]);
    if lines == [] then None
    else Some(seq(|lines|, j requires 0 <= j < |lines| => URLs(ShortLink(base, Sprint(j + 1)), lines[j])))
  }

  /** A scan from the end of the file yields nothing. */
  lemma HistoryAtEnd(content: string, from: nat, base: string)
    requires |content| <= from
    ensures History(content, from, base) == None
  {
    assert content[|content|..] == [];
  }

  /** A scan from the start lists every line, and entry j carries the URL that `GetOriginal` finds under its id. */
  lemma HistoryFromStart(content: string, base: string)
    ensures var h := History(content, 0, base);
      var lines := LinesOf(content);
      && (h == None <==> lines == [])
      && (h.Some? ==> |h.value| == |lines| && forall j :: 0 <= j < |lines| ==>
            && h.value[j].ShortURL == ShortLink(base, Sprint(j + 1))
            && Find(lines, Sprint(j + 1)) == (h.value[j].OriginalURL, None))
  {
    var lines := LinesOf(content);
    assert content[0..] == content;
    forall j | 0 <= j < |lines|
      ensures Find(lines, Sprint(j + 1)) == (lines[j], None)
    {
      FindHit(lines, j + 1);
    }
  }

  /**
   * Finding: right after the file is opened, the history is read from the
   * end of a file holding one URL and lists nothing, while a scan from the
   * start lists that URL under id 1.
   */
  lemma HistoryAfterOpen(u: string, base: string)
    requires OneLine(u)
    ensures History(u + "\n", |u + "\n"|, base) == None
    ensures History(u + "\n", 0, base) == Some([URLs(ShortLink(base, "1"), u)])
  {
    var c := u + "\n";
    HistoryAtEnd(c, |c|, base);
    assert LinesOf(c[0..]) == [u] by {
      LinesOfLine(u);
      assert c[0..] == c;
    }
    assert Sprint(1) == "1";
    var h := History(c, 0, base);
    assert h.Some? && |h.value| == 1 && h.value[0] == URLs(ShortLink(base, "1"), u);
    assert h.value == [h.value[0]];
  }

  function Clamp(x: nat, lo: nat, hi: nat): nat
  {
    if x < lo then lo else if hi < x then hi else x
  }

  class FileStorage {
    const Cfg: Config
    var Content: string
    var Opened: bool
    var LastID: nat
    var Pos: nat

    /** The lines a scan of the file yields; a storage whose file did not open has none. */
    function Lines(): seq<string>
      reads this
    {
      if Opened then LinesOf(Content) else []
    }

    /** Ids and lines agree: the counter is the line count and the file ends at a line start. */
    predicate Consistent()
      reads this
    {
      Opened && LastID == |LinesOf(Content)| && AtLineStart(Content)
    }

    constructor (cfg: Config)
      ensures Cfg == cfg && !Opened && Content == [] && LastID == 0 && Pos == 0
    {
      Cfg, Opened, Content, LastID, Pos := cfg, false, [], 0, 0;
    }

    /**
     * `NewFileStorage`: fails on an empty path or when the file (with
     * content `disk`) cannot be opened; otherwise counts its lines, one per
     * scan, with `rest` the text the scanner has not consumed, leaving the
     * position at the end. A scan error leaves the counter at 0.
     */
    static method NewFileStorage(cfg: Config, disk: string, openFails: bool, scanFails: bool) returns (s: FileStorage, err: Option<Error>)
      ensures fresh(s) && s.Cfg == cfg
      ensures cfg.StoragePath == "" ==> err == Some(EmptyFilePath) && !s.Opened && s.LastID == 0
      ensures cfg.StoragePath != "" && openFails ==> err == Some(Medium(Open)) && !s.Opened && s.LastID == 0
      ensures cfg.StoragePath != "" && !openFails ==> s.Opened && s.Content == disk && s.Pos == |disk|
      ensures cfg.StoragePath != "" && !openFails && scanFails ==> err == Some(Medium(Read)) && s.LastID == 0
      ensures cfg.StoragePath != "" && !openFails && !scanFails ==> err == None && s.LastID == |LinesOf(disk)|
      ensures err == None ==> (s.Consistent() <==> AtLineStart(disk))
    {
      s := new FileStorage(cfg);
      if cfg.StoragePath == "" {
        return s, Some(EmptyFilePath);
      }
      if openFails {
        return s, Some(Medium(Open));
      }
      s.Opened, s.Content := true, disk;
      var rest, id := disk, 0;
      while rest != []
        invariant id + |LinesOf(rest)| == |LinesOf(disk)|
        decreases |rest|
      {
        rest, id := rest[TokenEnd(rest)..], id + 1;
      }
      s.Pos := |disk|;
      if scanFails {
        return s, Some(Medium(Read));
      }
      s.LastID := id;
      err := None;
    }

    /** `PingDB` and `MarkAsDeleted`: nothing to do, never an error. */
    function PingDB(): Option<Error>
    {
      None
    }

    function MarkAsDeleted(userID: string, ids: seq<string>): Option<Error>
    {
      None
    }

    /**
     * `CreateShort`: numbers the URLs from `LastID + 1` while building the
     * text, then appends it. Nothing is validated or deduplicated. The
     * counter is advanced even when the write or the sync then fails; a
     * failed sync still leaves the text written.
     */
    method CreateShort(userID: string, urls: seq<string>, writeFails: bool, syncFails: bool) returns (result: Option<seq<string>>, err: Option<Error>)
      modifies this
      ensures LastID == old(LastID) + |urls| && Opened == old(Opened)
      ensures !Opened || writeFails ==> result == None && err == Some(Medium(Write)) && Content == old(Content)
      ensures Opened && writeFails ==> Pos == |Content| + 2
      ensures Opened && !writeFails ==> Content == old(Content) + Join(urls) && Pos == |Content|
      ensures Opened && !writeFails && syncFails ==> result == None && err == Some(Medium(Sync))
      ensures Opened && !writeFails && !syncFails ==> result == Some(IdRange(old(LastID) + 1, |urls|)) && err == None
      ensures old(Consistent()) && !writeFails && (forall j :: 0 <= j < |urls| ==> OneLine(urls[j])) ==>
        Consistent() && LinesOf(Content) == LinesOf(old(Content)) + urls
    {
      if Opened {
        Pos := |Content| + 2;
      }
      ghost var pos := Pos;
      var builder := "";
      var ids: seq<string> := [];
      var i := 0;
      while i < |urls|
        invariant i <= |urls| && LastID == old(LastID) + i
        invariant Content == old(Content) && Opened == old(Opened) && Pos == pos
        invariant builder == Join(urls[..i]) && ids == IdRange(old(LastID) + 1, i)
      {
        builder := builder + urls[i] + "\n";
        LastID := LastID + 1;
        ids := ids + [Sprint(LastID)];
        assert urls[..i + 1][..i] == urls[..i];
        i := i + 1;
      }
      assert urls[..i] == urls;
      if !Opened || writeFails {
        return None, Some(Medium(Write));
      }
      Content := Content + builder;
      Pos := |Content|;
      if old(Consistent()) && forall j :: 0 <= j < |urls| ==> OneLine(urls[j]) {
        AppendLines(old(Content), urls);
        LinesOfDoneAppend(old(Content), builder);
      }
      if syncFails {
        return None, Some(Medium(Sync));
      }
      result, err := Some(ids), None;
    }

    /**
     * `GetOriginal`: seeks to the start and scans for the line whose number
     * prints as `id`. The scanner reads ahead, so the position ends up
     * anywhere between the end of that line and the end of the file: `stop`
     * is where its buffered reads stopped. A miss reads the whole file.
     */
    method GetOriginal(id: string, stop: nat) returns (url: string, err: Option<Error>)
      modifies this`Pos
      ensures (url, err) == Find(old(Lines()), id)
      ensures Opened && err != None ==> Pos == |Content|
      ensures Opened ==> forall k :: 1 <= k <= |LinesOf(Content)| && Sprint(k) == id ==> Pos == Clamp(stop, Consumed(Content, k), |Content|)
      ensures !Opened ==> Pos == old(Pos)
    {
      if Opened {
        Pos := 0;
      }
      var lines := Lines();
      var i := 0;
      while i < |lines|
        invariant i <= |lines| && Find(lines, id) == FindFrom(lines, id, i)
        invariant forall k :: 1 <= k <= i ==> Sprint(k) != id
        invariant !Opened ==> Pos == old(Pos)
      {
        i := i + 1;
        var original := lines[i - 1];
        if Sprint(i) == id {
          if Opened {
            Pos := Clamp(stop, Consumed(Content, i), |Content|);
          }
          forall k | 1 <= k <= |lines| && Sprint(k) == id
            ensures k == i
          {
            SprintInjective(k, i);
          }
          return original, None;
        }
      }
      if Opened {
        Pos := |Content|;
      }
      url, err := "", Some(ErrNotFound);
    }

    /**
     * `GetURLArrayByUser` as written: ignores the user and scans from the
     * current position, without seeking to the start first. A storage whose
     * file did not open fails to read.
     */
    method GetURLArrayByUser(userID: string) returns (history: Option<seq<URLs>>, err: Option<Error>)
      modifies this`Pos
      ensures !Opened ==> history == None && err == Some(Medium(Read)) && Pos == old(Pos)
      ensures Opened ==> history == History(Content, old(Pos), Cfg.BaseURL) && err == None && Pos == |Content|
    {
      if !Opened {
        return None, Some(Medium(Read));
      }
      history := Scan(Pos);
      Pos := |Content|;
      err := None;
    }

    /** `GetURLArrayByUser` with the seek to the start that `GetOriginal` does: every line, numbered by its id. */
    method GetURLArrayByUserFromStart(userID: string) returns (history: Option<seq<URLs>>, err: Option<Error>)
      modifies this`Pos
      ensures !Opened ==> history == None && err == Some(Medium(Read)) && Pos == old(Pos)
      ensures Opened ==> history == History(Content, 0, Cfg.BaseURL) && err == None && Pos == |Content|
    {
      if !Opened {
        return None, Some(Medium(Read));
      }
      Pos := 0;
      history := Scan(Pos);
      Pos := |Content|;
      err := None;
    }

    /** The scan loop of `GetURLArrayByUser` from offset `from`: one entry per line read, numbered from 1. */
    method Scan(from: nat) returns (history: Option<seq<URLs>>)
      ensures history == History(Content, from, Cfg.BaseURL)
    {
      var lines := LinesOf(Content[if from < |Content| then from else |Content|..]);
      var all: seq<URLs> := [];
      var id := 0;
      while id < |lines|
        invariant id <= |lines| && |all| == id
        invariant forall j :: 0 <= j < id ==> all[j] == URLs(ShortLink(Cfg.BaseURL, Sprint(j + 1)), lines[j])
      {
        id := id + 1;
        all := all + [URLs(ShortLink(Cfg.BaseURL, Sprint(id)), lines[id - 1])];
      }
      assert all == seq(|lines|, j requires 0 <= j < |lines| => URLs(ShortLink(Cfg.BaseURL, Sprint(j + 1)), lines[j]));
      history := if all == [] then None else Some(all);
    }
  }

  /** After an append of whole lines, the file still ends at a line start. */
  lemma LinesOfDoneAppend(a: string, b: string)
    requires AtLineStart(a) && AtLineStart(b)
    ensures AtLineStart(a + b)
  {
  }
}
