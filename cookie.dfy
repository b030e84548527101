/**
 * The `userID` cookie of `CookieMiddleware`: the lowercase hex encoding of
 * a 32-byte HMAC-SHA256 signature followed by the 8 bytes of a random user
 * id. The keyed hash is the parameter `mac` and the random source the
 * parameter `random` (`None` when it fails). The handlers downstream take
 * the whole cookie value as the user's id.
 */
module Cookie {
  import opened Common

  newtype byte = x: int | 0 <= x < 256

  /** An HMAC-SHA256 signature. */
  type Digest = s: seq<byte> | |s| == 32 witness seq(32, _ => 0 as byte)

  /** A user id as the middleware draws it. */
  type Id = s: seq<byte> | |s| == 8 witness seq(8, _ => 0 as byte)

  /** HMAC-SHA256 under the server's secret key. */
  type Mac = seq<byte> -> Digest

  // ---------------------------------------------------------------------
  // Hexadecimal, as `encoding/hex` writes and reads it.

  /** A lowercase hex digit, as `hex.EncodeToString` writes them. */
  predicate LowerHex(c: char)
  {
    '0' <= c <= '9' || 'a' <= c <= 'f'
  }

  /** The lowercase digit of a nibble. */
  function Digit(n: int): (c: char)
    requires 0 <= n < 16
    ensures LowerHex(c)
  {
    if n < 10 then (('0' as int) + n) as char else (('a' as int) + n - 10) as char
  }

  /** The two lowercase digits of a byte, high nibble first. */
  function HexByte(b: byte): (s: string)
    ensures |s| == 2 && LowerHex(s[0]) && LowerHex(s[1])
  {
    [Digit(b as int / 16), Digit(b as int % 16)]
  }

  /** `hex.EncodeToString`. */
  function HexEncode(bs: seq<byte>): (s: string)
    ensures |s| == 2 * |bs|
    ensures forall i :: 0 <= i < |s| ==> LowerHex(s[i])
    decreases |bs|
  {
    if bs == [] then "" else HexByte(bs[0]) + HexEncode(bs[1..])
  }

  /** The value of one hex digit; both cases are accepted. */
  function Nibble(c: char): (r: Option<int>)
    ensures r.Some? ==> 0 <= r.value < 16
    ensures LowerHex(c) ==> r.Some?
  {
    if '0' <= c <= '9' then Some(c as int - '0' as int)
    else if 'a' <= c <= 'f' then Some(c as int - 'a' as int + 10)
    else if 'A' <= c <= 'F' then Some(c as int - 'A' as int + 10)
    else None
  }

  /** `hex.DecodeString`: `None` for an odd length or a character that is not a hex digit. */
  function HexDecode(s: string): (r: Option<seq<byte>>)
    ensures r.Some? ==> 2 * |r.value| == |s|
    ensures |s| % 2 == 1 ==> r == None
    decreases |s|
  {
    if |s| == 0 then Some([])
    else if |s| == 1 then None
    else
      var rest := HexDecode(s[2..]);
      if Nibble(s[0]).None? || Nibble(s[1]).None? || rest.None? then None
      else Some([(Nibble(s[0]).value * 16 + Nibble(s[1]).value) as byte] + rest.value)
  }

  /** A string decodes exactly when its length is even and every character is a hex digit. */
  lemma {:induction false} HexDecodeDefined(s: string)
    ensures HexDecode(s).Some? <==> |s| % 2 == 0 && forall i :: 0 <= i < |s| ==> Nibble(s[i]).Some?
    decreases |s|
  {
    if |s| >= 2 {
      HexDecodeDefined(s[2..]);
      assert forall i :: 2 <= i < |s| ==> s[i] == s[2..][i - 2];
    }
  }

  lemma NibbleOfDigit(n: int)
    requires 0 <= n < 16
    ensures Nibble(Digit(n)) == Some(n)
  {
  }

  /** Decoding what `HexEncode` wrote gives the bytes back. */
  lemma {:induction false} HexRoundTrip(bs: seq<byte>)
    ensures HexDecode(HexEncode(bs)) == Some(bs)
    decreases |bs|
  {
    if bs != [] {
      var s := HexEncode(bs);
      HexRoundTrip(bs[1..]);
      assert s == HexByte(bs[0]) + HexEncode(bs[1..]);
      assert s[2..] == HexEncode(bs[1..]);
      NibbleOfDigit(bs[0] as int / 16);
      NibbleOfDigit(bs[0] as int % 16);
      assert [bs[0]] + bs[1..] == bs;
    }
  }

  /** A lowercase hex string is the encoding of what it decodes to. */
  lemma {:induction false} HexEncodeDecode(s: string)
    requires |s| % 2 == 0 && forall i :: 0 <= i < |s| ==> LowerHex(s[i])
    ensures HexDecode(s).Some? && HexEncode(HexDecode(s).value) == s
    decreases |s|
  {
    if s != [] {
      var t := s[2..];
      assert forall i :: 0 <= i < |t| ==> LowerHex(t[i]) by {
        assert forall i :: 0 <= i < |t| ==> t[i] == s[i + 2];
      }
      HexEncodeDecode(t);
      var rest := HexDecode(t).value;
      DigitOfNibble(s[0]);
      DigitOfNibble(s[1]);
      var hi, lo := Nibble(s[0]).value, Nibble(s[1]).value;
      var b := (hi * 16 + lo) as byte;
      assert HexDecode(s) == Some([b] + rest);
      assert HexByte(b) == [s[0], s[1]] by {
        ByteOfNibbles(hi, lo);
      }
      assert HexEncode([b] + rest) == HexByte(b) + HexEncode(rest) by {
        assert ([b] + rest)[1..] == rest;
      }
      assert s == [s[0], s[1]] + t;
    }
  }

  /** The byte of two nibbles has them as its high and low nibble. */
  lemma ByteOfNibbles(hi: int, lo: int)
    requires 0 <= hi < 16 && 0 <= lo < 16
    ensures ((hi * 16 + lo) as byte) as int / 16 == hi && ((hi * 16 + lo) as byte) as int % 16 == lo
  {
  }

  lemma DigitOfNibble(c: char)
    requires LowerHex(c)
    ensures Nibble(c).Some? && Digit(Nibble(c).value) == c
  {
  }

  // ---------------------------------------------------------------------
  // The cookie.

  /** The cookie value issued for `id`: the signature of `id`, then `id`, in hex. */
  function Token(mac: Mac, id: seq<byte>): (t: string)
    ensures |t| == 64 + 2 * |id|
  {
    HexEncode(mac(id) + id)
  }

  /** The middleware's acceptance test: 40 bytes of hex whose first 32 are the signature of the last 8. */
  predicate Signed(mac: Mac, value: string)
  {
    var d := HexDecode(value);
    d.Some? && |d.value| == 40 && d.value[..32] == mac(d.value[32..])
  }

  /** Every issued cookie passes the test. */
  lemma TokenSigned(mac: Mac, id: Id)
    ensures Signed(mac, Token(mac, id))
  {
    HexRoundTrip(mac(id) + id);
    assert (mac(id) + id)[..32] == mac(id) && (mac(id) + id)[32..] == id;
  }

  /** Signed cookies are exactly the tokens of their ids, up to the case of the hex digits. */
  lemma SignedIsToken(mac: Mac, value: string)
    requires forall i :: 0 <= i < |value| ==> LowerHex(value[i])
    ensures Signed(mac, value) <==> exists id: Id :: value == Token(mac, id)
  {
    if Signed(mac, value) {
      var d := HexDecode(value).value;
      HexEncodeDecode(value);
      var id: Id := d[32..];
      assert d == mac(id) + id;
      assert value == Token(mac, id);
    }
    forall id: Id | value == Token(mac, id)
      ensures Signed(mac, value)
    {
      TokenSigned(mac, id);
    }
  }

  // ---------------------------------------------------------------------
  // The middleware.

  /**
   * What `CookieMiddleware` does with a request: answers 400 and stops,
   * panics, or calls the next handler, having perhaps set a new cookie and
   * written an error first. `issued` is the `Set-Cookie` the client
   * receives: a cookie set after `http.Error` has written the status line is
   * not sent, since net/http ignores header changes made after `WriteHeader`.
   * `seen` is the value the next handler reads with `r.Cookie("userID")`.
   */
  datatype Outcome = Rejected | Crashed | Forwarded(issued: Option<string>, errorWritten: bool, seen: string)

  /** The cookie issued after a failed or absent check: for `random`'s 8 bytes, or for no bytes when the source failed. */
  function Issue(mac: Mac, random: Option<Id>): (t: string)
    ensures random.Some? ==> t == Token(mac, random.value) && Signed(mac, t)
    ensures random.None? ==> |t| == 64
  {
    if random.Some? then TokenSigned(mac, random.value); Token(mac, random.value) else Token(mac, [])
  }

  /**
   * `CookieMiddleware` as written, for the `userID` cookies of the request
   * in order (`r.Cookie` answers the first). A value that is hex of the
   * wrong length leaves the decoding error nil, and `err.Error()` panics. A
   * new cookie is added after the old one, so the next handler still reads
   * the old value. A failed random source writes 400 and carries on; the
   * cookie it then sets does not reach the client, but is added to the
   * request.
   */
  function Middleware(cookies: seq<string>, mac: Mac, random: Option<Id>): (r: Outcome)
    ensures r == Rejected <==> cookies != [] && HexDecode(cookies[0]).None?
    ensures r == Crashed <==> cookies != [] && HexDecode(cookies[0]).Some? && |HexDecode(cookies[0]).value| != 40
    ensures cookies != [] && Signed(mac, cookies[0]) ==> r == Forwarded(None, false, cookies[0])
    ensures r.Forwarded? && !(cookies != [] && Signed(mac, cookies[0])) ==>
      && (r.errorWritten <==> random.None?)
      && r.issued == (if random.None? then None else Some(Issue(mac, random)))
    ensures r.Forwarded? ==> r.seen == (cookies + [Issue(mac, random)])[0]
  {
    if cookies != [] && HexDecode(cookies[0]).None? then Rejected
    else if cookies != [] && |HexDecode(cookies[0]).value| != 40 then Crashed
    else if cookies != [] && Signed(mac, cookies[0]) then Forwarded(None, false, cookies[0])
    else
      var token := Issue(mac, random);
      Forwarded(if random.None? then None else Some(token), random.None?, (cookies + [token])[0])
  }

  /** A request without the cookie gets a fresh signed one, and the next handler reads it. */
  lemma FirstVisit(mac: Mac, id: Id)
    ensures Middleware([], mac, Some(id)) == Forwarded(Some(Token(mac, id)), false, Token(mac, id))
    ensures Signed(mac, Token(mac, id))
  {
    TokenSigned(mac, id);
  }

  /** The cookie from a first visit is accepted unchanged on the next one. */
  lemma ReturningVisit(mac: Mac, id: Id, later: seq<string>, random: Option<Id>)
    ensures Middleware([Token(mac, id)] + later, mac, random) == Forwarded(None, false, Token(mac, id))
  {
    TokenSigned(mac, id);
    assert ([Token(mac, id)] + later)[0] == Token(mac, id);
  }

  /** Finding: valid hex of the wrong length, such as "00", makes the middleware panic instead of answering 400. */
  lemma ShortCookieCrashes(mac: Mac, random: Option<Id>)
    ensures Middleware(["00"], mac, random) == Crashed
  {
    var s: string := "00";
    assert s[2..] == "" && Nibble(s[0]) == Some(0) && Nibble(s[1]) == Some(0);
    assert HexDecode(s[2..]) == Some([]);
    assert [0 as byte] + [] == [0 as byte];
    assert HexDecode(s) == Some([0 as byte]);
  }

  /**
   * Finding: a well-formed cookie with a wrong signature is replaced in the
   * response, but the next handler reads the forged value as the user's id.
   */
  lemma ForgedCookieReachesHandler(mac: Mac, fake: Digest, id: Id, random: Option<Id>)
    requires fake != mac(id)
    ensures var forged := HexEncode(fake + id);
      && !Signed(mac, forged)
      && Middleware([forged], mac, random).Forwarded?
      && Middleware([forged], mac, random).seen == forged
  {
    var forged := HexEncode(fake + id);
    HexRoundTrip(fake + id);
    assert (fake + id)[..32] == fake && (fake + id)[32..] == id;
  }

  /**
   * Finding: when the random source fails, the 400 is written but the next
   * handler still runs, reading from the request a 64-digit value that holds
   * no id; no cookie reaches the client. A request carrying such a value
   * would make the middleware panic.
   */
  lemma RandomFailureContinues(mac: Mac, random: Option<Id>)
    ensures Middleware([], mac, None) == Forwarded(None, true, Token(mac, []))
    ensures Middleware([Token(mac, [])], mac, random) == Crashed
  {
    HexRoundTrip(mac([]) + []);
    assert mac([]) + [] == mac([]);
  }

  /**
   * The middleware as intended: a cookie that fails any check is answered
   * 400, or replaced by a fresh one that the next handler then reads; a
   * failed random source is answered 400 and stops.
   */
  function CorrectedMiddleware(cookies: seq<string>, mac: Mac, random: Option<Id>): (r: Outcome)
    ensures r != Crashed
    ensures r.Forwarded? ==> Signed(mac, r.seen) && !r.errorWritten
    ensures r.Forwarded? ==> (r.issued == None <==> cookies != [] && Signed(mac, cookies[0]))
    ensures r.Forwarded? && r.issued.Some? ==> r.seen == r.issued.value
    ensures cookies != [] && Signed(mac, cookies[0]) ==> r == Middleware(cookies, mac, random)
    ensures cookies == [] && random.Some? ==> r == Middleware(cookies, mac, random)
  {
    if cookies != [] && (HexDecode(cookies[0]).None? || |HexDecode(cookies[0]).value| != 40) then Rejected
    else if cookies != [] && Signed(mac, cookies[0]) then Forwarded(None, false, cookies[0])
    else if random.None? then Rejected
    else
      var token := Issue(mac, random);
      Forwarded(Some(token), false, token)
  }
}
