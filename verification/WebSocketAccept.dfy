/** The answer to a WebSocket upgrade: section 4.2.2 of RFC 6455 asks for the base64 text of the
  SHA-1 digest of the client's key followed by a fixed string.
 */
module WebSocketAccept {
  import opened Bytes
  import opened Fips180
  import Sha1
  import Base64

  function Ascii(s: string): (b: seq<byte>)
    ensures |b| == |s| && (forall i | 0 <= i < |s| :: b[i] == s[i] as int % 256)
  {
    seq(|s|, i requires 0 <= i < |s| => s[i] as int % 256)
  }

  const GUID := "258EAFA5-E914-47DA-95CA-C5AB0DC85B11"

  /** The characters before the first NUL. */
  function CString(s: seq<byte>): (t: seq<byte>)
    ensures t <= s && 0 !in t
    ensures |t| < |s| ==> s[|t|] == 0
  {
    if s == [] || s[0] == 0 then [] else [s[0]] + CString(s[1..])
  }

  lemma GuidHasNoNul()
    ensures 0 !in Ascii(GUID) && |GUID| == 36
  {
  }

  /** The whole of key and GUID is hashed exactly when the key has no NUL. */
  lemma HashedExactly(key: seq<byte>)
    ensures CString(key + Ascii(GUID)) == key + Ascii(GUID) <==> 0 !in key
  {
    GuidHasNoNul();
    var s := key + Ascii(GUID);
    if 0 in key {
      assert 0 in s;
    } else {
      assert 0 !in s;
    }
  }

  /** A word in network byte order. */
  function WordOctets(w: Word): seq<byte> {
    [((w.bits >> 24) & 0xFF) as int, ((w.bits >> 16) & 0xFF) as int, ((w.bits >> 8) & 0xFF) as int,
     (w.bits & 0xFF) as int]
  }

  function DigestOctets(h: Regs): (b: seq<byte>)
    ensures |b| == 20
  {
    WordOctets(h.a) + WordOctets(h.b) + WordOctets(h.c) + WordOctets(h.d) + WordOctets(h.e)
  }

  /** The text of a digest. */
  function DigestText(h: Regs): string {
    Base64.Encode(DigestOctets(h))
  }

  /** The value of the Sec-WebSocket-Accept header. */
  function AcceptValue(key: seq<byte>): string {
    DigestText(Digest(key + Ascii(GUID)))
  }

  function Response(value: string): string {
    "HTTP/1.1 101 Switching Protocols\r\n" + "Connection: upgrade\r\n" + "Sec-WebSocket-Accept: " + value + "\r\n" +
    "Upgrade: websocket\r\n\r\n"
  }

  /** The operator that feeds a C string to the hash, one character at a time. */
  method Feed(sha: Sha1.Sha1, s: seq<byte>)
    requires sha.Valid() && !sha.computed && !sha.corrupted && |sha.message| + |s| < Sha1.LIMIT
    modifies sha, sha.block
    ensures sha.Valid() && !sha.computed && !sha.corrupted && sha.block == old(sha.block)
    ensures sha.message == old(sha.message) + CString(s)
  {
    var p: nat := 0;
    ghost var t := CString(s);
    assert t[..0] == [] && sha.message + [] == sha.message;
    while p < |s| && s[p] != 0
      invariant p <= |t| && (p < |t| <==> p < |s| && s[p] != 0)
      invariant sha.Valid() && !sha.computed && !sha.corrupted && sha.block == old(sha.block)
      invariant sha.message == old(sha.message) + t[..p]
    {
      NextChar(s, p, old(sha.message));
      FeedOne(sha, s[p]);
      p := p + 1;
    }
    assert t[..p] == t;
  }

  method FeedOne(sha: Sha1.Sha1, x: byte)
    requires sha.Valid() && !sha.computed && !sha.corrupted && |sha.message| + 1 < Sha1.LIMIT
    modifies sha, sha.block
    ensures sha.Valid() && !sha.computed && !sha.corrupted && sha.block == old(sha.block)
    ensures sha.message == old(sha.message) + [x]
  {
    sha.Input([x]);
  }

  lemma NextChar(s: seq<byte>, p: nat, before: seq<byte>)
    requires p < |CString(s)|
    ensures before + CString(s)[..p] + [s[p]] == before + CString(s)[..p + 1]
    ensures p + 1 < |CString(s)| <==> p + 1 < |s| && s[p + 1] != 0
  {
    assert CString(s)[..p + 1] == CString(s)[..p] + [s[p]];
    Assoc(before, CString(s)[..p], [s[p]]);
    assert p + 1 < |CString(s)| ==> CString(s)[p + 1] in CString(s);
  }

  /** The digest of what is before the first NUL. */
  method Hash(s: seq<byte>) returns (digest: Regs)
    requires |s| < Sha1.LIMIT
    ensures digest == Digest(CString(s))
  {
    var sha := new Sha1.Sha1();
    sha.Reset();
    Feed(sha, s);
    assert sha.message == CString(s);
    var ok;
    ok, digest := sha.Result();
  }

  method TextOf(digest: Regs) returns (text: string)
    ensures text == DigestText(digest)
  {
    text := Base64.EncodeBytes(DigestOctets(digest));
  }

  /** The response to a key of fewer than 2^61 octets: its value is the one that RFC 6455 asks
      for if the key has no NUL. */
  method Answer(key: seq<byte>) returns (response: string)
    requires |key| + 36 < Sha1.LIMIT
    ensures 0 !in key ==> response == Response(AcceptValue(key))
    ensures response == Response(DigestText(Digest(CString(key + Ascii(GUID)))))
  {
    GuidHasNoNul();
    HashedExactly(key);
    var digest := Hash(key + Ascii(GUID));
    var value := TextOf(digest);
    response := Response(value);
  }
}
