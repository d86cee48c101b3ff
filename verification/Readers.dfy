/** The two readers that block until a request is whole: the C# one and the Java one. */
module Readers {
  import opened Options
  import opened Protocol
  import opened Utf8

  /** The receiving end of a connection the peer has finished writing to. */
  class Stream {
    var chunks: seq<Bytes>

    constructor (cs: seq<Bytes>)
      requires NonEmpty(cs)
      ensures chunks == cs && Valid()
    {
      chunks := cs;
    }

    ghost predicate Valid()
      reads this
    {
      NonEmpty(chunks)
    }

    ghost function Left(): Bytes
      reads this
    {
      Flatten(chunks)
    }

    /** Up to `max` bytes of the next chunk; none when `max` is 0 or at the end. */
    method Read(max: nat) returns (bytes: Bytes)
      requires Valid()
      modifies this
      ensures Valid() && old(Left()) == bytes + Left()
      ensures |bytes| <= max && (bytes == [] <==> max == 0 || old(Left()) == [])
    {
      if max == 0 || chunks == [] {
        bytes := [];
      } else if |chunks[0]| <= max {
        bytes, chunks := chunks[0], chunks[1..];
      } else {
        bytes := chunks[0][..max];
        chunks := [chunks[0][max..]] + chunks[1..];
        assert chunks[1..] == old(chunks)[1..];
      }
    }
  }

  /** Copies bytes into a buffer at an offset, as the runtime does for a read. */
  method Fill(buf: array<Byte>, at: nat, bytes: Bytes)
    requires at + |bytes| <= buf.Length
    modifies buf
    ensures buf[..] == old(buf[..at]) + bytes + old(buf[at + |bytes|..])
  {
    forall i | 0 <= i < |bytes| { buf[at + i] := bytes[i]; }
  }

  // ----- C# -----

  /** Reads until the buffer is full or the stream ends; says whether it was filled. */
  method ReadExact(s: Stream, buf: array<Byte>) returns (ok: bool)
    requires s.Valid()
    modifies s, buf
    ensures s.Valid() && ok == (buf.Length <= |old(s.Left())|)
    ensures if ok then old(s.Left()) == buf[..] + s.Left() else s.Left() == []
  {
    var read := 0;
    while true
      invariant s.Valid() && read <= buf.Length
      invariant old(s.Left()) == buf[..read] + s.Left()
      decreases buf.Length - read
    {
      var bytes := s.Read(buf.Length - read);
      if bytes == [] { break; }
      Fill(buf, read, bytes);
      assert buf[..read + |bytes|] == buf[..read] + bytes;
      read := read + |bytes|;
      if read >= buf.Length { break; }
    }
    assert read == buf.Length ==> buf[..read] == buf[..];
    ok := !(read < buf.Length);
  }

  /** Two unsigned 32-bit integers added as C# adds them outside a checked context. */
  function CsSum(a: nat, b: nat): (r: nat)
    requires a < TWO_32 && b < TWO_32
    ensures r < TWO_32 && (r == a + b || r + TWO_32 == a + b)
  {
    (a + b) % TWO_32
  }

  /** One connection: the header, then a body of as many bytes as the two lengths add up to in 32 bits.
      The allocation throws when that many bytes do not fit in an array; slicing the body throws when a
      length, cast to a signed number, is negative. */
  method CsReceive(s: Stream) returns (r: Option<Request>)
    requires s.Valid()
    modifies s
    ensures r == CsMeaning(old(s.Left()))
  {
    hide U32, CsSum, Flatten;
    ghost var all := s.Left();
    var header := new Byte[12];
    var ok := ReadExact(s, header);
    if !ok { return None; }
    var timeout, keyLen, codeLen := U32(header[..], 0), U32(header[..], 4), U32(header[..], 8);
    HeaderIsPrefix(all, header[..], s.Left());
    var size := CsSum(keyLen, codeLen);
    if size >= TWO_31 { return None; }
    var body := new Byte[size];
    ok := ReadExact(s, body);
    if !ok || keyLen >= TWO_31 || codeLen >= TWO_31 { return None; }
    BodySplits(all, body[..], s.Left(), keyLen, codeLen);
    r := Some(Request(timeout, body[..keyLen], body[keyLen..]));
  }

  lemma HeaderIsPrefix(all: Bytes, header: Bytes, rest: Bytes)
    requires all == header + rest && |header| == 12
    ensures U32(all, 0) == U32(header, 0) && U32(all, 4) == U32(header, 4) && U32(all, 8) == U32(header, 8)
    ensures I32(all, 0) == I32(header, 0) && I32(all, 4) == I32(header, 4) && I32(all, 8) == I32(header, 8)
    ensures all[12..] == rest
  {
    SameWords(all, header);
  }

  lemma BodySplits(all: Bytes, body: Bytes, rest: Bytes, keyLen: nat, codeLen: nat)
    requires |all| >= 12 && all[12..] == body + rest && |body| == keyLen + codeLen
    ensures all[12..12 + keyLen] == body[..keyLen] && all[12 + keyLen..12 + keyLen + codeLen] == body[keyLen..]
  {
    assert all[12..][..keyLen] == body[..keyLen];
    assert all[12..][keyLen..keyLen + codeLen] == body[keyLen..];
  }

  function CsMeaning(all: Bytes): Option<Request> {
    if |all| < 12 then None
    else
      var keyLen, codeLen := U32(all, 4), U32(all, 8);
      if keyLen + codeLen >= TWO_31 || |all| < 12 + keyLen + codeLen then None
      else Some(Request(U32(all, 0), all[12..12 + keyLen], all[12 + keyLen..12 + keyLen + codeLen]))
  }

  // ----- Java -----

  /** A byte buffer being filled: reads go on while there is room, and report the end as -1. */
  method JavaRead(s: Stream, b: array<Byte>) returns (eof: bool)
    requires s.Valid()
    modifies s, b
    ensures s.Valid() && eof == (|old(s.Left())| < b.Length)
    ensures if eof then s.Left() == [] else old(s.Left()) == b[..] + s.Left()
  {
    var position := 0;
    while b.Length - position > 0
      invariant s.Valid() && position <= b.Length
      invariant old(s.Left()) == b[..position] + s.Left()
    {
      var bytes := s.Read(b.Length - position);
      if bytes == [] { return true; }
      Fill(b, position, bytes);
      assert b[..position + |bytes|] == b[..position] + bytes;
      position := position + |bytes|;
    }
    assert b[..position] == b[..];
    eof := false;
  }

  /** Two 32-bit integers added as the JVM adds them. */
  function JavaSum(a: int, b: int): (r: int)
    requires -TWO_31 <= a < TWO_31 && -TWO_31 <= b < TWO_31
    ensures -TWO_31 <= r < TWO_31
    ensures a >= 0 && b >= 0 ==> if a + b < TWO_31 then r == a + b else r < 0
  {
    (a + b + TWO_31) % TWO_32 - TWO_31
  }

  /** Sizes are signed here, and so is their sum; allocating a negative number of bytes throws, for the
      body as a whole before it is read, for the key and the code after. */
  method JavaReceive(s: Stream) returns (r: Option<Request>)
    requires s.Valid()
    modifies s
    ensures r == JavaMeaning(old(s.Left()))
  {
    hide U32, I32, JavaSum, Flatten;
    ghost var all := s.Left();
    var b := new Byte[12];
    var eof := JavaRead(s, b);
    if eof { return None; }
    var timeout, keySize, codeSize := I32(b[..], 0), I32(b[..], 4), I32(b[..], 8);
    HeaderIsPrefix(all, b[..], s.Left());
    var size := JavaSum(keySize, codeSize);
    if size < 0 { return None; }
    b := new Byte[size];
    eof := JavaRead(s, b);
    if eof || keySize < 0 || codeSize < 0 { return None; }
    BodySplits(all, b[..], s.Left(), keySize, codeSize);
    r := Some(Request(timeout, b[..keySize], b[keySize..]));
  }

  function JavaMeaning(all: Bytes): Option<Request> {
    if |all| < 12 then None
    else
      var keySize, codeSize := I32(all, 4), I32(all, 8);
      if keySize < 0 || codeSize < 0 || keySize + codeSize >= TWO_31 || |all| < 12 + keySize + codeSize then None
      else Some(Request(I32(all, 0), all[12..12 + keySize], all[12 + keySize..12 + keySize + codeSize]))
  }

  // ----- Agreement -----

  lemma BlockingReadersRecover(timeout: nat, key: Bytes, code: Bytes)
    requires Sendable(timeout, key, code)
    ensures CsMeaning(Encode(timeout, key, code)) == Some(Request(timeout * 1000, key, code))
    ensures JavaMeaning(Encode(timeout, key, code)) == Some(Request(timeout * 1000, key, code))
  {
    EncodeLayout(timeout, key, code);
    var e := Encode(timeout, key, code);
    hide Encode, U32, I32;
    assert e[12 + |key|..12 + |key| + |code|] == e[12 + |key|..];
  }

  /** However a request is split, every reader recovers the three fields that were sent.  The blocking
      readers' contracts depend on the bytes only, so it is enough to look at those. */
  lemma ReadersAgree(timeout: nat, key: Bytes, code: Bytes, chunks: seq<Bytes>)
    requires Sendable(timeout, key, code) && NonEmpty(chunks) && Flatten(chunks) == Encode(timeout, key, code)
    ensures var r := Request(timeout * 1000, key, code);
            && CsMeaning(Flatten(chunks)) == Some(r)
            && JavaMeaning(Flatten(chunks)) == Some(r)
            && JsRun(JsState([], []), chunks).fired == [r]
  {
    BlockingReadersRecover(timeout, key, code);
    JsChunkIndependence(timeout, key, code, chunks, |chunks|);
    assert chunks[..|chunks|] == chunks;
    hide *;
  }

  /** On any bytes at all the blocking readers agree, up to the sign of the timeout. */
  lemma BlockingReadersAgree(all: Bytes)
    ensures CsMeaning(all).Some? <==> JavaMeaning(all).Some?
    ensures CsMeaning(all).Some? ==>
              var cs, java := CsMeaning(all).value, JavaMeaning(all).value;
              cs.key == java.key && cs.code == java.code && (cs.timeout == java.timeout <==> cs.timeout < TWO_31)
  {
  }

  // ----- Responses -----

  /** What each evaluator answers with: a length and as many bytes. */
  function EncodeResponse(text: Bytes): Bytes
    requires |text| < TWO_32
  {
    Le32(|text|) + text
  }

  /** The bot's side: the length is capped at 1024 and that many bytes are read. */
  method ReceiveResponse(s: Stream) returns (r: Option<Bytes>)
    requires s.Valid()
    modifies s
    ensures r == ResponseMeaning(old(s.Left()))
  {
    var lenb := new Byte[4];
    var ok := ReadExact(s, lenb);
    if !ok { return None; }
    ghost var all := old(s.Left());
    assert all[..4] == lenb[..] && forall i | 0 <= i < 4 :: all[i] == all[..4][i];
    var n := U32(lenb[..], 0);
    var outlen := if n < 1024 then n else 1024;
    var buf := new Byte[outlen];
    ok := ReadExact(s, buf);
    if !ok { return None; }
    assert all == lenb[..] + buf[..] + s.Left();
    r := Some(buf[..]);
  }

  function ResponseMeaning(all: Bytes): Option<Bytes> {
    if |all| < 4 then None
    else
      var n := if U32(all, 0) < 1024 then U32(all, 0) else 1024;
      if |all| < 4 + n then None else Some(all[4..4 + n])
  }

  /** So the bot reads a text whole if it takes up to 1024 bytes.  Of a longer one it reads the whole
      characters that fit, and one replacement if the cut falls inside a character. */
  lemma TextComesBack(s: string)
    requires |EncodeText(s)| < TWO_32
    ensures var r := ResponseMeaning(EncodeResponse(EncodeText(s)));
            r.Some? && Lossy(r.value) ==
              if |EncodeText(s)| <= 1024 then s
              else WholePrefix(s, 1024) + if |EncodeText(WholePrefix(s, 1024))| < 1024 then [REPLACEMENT] else ""
  {
    hide EncodeText, Lossy, WholePrefix, ResponseMeaning, EncodeResponse;
    var e := EncodeText(s);
    ResponseRoundTrip(e);
    if |e| <= 1024 {
      TextRoundTrip(s, []);
      LossyNothing();
      assert e + [] == e && s + "" == s;
    } else {
      CutText(s, 1024);
    }
  }

  /** A response comes back whole up to 1024 bytes, and as its first 1024 beyond. */
  lemma ResponseRoundTrip(text: Bytes)
    requires |text| < TWO_32
    ensures ResponseMeaning(EncodeResponse(text)) == Some(if |text| <= 1024 then text else text[..1024])
  {
    Le32RoundTrip(|text|, [], text);
    var e := EncodeResponse(text);
    assert [] + Le32(|text|) + text == e;
    hide Le32, U32;
    var n := if |text| < 1024 then |text| else 1024;
    assert e[4..4 + n] == text[..n];
    assert text[..|text|] == text;
  }
}
