/** The persistent-evaluator request: one writer and three readers that must agree however the bytes
    are split on the way.
 */
module Protocol {
  import opened Options

  type Byte = x: int | 0 <= x < 256
  type Bytes = seq<Byte>

  datatype Request = Request(timeout: int, key: Bytes, code: Bytes)

  const TWO_31: int := 0x8000_0000
  const TWO_32: int := 0x1_0000_0000

  // ----- Integers on the wire: 32 bits, little-endian -----

  function Le32(n: nat): (r: Bytes)
    requires n < TWO_32
    ensures |r| == 4
  {
    [n % 256, n / 256 % 256, n / 0x1_0000 % 256, n / 0x100_0000]
  }

  function U32(bs: Bytes, at: nat): (n: nat)
    requires at + 4 <= |bs|
    ensures n < TWO_32
  {
    (bs[at] as int) + (bs[at + 1] as int) * 256 + (bs[at + 2] as int) * 0x1_0000 + (bs[at + 3] as int) * 0x100_0000
  }

  function I32(bs: Bytes, at: nat): (n: int)
    requires at + 4 <= |bs|
    ensures -TWO_31 <= n < TWO_31
  {
    var n := U32(bs, at);
    if n < TWO_31 then n else n - TWO_32
  }

  lemma Le32RoundTrip(n: nat, before: Bytes, after: Bytes)
    requires n < TWO_32
    ensures U32(before + Le32(n) + after, |before|) == n
  {
    var bs := before + Le32(n) + after;
    assert bs[|before|] == Le32(n)[0] && bs[|before| + 1] == Le32(n)[1];
    assert bs[|before| + 2] == Le32(n)[2] && bs[|before| + 3] == Le32(n)[3];
    var a, b := n / 256, n / 0x1_0000;
    assert a / 256 == b && b / 256 == n / 0x100_0000;
  }

  // ----- The writer -----

  /** Timeout in milliseconds, the two lengths, the key and the code.  Lengths are truncated to 32
      bits, and only so much of key and code is sent; the multiplication wraps. */
  function Encode(timeout: nat, key: Bytes, code: Bytes): Bytes {
    var keyLen, codeLen := |key| % TWO_32, |code| % TWO_32;
    Le32(timeout % TWO_32 * 1000 % TWO_32) + Le32(keyLen) + Le32(codeLen) + key[..keyLen] + code[..codeLen]
  }

  /** The writer as it is: one buffer, appended to step by step. */
  method MakePersistentInput(timeout: Option<nat>, context: Option<Bytes>, code: Bytes) returns (buf: Bytes)
    ensures buf == Encode(if timeout.Some? then timeout.value else 0, if context.Some? then context.value else [], code)
  {
    var seconds := (if timeout.Some? then timeout.value else 0) % TWO_32;
    var contextBytes := if context.Some? then context.value else [];
    var contextLen := |contextBytes| % TWO_32;
    var codeLen := |code| % TWO_32;
    buf := [];
    buf := buf + Le32(seconds * 1000 % TWO_32);
    buf := buf + Le32(contextLen);
    buf := buf + Le32(codeLen);
    buf := buf + contextBytes[..contextLen];
    buf := buf + code[..codeLen];
  }

  /** The requests the readers, which use signed lengths and times, can tell. */
  predicate Sendable(timeout: nat, key: Bytes, code: Bytes) {
    |key| + |code| + 12 < TWO_31 && timeout * 1000 < TWO_31
  }

  lemma EncodeLayout(timeout: nat, key: Bytes, code: Bytes)
    requires Sendable(timeout, key, code)
    ensures var e := Encode(timeout, key, code);
            && |e| == 12 + |key| + |code|
            && U32(e, 0) == I32(e, 0) == timeout * 1000 && U32(e, 4) == I32(e, 4) == |key|
            && U32(e, 8) == I32(e, 8) == |code|
            && e[12..12 + |key|] == key && e[12 + |key|..] == code
  {
    EncodePlain(timeout, key, code);
    Layout(timeout * 1000, |key|, |code|, key, code);
  }

  /** For a sendable request nothing wraps and nothing is cut. */
  lemma EncodePlain(timeout: nat, key: Bytes, code: Bytes)
    requires Sendable(timeout, key, code)
    ensures Encode(timeout, key, code) == Le32(timeout * 1000) + Le32(|key|) + Le32(|code|) + key + code
  {
    assert key[..|key|] == key && code[..|code|] == code;
    hide Le32;
    assert timeout % TWO_32 == timeout && timeout * 1000 % TWO_32 == timeout * 1000;
    assert |key| % TWO_32 == |key| && |code| % TWO_32 == |code|;
  }

  lemma Layout(n: nat, keyLen: nat, codeLen: nat, key: Bytes, code: Bytes)
    requires n < TWO_31 && keyLen < TWO_31 && codeLen < TWO_31
    ensures var e := Le32(n) + Le32(keyLen) + Le32(codeLen) + key + code;
            && |e| == 12 + |key| + |code|
            && U32(e, 0) == I32(e, 0) == n && U32(e, 4) == I32(e, 4) == keyLen && U32(e, 8) == I32(e, 8) == codeLen
            && e[12..12 + |key|] == key && e[12 + |key|..] == code
  {
    var t, k, c := Le32(n), Le32(keyLen), Le32(codeLen);
    var e := t + k + c + key + code;
    Le32RoundTrip(n, [], k + c + key + code);
    Le32RoundTrip(keyLen, t, c + key + code);
    Le32RoundTrip(codeLen, t + k, key + code);
    hide Le32, U32;
    assert e == [] + t + (k + c + key + code);
    assert e == t + k + (c + key + code);
    assert e == (t + k) + c + (key + code);
  }

  // ----- Chunks -----

  function Flatten(chunks: seq<Bytes>): Bytes {
    if chunks == [] then [] else chunks[0] + Flatten(chunks[1..])
  }

  lemma {:induction false} FlattenSplits(a: seq<Bytes>, b: seq<Bytes>)
    ensures Flatten(a + b) == Flatten(a) + Flatten(b)
  {
    if a == [] {
      assert a + b == b;
    } else {
      assert (a + b)[1..] == a[1..] + b;
      FlattenSplits(a[1..], b);
    }
  }

  lemma FlattenOne(chunk: Bytes)
    ensures Flatten([chunk]) == chunk
  {
    var none: seq<Bytes> := [];
    assert [chunk][1..] == none;
  }

  predicate NonEmpty(chunks: seq<Bytes>) {
    forall i | 0 <= i < |chunks| :: chunks[i] != []
  }

  // ----- The JavaScript reader: an event handler that keeps everything received -----

  /** Buffer.toString clamps its range: the bytes there are from `from` on and before `to`. */
  function Clamped(bs: Bytes, from: int, to: int): (r: Bytes)
    ensures forall i | 0 <= i < |bs| && from <= i < to ::
              var j := if from < 0 then i else i - from; j < |r| && r[j] == bs[i]
    ensures |r| > 0 ==> 0 < to && from < to && (if from < 0 then 0 else from) + |r| <= (if to < |bs| then to else |bs|)
  {
    var a := if from < 0 then 0 else if from > |bs| then |bs| else from;
    var b := if to < a then a else if to > |bs| then |bs| else to;
    bs[a..b]
  }

  predicate JsComplete(data: Bytes) {
    |data| >= 12 && |data| >= 12 + I32(data, 4) + I32(data, 8)
  }

  function JsRequest(data: Bytes): Request
    requires |data| >= 12
  {
    var keyLen, codeLen := I32(data, 4), I32(data, 8);
    Request(I32(data, 0), Clamped(data, 12, 12 + keyLen), Clamped(data, 12 + keyLen, 12 + keyLen + codeLen))
  }

  datatype JsState = JsState(data: Bytes, fired: seq<Request>)

  function JsStep(s: JsState, chunk: Bytes): JsState {
    var data := s.data + chunk;
    JsState(data, if JsComplete(data) then s.fired + [JsRequest(data)] else s.fired)
  }

  function JsRun(s: JsState, chunks: seq<Bytes>): JsState
    decreases |chunks|
  {
    if chunks == [] then s else JsRun(JsStep(s, chunks[0]), chunks[1..])
  }

  class JsConnection {
    var data: Bytes
    var fired: seq<Request>

    constructor ()
      ensures JsState(data, fired) == JsState([], [])
    {
      data, fired := [], [];
    }

    method OnData(chunk: Bytes)
      modifies this
      ensures JsState(data, fired) == JsStep(old(JsState(data, fired)), chunk)
    {
      data := data + chunk;
      if |data| >= 12 {
        var keyLen, codeLen := I32(data, 4), I32(data, 8);
        if |data| >= 12 + keyLen + codeLen {
          fired := fired + [Request(I32(data, 0), Clamped(data, 12, 12 + keyLen),
                                    Clamped(data, 12 + keyLen, 12 + keyLen + codeLen))];
        }
      }
    }
  }

  /** `data` and the request agree as far as both go. */
  predicate Consistent(data: Bytes, timeout: nat, key: Bytes, code: Bytes) {
    data <= Encode(timeout, key, code) || Encode(timeout, key, code) <= data
  }

  /** What the handler makes of a prefix of a request and of one with more behind it. */
  lemma JsReads(timeout: nat, key: Bytes, code: Bytes, data: Bytes)
    requires Sendable(timeout, key, code) && Consistent(data, timeout, key, code)
    ensures JsComplete(data) <==> |Encode(timeout, key, code)| <= |data|
    ensures JsComplete(data) ==> JsRequest(data) == Request(timeout * 1000, key, code)
  {
    var e := Encode(timeout, key, code);
    EncodeLayout(timeout, key, code);
    if |data| >= 12 {
      assert e[..12] == data[..12];
      SameWords(e, data);
      hide U32, Encode;
      if |data| >= |e| {
        assert data[12..12 + |key|] == e[12..12 + |key|];
        assert data[12 + |key|..|e|] == e[12 + |key|..];
      }
    }
  }

  lemma SameWords(a: Bytes, b: Bytes)
    requires |a| >= 12 && |b| >= 12 && a[..12] == b[..12]
    ensures U32(a, 0) == U32(b, 0) && U32(a, 4) == U32(b, 4) && U32(a, 8) == U32(b, 8)
  {
    assert forall i | 0 <= i < 12 :: a[i] == a[..12][i] && b[i] == b[..12][i];
  }

  /** All requests fired are `r`, and there are `n` of them. */
  predicate Fired(s: JsState, r: Request, n: nat) {
    |s.fired| == n && forall i | 0 <= i < n :: s.fired[i] == r
  }

  /** The handler fires on every chunk that leaves it with a whole request, the completing one and any
      after it: so once, on the last chunk, exactly when the request ends with that chunk. */
  lemma {:induction false} JsFires(timeout: nat, key: Bytes, code: Bytes, chunks: seq<Bytes>)
    requires Sendable(timeout, key, code) && Consistent(Flatten(chunks), timeout, key, code)
    ensures Fired(JsRun(JsState([], []), chunks), Request(timeout * 1000, key, code),
                  Completions(|Encode(timeout, key, code)|, chunks))
    decreases |chunks|
  {
    hide U32, I32, Encode, JsComplete, JsRequest, Flatten, JsRun, JsStep, Consistent, Completions;
    var start := JsState([], []);
    if chunks == [] {
      NothingFires(start, Request(timeout * 1000, key, code), |Encode(timeout, key, code)|);
    } else {
      var n := |chunks| - 1;
      var before := chunks[..n];
      assert chunks == before + [chunks[n]];
      FlattenSplits(before, [chunks[n]]);
      FlattenOne(chunks[n]);
      ConsistentBefore(Flatten(before), Flatten(chunks), timeout, key, code);
      JsFires(timeout, key, code, before);
      JsRunSplits(start, before, chunks[n]);
      JsAccumulates(start, before);
      JsReads(timeout, key, code, Flatten(chunks));
      JsFiresOnce(JsRun(start, before), chunks[n], |Encode(timeout, key, code)|, Request(timeout * 1000, key, code),
          chunks);
    }
  }

  lemma NothingFires(s: JsState, r: Request, size: nat)
    requires s.fired == []
    ensures Fired(JsRun(s, []), r, Completions(size, []))
  {
  }

  lemma ConsistentBefore(before: Bytes, data: Bytes, timeout: nat, key: Bytes, code: Bytes)
    requires before <= data && Consistent(data, timeout, key, code)
    ensures Consistent(before, timeout, key, code)
  {
    hide Encode;
  }

  lemma JsFiresOnce(s: JsState, chunk: Bytes, size: nat, r: Request, chunks: seq<Bytes>)
    requires chunks != [] && chunk == chunks[|chunks| - 1] && s.data + chunk == Flatten(chunks)
    requires Fired(s, r, Completions(size, chunks[..|chunks| - 1]))
    requires JsComplete(Flatten(chunks)) <==> size <= |Flatten(chunks)|
    requires JsComplete(Flatten(chunks)) ==> JsRequest(Flatten(chunks)) == r
    ensures Fired(JsStep(s, chunk), r, Completions(size, chunks))
  {
    hide JsComplete, JsRequest, Flatten;
  }

  /** How many of the prefixes of `chunks` hold at least `size` bytes. */
  function Completions(size: nat, chunks: seq<Bytes>): nat {
    if chunks == [] then 0
    else Completions(size, chunks[..|chunks| - 1]) + if |Flatten(chunks)| >= size then 1 else 0
  }

  lemma {:induction false} CompletionsAre(size: nat, chunks: seq<Bytes>)
    requires size > 0 && chunks != []
    ensures Completions(size, chunks) == 0 <==> |Flatten(chunks)| < size
    ensures Completions(size, chunks) == 1 <==> |Flatten(chunks[..|chunks| - 1])| < size <= |Flatten(chunks)|
    decreases |chunks|
  {
    hide Flatten;
    var n := |chunks| - 1;
    var before, last := chunks[..n], [chunks[n]];
    assert chunks == before + last;
    FlattenSplits(before, last);
    if n > 0 { CompletionsAre(size, before); } else { FlattenNothing(); }
  }

  lemma FlattenNothing()
    ensures Flatten([]) == []
  {
  }

  /** So it fires exactly once if and only if the last chunk completes the request. */
  lemma JsFiresOnceIff(timeout: nat, key: Bytes, code: Bytes, chunks: seq<Bytes>)
    requires Sendable(timeout, key, code) && Consistent(Flatten(chunks), timeout, key, code) && chunks != []
    ensures |JsRun(JsState([], []), chunks).fired| == 1 <==>
            |Flatten(chunks[..|chunks| - 1])| < |Encode(timeout, key, code)| <= |Flatten(chunks)|
  {
    hide Encode, Completions, Flatten, Consistent, JsRun;
    EncodeSize(timeout, key, code);
    JsFires(timeout, key, code, chunks);
    CompletionsAre(|Encode(timeout, key, code)|, chunks);
  }

  lemma EncodeSize(timeout: nat, key: Bytes, code: Bytes)
    ensures |Encode(timeout, key, code)| >= 12
  {
  }

  /** For instance, a byte that follows a whole request makes the handler answer it again. */
  lemma JsAnswersTwice(b: Byte)
    ensures var chunks := [Encode(1, [99], [49]), [b]];
            var r := Request(1000, [99], [49]);
            JsRun(JsState([], []), chunks).fired == [r, r]
  {
    var key, code: Bytes := [99], [49];
    var e := Encode(1, key, code);
    var chunks := [e, [b]];
    assert chunks[1..] == [[b]] && chunks[..1] == [e];
    FlattenOne([b]);
    FlattenOne(e);
    assert Flatten(chunks) == e + [b];
    JsFires(1, key, code, chunks);
    var none: seq<Bytes> := [];
    assert [e][..0] == none;
    assert Completions(|e|, [e]) == 1;
    assert Completions(|e|, chunks) == 2;
  }

  lemma {:induction false} JsAccumulates(s: JsState, chunks: seq<Bytes>)
    ensures JsRun(s, chunks).data == s.data + Flatten(chunks)
    decreases |chunks|
  {
    if chunks != [] { JsAccumulates(JsStep(s, chunks[0]), chunks[1..]); }
  }

  lemma {:induction false} JsRunSplits(s: JsState, chunks: seq<Bytes>, chunk: Bytes)
    ensures JsRun(s, chunks + [chunk]) == JsStep(JsRun(s, chunks), chunk)
    decreases |chunks|
  {
    if chunks == [] {
      assert chunks + [chunk] == [chunk] && [chunk][1..] == [];
    } else {
      assert (chunks + [chunk])[1..] == chunks[1..] + [chunk];
      JsRunSplits(JsStep(s, chunks[0]), chunks[1..], chunk);
    }
  }

  lemma {:induction false} NoCompletions(size: nat, chunks: seq<Bytes>)
    requires |Flatten(chunks)| < size
    ensures Completions(size, chunks) == 0
    decreases |chunks|
  {
    if chunks != [] {
      var n := |chunks| - 1;
      assert chunks == chunks[..n] + [chunks[n]];
      FlattenSplits(chunks[..n], [chunks[n]]);
      NoCompletions(size, chunks[..n]);
    }
  }

  /** However a request is split into non-empty chunks, the handler fires exactly once, on the last
      chunk, with the three fields that were sent. */
  lemma JsChunkIndependence(timeout: nat, key: Bytes, code: Bytes, chunks: seq<Bytes>, i: nat)
    requires Sendable(timeout, key, code) && NonEmpty(chunks) && Flatten(chunks) == Encode(timeout, key, code)
    requires i <= |chunks|
    ensures JsRun(JsState([], []), chunks[..i]).fired ==
        if i == |chunks| then [Request(timeout * 1000, key, code)] else []
  {
    EncodeLayout(timeout, key, code);
    SplitAt(chunks, i);
    JsFires(timeout, key, code, chunks[..i]);
    CompletesOnce(chunks, i);
  }

  /** Of the prefixes of non-empty chunks, only the whole holds everything. */
  lemma CompletesOnce(chunks: seq<Bytes>, i: nat)
    requires NonEmpty(chunks) && i <= |chunks| && Flatten(chunks) != []
    ensures Completions(|Flatten(chunks)|, chunks[..i]) == if i == |chunks| then 1 else 0
  {
    var size, n := |Flatten(chunks)|, |chunks| - 1;
    SplitAt(chunks, i);
    if i < |chunks| {
      NoCompletions(size, chunks[..i]);
    } else {
      assert chunks[..i] == chunks;
      SplitAt(chunks, n);
      NoCompletions(size, chunks[..n]);
    }
  }

  lemma SplitAt(chunks: seq<Bytes>, i: nat)
    requires NonEmpty(chunks) && i <= |chunks|
    ensures Flatten(chunks[..i]) <= Flatten(chunks)
    ensures i < |chunks| ==> |Flatten(chunks[..i])| < |Flatten(chunks)|
  {
    assert chunks == chunks[..i] + chunks[i..];
    FlattenSplits(chunks[..i], chunks[i..]);
    assert i < |chunks| ==> chunks[i..][0] != [];
  }
}
