/** UTF-8 (RFC 3629, section 3), and decoding that replaces what is ill-formed: each maximal subpart of
    a well-formed sequence by one U+FFFD (Unicode Standard, section 3.9).
 */
module Utf8 {
  import opened Protocol

  const REPLACEMENT: char := '\U{FFFD}'

  // ----- Encoding -----

  function EncodeChar(c: char): (bs: Bytes)
    ensures 1 <= |bs| <= 4
  {
    var n := c as int;
    if n < 0x80 then [n]
    else if n < 0x800 then [0xC0 + n / 64, Tail(n)]
    else if n < 0x1_0000 then [0xE0 + n / 4096, Tail(n / 64), Tail(n)]
    else [0xF0 + n / 0x4_0000, Tail(n / 4096), Tail(n / 64), Tail(n)]
  }

  function Tail(n: nat): Byte {
    0x80 + n % 64
  }

  function EncodeText(s: string): Bytes {
    if s == "" then [] else EncodeChar(s[0]) + EncodeText(s[1..])
  }

  // ----- Decoding -----

  predicate IsTail(b: Byte) {
    0x80 <= b < 0xC0
  }

  /** The length of the sequences a byte begins; 0 when it begins none. */
  function Width(b: Byte): nat {
    if b < 0x80 then 1
    else if 0xC2 <= b < 0xE0 then 2
    else if 0xE0 <= b < 0xF0 then 3
    else if 0xF0 <= b < 0xF5 then 4
    else 0
  }

  /** Which second bytes may follow a first: no overlong forms, no surrogates, nothing above U+10FFFF. */
  predicate MayFollow(first: Byte, second: Byte) {
    if first == 0xE0 then 0xA0 <= second < 0xC0
    else if first == 0xED then 0x80 <= second < 0xA0
    else if first == 0xF0 then 0x90 <= second < 0xC0
    else if first == 0xF4 then 0x80 <= second < 0x90
    else IsTail(second)
  }

  /** How many bytes at the front belong together: a whole character or a maximal part of one. */
  function Extent(bs: Bytes): (n: nat)
    requires bs != []
    ensures 1 <= n <= |bs| && n <= 4
  {
    var w := Width(bs[0]);
    if w < 2 || |bs| < 2 || !MayFollow(bs[0], bs[1]) then 1
    else if w == 2 || |bs| < 3 || !IsTail(bs[2]) then 2
    else if w == 3 || |bs| < 4 || !IsTail(bs[3]) then 3
    else 4
  }

  function CodePoint(bs: Bytes): (n: int)
    requires bs != [] && Extent(bs) == Width(bs[0])
    ensures 0 <= n < 0xD800 || 0xE000 <= n < 0x11_0000
  {
    var w, first: int := Width(bs[0]), bs[0];
    if w == 1 then first
    else if w == 2 then (first - 0xC0) * 64 + Low(bs[1])
    else if w == 3 then (first - 0xE0) * 4096 + Low(bs[1]) * 64 + Low(bs[2])
    else (first - 0xF0) * 0x4_0000 + Low(bs[1]) * 4096 + Low(bs[2]) * 64 + Low(bs[3])
  }

  /** What a continuation byte carries. */
  function Low(b: int): int {
    b - 0x80
  }

  function FirstChar(bs: Bytes): char
    requires bs != []
  {
    if Extent(bs) == Width(bs[0]) then CodePoint(bs) as char else REPLACEMENT
  }

  function Lossy(bs: Bytes): string {
    if bs == [] then "" else [FirstChar(bs)] + Lossy(bs[Extent(bs)..])
  }

  lemma LossyNothing()
    ensures Lossy([]) == ""
  {
  }

  // ----- Round trip -----

  /** Digits to the base 64. */
  lemma Digits(n: nat)
    ensures n / 4096 == n / 64 / 64 && n / 0x4_0000 == n / 4096 / 64
    ensures n == n / 64 * 64 + n % 64
    ensures n / 64 == n / 4096 * 64 + n / 64 % 64
    ensures n / 4096 == n / 0x4_0000 * 64 + n / 4096 % 64
  {
  }

  /** The first bytes of a character's encoding. */
  lemma FirstBytes(c: char)
    ensures var bs := EncodeChar(c);
            && Width(bs[0]) == |bs|
            && (|bs| > 1 ==> MayFollow(bs[0], bs[1]))
            && (|bs| > 2 ==> IsTail(bs[2]))
            && (|bs| > 3 ==> IsTail(bs[3]))
  {
    Digits(c as int);
  }

  lemma CharRoundTrip(c: char, rest: Bytes)
    ensures var bs := EncodeChar(c) + rest; Extent(bs) == |EncodeChar(c)| && FirstChar(bs) == c
  {
    var e := EncodeChar(c);
    var bs := e + rest;
    FirstBytes(c);
    assert forall i | 0 <= i < |e| :: bs[i] == e[i];
    assert Extent(bs) == |e| == Width(bs[0]);
    CodePointIs(c, bs);
  }

  lemma CodePointIs(c: char, bs: Bytes)
    requires bs != [] && |EncodeChar(c)| <= |bs| && Extent(bs) == Width(bs[0]) == |EncodeChar(c)|
    requires forall i | 0 <= i < |EncodeChar(c)| :: bs[i] == EncodeChar(c)[i]
    ensures CodePoint(bs) == c as int
  {
    Digits(c as int);
  }

  /** A character cut short is one maximal subpart. */
  /** Only what encodes a character is decoded as one. */
  lemma DecodedIsEncoded(bs: Bytes)
    requires bs != [] && Extent(bs) == Width(bs[0])
    ensures EncodeChar(CodePoint(bs) as char) == bs[..Extent(bs)]
  {
    var n := CodePoint(bs);
    var w := Width(bs[0]);
    if w == 1 {
    } else if w == 2 {
      Remainder(bs[0] as int - 0xC0, Low(bs[1]), n);
    } else if w == 3 {
      Remainder((bs[0] as int - 0xE0) * 64 + Low(bs[1]), Low(bs[2]), n);
      Remainder(bs[0] as int - 0xE0, Low(bs[1]), n / 64);
      Digits(n);
    } else {
      var m := (bs[0] as int - 0xF0) * 64 + Low(bs[1]);
      Remainder(m * 64 + Low(bs[2]), Low(bs[3]), n);
      Remainder(m, Low(bs[2]), n / 64);
      Digits(n);
      Remainder(bs[0] as int - 0xF0, Low(bs[1]), n / 4096);
    }
  }

  lemma Remainder(a: int, b: int, n: int)
    requires 0 <= b < 64 && n == a * 64 + b
    ensures n / 64 == a && n % 64 == b
  {
  }

  /** What is replaced is as long as it can be: one byte more begins no character, and it begins one itself if it has
      more than one byte. */
  lemma ExtentIsMaximal(bs: Bytes, c: char)
    requires bs != [] && Extent(bs) != Width(bs[0])
    ensures Extent(bs) < |bs| ==> !(bs[..Extent(bs) + 1] <= EncodeChar(c))
    ensures Extent(bs) > 1 ==> exists d :: bs[..Extent(bs)] < EncodeChar(d)
  {
    var n := Extent(bs);
    if n < |bs| && bs[..n + 1] <= EncodeChar(c) { BeginningsExtend(bs, c, n); }
    if n > 1 {
      var tails: Bytes := if Width(bs[0]) == n + 1 then [0x80] else [0x80, 0x80];
      Completed(bs, n, tails);
    }
  }

  lemma BeginningsExtend(bs: Bytes, c: char, n: nat)
    requires n < |bs| && bs[..n + 1] <= EncodeChar(c)
    ensures n < Extent(bs)
  {
    FirstBytes(c);
    assert forall i | 0 <= i <= n :: bs[i] == bs[..n + 1][i] == EncodeChar(c)[i];
  }

  lemma Completed(bs: Bytes, n: nat, tails: Bytes)
    requires bs != [] && n == Extent(bs) && 1 < n < Width(bs[0]) == n + |tails|
    requires forall b | b in tails :: b == 0x80
    ensures exists d :: bs[..n] < EncodeChar(d)
  {
    var whole := bs[..n] + tails;
    assert forall i | 0 <= i < n :: whole[i] == bs[i];
    assert forall i | n <= i < |whole| :: whole[i] == tails[i - n] && tails[i - n] in tails;
    assert Extent(whole) == |whole| == Width(whole[0]);
    DecodedIsEncoded(whole);
    assert whole[..|whole|] == whole && bs[..n] < whole;
  }

  lemma CutChar(c: char, k: nat)
    requires 0 < k < |EncodeChar(c)|
    ensures var bs := EncodeChar(c)[..k]; Extent(bs) == k && FirstChar(bs) == REPLACEMENT
  {
    FirstBytes(c);
  }

  /** Text that is well-formed comes through lossy decoding whole, whatever follows it. */
  lemma {:induction false} TextRoundTrip(s: string, rest: Bytes)
    ensures Lossy(EncodeText(s) + rest) == s + Lossy(rest)
  {
    if s == "" {
      assert EncodeText(s) + rest == rest;
    } else {
      var more := EncodeText(s[1..]) + rest;
      assert EncodeText(s) + rest == EncodeChar(s[0]) + more;
      CharRoundTrip(s[0], more);
      assert (EncodeChar(s[0]) + more)[|EncodeChar(s[0])|..] == more;
      TextRoundTrip(s[1..], rest);
    }
  }

  lemma {:induction false} EncodeSplits(s: string, t: string)
    ensures EncodeText(s + t) == EncodeText(s) + EncodeText(t)
  {
    if s == "" {
      assert s + t == t;
    } else {
      assert (s + t)[1..] == s[1..] + t;
      EncodeSplits(s[1..], t);
    }
  }

  // ----- Cutting -----

  /** The longest prefix of whole characters that fits in `n` bytes. */
  function WholePrefix(s: string, n: nat): string {
    if s == "" || |EncodeChar(s[0])| > n then "" else [s[0]] + WholePrefix(s[1..], n - |EncodeChar(s[0])|)
  }

  lemma {:induction false} WholePrefixFits(s: string, n: nat)
    ensures WholePrefix(s, n) <= s && |EncodeText(WholePrefix(s, n))| <= n
  {
    var p := WholePrefix(s, n);
    if p != "" {
      var m := n - |EncodeChar(s[0])|;
      WholePrefixFits(s[1..], m);
      assert p[1..] == WholePrefix(s[1..], m);
    }
  }

  lemma {:induction false} WholePrefixIsLongest(s: string, n: nat, q: string)
    requires q <= s && |EncodeText(q)| <= n
    ensures q <= WholePrefix(s, n)
  {
    if q != "" {
      assert q[0] == s[0] && q[1..] <= s[1..];
      WholePrefixIsLongest(s[1..], n - |EncodeChar(s[0])|, q[1..]);
    }
  }

  /** Cutting well-formed text at any byte and decoding gives the longest whole prefix that fits, and one
      replacement if the cut falls inside a character. */
  lemma {:induction false} CutText(s: string, n: nat)
    requires n <= |EncodeText(s)|
    ensures var p := WholePrefix(s, n);
            && |EncodeText(p)| <= n < |EncodeText(p)| + 4
            && Lossy(EncodeText(s)[..n]) == p + if |EncodeText(p)| < n then [REPLACEMENT] else ""
  {
    if n == 0 {
      NothingFits(s);
    } else {
      var e := EncodeChar(s[0]);
      assert EncodeText(s) == e + EncodeText(s[1..]);
      if |e| > n {
        CutChar(s[0], n);
        assert EncodeText(s)[..n] == e[..n];
        assert e[..n][n..] == [];
      } else {
        var m := n - |e|;
        var more := EncodeText(s[1..])[..m];
        assert EncodeText(s)[..n] == e + more;
        CutText(s[1..], m);
        CharRoundTrip(s[0], more);
        assert (e + more)[|e|..] == more;
        assert WholePrefix(s, n)[1..] == WholePrefix(s[1..], m);
      }
    }
  }

  lemma NothingFits(s: string)
    ensures WholePrefix(s, 0) == ""
  {
  }
}
