/** UTF-8 as section 3 of RFC 3629 defines it, and the facts about character
    boundaries that make a byte-level scanner's slices safe. */
module Utf8 {
  type Byte = b: int | 0 <= b < 256

  /** Unicode scalar values: code points without the surrogates. */
  type Scalar = c: int | 0 <= c < 0xD800 || 0xE000 <= c < 0x110000

  /** The octet sequence of one character, by the table in section 3 of RFC 3629. */
  function Encode(c: Scalar): seq<Byte> {
    if c < 0x80 then [c]
    else if c < 0x800 then [0xC0 + c / 0x40, 0x80 + c % 0x40]
    else if c < 0x10000 then [0xE0 + c / 0x1000, 0x80 + c / 0x40 % 0x40, 0x80 + c % 0x40]
    else [0xF0 + c / 0x40000, 0x80 + c / 0x1000 % 0x40, 0x80 + c / 0x40 % 0x40, 0x80 + c % 0x40]
  }

  function EncodeAll(cs: seq<Scalar>): seq<Byte> {
    if cs == [] then [] else Encode(cs[0]) + EncodeAll(cs[1..])
  }

  /** A Rust `&str`: the encoding of some character sequence. */
  ghost predicate ValidUtf8(s: seq<Byte>) {
    exists cs: seq<Scalar> :: s == EncodeAll(cs)
  }

  /** Continuation octets 10xxxxxx. */
  predicate IsContinuation(b: Byte) {
    0x80 <= b < 0xC0
  }

  /** The number of octets a lead octet announces; 0 for an octet that cannot lead. */
  function Width(b: Byte): nat {
    if b < 0x80 then 1
    else if 0xC2 <= b < 0xE0 then 2
    else if 0xE0 <= b < 0xF0 then 3
    else if 0xF0 <= b < 0xF5 then 4
    else 0
  }

  /** The restrictions on the second octet that exclude overlong forms, surrogates
      and values above 0x10FFFF. */
  predicate SecondOctetOk(lead: Byte, second: Byte) {
    && (lead == 0xE0 ==> 0xA0 <= second)
    && (lead == 0xED ==> second < 0xA0)
    && (lead == 0xF0 ==> 0x90 <= second)
    && (lead == 0xF4 ==> second < 0x90)
  }

  /** A whole character starts at i and the next one, if any, starts where it ends. */
  predicate CharAt(s: seq<Byte>, i: nat)
    requires i < |s|
  {
    var w := Width(s[i]);
    && 1 <= w <= |s| - i
    && (w >= 2 ==> IsContinuation(s[i + 1]) && SecondOctetOk(s[i], s[i + 1]))
    && (w >= 3 ==> IsContinuation(s[i + 2]))
    && (w == 4 ==> IsContinuation(s[i + 3]))
    && (i + w < |s| ==> !IsContinuation(s[i + w]))
  }

  /** The local form of well-formedness: every octet that does not continue a
      character starts a whole one. */
  ghost predicate WellFormed(s: seq<Byte>) {
    && (s != [] ==> !IsContinuation(s[0]))
    && forall i {:trigger CharAt(s, i)} :: 0 <= i < |s| && !IsContinuation(s[i]) ==> CharAt(s, i)
  }

  /** Rust's `is_char_boundary`. */
  predicate IsBoundary(s: seq<Byte>, i: nat) {
    i <= |s| && (i < |s| ==> !IsContinuation(s[i]))
  }

  /** From one character boundary, the width of the character leads to the next. */
  lemma NextBoundary(s: seq<Byte>, i: nat)
    requires WellFormed(s) && i < |s| && IsBoundary(s, i)
    ensures CharAt(s, i) && IsBoundary(s, i + Width(s[i]))
    ensures forall k :: i < k < i + Width(s[i]) ==> IsContinuation(s[k])
  {
    assert CharAt(s, i);
  }

  /** An ASCII octet is a whole character: what follows it is a boundary. */
  lemma AfterAscii(s: seq<Byte>, i: nat)
    requires WellFormed(s) && i < |s| && s[i] < 0x80
    ensures IsBoundary(s, i + 1)
  {
    assert CharAt(s, i);
  }

  /** The character that starts at i, as `chars().next()` on the slice from i decodes it. */
  function DecodeAt(s: seq<Byte>, i: nat): Scalar
    requires i < |s| && CharAt(s, i)
  {
    var w := Width(s[i]);
    var lead: int := s[i];
    if w == 1 then s[i]
    else
      var second: int := s[i + 1] - 0x80;
      if w == 2 then (lead - 0xC0) * 0x40 + second
      else
        var third: int := s[i + 2] - 0x80;
        if w == 3 then (lead - 0xE0) * 0x1000 + second * 0x40 + third
        else
          var fourth: int := s[i + 3] - 0x80;
          (lead - 0xF0) * 0x40000 + second * 0x1000 + third * 0x40 + fourth
  }

  lemma SplitOctets(hi: nat, lo: nat)
    requires lo < 0x40
    ensures (hi * 0x40 + lo) / 0x40 == hi && (hi * 0x40 + lo) % 0x40 == lo
  {
  }

  lemma EncodeTwo(lead: int, x: int)
    requires 0xC2 <= lead < 0xE0 && 0 <= x < 0x40
    ensures Encode((lead - 0xC0) * 0x40 + x) == [lead, 0x80 + x]
  {
    SplitOctets(lead - 0xC0, x);
  }

  lemma EncodeThree(lead: int, x: int, y: int, c: Scalar)
    requires 0xE0 <= lead < 0xF0 && 0 <= x < 0x40 && 0 <= y < 0x40 && (lead == 0xE0 ==> 0x20 <= x)
    requires c == (lead - 0xE0) * 0x1000 + x * 0x40 + y
    ensures Encode(c) == [lead, 0x80 + x, 0x80 + y]
  {
    SplitOctets((lead - 0xE0) * 0x40 + x, y);
    SplitOctets(lead - 0xE0, x);
    assert c / 0x1000 == c / 0x40 / 0x40;
  }

  lemma EncodeFour(lead: int, x: int, y: int, z: int, c: Scalar)
    requires 0xF0 <= lead < 0xF5 && 0 <= x < 0x40 && 0 <= y < 0x40 && 0 <= z < 0x40 && (lead == 0xF0 ==> 0x10 <= x)
    requires c == (lead - 0xF0) * 0x40000 + x * 0x1000 + y * 0x40 + z
    ensures Encode(c) == [lead, 0x80 + x, 0x80 + y, 0x80 + z]
  {
    SplitOctets(((lead - 0xF0) * 0x40 + x) * 0x40 + y, z);
    SplitOctets((lead - 0xF0) * 0x40 + x, y);
    SplitOctets(lead - 0xF0, x);
    assert c / 0x1000 == c / 0x40 / 0x40;
    assert c / 0x40000 == c / 0x1000 / 0x40;
  }

  /** Decoding inverts encoding, octet for octet. */
  lemma DecodeIsInverse(s: seq<Byte>, i: nat)
    requires i < |s| && CharAt(s, i)
    ensures s[i..i + Width(s[i])] == Encode(DecodeAt(s, i))
  {
    var w := Width(s[i]);
    if w == 1 {
      assert s[i..i + 1] == [s[i]];
    } else if w == 2 {
      assert s[i..i + 2] == [s[i], s[i + 1]];
      EncodeTwo(s[i], s[i + 1] - 0x80);
    } else if w == 3 {
      assert s[i..i + 3] == [s[i], s[i + 1], s[i + 2]];
      EncodeThree(s[i], s[i + 1] - 0x80, s[i + 2] - 0x80, DecodeAt(s, i));
    } else {
      assert s[i..i + 4] == [s[i], s[i + 1], s[i + 2], s[i + 3]];
      EncodeFour(s[i], s[i + 1] - 0x80, s[i + 2] - 0x80, s[i + 3] - 0x80, DecodeAt(s, i));
    }
  }

  /** One encoded character is well formed in front of anything that does not start
      with a continuation octet. */
  lemma EncodeStarts(c: Scalar, t: seq<Byte>)
    requires t != [] ==> !IsContinuation(t[0])
    ensures var s := Encode(c) + t;
      && !IsContinuation(s[0]) && CharAt(s, 0) && Width(s[0]) == |Encode(c)|
      && forall k :: 0 < k < |Encode(c)| ==> IsContinuation(s[k])
  {
    var e := Encode(c);
    var s := e + t;
    assert s[0] == e[0];
    if |e| >= 2 { assert s[1] == e[1]; }
    if |e| >= 3 { assert s[2] == e[2]; }
    if |e| >= 4 { assert s[3] == e[3]; }
    if t != [] { assert s[|e|] == t[0]; }
  }

  lemma WellFormedCons(c: Scalar, t: seq<Byte>)
    requires WellFormed(t)
    ensures WellFormed(Encode(c) + t)
  {
    var e := Encode(c);
    var s := e + t;
    EncodeStarts(c, t);
    forall i | 0 <= i < |s| && !IsContinuation(s[i]) ensures CharAt(s, i) {
      if i >= |e| {
        var j := i - |e|;
        assert CharAt(t, j);
        assert forall k :: j <= k < |t| ==> s[k + |e|] == t[k];
      }
    }
  }

  lemma WellFormedTail(s: seq<Byte>)
    requires WellFormed(s) && s != []
    ensures CharAt(s, 0) && WellFormed(s[Width(s[0])..])
  {
    var w := Width(s[0]);
    assert CharAt(s, 0);
    var t := s[w..];
    forall i | 0 <= i < |t| && !IsContinuation(t[i]) ensures CharAt(t, i) {
      assert CharAt(s, w + i);
    }
  }

  /** The local form is exactly the language RFC 3629 defines. */
  lemma {:induction false} ValidIffWellFormed(s: seq<Byte>)
    ensures ValidUtf8(s) <==> WellFormed(s)
  {
    if ValidUtf8(s) {
      var cs: seq<Scalar> :| s == EncodeAll(cs);
      EncodeAllWellFormed(cs);
    }
    if WellFormed(s) {
      var cs := DecodeAll(s);
    }
  }

  lemma {:induction false} EncodeAllWellFormed(cs: seq<Scalar>)
    ensures WellFormed(EncodeAll(cs))
  {
    if cs != [] {
      EncodeAllWellFormed(cs[1..]);
      WellFormedCons(cs[0], EncodeAll(cs[1..]));
    }
  }

  lemma {:induction false} DecodeAll(s: seq<Byte>) returns (cs: seq<Scalar>)
    requires WellFormed(s)
    ensures s == EncodeAll(cs)
    decreases |s|
  {
    if s == [] {
      cs := [];
    } else {
      WellFormedTail(s);
      var w := Width(s[0]);
      var rest := DecodeAll(s[w..]);
      DecodeIsInverse(s, 0);
      cs := [DecodeAt(s, 0)] + rest;
      assert cs[1..] == rest;
      assert s[0..w] == Encode(cs[0]) && s == s[0..w] + s[w..];
    }
  }
}
