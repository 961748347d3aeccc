/** UTF-8 well-formedness, section 4 of RFC 3629. */
module Utf8 {
  import opened Bytes

  predicate Cont(c: byte) {
    0x80 <= c <= 0xbf
  }

  /** The length of the encoded character that starts `s`; zero when `s` starts none. */
  function RuneLen(s: seq<byte>): (n: nat)
    ensures n <= |s| && n <= 4
  {
    if s == [] then 0
    else if s[0] < 0x80 then 1
    else if |s| >= 2 && 0xc2 <= s[0] <= 0xdf && Cont(s[1]) then 2
    else if |s| >= 3 && 0xe0 <= s[0] <= 0xef && Cont(s[1]) && Cont(s[2])
            && (s[0] == 0xe0 ==> s[1] >= 0xa0) && (s[0] == 0xed ==> s[1] <= 0x9f) then 3
    else if |s| >= 4 && 0xf0 <= s[0] <= 0xf4 && Cont(s[1]) && Cont(s[2]) && Cont(s[3])
            && (s[0] == 0xf0 ==> s[1] >= 0x90) && (s[0] == 0xf4 ==> s[1] <= 0x8f) then 4
    else 0
  }

  predicate ValidUtf8(s: seq<byte>)
    decreases |s|
  {
    s == [] || (RuneLen(s) > 0 && ValidUtf8(s[RuneLen(s)..]))
  }

  // ---- characters --------------------------------------------------------------------------------

  const RUNE_ERROR: nat := 0xfffd

  /** A Unicode scalar value. */
  predicate IsScalar(r: nat) {
    r < 0xd800 || 0xe000 <= r < 0x110000
  }

  /** utf8.AppendRune: the encoding of a character; what is not one is written as U+FFFD. */
  function RuneBytes(r: nat): (s: seq<byte>)
    ensures 0 < |s| <= 4
  {
    if r < 0x80 then [r]
    else if r < 0x800 then [0xc0 + r / 64, 0x80 + r % 64]
    else if !IsScalar(r) then [0xef, 0xbf, 0xbd]
    else if r < 0x10000 then [0xe0 + r / 64 / 64, 0x80 + r / 64 % 64, 0x80 + r % 64]
    else [0xf0 + r / 64 / 64 / 64, 0x80 + r / 64 / 64 % 64, 0x80 + r / 64 % 64, 0x80 + r % 64]
  }

  /** Six more bits from a continuation byte. */
  function Joined(high: nat, c: byte): (r: nat)
    requires Cont(c)
    ensures r / 64 == high && 0x80 + r % 64 == c
  {
    high * 64 + (c - 0x80)
  }

  /** utf8.DecodeRune: the character that starts `s` and its length; U+FFFD and one byte where none does. */
  function DecodeRune(s: seq<byte>): (d: (nat, nat))
    requires s != []
    ensures 0 < d.1 <= |s|
  {
    var n := RuneLen(s);
    if n == 0 then (RUNE_ERROR, 1)
    else if n == 1 then (s[0], 1)
    else if n == 2 then (Joined(s[0] - 0xc0, s[1]), 2)
    else if n == 3 then (Joined(Joined(s[0] - 0xe0, s[1]), s[2]), 3)
    else (Joined(Joined(Joined(s[0] - 0xf0, s[1]), s[2]), s[3]), 4)
  }

  /** Writing the character just read gives its bytes back, or U+FFFD for a byte that starts none. */
  lemma ReencodeRune(s: seq<byte>)
    requires s != []
    ensures RuneBytes(DecodeRune(s).0) == if RuneLen(s) > 0 then s[..RuneLen(s)] else RuneBytes(RUNE_ERROR)
  {
    var n := RuneLen(s);
    if n == 2 {
      var r := Joined(s[0] - 0xc0, s[1]);
      assert RuneBytes(r) == [s[0], s[1]];
    } else if n == 3 {
      Reencode3(s);
    } else if n == 4 {
      Reencode4(s);
    }
  }

  lemma Reencode3(s: seq<byte>)
    requires RuneLen(s) == 3
    ensures RuneBytes(DecodeRune(s).0) == s[..3]
  {
    var h := Joined(s[0] - 0xe0, s[1]);
    var r := Joined(h, s[2]);
    assert 0x20 <= h < 0x400 && !(0x360 <= h < 0x380);
    assert r / 64 == h && h / 64 == s[0] - 0xe0;
    assert RuneBytes(r) == [0xe0 + r / 64 / 64, 0x80 + r / 64 % 64, 0x80 + r % 64];
  }

  lemma Reencode4(s: seq<byte>)
    requires RuneLen(s) == 4
    ensures RuneBytes(DecodeRune(s).0) == s[..4]
  {
    hide RuneBytes, Joined;
    Lead4(s);
    Bytes4(s[0] - 0xf0, s[1], s[2], s[3]);
    assert s[..4] == [s[0], s[1], s[2], s[3]];
  }

  lemma Lead4(s: seq<byte>)
    requires RuneLen(s) == 4
    ensures 0x10 <= Joined(s[0] - 0xf0, s[1]) < 0x110
  {
  }

  /** The value grows by six bits. */
  lemma SixMore(g: nat, c: byte, lo: nat, hi: nat)
    requires Cont(c) && lo <= g < hi
    ensures lo * 64 <= Joined(g, c) < hi * 64
  {
  }

  lemma Bytes4(f: nat, a: byte, b: byte, c: byte)
    requires Cont(a) && Cont(b) && Cont(c) && 0x10 <= Joined(f, a) < 0x110
    ensures RuneBytes(Joined(Joined(Joined(f, a), b), c)) == [0xf0 + f, a, b, c]
  {
    hide Joined;
    var g := Joined(f, a);
    var h := Joined(g, b);
    var r := Joined(h, c);
    SixMore(g, b, 0x10, 0x110);
    SixMore(h, c, 0x400, 0x4400);
    assert r / 64 == h && h / 64 == g && g / 64 == f;
  }

  /** The bytes of a character are read as that character, whatever follows. */
  lemma RuneRead(r: nat, suffix: seq<byte>)
    requires IsScalar(r)
    ensures RuneLen(RuneBytes(r) + suffix) == |RuneBytes(r)|
    ensures DecodeRune(RuneBytes(r) + suffix) == (r, |RuneBytes(r)|)
  {
    hide Joined;
    var s := RuneBytes(r) + suffix;
    var h := r / 64;
    var g := h / 64;
    assert r == 64 * h + r % 64 && h == 64 * g + h % 64 && g == 64 * (g / 64) + g % 64;
    if r < 0x80 {
      assert s[0] == r;
    } else if r < 0x800 {
      assert s[0] == 0xc0 + h && s[1] == 0x80 + r % 64;
      JoinedBack(r);
    } else if r < 0x10000 {
      RuneRead3(r, s, suffix);
    } else {
      RuneRead4(r, s, suffix);
    }
  }

  lemma JoinedBack(r: nat)
    ensures Joined(r / 64, 0x80 + r % 64) == r
  {
  }

  lemma RuneRead3(r: nat, s: seq<byte>, suffix: seq<byte>)
    requires IsScalar(r) && 0x800 <= r < 0x10000 && s == RuneBytes(r) + suffix
    ensures RuneLen(s) == 3 && DecodeRune(s) == (r, 3)
  {
    hide Joined;
    var h := r / 64;
    assert s[0] == 0xe0 + h / 64 && s[1] == 0x80 + h % 64 && s[2] == 0x80 + r % 64;
    assert 0x20 <= h < 0x400 && !(0x360 <= h < 0x380) && h == 64 * (h / 64) + h % 64;
    JoinedBack(h);
    JoinedBack(r);
  }

  lemma RuneRead4(r: nat, s: seq<byte>, suffix: seq<byte>)
    requires IsScalar(r) && 0x10000 <= r && s == RuneBytes(r) + suffix
    ensures RuneLen(s) == 4 && DecodeRune(s) == (r, 4)
  {
    hide Joined;
    var h := r / 64;
    var g := h / 64;
    assert s[0] == 0xf0 + g / 64 && s[1] == 0x80 + g % 64 && s[2] == 0x80 + h % 64 && s[3] == 0x80 + r % 64;
    assert 0x400 <= h < 0x4400 && 0x10 <= g < 0x110 && g == 64 * (g / 64) + g % 64;
    JoinedBack(g);
    JoinedBack(h);
    JoinedBack(r);
  }

  /** Text with every byte that is part of no character replaced by U+FFFD. */
  function Repair(s: seq<byte>): (r: seq<byte>)
    decreases |s|
  {
    if s == [] then []
    else if RuneLen(s) == 0 then RuneBytes(RUNE_ERROR) + Repair(s[1..])
    else s[..RuneLen(s)] + Repair(s[RuneLen(s)..])
  }

  /** Repaired text is valid, at most three times as long, and valid text is left alone. */
  lemma {:induction false} RepairValid(s: seq<byte>)
    ensures ValidUtf8(Repair(s)) && |Repair(s)| <= 3 * |s|
    ensures ValidUtf8(s) ==> Repair(s) == s
    decreases |s|
  {
    hide RuneLen, RuneBytes;
    if s != [] {
      var n := RuneLen(s);
      if n == 0 {
        RepairValid(s[1..]);
        RuneRead(RUNE_ERROR, Repair(s[1..]));
        ErrorBytes();
        ValidCons(RuneBytes(RUNE_ERROR), Repair(s[1..]));
      } else {
        RepairValid(s[n..]);
        RunePrefix(s, Repair(s[n..]));
        ValidCons(s[..n], Repair(s[n..]));
        assert s == s[..n] + s[n..];
      }
    }
  }

  lemma ErrorBytes()
    ensures |RuneBytes(RUNE_ERROR)| == 3
  {
  }

  lemma ValidCons(c: seq<byte>, s: seq<byte>)
    requires c != [] && RuneLen(c + s) == |c| && ValidUtf8(s)
    ensures ValidUtf8(c + s)
  {
    hide RuneLen;
    assert (c + s)[|c|..] == s;
  }

  /** The bytes of one character stay one character before anything else. */
  lemma RunePrefix(s: seq<byte>, suffix: seq<byte>)
    requires RuneLen(s) > 0
    ensures RuneLen(s[..RuneLen(s)] + suffix) == RuneLen(s)
  {
  }

  /** validUTF8: text that is valid as it is, or rebuilt character by character. */
  method ValidText(b: seq<byte>) returns (out: seq<byte>)
    ensures out == Repair(b)
  {
    hide RuneLen, RuneBytes, DecodeRune;
    if ValidUtf8(b) {
      RepairValid(b);
      return b;
    }
    out := [];
    var rest := b;
    while rest != []
      invariant out + Repair(rest) == Repair(b)
      decreases |rest|
    {
      var d := DecodeRune(rest);
      ReencodeRune(rest);
      DecodedLength(rest);
      assert Repair(rest) == RuneBytes(d.0) + Repair(rest[d.1..]);
      assert out + (RuneBytes(d.0) + Repair(rest[d.1..])) == (out + RuneBytes(d.0)) + Repair(rest[d.1..]);
      out := out + RuneBytes(d.0);
      rest := rest[d.1..];
    }
  }

  lemma DecodedLength(s: seq<byte>)
    requires s != []
    ensures DecodeRune(s).1 == if RuneLen(s) == 0 then 1 else RuneLen(s)
  {
  }

  // ---- the table of section 3 of RFC 3629 -----------------------------------------------------------------------

  function Part(c: byte, base: nat): nat
    requires c >= base
  {
    c - base
  }

  /** The bytes of a character: how many go by its range, and they hold its bits, the high ones first. */
  predicate Encodes(r: nat, s: seq<byte>) {
    if r <= 0x7f then s == [r]
    else if r <= 0x7ff then |s| == 2 && 0xc0 <= s[0] <= 0xdf && 0x80 <= s[1] <= 0xbf
                            && r == Part(s[0], 0xc0) * 64 + Part(s[1], 0x80)
    else if r <= 0xffff then !(0xd800 <= r <= 0xdfff) && |s| == 3 && 0xe0 <= s[0] <= 0xef
                             && 0x80 <= s[1] <= 0xbf && 0x80 <= s[2] <= 0xbf
                             && r == (Part(s[0], 0xe0) * 64 + Part(s[1], 0x80)) * 64 + Part(s[2], 0x80)
    else r <= 0x10ffff && |s| == 4 && 0xf0 <= s[0] <= 0xf7
         && 0x80 <= s[1] <= 0xbf && 0x80 <= s[2] <= 0xbf && 0x80 <= s[3] <= 0xbf
         && r == ((Part(s[0], 0xf0) * 64 + Part(s[1], 0x80)) * 64 + Part(s[2], 0x80)) * 64 + Part(s[3], 0x80)
  }

  /** The encoding of a character is the one of the table; what is no character has none. */
  lemma EncodesIff(r: nat, s: seq<byte>)
    ensures Encodes(r, s) <==> IsScalar(r) && s == RuneBytes(r)
  {
    if r < 0x800 {
      assert |s| == 2 ==> s == [s[0], s[1]];
    } else if r < 0x10000 {
      ThreeIff(r, s);
    } else {
      FourIff(r, s);
    }
  }

  /** Six bits at a time. */
  lemma Sixes(high: nat, low: nat, r: nat)
    requires low < 64
    ensures r == high * 64 + low <==> r / 64 == high && r % 64 == low
  {
  }

  lemma ThreeIff(r: nat, s: seq<byte>)
    requires 0x800 <= r < 0x10000
    ensures Encodes(r, s) <==> IsScalar(r) && s == RuneBytes(r)
  {
    if |s| == 3 && s[0] >= 0xe0 && 0x80 <= s[1] <= 0xbf && 0x80 <= s[2] <= 0xbf {
      var a, b, c := Part(s[0], 0xe0), Part(s[1], 0x80), Part(s[2], 0x80);
      assert s == [s[0], s[1], s[2]];
      Sixes(a * 64 + b, c, r);
      Sixes(a, b, r / 64);
    }
  }

  lemma FourIff(r: nat, s: seq<byte>)
    requires 0x10000 <= r
    ensures Encodes(r, s) <==> IsScalar(r) && s == RuneBytes(r)
  {
    if |s| == 4 && s[0] >= 0xf0 && 0x80 <= s[1] <= 0xbf && 0x80 <= s[2] <= 0xbf && 0x80 <= s[3] <= 0xbf {
      var a, b, c, d := Part(s[0], 0xf0), Part(s[1], 0x80), Part(s[2], 0x80), Part(s[3], 0x80);
      assert s == [s[0], s[1], s[2], s[3]];
      Sixes((a * 64 + b) * 64 + c, d, r);
      Sixes(a * 64 + b, c, r / 64);
      Sixes(a, b, r / 64 / 64);
    }
  }

  /** The characters of a text, encoded one after the other. */
  function EncodingOf(rs: seq<nat>): seq<byte> {
    if rs == [] then [] else RuneBytes(rs[0]) + EncodingOf(rs[1..])
  }

  ghost predicate AllScalar(rs: seq<nat>) {
    forall i :: 0 <= i < |rs| ==> IsScalar(rs[i])
  }

  /** A character is read where there is one. */
  lemma DecodedScalar(s: seq<byte>)
    requires RuneLen(s) > 0
    ensures IsScalar(DecodeRune(s).0) && s == RuneBytes(DecodeRune(s).0) + s[RuneLen(s)..]
  {
    var n := RuneLen(s);
    assert IsScalar(DecodeRune(s).0) by {
      hide RuneBytes;
      if n == 3 {
        var h := Joined(s[0] - 0xe0, s[1]);
        assert !(0x360 <= h < 0x380) && h < 0x400;
      } else if n == 4 {
        Lead4(s);
        SixMore(Joined(s[0] - 0xf0, s[1]), s[2], 0x10, 0x110);
        SixMore(Joined(Joined(s[0] - 0xf0, s[1]), s[2]), s[3], 0x400, 0x4400);
      }
    }
    hide RuneBytes, DecodeRune;
    ReencodeRune(s);
    assert s == s[..n] + s[n..];
  }

  /** A text is valid if and only if it is the encoding of some characters. */
  lemma ValidIff(s: seq<byte>)
    ensures ValidUtf8(s) <==> exists rs: seq<nat> :: AllScalar(rs) && EncodingOf(rs) == s
  {
    hide EncodingOf, AllScalar, ValidUtf8;
    if ValidUtf8(s) {
      var rs := CharactersOf(s);
    }
    if rs: seq<nat> :| AllScalar(rs) && EncodingOf(rs) == s {
      EncodedValid(rs);
    }
  }

  lemma {:induction false} CharactersOf(s: seq<byte>) returns (rs: seq<nat>)
    requires ValidUtf8(s)
    ensures AllScalar(rs) && EncodingOf(rs) == s
    decreases |s|
  {
    hide RuneLen, RuneBytes, DecodeRune;
    if s == [] {
      rs := [];
    } else {
      DecodedScalar(s);
      var more := CharactersOf(s[RuneLen(s)..]);
      rs := [DecodeRune(s).0] + more;
      assert rs[1..] == more;
    }
  }

  lemma {:induction false} EncodedValid(rs: seq<nat>)
    requires AllScalar(rs)
    ensures ValidUtf8(EncodingOf(rs))
  {
    hide RuneLen, RuneBytes, DecodeRune;
    if rs != [] {
      EncodedValid(rs[1..]);
      RuneRead(rs[0], EncodingOf(rs[1..]));
      ValidCons(RuneBytes(rs[0]), EncodingOf(rs[1..]));
    }
  }

  /** Some character starts a text. */
  ghost predicate Starts(s: seq<byte>, r: nat) {
    IsScalar(r) && RuneBytes(r) <= s
  }

  lemma StartsIff(s: seq<byte>)
    ensures RuneLen(s) > 0 <==> exists r: nat :: Starts(s, r)
  {
    hide RuneLen, RuneBytes, DecodeRune;
    if RuneLen(s) > 0 {
      DecodedScalar(s);
      assert Starts(s, DecodeRune(s).0);
    }
    if r: nat :| Starts(s, r) {
      RuneRead(r, s[|RuneBytes(r)|..]);
      assert s == RuneBytes(r) + s[|RuneBytes(r)|..];
    }
  }

  lemma RepairRune(r: nat, more: seq<byte>)
    requires IsScalar(r)
    ensures Repair(RuneBytes(r) + more) == RuneBytes(r) + Repair(more)
  {
    hide RuneLen, RuneBytes;
    RuneRead(r, more);
    assert (RuneBytes(r) + more)[|RuneBytes(r)|..] == more;
  }

  lemma RepairStops(rest: seq<byte>)
    ensures Repair([]) == []
    ensures rest != [] && (forall r: nat :: !Starts(rest, r)) ==> Repair(rest) == [0xef, 0xbf, 0xbd] + Repair(rest[1..])
  {
    hide RuneLen, RuneBytes;
    StartsIff(rest);
    Replacement();
  }

  /** Characters stay; a byte that starts none becomes EF BF BD, and the rest is taken up after it. */
  lemma {:induction false} Repaired(rs: seq<nat>, rest: seq<byte>)
    requires AllScalar(rs)
    ensures Repair(EncodingOf(rs) + rest) == EncodingOf(rs) + Repair(rest)
    ensures Repair([]) == []
    ensures rest != [] && (forall r: nat :: !Starts(rest, r)) ==> Repair(rest) == [0xef, 0xbf, 0xbd] + Repair(rest[1..])
  {
    hide RuneLen, RuneBytes, Repair, IsScalar, Starts;
    RepairStops(rest);
    if rs == [] {
      assert EncodingOf(rs) + rest == rest;
    } else {
      Repaired(rs[1..], rest);
      var more := EncodingOf(rs[1..]) + rest;
      assert EncodingOf(rs) + rest == RuneBytes(rs[0]) + more;
      RepairRune(rs[0], more);
    }
  }

  lemma Replacement()
    ensures RuneBytes(RUNE_ERROR) == [0xef, 0xbf, 0xbd]
  {
  }
}
