/**
 The documents a client may send, apart from the reader: every well-formed spelling of an item under RFC 8949, with
 the width of each head, strings in chunks and containers of indefinite length, and what it means to query/node_cbor.go.
 The reader accepts exactly the spellings that have a meaning.
 */
module CborGrammar {
  import opened Wrappers
  import opened Bytes
  import opened Utf8
  import opened CborItem

  // ---- heads ------------------------------------------------------------------------------------------------------

  /** Where the argument of a head is: in the initial byte, or in the bytes after it. */
  datatype Width = Short | One | Two | Four | Eight

  predicate Carries(w: Width, n: nat) {
    match w
    case Short => n < 24
    case One => n < 0x100
    case Two => n < 0x1_0000
    case Four => n < 0x1_0000_0000
    case Eight => n < 0x1_0000_0000_0000_0000
  }

  function HeadOf(major: nat, w: Width, n: nat): seq<byte>
    requires major < 8 && Carries(w, n)
  {
    match w
    case Short => [32 * major + n]
    case One => [32 * major + 24] + ToBE(n, 1)
    case Two => [32 * major + 25] + ToBE(n, 2)
    case Four => [32 * major + 26] + ToBE(n, 4)
    case Eight => [32 * major + 27] + ToBE(n, 8)
  }

  // ---- strings ----------------------------------------------------------------------------------------------------

  datatype Chunk = Chunk(w: Width, s: seq<byte>)

  /** A string in one piece, or in chunks of definite length. */
  datatype Chars = Whole(c: Chunk) | Parts(chunks: seq<Chunk>)

  predicate ChunksOk(chunks: seq<Chunk>) {
    forall i :: 0 <= i < |chunks| ==> Carries(chunks[i].w, |chunks[i].s|)
  }

  predicate CharsOk(c: Chars) {
    if c.Whole? then Carries(c.c.w, |c.c.s|) else ChunksOk(c.chunks)
  }

  function SpellChunk(major: nat, c: Chunk): seq<byte>
    requires major < 8 && Carries(c.w, |c.s|)
  {
    HeadOf(major, c.w, |c.s|) + c.s
  }

  function SpellChunks(major: nat, chunks: seq<Chunk>): seq<byte>
    requires major < 8 && ChunksOk(chunks)
  {
    if chunks == [] then [] else SpellChunk(major, chunks[0]) + SpellChunks(major, chunks[1..])
  }

  function SpellChars(major: nat, c: Chars): seq<byte>
    requires major < 7 && CharsOk(c)
  {
    if c.Whole? then SpellChunk(major, c.c) else [32 * major + 31] + SpellChunks(major, c.chunks) + [0xff]
  }

  function Joined(chunks: seq<Chunk>): seq<byte> {
    if chunks == [] then [] else chunks[0].s + Joined(chunks[1..])
  }

  function BytesOf(c: Chars): seq<byte> {
    if c.Whole? then c.c.s else Joined(c.chunks)
  }

  ghost predicate AllUtf8(chunks: seq<Chunk>) {
    forall i :: 0 <= i < |chunks| ==> ValidUtf8(chunks[i].s)
  }

  /** Text is valid UTF-8 chunk by chunk. */
  ghost predicate ValidText(c: Chars) {
    if c.Whole? then ValidUtf8(c.c.s) else AllUtf8(c.chunks)
  }

  // ---- items ------------------------------------------------------------------------------------------------------

  /** The spellings of items; a length of `None` is indefinite. Keys, names and ids have the forms the reader takes. */
  datatype Wire =
    | Number(negative: bool, w: Width, n: nat)
    | Str(text: bool, c: Chars)
    | Simple(code: nat)
    | Real(w: Width, bits: nat)
    | Sequence(len: Option<Width>, items: seq<Wire>)
    | Dictionary(len: Option<Width>, keys: seq<Chars>, items: seq<Wire>)
    | Tagged(w: Width, tag: nat, x: Wire)
    | Define(t: Width, a: Width, i: Width, id: nat, l: Width, keys: seq<Chars>, items: seq<Wire>)
    | Refer(t: Width, id: nat, a: Width, items: seq<Wire>)

  predicate LengthOk(len: Option<Width>, n: nat) {
    len.Some? ==> Carries(len.value, n)
  }

  predicate KeysOk(keys: seq<Chars>) {
    forall i :: 0 <= i < |keys| ==> CharsOk(keys[i])
  }

  /** Every count fits its head, and every key has its value. */
  predicate WellFormed(x: Wire)
    decreases x, 0
  {
    match x
    case Number(_, w, n) => Carries(w, n)
    case Str(_, c) => CharsOk(c)
    case Simple(code) => 20 <= code <= 23
    case Real(w, bits) => (w.Two? || w.Four? || w.Eight?) && Carries(w, bits)
    case Sequence(len, items) => LengthOk(len, |items|) && AllWellFormed(items)
    case Dictionary(len, keys, items) =>
      LengthOk(len, |items|) && KeysOk(keys) && |keys| == |items| && AllWellFormed(items)
    case Tagged(w, tag, y) => Carries(w, tag) && tag != 0xdfff && !(0xe000 <= tag < 0xffff) && WellFormed(y)
    case Define(t, a, i, id, l, keys, items) =>
      && Carries(t, 0xdfff) && Carries(a, |items| + 2) && Carries(i, id) && Carries(l, |items|)
      && KeysOk(keys) && |keys| == |items| && AllWellFormed(items)
    case Refer(t, id, a, items) => id < 0x1fff && Carries(t, 0xe000 + id) && Carries(a, |items|) && AllWellFormed(items)
  }

  predicate AllWellFormed(xs: seq<Wire>)
    decreases xs, 0
  {
    xs == [] || (WellFormed(xs[0]) && AllWellFormed(xs[1..]))
  }

  function Opening(major: nat, len: Option<Width>, n: nat): seq<byte>
    requires major < 7 && LengthOk(len, n)
  {
    if len.Some? then HeadOf(major, len.value, n) else [32 * major + 31]
  }

  function Closing(len: Option<Width>): seq<byte> {
    if len.Some? then [] else [0xff]
  }

  function Spell(x: Wire): (s: seq<byte>)
    requires WellFormed(x)
    decreases x, 0
  {
    match x
    case Number(negative, w, n) => HeadOf(if negative then 1 else 0, w, n)
    case Str(text, c) => SpellChars(if text then 3 else 2, c)
    case Simple(code) => [0xe0 + code]
    case Real(w, bits) => HeadOf(7, w, bits)
    case Sequence(len, items) => Opening(4, len, |items|) + (SpellAll(items) + Closing(len))
    case Dictionary(len, keys, items) => Opening(5, len, |items|) + (SpellFields(keys, items) + Closing(len))
    case Tagged(w, tag, y) => HeadOf(6, w, tag) + Spell(y)
    case Define(t, a, i, id, l, keys, items) =>
      HeadOf(6, t, 0xdfff) + (HeadOf(4, a, |items| + 2) + (HeadOf(0, i, id) + (HeadOf(4, l, |items|)
                                                                              + (SpellKeys(keys) + SpellAll(items)))))
    case Refer(t, id, a, items) => HeadOf(6, t, 0xe000 + id) + (HeadOf(4, a, |items|) + SpellAll(items))
  }

  function SpellAll(xs: seq<Wire>): seq<byte>
    requires AllWellFormed(xs)
    decreases xs, 0
  {
    if xs == [] then [] else Spell(xs[0]) + SpellAll(xs[1..])
  }

  function SpellKeys(keys: seq<Chars>): seq<byte>
    requires KeysOk(keys)
  {
    if keys == [] then [] else SpellChars(3, keys[0]) + SpellKeys(keys[1..])
  }

  function SpellFields(keys: seq<Chars>, xs: seq<Wire>): seq<byte>
    requires KeysOk(keys) && |keys| == |xs| && AllWellFormed(xs)
    decreases xs, 0
  {
    if xs == [] then [] else SpellChars(3, keys[0]) + (Spell(xs[0]) + SpellFields(keys[1..], xs[1..]))
  }

  // ---- meaning ----------------------------------------------------------------------------------------------------

  datatype Meant<T> = Nothing | Meant(value: T, table: Table)

  /** The floats of each width: bits of the fraction, largest exponent field, and the power of two of a unit. */
  function FractionBits(width: nat): nat {
    if width == 2 then 10 else if width == 4 then 23 else 52
  }

  function TopExponent(width: nat): nat {
    if width == 2 then 31 else if width == 4 then 255 else 2047
  }

  function Bias(width: nat): nat {
    if width == 2 then 15 else if width == 4 then 127 else 1023
  }

  function Pow2(k: nat): (p: nat)
    ensures p > 0
  {
    if k == 0 then 1 else 2 * Pow2(k - 1)
  }

  function ExponentField(width: nat, bits: nat): nat {
    bits / Pow2(FractionBits(width)) % (TopExponent(width) + 1)
  }

  function FractionField(width: nat, bits: nat): nat {
    bits % Pow2(FractionBits(width))
  }

  /** Neither an infinity nor a NaN. */
  predicate Finite(width: nat, bits: nat) {
    ExponentField(width, bits) != TopExponent(width)
  }

  /** The magnitude of a finite float is `Significand` times two to the power of `Scale`. */
  function Significand(width: nat, bits: nat): nat {
    FractionField(width, bits) + if ExponentField(width, bits) == 0 then 0 else Pow2(FractionBits(width))
  }

  function Scale(width: nat, bits: nat): int {
    (if ExponentField(width, bits) == 0 then 1 else ExponentField(width, bits)) - Bias(width) - FractionBits(width)
  }

  /** n times two to the power of k is at most a bound. */
  predicate AtMost(n: nat, k: int, bound: nat) {
    if k >= 0 then n * Pow2(k) <= bound else n <= bound * Pow2(-k)
  }

  /** What a tag other than those of structures makes of its content. */
  ghost function TagOf(tag: nat, x: Item, isTime: seq<byte> -> bool): Option<Item> {
    match (tag, x)
    case (0, Text(s)) => if isTime(s) then Some(TimeText(s)) else None
    case (1, Int(n)) =>
      if n > 0x7fff_ffff_ffff_ffff then None
      else if n < -0x8000_0000_0000_0000 then Some(BadTag(1)) else Some(TimeEpoch(n))
    case (1, Float(width, bits)) =>
      if Finite(width, bits)
         && AtMost(Significand(width, bits), Scale(width, bits), 9_000_000_000_000_000_000)
      then Some(TimeFloat(width, bits)) else None
    case (2, Blob(s)) => Some(Big(FromBE(s)))
    case (3, Blob(s)) => Some(Big(-1 - FromBE(s)))
    case (4, Arr(items)) =>
      if |items| == 2 && items[0].Int? && -0x8000_0000_0000_0000 <= items[0].n <= 0x7fff_ffff_ffff_ffff
         && (items[1].Int? || items[1].Big?)
      then Some(Dec(items[1].n, items[0].n)) else Some(BadTag(4))
    case (37, Blob(s)) => if |s| == 16 then Some(Uuid(s)) else Some(BadTag(37))
    case (100, Int(n)) =>
      if -0x8000_0000_0000_0000 <= n <= 0x7fff_ffff_ffff_ffff then Some(Date(n)) else Some(BadTag(100))
    case _ => Some(BadTag(tag))
  }

  /** The keys of a map or the names of a structure: text, no two the same. */
  ghost predicate KeysMean(keys: seq<Chars>) {
    && (forall i :: 0 <= i < |keys| ==> ValidText(keys[i]))
    && forall i, j :: 0 <= i < j < |keys| ==> BytesOf(keys[i]) != BytesOf(keys[j])
  }

  function NamesOf(keys: seq<Chars>): (names: seq<seq<byte>>)
    ensures |names| == |keys| && forall i :: 0 <= i < |keys| ==> names[i] == BytesOf(keys[i])
  {
    seq(|keys|, i requires 0 <= i < |keys| => BytesOf(keys[i]))
  }

  /** What an item means at a depth, and the structures defined after it. */
  ghost function Meaning(x: Wire, depth: nat, table: Table, isTime: seq<byte> -> bool): Meant<Item>
    decreases x, 0
  {
    match x
    case Number(negative, _, n) => Meant(Int(if negative then -1 - n else n), table)
    case Str(true, c) => if ValidText(c) then Meant(Text(BytesOf(c)), table) else Nothing
    case Str(false, c) => Meant(Blob(BytesOf(c)), table)
    case Simple(code) =>
      Meant(if code == 20 then Bool(false) else if code == 21 then Bool(true) else CborItem.Null, table)
    case Real(w, bits) => Meant(Float(if w.Two? then 2 else if w.Four? then 4 else 8, bits), table)
    case Sequence(_, items) =>
      if depth >= 64 then Nothing
      else
        var xs := MeaningAll(items, depth + 1, table, isTime);
        if xs.Nothing? then Nothing else Meant(Arr(xs.value), xs.table)
    case Dictionary(_, keys, items) =>
      if depth >= 64 || !KeysMean(keys) then Nothing
      else
        var xs := MeaningAll(items, depth + 1, table, isTime);
        if xs.Nothing? || |keys| != |xs.value| then Nothing else Meant(Map(Zip(NamesOf(keys), xs.value)), xs.table)
    case Tagged(_, tag, y) =>
      if depth >= 64 then Nothing
      else
        var c := Meaning(y, depth + 1, table, isTime);
        if c.Nothing? then Nothing
        else
          var m := TagOf(tag, c.value, isTime);
          if m.None? then Nothing else Meant(m.value, c.table)
    case Define(_, _, _, id, _, keys, items) =>
      if depth >= 63 || !(0xe000 <= id < 0xffff) || !KeysMean(keys) then Nothing
      else
        var xs := MeaningAll(items, depth + 2, table[id - 0xe000 := NamesOf(keys)], isTime);
        if xs.Nothing? || |keys| != |xs.value| then Nothing else Meant(Map(Zip(NamesOf(keys), xs.value)), xs.table)
    case Refer(_, id, _, items) =>
      if depth >= 63 || id !in table || |table[id]| != |items| then Nothing
      else
        var xs := MeaningAll(items, depth + 2, table, isTime);
        if xs.Nothing? || |table[id]| != |xs.value| then Nothing else Meant(Map(Zip(table[id], xs.value)), xs.table)
  }

  ghost function MeaningAll(xs: seq<Wire>, depth: nat, table: Table, isTime: seq<byte> -> bool): (m: Meant<seq<Item>>)
    ensures m.Meant? ==> |m.value| == |xs|
    decreases xs, 0
  {
    if xs == [] then Meant([], table)
    else
      var y := Meaning(xs[0], depth, table, isTime);
      if y.Nothing? then Nothing
      else
        var ys := MeaningAll(xs[1..], depth, y.table, isTime);
        if ys.Nothing? then Nothing else Meant([y.value] + ys.value, ys.table)
  }

  // ---- reading a string -------------------------------------------------------------------------------------------

  /** The additional information of a head. */
  function Info(w: Width, n: nat): nat {
    match w
    case Short => n
    case One => 24
    case Two => 25
    case Four => 26
    case Eight => 27
  }

  lemma HeadRead(major: nat, w: Width, n: nat, suffix: seq<byte>)
    requires major < 8 && Carries(w, n)
    ensures ReadHead(HeadOf(major, w, n) + suffix) == Head(major, Info(w, n), n, false, suffix)
  {
    var s := HeadOf(major, w, n) + suffix;
    assert s[0] / 32 == major && s[0] % 32 == Info(w, n);
    if !w.Short? {
      var size := |HeadOf(major, w, n)| - 1;
      assert s[1..1 + size] == ToBE(n, size) && s[1 + size..] == suffix;
      FieldWidths();
      FromToBE(n, size);
    } else {
      assert s[1..] == suffix;
    }
  }

  lemma OpenRead(major: nat, suffix: seq<byte>)
    requires major < 7
    ensures ReadHead([32 * major + 31] + suffix) == Head(major, 31, 0, true, suffix)
  {
  }

  lemma HeadStart(major: nat, w: Width, n: nat)
    requires major < 7 && Carries(w, n)
    ensures HeadOf(major, w, n) != [] && HeadOf(major, w, n)[0] != BREAK
  {
  }

  lemma FirstUtf8(chunks: seq<Chunk>)
    requires chunks != []
    ensures AllUtf8(chunks) <==> ValidUtf8(chunks[0].s) && AllUtf8(chunks[1..])
  {
    hide ValidUtf8;
    assert chunks == [chunks[0]] + chunks[1..];
  }

  /** One chunk and what follows it. */
  lemma ChunkRead(major: nat, c: Chunk, rest: seq<byte>, table: Table)
    requires 2 <= major <= 3 && Carries(c.w, |c.s|)
    ensures ReadChunks(HeadOf(major, c.w, |c.s|) + (c.s + rest), major, table)
            == if major == 3 && !ValidUtf8(c.s) then Fail
               else
                 var more := ReadChunks(rest, major, table);
                 if more.Fail? then Fail else Done(c.s + more.value, more.rest, table)
  {
    hide HeadOf, ReadHead, ValidUtf8;
    HeadStart(major, c.w, |c.s|);
    HeadRead(major, c.w, |c.s|, c.s + rest);
    assert (c.s + rest)[..|c.s|] == c.s && (c.s + rest)[|c.s|..] == rest;
  }

  lemma {:induction false} ChunksRead(major: nat, chunks: seq<Chunk>, suffix: seq<byte>, table: Table)
    requires 2 <= major <= 3 && ChunksOk(chunks)
    ensures ReadChunks(SpellChunks(major, chunks) + ([0xff] + suffix), major, table)
            == if major == 3 && !AllUtf8(chunks) then Fail else Done(Joined(chunks), suffix, table)
  {
    hide HeadOf, ReadHead, ValidUtf8, AllUtf8, ReadChunks;
    if chunks == [] {
      assert SpellChunks(major, chunks) + ([0xff] + suffix) == [0xff] + suffix;
      NoChunkRead(major, suffix, table);
    } else {
      var c := chunks[0];
      var rest := SpellChunks(major, chunks[1..]) + ([0xff] + suffix);
      assert SpellChunks(major, chunks) + ([0xff] + suffix) == HeadOf(major, c.w, |c.s|) + (c.s + rest);
      ChunkRead(major, c, rest, table);
      ChunksRead(major, chunks[1..], suffix, table);
      FirstUtf8(chunks);
    }
  }

  lemma NoChunkRead(major: nat, suffix: seq<byte>, table: Table)
    ensures AllUtf8([]) && ReadChunks([0xff] + suffix, major, table) == Done([], suffix, table)
  {
  }

  /** A string in chunks reads as the chunks joined, of its own major type, unless a chunk of text is not UTF-8. */
  lemma CharsRead(text: bool, c: Chars, suffix: seq<byte>, depth: nat, table: Table, isTime: seq<byte> -> bool)
    requires CharsOk(c)
    ensures ReadItem(SpellChars(if text then 3 else 2, c) + suffix, depth, table, isTime)
            == if text && !ValidText(c) then Fail
               else Done(if text then Text(BytesOf(c)) else Blob(BytesOf(c)), suffix, table)
  {
    hide HeadOf, ReadHead, ValidUtf8, ReadChunks, SpellChunks;
    var major := if text then 3 else 2;
    var all := SpellChars(major, c) + suffix;
    if c.Whole? {
      var s := c.c.s;
      assert all == HeadOf(major, c.c.w, |s|) + (s + suffix);
      HeadRead(major, c.c.w, |s|, s + suffix);
      assert (s + suffix)[..|s|] == s && (s + suffix)[|s|..] == suffix;
    } else {
      var rest := SpellChunks(major, c.chunks) + ([0xff] + suffix);
      assert all == [32 * major + 31] + rest;
      OpenRead(major, rest);
      ChunksRead(major, c.chunks, suffix, table);
    }
  }

  // ---- tags -------------------------------------------------------------------------------------------------------

  lemma {:induction false} Pow2Grows(a: nat, b: nat)
    requires a <= b
    ensures Pow2(a) <= Pow2(b)
  {
    if a < b {
      Pow2Grows(a, b - 1);
    }
  }

  lemma {:induction false} Pow2Is()
    ensures Pow2(9) == 512 && Pow2(10) == 1024 && Pow2(11) == 2048 && Pow2(23) == 0x80_0000
    ensures Pow2(38) == 0x40_0000_0000 && Pow2(39) == 0x80_0000_0000 && Pow2(40) == 0x100_0000_0000
    ensures Pow2(52) == 0x10_0000_0000_0000
  {
    Pow2By(1, 9);
    Pow2By(9, 14);
    Pow2By(23, 15);
    Pow2By(38, 14);
  }

  lemma {:induction false} Pow2By(a: nat, k: nat)
    requires k <= 15
    ensures Pow2(a + k) == Pow2(a) * (if k == 0 then 1 else if k == 1 then 2 else if k == 2 then 4 else if k == 3 then 8
                                      else if k == 4 then 16 else if k == 5 then 32 else if k == 6 then 64
                                      else if k == 7 then 128 else if k == 8 then 256 else if k == 9 then 512
                                      else if k == 10 then 1024 else if k == 11 then 2048 else if k == 12 then 4096
                                      else if k == 13 then 8192 else if k == 14 then 16384 else 32768)
  {
    if k > 0 {
      Pow2By(a, k - 1);
    }
  }

  lemma TimesGrows(n: nat, m: nat, a: nat, b: nat)
    requires n <= m && a <= b
    ensures n * a <= m * b
  {
  }

  /** Below the power `top` every significand of a width is in the bound, above it none that is not subnormal. */
  lemma ScaleDecides(n: nat, k: int, top: nat, bound: nat)
    ensures k < top && top > 0 && n * Pow2(top - 1) <= bound ==> AtMost(n, k, bound)
    ensures k > top && n * Pow2(top + 1) > bound ==> !AtMost(n, k, bound)
  {
    if 0 <= k < top {
      Pow2Grows(k, top - 1);
      TimesGrows(n, n, Pow2(k), Pow2(top - 1));
    } else if k < 0 && top > 0 {
      TimesGrows(n, n, 1, Pow2(top - 1));
      TimesGrows(bound, bound, 1, Pow2(-k));
    } else if k > top {
      Pow2Grows(top + 1, k);
      TimesGrows(n, n, Pow2(top + 1), Pow2(k));
    }
  }

  lemma AtMostIs(n: nat, k: nat, bound: nat)
    ensures AtMost(n, k, bound) <==> n * Pow2(k) <= bound
  {
  }

  lemma DoubleFields(bits: nat)
    ensures bits % 0x8000_0000_0000_0000
            == bits / 0x10_0000_0000_0000 % 2048 * 0x10_0000_0000_0000 + bits % 0x10_0000_0000_0000
  {
    assert bits == bits / 0x10_0000_0000_0000 * 0x10_0000_0000_0000 + bits % 0x10_0000_0000_0000;
    assert bits / 0x10_0000_0000_0000 == bits / 0x10_0000_0000_0000 / 2048 * 2048 + bits / 0x10_0000_0000_0000 % 2048;
  }

  lemma DoubleDecides(e: nat, f: nat)
    requires e < 2048 && f < 0x10_0000_0000_0000
    ensures e * 0x10_0000_0000_0000 + f <= 0x43df_399b_1438_a100
            <==> e != 2047
                 && AtMost(f + if e == 0 then 0 else 0x10_0000_0000_0000,
                           (if e == 0 then 1 else e) - 1023 - 52, 9_000_000_000_000_000_000)
  {
    hide Pow2, AtMost;
    Pow2Is();
    var n := f + if e == 0 then 0 else 0x10_0000_0000_0000;
    var k := (if e == 0 then 1 else e) - 1023 - 52;
    ScaleDecides(n, k, 10, 9_000_000_000_000_000_000);
    if k == 10 {
      AtMostIs(n, 10, 9_000_000_000_000_000_000);
    }
  }

  lemma DoubleIff(bits: nat)
    requires Carries(Eight, bits)
    ensures EpochFloat(8, bits)
            <==> Finite(8, bits) && AtMost(Significand(8, bits), Scale(8, bits), 9_000_000_000_000_000_000)
  {
    hide Pow2, AtMost;
    Pow2Is();
    DoubleFields(bits);
    DoubleDecides(bits / 0x10_0000_0000_0000 % 2048, bits % 0x10_0000_0000_0000);
  }

  lemma SingleFields(bits: nat)
    ensures bits % 0x8000_0000 == bits / 0x80_0000 % 256 * 0x80_0000 + bits % 0x80_0000
  {
    assert bits == bits / 0x80_0000 * 0x80_0000 + bits % 0x80_0000;
    assert bits / 0x80_0000 == bits / 0x80_0000 / 256 * 256 + bits / 0x80_0000 % 256;
  }

  lemma SingleDecides(e: nat, f: nat)
    requires e < 256 && f < 0x80_0000
    ensures e * 0x80_0000 + f <= 0x5ef9_ccd8
            <==> e != 255
                 && AtMost(f + if e == 0 then 0 else 0x80_0000,
                           (if e == 0 then 1 else e) - 127 - 23, 9_000_000_000_000_000_000)
  {
    hide Pow2, AtMost;
    Pow2Is();
    var n := f + if e == 0 then 0 else 0x80_0000;
    var k := (if e == 0 then 1 else e) - 127 - 23;
    ScaleDecides(n, k, 39, 9_000_000_000_000_000_000);
    if k == 39 {
      AtMostIs(n, 39, 9_000_000_000_000_000_000);
    }
  }

  lemma SingleIff(bits: nat)
    requires Carries(Four, bits)
    ensures EpochFloat(4, bits)
            <==> Finite(4, bits) && AtMost(Significand(4, bits), Scale(4, bits), 9_000_000_000_000_000_000)
  {
    hide Pow2, AtMost;
    Pow2Is();
    SingleFields(bits);
    SingleDecides(bits / 0x80_0000 % 256, bits % 0x80_0000);
  }

  lemma HalfFields(bits: nat)
    ensures bits % 0x8000 == bits / 0x400 % 32 * 0x400 + bits % 0x400
  {
    assert bits == bits / 0x400 * 0x400 + bits % 0x400;
    assert bits / 0x400 == bits / 0x400 / 32 * 32 + bits / 0x400 % 32;
  }

  lemma HalfDecides(e: nat, f: nat)
    requires e < 32 && f < 0x400
    ensures e * 0x400 + f <= 0x7bff
            <==> e != 31
                 && AtMost(f + if e == 0 then 0 else 0x400,
                           (if e == 0 then 1 else e) - 15 - 10, 9_000_000_000_000_000_000)
  {
    hide Pow2, AtMost;
    Pow2Is();
    var n := f + if e == 0 then 0 else 0x400;
    var k := (if e == 0 then 1 else e) - 15 - 10;
    ScaleDecides(n, k, 39, 9_000_000_000_000_000_000);
  }

  lemma HalfIff(bits: nat)
    requires Carries(Two, bits)
    ensures EpochFloat(2, bits)
            <==> Finite(2, bits) && AtMost(Significand(2, bits), Scale(2, bits), 9_000_000_000_000_000_000)
  {
    hide Pow2, AtMost;
    Pow2Is();
    HalfFields(bits);
    HalfDecides(bits / 0x400 % 32, bits % 0x400);
  }

  predicate FloatOk(x: Item) {
    x.Float? ==> (x.width == 2 && Carries(Two, x.bits)) || (x.width == 4 && Carries(Four, x.bits))
                 || (x.width == 8 && Carries(Eight, x.bits))
  }

  /** The reader gives a tag and its content their meaning. */
  lemma TagIs(tag: nat, x: Item, isTime: seq<byte> -> bool)
    requires FloatOk(x)
    ensures var m := TagOf(tag, x, isTime);
            TagMeaning(tag, x, isTime) == if m.None? then Refused else Means(m.value)
  {
    hide Finite, AtMost, Significand, Scale, EpochFloat;
    if tag == 1 && x.Float? {
      if x.width == 2 {
        HalfIff(x.bits);
      } else if x.width == 4 {
        SingleIff(x.bits);
      } else {
        DoubleIff(x.bits);
      }
    }
  }

  lemma FloatMeaning(x: Wire, depth: nat, table: Table, isTime: seq<byte> -> bool)
    requires WellFormed(x) && Meaning(x, depth, table, isTime).Meant?
    ensures FloatOk(Meaning(x, depth, table, isTime).value)
  {
    hide MeaningAll, Finite, AtMost, Significand, Scale;
  }

  // ---- every spelling is read as what it means --------------------------------------------------------------------

  ghost predicate Reads<T>(r: Read<T>, m: Meant<T>, suffix: seq<byte>) {
    if m.Nothing? then r.Fail? else r == Done(m.value, suffix, m.table)
  }

  lemma SpellStart(x: Wire)
    requires WellFormed(x)
    ensures Spell(x) != [] && Spell(x)[0] != BREAK
  {
    hide SpellAll, SpellKeys, SpellFields, SpellChunks, AllWellFormed;
  }

  lemma CharsStart(c: Chars)
    requires CharsOk(c)
    ensures SpellChars(3, c) != [] && SpellChars(3, c)[0] != BREAK
  {
    hide SpellChunks;
  }

  lemma {:induction false} EnoughItems(xs: seq<Wire>)
    requires AllWellFormed(xs)
    ensures |xs| <= |SpellAll(xs)|
  {
    hide Spell, WellFormed;
    if xs != [] {
      SpellStart(xs[0]);
      EnoughItems(xs[1..]);
    }
  }

  lemma {:induction false} EnoughFields(keys: seq<Chars>, xs: seq<Wire>)
    requires KeysOk(keys) && |keys| == |xs| && AllWellFormed(xs)
    ensures 2 * |xs| <= |SpellFields(keys, xs)|
  {
    hide Spell, WellFormed, SpellChars;
    if xs != [] {
      CharsStart(keys[0]);
      SpellStart(xs[0]);
      EnoughFields(keys[1..], xs[1..]);
    }
  }

  lemma {:induction false} EnoughKeys(keys: seq<Chars>)
    requires KeysOk(keys)
    ensures |keys| <= |SpellKeys(keys)|
  {
    hide SpellChars;
    if keys != [] {
      CharsStart(keys[0]);
      EnoughKeys(keys[1..]);
    }
  }

  function LengthOf(len: Option<Width>, n: nat): Length {
    if len.Some? then Count(n) else ToBreak
  }

  lemma OpeningRead(major: nat, len: Option<Width>, n: nat, body: seq<byte>)
    requires major < 7 && LengthOk(len, n)
    ensures var h := ReadHead(Opening(major, len, n) + body);
            h.Head? && h.major == major && h.indef == len.None? && (len.Some? ==> h.val == n) && h.rest == body
  {
    hide ReadHead, HeadOf;
    if len.Some? {
      HeadRead(major, len.value, n, body);
    } else {
      OpenRead(major, body);
    }
  }

  lemma ArrayRead(len: Option<Width>, n: nat, body: seq<byte>, depth: nat, table: Table, isTime: seq<byte> -> bool)
    requires LengthOk(len, n) && (len.Some? ==> n <= |body|)
    ensures ReadItem(Opening(4, len, n) + body, depth, table, isTime)
            == if depth >= 64 then Fail
               else
                 var xs := ReadItems(body, LengthOf(len, n), depth + 1, table, isTime);
                 if xs.Fail? then Fail else Done(Arr(xs.value), xs.rest, xs.table)
  {
    hide ReadHead, Opening, ReadItems;
    OpeningRead(4, len, n, body);
  }

  lemma MapRead(len: Option<Width>, n: nat, body: seq<byte>, depth: nat, table: Table, isTime: seq<byte> -> bool)
    requires LengthOk(len, n) && (len.Some? ==> 2 * n <= |body|)
    ensures ReadItem(Opening(5, len, n) + body, depth, table, isTime)
            == if depth >= 64 then Fail
               else
                 var ps := ReadPairs(body, LengthOf(len, n), depth + 1, table, isTime);
                 if ps.Fail? || !Distinct(Keys(ps.value)) then Fail else Done(Map(ps.value), ps.rest, ps.table)
  {
    hide ReadHead, Opening, ReadPairs, Distinct, Keys;
    OpeningRead(5, len, n, body);
  }

  lemma TagRead(w: Width, tag: nat, body: seq<byte>, depth: nat, table: Table, isTime: seq<byte> -> bool)
    requires Carries(w, tag)
    ensures ReadItem(HeadOf(6, w, tag) + body, depth, table, isTime)
            == if depth >= 64 then Fail
               else if tag == 0xdfff || 0xe000 <= tag < 0xffff then ReadStructure(tag, body, depth, table, isTime)
               else
                 var c := ReadItem(body, depth + 1, table, isTime);
                 if c.Fail? then Fail
                 else
                   var m := TagMeaning(tag, c.value, isTime);
                   if m.Refused? then Fail else Done(m.item, c.rest, c.table)
  {
    hide ReadHead, HeadOf, TagMeaning, ReadStructure;
    HeadRead(6, w, tag, body);
  }

  lemma NumberRead(negative: bool, w: Width, n: nat, suffix: seq<byte>, depth: nat, table: Table,
                   isTime: seq<byte> -> bool)
    requires Carries(w, n)
    ensures ReadItem(HeadOf(if negative then 1 else 0, w, n) + suffix, depth, table, isTime)
            == Done(Int(if negative then -1 - n else n), suffix, table)
  {
    hide ReadHead, HeadOf;
    HeadRead(if negative then 1 else 0, w, n, suffix);
  }

  lemma {:induction false} KeysRead(keys: seq<Chars>, suffix: seq<byte>, depth: nat, table: Table,
                                    isTime: seq<byte> -> bool)
    requires KeysOk(keys)
    ensures ReadNames(SpellKeys(keys) + suffix, |keys|, depth, table, isTime)
            == if AllValid(keys) then Done(NamesOf(keys), suffix, table) else Fail
  {
    hide ReadItem, SpellChars, ValidText, BytesOf;
    if keys == [] {
      assert SpellKeys(keys) + suffix == suffix;
    } else {
      var rest := SpellKeys(keys[1..]) + suffix;
      assert SpellKeys(keys) + suffix == SpellChars(3, keys[0]) + rest;
      CharsRead(true, keys[0], rest, depth, table, isTime);
      KeysRead(keys[1..], suffix, depth, table, isTime);
      assert keys == [keys[0]] + keys[1..];
      assert NamesOf(keys) == [BytesOf(keys[0])] + NamesOf(keys[1..]);
    }
  }

  ghost predicate AllValid(keys: seq<Chars>) {
    forall i :: 0 <= i < |keys| ==> ValidText(keys[i])
  }

  lemma KeysMeanIff(keys: seq<Chars>)
    ensures KeysMean(keys) <==> AllValid(keys) && Distinct(NamesOf(keys))
  {
    hide ValidText, BytesOf;
  }

  lemma ItemsStep(rest: seq<byte>, len: Length, depth: nat, table: Table, isTime: seq<byte> -> bool)
    requires len != Count(0) && (len.ToBreak? ==> rest != [] && rest[0] != BREAK)
    ensures ReadItems(rest, len, depth, table, isTime)
            == var x := ReadItem(rest, depth, table, isTime);
               if x.Fail? then Fail
               else
                 var xs := ReadItems(x.rest, len.Less(), depth, x.table, isTime);
                 if xs.Fail? then Fail else Done([x.value] + xs.value, xs.rest, xs.table)
  {
    hide ReadItem;
  }

  lemma PairsStep(rest: seq<byte>, len: Length, depth: nat, table: Table, isTime: seq<byte> -> bool)
    requires len != Count(0) && (len.ToBreak? ==> rest != [] && rest[0] != BREAK)
    ensures ReadPairs(rest, len, depth, table, isTime)
            == var k := ReadItem(rest, depth, table, isTime);
               if k.Fail? || !k.value.Text? then Fail
               else
                 var v := ReadItem(k.rest, depth, k.table, isTime);
                 if v.Fail? then Fail
                 else
                   var ps := ReadPairs(v.rest, len.Less(), depth, v.table, isTime);
                   if ps.Fail? then Fail else Done([(k.value.s, v.value)] + ps.value, ps.rest, ps.table)
  {
    hide ReadItem;
  }

  lemma EndRead(len: Option<Width>, suffix: seq<byte>, depth: nat, table: Table, isTime: seq<byte> -> bool)
    ensures ReadItems(Closing(len) + suffix, LengthOf(len, 0), depth, table, isTime) == Done([], suffix, table)
    ensures ReadPairs(Closing(len) + suffix, LengthOf(len, 0), depth, table, isTime) == Done([], suffix, table)
  {
    hide ReadItem;
    assert len.None? ==> (Closing(len) + suffix)[1..] == suffix;
    assert len.Some? ==> Closing(len) + suffix == suffix;
  }

  /** Any spelling of an item, whatever follows it, reads as what it means, and is refused when it means nothing. */
  lemma {:induction false} WireRead(x: Wire, suffix: seq<byte>, depth: nat, table: Table, isTime: seq<byte> -> bool)
    requires WellFormed(x)
    ensures Reads(ReadItem(Spell(x) + suffix, depth, table, isTime), Meaning(x, depth, table, isTime), suffix)
    decreases x, 2
  {
    hide ReadItem, HeadOf, SpellAll, SpellFields, SpellChars, ReadItems, MeaningAll, TagOf, TagMeaning, AllWellFormed;
    match x
    case Number(negative, w, n) => NumberRead(negative, w, n, suffix, depth, table, isTime);
    case Str(text, c) => CharsRead(text, c, suffix, depth, table, isTime);
    case Simple(code) => SimpleRead(code, suffix, depth, table, isTime);
    case Real(w, bits) => RealRead(w, bits, suffix, depth, table, isTime);
    case Sequence(len, items) =>
      var body := SpellAll(items) + (Closing(len) + suffix);
      assert Spell(x) + suffix == Opening(4, len, |items|) + body;
      EnoughItems(items);
      ArrayRead(len, |items|, body, depth, table, isTime);
      if depth < 64 {
        AllRead(len, items, suffix, depth + 1, table, isTime);
      }
    case Dictionary(_, _, _) => DictionaryRead(x, suffix, depth, table, isTime);
    case Tagged(w, tag, y) =>
      assert Spell(x) + suffix == HeadOf(6, w, tag) + (Spell(y) + suffix);
      TagRead(w, tag, Spell(y) + suffix, depth, table, isTime);
      if depth < 64 {
        WireRead(y, suffix, depth + 1, table, isTime);
        var c := Meaning(y, depth + 1, table, isTime);
        if c.Meant? {
          FloatMeaning(y, depth + 1, table, isTime);
          TagIs(tag, c.value, isTime);
        }
      }
    case Define(_, _, _, _, _, _, _) => DefineRead(x, suffix, depth, table, isTime);
    case Refer(_, _, _, _) => ReferRead(x, suffix, depth, table, isTime);
  }

  lemma SimpleRead(code: nat, suffix: seq<byte>, depth: nat, table: Table, isTime: seq<byte> -> bool)
    requires 20 <= code <= 23
    ensures ReadItem([0xe0 + code] + suffix, depth, table, isTime)
            == Done(if code == 20 then Bool(false) else if code == 21 then Bool(true) else CborItem.Null, suffix, table)
  {
    HeadRead(7, Short, code, suffix);
  }

  lemma RealRead(w: Width, bits: nat, suffix: seq<byte>, depth: nat, table: Table, isTime: seq<byte> -> bool)
    requires (w.Two? || w.Four? || w.Eight?) && Carries(w, bits)
    ensures ReadItem(HeadOf(7, w, bits) + suffix, depth, table, isTime)
            == Done(Float(if w.Two? then 2 else if w.Four? then 4 else 8, bits), suffix, table)
  {
    hide ReadHead, HeadOf;
    HeadRead(7, w, bits, suffix);
  }

  lemma {:induction false} DictionaryRead(x: Wire, suffix: seq<byte>, depth: nat, table: Table,
                                          isTime: seq<byte> -> bool)
    requires WellFormed(x) && x.Dictionary?
    ensures Reads(ReadItem(Spell(x) + suffix, depth, table, isTime), Meaning(x, depth, table, isTime), suffix)
    decreases x, 1
  {
    hide ReadItem, Opening, SpellFields, ReadPairs, MeaningAll, KeysMean, AllWellFormed, Distinct, AllValid, NamesOf;
    var body := SpellFields(x.keys, x.items) + (Closing(x.len) + suffix);
    assert Spell(x) + suffix == Opening(5, x.len, |x.items|) + body;
    EnoughFields(x.keys, x.items);
    MapRead(x.len, |x.items|, body, depth, table, isTime);
    KeysMeanIff(x.keys);
    if depth < 64 {
      FieldsRead(x.len, x.keys, x.items, suffix, depth + 1, table, isTime);
      var xs := MeaningAll(x.items, depth + 1, table, isTime);
      if xs.Meant? {
        assert Keys(Zip(NamesOf(x.keys), xs.value)) == NamesOf(x.keys);
      }
    }
  }

  lemma {:induction false} AllRead(len: Option<Width>, xs: seq<Wire>, suffix: seq<byte>, depth: nat, table: Table,
                                   isTime: seq<byte> -> bool)
    requires AllWellFormed(xs)
    ensures Reads(ReadItems(SpellAll(xs) + (Closing(len) + suffix), LengthOf(len, |xs|), depth, table, isTime),
                  MeaningAll(xs, depth, table, isTime), suffix)
    decreases xs, 3
  {
    hide ReadItem, Spell, Meaning, WellFormed, ReadItems;
    if xs == [] {
      assert SpellAll(xs) + (Closing(len) + suffix) == Closing(len) + suffix;
      EndRead(len, suffix, depth, table, isTime);
    } else {
      var rest := SpellAll(xs[1..]) + (Closing(len) + suffix);
      assert SpellAll(xs) + (Closing(len) + suffix) == Spell(xs[0]) + rest;
      SpellStart(xs[0]);
      WireRead(xs[0], rest, depth, table, isTime);
      ItemsStep(Spell(xs[0]) + rest, LengthOf(len, |xs|), depth, table, isTime);
      var y := Meaning(xs[0], depth, table, isTime);
      if y.Meant? {
        AllRead(len, xs[1..], suffix, depth, y.table, isTime);
      }
    }
  }

  lemma {:induction false} FieldsRead(len: Option<Width>, keys: seq<Chars>, xs: seq<Wire>, suffix: seq<byte>,
                                      depth: nat, table: Table, isTime: seq<byte> -> bool)
    requires KeysOk(keys) && |keys| == |xs| && AllWellFormed(xs)
    ensures var m := MeaningAll(xs, depth, table, isTime);
            ReadPairs(SpellFields(keys, xs) + (Closing(len) + suffix), LengthOf(len, |xs|), depth, table, isTime)
            == if AllValid(keys) && m.Meant? then Done(Zip(NamesOf(keys), m.value), suffix, m.table) else Fail
    decreases xs, 3
  {
    hide ReadItem, Spell, Meaning, WellFormed, ReadPairs, SpellChars, ValidText, BytesOf, Zip, NamesOf;
    if xs == [] {
      assert SpellFields(keys, xs) + (Closing(len) + suffix) == Closing(len) + suffix;
      EndRead(len, suffix, depth, table, isTime);
    } else {
      var rest := SpellFields(keys[1..], xs[1..]) + (Closing(len) + suffix);
      var first := SpellChars(3, keys[0]) + (Spell(xs[0]) + rest);
      assert SpellFields(keys, xs) + (Closing(len) + suffix) == first;
      CharsStart(keys[0]);
      CharsRead(true, keys[0], Spell(xs[0]) + rest, depth, table, isTime);
      WireRead(xs[0], rest, depth, table, isTime);
      PairsStep(first, LengthOf(len, |xs|), depth, table, isTime);
      assert AllValid(keys) <==> ValidText(keys[0]) && AllValid(keys[1..]) by {
        assert keys == [keys[0]] + keys[1..];
      }
      var y := Meaning(xs[0], depth, table, isTime);
      if y.Meant? && ValidText(keys[0]) {
        FieldsRead(len, keys[1..], xs[1..], suffix, depth, y.table, isTime);
        var ys := MeaningAll(xs[1..], depth, y.table, isTime);
        if ys.Meant? {
          ZipNames(keys, [y.value] + ys.value);
        }
      }
    }
  }

  lemma ZipNames(keys: seq<Chars>, values: seq<Item>)
    requires |keys| == |values| && keys != []
    ensures Zip(NamesOf(keys), values)
            == [(BytesOf(keys[0]), values[0])] + Zip(NamesOf(keys[1..]), values[1..])
  {
  }

  lemma {:induction false} ReferRead(x: Wire, suffix: seq<byte>, depth: nat, table: Table, isTime: seq<byte> -> bool)
    requires WellFormed(x) && x.Refer?
    ensures Reads(ReadItem(Spell(x) + suffix, depth, table, isTime), Meaning(x, depth, table, isTime), suffix)
    decreases x, 1
  {
    hide ReadItem, ReadHead, HeadOf, SpellAll, ReadItems, MeaningAll, AllWellFormed;
    var values := SpellAll(x.items) + suffix;
    var body := HeadOf(4, x.a, |x.items|) + values;
    assert Spell(x) + suffix == HeadOf(6, x.t, 0xe000 + x.id) + body;
    TagRead(x.t, 0xe000 + x.id, body, depth, table, isTime);
    HeadRead(4, x.a, |x.items|, values);
    EnoughItems(x.items);
    if depth < 63 {
      AllRead(Some(Short), x.items, suffix, depth + 2, table, isTime);
      assert SpellAll(x.items) + (Closing(Some(Short)) + suffix) == values;
    }
  }

  lemma {:induction false} DefineRead(x: Wire, suffix: seq<byte>, depth: nat, table: Table, isTime: seq<byte> -> bool)
    requires WellFormed(x) && x.Define?
    ensures Reads(ReadItem(Spell(x) + suffix, depth, table, isTime), Meaning(x, depth, table, isTime), suffix)
    decreases x, 1
  {
    hide ReadItem, ReadHead, HeadOf, SpellAll, SpellKeys, ReadItems, MeaningAll, AllWellFormed, ReadStructure, KeysMean,
         NamesOf;
    var n := |x.items|;
    var values := SpellAll(x.items) + suffix;
    var inner := HeadOf(0, x.i, x.id) + (HeadOf(4, x.l, n) + (SpellKeys(x.keys) + values));
    assert Spell(x) + suffix == HeadOf(6, x.t, 0xdfff) + (HeadOf(4, x.a, n + 2) + inner);
    TagRead(x.t, 0xdfff, HeadOf(4, x.a, n + 2) + inner, depth, table, isTime);
    DefineBody(x, suffix, depth, table, isTime);
    if depth < 63 && 0xe000 <= x.id < 0xffff && KeysMean(x.keys) {
      var more := table[x.id - 0xe000 := NamesOf(x.keys)];
      AllRead(Some(Short), x.items, suffix, depth + 2, more, isTime);
      assert SpellAll(x.items) + (Closing(Some(Short)) + suffix) == values;
    }
  }

  /** A definition after its tag: the record is read by the names it defines. */
  lemma DefineBody(x: Wire, suffix: seq<byte>, depth: nat, table: Table, isTime: seq<byte> -> bool)
    requires WellFormed(x) && x.Define?
    ensures var n, values := |x.items|, SpellAll(x.items) + suffix;
            var inner := HeadOf(0, x.i, x.id) + (HeadOf(4, x.l, n) + (SpellKeys(x.keys) + values));
            ReadStructure(0xdfff, HeadOf(4, x.a, n + 2) + inner, depth, table, isTime)
            == if depth >= 63 || !(0xe000 <= x.id < 0xffff) || !KeysMean(x.keys) then Fail
               else ReadRecord(NamesOf(x.keys), values, depth, table[x.id - 0xe000 := NamesOf(x.keys)], isTime)
  {
    hide ReadItem, ReadHead, HeadOf, SpellAll, SpellKeys, ReadItems, AllWellFormed, ReadDefinition, KeysMean, NamesOf,
         ReadRecord;
    var n := |x.items|;
    var values := SpellAll(x.items) + suffix;
    var inner := HeadOf(0, x.i, x.id) + (HeadOf(4, x.l, n) + (SpellKeys(x.keys) + values));
    var body := HeadOf(4, x.a, n + 2) + inner;
    HeadRead(4, x.a, n + 2, inner);
    EnoughItems(x.items);
    HeadStart(0, x.i, x.id);
    HeadStart(4, x.l, n);
    DefinitionRead(ReadHead(body), x, values, depth, table, isTime);
  }

  lemma DefinitionRead(h: HeadRead, x: Wire, values: seq<byte>, depth: nat, table: Table, isTime: seq<byte> -> bool)
    requires WellFormed(x) && x.Define?
    requires h.Head? && h.val == |x.items| + 2
    requires h.rest == HeadOf(0, x.i, x.id) + (HeadOf(4, x.l, |x.items|) + (SpellKeys(x.keys) + values))
    ensures ReadDefinition(h, depth, table, isTime)
            == if 0xe000 <= x.id < 0xffff && KeysMean(x.keys)
               then Done(NamesOf(x.keys), values, table[x.id - 0xe000 := NamesOf(x.keys)]) else Fail
  {
    hide ReadItem, ReadHead, HeadOf, SpellKeys, ReadNames, AllWellFormed, KeysMean, NamesOf, AllValid, Distinct;
    var list := SpellKeys(x.keys) + values;
    NumberRead(false, x.i, x.id, HeadOf(4, x.l, |x.items|) + list, depth + 2, table, isTime);
    HeadRead(4, x.l, |x.items|, list);
    EnoughKeys(x.keys);
    KeysRead(x.keys, values, depth + 3, table, isTime);
    KeysMeanIff(x.keys);
  }

  // ---- nothing else is read ---------------------------------------------------------------------------------------

  lemma {:induction false} ToFromBE(s: seq<byte>)
    ensures ToBE(FromBE(s), |s|) == s
  {
    if s != [] {
      var init := s[..|s| - 1];
      ToFromBE(init);
      assert FromBE(s) / 256 == FromBE(init) && FromBE(s) % 256 == s[|s| - 1];
      assert s == init + [s[|s| - 1]];
    }
  }

  /** Every head read is spelled with the width its initial byte says. */
  lemma HeadSpelled(rest: seq<byte>) returns (w: Width)
    requires ReadHead(rest).Head?
    ensures var h := ReadHead(rest);
            && h.major < 8
            && if h.indef then rest == [32 * h.major + 31] + h.rest && h.ai == 31
               else Carries(w, h.val) && h.ai == Info(w, h.val) && rest == HeadOf(h.major, w, h.val) + h.rest
  {
    var ai := rest[0] % 32;
    w := if ai == 24 then One else if ai == 25 then Two
                                   else if ai == 26 then Four else if ai == 27 then Eight else Short;
    if 24 <= ai < 28 {
      LongHead(rest, w);
    } else {
      assert rest == [rest[0]] + rest[1..];
    }
  }

  function SizeOf(w: Width): nat {
    match w
    case Short => 0
    case One => 1
    case Two => 2
    case Four => 4
    case Eight => 8
  }

  lemma LongParts(rest: seq<byte>, w: Width)
    requires ReadHead(rest).Head? && rest[0] % 32 == Info(w, 0) && !w.Short?
    ensures |rest| > SizeOf(w)
    ensures ReadHead(rest)
            == Head(rest[0] / 32, Info(w, 0), FromBE(rest[1..1 + SizeOf(w)]), false, rest[1 + SizeOf(w)..])
  {
    hide FromBE;
  }

  lemma LongHead(rest: seq<byte>, w: Width)
    requires ReadHead(rest).Head? && rest[0] % 32 == Info(w, 0) && !w.Short?
    ensures var h := ReadHead(rest);
            && h.major < 8 && !h.indef && Carries(w, h.val) && h.ai == Info(w, h.val)
            && rest == HeadOf(h.major, w, h.val) + h.rest
  {
    hide ReadHead, FromBE, ToBE, Pow256;
    LongParts(rest, w);
    var arg := rest[1..1 + SizeOf(w)];
    FromBEBound(arg);
    ToFromBE(arg);
    FieldWidths();
    assert rest == ([rest[0]] + arg) + rest[1 + SizeOf(w)..];
  }

  lemma {:induction false} ChunksSpelled(rest: seq<byte>, major: nat, table: Table) returns (chunks: seq<Chunk>)
    requires 2 <= major <= 3 && ReadChunks(rest, major, table).Done?
    ensures ChunksOk(chunks)
    ensures rest == SpellChunks(major, chunks) + ([0xff] + ReadChunks(rest, major, table).rest)
    decreases |rest|
  {
    hide HeadOf, ReadHead, ValidUtf8, SpellChunks, ChunksOk;
    if rest[0] == BREAK {
      chunks := [];
      assert rest == [0xff] + rest[1..];
      NoChunks(major, rest);
    } else {
      var h := ReadHead(rest);
      var w := HeadSpelled(rest);
      var c := Chunk(w, h.rest[..h.val]);
      var more := ChunksSpelled(h.rest[h.val..], major, table);
      chunks := [c] + more;
      FirstChunk(major, c, more, h.rest, [0xff] + ReadChunks(h.rest[h.val..], major, table).rest);
    }
  }

  lemma NoChunks(major: nat, s: seq<byte>)
    requires major < 8
    ensures ChunksOk([]) && SpellChunks(major, []) + s == s
  {
  }

  lemma FirstChunk(major: nat, c: Chunk, more: seq<Chunk>, rest: seq<byte>, end: seq<byte>)
    requires major < 8 && Carries(c.w, |c.s|) && ChunksOk(more)
    requires |c.s| <= |rest| && c.s == rest[..|c.s|] && rest[|c.s|..] == SpellChunks(major, more) + end
    ensures ChunksOk([c] + more) && HeadOf(major, c.w, |c.s|) + rest == SpellChunks(major, [c] + more) + end
  {
    hide HeadOf;
    assert ([c] + more)[1..] == more;
    assert rest == c.s + (SpellChunks(major, more) + end);
  }

  lemma CharsSpelled(rest: seq<byte>, table: Table) returns (c: Chars)
    requires ReadHead(rest).Head? && 2 <= ReadHead(rest).major <= 3 && ReadString(ReadHead(rest), table).Done?
    ensures CharsOk(c)
    ensures rest == SpellChars(ReadHead(rest).major, c) + ReadString(ReadHead(rest), table).rest
  {
    hide HeadOf, ReadHead, ValidUtf8, ReadChunks, SpellChunks;
    var h := ReadHead(rest);
    var w := HeadSpelled(rest);
    if h.indef {
      var chunks := ChunksSpelled(h.rest, h.major, table);
      c := Parts(chunks);
    } else {
      c := Whole(Chunk(w, h.rest[..h.val]));
      assert h.rest == h.rest[..h.val] + h.rest[h.val..];
    }
  }

  function EndOf(len: Length): seq<byte> {
    if len.ToBreak? then [0xff] else []
  }

  lemma Kinds(tag: nat, rest: seq<byte>, depth: nat, table: Table, isTime: seq<byte> -> bool)
    requires IsStructureTag(tag)
    ensures ReadStructure(tag, rest, depth, table, isTime).Done? ==>
              ReadStructure(tag, rest, depth, table, isTime).value.Map?
  {
    hide ReadDefinition, ReadHead, ReadItems, Zip;
  }

  /** Text and integers are read by their own major types only. */
  lemma ScalarMajor(rest: seq<byte>, depth: nat, table: Table, isTime: seq<byte> -> bool)
    requires var r := ReadItem(rest, depth, table, isTime); r.Done? && (r.value.Text? || r.value.Int?)
    ensures ReadHead(rest).Head? && ReadHead(rest).major <= 3
  {
    hide ReadHead, ReadItems, ReadPairs, ReadStructure, ReadString, Distinct, Keys;
    var h := ReadHead(rest);
    if h.major == 6 && depth < MAX_DEPTH && !h.indef && IsStructureTag(h.val) {
      Kinds(h.val, h.rest, depth, table, isTime);
    }
  }

  lemma TextSpelled(rest: seq<byte>, depth: nat, table: Table, isTime: seq<byte> -> bool) returns (c: Chars)
    requires ReadItem(rest, depth, table, isTime).Done? && ReadItem(rest, depth, table, isTime).value.Text?
    ensures CharsOk(c) && rest == SpellChars(3, c) + ReadItem(rest, depth, table, isTime).rest
    ensures ReadItem(rest, depth, table, isTime).table == table
  {
    hide ReadHead, SpellChars, ReadChunks, ValidUtf8;
    ScalarMajor(rest, depth, table, isTime);
    c := CharsSpelled(rest, table);
  }

  lemma NumberSpelled(rest: seq<byte>, depth: nat, table: Table, isTime: seq<byte> -> bool) returns (w: Width)
    requires var r := ReadItem(rest, depth, table, isTime); r.Done? && r.value.Int? && r.value.n >= 0
    ensures var r := ReadItem(rest, depth, table, isTime);
            Carries(w, r.value.n) && rest == HeadOf(0, w, r.value.n) + r.rest && r.table == table
  {
    hide ReadHead, HeadOf, ReadChunks, ValidUtf8;
    ScalarMajor(rest, depth, table, isTime);
    w := HeadSpelled(rest);
  }

  /** Whatever is read starts with the spelling of an item, which ends where the reader stopped. */
  lemma {:induction false} Spelled(rest: seq<byte>, depth: nat, table: Table, isTime: seq<byte> -> bool)
    returns (x: Wire)
    requires ReadItem(rest, depth, table, isTime).Done?
    ensures WellFormed(x) && rest == Spell(x) + ReadItem(rest, depth, table, isTime).rest
    decreases |rest|, 2
  {
    hide ReadHead, HeadOf, SpellChars, ReadArray, ReadMap, ReadStructure, ReadString, TagMeaning, AllWellFormed,
         SpellAll, SpellFields, WellFormed, Spell;
    var h := ReadHead(rest);
    var w := HeadSpelled(rest);
    if h.major <= 1 {
      x := Number(h.major == 1, w, h.val);
      NumberSpelling(h.major == 1, w, h.val);
    } else if h.major <= 3 {
      var c := CharsSpelled(rest, table);
      x := Str(h.major == 3, c);
      StrSpelling(h.major == 3, c);
    } else if h.major == 4 {
      x := ArraySpelled(rest, w, depth, table, isTime);
    } else if h.major == 5 {
      x := MapSpelled(rest, w, depth, table, isTime);
    } else if h.major == 7 {
      x := SimpleSpelled(rest, w, table);
    } else if IsStructureTag(h.val) {
      x := StructureSpelled(w, h.val, h.rest, depth, table, isTime);
    } else {
      var y := Spelled(h.rest, depth + 1, table, isTime);
      x := Tagged(w, h.val, y);
      TaggedSpelling(w, h.val, y, ReadItem(rest, depth, table, isTime).rest);
    }
  }

  lemma NumberSpelling(negative: bool, w: Width, n: nat)
    requires Carries(w, n)
    ensures WellFormed(Number(negative, w, n))
    ensures Spell(Number(negative, w, n)) == HeadOf(if negative then 1 else 0, w, n)
  {
  }

  lemma StrSpelling(text: bool, c: Chars)
    requires CharsOk(c)
    ensures WellFormed(Str(text, c)) && Spell(Str(text, c)) == SpellChars(if text then 3 else 2, c)
  {
  }

  lemma TaggedSpelling(w: Width, tag: nat, y: Wire, end: seq<byte>)
    requires Carries(w, tag) && !IsStructureTag(tag) && WellFormed(y)
    ensures WellFormed(Tagged(w, tag, y))
    ensures HeadOf(6, w, tag) + (Spell(y) + end) == Spell(Tagged(w, tag, y)) + end
  {
    hide HeadOf;
  }

  lemma {:induction false} ArraySpelled(rest: seq<byte>, w: Width, depth: nat, table: Table, isTime: seq<byte> -> bool)
    returns (x: Wire)
    requires var h := ReadHead(rest);
             && h.Head? && h.major == 4 && ReadArray(h, depth, table, isTime).Done? && |h.rest| < |rest|
             && if h.indef then rest == [32 * 4 + 31] + h.rest
                else Carries(w, h.val) && rest == HeadOf(4, w, h.val) + h.rest
    ensures WellFormed(x) && rest == Spell(x) + ReadArray(ReadHead(rest), depth, table, isTime).rest
    decreases |rest|, 1
  {
    hide ReadHead, HeadOf, ReadItems, AllWellFormed, SpellAll;
    var h := ReadHead(rest);
    var items := ItemsSpelled(h.rest, if h.indef then ToBreak else Count(h.val), depth + 1, table, isTime);
    x := Sequence(if h.indef then None else Some(w), items);
    Ends(Opening(4, x.len, |items|), SpellAll(items), Closing(x.len), ReadArray(h, depth, table, isTime).rest);
  }

  lemma {:induction false} MapSpelled(rest: seq<byte>, w: Width, depth: nat, table: Table, isTime: seq<byte> -> bool)
    returns (x: Wire)
    requires var h := ReadHead(rest);
             && h.Head? && h.major == 5 && ReadMap(h, depth, table, isTime).Done? && |h.rest| < |rest|
             && if h.indef then rest == [32 * 5 + 31] + h.rest
                else Carries(w, h.val) && rest == HeadOf(5, w, h.val) + h.rest
    ensures WellFormed(x) && rest == Spell(x) + ReadMap(ReadHead(rest), depth, table, isTime).rest
    decreases |rest|, 1
  {
    hide ReadHead, HeadOf, ReadPairs, AllWellFormed, SpellFields, Distinct, Keys, KeysOk;
    var h := ReadHead(rest);
    var keys, items := PairsSpelled(h.rest, if h.indef then ToBreak else Count(h.val), depth + 1, table, isTime);
    x := Dictionary(if h.indef then None else Some(w), keys, items);
    Ends(Opening(5, x.len, |items|), SpellFields(keys, items), Closing(x.len), ReadMap(h, depth, table, isTime).rest);
  }

  lemma Ends(open: seq<byte>, inner: seq<byte>, close: seq<byte>, end: seq<byte>)
    ensures open + (inner + (close + end)) == (open + (inner + close)) + end
  {
  }

  lemma SimpleSpelled(rest: seq<byte>, w: Width, table: Table) returns (x: Wire)
    requires var h := ReadHead(rest);
             && h.Head? && h.major == 7 && ReadSimple(h, table).Done? && Carries(w, h.val) && h.ai == Info(w, h.val)
             && rest == HeadOf(7, w, h.val) + h.rest
    ensures WellFormed(x) && rest == Spell(x) + ReadSimple(ReadHead(rest), table).rest
  {
    hide ReadHead;
    var h := ReadHead(rest);
    x := if h.ai < 24 then Simple(h.ai) else Real(w, h.val);
  }

  lemma {:induction false} ItemsSpelled(rest: seq<byte>, len: Length, depth: nat, table: Table,
                                        isTime: seq<byte> -> bool) returns (xs: seq<Wire>)
    requires ReadItems(rest, len, depth, table, isTime).Done?
    ensures AllWellFormed(xs) && |xs| == |ReadItems(rest, len, depth, table, isTime).value|
    ensures rest == SpellAll(xs) + (EndOf(len) + ReadItems(rest, len, depth, table, isTime).rest)
    decreases |rest|, 3
  {
    hide ReadItem, Spell, WellFormed, ReadItems, SpellAll, AllWellFormed;
    ItemsEnd(rest, len, depth, table, isTime);
    if len == Count(0) || (len.ToBreak? && rest[0] == BREAK) {
      xs := [];
      NoItems(rest, len);
    } else {
      ItemsStep(rest, len, depth, table, isTime);
      var r := ReadItem(rest, depth, table, isTime);
      var x := Spelled(rest, depth, table, isTime);
      var more := ItemsSpelled(r.rest, len.Less(), depth, r.table, isTime);
      xs := [x] + more;
      MoreItems(x, more);
    }
  }

  lemma ItemsEnd(rest: seq<byte>, len: Length, depth: nat, table: Table, isTime: seq<byte> -> bool)
    requires ReadItems(rest, len, depth, table, isTime).Done?
    ensures len == Count(0) ==> ReadItems(rest, len, depth, table, isTime) == Done([], rest, table)
    ensures len.ToBreak? ==> rest != []
    ensures len.ToBreak? && rest[0] == BREAK ==>
              ReadItems(rest, len, depth, table, isTime) == Done([], rest[1..], table)
  {
    hide ReadItem;
  }

  lemma NoItems(rest: seq<byte>, len: Length)
    requires len == Count(0) || (len.ToBreak? && rest != [] && rest[0] == BREAK)
    ensures AllWellFormed([]) && SpellAll([]) == []
    ensures rest == EndOf(len) + (if len.ToBreak? then rest[1..] else rest)
  {
  }

  lemma MoreItems(x: Wire, more: seq<Wire>)
    requires WellFormed(x) && AllWellFormed(more)
    ensures AllWellFormed([x] + more) && SpellAll([x] + more) == Spell(x) + SpellAll(more)
  {
    hide Spell, WellFormed;
  }

  lemma {:induction false} PairsSpelled(rest: seq<byte>, len: Length, depth: nat, table: Table,
                                        isTime: seq<byte> -> bool) returns (keys: seq<Chars>, xs: seq<Wire>)
    requires ReadPairs(rest, len, depth, table, isTime).Done?
    ensures KeysOk(keys) && AllWellFormed(xs) && |keys| == |xs| == |ReadPairs(rest, len, depth, table, isTime).value|
    ensures rest == SpellFields(keys, xs) + (EndOf(len) + ReadPairs(rest, len, depth, table, isTime).rest)
    decreases |rest|, 3
  {
    hide ReadItem, Spell, WellFormed, SpellChars, SpellFields, KeysOk, CharsOk, ReadPairs;
    if AtEnd(len, rest) {
      keys, xs := [], [];
      NoPairs(rest, len, depth, table, isTime);
    } else {
      PairsMore(rest, len, depth, table, isTime);
      var k := ReadItem(rest, depth, table, isTime);
      var key := TextSpelled(rest, depth, table, isTime);
      var v := ReadItem(k.rest, depth, k.table, isTime);
      var x := Spelled(k.rest, depth, k.table, isTime);
      var moreKeys, more := PairsSpelled(v.rest, len.Less(), depth, v.table, isTime);
      keys, xs := [key] + moreKeys, [x] + more;
      FirstField(key, moreKeys, x, more, EndOf(len) + ReadPairs(rest, len, depth, table, isTime).rest);
    }
  }

  predicate AtEnd(len: Length, rest: seq<byte>) {
    len == Count(0) || (len.ToBreak? && rest != [] && rest[0] == BREAK)
  }

  lemma NoPairs(rest: seq<byte>, len: Length, depth: nat, table: Table, isTime: seq<byte> -> bool)
    requires ReadPairs(rest, len, depth, table, isTime).Done?
    requires AtEnd(len, rest)
    ensures KeysOk([]) && AllWellFormed([]) && ReadPairs(rest, len, depth, table, isTime).value == []
    ensures rest == SpellFields([], []) + (EndOf(len) + ReadPairs(rest, len, depth, table, isTime).rest)
  {
    hide ReadItem;
    if len.ToBreak? {
      assert rest == [0xff] + rest[1..];
    }
  }

  lemma PairsMore(rest: seq<byte>, len: Length, depth: nat, table: Table, isTime: seq<byte> -> bool)
    requires ReadPairs(rest, len, depth, table, isTime).Done?
    requires !AtEnd(len, rest)
    ensures len != Count(0) && EndOf(len.Less()) == EndOf(len)
    ensures var k := ReadItem(rest, depth, table, isTime);
            && k.Done? && k.value.Text? && |k.rest| < |rest|
            && var v := ReadItem(k.rest, depth, k.table, isTime);
               && v.Done? && |v.rest| < |rest|
               && var ps := ReadPairs(v.rest, len.Less(), depth, v.table, isTime);
                  && ps.Done? && ReadPairs(rest, len, depth, table, isTime)
                                 == Done([(k.value.s, v.value)] + ps.value, ps.rest, ps.table)
  {
    hide ReadItem;
  }

  lemma FirstField(key: Chars, keys: seq<Chars>, x: Wire, xs: seq<Wire>, end: seq<byte>)
    requires CharsOk(key) && KeysOk(keys) && WellFormed(x) && AllWellFormed(xs) && |keys| == |xs|
    ensures KeysOk([key] + keys) && AllWellFormed([x] + xs)
    ensures SpellChars(3, key) + (Spell(x) + (SpellFields(keys, xs) + end))
            == SpellFields([key] + keys, [x] + xs) + end
  {
    hide Spell, SpellChars, WellFormed, CharsOk;
    assert ([key] + keys)[1..] == keys && ([x] + xs)[1..] == xs;
  }

  lemma {:induction false} NamesSpelled(rest: seq<byte>, n: nat, depth: nat, table: Table, isTime: seq<byte> -> bool)
    returns (keys: seq<Chars>)
    requires ReadNames(rest, n, depth, table, isTime).Done?
    ensures KeysOk(keys) && |keys| == n
    ensures var r := ReadNames(rest, n, depth, table, isTime);
            rest == SpellKeys(keys) + r.rest && r.table == table
    decreases n
  {
    hide ReadItem, SpellChars;
    if n == 0 {
      keys := [];
    } else {
      var k := ReadItem(rest, depth, table, isTime);
      var key := TextSpelled(rest, depth, table, isTime);
      var more := NamesSpelled(k.rest, n - 1, depth, k.table, isTime);
      keys := [key] + more;
      assert SpellKeys(keys) == SpellChars(3, key) + SpellKeys(more);
    }
  }

  lemma {:induction false} StructureSpelled(t: Width, tag: nat, rest: seq<byte>, depth: nat, table: Table,
                                            isTime: seq<byte> -> bool) returns (x: Wire)
    requires IsStructureTag(tag) && Carries(t, tag) && ReadStructure(tag, rest, depth, table, isTime).Done?
    ensures WellFormed(x)
    ensures HeadOf(6, t, tag) + rest == Spell(x) + ReadStructure(tag, rest, depth, table, isTime).rest
    decreases |rest|, 4
  {
    hide ReadHead, HeadOf, ReadItem, ReadItems, ReadDefinition, AllWellFormed, SpellAll, SpellKeys, KeysOk, WellFormed,
         Spell, ReadStructure, ReadRecord;
    var h := ReadHead(rest);
    StructureParts(tag, rest, depth, table, isTime);
    var a := HeadSpelled(rest);
    var end := ReadStructure(tag, rest, depth, table, isTime).rest;
    if tag == TAG_STRUCTURE_DEF {
      x := DefineSpelled(t, a, h, end, depth, table, isTime);
    } else {
      var items := ItemsSpelled(h.rest, Count(h.val), depth + 2, table, isTime);
      x := Refer(t, tag - 0xe000, a, items);
      ReferSpelling(x, end);
    }
  }

  lemma {:induction false} DefineSpelled(t: Width, a: Width, h: HeadRead, end: seq<byte>, depth: nat, table: Table,
                                         isTime: seq<byte> -> bool) returns (x: Wire)
    requires h.Head? && Carries(t, 0xdfff) && Carries(a, h.val) && ReadDefinition(h, depth, table, isTime).Done?
    requires var d := ReadDefinition(h, depth, table, isTime);
             var vs := ReadItems(d.rest, Count(|d.value|), depth + 2, d.table, isTime);
             vs.Done? && vs.rest == end
    ensures WellFormed(x) && HeadOf(6, t, 0xdfff) + (HeadOf(4, a, h.val) + h.rest) == Spell(x) + end
    decreases |h.rest|, 5
  {
    hide HeadOf, ReadItem, ReadItems, ReadDefinition, AllWellFormed, SpellAll, SpellKeys, KeysOk, WellFormed, Spell;
    var d := ReadDefinition(h, depth, table, isTime);
    var i, id, l, keys := DefinitionSpelled(h, depth, table, isTime);
    var items := ItemsSpelled(d.rest, Count(|d.value|), depth + 2, d.table, isTime);
    x := Define(t, a, i, id, l, keys, items);
    DefineSpelling(x, end);
  }

  /** What a structure that is read consists of. */
  lemma StructureParts(tag: nat, rest: seq<byte>, depth: nat, table: Table, isTime: seq<byte> -> bool)
    requires IsStructureTag(tag) && ReadStructure(tag, rest, depth, table, isTime).Done?
    ensures var h := ReadHead(rest);
            var end := ReadStructure(tag, rest, depth, table, isTime).rest;
            && h.Head? && h.major == 4 && !h.indef
            && if tag == 0xdfff then
                 var d := ReadDefinition(h, depth, table, isTime);
                 && d.Done?
                 && var vs := ReadItems(d.rest, Count(|d.value|), depth + 2, d.table, isTime);
                    vs.Done? && vs.rest == end
               else
                 var vs := ReadItems(h.rest, Count(h.val), depth + 2, table, isTime);
                 vs.Done? && vs.rest == end
  {
    hide ReadHead, ReadItem, ReadItems, ReadDefinition, Zip;
  }

  lemma DefinitionSpelled(h: HeadRead, depth: nat, table: Table, isTime: seq<byte> -> bool)
    returns (i: Width, id: nat, l: Width, keys: seq<Chars>)
    requires h.Head? && ReadDefinition(h, depth, table, isTime).Done?
    ensures Carries(i, id) && Carries(l, |keys|) && KeysOk(keys) && h.val == |keys| + 2
    ensures var d := ReadDefinition(h, depth, table, isTime);
            |d.value| == |keys| && h.rest == HeadOf(0, i, id) + (HeadOf(4, l, |keys|) + (SpellKeys(keys) + d.rest))
  {
    hide ReadHead, HeadOf, ReadItem, ReadNames, SpellKeys, KeysOk, Distinct;
    var r := ReadItem(h.rest, depth + 2, table, isTime);
    i := NumberSpelled(h.rest, depth + 2, table, isTime);
    id := r.value.n;
    var nh := ReadHead(r.rest);
    l := HeadSpelled(r.rest);
    keys := NamesSpelled(nh.rest, nh.val, depth + 3, r.table, isTime);
  }

  lemma DefineSpelling(x: Wire, end: seq<byte>)
    requires x.Define? && Carries(x.t, 0xdfff) && Carries(x.a, |x.items| + 2) && Carries(x.i, x.id)
             && Carries(x.l, |x.items|) && KeysOk(x.keys) && |x.keys| == |x.items| && AllWellFormed(x.items)
    ensures WellFormed(x)
    ensures HeadOf(6, x.t, 0xdfff) + (HeadOf(4, x.a, |x.items| + 2)
            + (HeadOf(0, x.i, x.id) + (HeadOf(4, x.l, |x.items|) + (SpellKeys(x.keys) + (SpellAll(x.items) + end)))))
            == Spell(x) + end
  {
    hide HeadOf, SpellAll, SpellKeys, KeysOk, AllWellFormed;
  }

  lemma ReferSpelling(x: Wire, end: seq<byte>)
    requires x.Refer? && x.id < 0x1fff && Carries(x.t, 0xe000 + x.id) && Carries(x.a, |x.items|)
             && AllWellFormed(x.items)
    ensures WellFormed(x)
    ensures HeadOf(6, x.t, 0xe000 + x.id) + (HeadOf(4, x.a, |x.items|) + (SpellAll(x.items) + end)) == Spell(x) + end
  {
    hide HeadOf, SpellAll, AllWellFormed;
  }

  /** The reader takes exactly the spellings that mean something, to what they mean. */
  lemma ReadIff(rest: seq<byte>, depth: nat, table: Table, isTime: seq<byte> -> bool, value: Item, suffix: seq<byte>,
                after: Table)
    ensures ReadItem(rest, depth, table, isTime) == Done(value, suffix, after)
            <==> exists x :: IsSpelled(x, rest, suffix) && Meaning(x, depth, table, isTime) == Meant(value, after)
  {
    hide ReadItem, Meaning, IsSpelled;
    if ReadItem(rest, depth, table, isTime) == Done(value, suffix, after) {
      var x := Spelled(rest, depth, table, isTime);
      assert IsSpelled(x, rest, suffix) by { IsSpelling(x, rest, suffix); }
      SpelledReads(x, rest, suffix, depth, table, isTime);
    }
    if x :| IsSpelled(x, rest, suffix) && Meaning(x, depth, table, isTime) == Meant(value, after) {
      SpelledReads(x, rest, suffix, depth, table, isTime);
    }
  }

  ghost predicate IsSpelled(x: Wire, rest: seq<byte>, suffix: seq<byte>) {
    WellFormed(x) && rest == Spell(x) + suffix
  }

  lemma IsSpelling(x: Wire, rest: seq<byte>, suffix: seq<byte>)
    requires WellFormed(x) && rest == Spell(x) + suffix
    ensures IsSpelled(x, rest, suffix)
  {
  }

  lemma SpelledReads(x: Wire, rest: seq<byte>, suffix: seq<byte>, depth: nat, table: Table, isTime: seq<byte> -> bool)
    requires IsSpelled(x, rest, suffix)
    ensures Reads(ReadItem(rest, depth, table, isTime), Meaning(x, depth, table, isTime), suffix)
  {
    hide ReadItem, Meaning;
    WireRead(x, suffix, depth, table, isTime);
  }

  /** A body is accepted if and only if it is, whole, the spelling of an item that means something. */
  lemma BodyIff(data: seq<byte>, isTime: seq<byte> -> bool, value: Item)
    ensures (ReadDocument(data, isTime).Done? && ReadDocument(data, isTime).value == value)
            <==> exists x, after :: IsSpelled(x, data, []) && Meaning(x, 0, map[], isTime) == Meant(value, after)
  {
    hide ReadItem, Meaning, IsSpelled;
    var r := ReadItem(data, 0, map[], isTime);
    if r.Done? && r.rest == [] && r.value == value {
      ReadIff(data, 0, map[], isTime, value, [], r.table);
    }
    if x, after :| IsSpelled(x, data, []) && Meaning(x, 0, map[], isTime) == Meant(value, after) {
      ReadIff(data, 0, map[], isTime, value, [], after);
    }
  }
}
