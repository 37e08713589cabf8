/**
  What base64 text is: the alphabet, encoding by threes, line feeds, and decoding by fours; and
  how the two undo each other. Bytes are bit vectors, so shifts and masks are the program's own.
  */
module Base64Text {
  import opened Arithmetic
  import opened Options

  type Byte = bv8

  const LF: Byte := 10
  const NEWLINE: seq<Byte> := [LF]
  const PAD: Byte := 61
  const OUTSIDE: Byte := 0x80

  /** The alphabet: `A` to `Z`, `a` to `z`, `0` to `9`, `+` and `/`. */
  function Symbol(v: Byte): Byte
    requires v < 64
  {
    if v < 26 then 65 + v else if v < 52 then 97 + (v - 26) else if v < 62 then 48 + (v - 52)
      else if v == 62 then 43 else 47
  }

  /** Where a byte is in the alphabet, or 128. */
  function Place(c: Byte): Byte {
    if 65 <= c <= 90 then c - 65
    else if 97 <= c <= 122 then c - 97 + 26
    else if 48 <= c <= 57 then c - 48 + 52
    else if c == 43 then 62
    else if c == 47 then 63
    else OUTSIDE
  }

  /** What the decoder's table holds: 0 to 63 for the alphabet, 0 for `=`, 128 for the rest. */
  function Value(c: Byte): Byte { if c == PAD then 0 else Place(c) }

  /** They are `ABCDEFGHIJKLMNOPQRSTUVWXYZabcdefghijklmnopqrstuvwxyz0123456789+/` in ASCII. */
  lemma AlphabetInOrder()
    ensures [
      Symbol(0), Symbol(1), Symbol(2), Symbol(3), Symbol(4), Symbol(5), Symbol(6), Symbol(7),
      Symbol(8), Symbol(9), Symbol(10), Symbol(11), Symbol(12), Symbol(13), Symbol(14), Symbol(15),
      Symbol(16), Symbol(17), Symbol(18), Symbol(19), Symbol(20), Symbol(21), Symbol(22), Symbol(23),
      Symbol(24), Symbol(25), Symbol(26), Symbol(27), Symbol(28), Symbol(29), Symbol(30), Symbol(31),
      Symbol(32), Symbol(33), Symbol(34), Symbol(35), Symbol(36), Symbol(37), Symbol(38), Symbol(39),
      Symbol(40), Symbol(41), Symbol(42), Symbol(43), Symbol(44), Symbol(45), Symbol(46), Symbol(47),
      Symbol(48), Symbol(49), Symbol(50), Symbol(51), Symbol(52), Symbol(53), Symbol(54), Symbol(55),
      Symbol(56), Symbol(57), Symbol(58), Symbol(59), Symbol(60), Symbol(61), Symbol(62), Symbol(63)] ==
      [65, 66, 67, 68, 69, 70, 71, 72, 73, 74, 75, 76, 77, 78, 79, 80,
       81, 82, 83, 84, 85, 86, 87, 88, 89, 90, 97, 98, 99, 100, 101, 102,
       103, 104, 105, 106, 107, 108, 109, 110, 111, 112, 113, 114, 115, 116, 117, 118,
       119, 120, 121, 122, 48, 49, 50, 51, 52, 53, 54, 55, 56, 57, 43, 47]
  {
  }

  lemma SymbolsHaveValues(v: Byte)
    requires v < 64
    ensures Value(Symbol(v)) == v && Symbol(v) != PAD && Symbol(v) != LF
  {
  }

  lemma ValuesHaveSymbols(c: Byte)
    requires Value(c) != OUTSIDE && c != PAD
    ensures Value(c) < 64 && Symbol(Value(c)) == c
  {
  }

  /** Padding counts as zero bits, and 128 marks exactly what is neither padding nor a symbol. */
  lemma TableMarksTheRest(c: Byte)
    ensures Value(61) == 0
    ensures Value(c) == 128 <==> c != 61 && forall v: Byte :: v < 64 ==> Symbol(v) != c
  {
    if Value(c) != 128 && c != 61 {
      ValuesHaveSymbols(c);
    }
    forall v: Byte | v < 64
      ensures Value(Symbol(v)) == v && Symbol(v) != PAD
    {
      SymbolsHaveValues(v);
    }
  }

  // ------------------------------------------------------------------ encoding

  function Full(a: Byte, b: Byte, c: Byte): (q: seq<Byte>)
    ensures |q| == 4
  {
    [Symbol(a >> 2), Symbol(((a & 3) << 4) | (b >> 4)), Symbol(((b & 15) << 2) | (c >> 6)), Symbol(c & 63)]
  }

  function Two(a: Byte, b: Byte): (q: seq<Byte>)
    ensures |q| == 4
  {
    [Symbol(a >> 2), Symbol(((a & 3) << 4) | (b >> 4)), Symbol((b & 15) << 2), PAD]
  }

  function One(a: Byte): (q: seq<Byte>)
    ensures |q| == 4
  {
    [Symbol(a >> 2), Symbol((a & 3) << 4), PAD, PAD]
  }

  lemma SixBitsByFour(a: Byte, b: Byte, c: Byte)
    ensures ((a >> 2) as bv24 << 18) | ((((a & 3) << 4) | (b >> 4)) as bv24 << 12)
            | ((((b & 15) << 2) | (c >> 6)) as bv24 << 6) | (c & 63) as bv24
        == (a as bv24 << 16) | (b as bv24 << 8) | c as bv24
  {
  }

  /** Four symbols stand for the bits of three bytes, the first byte and the first symbol highest. */
  lemma SymbolsHoldTheBits(a: Byte, b: Byte, c: Byte)
    ensures var q := Full(a, b, c);
      (Value(q[0]) as bv24 << 18) | (Value(q[1]) as bv24 << 12) | (Value(q[2]) as bv24 << 6) | Value(q[3]) as bv24
        == (a as bv24 << 16) | (b as bv24 << 8) | c as bv24
  {
    hide Value, Symbol;
    SymbolsHaveValues(a >> 2);
    SymbolsHaveValues(((a & 3) << 4) | (b >> 4));
    SymbolsHaveValues(((b & 15) << 2) | (c >> 6));
    SymbolsHaveValues(c & 63);
    SixBitsByFour(a, b, c);
  }

  /** A group that is not full is padded with zero bits, and then with the pad. */
  lemma ShortGroupsArePadded(a: Byte, b: Byte)
    ensures Two(a, b)[..3] == Full(a, b, 0)[..3] && Two(a, b)[3] == PAD
    ensures One(a)[..2] == Full(a, 0, 0)[..2] && One(a)[2..] == [PAD, PAD]
  {
    hide Symbol;
  }

  /** The symbols of an encoding, before lines are broken. */
  function Encoded(src: seq<Byte>): seq<Byte> {
    if src == [] then []
    else if |src| == 1 then One(src[0])
    else if |src| == 2 then Two(src[0], src[1])
    else Full(src[0], src[1], src[2]) + Encoded(src[3..])
  }

  /** A line feed after every 72 symbols. */
  function Broken(text: seq<Byte>): seq<Byte> {
    if |text| < 72 then text else text[..72] + NEWLINE + Broken(text[72..])
  }

  /** And one at the end of a last shorter line. */
  function Lines(text: seq<Byte>): seq<Byte> {
    Broken(text) + if |text| % 72 == 0 then [] else NEWLINE
  }

  lemma {:induction false} EncodedLength(src: seq<Byte>)
    ensures |Encoded(src)| == (|src| + 2) / 3 * 4
  {
    if |src| >= 3 {
      EncodedLength(src[3..]);
    }
  }

  lemma EncodedStep(src: seq<Byte>)
    requires |src| >= 3
    ensures Encoded(src) == Full(src[0], src[1], src[2]) + Encoded(src[3..])
  {
    hide Full, Two, One;
  }

  lemma {:induction false} EncodedAppend(src: seq<Byte>, more: seq<Byte>)
    requires |src| % 3 == 0
    ensures Encoded(src + more) == Encoded(src) + Encoded(more)
  {
    hide Full, Two, One;
    if src == [] {
      assert src + more == more;
    } else {
      hide Encoded;
      var rest, all := src[3..], src + more;
      EncodedAppend(rest, more);
      assert all[3..] == rest + more && all[0] == src[0] && all[1] == src[1] && all[2] == src[2];
      EncodedStep(src);
      EncodedStep(all);
    }
  }

  lemma {:induction false} BrokenLength(text: seq<Byte>)
    ensures |Broken(text)| == |text| + |text| / 72
  {
    if |text| >= 72 {
      BrokenLength(text[72..]);
    }
  }

  lemma BrokenLong(line: seq<Byte>, rest: seq<Byte>)
    requires |line| == 72
    ensures Broken(line + rest) == line + (NEWLINE + Broken(rest))
  {
    assert (line + rest)[..72] == line && (line + rest)[72..] == rest;
  }

  /** After `lines` full lines and part of one, what fits is appended, and a line then full is ended. */
  lemma {:induction false} BrokenAppend(text: seq<Byte>, more: seq<Byte>, lines: nat, lineLen: nat)
    requires |text| == 72 * lines + lineLen && lineLen < 72 && 0 < |more|
    ensures lineLen + |more| < 72 ==> Broken(text + more) == Broken(text) + more
    ensures lineLen + |more| == 72 ==> Broken(text + more) == Broken(text) + (more + NEWLINE)
  {
    if lines == 0 {
      if lineLen + |more| == 72 {
        BrokenLong(text + more, []);
        assert text + more + [] == text + more;
        assert (text + more) + (NEWLINE + []) == text + (more + NEWLINE);
      }
    } else {
      hide Broken;
      var line, rest := text[..72], text[72..];
      assert text == line + rest && text + more == line + (rest + more);
      BrokenLong(line, rest);
      BrokenLong(line, rest + more);
      BrokenAppend(rest, more, lines - 1, lineLen);
      Nested(line, NEWLINE, Broken(rest), more);
      Nested(line, NEWLINE, Broken(rest), more + NEWLINE);
    }
  }

  lemma Nested(a: seq<Byte>, b: seq<Byte>, c: seq<Byte>, d: seq<Byte>)
    ensures a + (b + (c + d)) == (a + (b + c)) + d
  {
  }

  // ------------------------------------------------------------------ how much room it takes

  /** `olen` when nothing wraps. */
  function Room(len: nat): nat {
    len * 4 / 3 + 4 + (len * 4 / 3 + 4) / 72 + 1
  }

  lemma SymbolsFit(len: nat, e: nat)
    requires e == (len + 2) / 3 * 4
    ensures e < len * 4 / 3 + 4 && e / 72 <= (len * 4 / 3 + 4) / 72
  {
    var k, m := len / 3, len % 3;
    assert len == 3 * k + m;
    assert len * 4 == 12 * k + 4 * m;
    assert e <= 4 * k + (if m == 0 then 0 else 4);
    assert e < len * 4 / 3 + 4;
  }

  /** The text and its final zero byte fit in the room computed for them. */
  lemma TextFits(src: seq<Byte>)
    ensures |Lines(Encoded(src))| + 1 <= Room(|src|)
  {
    EncodedLength(src);
    BrokenLength(Encoded(src));
    SymbolsFit(|src|, |Encoded(src)|);
  }

  /** For one byte nothing is left over. */
  lemma OneByteFillsTheRoom(b: Byte)
    ensures |Lines(Encoded([b]))| + 1 == Room(1)
  {
    assert Broken(One(b)) == One(b);
  }

  /** `olen` computed in a `size_t` of `width` values. */
  function WrappedRoom(len: nat, width: nat): nat
    requires width > 0
  {
    var o := ((len * 4) % width / 3 + 4) % width;
    ((o + o / 72) % width + 1) % width
  }

  /** A product that wraps has wrapped at most three times, and what is left of it is too small. */
  lemma WrappedIsShort(len: nat, width: nat, turns: nat, p: nat)
    requires 65536 <= width && len < width && 1 <= turns <= 3 && len * 4 == turns * width + p && p < width
    ensures p / 3 + 4 + (p / 3 + 4) / 72 + 1 < len
  {
    var o := p / 3 + 4;
    assert 3 * o <= p + 12 && 72 * (o / 72) <= o;
    if turns == 1 {
    } else if turns == 2 {
    } else {
    }
  }

  lemma SmallMod(x: nat, width: nat)
    requires x < width
    ensures x % width == x
  {
  }

  /** Only the product can wrap. */
  lemma OnlyTheProductWraps(len: nat, width: nat)
    requires 65536 <= width
    ensures var p := (len * 4) % width; WrappedRoom(len, width) == p / 3 + 4 + (p / 3 + 4) / 72 + 1
  {
    var p := (len * 4) % width;
    var o := p / 3 + 4;
    assert 3 * o <= p + 12 && 72 * (o / 72) <= o;
    SmallMod(o, width);
    SmallMod(o + o / 72, width);
    SmallMod(o + o / 72 + 1, width);
  }

  /** The comparison with the length finds a wrapped product in every case, and nothing else. */
  lemma OverflowIsFoundExactly(len: nat, width: nat)
    requires 65536 <= width && len < width
    ensures WrappedRoom(len, width) < len <==> len * 4 >= width
    ensures len * 4 < width ==> WrappedRoom(len, width) == Room(len)
  {
    hide WrappedRoom;
    OnlyTheProductWraps(len, width);
    if len * 4 < width {
      SmallMod(len * 4, width);
      assert 3 * (len * 4 / 3) >= 4 * len - 2;
    } else {
      var p, turns := (len * 4) % width, (len * 4) / width;
      assert len * 4 == turns * width + p;
      WrappedAtMostThrice(len, width, turns, p);
      WrappedIsShort(len, width, turns, p);
    }
  }

  lemma WrappedAtMostThrice(len: nat, width: nat, turns: int, p: nat)
    requires width <= len * 4 < 4 * width && len * 4 == turns * width + p && p < width
    ensures 1 <= turns <= 3
  {
    if turns <= 0 {
      MulMono(turns, 0, width);
    } else if turns >= 4 {
      MulMono(4, turns, width);
    }
  }

  // ------------------------------------------------------------------ decoding

  /** The bytes the decoder looks at. */
  function Kept(src: seq<Byte>): seq<Byte> {
    if src == [] then []
    else if Value(src[0]) == OUTSIDE then Kept(src[1..])
    else [src[0]] + Kept(src[1..])
  }

  function Pad(c: Byte): nat { if c == PAD then 1 else 0 }

  function Pads(block: seq<Byte>): nat
    requires |block| == 4
  {
    Pad(block[0]) + Pad(block[1]) + Pad(block[2]) + Pad(block[3])
  }

  function Byte0(v0: Byte, v1: Byte): Byte { (v0 << 2) | (v1 >> 4) }

  function Byte1(v1: Byte, v2: Byte): Byte { (v1 << 4) | (v2 >> 2) }

  function Byte2(v2: Byte, v3: Byte): Byte { (v2 << 6) | v3 }

  /** Four times six bits as three bytes. */
  function Bits(block: seq<Byte>): (r: seq<Byte>)
    requires |block| == 4
    ensures |r| == 3
  {
    var v0, v1, v2, v3 := Value(block[0]), Value(block[1]), Value(block[2]), Value(block[3]);
    [Byte0(v0, v1), Byte1(v1, v2), Byte2(v2, v3)]
  }

  /** Blocks of four up to and with the first that has padding; three or four pads are refused. */
  function Blocks(kept: seq<Byte>): Option<seq<Byte>> {
    if |kept| < 4 then Some([])
    else
      var pads, bits := Pads(kept[..4]), Bits(kept[..4]);
      if pads == 0 then
        match Blocks(kept[4..])
        case None => None
        case Some(rest) => Some(bits + rest)
      else if pads <= 2 then Some(bits[..3 - pads])
      else None
  }

  function Decoded(src: seq<Byte>): Option<seq<Byte>> {
    var kept := Kept(src);
    if |kept| == 0 || |kept| % 4 != 0 then None else Blocks(kept)
  }

  lemma {:induction false} KeptAppend(a: seq<Byte>, b: seq<Byte>)
    ensures Kept(a + b) == Kept(a) + Kept(b)
  {
    if a == [] {
      assert a + b == b;
    } else {
      KeptAppend(a[1..], b);
      assert (a + b)[1..] == a[1..] + b;
    }
  }

  lemma {:induction false} AllKept(a: seq<Byte>)
    requires forall i :: 0 <= i < |a| ==> Value(a[i]) != OUTSIDE
    ensures Kept(a) == a
  {
    if a != [] {
      AllKept(a[1..]);
    }
  }

  lemma {:induction false} NoneKept(a: seq<Byte>)
    requires forall i :: 0 <= i < |a| ==> Value(a[i]) == OUTSIDE
    ensures Kept(a) == []
  {
    if a != [] {
      NoneKept(a[1..]);
    }
  }

  /** Line feeds, blanks or any other bytes outside the alphabet may be put anywhere. */
  lemma StrangeBytesAreIgnored(before: seq<Byte>, strange: seq<Byte>, after: seq<Byte>)
    requires forall i :: 0 <= i < |strange| ==> Value(strange[i]) == OUTSIDE
    ensures Decoded(before + strange + after) == Decoded(before + after)
  {
    NoneKept(strange);
    KeptAppend(before + strange, after);
    KeptAppend(before, strange);
    KeptAppend(before, after);
    assert Kept(before + strange + after) == Kept(before + after);
  }

  // ------------------------------------------------------------------ there and back

  lemma {:induction false} EncodedIsKept(src: seq<Byte>)
    ensures forall i :: 0 <= i < |Encoded(src)| ==> Value(Encoded(src)[i]) != OUTSIDE
  {
    if |src| >= 3 {
      EncodedIsKept(src[3..]);
    }
  }

  lemma {:induction false} BreaksAreDropped(text: seq<Byte>)
    requires forall i :: 0 <= i < |text| ==> Value(text[i]) != OUTSIDE
    ensures Kept(Broken(text)) == text
  {
    if |text| < 72 {
      AllKept(text);
    } else {
      AllKept(text[..72]);
      BreaksAreDropped(text[72..]);
      NoneKept(NEWLINE);
      KeptAppend(text[..72] + NEWLINE, Broken(text[72..]));
      KeptAppend(text[..72], NEWLINE);
    }
  }

  lemma FullDecodes(a: Byte, b: Byte, c: Byte)
    ensures Pads(Full(a, b, c)) == 0 && Bits(Full(a, b, c)) == [a, b, c]
  {
    hide Value, Symbol;
    SymbolsHaveValues(a >> 2);
    SymbolsHaveValues(((a & 3) << 4) | (b >> 4));
    SymbolsHaveValues(((b & 15) << 2) | (c >> 6));
    SymbolsHaveValues(c & 63);
  }

  lemma TwoDecodes(a: Byte, b: Byte)
    ensures Pads(Two(a, b)) == 1 && Bits(Two(a, b))[..2] == [a, b]
  {
    hide Value, Symbol;
    SymbolsHaveValues(a >> 2);
    SymbolsHaveValues(((a & 3) << 4) | (b >> 4));
    SymbolsHaveValues((b & 15) << 2);
  }

  lemma OneDecodes(a: Byte)
    ensures Pads(One(a)) == 2 && Bits(One(a))[..1] == [a]
  {
    hide Value, Symbol;
    SymbolsHaveValues(a >> 2);
    SymbolsHaveValues((a & 3) << 4);
  }

  lemma {:induction false} BlocksOfEncoded(src: seq<Byte>)
    ensures Blocks(Encoded(src)) == Some(src)
  {
    hide Full, Two, One, Bits, Pads;
    if src == [] {
    } else if |src| == 1 {
      OneDecodes(src[0]);
      assert Encoded(src)[..4] == One(src[0]);
      assert src == [src[0]];
    } else if |src| == 2 {
      TwoDecodes(src[0], src[1]);
      assert Encoded(src)[..4] == Two(src[0], src[1]);
      assert src == [src[0], src[1]];
    } else {
      FullDecodes(src[0], src[1], src[2]);
      BlocksOfEncoded(src[3..]);
      assert Encoded(src)[..4] == Full(src[0], src[1], src[2]);
      assert Encoded(src)[4..] == Encoded(src[3..]);
      assert src == [src[0], src[1], src[2]] + src[3..];
    }
  }

  /** Decoding an encoding gives the bytes back, whatever they are, if there are any; none give nothing to decode. */
  lemma DecodeUndoesEncode(src: seq<Byte>)
    ensures Decoded(Lines(Encoded(src))) == if src == [] then None else Some(src)
  {
    hide Kept, Encoded, Broken, Blocks;
    var text := Encoded(src);
    EncodedIsKept(src);
    BreaksAreDropped(text);
    NoneKept(NEWLINE);
    KeptAppend(Broken(text), NEWLINE);
    assert Lines(text) == Broken(text) || Lines(text) == Broken(text) + NEWLINE;
    assert Kept(Lines(text)) == text by {
      assert Kept(Broken(text)) + [] == text;
    }
    EncodedLength(src);
    BlocksOfEncoded(src);
  }

  /** No line is longer than 72 bytes: any 73 bytes in a row hold a line feed. */
  lemma {:induction false} LinesAreShort(text: seq<Byte>, at: nat)
    requires at + 73 <= |Lines(text)|
    ensures exists i :: at <= i < at + 73 && Lines(text)[i] == LF
  {
    BrokenLength(text);
    if |text| >= 72 {
      assert Lines(text)[72] == LF;
      if at > 72 {
        var rest := text[72..];
        assert |text| % 72 == |rest| % 72;
        assert Lines(text) == text[..72] + NEWLINE + Lines(rest);
        LinesAreShort(rest, at - 73);
        var i :| at - 73 <= i < at - 73 + 73 && Lines(rest)[i] == LF;
        assert Lines(text)[i + 73] == LF;
      }
    } else {
      assert false;
    }
  }

  lemma FirstLine(text: seq<Byte>)
    requires |text| >= 72
    ensures Lines(text) == text[..72] + NEWLINE + Lines(text[72..])
  {
    assert |text| % 72 == |text[72..]| % 72;
  }

  lemma LinesLength(text: seq<Byte>)
    ensures |Lines(text)| == 0 <==> text == []
  {
    BrokenLength(text);
  }

  /** Lines break after every 72 symbols, and nowhere else but at the end. */
  lemma {:induction false} LineFeedsExactlyAt(text: seq<Byte>, i: nat)
    requires LF !in text && i < |Lines(text)|
    ensures Lines(text)[i] == LF <==> i % 73 == 72 || i == |Lines(text)| - 1
  {
    if |text| < 72 {
    } else {
      FirstLine(text);
      hide Lines;
      if i > 72 {
        LineFeedsExactlyAt(text[72..], i - 73);
      } else {
        LinesLength(text[72..]);
      }
    }
  }

  // ------------------------------------------------------------------ back and there

  /** The first block with a pad, if any, has at most two. */
  predicate PadsAllowed(kept: seq<Byte>) {
    |kept| >= 4 ==> if Pads(kept[..4]) == 0 then PadsAllowed(kept[4..]) else Pads(kept[..4]) <= 2
  }

  lemma {:induction false} DecodesExactlyWhen(src: seq<Byte>)
    ensures Decoded(src).Some? <==> |Kept(src)| > 0 && |Kept(src)| % 4 == 0 && PadsAllowed(Kept(src))
  {
    BlocksExactlyWhen(Kept(src));
  }

  lemma {:induction false} BlocksExactlyWhen(kept: seq<Byte>)
    ensures Blocks(kept).Some? <==> PadsAllowed(kept)
  {
    if |kept| >= 4 {
      BlocksExactlyWhen(kept[4..]);
    }
  }

  /** Text the encoder could have made: pads only at the very end, with no bits lost in front of them. */
  predicate Canonical(kept: seq<Byte>) {
    || kept == []
    || (|kept| == 4 && kept[3] == PAD && Pads(kept) == 1 && Value(kept[2]) & 3 == 0)
    || (|kept| == 4 && kept[2] == PAD && kept[3] == PAD && Pads(kept) == 2 && Value(kept[1]) & 15 == 0)
    || (|kept| >= 4 && Pads(kept[..4]) == 0 && Canonical(kept[4..]))
  }

  lemma FullOfBits(v0: Byte, v1: Byte, v2: Byte, v3: Byte)
    requires v0 < 64 && v1 < 64 && v2 < 64 && v3 < 64
    ensures Full(Byte0(v0, v1), Byte1(v1, v2), Byte2(v2, v3)) == [Symbol(v0), Symbol(v1), Symbol(v2), Symbol(v3)]
  {
    hide Symbol;
  }

  lemma TwoOfBits(v0: Byte, v1: Byte, v2: Byte)
    requires v0 < 64 && v1 < 64 && v2 < 64
    ensures Two(Byte0(v0, v1), Byte1(v1, v2)) == [Symbol(v0), Symbol(v1), Symbol(v2 & 60), PAD]
    ensures v2 & 60 == v2 <==> v2 & 3 == 0
  {
    hide Symbol;
  }

  lemma OneOfBits(v0: Byte, v1: Byte)
    requires v0 < 64 && v1 < 64
    ensures One(Byte0(v0, v1)) == [Symbol(v0), Symbol(v1 & 48), PAD, PAD]
    ensures v1 & 48 == v1 <==> v1 & 15 == 0
  {
    hide Symbol;
  }

  lemma FullEncodes(q: seq<Byte>)
    requires |q| == 4 && Pads(q) == 0 && forall i :: 0 <= i < 4 ==> Value(q[i]) != OUTSIDE
    ensures Full(Bits(q)[0], Bits(q)[1], Bits(q)[2]) == q
  {
    hide Value, Symbol, Full, Byte0, Byte1, Byte2;
    ValuesHaveSymbols(q[0]);
    ValuesHaveSymbols(q[1]);
    ValuesHaveSymbols(q[2]);
    ValuesHaveSymbols(q[3]);
    FullOfBits(Value(q[0]), Value(q[1]), Value(q[2]), Value(q[3]));
    assert q == [q[0], q[1], q[2], q[3]];
  }

  lemma TwoEncodes(q: seq<Byte>)
    requires |q| == 4 && Pads(q) == 1 && forall i :: 0 <= i < 4 ==> Value(q[i]) != OUTSIDE
    ensures Two(Bits(q)[0], Bits(q)[1]) == q <==> q[3] == PAD && Value(q[2]) & 3 == 0
  {
    hide Value, Symbol, Two, Byte0, Byte1, Byte2;
    if q[3] == PAD {
      ValuesHaveSymbols(q[0]);
      ValuesHaveSymbols(q[1]);
      ValuesHaveSymbols(q[2]);
      TwoOfBits(Value(q[0]), Value(q[1]), Value(q[2]));
      SymbolsHaveValues(Value(q[2]) & 60);
      assert q == [q[0], q[1], q[2], q[3]];
    } else {
      LastIsPad(Bits(q)[0], Bits(q)[1]);
    }
  }

  lemma LastIsPad(a: Byte, b: Byte)
    ensures Two(a, b)[3] == PAD && One(a)[3] == PAD && One(a)[2] == PAD
  {
  }

  lemma OneEncodes(q: seq<Byte>)
    requires |q| == 4 && Pads(q) == 2 && forall i :: 0 <= i < 4 ==> Value(q[i]) != OUTSIDE
    ensures One(Bits(q)[0]) == q <==> q[2] == PAD && q[3] == PAD && Value(q[1]) & 15 == 0
  {
    hide Value, Symbol, One, Byte0, Byte1, Byte2;
    if q[2] == PAD && q[3] == PAD {
      ValuesHaveSymbols(q[0]);
      ValuesHaveSymbols(q[1]);
      OneOfBits(Value(q[0]), Value(q[1]));
      SymbolsHaveValues(Value(q[1]) & 48);
      assert q == [q[0], q[1], q[2], q[3]];
    } else {
      LastIsPad(Bits(q)[0], 0);
    }
  }

  /** Encoding what was decoded gives the same symbols exactly when they were canonical. */
  lemma {:induction false} EncodeUndoesDecodeExactlyWhen(kept: seq<Byte>)
    requires |kept| % 4 == 0 && Blocks(kept).Some?
    requires forall i :: 0 <= i < |kept| ==> Value(kept[i]) != OUTSIDE
    ensures Encoded(Blocks(kept).value) == kept <==> Canonical(kept)
  {
    hide Full, Two, One, Bits, Value;
    if kept != [] {
      var q, rest := kept[..4], kept[4..];
      assert kept == q + rest;
      assert |kept| == 4 ==> kept == q;
      if Pads(q) == 0 {
        FullEncodes(q);
        EncodeUndoesDecodeExactlyWhen(rest);
        var y := Blocks(kept).value;
        assert y[3..] == Blocks(rest).value;
        assert Encoded(y) == q + Encoded(Blocks(rest).value);
        assert Encoded(y)[4..] == Encoded(Blocks(rest).value);
      } else if Pads(q) == 1 {
        TwoEncodes(q);
      } else {
        OneEncodes(q);
      }
    }
  }

  /** `AB==` decodes to a zero byte, whose encoding is `AA==`: the four low bits of the `B` were dropped. */
  lemma DecodesToOtherText()
    ensures Decoded([65, 66, PAD, PAD]) == Some([0]) && Encoded([0]) == [65, 65, PAD, PAD]
  {
    AllKept([65, 66, PAD, PAD]);
    assert [65, 66, PAD, PAD][..4] == [65, 66, PAD, PAD];
    assert Bits([65, 66, PAD, PAD])[..1] == [0];
  }
}
