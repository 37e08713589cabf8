/** The loops over buffers, proved against what base64 text is. */
module Base64Codec {
  import opened Arithmetic
  import opened Options
  import opened Base64Text

  // ------------------------------------------------------------------ encoding

  /** With `lines` full lines and `lineLen` symbols on the next, there is room for more. */
  lemma Fits(len: nat, e: nat, lines: nat, lineLen: nat)
    requires e <= (len + 2) / 3 * 4 && e == 72 * lines + lineLen && lineLen < 72
    ensures e + lines + 1 < Room(len)
  {
    SymbolsFit(len, (len + 2) / 3 * 4);
    assert e / 72 == lines;
  }

  lemma Nothing(src: seq<Byte>)
    ensures Encoded(src[..0]) == [] && Broken([]) == []
  {
  }

  /** Three more bytes are four more symbols. */
  lemma ThreeMore(src: seq<Byte>, at: nat)
    requires at % 3 == 0 && at + 3 <= |src|
    ensures Encoded(src[..at + 3]) == Encoded(src[..at]) + Full(src[at], src[at + 1], src[at + 2])
  {
    var more := [src[at], src[at + 1], src[at + 2]];
    assert src[..at + 3] == src[..at] + more;
    EncodedAppend(src[..at], more);
    assert Encoded(more) == Full(src[at], src[at + 1], src[at + 2]) + Encoded(more[3..]);
  }

  /** One or two bytes at the end are four more symbols too. */
  lemma Rest(src: seq<Byte>, at: nat)
    requires at % 3 == 0 && at < |src| < at + 3
    ensures Encoded(src) == Encoded(src[..at]) + if |src| == at + 1 then One(src[at]) else Two(src[at], src[at + 1])
  {
    hide One, Two, Full;
    var rest := src[at..];
    assert rest[0] == src[at] && (|rest| == 2 ==> rest[1] == src[at + 1]);
    assert Encoded(rest) == if |rest| == 1 then One(rest[0]) else Two(rest[0], rest[1]);
    hide Encoded;
    EncodedAppend(src[..at], rest);
    assert src == src[..at] + rest;
  }

  lemma LineEnd(n: nat, lines: nat, lineLen: nat)
    requires n == 72 * lines + lineLen && lineLen < 72
    ensures n % 72 == lineLen
  {
    DivModUnique(n, 72, lines, lineLen);
  }

  /** A started line is ended. */
  lemma Started(text: seq<Byte>, lines: nat, lineLen: nat)
    requires |text| == 72 * lines + lineLen && lineLen < 72
    ensures lineLen == 0 ==> Lines(text) == Broken(text)
    ensures lineLen != 0 ==> Lines(text) == Broken(text) + NEWLINE
  {
    hide Broken;
    LineEnd(|text|, lines, lineLen);
    assert Broken(text) + [] == Broken(text);
  }

  /** The last group of four ends its line, full or not. */
  lemma LastFour(text: seq<Byte>, q: seq<Byte>, lines: nat, lineLen: nat)
    requires |text| == 72 * lines + lineLen && lineLen <= 68 && |q| == 4
    ensures Lines(text + q) == (Broken(text) + q) + NEWLINE
  {
    hide Broken, Lines;
    BrokenAppend(text, q, lines, lineLen);
    if lineLen == 68 {
      Started(text + q, lines + 1, 0);
      assert Broken(text) + (q + NEWLINE) == (Broken(text) + q) + NEWLINE;
    } else {
      Started(text + q, lines, lineLen + 4);
    }
  }

  /** Four symbols that end their line. */
  lemma FullLine(text: seq<Byte>, q: seq<Byte>, lines: nat)
    requires |text| == 72 * lines + 68 && |q| == 4
    ensures Broken(text + q) == (Broken(text) + q) + NEWLINE
  {
    hide Broken;
    BrokenAppend(text, q, lines, 68);
    assert Broken(text) + (q + NEWLINE) == (Broken(text) + q) + NEWLINE;
  }

  lemma FullIs(a: Byte, b: Byte, c: Byte)
    ensures Full(a, b, c) == [Symbol(a >> 2), Symbol(((a & 3) << 4) | (b >> 4)), Symbol(((b & 15) << 2) | (c >> 6)),
      Symbol(c & 63)]
  {
  }

  lemma TwoIs(a: Byte, b: Byte)
    ensures Two(a, b) == [Symbol(a >> 2), Symbol(((a & 3) << 4) | (b >> 4)), Symbol((b & 15) << 2), PAD]
  {
  }

  lemma OneIs(a: Byte)
    ensures One(a) == [Symbol(a >> 2), Symbol((a & 3) << 4), PAD, PAD]
  {
  }

  /** Stores four bytes and steps past them. */
  method PutFour(out: array<Byte>, pos: nat, c0: Byte, c1: Byte, c2: Byte, c3: Byte) returns (next: nat)
    requires pos + 4 <= out.Length
    modifies out
    ensures next == pos + 4 && out[..next] == old(out[..pos]) + [c0, c1, c2, c3]
  {
    out[pos] := c0;
    out[pos + 1] := c1;
    out[pos + 2] := c2;
    out[pos + 3] := c3;
    next := pos + 4;
  }

  /** Stores a byte and steps past it. */
  method Put(out: array<Byte>, pos: nat, c: Byte) returns (next: nat)
    requires pos < out.Length
    modifies out
    ensures next == pos + 1 && out[..next] == old(out[..pos]) + [c]
  {
    out[pos] := c;
    next := pos + 1;
  }

  /** After the groups of the first `at` bytes: `pos` bytes are stored, with `lines` lines ended. */
  ghost predicate Stored(src: seq<Byte>, out: seq<Byte>, at: nat, pos: nat, lines: nat, lineLen: nat) {
    && at <= |src| && at % 3 == 0
    && 3 * |Encoded(src[..at])| == 4 * at
    && lineLen < 72 && lineLen % 4 == 0 && |Encoded(src[..at])| == 72 * lines + lineLen
    && pos == |Encoded(src[..at])| + lines && pos < |out|
    && out[..pos] == Broken(Encoded(src[..at]))
  }

  /** The loop over groups of three. */
  method StoreGroups(src: array<Byte>, out: array<Byte>) returns (at: nat, pos: nat, lineLen: nat, ghost lines: nat)
    requires src != out && out.Length == Room(src.Length)
    modifies out
    ensures Stored(src[..], out[..], at, pos, lines, lineLen) && src.Length < at + 3
  {
    hide Room, Encoded, Broken, Symbol, Full;
    var len := src.Length;
    ghost var all := src[..];
    at, pos, lineLen, lines := 0, 0, 0, 0;
    ghost var text: seq<Byte> := [];
    Nothing(all);
    Fits(len, 0, 0, 0);
    while len - at >= 3
      invariant 0 <= at <= len && at % 3 == 0
      invariant text == Encoded(all[..at]) && 3 * |text| == 4 * at
      invariant 0 <= lineLen < 72 && lineLen % 4 == 0 && |text| == 72 * lines + lineLen
      invariant pos == |text| + lines && pos + 1 < out.Length
      invariant out[..pos] == Broken(text)
    {
      var in0, in1, in2 := src[at], src[at + 1], src[at + 2];
      ghost var q := Full(in0, in1, in2);
      FullIs(in0, in1, in2);
      ThreeMore(all, at);
      Fits(len, |text| + 4, if lineLen == 68 then lines + 1 else lines, if lineLen == 68 then 0 else lineLen + 4);
      pos := PutFour(out, pos,
        Symbol(in0 >> 2),
        Symbol(((in0 & 3) << 4) | (in1 >> 4)),
        Symbol(((in1 & 15) << 2) | (in2 >> 6)),
        Symbol(in2 & 63));
      assert out[..pos] == Broken(text) + q;
      at := at + 3;
      lineLen := lineLen + 4;
      if lineLen >= 72 {
        FullLine(text, q, lines);
        pos := Put(out, pos, LF);
        lineLen := 0;
        lines := lines + 1;
      } else {
        BrokenAppend(text, q, lines, lineLen - 4);
      }
      text := text + q;
    }
    assert out[..][..pos] == out[..pos];
  }

  /** The one or two bytes that are left, and the end of the last line. */
  method StoreRest(src: array<Byte>, out: array<Byte>, at: nat, at0: nat, lineLen0: nat, ghost lines: nat)
      returns (pos: nat)
    requires src != out && out.Length == Room(src.Length)
    requires Stored(src[..], out[..], at, at0, lines, lineLen0) && src.Length < at + 3
    modifies out
    ensures pos < out.Length && out[..pos] == Lines(Encoded(src[..]))
  {
    hide Room, Encoded, Broken, Symbol, Lines, One, Two;
    var len, lineLen := src.Length, lineLen0;
    pos := at0;
    ghost var all, text := src[..], Encoded(src[..at]);
    assert all[..at] == src[..at] && out[..][..pos] == out[..pos];
    if len - at > 0 {
      Rest(all, at);
      Fits(len, |text| + 4, if lineLen == 68 then lines + 1 else lines, if lineLen == 68 then 0 else lineLen + 4);
      if len - at == 1 {
        var in0 := src[at];
        LastFour(text, One(in0), lines, lineLen);
        OneIs(in0);
        pos := PutFour(out, pos, Symbol(in0 >> 2), Symbol((in0 & 3) << 4), PAD, PAD);
        assert out[..pos] + NEWLINE == Lines(Encoded(all));
      } else {
        var in0, in1 := src[at], src[at + 1];
        LastFour(text, Two(in0, in1), lines, lineLen);
        TwoIs(in0, in1);
        pos := PutFour(out, pos, Symbol(in0 >> 2), Symbol(((in0 & 3) << 4) | (in1 >> 4)), Symbol((in1 & 15) << 2), PAD);
        assert out[..pos] + NEWLINE == Lines(Encoded(all));
      }
      lineLen := lineLen + 4;
    } else {
      assert all[..at] == all;
      Fits(len, |text|, lines, lineLen);
      Started(text, lines, lineLen);
    }
    if lineLen != 0 {
      pos := Put(out, pos, LF);
    }
  }

  /**
    `width` is the number of values of `size_t`; `granted` says whether the allocation succeeds.
    The result is the buffer and how much of it is text; a zero byte follows the text.
    */
  method Encode(src: array<Byte>, width: nat, granted: bool) returns (out: array?<Byte>, outLen: nat)
    requires 65536 <= width && src.Length < width
    ensures out == null <==> src.Length * 4 >= width || !granted
    ensures out != null ==> out.Length == Room(src.Length) && outLen < out.Length
    ensures out != null ==> out[..outLen] == Lines(Encoded(src[..])) && out[outLen] == 0
  {
    hide WrappedRoom, Room, Encoded, Lines, Stored;
    var olen := WrappedRoom(src.Length, width);
    OverflowIsFoundExactly(src.Length, width);
    if olen < src.Length || !granted {
      return null, 0;
    }
    out := new Byte[olen];
    ghost var all := src[..];
    var at, pos, lineLen, lines := StoreGroups(src, out);
    outLen := StoreRest(src, out, at, pos, lineLen, lines);
    assert src[..] == all;
    out[outLen] := 0;
    assert out[..outLen] == Lines(Encoded(all));
  }

  // ------------------------------------------------------------------ decoding

  /** The 256 entries, filled from the alphabet. */
  method Table() returns (dtable: array<Byte>)
    ensures dtable.Length == 256 && forall c: Byte :: dtable[c as int] == Value(c)
  {
    dtable := new Byte[256](_ => OUTSIDE);
    var v: Byte := 0;
    while v < 64
      invariant v <= 64
      invariant forall c: Byte :: dtable[c as int] == if Place(c) < v then Place(c) else OUTSIDE
      decreases 64 - v
    {
      dtable[Symbol(v) as int] := v;
      v := v + 1;
    }
    dtable[PAD as int] := 0;
  }

  /** Blocks without padding, decoded. */
  ghost function Plain(done: seq<Byte>): seq<Byte> {
    if |done| < 4 then [] else Bits(done[..4]) + Plain(done[4..])
  }

  ghost predicate PadFree(done: seq<Byte>) {
    forall i :: 0 <= i < |done| ==> done[i] != PAD
  }

  lemma {:induction false} PlainAppend(done: seq<Byte>, q: seq<Byte>)
    requires |done| % 4 == 0 && |q| == 4
    ensures Plain(done + q) == Plain(done) + Bits(q)
    ensures |Plain(done)| == |done| / 4 * 3
  {
    hide Bits;
    if done == [] {
      assert done + q == q && q[..4] == q;
    } else {
      PlainAppend(done[4..], q);
      assert (done + q)[..4] == done[..4] && (done + q)[4..] == done[4..] + q;
    }
  }

  /** Blocks without padding are passed; what follows decides. */
  lemma {:induction false} PassBlocks(done: seq<Byte>, rest: seq<Byte>)
    requires |done| % 4 == 0 && PadFree(done)
    ensures Blocks(done + rest) ==
      match Blocks(rest)
      case None => None
      case Some(y) => Some(Plain(done) + y)
  {
    hide Bits;
    if done == [] {
      assert done + rest == rest;
      if Blocks(rest).Some? {
        assert [] + Blocks(rest).value == Blocks(rest).value;
      }
    } else {
      PassBlocks(done[4..], rest);
      assert done[0] != PAD && done[1] != PAD && done[2] != PAD && done[3] != PAD;
      assert (done + rest)[..4] == done[..4] && (done + rest)[4..] == done[4..] + rest;
      if Blocks(rest).Some? {
        var y := Blocks(rest).value;
        assert Bits(done[..4]) + (Plain(done[4..]) + y) == (Bits(done[..4]) + Plain(done[4..])) + y;
      }
    }
  }

  lemma KeptStep(src: seq<Byte>, i: nat)
    requires i < |src|
    ensures Kept(src[..i + 1]) == Kept(src[..i]) + if Value(src[i]) == OUTSIDE then [] else [src[i]]
  {
    assert src[..i + 1] == src[..i] + [src[i]];
    KeptAppend(src[..i], [src[i]]);
    assert Kept([src[i]]) == if Value(src[i]) == OUTSIDE then [] else [src[i]] + Kept([]);
  }

  lemma KeptPrefix(src: seq<Byte>, i: nat)
    requires i <= |src|
    ensures Kept(src[..i]) <= Kept(src)
  {
    hide Kept;
    KeptAppend(src[..i], src[i..]);
    assert src == src[..i] + src[i..];
  }

  /** How many bytes the decoder looks at. */
  method CountKept(src: array<Byte>, dtable: array<Byte>) returns (count: nat)
    requires dtable.Length == 256 && forall c: Byte :: dtable[c as int] == Value(c)
    ensures count == |Kept(src[..])|
  {
    hide Kept, Value;
    count := 0;
    assert Kept(src[..0]) == [] by { NoneKept(src[..0]); }
    for i := 0 to src.Length
      invariant count == |Kept(src[..i])|
    {
      KeptStep(src[..], i);
      assert src[..][..i] == src[..i] && src[..][..i + 1] == src[..i + 1];
      if dtable[src[i] as int] != OUTSIDE {
        count := count + 1;
      }
    }
    assert src[..src.Length] == src[..];
  }

  /** Pads in a block so far. */
  ghost function PadsIn(q: seq<Byte>): nat
    requires |q| <= 4
  {
    (if |q| > 0 then Pad(q[0]) else 0) + (if |q| > 1 then Pad(q[1]) else 0)
    + (if |q| > 2 then Pad(q[2]) else 0) + if |q| > 3 then Pad(q[3]) else 0
  }

  /** The decoder part way: `done` are the blocks stored, `q` the block being filled. */
  ghost predicate Filling(kept: seq<Byte>, done: seq<Byte>, q: seq<Byte>, block: seq<Byte>, pad: nat) {
    && |done| % 4 == 0 && PadFree(done) && done + q <= kept
    && |q| <= |block| == 4 && (forall j :: 0 <= j < |q| ==> block[j] == Value(q[j]))
    && pad == PadsIn(q)
  }

  lemma Start(src: seq<Byte>, block: seq<Byte>)
    requires |block| == 4
    ensures Kept(src[..0]) == [] && Plain([]) == [] && Filling(Kept(src), [], [], block, 0)
  {
  }

  /** The buffer has room for the block. */
  lemma Room4(kept: seq<Byte>, done: seq<Byte>, q: seq<Byte>, block: seq<Byte>, pad: nat)
    requires Filling(kept, done, q, block, pad) && |q| == 4
    ensures |done| / 4 * 3 + 3 <= |kept| / 4 * 3
  {
    assert |done + q| <= |kept|;
  }

  lemma BitsOf(kept: seq<Byte>, done: seq<Byte>, q: seq<Byte>, block: seq<Byte>, pad: nat)
    requires Filling(kept, done, q, block, pad) && |q| == 4
    ensures |block| == 4
    ensures Bits(q) == [Byte0(block[0], block[1]), Byte1(block[1], block[2]), Byte2(block[2], block[3])]
  {
  }

  /** Stores three bytes and steps past them. */
  method PutThree(out: array<Byte>, pos: nat, c0: Byte, c1: Byte, c2: Byte) returns (next: nat)
    requires pos + 3 <= out.Length
    modifies out
    ensures next == pos + 3 && out[..next] == old(out[..pos]) + [c0, c1, c2]
  {
    out[pos] := c0;
    out[pos + 1] := c1;
    out[pos + 2] := c2;
    next := pos + 3;
  }

  lemma OneMore(kept: seq<Byte>, done: seq<Byte>, q: seq<Byte>, block: seq<Byte>, pad: nat, c: Byte)
    requires Filling(kept, done, q, block, pad) && |q| < 4 && done + q + [c] <= kept
    ensures Filling(kept, done, q + [c], block[|q| := Value(c)], pad + Pad(c))
  {
    assert done + q + [c] == done + (q + [c]);
  }

  /** A block without pads joins those that are done. */
  lemma BlockDone(kept: seq<Byte>, done: seq<Byte>, q: seq<Byte>, block: seq<Byte>)
    requires Filling(kept, done, q, block, 0) && |q| == 4
    ensures Filling(kept, done + q, [], block, 0)
    ensures Plain(done + q) == Plain(done) + Bits(q) && |Plain(done)| == |done| / 4 * 3
  {
    hide Bits, Plain;
    PlainAppend(done, q);
    assert done + q + [] == done + q;
    assert q[0] != PAD && q[1] != PAD && q[2] != PAD && q[3] != PAD;
  }

  /** A block with pads is the last that is looked at; its last bytes are taken back. */
  lemma BlockPadded(kept: seq<Byte>, done: seq<Byte>, q: seq<Byte>, block: seq<Byte>, pad: nat, stored: seq<Byte>)
    requires Filling(kept, done, q, block, pad) && |q| == 4 && pad > 0 && stored == Plain(done) + Bits(q)
    ensures Blocks(kept) == if pad <= 2 then Some(stored[..|stored| - pad]) else None
  {
    hide Bits, Plain;
    var rest := kept[|done|..];
    assert kept == done + rest;
    assert rest[..4] == q;
    PassBlocks(done, rest);
    if pad <= 2 {
      assert stored[..|stored| - pad] == Plain(done) + Bits(q)[..3 - pad];
    }
  }

  /** All blocks done, none with pads: everything is stored. */
  lemma NonePadded(kept: seq<Byte>, done: seq<Byte>, q: seq<Byte>, block: seq<Byte>, pad: nat)
    requires Filling(kept, done, q, block, pad) && kept == done + q && |q| < 4 && |kept| % 4 == 0
    ensures Blocks(kept) == Some(Plain(done))
  {
    hide PadFree, Blocks;
    assert q == [];
    PassBlocks(done, []);
    BlocksOfNothing();
    assert done + [] == done && Plain(done) + [] == Plain(done);
  }

  lemma BlocksOfNothing()
    ensures Blocks([]) == Some([])
  {
  }

  /** Stores a full block as three bytes, and takes back one for each of one or two pads. */
  method StoreBlock(block: array<Byte>, out: array<Byte>, at: nat, pad: nat, ghost kept: seq<Byte>,
      ghost done: seq<Byte>, ghost q: seq<Byte>)
      returns (pos: nat)
    requires block != out && block.Length == 4 && |q| == 4 && Filling(kept, done, q, block[..], pad)
    requires out.Length == |kept| / 4 * 3 && at == |done| / 4 * 3 && at <= out.Length && out[..at] == Plain(done)
    modifies out
    ensures pos <= out.Length
    ensures pad == 0 ==> pos == |done + q| / 4 * 3 && out[..pos] == Plain(done + q)
    ensures pad == 0 ==> Filling(kept, done + q, [], block[..], 0)
    ensures pad > 0 ==> Blocks(kept) == if pad <= 2 then Some(out[..pos]) else None
  {
    hide Plain, PadFree, Filling, Bits, Blocks, Byte0, Byte1, Byte2;
    Room4(kept, done, q, block[..], pad);
    BitsOf(kept, done, q, block[..], pad);
    pos := PutThree(out, at, Byte0(block[0], block[1]), Byte1(block[1], block[2]), Byte2(block[2], block[3]));
    if pad == 0 {
      BlockDone(kept, done, q, block[..]);
    } else {
      BlockPadded(kept, done, q, block[..], pad, out[..pos]);
      if pad <= 2 {
        pos := pos - pad;
        assert out[..pos] == out[..pos + pad][..pos];
      }
    }
  }

  /**
    The second loop. `out` has three bytes for each block of `kept`, and that is enough even for
    the bytes of a padded block that are taken back.
    */
  method StoreBlocks(src: array<Byte>, dtable: array<Byte>, out: array<Byte>) returns (ok: bool, pos: nat)
    requires dtable.Length == 256 && forall c: Byte :: dtable[c as int] == Value(c)
    requires out != src && out != dtable
    requires |Kept(src[..])| % 4 == 0 && out.Length == |Kept(src[..])| / 4 * 3
    modifies out
    ensures ok <==> Blocks(Kept(src[..])).Some?
    ensures ok ==> pos <= out.Length && Blocks(Kept(src[..])) == Some(out[..pos])
  {
    hide Kept, Value, Blocks, Plain, PadFree, Filling, Bits, Byte0, Byte1, Byte2;
    var block := new Byte[4];
    var count, pad := 0, 0;
    pos := 0;
    ghost var all, kept := src[..], Kept(src[..]);
    ghost var done: seq<Byte>, q: seq<Byte> := [], [];
    Start(all, block[..]);
    for i := 0 to src.Length
      invariant src[..] == all && (forall c: Byte :: dtable[c as int] == Value(c))
      invariant count == |q| < 4
      invariant Kept(all[..i]) == done + q && Filling(kept, done, q, block[..], pad)
      invariant pos == |done| / 4 * 3 && pos <= out.Length
      invariant out[..pos] == Plain(done)
    {
      var c := src[i];
      KeptStep(all, i);
      KeptPrefix(all, i + 1);
      var tmp := dtable[c as int];
      if tmp != OUTSIDE {
        OneMore(kept, done, q, block[..], pad, c);
        if c == PAD {
          pad := pad + 1;
        }
        ghost var was := block[..];
        block[count] := tmp;
        assert block[..] == was[count := tmp];
        count := count + 1;
        q := q + [c];
        if count == 4 {
          pos := StoreBlock(block, out, pos, pad, kept, done, q);
          if pad > 0 {
            return pad <= 2, pos;
          }
          count := 0;
          done, q := done + q, [];
        }
      }
    }
    assert all[..src.Length] == all;
    NonePadded(kept, done, q, block[..], pad);
    ok := true;
  }

  /** The whole decoder: the text's meaning, or no buffer. */
  method Decode(src: array<Byte>, granted: bool) returns (out: array?<Byte>, outLen: nat)
    ensures out != null ==> granted && outLen <= out.Length && Decoded(src[..]) == Some(out[..outLen])
    ensures out == null ==> !granted || Decoded(src[..]) == None
  {
    hide Kept, Blocks;
    ghost var all := src[..];
    var dtable := Table();
    var count := CountKept(src, dtable);
    if count == 0 || count % 4 != 0 || !granted {
      return null, 0;
    }
    out := new Byte[count / 4 * 3];
    var ok, pos := StoreBlocks(src, dtable, out);
    assert src[..] == all;
    if !ok {
      return null, 0;
    }
    outLen := pos;
  }
}
