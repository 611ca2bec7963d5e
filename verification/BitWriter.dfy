/** df_bits and df_align: bits packed into bytes through a small buffer, after bytes already there. */
module BitWriter {
  import opened Bits
  import opened Stream

  /** The oldest eight bits of the buffer make a byte. */
  lemma {:induction false} ByteOut(s: seq<byte>, v: nat, n: nat)
    requires n >= 8 && v < Pow2(n)
    ensures Mask(v, 8) < 256 && Shr(v, 8) < Pow2(n - 8)
    ensures Unpack(s + [Mask(v, 8)]) + Low(Shr(v, 8), n - 8) == Unpack(s) + Low(v, n)
  {
    hide Mask, Shr, Low, Unpack;
    MaskByte(v);
    ShrBound(v, 8, n - 8);
    LowSplit(v, 8, n - 8);
    LowMask(v, 8);
    UnpackSnoc(s, Mask(v, 8));
  }

  lemma {:induction false} MaskByte(v: nat)
    ensures Mask(v, 8) < 256
  {
    hide Mask;
    Pow2Values();
    assert Mask(v, 8) < Pow2(8) by { MaskBound(v, 8); }
  }

  lemma {:induction false} MaskBound(v: nat, n: nat)
    ensures Mask(v, n) < Pow2(n)
  {
  }

  /** New bits go above those in hand. */
  lemma {:induction false} BitsIn(buf: nat, cnt: nat, v: nat, n: nat)
    requires buf < Pow2(cnt)
    ensures Or(buf, Shl(Mask(v, n), cnt)) < Pow2(cnt + n)
    ensures Low(Or(buf, Shl(Mask(v, n), cnt)), cnt + n) == Low(buf, cnt) + Low(v, n)
  {
    hide Or, Low, Mask, Shl;
    MaskBound(v, n);
    ShlIs(Mask(v, n), cnt);
    OrJoin(buf, cnt, Mask(v, n), n);
    LowMask(v, n);
  }

  lemma {:induction false} FitsWord(v: nat, cnt: nat)
    requires v < Pow2(cnt) && cnt <= 32
    ensures v < 0x1_0000_0000
  {
    Pow2Mono(cnt, 32);
    assert Pow2(32) == 0x1_0000_0000 by { Pow2Values(); Pow2Add(16, 16); }
  }

  class BitWriter {
    ghost const base: seq<byte>
    var out: seq<byte>
    var bitbuf: uint32
    var bitcnt: nat

    constructor (out: seq<byte>)
      ensures Valid() && base == out == this.out && bitcnt == 0 && Stream() == []
    {
      base := out;
      this.out := out;
      bitbuf := 0;
      bitcnt := 0;
    }

    ghost predicate Valid()
      reads this
    {
      base <= out && bitcnt < 8 && bitbuf < Pow2(bitcnt)
    }

    /** The bits written so far, those still in the buffer included. */
    ghost function Stream(): seq<bool>
      requires base <= out
      reads this
    {
      Unpack(out[|base|..]) + Low(bitbuf, bitcnt)
    }

    /** One whole byte leaves the buffer. */
    method FlushByte()
      requires base <= out && 8 <= bitcnt <= 32 && bitbuf < Pow2(bitcnt)
      modifies this
      ensures base <= out && bitcnt == old(bitcnt) - 8 && bitbuf < Pow2(bitcnt) && Stream() == old(Stream())
    {
      hide Unpack, Low, Mask, Shr;
      ByteOut(out[|base|..], bitbuf, bitcnt);
      FitsWord(Shr(bitbuf, 8), bitcnt - 8);
      assert (out + [Mask(bitbuf, 8)])[|base|..] == out[|base|..] + [Mask(bitbuf, 8)];
      out := out + [Mask(bitbuf, 8)];
      bitbuf := Shr(bitbuf, 8);
      bitcnt := bitcnt - 8;
    }

    /** Whole bytes leave the buffer. */
    method Flush()
      requires base <= out && bitcnt <= 32 && bitbuf < Pow2(bitcnt)
      modifies this
      ensures Valid() && Stream() == old(Stream()) && bitcnt == old(bitcnt) % 8
    {
      hide Unpack, Low, Pow2;
      while bitcnt >= 8
        invariant base <= out && bitcnt <= 32 && bitbuf < Pow2(bitcnt)
        invariant Stream() == old(Stream()) && bitcnt % 8 == old(bitcnt) % 8
      {
        FlushByte();
      }
    }

    /** df_bits: the low `n` bits of `v`, least significant first. */
    method PutBits(v: nat, n: nat)
      requires Valid() && n <= 16
      modifies this
      ensures Valid() && Stream() == old(Stream()) + Low(v, n) && bitcnt == (old(bitcnt) + n) % 8
    {
      hide Unpack, Low, Or, Mask, Shl;
      BitsIn(bitbuf, bitcnt, v, n);
      FitsWord(Or(bitbuf, Shl(Mask(v, n), bitcnt)), bitcnt + n);
      bitbuf := Or(bitbuf, Shl(Mask(v, n), bitcnt));
      bitcnt := bitcnt + n;
      Flush();
    }

    /** df_align: zero bits up to a byte boundary. */
    method Align()
      requires Valid()
      modifies this
      ensures Valid() && Stream() == old(Stream()) + Pad(|old(Stream())|) && bitcnt == 0
    {
      hide Pad;
      PadIs(|out[|base|..]|, bitcnt);
      if bitcnt > 0 { PutBits(0, 8 - bitcnt); }
    }

    /** s_ch, once the buffer is empty. */
    method PutByte(b: byte)
      requires Valid() && bitcnt == 0
      modifies this
      ensures Valid() && bitcnt == 0 && Stream() == old(Stream()) + Unpack([b])
    {
      hide Low;
      PutBytes([b]);
    }

    /** s_add. */
    method PutBytes(s: seq<byte>)
      requires Valid() && bitcnt == 0
      modifies this
      ensures Valid() && bitcnt == 0 && Stream() == old(Stream()) + Unpack(s)
    {
      hide Unpack;
      UnpackConcat(out[|base|..], s);
      assert (out + s)[|base|..] == out[|base|..] + s;
      out := out + s;
    }
  }

  lemma {:induction false} PadIs(n: nat, c: nat)
    requires c < 8
    ensures Pad(8 * n + c) == if c == 0 then [] else Low(0, 8 - c)
  {
    hide Low;
    assert (8 * n + c) % 8 == c;
    assert Low(0, 0) == [];
  }
}
