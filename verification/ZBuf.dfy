/**
 The decoder state and its bit buffer (3rd_party/imageHelper/stb_image.h:3940-4028): bytes are
 prefetched into an integer from which bits are taken least significant first.
 */
module ZBuf {
  import opened Wrappers
  import opened BitStream
  import opened CanonicalCode
  import opened ZHuffman
  import opened InflateSpec

  class ZBuf {
    const zbuffer: seq<byte>
    /** The read pointer; it stays at the end of the input when zero bytes are handed out instead. */
    var zpos: nat
    /**
     How many bytes, those zeros included, went into the bit buffer or were read directly; not a field of the C struct,
     where reading goes on past the end for ever.
     */
    var fetched: nat
    var num_bits: nat
    var code_buffer: nat

    var zstart: array<byte>
    var zout: nat
    const z_expandable: bool

    const z_length: Huffman
    const z_distance: Huffman

    constructor (data: seq<byte>, obuf: array<byte>, expandable: bool)
      ensures zbuffer == data && zpos == 0 && fetched == 0 && num_bits == 0 && code_buffer == 0
      ensures zstart == obuf && zout == 0 && z_expandable == expandable
      ensures z_length != z_distance && fresh(z_length) && fresh(z_distance)
    {
      zbuffer, zpos, fetched, num_bits, code_buffer := data, 0, 0, 0, 0;
      zstart, zout, z_expandable := obuf, 0, expandable;
      z_length := new Huffman();
      z_distance := new Huffman();
    }

    /** The bit buffer holds exactly the next num_bits bits of the stream. */
    ghost predicate BitsValid()
      reads this
    {
      && num_bits <= 32 && num_bits <= 8 * fetched
      && zpos == (if fetched <= |zbuffer| then fetched else |zbuffer|)
      && code_buffer == Low(zbuffer, 8 * fetched - num_bits, num_bits)
    }

    /** The position of the next unread bit. */
    function BitPos(): (p: nat)
      requires num_bits <= 8 * fetched
      reads this
    {
      8 * fetched - num_bits
    }

    /** What has been written so far. */
    ghost function Output(): seq<byte>
      requires zout <= zstart.Length
      reads this, zstart
    {
      zstart[..zout]
    }

    /** The most bytes that can be written. */
    ghost function Cap(): Option<nat>
      reads this
    {
      if z_expandable then None else Some(zstart.Length)
    }

    ghost predicate Valid()
      reads this
    {
      BitsValid() && zout <= zstart.Length && zstart.Length > 0
    }

    /** The next byte, or 0 at the end. */
    method Zget8() returns (b: byte)
      requires zpos == (if fetched <= |zbuffer| then fetched else |zbuffer|)
      modifies this`zpos, this`fetched
      ensures b == ByteAt(zbuffer, old(fetched)) && fetched == old(fetched) + 1
      ensures zpos == (if fetched <= |zbuffer| then fetched else |zbuffer|)
    {
      fetched := fetched + 1;
      if zpos >= |zbuffer| {
        return 0;
      }
      b := zbuffer[zpos];
      zpos := zpos + 1;
    }

    /** One byte into the bit buffer. */
    method FillByte()
      requires BitsValid() && num_bits <= 24
      modifies this`zpos, this`fetched, this`num_bits, this`code_buffer
      ensures BitsValid() && BitPos() == old(BitPos()) && num_bits == old(num_bits) + 8
    {
      ghost var p := BitPos();
      var b := Zget8();
      FillValue(zbuffer, p, num_bits, fetched - 1, b);
      code_buffer := code_buffer + ShiftLeft(b, num_bits);
      num_bits := num_bits + 8;
    }

    /** Tops up the bit buffer to more than 24 bits without moving in the stream. */
    method FillBits()
      requires BitsValid() && num_bits <= 24
      modifies this`zpos, this`fetched, this`num_bits, this`code_buffer
      ensures BitsValid() && BitPos() == old(BitPos()) && num_bits > 24
    {
      FillByte();
      while num_bits <= 24
        invariant BitsValid() && BitPos() == old(BitPos())
        decreases 32 - num_bits
      {
        FillByte();
      }
    }

    /** Drops s bits. */
    method Consume(s: nat)
      requires BitsValid() && s <= num_bits
      modifies this`num_bits, this`code_buffer
      ensures BitsValid() && BitPos() == old(BitPos()) + s && num_bits == old(num_bits) - s
    {
      LowMaskShift(zbuffer, BitPos(), s, num_bits);
      code_buffer := ShiftRight(code_buffer, s);
      num_bits := num_bits - s;
    }

    /** The next n bits as a number. */
    method Zreceive(n: nat) returns (k: nat)
      requires BitsValid() && n <= 24
      modifies this`zpos, this`fetched, this`num_bits, this`code_buffer
      ensures BitsValid() && BitPos() == old(BitPos()) + n
      ensures k == Low(zbuffer, old(BitPos()), n)
      ensures old(num_bits) >= n ==> num_bits == old(num_bits) - n && fetched == old(fetched)
    {
      if num_bits < n {
        FillBits();
      }
      k := Mask(code_buffer, n);
      LowMaskShift(zbuffer, BitPos(), n, num_bits);
      Consume(n);
    }
  }
}
