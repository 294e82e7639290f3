/**
  CRC-32 (ngx_crc32.h and ngx_crc32.c): the form with the table of 16 entries, the one
  with the table of 256 and the incremental one, against the bit-by-bit division by the
  polynomial of Annex D of the PNG specification, with the bits reflected.
*/
module Crc32 {
  import opened Bytes

  type Octet = bv8
  type Word = bv32

  const POLYNOMIAL: Word := 0xedb88320
  const ONES: Word := 0xffffffff

  // ------------------------------------------------------ bit by bit

  function Xor(x: Word, y: Word): Word {
    x ^ y
  }

  predicate Odd(c: Word) {
    c & 1 == 1
  }

  function Shift1(c: Word): Word {
    c >> 1
  }

  function Shift4(c: Word): Word {
    c >> 4
  }

  function Shift8(c: Word): Word {
    c >> 8
  }

  function Mask(c: Word, mask: Word): Word {
    c & mask
  }

  function Wide(b: Octet): Word {
    b as bv32
  }

  /** One bit is shifted out. */
  function Bit(c: Word): Word {
    if Odd(c) then Xor(Shift1(c), POLYNOMIAL) else Shift1(c)
  }

  function Bits4(c: Word): Word {
    Bit(Bit(Bit(Bit(c))))
  }

  function Bits8(c: Word): Word {
    Bits4(Bits4(c))
  }

  /** The register after the bytes of `data`. */
  function Divide(c: Word, data: seq<Octet>): Word
    decreases |data|
  {
    if data == [] then c else Divide(Bits8(Xor(c, Wide(data[0]))), data[1..])
  }

  /** The checksum of `data`. */
  function Crc(data: seq<Octet>): Word {
    Xor(Divide(ONES, data), ONES)
  }

  lemma {:induction false} DivideConcat(c: Word, x: seq<Octet>, y: seq<Octet>)
    ensures Divide(c, x + y) == Divide(Divide(c, x), y)
    decreases |x|
  {
    hide Bits8, Xor;
    if x == [] {
      assert x + y == y;
    } else {
      assert (x + y)[1..] == x[1..] + y;
      DivideConcat(Bits8(Xor(c, Wide(x[0]))), x[1..], y);
    }
  }

  // ------------------------------------------------------ the tables

  function Of4(t0: Word, t1: Word, t2: Word, t3: Word, j: Word): Word {
    if j == 0 then t0 else if j == 1 then t1 else if j == 2 then t2 else t3
  }

  /** ngx_crc32_table16. */
  function Table16(i: Word): Word {
    if i < 4 then Of4(0x00000000, 0x1db71064, 0x3b6e20c8, 0x26d930ac, i)
    else if i < 8 then Of4(0x76dc4190, 0x6b6b51f4, 0x4db26158, 0x5005713c, i - 4)
    else if i < 12 then Of4(0xedb88320, 0xf00f9344, 0xd6d6a3e8, 0xcb61b38c, i - 8)
    else Of4(0x9b64c2b0, 0x86d3d2d4, 0xa00ae278, 0xbdbdf21c, i - 12)
  }

  function Quarter0(i: Word): Word {
    if i < 4 then Of4(0x00000000, 0x77073096, 0xee0e612c, 0x990951ba, i)
    else if i < 8 then Of4(0x076dc419, 0x706af48f, 0xe963a535, 0x9e6495a3, i - 4)
    else if i < 12 then Of4(0x0edb8832, 0x79dcb8a4, 0xe0d5e91e, 0x97d2d988, i - 8)
    else if i < 16 then Of4(0x09b64c2b, 0x7eb17cbd, 0xe7b82d07, 0x90bf1d91, i - 12)
    else if i < 20 then Of4(0x1db71064, 0x6ab020f2, 0xf3b97148, 0x84be41de, i - 16)
    else if i < 24 then Of4(0x1adad47d, 0x6ddde4eb, 0xf4d4b551, 0x83d385c7, i - 20)
    else if i < 28 then Of4(0x136c9856, 0x646ba8c0, 0xfd62f97a, 0x8a65c9ec, i - 24)
    else if i < 32 then Of4(0x14015c4f, 0x63066cd9, 0xfa0f3d63, 0x8d080df5, i - 28)
    else if i < 36 then Of4(0x3b6e20c8, 0x4c69105e, 0xd56041e4, 0xa2677172, i - 32)
    else if i < 40 then Of4(0x3c03e4d1, 0x4b04d447, 0xd20d85fd, 0xa50ab56b, i - 36)
    else if i < 44 then Of4(0x35b5a8fa, 0x42b2986c, 0xdbbbc9d6, 0xacbcf940, i - 40)
    else if i < 48 then Of4(0x32d86ce3, 0x45df5c75, 0xdcd60dcf, 0xabd13d59, i - 44)
    else if i < 52 then Of4(0x26d930ac, 0x51de003a, 0xc8d75180, 0xbfd06116, i - 48)
    else if i < 56 then Of4(0x21b4f4b5, 0x56b3c423, 0xcfba9599, 0xb8bda50f, i - 52)
    else if i < 60 then Of4(0x2802b89e, 0x5f058808, 0xc60cd9b2, 0xb10be924, i - 56)
    else Of4(0x2f6f7c87, 0x58684c11, 0xc1611dab, 0xb6662d3d, i - 60)
  }

  function Quarter1(i: Word): Word {
    if i < 68 then Of4(0x76dc4190, 0x01db7106, 0x98d220bc, 0xefd5102a, i - 64)
    else if i < 72 then Of4(0x71b18589, 0x06b6b51f, 0x9fbfe4a5, 0xe8b8d433, i - 68)
    else if i < 76 then Of4(0x7807c9a2, 0x0f00f934, 0x9609a88e, 0xe10e9818, i - 72)
    else if i < 80 then Of4(0x7f6a0dbb, 0x086d3d2d, 0x91646c97, 0xe6635c01, i - 76)
    else if i < 84 then Of4(0x6b6b51f4, 0x1c6c6162, 0x856530d8, 0xf262004e, i - 80)
    else if i < 88 then Of4(0x6c0695ed, 0x1b01a57b, 0x8208f4c1, 0xf50fc457, i - 84)
    else if i < 92 then Of4(0x65b0d9c6, 0x12b7e950, 0x8bbeb8ea, 0xfcb9887c, i - 88)
    else if i < 96 then Of4(0x62dd1ddf, 0x15da2d49, 0x8cd37cf3, 0xfbd44c65, i - 92)
    else if i < 100 then Of4(0x4db26158, 0x3ab551ce, 0xa3bc0074, 0xd4bb30e2, i - 96)
    else if i < 104 then Of4(0x4adfa541, 0x3dd895d7, 0xa4d1c46d, 0xd3d6f4fb, i - 100)
    else if i < 108 then Of4(0x4369e96a, 0x346ed9fc, 0xad678846, 0xda60b8d0, i - 104)
    else if i < 112 then Of4(0x44042d73, 0x33031de5, 0xaa0a4c5f, 0xdd0d7cc9, i - 108)
    else if i < 116 then Of4(0x5005713c, 0x270241aa, 0xbe0b1010, 0xc90c2086, i - 112)
    else if i < 120 then Of4(0x5768b525, 0x206f85b3, 0xb966d409, 0xce61e49f, i - 116)
    else if i < 124 then Of4(0x5edef90e, 0x29d9c998, 0xb0d09822, 0xc7d7a8b4, i - 120)
    else Of4(0x59b33d17, 0x2eb40d81, 0xb7bd5c3b, 0xc0ba6cad, i - 124)
  }

  function Quarter2(i: Word): Word {
    if i < 132 then Of4(0xedb88320, 0x9abfb3b6, 0x03b6e20c, 0x74b1d29a, i - 128)
    else if i < 136 then Of4(0xead54739, 0x9dd277af, 0x04db2615, 0x73dc1683, i - 132)
    else if i < 140 then Of4(0xe3630b12, 0x94643b84, 0x0d6d6a3e, 0x7a6a5aa8, i - 136)
    else if i < 144 then Of4(0xe40ecf0b, 0x9309ff9d, 0x0a00ae27, 0x7d079eb1, i - 140)
    else if i < 148 then Of4(0xf00f9344, 0x8708a3d2, 0x1e01f268, 0x6906c2fe, i - 144)
    else if i < 152 then Of4(0xf762575d, 0x806567cb, 0x196c3671, 0x6e6b06e7, i - 148)
    else if i < 156 then Of4(0xfed41b76, 0x89d32be0, 0x10da7a5a, 0x67dd4acc, i - 152)
    else if i < 160 then Of4(0xf9b9df6f, 0x8ebeeff9, 0x17b7be43, 0x60b08ed5, i - 156)
    else if i < 164 then Of4(0xd6d6a3e8, 0xa1d1937e, 0x38d8c2c4, 0x4fdff252, i - 160)
    else if i < 168 then Of4(0xd1bb67f1, 0xa6bc5767, 0x3fb506dd, 0x48b2364b, i - 164)
    else if i < 172 then Of4(0xd80d2bda, 0xaf0a1b4c, 0x36034af6, 0x41047a60, i - 168)
    else if i < 176 then Of4(0xdf60efc3, 0xa867df55, 0x316e8eef, 0x4669be79, i - 172)
    else if i < 180 then Of4(0xcb61b38c, 0xbc66831a, 0x256fd2a0, 0x5268e236, i - 176)
    else if i < 184 then Of4(0xcc0c7795, 0xbb0b4703, 0x220216b9, 0x5505262f, i - 180)
    else if i < 188 then Of4(0xc5ba3bbe, 0xb2bd0b28, 0x2bb45a92, 0x5cb36a04, i - 184)
    else Of4(0xc2d7ffa7, 0xb5d0cf31, 0x2cd99e8b, 0x5bdeae1d, i - 188)
  }

  function Quarter3(i: Word): Word {
    if i < 196 then Of4(0x9b64c2b0, 0xec63f226, 0x756aa39c, 0x026d930a, i - 192)
    else if i < 200 then Of4(0x9c0906a9, 0xeb0e363f, 0x72076785, 0x05005713, i - 196)
    else if i < 204 then Of4(0x95bf4a82, 0xe2b87a14, 0x7bb12bae, 0x0cb61b38, i - 200)
    else if i < 208 then Of4(0x92d28e9b, 0xe5d5be0d, 0x7cdcefb7, 0x0bdbdf21, i - 204)
    else if i < 212 then Of4(0x86d3d2d4, 0xf1d4e242, 0x68ddb3f8, 0x1fda836e, i - 208)
    else if i < 216 then Of4(0x81be16cd, 0xf6b9265b, 0x6fb077e1, 0x18b74777, i - 212)
    else if i < 220 then Of4(0x88085ae6, 0xff0f6a70, 0x66063bca, 0x11010b5c, i - 216)
    else if i < 224 then Of4(0x8f659eff, 0xf862ae69, 0x616bffd3, 0x166ccf45, i - 220)
    else if i < 228 then Of4(0xa00ae278, 0xd70dd2ee, 0x4e048354, 0x3903b3c2, i - 224)
    else if i < 232 then Of4(0xa7672661, 0xd06016f7, 0x4969474d, 0x3e6e77db, i - 228)
    else if i < 236 then Of4(0xaed16a4a, 0xd9d65adc, 0x40df0b66, 0x37d83bf0, i - 232)
    else if i < 240 then Of4(0xa9bcae53, 0xdebb9ec5, 0x47b2cf7f, 0x30b5ffe9, i - 236)
    else if i < 244 then Of4(0xbdbdf21c, 0xcabac28a, 0x53b39330, 0x24b4a3a6, i - 240)
    else if i < 248 then Of4(0xbad03605, 0xcdd70693, 0x54de5729, 0x23d967bf, i - 244)
    else if i < 252 then Of4(0xb3667a2e, 0xc4614ab8, 0x5d681b02, 0x2a6f2b94, i - 248)
    else Of4(0xb40bbe37, 0xc30c8ea1, 0x5a05df1b, 0x2d02ef8d, i - 252)
  }

  /** ngx_crc32_table256, a quarter at a time. */
  function Table256(i: Word): Word {
    if i < 64 then Quarter0(i)
    else if i < 128 then Quarter1(i)
    else if i < 192 then Quarter2(i)
    else Quarter3(i)
  }

  lemma Entry16(i: Word)
    requires i < 16
    ensures Table16(i) == Bits4(i)
  {
  }

  lemma Entries0(i: Word)
    requires i < 64
    ensures Quarter0(i) == Bits8(i)
  {
  }

  lemma Entries1(i: Word)
    requires 64 <= i < 128
    ensures Quarter1(i) == Bits8(i)
  {
  }

  lemma Entries2(i: Word)
    requires 128 <= i < 192
    ensures Quarter2(i) == Bits8(i)
  {
  }

  lemma Entries3(i: Word)
    requires 192 <= i < 256
    ensures Quarter3(i) == Bits8(i)
  {
  }

  /** Every entry of the large table is the division of its index by eight bits. */
  lemma Entry256(i: Word)
    requires i < 256
    ensures Table256(i) == Bits8(i)
  {
    hide Quarter0, Quarter1, Quarter2, Quarter3, Bits8;
    if i < 64 {
      Entries0(i);
    } else if i < 128 {
      Entries1(i);
    } else if i < 192 {
      Entries2(i);
    } else {
      Entries3(i);
    }
  }

  // -------------------------------------- the division is linear

  lemma Xor3(x: Word, y: Word, z: Word)
    ensures Xor(Xor(x, y), z) == x ^ y ^ z
  {
  }

  lemma Xor3Right(x: Word, y: Word, z: Word)
    ensures Xor(x, Xor(y, z)) == x ^ y ^ z
  {
  }

  lemma XorAssociates(x: Word, y: Word, z: Word)
    ensures Xor(Xor(x, y), z) == Xor(x, Xor(y, z))
  {
    hide Xor;
    Xor3(x, y, z);
    Xor3Right(x, y, z);
  }

  lemma XorCommutes(x: Word, y: Word)
    ensures Xor(x, y) == Xor(y, x)
  {
  }

  lemma XorCancels(x: Word, p: Word)
    ensures Xor(Xor(x, p), p) == x
  {
  }

  lemma XorBoth(x: Word, y: Word, p: Word)
    ensures Xor(Xor(x, y), p) == Xor(Xor(x, p), y) == Xor(x, Xor(y, p))
    ensures Xor(Xor(x, p), Xor(y, p)) == Xor(x, y)
  {
    hide Xor;
    XorAssociates(x, y, p);
    XorCommutes(y, p);
    XorAssociates(x, p, y);
    XorAssociates(Xor(x, p), y, p);
    XorCancels(Xor(x, y), p);
  }

  lemma OddXor(x: Word, y: Word)
    ensures Odd(Xor(x, y)) <==> Odd(x) != Odd(y)
  {
  }

  lemma ShiftXor(x: Word, y: Word)
    ensures Shift1(Xor(x, y)) == Xor(Shift1(x), Shift1(y))
  {
  }

  lemma Linear1(x: Word, y: Word)
    ensures Bit(Xor(x, y)) == Xor(Bit(x), Bit(y))
  {
    hide Odd, Xor, Shift1;
    OddXor(x, y);
    ShiftXor(x, y);
    XorBoth(Shift1(x), Shift1(y), POLYNOMIAL);
  }

  lemma Linear4(x: Word, y: Word)
    ensures Bits4(Xor(x, y)) == Xor(Bits4(x), Bits4(y))
  {
    hide Bit, Xor;
    Linear1(x, y);
    Linear1(Bit(x), Bit(y));
    Linear1(Bit(Bit(x)), Bit(Bit(y)));
    Linear1(Bit(Bit(Bit(x))), Bit(Bit(Bit(y))));
  }

  lemma Linear8(x: Word, y: Word)
    ensures Bits8(Xor(x, y)) == Xor(Bits8(x), Bits8(y))
  {
    hide Bits4, Xor;
    Linear4(x, y);
    Linear4(Bits4(x), Bits4(y));
  }

  /** Bits above the low four are only shifted. */
  lemma High4(c: Word)
    requires Mask(c, 0xf) == 0
    ensures Bits4(c) == Shift4(c)
  {
  }

  lemma Shifted(c: Word)
    requires Mask(c, 0xff) == 0
    ensures Mask(c, 0xf) == 0 && Mask(Shift4(c), 0xf) == 0
  {
  }

  lemma High8(c: Word)
    requires Mask(c, 0xff) == 0
    ensures Bits8(c) == Shift4(Shift4(c))
  {
    Shifted(c);
    hide Bits4, Mask, Shift4;
    High4(c);
    High4(Shift4(c));
  }

  lemma Parts4(c: Word)
    ensures Xor(Mask(c, 0xf), Mask(c, 0xffff_fff0)) == c
    ensures Mask(Mask(c, 0xffff_fff0), 0xf) == 0 && Shift4(Mask(c, 0xffff_fff0)) == Shift4(c)
  {
  }

  lemma Parts8(c: Word)
    ensures Xor(Mask(c, 0xff), Mask(c, 0xffff_ff00)) == c
    ensures Mask(Mask(c, 0xffff_ff00), 0xff) == 0
  {
  }

  lemma Twice4(c: Word)
    ensures Shift4(Shift4(c)) == Shift8(c)
  {
  }

  lemma HighPart8(c: Word)
    ensures Shift8(Mask(c, 0xffff_ff00)) == Shift8(c)
  {
  }

  /** Only the low four bits need to be looked up. */
  lemma Low4(c: Word)
    ensures Bits4(c) == Xor(Bits4(Mask(c, 0xf)), Shift4(c))
  {
    hide Bits4, Mask, Xor, Shift4;
    Parts4(c);
    Linear4(Mask(c, 0xf), Mask(c, 0xffff_fff0));
    High4(Mask(c, 0xffff_fff0));
  }

  /** Only the low eight bits need to be looked up. */
  lemma Low8(c: Word)
    ensures Bits8(c) == Xor(Bits8(Mask(c, 0xff)), Shift8(c))
  {
    hide Bits8, Mask, Xor, Shift4, Shift8;
    Parts8(c);
    Linear8(Mask(c, 0xff), Mask(c, 0xffff_ff00));
    High8(Mask(c, 0xffff_ff00));
    Twice4(Mask(c, 0xffff_ff00));
    HighPart8(c);
  }

  // -------------------------------------- one byte through either table

  /** table256[(c ^ b) & 0xff] ^ (c >> 8). */
  function ByteStep(c: Word, b: Octet): Word {
    Xor(Table256(Mask(Xor(c, Wide(b)), 0xff)), Shift8(c))
  }

  lemma MaskBound(c: Word, mask: Word)
    ensures Mask(c, mask) <= mask
  {
  }

  lemma ShiftOut8(c: Word, b: Octet)
    ensures Shift8(Xor(c, Wide(b))) == Shift8(c)
  {
  }

  lemma ByteStepIsBits(c: Word, b: Octet)
    ensures ByteStep(c, b) == Bits8(Xor(c, Wide(b)))
  {
    ShiftOut8(c, b);
    hide Bits8, Table256, Mask, Xor, Shift8, Wide;
    var v := Xor(c, Wide(b));
    MaskBound(v, 0xff);
    Entry256(Mask(v, 0xff));
    Low8(v);
  }

  /** table_short[(c ^ n) & 0xf] ^ (c >> 4). */
  function NibbleStep(c: Word, n: Word): Word {
    Xor(Table16(Mask(Xor(c, n), 0xf)), Shift4(c))
  }

  lemma ShiftOut4(c: Word, n: Word)
    requires n < 16
    ensures Shift4(Xor(c, n)) == Shift4(c)
  {
  }

  lemma NibbleStepIsBits(c: Word, n: Word)
    requires n < 16
    ensures NibbleStep(c, n) == Bits4(Xor(c, n))
  {
    ShiftOut4(c, n);
    hide Bits4, Table16, Mask, Xor, Shift4;
    var v := Xor(c, n);
    MaskBound(v, 0xf);
    Entry16(Mask(v, 0xf));
    Low4(v);
  }

  lemma Nibbles(b: Octet)
    ensures Mask(Wide(b), 0xf) < 16 && Shift4(Wide(b)) < 16
  {
  }

  /** Putting the high nibble in before or after the first four shifts is the same. */
  lemma HighNibble(c: Word, b: Octet)
    ensures Bits4(Xor(c, Wide(b))) == Xor(Bits4(Xor(c, Mask(Wide(b), 0xf))), Shift4(Wide(b)))
  {
    hide Bits4, Mask, Xor, Shift4, Wide;
    var w := Wide(b);
    Parts4(w);
    XorAssociates(c, Mask(w, 0xf), Mask(w, 0xffff_fff0));
    Linear4(Xor(c, Mask(w, 0xf)), Mask(w, 0xffff_fff0));
    High4(Mask(w, 0xffff_fff0));
  }

  /** The low nibble first, then the high one: the same as the whole byte. */
  lemma NibblesAreByte(c: Word, b: Octet)
    ensures NibbleStep(NibbleStep(c, Mask(Wide(b), 0xf)), Shift4(Wide(b))) == Bits8(Xor(c, Wide(b)))
  {
    hide Bits4, Table16, NibbleStep, Mask, Xor, Shift4, Wide;
    var lo, hi := Mask(Wide(b), 0xf), Shift4(Wide(b));
    Nibbles(b);
    NibbleStepIsBits(c, lo);
    NibbleStepIsBits(Bits4(Xor(c, lo)), hi);
    HighNibble(c, b);
  }

  // ---------------------------------------------------- the three forms

  /** ngx_crc32_short. */
  method Short(p: seq<Octet>) returns (crc: Word)
    ensures crc == Crc(p)
  {
    hide Bits8, NibbleStep, Xor, Mask, Shift4, Wide;
    crc := ONES;
    for i := 0 to |p|
      invariant Divide(ONES, p) == Divide(crc, p[i..])
    {
      assert p[i..][1..] == p[i + 1..];
      NibblesAreByte(crc, p[i]);
      crc := NibbleStep(crc, Mask(Wide(p[i]), 0xf));
      crc := NibbleStep(crc, Shift4(Wide(p[i])));
    }
    crc := Xor(crc, ONES);
  }

  /** ngx_crc32_long. */
  method Long(p: seq<Octet>) returns (crc: Word)
    ensures crc == Crc(p)
  {
    hide Bits8, ByteStep, Xor, Wide;
    crc := ONES;
    for i := 0 to |p|
      invariant Divide(ONES, p) == Divide(crc, p[i..])
    {
      assert p[i..][1..] == p[i + 1..];
      ByteStepIsBits(crc, p[i]);
      crc := ByteStep(crc, p[i]);
    }
    crc := Xor(crc, ONES);
  }

  /** ngx_crc32_update. */
  method Update(crc: Word, p: seq<Octet>) returns (c: Word)
    ensures c == Divide(crc, p)
  {
    hide Bits8, ByteStep, Xor, Wide;
    c := crc;
    for i := 0 to |p|
      invariant Divide(crc, p) == Divide(c, p[i..])
    {
      assert p[i..][1..] == p[i + 1..];
      ByteStepIsBits(c, p[i]);
      c := ByteStep(c, p[i]);
    }
  }

  lemma NoBytes()
    ensures Divide(ONES, []) == ONES
  {
  }

  /** Init, any sequence of updates, then final: the checksum of all the bytes. */
  method Incremental(chunks: seq<seq<Octet>>) returns (crc: Word)
    ensures crc == Crc(Concat(chunks))
  {
    hide Divide, Xor;
    crc := ONES;
    NoBytes();
    for i := 0 to |chunks|
      invariant crc == Divide(ONES, Concat(chunks[..i]))
    {
      assert chunks[..i + 1][..i] == chunks[..i];
      DivideConcat(ONES, Concat(chunks[..i]), chunks[i]);
      crc := Update(crc, chunks[i]);
    }
    assert chunks[..|chunks|] == chunks;
    crc := Xor(crc, ONES);
  }

  // ------------------------------------------------- the check value

  lemma CheckSteps()
    ensures Bits8(Xor(0xffffffff, Wide(0x31))) == 0x7c231048
    ensures Bits8(Xor(0x7c231048, Wide(0x32))) == 0xb0acbb32
    ensures Bits8(Xor(0xb0acbb32, Wide(0x33))) == 0x77b79c2d
    ensures Bits8(Xor(0x77b79c2d, Wide(0x34))) == 0x641c1f5c
    ensures Bits8(Xor(0x641c1f5c, Wide(0x35))) == 0x340ac5e3
    ensures Bits8(Xor(0x340ac5e3, Wide(0x36))) == 0xf68d2c9e
    ensures Bits8(Xor(0xf68d2c9e, Wide(0x37))) == 0xaffc9660
    ensures Bits8(Xor(0xaffc9660, Wide(0x38))) == 0x651f2550
    ensures Bits8(Xor(0x651f2550, Wide(0x39))) == 0x340bc6d9
  {
  }

  lemma DivideNone(c: Word)
    ensures Divide(c, []) == c
  {
  }

  lemma DivideOne(c: Word, b: Octet, data: seq<Octet>, r: Word)
    requires r == Bits8(Xor(c, Wide(b)))
    ensures Divide(c, [b] + data) == Divide(r, data)
  {
    hide Bits8, Xor, Wide;
    assert ([b] + data)[1..] == data;
  }

  lemma CheckEnd()
    ensures ONES == 0xffffffff && Xor(0x340bc6d9, ONES) == 0xcbf43926
  {
  }

  /** The digits "123456789" have the checksum that catalogues of CRC algorithms give for this one. */
  lemma CheckValue()
    ensures Crc([0x31, 0x32, 0x33, 0x34, 0x35, 0x36, 0x37, 0x38, 0x39]) == 0xcbf43926
  {
    CheckSteps();
    CheckEnd();
    hide Divide, Bits8, Xor, Wide;
    var r9: seq<Octet> := [];
    var r8 := [0x39] + r9;
    var r7 := [0x38] + r8;
    var r6 := [0x37] + r7;
    var r5 := [0x36] + r6;
    var r4 := [0x35] + r5;
    var r3 := [0x34] + r4;
    var r2 := [0x33] + r3;
    var r1 := [0x32] + r2;
    var r0 := [0x31] + r1;
    DivideOne(0xffffffff, 0x31, r1, 0x7c231048);
    DivideOne(0x7c231048, 0x32, r2, 0xb0acbb32);
    DivideOne(0xb0acbb32, 0x33, r3, 0x77b79c2d);
    DivideOne(0x77b79c2d, 0x34, r4, 0x641c1f5c);
    DivideOne(0x641c1f5c, 0x35, r5, 0x340ac5e3);
    DivideOne(0x340ac5e3, 0x36, r6, 0xf68d2c9e);
    DivideOne(0xf68d2c9e, 0x37, r7, 0xaffc9660);
    DivideOne(0xaffc9660, 0x38, r8, 0x651f2550);
    DivideOne(0x651f2550, 0x39, r9, 0x340bc6d9);
    DivideNone(0x340bc6d9);
    assert r0 == [0x31, 0x32, 0x33, 0x34, 0x35, 0x36, 0x37, 0x38, 0x39];
  }
}
