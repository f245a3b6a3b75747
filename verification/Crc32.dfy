/**
 The table-driven cyclic redundancy check, against the check that shifts the message in one bit at a time.
 The exclusive or and the shift are named, so that the proofs can use them without opening them up.
 */
module Crc32 {
  const POLYNOMIAL: bv32 := 0xEDB88320

  function Xor(c: bv32, d: bv32): bv32 {
    c ^ d
  }

  function Half(c: bv32): bv32 {
    c >> 1
  }

  predicate LowBit(c: bv32) {
    c & 1 == 1
  }

  // ---------------------------------------------------------------- one bit at a time

  function Reduce(carry: bool, c: bv32): bv32 {
    if carry then c ^ POLYNOMIAL else c
  }

  /** Takes one message bit into the register. */
  function ShiftIn(crc: bv32, bit: bool): bv32 {
    Reduce(LowBit(crc) != bit, Half(crc))
  }

  predicate Bit(b: bv8, mask: bv8) {
    b & mask != 0
  }

  /** Takes the eight bits of a byte into the register, the least significant first. */
  function ShiftInByte(crc: bv32, b: bv8): bv32 {
    var c1 := ShiftIn(crc, Bit(b, 0x01));
    var c2 := ShiftIn(c1, Bit(b, 0x02));
    var c3 := ShiftIn(c2, Bit(b, 0x04));
    var c4 := ShiftIn(c3, Bit(b, 0x08));
    var c5 := ShiftIn(c4, Bit(b, 0x10));
    var c6 := ShiftIn(c5, Bit(b, 0x20));
    var c7 := ShiftIn(c6, Bit(b, 0x40));
    ShiftIn(c7, Bit(b, 0x80))
  }

  /** The check of a message, with the register preset to ones and no final complement. */
  function BitwiseCrc(message: seq<bv8>): bv32 {
    if message == [] then 0xffffffff
    else ShiftInByte(BitwiseCrc(message[..|message| - 1]), message[|message| - 1])
  }

  // ---------------------------------------------------------------- the table

  // Sixteen entries of `crc_table` each; the column is the low half of the index.

  function Row0(column: bv8): bv32 {
    match column
    case 0x0 => 0x00000000 case 0x1 => 0x77073096 case 0x2 => 0xEE0E612C case 0x3 => 0x990951BA
    case 0x4 => 0x076DC419 case 0x5 => 0x706AF48F case 0x6 => 0xE963A535 case 0x7 => 0x9E6495A3
    case 0x8 => 0x0EDB8832 case 0x9 => 0x79DCB8A4 case 0xA => 0xE0D5E91E case 0xB => 0x97D2D988
    case 0xC => 0x09B64C2B case 0xD => 0x7EB17CBD case 0xE => 0xE7B82D07 case _ => 0x90BF1D91
  }

  function Row1(column: bv8): bv32 {
    match column
    case 0x0 => 0x1DB71064 case 0x1 => 0x6AB020F2 case 0x2 => 0xF3B97148 case 0x3 => 0x84BE41DE
    case 0x4 => 0x1ADAD47D case 0x5 => 0x6DDDE4EB case 0x6 => 0xF4D4B551 case 0x7 => 0x83D385C7
    case 0x8 => 0x136C9856 case 0x9 => 0x646BA8C0 case 0xA => 0xFD62F97A case 0xB => 0x8A65C9EC
    case 0xC => 0x14015C4F case 0xD => 0x63066CD9 case 0xE => 0xFA0F3D63 case _ => 0x8D080DF5
  }

  function Row2(column: bv8): bv32 {
    match column
    case 0x0 => 0x3B6E20C8 case 0x1 => 0x4C69105E case 0x2 => 0xD56041E4 case 0x3 => 0xA2677172
    case 0x4 => 0x3C03E4D1 case 0x5 => 0x4B04D447 case 0x6 => 0xD20D85FD case 0x7 => 0xA50AB56B
    case 0x8 => 0x35B5A8FA case 0x9 => 0x42B2986C case 0xA => 0xDBBBC9D6 case 0xB => 0xACBCF940
    case 0xC => 0x32D86CE3 case 0xD => 0x45DF5C75 case 0xE => 0xDCD60DCF case _ => 0xABD13D59
  }

  function Row3(column: bv8): bv32 {
    match column
    case 0x0 => 0x26D930AC case 0x1 => 0x51DE003A case 0x2 => 0xC8D75180 case 0x3 => 0xBFD06116
    case 0x4 => 0x21B4F4B5 case 0x5 => 0x56B3C423 case 0x6 => 0xCFBA9599 case 0x7 => 0xB8BDA50F
    case 0x8 => 0x2802B89E case 0x9 => 0x5F058808 case 0xA => 0xC60CD9B2 case 0xB => 0xB10BE924
    case 0xC => 0x2F6F7C87 case 0xD => 0x58684C11 case 0xE => 0xC1611DAB case _ => 0xB6662D3D
  }

  function Row4(column: bv8): bv32 {
    match column
    case 0x0 => 0x76DC4190 case 0x1 => 0x01DB7106 case 0x2 => 0x98D220BC case 0x3 => 0xEFD5102A
    case 0x4 => 0x71B18589 case 0x5 => 0x06B6B51F case 0x6 => 0x9FBFE4A5 case 0x7 => 0xE8B8D433
    case 0x8 => 0x7807C9A2 case 0x9 => 0x0F00F934 case 0xA => 0x9609A88E case 0xB => 0xE10E9818
    case 0xC => 0x7F6A0DBB case 0xD => 0x086D3D2D case 0xE => 0x91646C97 case _ => 0xE6635C01
  }

  function Row5(column: bv8): bv32 {
    match column
    case 0x0 => 0x6B6B51F4 case 0x1 => 0x1C6C6162 case 0x2 => 0x856530D8 case 0x3 => 0xF262004E
    case 0x4 => 0x6C0695ED case 0x5 => 0x1B01A57B case 0x6 => 0x8208F4C1 case 0x7 => 0xF50FC457
    case 0x8 => 0x65B0D9C6 case 0x9 => 0x12B7E950 case 0xA => 0x8BBEB8EA case 0xB => 0xFCB9887C
    case 0xC => 0x62DD1DDF case 0xD => 0x15DA2D49 case 0xE => 0x8CD37CF3 case _ => 0xFBD44C65
  }

  function Row6(column: bv8): bv32 {
    match column
    case 0x0 => 0x4DB26158 case 0x1 => 0x3AB551CE case 0x2 => 0xA3BC0074 case 0x3 => 0xD4BB30E2
    case 0x4 => 0x4ADFA541 case 0x5 => 0x3DD895D7 case 0x6 => 0xA4D1C46D case 0x7 => 0xD3D6F4FB
    case 0x8 => 0x4369E96A case 0x9 => 0x346ED9FC case 0xA => 0xAD678846 case 0xB => 0xDA60B8D0
    case 0xC => 0x44042D73 case 0xD => 0x33031DE5 case 0xE => 0xAA0A4C5F case _ => 0xDD0D7CC9
  }

  function Row7(column: bv8): bv32 {
    match column
    case 0x0 => 0x5005713C case 0x1 => 0x270241AA case 0x2 => 0xBE0B1010 case 0x3 => 0xC90C2086
    case 0x4 => 0x5768B525 case 0x5 => 0x206F85B3 case 0x6 => 0xB966D409 case 0x7 => 0xCE61E49F
    case 0x8 => 0x5EDEF90E case 0x9 => 0x29D9C998 case 0xA => 0xB0D09822 case 0xB => 0xC7D7A8B4
    case 0xC => 0x59B33D17 case 0xD => 0x2EB40D81 case 0xE => 0xB7BD5C3B case _ => 0xC0BA6CAD
  }

  function Row8(column: bv8): bv32 {
    match column
    case 0x0 => 0xEDB88320 case 0x1 => 0x9ABFB3B6 case 0x2 => 0x03B6E20C case 0x3 => 0x74B1D29A
    case 0x4 => 0xEAD54739 case 0x5 => 0x9DD277AF case 0x6 => 0x04DB2615 case 0x7 => 0x73DC1683
    case 0x8 => 0xE3630B12 case 0x9 => 0x94643B84 case 0xA => 0x0D6D6A3E case 0xB => 0x7A6A5AA8
    case 0xC => 0xE40ECF0B case 0xD => 0x9309FF9D case 0xE => 0x0A00AE27 case _ => 0x7D079EB1
  }

  function Row9(column: bv8): bv32 {
    match column
    case 0x0 => 0xF00F9344 case 0x1 => 0x8708A3D2 case 0x2 => 0x1E01F268 case 0x3 => 0x6906C2FE
    case 0x4 => 0xF762575D case 0x5 => 0x806567CB case 0x6 => 0x196C3671 case 0x7 => 0x6E6B06E7
    case 0x8 => 0xFED41B76 case 0x9 => 0x89D32BE0 case 0xA => 0x10DA7A5A case 0xB => 0x67DD4ACC
    case 0xC => 0xF9B9DF6F case 0xD => 0x8EBEEFF9 case 0xE => 0x17B7BE43 case _ => 0x60B08ED5
  }

  function RowA(column: bv8): bv32 {
    match column
    case 0x0 => 0xD6D6A3E8 case 0x1 => 0xA1D1937E case 0x2 => 0x38D8C2C4 case 0x3 => 0x4FDFF252
    case 0x4 => 0xD1BB67F1 case 0x5 => 0xA6BC5767 case 0x6 => 0x3FB506DD case 0x7 => 0x48B2364B
    case 0x8 => 0xD80D2BDA case 0x9 => 0xAF0A1B4C case 0xA => 0x36034AF6 case 0xB => 0x41047A60
    case 0xC => 0xDF60EFC3 case 0xD => 0xA867DF55 case 0xE => 0x316E8EEF case _ => 0x4669BE79
  }

  function RowB(column: bv8): bv32 {
    match column
    case 0x0 => 0xCB61B38C case 0x1 => 0xBC66831A case 0x2 => 0x256FD2A0 case 0x3 => 0x5268E236
    case 0x4 => 0xCC0C7795 case 0x5 => 0xBB0B4703 case 0x6 => 0x220216B9 case 0x7 => 0x5505262F
    case 0x8 => 0xC5BA3BBE case 0x9 => 0xB2BD0B28 case 0xA => 0x2BB45A92 case 0xB => 0x5CB36A04
    case 0xC => 0xC2D7FFA7 case 0xD => 0xB5D0CF31 case 0xE => 0x2CD99E8B case _ => 0x5BDEAE1D
  }

  function RowC(column: bv8): bv32 {
    match column
    case 0x0 => 0x9B64C2B0 case 0x1 => 0xEC63F226 case 0x2 => 0x756AA39C case 0x3 => 0x026D930A
    case 0x4 => 0x9C0906A9 case 0x5 => 0xEB0E363F case 0x6 => 0x72076785 case 0x7 => 0x05005713
    case 0x8 => 0x95BF4A82 case 0x9 => 0xE2B87A14 case 0xA => 0x7BB12BAE case 0xB => 0x0CB61B38
    case 0xC => 0x92D28E9B case 0xD => 0xE5D5BE0D case 0xE => 0x7CDCEFB7 case _ => 0x0BDBDF21
  }

  function RowD(column: bv8): bv32 {
    match column
    case 0x0 => 0x86D3D2D4 case 0x1 => 0xF1D4E242 case 0x2 => 0x68DDB3F8 case 0x3 => 0x1FDA836E
    case 0x4 => 0x81BE16CD case 0x5 => 0xF6B9265B case 0x6 => 0x6FB077E1 case 0x7 => 0x18B74777
    case 0x8 => 0x88085AE6 case 0x9 => 0xFF0F6A70 case 0xA => 0x66063BCA case 0xB => 0x11010B5C
    case 0xC => 0x8F659EFF case 0xD => 0xF862AE69 case 0xE => 0x616BFFD3 case _ => 0x166CCF45
  }

  function RowE(column: bv8): bv32 {
    match column
    case 0x0 => 0xA00AE278 case 0x1 => 0xD70DD2EE case 0x2 => 0x4E048354 case 0x3 => 0x3903B3C2
    case 0x4 => 0xA7672661 case 0x5 => 0xD06016F7 case 0x6 => 0x4969474D case 0x7 => 0x3E6E77DB
    case 0x8 => 0xAED16A4A case 0x9 => 0xD9D65ADC case 0xA => 0x40DF0B66 case 0xB => 0x37D83BF0
    case 0xC => 0xA9BCAE53 case 0xD => 0xDEBB9EC5 case 0xE => 0x47B2CF7F case _ => 0x30B5FFE9
  }

  function RowF(column: bv8): bv32 {
    match column
    case 0x0 => 0xBDBDF21C case 0x1 => 0xCABAC28A case 0x2 => 0x53B39330 case 0x3 => 0x24B4A3A6
    case 0x4 => 0xBAD03605 case 0x5 => 0xCDD70693 case 0x6 => 0x54DE5729 case 0x7 => 0x23D967BF
    case 0x8 => 0xB3667A2E case 0x9 => 0xC4614AB8 case 0xA => 0x5D681B02 case 0xB => 0x2A6F2B94
    case 0xC => 0xB40BBE37 case 0xD => 0xC30C8EA1 case 0xE => 0x5A05DF1B case _ => 0x2D02EF8D
  }

  function Entry(row: bv8, column: bv8): bv32 {
    match row
    case 0x0 => Row0(column) case 0x1 => Row1(column) case 0x2 => Row2(column) case 0x3 => Row3(column)
    case 0x4 => Row4(column) case 0x5 => Row5(column) case 0x6 => Row6(column) case 0x7 => Row7(column)
    case 0x8 => Row8(column) case 0x9 => Row9(column) case 0xA => RowA(column) case 0xB => RowB(column)
    case 0xC => RowC(column) case 0xD => RowD(column) case 0xE => RowE(column) case _ => RowF(column)
  }

  /** `crc_table` */
  function CrcTable(i: bv8): bv32 {
    Entry(i >> 4, i & 15)
  }

  // ---------------------------------------------------------------- the shift is linear

  lemma XorCommutes(s: bv32, t: bv32)
    ensures Xor(s, t) == Xor(t, s)
  {
  }

  lemma HalfXor(x: bv32, y: bv32)
    ensures Half(Xor(x, y)) == Xor(Half(x), Half(y))
  {
  }

  lemma LowXor(x: bv32, y: bv32)
    ensures LowBit(Xor(x, y)) == (LowBit(x) != LowBit(y))
  {
  }

  lemma ReduceBoth(s: bv32, t: bv32)
    ensures Reduce(false, Xor(s, t)) == Xor(Reduce(true, s), Reduce(true, t))
  {
  }

  lemma ReduceSecond(s: bv32, t: bv32)
    ensures Reduce(true, Xor(s, t)) == Xor(Reduce(false, s), Reduce(true, t))
  {
  }

  lemma ReduceXor(u: bool, s: bv32, v: bool, t: bv32)
    ensures Reduce(u != v, Xor(s, t)) == Xor(Reduce(u, s), Reduce(v, t))
  {
    if u && v {
      ReduceBoth(s, t);
    } else if u {
      ReduceSecond(t, s);
      XorCommutes(s, t);
      XorCommutes(Reduce(true, s), Reduce(false, t));
    } else if v {
      ReduceSecond(s, t);
    }
  }

  lemma ShiftInLinear(x: bv32, p: bool, y: bv32, q: bool)
    ensures ShiftIn(Xor(x, y), p != q) == Xor(ShiftIn(x, p), ShiftIn(y, q))
  {
    HalfXor(x, y);
    LowXor(x, y);
    ReduceXor(LowBit(x) != p, Half(x), LowBit(y) != q, Half(y));
  }

  lemma BitXor(b: bv8, d: bv8, mask: bv8)
    requires mask == 1 || mask == 2 || mask == 4 || mask == 8 || mask == 16 || mask == 32 || mask == 64 || mask == 128
    ensures Bit(b ^ d, mask) == (Bit(b, mask) != Bit(d, mask))
  {
  }

  lemma ShiftInBitOf(x: bv32, b: bv8, y: bv32, d: bv8, mask: bv8)
    requires mask == 1 || mask == 2 || mask == 4 || mask == 8 || mask == 16 || mask == 32 || mask == 64 || mask == 128
    ensures ShiftIn(Xor(x, y), Bit(b ^ d, mask)) == Xor(ShiftIn(x, Bit(b, mask)), ShiftIn(y, Bit(d, mask)))
  {
    BitXor(b, d, mask);
    ShiftInLinear(x, Bit(b, mask), y, Bit(d, mask));
  }

  lemma ShiftInByteLinear(x: bv32, b: bv8, y: bv32, d: bv8)
    ensures ShiftInByte(Xor(x, y), b ^ d) == Xor(ShiftInByte(x, b), ShiftInByte(y, d))
  {
    var x1, y1 := ShiftIn(x, Bit(b, 0x01)), ShiftIn(y, Bit(d, 0x01));
    var x2, y2 := ShiftIn(x1, Bit(b, 0x02)), ShiftIn(y1, Bit(d, 0x02));
    var x3, y3 := ShiftIn(x2, Bit(b, 0x04)), ShiftIn(y2, Bit(d, 0x04));
    var x4, y4 := ShiftIn(x3, Bit(b, 0x08)), ShiftIn(y3, Bit(d, 0x08));
    var x5, y5 := ShiftIn(x4, Bit(b, 0x10)), ShiftIn(y4, Bit(d, 0x10));
    var x6, y6 := ShiftIn(x5, Bit(b, 0x20)), ShiftIn(y5, Bit(d, 0x20));
    var x7, y7 := ShiftIn(x6, Bit(b, 0x40)), ShiftIn(y6, Bit(d, 0x40));
    ShiftInBitOf(x, b, y, d, 0x01);
    ShiftInBitOf(x1, b, y1, d, 0x02);
    ShiftInBitOf(x2, b, y2, d, 0x04);
    ShiftInBitOf(x3, b, y3, d, 0x08);
    ShiftInBitOf(x4, b, y4, d, 0x10);
    ShiftInBitOf(x5, b, y5, d, 0x20);
    ShiftInBitOf(x6, b, y6, d, 0x40);
    ShiftInBitOf(x7, b, y7, d, 0x80);
  }

  // ---------------------------------------------------------------- every entry of the table

  lemma Row1IsShifted(column: bv8)
    requires column < 16
    ensures Row1(column) == Xor(Row1(0), Row0(column))
  {
  }

  lemma Row2IsShifted(column: bv8)
    requires column < 16
    ensures Row2(column) == Xor(Row2(0), Row0(column))
  {
  }

  lemma Row3IsShifted(column: bv8)
    requires column < 16
    ensures Row3(column) == Xor(Row3(0), Row0(column))
  {
  }

  lemma Row4IsShifted(column: bv8)
    requires column < 16
    ensures Row4(column) == Xor(Row4(0), Row0(column))
  {
  }

  lemma Row5IsShifted(column: bv8)
    requires column < 16
    ensures Row5(column) == Xor(Row5(0), Row0(column))
  {
  }

  lemma Row6IsShifted(column: bv8)
    requires column < 16
    ensures Row6(column) == Xor(Row6(0), Row0(column))
  {
  }

  lemma Row7IsShifted(column: bv8)
    requires column < 16
    ensures Row7(column) == Xor(Row7(0), Row0(column))
  {
  }

  lemma Row8IsShifted(column: bv8)
    requires column < 16
    ensures Row8(column) == Xor(Row8(0), Row0(column))
  {
  }

  lemma Row9IsShifted(column: bv8)
    requires column < 16
    ensures Row9(column) == Xor(Row9(0), Row0(column))
  {
  }

  lemma RowAIsShifted(column: bv8)
    requires column < 16
    ensures RowA(column) == Xor(RowA(0), Row0(column))
  {
  }

  lemma RowBIsShifted(column: bv8)
    requires column < 16
    ensures RowB(column) == Xor(RowB(0), Row0(column))
  {
  }

  lemma RowCIsShifted(column: bv8)
    requires column < 16
    ensures RowC(column) == Xor(RowC(0), Row0(column))
  {
  }

  lemma RowDIsShifted(column: bv8)
    requires column < 16
    ensures RowD(column) == Xor(RowD(0), Row0(column))
  {
  }

  lemma RowEIsShifted(column: bv8)
    requires column < 16
    ensures RowE(column) == Xor(RowE(0), Row0(column))
  {
  }

  lemma RowFIsShifted(column: bv8)
    requires column < 16
    ensures RowF(column) == Xor(RowF(0), Row0(column))
  {
  }

  /** Each row is the first row with a constant mixed in. */
  lemma RowsAreShifted(row: bv8, column: bv8)
    requires 0 < row < 16 && column < 16
    ensures Entry(row, column) == Xor(Entry(row, 0), Row0(column))
  {
    match row
    case 0x1 => Row1IsShifted(column);
    case 0x2 => Row2IsShifted(column);
    case 0x3 => Row3IsShifted(column);
    case 0x4 => Row4IsShifted(column);
    case 0x5 => Row5IsShifted(column);
    case 0x6 => Row6IsShifted(column);
    case 0x7 => Row7IsShifted(column);
    case 0x8 => Row8IsShifted(column);
    case 0x9 => Row9IsShifted(column);
    case 0xA => RowAIsShifted(column);
    case 0xB => RowBIsShifted(column);
    case 0xC => RowCIsShifted(column);
    case 0xD => RowDIsShifted(column);
    case 0xE => RowEIsShifted(column);
    case _ => RowFIsShifted(column);
  }

  // The shift in two halves, so that the proofs about table entries stay small.

  function ShiftInHalf(crc: bv32, b0: bool, b1: bool, b2: bool, b3: bool): bv32 {
    ShiftIn(ShiftIn(ShiftIn(ShiftIn(crc, b0), b1), b2), b3)
  }

  lemma InHalves(crc: bv32, b: bv8, mid: bv32)
    requires mid == ShiftInHalf(crc, Bit(b, 0x01), Bit(b, 0x02), Bit(b, 0x04), Bit(b, 0x08))
    ensures ShiftInByte(crc, b) == ShiftInHalf(mid, Bit(b, 0x10), Bit(b, 0x20), Bit(b, 0x40), Bit(b, 0x80))
  {
  }

  lemma LowRows(row: bv8)
    requires row < 8
    ensures ShiftInHalf(0, Bit(row, 0x01), Bit(row, 0x02), Bit(row, 0x04), false) == Entry(row, 0)
  {
  }

  lemma HighRows(row: bv8)
    requires 8 <= row < 16
    ensures ShiftInHalf(0, Bit(row, 0x01), Bit(row, 0x02), Bit(row, 0x04), true) == Entry(row, 0)
  {
  }

  lemma HalfIsEntry(row: bv8)
    requires row < 16
    ensures ShiftInHalf(0, Bit(row, 0x01), Bit(row, 0x02), Bit(row, 0x04), Bit(row, 0x08)) == Entry(row, 0)
  {
    assert Bit(row, 0x08) <==> row >= 8;
    if row < 8 {
      LowRows(row);
    } else {
      HighRows(row);
    }
  }

  lemma EntryMovesOn(column: bv8, mid: bv32)
    requires column < 16 && mid == Entry(column, 0)
    ensures ShiftInHalf(mid, false, false, false, false) == Row0(column)
  {
  }

  lemma NoHighBits(column: bv8)
    requires column < 16
    ensures !Bit(column, 0x10) && !Bit(column, 0x20) && !Bit(column, 0x40) && !Bit(column, 0x80)
  {
  }

  lemma OnlyHighBits(row: bv8)
    requires row < 16
    ensures var b := row << 4;
            && !Bit(b, 0x01) && !Bit(b, 0x02) && !Bit(b, 0x04) && !Bit(b, 0x08)
            && (Bit(b, 0x10) <==> Bit(row, 0x01)) && (Bit(b, 0x20) <==> Bit(row, 0x02))
            && (Bit(b, 0x40) <==> Bit(row, 0x04)) && (Bit(b, 0x80) <==> Bit(row, 0x08))
  {
  }

  lemma FirstRow(column: bv8)
    requires column < 16
    ensures Row0(column) == ShiftInByte(0, column)
  {
    HalfIsEntry(column);
    NoHighBits(column);
    InHalves(0, column, Entry(column, 0));
    EntryMovesOn(column, Entry(column, 0));
  }

  lemma FirstColumn(row: bv8)
    requires row < 16
    ensures Entry(row, 0) == ShiftInByte(0, row << 4)
  {
    OnlyHighBits(row);
    assert ShiftInHalf(0, false, false, false, false) == 0;
    InHalves(0, row << 4, 0);
    HalfIsEntry(row);
  }

  lemma Halves(i: bv8)
    ensures i & 15 < 16 && i >> 4 < 16 && ((i >> 4) << 4) ^ (i & 15) == i
    ensures i >> 4 == 0 ==> i & 15 == i
  {
  }

  lemma TableEntry(i: bv8)
    ensures CrcTable(i) == ShiftInByte(0, i)
  {
    var row, column := i >> 4, i & 15;
    Halves(i);
    FirstRow(column);
    if row != 0 {
      RowsAreShifted(row, column);
      FirstColumn(row);
      ShiftInByteLinear(0, row << 4, 0, column);
      assert Xor(0, 0) == 0;
    }
  }

  // ---------------------------------------------------------------- one byte through the table

  /** A `char` is signed: its bits above the low byte repeat its sign. */
  function SignExtend(b: bv8): bv32 {
    if b & 0x80 != 0 then (b as bv32) | 0xffffff00 else b as bv32
  }

  function LowByte(c: bv32): bv8 {
    (c & 0xff) as bv8
  }

  /** The body of the loop of `crc32`. */
  function TableStep(crc: bv32, b: bv8): bv32 {
    Xor(CrcTable(LowByte(crc ^ SignExtend(b))), crc >> 8)
  }

  lemma IndexIs(crc: bv32, b: bv8)
    ensures LowByte(crc ^ SignExtend(b)) == LowByte(crc) ^ b
  {
  }

  /** The low byte of the register meets itself in the message and vanishes. */
  lemma Cancel(b: bv8)
    ensures ShiftInByte(b as bv32, b) == 0
  {
  }

  lemma HighPart(crc: bv32)
    ensures ShiftInByte(crc & 0xffffff00, 0) == crc >> 8
  {
  }

  lemma SplitRegister(crc: bv32, b: bv8)
    ensures Xor(crc & 0xffffff00, LowByte(crc) as bv32) == crc && 0 ^ b == b
  {
  }

  lemma HighBitsFallThrough(crc: bv32, b: bv8)
    ensures ShiftInByte(crc, b) == Xor(crc >> 8, ShiftInByte(LowByte(crc) as bv32, b))
  {
    SplitRegister(crc, b);
    ShiftInByteLinear(crc & 0xffffff00, 0, LowByte(crc) as bv32, b);
    HighPart(crc);
  }

  lemma LowByteMeetsMessage(low: bv8, b: bv8)
    ensures ShiftInByte(low as bv32, b) == ShiftInByte(0, low ^ b)
  {
    XorBack(low, b);
    ShiftInByteLinear(low as bv32, low, 0, low ^ b);
    Cancel(low);
    assert Xor(0, ShiftInByte(0, low ^ b)) == ShiftInByte(0, low ^ b);
  }

  lemma XorBack(low: bv8, b: bv8)
    ensures Xor(low as bv32, 0) == low as bv32 && low ^ (low ^ b) == b
  {
  }

  lemma LowByteThroughTable(low: bv8, b: bv8)
    ensures ShiftInByte(low as bv32, b) == CrcTable(low ^ b)
  {
    LowByteMeetsMessage(low, b);
    TableEntry(low ^ b);
  }

  lemma ShiftIsLookup(crc: bv32, b: bv8, low: bv8)
    requires low == LowByte(crc)
    ensures ShiftInByte(crc, b) == Xor(crc >> 8, CrcTable(low ^ b))
  {
    HighBitsFallThrough(crc, b);
    LowByteThroughTable(low, b);
  }

  lemma TableStepIsShift(crc: bv32, b: bv8)
    ensures TableStep(crc, b) == ShiftInByte(crc, b)
  {
    IndexIs(crc, b);
    ShiftIsLookup(crc, b, LowByte(crc));
    XorCommutes(crc >> 8, CrcTable(LowByte(crc) ^ b));
  }

  /** `crc32` computes the bitwise check of the whole buffer. */
  method Compute(buffer: seq<bv8>) returns (crc: bv32)
    ensures crc == BitwiseCrc(buffer)
  {
    crc := 0xffffffff;
    for i := 0 to |buffer|
      invariant crc == BitwiseCrc(buffer[..i])
    {
      TableStepExtends(buffer[..i], buffer[i]);
      assert buffer[..i] + [buffer[i]] == buffer[..i + 1];
      crc := TableStep(crc, buffer[i]);
    }
    assert buffer[..|buffer|] == buffer;
  }

  lemma TableStepExtends(message: seq<bv8>, b: bv8)
    ensures TableStep(BitwiseCrc(message), b) == BitwiseCrc(message + [b])
  {
    var m := message + [b];
    assert m[..|m| - 1] == message;
    TableStepIsShift(BitwiseCrc(message), b);
  }

  // ---------------------------------------------------------------- a known check value

  lemma OneByte(b: bv8, crc: bv32)
    requires ShiftInByte(0xFFFFFFFF, b) == crc
    ensures BitwiseCrc([b]) == crc
  {
    assert [b][..0] == [];
  }

  lemma LetterShiftedIn()
    ensures ShiftInByte(0xFFFFFFFF, 0x61) == 0x174841BC
  {
    assert ShiftIn(0xFFFFFFFF, Bit(0x61, 0x01)) == 0x7FFFFFFF;
    assert ShiftIn(0x7FFFFFFF, Bit(0x61, 0x02)) == 0xD2477CDF;
    assert ShiftIn(0xD2477CDF, Bit(0x61, 0x04)) == 0x849B3D4F;
    assert ShiftIn(0x849B3D4F, Bit(0x61, 0x08)) == 0xAFF51D87;
    assert ShiftIn(0xAFF51D87, Bit(0x61, 0x10)) == 0xBA420DE3;
    assert ShiftIn(0xBA420DE3, Bit(0x61, 0x20)) == 0x5D2106F1;
    assert ShiftIn(0x5D2106F1, Bit(0x61, 0x40)) == 0x2E908378;
    assert ShiftIn(0x2E908378, Bit(0x61, 0x80)) == 0x174841BC;
  }

  /** The letter a gives the complement of 0xE8B7BE43, its CRC-32. */
  lemma CheckValue()
    ensures BitwiseCrc([0x61]) == !0xE8B7BE43
  {
    LetterShiftedIn();
    OneByte(0x61, 0x174841BC);
  }
}
