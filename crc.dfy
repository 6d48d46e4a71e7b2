// The CRC-16 used by every Libre memory section: a reflected table-driven
// CRC (polynomial 0x8408, register seeded with 0xFFFF) whose final register
// is bit-reversed before it is returned.
module Crc {
  import opened Bytes

  /** The 256-entry lookup table of the reflected polynomial 0x8408: entry
      i is the i-th constant of the firmware-tools table, found by a binary
      search on i. */
  function TableEntry(i: byte): u16
  {
    if i < 0x80 then
      if i < 0x40 then
        if i < 0x20 then
          if i < 0x10 then
            if i < 0x08 then
              if i < 0x04 then
                if i < 0x02 then (if i < 0x01 then 0 else 4489) else (if i < 0x03 then 8978 else 12955)
              else
                if i < 0x06 then (if i < 0x05 then 17956 else 22445) else (if i < 0x07 then 25910 else 29887)
            else
              if i < 0x0C then
                if i < 0x0A then (if i < 0x09 then 35912 else 40385) else (if i < 0x0B then 44890 else 48851)
              else
                if i < 0x0E then (if i < 0x0D then 51820 else 56293) else (if i < 0x0F then 59774 else 63735)
          else
            if i < 0x18 then
              if i < 0x14 then
                if i < 0x12 then (if i < 0x11 then 4225 else 264) else (if i < 0x13 then 13203 else 8730)
              else
                if i < 0x16 then (if i < 0x15 then 22181 else 18220) else (if i < 0x17 then 30135 else 25662)
            else
              if i < 0x1C then
                if i < 0x1A then (if i < 0x19 then 40137 else 36160) else (if i < 0x1B then 49115 else 44626)
              else
                if i < 0x1E then (if i < 0x1D then 56045 else 52068) else (if i < 0x1F then 63999 else 59510)
        else
          if i < 0x30 then
            if i < 0x28 then
              if i < 0x24 then
                if i < 0x22 then (if i < 0x21 then 8450 else 12427) else (if i < 0x23 then 528 else 5017)
              else
                if i < 0x26 then (if i < 0x25 then 26406 else 30383) else (if i < 0x27 then 17460 else 21949)
            else
              if i < 0x2C then
                if i < 0x2A then (if i < 0x29 then 44362 else 48323) else (if i < 0x2B then 36440 else 40913)
              else
                if i < 0x2E then (if i < 0x2D then 60270 else 64231) else (if i < 0x2F then 51324 else 55797)
          else
            if i < 0x38 then
              if i < 0x34 then
                if i < 0x32 then (if i < 0x31 then 12675 else 8202) else (if i < 0x33 then 4753 else 792)
              else
                if i < 0x36 then (if i < 0x35 then 30631 else 26158) else (if i < 0x37 then 21685 else 17724)
            else
              if i < 0x3C then
                if i < 0x3A then (if i < 0x39 then 48587 else 44098) else (if i < 0x3B then 40665 else 36688)
              else
                if i < 0x3E then (if i < 0x3D then 64495 else 60006) else (if i < 0x3F then 55549 else 51572)
      else
        if i < 0x60 then
          if i < 0x50 then
            if i < 0x48 then
              if i < 0x44 then
                if i < 0x42 then (if i < 0x41 then 16900 else 21389) else (if i < 0x43 then 24854 else 28831)
              else
                if i < 0x46 then (if i < 0x45 then 1056 else 5545) else (if i < 0x47 then 10034 else 14011)
            else
              if i < 0x4C then
                if i < 0x4A then (if i < 0x49 then 52812 else 57285) else (if i < 0x4B then 60766 else 64727)
              else
                if i < 0x4E then (if i < 0x4D then 34920 else 39393) else (if i < 0x4F then 43898 else 47859)
          else
            if i < 0x58 then
              if i < 0x54 then
                if i < 0x52 then (if i < 0x51 then 21125 else 17164) else (if i < 0x53 then 29079 else 24606)
              else
                if i < 0x56 then (if i < 0x55 then 5281 else 1320) else (if i < 0x57 then 14259 else 9786)
            else
              if i < 0x5C then
                if i < 0x5A then (if i < 0x59 then 57037 else 53060) else (if i < 0x5B then 64991 else 60502)
              else
                if i < 0x5E then (if i < 0x5D then 39145 else 35168) else (if i < 0x5F then 48123 else 43634)
        else
          if i < 0x70 then
            if i < 0x68 then
              if i < 0x64 then
                if i < 0x62 then (if i < 0x61 then 25350 else 29327) else (if i < 0x63 then 16404 else 20893)
              else
                if i < 0x66 then (if i < 0x65 then 9506 else 13483) else (if i < 0x67 then 1584 else 6073)
            else
              if i < 0x6C then
                if i < 0x6A then (if i < 0x69 then 61262 else 65223) else (if i < 0x6B then 52316 else 56789)
              else
                if i < 0x6E then (if i < 0x6D then 43370 else 47331) else (if i < 0x6F then 35448 else 39921)
          else
            if i < 0x78 then
              if i < 0x74 then
                if i < 0x72 then (if i < 0x71 then 29575 else 25102) else (if i < 0x73 then 20629 else 16668)
              else
                if i < 0x76 then (if i < 0x75 then 13731 else 9258) else (if i < 0x77 then 5809 else 1848)
            else
              if i < 0x7C then
                if i < 0x7A then (if i < 0x79 then 65487 else 60998) else (if i < 0x7B then 56541 else 52564)
              else
                if i < 0x7E then (if i < 0x7D then 47595 else 43106) else (if i < 0x7F then 39673 else 35696)
    else
      if i < 0xC0 then
        if i < 0xA0 then
          if i < 0x90 then
            if i < 0x88 then
              if i < 0x84 then
                if i < 0x82 then (if i < 0x81 then 33800 else 38273) else (if i < 0x83 then 42778 else 46739)
              else
                if i < 0x86 then (if i < 0x85 then 49708 else 54181) else (if i < 0x87 then 57662 else 61623)
            else
              if i < 0x8C then
                if i < 0x8A then (if i < 0x89 then 2112 else 6601) else (if i < 0x8B then 11090 else 15067)
              else
                if i < 0x8E then (if i < 0x8D then 20068 else 24557) else (if i < 0x8F then 28022 else 31999)
          else
            if i < 0x98 then
              if i < 0x94 then
                if i < 0x92 then (if i < 0x91 then 38025 else 34048) else (if i < 0x93 then 47003 else 42514)
              else
                if i < 0x96 then (if i < 0x95 then 53933 else 49956) else (if i < 0x97 then 61887 else 57398)
            else
              if i < 0x9C then
                if i < 0x9A then (if i < 0x99 then 6337 else 2376) else (if i < 0x9B then 15315 else 10842)
              else
                if i < 0x9E then (if i < 0x9D then 24293 else 20332) else (if i < 0x9F then 32247 else 27774)
        else
          if i < 0xB0 then
            if i < 0xA8 then
              if i < 0xA4 then
                if i < 0xA2 then (if i < 0xA1 then 42250 else 46211) else (if i < 0xA3 then 34328 else 38801)
              else
                if i < 0xA6 then (if i < 0xA5 then 58158 else 62119) else (if i < 0xA7 then 49212 else 53685)
            else
              if i < 0xAC then
                if i < 0xAA then (if i < 0xA9 then 10562 else 14539) else (if i < 0xAB then 2640 else 7129)
              else
                if i < 0xAE then (if i < 0xAD then 28518 else 32495) else (if i < 0xAF then 19572 else 24061)
          else
            if i < 0xB8 then
              if i < 0xB4 then
                if i < 0xB2 then (if i < 0xB1 then 46475 else 41986) else (if i < 0xB3 then 38553 else 34576)
              else
                if i < 0xB6 then (if i < 0xB5 then 62383 else 57894) else (if i < 0xB7 then 53437 else 49460)
            else
              if i < 0xBC then
                if i < 0xBA then (if i < 0xB9 then 14787 else 10314) else (if i < 0xBB then 6865 else 2904)
              else
                if i < 0xBE then (if i < 0xBD then 32743 else 28270) else (if i < 0xBF then 23797 else 19836)
      else
        if i < 0xE0 then
          if i < 0xD0 then
            if i < 0xC8 then
              if i < 0xC4 then
                if i < 0xC2 then (if i < 0xC1 then 50700 else 55173) else (if i < 0xC3 then 58654 else 62615)
              else
                if i < 0xC6 then (if i < 0xC5 then 32808 else 37281) else (if i < 0xC7 then 41786 else 45747)
            else
              if i < 0xCC then
                if i < 0xCA then (if i < 0xC9 then 19012 else 23501) else (if i < 0xCB then 26966 else 30943)
              else
                if i < 0xCE then (if i < 0xCD then 3168 else 7657) else (if i < 0xCF then 12146 else 16123)
          else
            if i < 0xD8 then
              if i < 0xD4 then
                if i < 0xD2 then (if i < 0xD1 then 54925 else 50948) else (if i < 0xD3 then 62879 else 58390)
              else
                if i < 0xD6 then (if i < 0xD5 then 37033 else 33056) else (if i < 0xD7 then 46011 else 41522)
            else
              if i < 0xDC then
                if i < 0xDA then (if i < 0xD9 then 23237 else 19276) else (if i < 0xDB then 31191 else 26718)
              else
                if i < 0xDE then (if i < 0xDD then 7393 else 3432) else (if i < 0xDF then 16371 else 11898)
        else
          if i < 0xF0 then
            if i < 0xE8 then
              if i < 0xE4 then
                if i < 0xE2 then (if i < 0xE1 then 59150 else 63111) else (if i < 0xE3 then 50204 else 54677)
              else
                if i < 0xE6 then (if i < 0xE5 then 41258 else 45219) else (if i < 0xE7 then 33336 else 37809)
            else
              if i < 0xEC then
                if i < 0xEA then (if i < 0xE9 then 27462 else 31439) else (if i < 0xEB then 18516 else 23005)
              else
                if i < 0xEE then (if i < 0xED then 11618 else 15595) else (if i < 0xEF then 3696 else 8185)
          else
            if i < 0xF8 then
              if i < 0xF4 then
                if i < 0xF2 then (if i < 0xF1 then 63375 else 58886) else (if i < 0xF3 then 54429 else 50452)
              else
                if i < 0xF6 then (if i < 0xF5 then 45483 else 40994) else (if i < 0xF7 then 37561 else 33584)
            else
              if i < 0xFC then
                if i < 0xFA then (if i < 0xF9 then 31687 else 27214) else (if i < 0xFB then 22741 else 18780)
              else
                if i < 0xFE then (if i < 0xFD then 15843 else 11370) else (if i < 0xFF then 7921 else 3960)
  }

  /** One step of the table-driven fold over a byte. */
  function Step(c: u16, b: byte): u16
  {
    (c >> 8) ^ TableEntry(((c ^ b as u16) & 0xFF) as byte)
  }

  /** The register after folding every byte of `data`, left to right. */
  function Register(data: seq<byte>): u16
  {
    if |data| == 0 then 0xFFFF else Step(Register(data[..|data| - 1]), data[|data| - 1])
  }

  /** Bit reversal of a 16-bit word, written bit by bit. */
  function Reverse16(c: u16): u16
  {
    ((c >> 15) & 1) | (((c >> 14) & 1) << 1) | (((c >> 13) & 1) << 2) | (((c >> 12) & 1) << 3)
    | (((c >> 11) & 1) << 4) | (((c >> 10) & 1) << 5) | (((c >> 9) & 1) << 6) | (((c >> 8) & 1) << 7)
    | (((c >> 7) & 1) << 8) | (((c >> 6) & 1) << 9) | (((c >> 5) & 1) << 10) | (((c >> 4) & 1) << 11)
    | (((c >> 3) & 1) << 12) | (((c >> 2) & 1) << 13) | (((c >> 1) & 1) << 14) | ((c & 1) << 15)
  }

  /** The checksum of `data`. */
  function Crc16(data: seq<byte>): u16
  {
    Reverse16(Register(data))
  }

  /** Reversing twice gives the word back. */
  lemma Reverse16Involution(c: u16)
    ensures Reverse16(Reverse16(c)) == c
  {
  }

  /** Reversal swaps the lowest and highest bits. */
  lemma Reverse16Ends(c: u16)
    ensures Reverse16(c) & 1 == c >> 15
    ensures Reverse16(c) >> 15 == c & 1
  {
  }

  /** The checksum of nothing is the seed, which reverses to itself. */
  lemma Crc16Empty()
    ensures Crc16([]) == 0xFFFF
  {
  }

  /** The imperative computation: the fold, then 16 shift steps that move
      the register's low bit into the result. */
  method ComputeCrc16(data: seq<byte>) returns (r: u16)
    ensures r == Crc16(data)
    ensures |data| == 0 ==> r == 0xFFFF
  {
    var crc: u16 := 0xFFFF;
    var n := 0;
    while n < |data|
      invariant 0 <= n <= |data|
      invariant crc == Register(data[..n])
    {
      assert data[..n + 1][..n] == data[..n];
      crc := Step(crc, data[n]);
      n := n + 1;
    }
    assert data[..|data|] == data;
    ghost var c := crc;
    var rev: u16 := 0;
    var k: u16 := 0;
    while k < 16
      invariant k <= 16
      invariant crc == c >> k
      invariant rev == Reverse16(c) >> (16 - k)
    {
      rev := (rev << 1) | (crc & 1);
      crc := crc >> 1;
      k := k + 1;
    }
    r := rev;
  }
}
