/** The CRC of the FINGERPRINT attribute: the 256-entry table against the bits of the message. */
module Crc {
  import opened Addresses
  import opened CrcTheory

  const POLYNOMIAL: bv32 := 0xEDB88320
  const MASK: bv32 := 0xFFFFFFFF

  // ---------------------------------------------------------------- the table

  function Row0(i: bv8): bv32
  {
    match i
    case 0x00 => 0x00000000 case 0x01 => 0x77073096 case 0x02 => 0xee0e612c case 0x03 => 0x990951ba
    case 0x04 => 0x076dc419 case 0x05 => 0x706af48f case 0x06 => 0xe963a535 case 0x07 => 0x9e6495a3
    case 0x08 => 0x0edb8832 case 0x09 => 0x79dcb8a4 case 0x0a => 0xe0d5e91e case 0x0b => 0x97d2d988
    case 0x0c => 0x09b64c2b case 0x0d => 0x7eb17cbd case 0x0e => 0xe7b82d07 case _ => 0x90bf1d91
  }

  function Row1(i: bv8): bv32
  {
    match i
    case 0x10 => 0x1db71064 case 0x11 => 0x6ab020f2 case 0x12 => 0xf3b97148 case 0x13 => 0x84be41de
    case 0x14 => 0x1adad47d case 0x15 => 0x6ddde4eb case 0x16 => 0xf4d4b551 case 0x17 => 0x83d385c7
    case 0x18 => 0x136c9856 case 0x19 => 0x646ba8c0 case 0x1a => 0xfd62f97a case 0x1b => 0x8a65c9ec
    case 0x1c => 0x14015c4f case 0x1d => 0x63066cd9 case 0x1e => 0xfa0f3d63 case _ => 0x8d080df5
  }

  function Row2(i: bv8): bv32
  {
    match i
    case 0x20 => 0x3b6e20c8 case 0x21 => 0x4c69105e case 0x22 => 0xd56041e4 case 0x23 => 0xa2677172
    case 0x24 => 0x3c03e4d1 case 0x25 => 0x4b04d447 case 0x26 => 0xd20d85fd case 0x27 => 0xa50ab56b
    case 0x28 => 0x35b5a8fa case 0x29 => 0x42b2986c case 0x2a => 0xdbbbc9d6 case 0x2b => 0xacbcf940
    case 0x2c => 0x32d86ce3 case 0x2d => 0x45df5c75 case 0x2e => 0xdcd60dcf case _ => 0xabd13d59
  }

  function Row3(i: bv8): bv32
  {
    match i
    case 0x30 => 0x26d930ac case 0x31 => 0x51de003a case 0x32 => 0xc8d75180 case 0x33 => 0xbfd06116
    case 0x34 => 0x21b4f4b5 case 0x35 => 0x56b3c423 case 0x36 => 0xcfba9599 case 0x37 => 0xb8bda50f
    case 0x38 => 0x2802b89e case 0x39 => 0x5f058808 case 0x3a => 0xc60cd9b2 case 0x3b => 0xb10be924
    case 0x3c => 0x2f6f7c87 case 0x3d => 0x58684c11 case 0x3e => 0xc1611dab case _ => 0xb6662d3d
  }

  function Row4(i: bv8): bv32
  {
    match i
    case 0x40 => 0x76dc4190 case 0x41 => 0x01db7106 case 0x42 => 0x98d220bc case 0x43 => 0xefd5102a
    case 0x44 => 0x71b18589 case 0x45 => 0x06b6b51f case 0x46 => 0x9fbfe4a5 case 0x47 => 0xe8b8d433
    case 0x48 => 0x7807c9a2 case 0x49 => 0x0f00f934 case 0x4a => 0x9609a88e case 0x4b => 0xe10e9818
    case 0x4c => 0x7f6a0dbb case 0x4d => 0x086d3d2d case 0x4e => 0x91646c97 case _ => 0xe6635c01
  }

  function Row5(i: bv8): bv32
  {
    match i
    case 0x50 => 0x6b6b51f4 case 0x51 => 0x1c6c6162 case 0x52 => 0x856530d8 case 0x53 => 0xf262004e
    case 0x54 => 0x6c0695ed case 0x55 => 0x1b01a57b case 0x56 => 0x8208f4c1 case 0x57 => 0xf50fc457
    case 0x58 => 0x65b0d9c6 case 0x59 => 0x12b7e950 case 0x5a => 0x8bbeb8ea case 0x5b => 0xfcb9887c
    case 0x5c => 0x62dd1ddf case 0x5d => 0x15da2d49 case 0x5e => 0x8cd37cf3 case _ => 0xfbd44c65
  }

  function Row6(i: bv8): bv32
  {
    match i
    case 0x60 => 0x4db26158 case 0x61 => 0x3ab551ce case 0x62 => 0xa3bc0074 case 0x63 => 0xd4bb30e2
    case 0x64 => 0x4adfa541 case 0x65 => 0x3dd895d7 case 0x66 => 0xa4d1c46d case 0x67 => 0xd3d6f4fb
    case 0x68 => 0x4369e96a case 0x69 => 0x346ed9fc case 0x6a => 0xad678846 case 0x6b => 0xda60b8d0
    case 0x6c => 0x44042d73 case 0x6d => 0x33031de5 case 0x6e => 0xaa0a4c5f case _ => 0xdd0d7cc9
  }

  function Row7(i: bv8): bv32
  {
    match i
    case 0x70 => 0x5005713c case 0x71 => 0x270241aa case 0x72 => 0xbe0b1010 case 0x73 => 0xc90c2086
    case 0x74 => 0x5768b525 case 0x75 => 0x206f85b3 case 0x76 => 0xb966d409 case 0x77 => 0xce61e49f
    case 0x78 => 0x5edef90e case 0x79 => 0x29d9c998 case 0x7a => 0xb0d09822 case 0x7b => 0xc7d7a8b4
    case 0x7c => 0x59b33d17 case 0x7d => 0x2eb40d81 case 0x7e => 0xb7bd5c3b case _ => 0xc0ba6cad
  }

  function Row8(i: bv8): bv32
  {
    match i
    case 0x80 => 0xedb88320 case 0x81 => 0x9abfb3b6 case 0x82 => 0x03b6e20c case 0x83 => 0x74b1d29a
    case 0x84 => 0xead54739 case 0x85 => 0x9dd277af case 0x86 => 0x04db2615 case 0x87 => 0x73dc1683
    case 0x88 => 0xe3630b12 case 0x89 => 0x94643b84 case 0x8a => 0x0d6d6a3e case 0x8b => 0x7a6a5aa8
    case 0x8c => 0xe40ecf0b case 0x8d => 0x9309ff9d case 0x8e => 0x0a00ae27 case _ => 0x7d079eb1
  }

  function Row9(i: bv8): bv32
  {
    match i
    case 0x90 => 0xf00f9344 case 0x91 => 0x8708a3d2 case 0x92 => 0x1e01f268 case 0x93 => 0x6906c2fe
    case 0x94 => 0xf762575d case 0x95 => 0x806567cb case 0x96 => 0x196c3671 case 0x97 => 0x6e6b06e7
    case 0x98 => 0xfed41b76 case 0x99 => 0x89d32be0 case 0x9a => 0x10da7a5a case 0x9b => 0x67dd4acc
    case 0x9c => 0xf9b9df6f case 0x9d => 0x8ebeeff9 case 0x9e => 0x17b7be43 case _ => 0x60b08ed5
  }

  function RowA(i: bv8): bv32
  {
    match i
    case 0xa0 => 0xd6d6a3e8 case 0xa1 => 0xa1d1937e case 0xa2 => 0x38d8c2c4 case 0xa3 => 0x4fdff252
    case 0xa4 => 0xd1bb67f1 case 0xa5 => 0xa6bc5767 case 0xa6 => 0x3fb506dd case 0xa7 => 0x48b2364b
    case 0xa8 => 0xd80d2bda case 0xa9 => 0xaf0a1b4c case 0xaa => 0x36034af6 case 0xab => 0x41047a60
    case 0xac => 0xdf60efc3 case 0xad => 0xa867df55 case 0xae => 0x316e8eef case _ => 0x4669be79
  }

  function RowB(i: bv8): bv32
  {
    match i
    case 0xb0 => 0xcb61b38c case 0xb1 => 0xbc66831a case 0xb2 => 0x256fd2a0 case 0xb3 => 0x5268e236
    case 0xb4 => 0xcc0c7795 case 0xb5 => 0xbb0b4703 case 0xb6 => 0x220216b9 case 0xb7 => 0x5505262f
    case 0xb8 => 0xc5ba3bbe case 0xb9 => 0xb2bd0b28 case 0xba => 0x2bb45a92 case 0xbb => 0x5cb36a04
    case 0xbc => 0xc2d7ffa7 case 0xbd => 0xb5d0cf31 case 0xbe => 0x2cd99e8b case _ => 0x5bdeae1d
  }

  function RowC(i: bv8): bv32
  {
    match i
    case 0xc0 => 0x9b64c2b0 case 0xc1 => 0xec63f226 case 0xc2 => 0x756aa39c case 0xc3 => 0x026d930a
    case 0xc4 => 0x9c0906a9 case 0xc5 => 0xeb0e363f case 0xc6 => 0x72076785 case 0xc7 => 0x05005713
    case 0xc8 => 0x95bf4a82 case 0xc9 => 0xe2b87a14 case 0xca => 0x7bb12bae case 0xcb => 0x0cb61b38
    case 0xcc => 0x92d28e9b case 0xcd => 0xe5d5be0d case 0xce => 0x7cdcefb7 case _ => 0x0bdbdf21
  }

  function RowD(i: bv8): bv32
  {
    match i
    case 0xd0 => 0x86d3d2d4 case 0xd1 => 0xf1d4e242 case 0xd2 => 0x68ddb3f8 case 0xd3 => 0x1fda836e
    case 0xd4 => 0x81be16cd case 0xd5 => 0xf6b9265b case 0xd6 => 0x6fb077e1 case 0xd7 => 0x18b74777
    case 0xd8 => 0x88085ae6 case 0xd9 => 0xff0f6a70 case 0xda => 0x66063bca case 0xdb => 0x11010b5c
    case 0xdc => 0x8f659eff case 0xdd => 0xf862ae69 case 0xde => 0x616bffd3 case _ => 0x166ccf45
  }

  function RowE(i: bv8): bv32
  {
    match i
    case 0xe0 => 0xa00ae278 case 0xe1 => 0xd70dd2ee case 0xe2 => 0x4e048354 case 0xe3 => 0x3903b3c2
    case 0xe4 => 0xa7672661 case 0xe5 => 0xd06016f7 case 0xe6 => 0x4969474d case 0xe7 => 0x3e6e77db
    case 0xe8 => 0xaed16a4a case 0xe9 => 0xd9d65adc case 0xea => 0x40df0b66 case 0xeb => 0x37d83bf0
    case 0xec => 0xa9bcae53 case 0xed => 0xdebb9ec5 case 0xee => 0x47b2cf7f case _ => 0x30b5ffe9
  }

  function RowF(i: bv8): bv32
  {
    match i
    case 0xf0 => 0xbdbdf21c case 0xf1 => 0xcabac28a case 0xf2 => 0x53b39330 case 0xf3 => 0x24b4a3a6
    case 0xf4 => 0xbad03605 case 0xf5 => 0xcdd70693 case 0xf6 => 0x54de5729 case 0xf7 => 0x23d967bf
    case 0xf8 => 0xb3667a2e case 0xf9 => 0xc4614ab8 case 0xfa => 0x5d681b02 case 0xfb => 0x2a6f2b94
    case 0xfc => 0xb40bbe37 case 0xfd => 0xc30c8ea1 case 0xfe => 0x5a05df1b case _ => 0x2d02ef8d
  }

  /** The entry of the table at an index. */
  function Entry(i: bv8): bv32
  {
    if i < 0x10 then Row0(i)
    else if i < 0x20 then Row1(i)
    else if i < 0x30 then Row2(i)
    else if i < 0x40 then Row3(i)
    else if i < 0x50 then Row4(i)
    else if i < 0x60 then Row5(i)
    else if i < 0x70 then Row6(i)
    else if i < 0x80 then Row7(i)
    else if i < 0x90 then Row8(i)
    else if i < 0xa0 then Row9(i)
    else if i < 0xb0 then RowA(i)
    else if i < 0xc0 then RowB(i)
    else if i < 0xd0 then RowC(i)
    else if i < 0xe0 then RowD(i)
    else if i < 0xf0 then RowE(i)
    else RowF(i)
  }

  // ---------------------------------------------------------------- its generator

  /** One step of the shift register. */
  function Shift(r: bv32): bv32
  {
    (r >> 1) ^ (if r & 1 == 1 then POLYNOMIAL else 0)
  }

  /** What the generator puts into the table at index r. */
  function Shift8(r: bv32): bv32
  {
    Shift(Shift(Shift(Shift(Shift(Shift(Shift(Shift(r))))))))
  }

  lemma RowRight0(i: bv8)
    requires 0x00 <= i <= 0x0f
    ensures Row0(i) == Shift8(i as bv32)
  {
    match i
    case 0x00 => case 0x01 => case 0x02 => case 0x03 => case 0x04 => case 0x05 => case 0x06 => case 0x07 =>
    case 0x08 => case 0x09 => case 0x0a => case 0x0b => case 0x0c => case 0x0d => case 0x0e => case _ =>
  }

  lemma RowRight1(i: bv8)
    requires 0x10 <= i <= 0x1f
    ensures Row1(i) == Shift8(i as bv32)
  {
    match i
    case 0x10 => case 0x11 => case 0x12 => case 0x13 => case 0x14 => case 0x15 => case 0x16 => case 0x17 =>
    case 0x18 => case 0x19 => case 0x1a => case 0x1b => case 0x1c => case 0x1d => case 0x1e => case _ =>
  }

  lemma RowRight2(i: bv8)
    requires 0x20 <= i <= 0x2f
    ensures Row2(i) == Shift8(i as bv32)
  {
    match i
    case 0x20 => case 0x21 => case 0x22 => case 0x23 => case 0x24 => case 0x25 => case 0x26 => case 0x27 =>
    case 0x28 => case 0x29 => case 0x2a => case 0x2b => case 0x2c => case 0x2d => case 0x2e => case _ =>
  }

  lemma RowRight3(i: bv8)
    requires 0x30 <= i <= 0x3f
    ensures Row3(i) == Shift8(i as bv32)
  {
    match i
    case 0x30 => case 0x31 => case 0x32 => case 0x33 => case 0x34 => case 0x35 => case 0x36 => case 0x37 =>
    case 0x38 => case 0x39 => case 0x3a => case 0x3b => case 0x3c => case 0x3d => case 0x3e => case _ =>
  }

  lemma RowRight4(i: bv8)
    requires 0x40 <= i <= 0x4f
    ensures Row4(i) == Shift8(i as bv32)
  {
    match i
    case 0x40 => case 0x41 => case 0x42 => case 0x43 => case 0x44 => case 0x45 => case 0x46 => case 0x47 =>
    case 0x48 => case 0x49 => case 0x4a => case 0x4b => case 0x4c => case 0x4d => case 0x4e => case _ =>
  }

  lemma RowRight5(i: bv8)
    requires 0x50 <= i <= 0x5f
    ensures Row5(i) == Shift8(i as bv32)
  {
    match i
    case 0x50 => case 0x51 => case 0x52 => case 0x53 => case 0x54 => case 0x55 => case 0x56 => case 0x57 =>
    case 0x58 => case 0x59 => case 0x5a => case 0x5b => case 0x5c => case 0x5d => case 0x5e => case _ =>
  }

  lemma RowRight6(i: bv8)
    requires 0x60 <= i <= 0x6f
    ensures Row6(i) == Shift8(i as bv32)
  {
    match i
    case 0x60 => case 0x61 => case 0x62 => case 0x63 => case 0x64 => case 0x65 => case 0x66 => case 0x67 =>
    case 0x68 => case 0x69 => case 0x6a => case 0x6b => case 0x6c => case 0x6d => case 0x6e => case _ =>
  }

  lemma RowRight7(i: bv8)
    requires 0x70 <= i <= 0x7f
    ensures Row7(i) == Shift8(i as bv32)
  {
    match i
    case 0x70 => case 0x71 => case 0x72 => case 0x73 => case 0x74 => case 0x75 => case 0x76 => case 0x77 =>
    case 0x78 => case 0x79 => case 0x7a => case 0x7b => case 0x7c => case 0x7d => case 0x7e => case _ =>
  }

  lemma RowRight8(i: bv8)
    requires 0x80 <= i <= 0x8f
    ensures Row8(i) == Shift8(i as bv32)
  {
    match i
    case 0x80 => case 0x81 => case 0x82 => case 0x83 => case 0x84 => case 0x85 => case 0x86 => case 0x87 =>
    case 0x88 => case 0x89 => case 0x8a => case 0x8b => case 0x8c => case 0x8d => case 0x8e => case _ =>
  }

  lemma RowRight9(i: bv8)
    requires 0x90 <= i <= 0x9f
    ensures Row9(i) == Shift8(i as bv32)
  {
    match i
    case 0x90 => case 0x91 => case 0x92 => case 0x93 => case 0x94 => case 0x95 => case 0x96 => case 0x97 =>
    case 0x98 => case 0x99 => case 0x9a => case 0x9b => case 0x9c => case 0x9d => case 0x9e => case _ =>
  }

  lemma RowRightA(i: bv8)
    requires 0xa0 <= i <= 0xaf
    ensures RowA(i) == Shift8(i as bv32)
  {
    match i
    case 0xa0 => case 0xa1 => case 0xa2 => case 0xa3 => case 0xa4 => case 0xa5 => case 0xa6 => case 0xa7 =>
    case 0xa8 => case 0xa9 => case 0xaa => case 0xab => case 0xac => case 0xad => case 0xae => case _ =>
  }

  lemma RowRightB(i: bv8)
    requires 0xb0 <= i <= 0xbf
    ensures RowB(i) == Shift8(i as bv32)
  {
    match i
    case 0xb0 => case 0xb1 => case 0xb2 => case 0xb3 => case 0xb4 => case 0xb5 => case 0xb6 => case 0xb7 =>
    case 0xb8 => case 0xb9 => case 0xba => case 0xbb => case 0xbc => case 0xbd => case 0xbe => case _ =>
  }

  lemma RowRightC(i: bv8)
    requires 0xc0 <= i <= 0xcf
    ensures RowC(i) == Shift8(i as bv32)
  {
    match i
    case 0xc0 => case 0xc1 => case 0xc2 => case 0xc3 => case 0xc4 => case 0xc5 => case 0xc6 => case 0xc7 =>
    case 0xc8 => case 0xc9 => case 0xca => case 0xcb => case 0xcc => case 0xcd => case 0xce => case _ =>
  }

  lemma RowRightD(i: bv8)
    requires 0xd0 <= i <= 0xdf
    ensures RowD(i) == Shift8(i as bv32)
  {
    match i
    case 0xd0 => case 0xd1 => case 0xd2 => case 0xd3 => case 0xd4 => case 0xd5 => case 0xd6 => case 0xd7 =>
    case 0xd8 => case 0xd9 => case 0xda => case 0xdb => case 0xdc => case 0xdd => case 0xde => case _ =>
  }

  lemma RowRightE(i: bv8)
    requires 0xe0 <= i <= 0xef
    ensures RowE(i) == Shift8(i as bv32)
  {
    match i
    case 0xe0 => case 0xe1 => case 0xe2 => case 0xe3 => case 0xe4 => case 0xe5 => case 0xe6 => case 0xe7 =>
    case 0xe8 => case 0xe9 => case 0xea => case 0xeb => case 0xec => case 0xed => case 0xee => case _ =>
  }

  lemma RowRightF(i: bv8)
    requires 0xf0 <= i <= 0xff
    ensures RowF(i) == Shift8(i as bv32)
  {
    match i
    case 0xf0 => case 0xf1 => case 0xf2 => case 0xf3 => case 0xf4 => case 0xf5 => case 0xf6 => case 0xf7 =>
    case 0xf8 => case 0xf9 => case 0xfa => case 0xfb => case 0xfc => case 0xfd => case 0xfe => case _ =>
  }

  /** The table holds what the generator puts into it. */
  lemma TableRight(i: bv8)
    ensures Entry(i) == Shift8(i as bv32)
  {
    if i < 0x10 { RowRight0(i); return; }
    if 0x10 <= i < 0x20 { RowRight1(i); return; }
    if 0x20 <= i < 0x30 { RowRight2(i); return; }
    if 0x30 <= i < 0x40 { RowRight3(i); return; }
    if 0x40 <= i < 0x50 { RowRight4(i); return; }
    if 0x50 <= i < 0x60 { RowRight5(i); return; }
    if 0x60 <= i < 0x70 { RowRight6(i); return; }
    if 0x70 <= i < 0x80 { RowRight7(i); return; }
    if 0x80 <= i < 0x90 { RowRight8(i); return; }
    if 0x90 <= i < 0xa0 { RowRight9(i); return; }
    if 0xa0 <= i < 0xb0 { RowRightA(i); return; }
    if 0xb0 <= i < 0xc0 { RowRightB(i); return; }
    if 0xc0 <= i < 0xd0 { RowRightC(i); return; }
    if 0xd0 <= i < 0xe0 { RowRightD(i); return; }
    if 0xe0 <= i < 0xf0 { RowRightE(i); return; }
    RowRightF(i);
  }

  // ---------------------------------------------------------------- the circuit

  function Xor(a: bv32, b: bv32): bv32 { a ^ b }

  function Index(crc: bv32, b: bv8): bv8 { ((crc & 0xFF) as bv8) ^ b }

  const CRC32: Circuit := Circuit(Shift, Xor, Entry, Index)

  lemma XorAssoc(a: bv32, b: bv32, c: bv32, ab: bv32, bc: bv32, l: bv32, r: bv32)
    requires ab == a ^ b && bc == b ^ c && l == ab ^ c && r == a ^ bc
    ensures l == r
  {
  }

  lemma AddIs(a: bv32, b: bv32)
    ensures CRC32.add(a, b) == a ^ b
  {
  }

  lemma XorSplit(c: bv32)
    ensures (c & 1) ^ (c & 0xFFFFFFFE) == c && (c & 0xFFFFFFFE) & 1 == 0 && (c & 0xFFFFFFFE) >> 1 == c >> 1
  {
  }

  lemma XorIndex(crc: bv32, b: bv8)
    ensures ((((crc & 0xFF) as bv8) ^ b) as bv32) ^ (crc & 0xFFFFFF00) == crc ^ (b as bv32)
  {
  }

  lemma CrcAssoc(a: bv32, b: bv32, c: bv32)
    ensures AssocAt(CRC32, a, b, c)
  {
    var ab, bc := CRC32.add(a, b), CRC32.add(b, c);
    AddIs(a, b);
    AddIs(b, c);
    AddIs(ab, c);
    AddIs(a, bc);
    XorAssoc(a, b, c, ab, bc, CRC32.add(ab, c), CRC32.add(a, bc));
  }

  lemma CrcSplit(c: bv32)
    ensures SplitAt(CRC32, c)
  {
    XorSplit(c);
  }

  lemma CrcIndex(crc: bv32, b: bv8)
    ensures IndexAt(CRC32, crc, b)
  {
    XorIndex(crc, b);
  }

  lemma CrcSums()
    ensures Sums(CRC32)
  {
    forall a, b, c ensures AssocAt(CRC32, a, b, c) { CrcAssoc(a, b, c); }
    forall c ensures SplitAt(CRC32, c) { CrcSplit(c); }
    forall crc, b ensures IndexAt(CRC32, crc, b) { CrcIndex(crc, b); }
  }

  function Tap(low: bv32): bv32 { if low == 1 then POLYNOMIAL else 0 }

  lemma LowBit(a: bv32)
    ensures a & 1 == 0 || a & 1 == 1
  {
  }

  lemma XorParts(a: bv32, b: bv32)
    ensures (a ^ b) >> 1 == (a >> 1) ^ (b >> 1) && (a ^ b) & 1 == (a & 1) ^ (b & 1)
  {
  }

  lemma TapLinear(x: bv32, y: bv32)
    requires x == 0 || x == 1
    requires y == 0 || y == 1
    ensures Tap(x ^ y) == Tap(x) ^ Tap(y)
  {
  }

  lemma XorExchange(a: bv32, b: bv32, c: bv32, d: bv32)
    ensures (a ^ b) ^ (c ^ d) == (a ^ c) ^ (b ^ d)
  {
  }

  /** The shift register is linear: it shifts a sum as the sum of the shifts. */
  lemma ShiftLinear(a: bv32, b: bv32)
    ensures Shift(a ^ b) == Shift(a) ^ Shift(b)
  {
    LowBit(a);
    LowBit(b);
    XorParts(a, b);
    TapLinear(a & 1, b & 1);
    XorExchange(a >> 1, b >> 1, Tap(a & 1), Tap(b & 1));
  }

  lemma LinearFrom(a: bv32, b: bv32, s: bv32, r: bv32)
    requires s == a ^ b && r == Shift(a) ^ Shift(b)
    ensures Shift(s) == r
  {
    ShiftLinear(a, b);
  }

  lemma CrcLinear(a: bv32, b: bv32)
    ensures LinearAt(CRC32, a, b)
  {
    var s, x, y := CRC32.add(a, b), CRC32.step(a), CRC32.step(b);
    AddIs(a, b);
    AddIs(x, y);
    LinearFrom(a, b, s, CRC32.add(x, y));
  }

  lemma CrcSteps()
    ensures Steps(CRC32)
  {
    forall a, b ensures LinearAt(CRC32, a, b) { CrcLinear(a, b); }
  }

  lemma EightIs(r: bv32)
    ensures Eight(CRC32, r) == Shift8(r)
  {
  }

  lemma CrcTable()
    ensures Tabulates(CRC32)
  {
    forall i ensures EntryAt(CRC32, i) {
      TableRight(i);
      EightIs(i as bv32);
    }
  }

  /** The table look-up of the CRC is its shift register, fed with the bits of the byte. */
  lemma CrcByte(crc: bv32, b: bv8)
    ensures Update(CRC32, crc, b) == Feed(CRC32, crc, b as bv32, 8)
  {
    CrcSums();
    CrcSteps();
    CrcTable();
    UpdateIsFeed(CRC32, crc, b);
  }

  // ---------------------------------------------------------------- messages

  /** The register after the bits of the first n bytes, each byte from its lowest bit. */
  function Serial(m: Circuit, bs: seq<Byte>, n: nat): bv32
    requires n <= |bs|
  {
    if n == 0 then MASK else Feed(m, Serial(m, bs, n - 1), (bs[n - 1] as bv8) as bv32, 8)
  }

  /** The CRC, bit by bit. */
  function BitSerial(bs: seq<Byte>): bv32
  {
    !Serial(CRC32, bs, |bs|)
  }

  /** The table look-up for one byte. */
  function LookUp(crc: bv32, b: bv8): bv32
  {
    Xor(Entry(Index(crc, b)), crc >> 8)
  }

  ghost predicate FeedsAt(m: Circuit, crc: bv32, b: bv8) { LookUp(crc, b) == Feed(m, crc, b as bv32, 8) }

  ghost predicate Feeds(m: Circuit)
  {
    forall crc, b {:trigger FeedsAt(m, crc, b)} :: FeedsAt(m, crc, b)
  }

  lemma EntryIs(i: bv8)
    ensures CRC32.entry(i) == Entry(i)
  {
  }

  lemma IndexIs(crc: bv32, b: bv8)
    ensures CRC32.index(crc, b) == Index(crc, b)
  {
  }

  lemma SumIs(a: bv32, b: bv32)
    ensures CRC32.add(a, b) == Xor(a, b)
  {
  }

  lemma LookUpIsUpdate(crc: bv32, b: bv8)
    ensures LookUp(crc, b) == Update(CRC32, crc, b)
  {
    var i := Index(crc, b);
    IndexIs(crc, b);
    EntryIs(i);
    SumIs(Entry(i), crc >> 8);
  }

  lemma CrcFeeds()
    ensures Feeds(CRC32)
  {
    forall crc, b ensures FeedsAt(CRC32, crc, b) {
      CrcByte(crc, b);
      LookUpIsUpdate(crc, b);
    }
  }

  method UpdateCrc(crc: bv32, b: bv8, ghost m: Circuit) returns (r: bv32)
    requires Feeds(m)
    ensures r == Feed(m, crc, b as bv32, 8)
  {
    r := LookUp(crc, b);
    assert FeedsAt(m, crc, b);
  }

  method CrcOf(buffer: seq<Byte>, ghost m: Circuit) returns (r: bv32)
    requires Feeds(m)
    ensures r == !Serial(m, buffer, |buffer|)
  {
    var crc: bv32 := MASK;
    var i: nat := 0;
    while i < |buffer|
      invariant i <= |buffer| && crc == Serial(m, buffer, i)
    {
      crc := UpdateCrc(crc, buffer[i] as bv8, m);
      i := i + 1;
    }
    r := !crc;
  }

  /** The CRC by table is the CRC bit by bit. */
  method Crc32(buffer: seq<Byte>) returns (r: bv32)
    ensures r == BitSerial(buffer)
  {
    CrcFeeds();
    r := CrcOf(buffer, CRC32);
  }

  // ---------------------------------------------------------------- the value of FINGERPRINT

  function BytesOf(x: bv32): (bs: seq<Byte>)
    ensures |bs| == 4
  {
    [(x >> 24) as int, ((x >> 16) & 0xFF) as int, ((x >> 8) & 0xFF) as int, (x & 0xFF) as int]
  }

  function Masked(crc: bv32): (bs: seq<Byte>)
    ensures |bs| == 4
  {
    BytesOf(Xor(crc, 0x5354554e))
  }

  /** The value of FINGERPRINT for the bytes before it. */
  function Stamp(prefix: seq<Byte>): (bs: seq<Byte>)
    ensures |bs| == 4
  {
    Masked(BitSerial(prefix))
  }

  lemma LetterA()
    ensures LookUp(0xFFFFFFFF, 0x61) == 0x174841BC
  {
  }

  lemma WordBytes()
    ensures BytesOf(0xBBE3EB0D) == [0xBB, 0xE3, 0xEB, 0x0D] && Xor(0xE8B7BE43, 0x5354554e) == 0xBBE3EB0D
  {
  }

  lemma SerialOne(m: Circuit, bs: seq<Byte>)
    requires Feeds(m) && |bs| == 1
    ensures Serial(m, bs, 1) == LookUp(MASK, bs[0] as bv8)
  {
    assert FeedsAt(m, MASK, bs[0] as bv8);
    assert Serial(m, bs, 0) == MASK;
  }

  lemma CrcOfOne(bs: seq<Byte>)
    requires |bs| == 1
    ensures BitSerial(bs) == !LookUp(MASK, bs[0] as bv8)
  {
    CrcFeeds();
    SerialOne(CRC32, bs);
  }

  lemma BitsOfA(b: Byte)
    requires b == 0x61
    ensures b as bv8 == 0x61
  {
  }

  lemma CrcOfA(b: bv8, r: bv32)
    requires b == 0x61 && r == !LookUp(MASK, b)
    ensures r == 0xE8B7BE43
  {
    LetterA();
  }

  lemma MaskedIs(crc: bv32)
    requires crc == 0xE8B7BE43
    ensures Masked(crc) == [0xBB, 0xE3, 0xEB, 0x0D]
  {
    WordBytes();
  }

  /** The CRC of the single letter "a" is 0xE8B7BE43, and its fingerprint is that with the letters "STUN". */
  lemma SampleStamp(bs: seq<Byte>)
    requires |bs| == 1 && bs[0] == 0x61
    ensures BitSerial(bs) == 0xE8B7BE43 && Stamp(bs) == [0xBB, 0xE3, 0xEB, 0x0D]
  {
    CrcOfOne(bs);
    BitsOfA(bs[0]);
    CrcOfA(bs[0] as bv8, BitSerial(bs));
    MaskedIs(BitSerial(bs));
  }

  method ComputeStamp(prefix: seq<Byte>) returns (bs: seq<Byte>)
    ensures bs == Stamp(prefix)
  {
    var crc := Crc32(prefix);
    bs := Masked(crc);
  }
}
