/**
 The checksum table, and that every entry is eight steps of the bit-by-bit division.
 */
module CrcTable {
  import opened CrcBits

  function Row0(j: bv32): (v: bv32) {
    if j == 0 then 0x00000000 else if j == 1 then 0xF26B8303 else if j == 2 then 0xE13B70F7 else if j == 3 then 0x1350F3F4 else
    if j == 4 then 0xC79A971F else if j == 5 then 0x35F1141C else if j == 6 then 0x26A1E7E8 else if j == 7 then 0xD4CA64EB else
    if j == 8 then 0x8AD958CF else if j == 9 then 0x78B2DBCC else if j == 10 then 0x6BE22838 else if j == 11 then 0x9989AB3B else
    if j == 12 then 0x4D43CFD0 else if j == 13 then 0xBF284CD3 else if j == 14 then 0xAC78BF27 else 0x5E133C24
  }

  function Row1(j: bv32): (v: bv32) {
    if j == 0 then 0x105EC76F else if j == 1 then 0xE235446C else if j == 2 then 0xF165B798 else if j == 3 then 0x030E349B else
    if j == 4 then 0xD7C45070 else if j == 5 then 0x25AFD373 else if j == 6 then 0x36FF2087 else if j == 7 then 0xC494A384 else
    if j == 8 then 0x9A879FA0 else if j == 9 then 0x68EC1CA3 else if j == 10 then 0x7BBCEF57 else if j == 11 then 0x89D76C54 else
    if j == 12 then 0x5D1D08BF else if j == 13 then 0xAF768BBC else if j == 14 then 0xBC267848 else 0x4E4DFB4B
  }

  function Row2(j: bv32): (v: bv32) {
    if j == 0 then 0x20BD8EDE else if j == 1 then 0xD2D60DDD else if j == 2 then 0xC186FE29 else if j == 3 then 0x33ED7D2A else
    if j == 4 then 0xE72719C1 else if j == 5 then 0x154C9AC2 else if j == 6 then 0x061C6936 else if j == 7 then 0xF477EA35 else
    if j == 8 then 0xAA64D611 else if j == 9 then 0x580F5512 else if j == 10 then 0x4B5FA6E6 else if j == 11 then 0xB93425E5 else
    if j == 12 then 0x6DFE410E else if j == 13 then 0x9F95C20D else if j == 14 then 0x8CC531F9 else 0x7EAEB2FA
  }

  function Row3(j: bv32): (v: bv32) {
    if j == 0 then 0x30E349B1 else if j == 1 then 0xC288CAB2 else if j == 2 then 0xD1D83946 else if j == 3 then 0x23B3BA45 else
    if j == 4 then 0xF779DEAE else if j == 5 then 0x05125DAD else if j == 6 then 0x1642AE59 else if j == 7 then 0xE4292D5A else
    if j == 8 then 0xBA3A117E else if j == 9 then 0x4851927D else if j == 10 then 0x5B016189 else if j == 11 then 0xA96AE28A else
    if j == 12 then 0x7DA08661 else if j == 13 then 0x8FCB0562 else if j == 14 then 0x9C9BF696 else 0x6EF07595
  }

  function Row4(j: bv32): (v: bv32) {
    if j == 0 then 0x417B1DBC else if j == 1 then 0xB3109EBF else if j == 2 then 0xA0406D4B else if j == 3 then 0x522BEE48 else
    if j == 4 then 0x86E18AA3 else if j == 5 then 0x748A09A0 else if j == 6 then 0x67DAFA54 else if j == 7 then 0x95B17957 else
    if j == 8 then 0xCBA24573 else if j == 9 then 0x39C9C670 else if j == 10 then 0x2A993584 else if j == 11 then 0xD8F2B687 else
    if j == 12 then 0x0C38D26C else if j == 13 then 0xFE53516F else if j == 14 then 0xED03A29B else 0x1F682198
  }

  function Row5(j: bv32): (v: bv32) {
    if j == 0 then 0x5125DAD3 else if j == 1 then 0xA34E59D0 else if j == 2 then 0xB01EAA24 else if j == 3 then 0x42752927 else
    if j == 4 then 0x96BF4DCC else if j == 5 then 0x64D4CECF else if j == 6 then 0x77843D3B else if j == 7 then 0x85EFBE38 else
    if j == 8 then 0xDBFC821C else if j == 9 then 0x2997011F else if j == 10 then 0x3AC7F2EB else if j == 11 then 0xC8AC71E8 else
    if j == 12 then 0x1C661503 else if j == 13 then 0xEE0D9600 else if j == 14 then 0xFD5D65F4 else 0x0F36E6F7
  }

  function Row6(j: bv32): (v: bv32) {
    if j == 0 then 0x61C69362 else if j == 1 then 0x93AD1061 else if j == 2 then 0x80FDE395 else if j == 3 then 0x72966096 else
    if j == 4 then 0xA65C047D else if j == 5 then 0x5437877E else if j == 6 then 0x4767748A else if j == 7 then 0xB50CF789 else
    if j == 8 then 0xEB1FCBAD else if j == 9 then 0x197448AE else if j == 10 then 0x0A24BB5A else if j == 11 then 0xF84F3859 else
    if j == 12 then 0x2C855CB2 else if j == 13 then 0xDEEEDFB1 else if j == 14 then 0xCDBE2C45 else 0x3FD5AF46
  }

  function Row7(j: bv32): (v: bv32) {
    if j == 0 then 0x7198540D else if j == 1 then 0x83F3D70E else if j == 2 then 0x90A324FA else if j == 3 then 0x62C8A7F9 else
    if j == 4 then 0xB602C312 else if j == 5 then 0x44694011 else if j == 6 then 0x5739B3E5 else if j == 7 then 0xA55230E6 else
    if j == 8 then 0xFB410CC2 else if j == 9 then 0x092A8FC1 else if j == 10 then 0x1A7A7C35 else if j == 11 then 0xE811FF36 else
    if j == 12 then 0x3CDB9BDD else if j == 13 then 0xCEB018DE else if j == 14 then 0xDDE0EB2A else 0x2F8B6829
  }

  function Row8(j: bv32): (v: bv32) {
    if j == 0 then 0x82F63B78 else if j == 1 then 0x709DB87B else if j == 2 then 0x63CD4B8F else if j == 3 then 0x91A6C88C else
    if j == 4 then 0x456CAC67 else if j == 5 then 0xB7072F64 else if j == 6 then 0xA457DC90 else if j == 7 then 0x563C5F93 else
    if j == 8 then 0x082F63B7 else if j == 9 then 0xFA44E0B4 else if j == 10 then 0xE9141340 else if j == 11 then 0x1B7F9043 else
    if j == 12 then 0xCFB5F4A8 else if j == 13 then 0x3DDE77AB else if j == 14 then 0x2E8E845F else 0xDCE5075C
  }

  function Row9(j: bv32): (v: bv32) {
    if j == 0 then 0x92A8FC17 else if j == 1 then 0x60C37F14 else if j == 2 then 0x73938CE0 else if j == 3 then 0x81F80FE3 else
    if j == 4 then 0x55326B08 else if j == 5 then 0xA759E80B else if j == 6 then 0xB4091BFF else if j == 7 then 0x466298FC else
    if j == 8 then 0x1871A4D8 else if j == 9 then 0xEA1A27DB else if j == 10 then 0xF94AD42F else if j == 11 then 0x0B21572C else
    if j == 12 then 0xDFEB33C7 else if j == 13 then 0x2D80B0C4 else if j == 14 then 0x3ED04330 else 0xCCBBC033
  }

  function RowA(j: bv32): (v: bv32) {
    if j == 0 then 0xA24BB5A6 else if j == 1 then 0x502036A5 else if j == 2 then 0x4370C551 else if j == 3 then 0xB11B4652 else
    if j == 4 then 0x65D122B9 else if j == 5 then 0x97BAA1BA else if j == 6 then 0x84EA524E else if j == 7 then 0x7681D14D else
    if j == 8 then 0x2892ED69 else if j == 9 then 0xDAF96E6A else if j == 10 then 0xC9A99D9E else if j == 11 then 0x3BC21E9D else
    if j == 12 then 0xEF087A76 else if j == 13 then 0x1D63F975 else if j == 14 then 0x0E330A81 else 0xFC588982
  }

  function RowB(j: bv32): (v: bv32) {
    if j == 0 then 0xB21572C9 else if j == 1 then 0x407EF1CA else if j == 2 then 0x532E023E else if j == 3 then 0xA145813D else
    if j == 4 then 0x758FE5D6 else if j == 5 then 0x87E466D5 else if j == 6 then 0x94B49521 else if j == 7 then 0x66DF1622 else
    if j == 8 then 0x38CC2A06 else if j == 9 then 0xCAA7A905 else if j == 10 then 0xD9F75AF1 else if j == 11 then 0x2B9CD9F2 else
    if j == 12 then 0xFF56BD19 else if j == 13 then 0x0D3D3E1A else if j == 14 then 0x1E6DCDEE else 0xEC064EED
  }

  function RowC(j: bv32): (v: bv32) {
    if j == 0 then 0xC38D26C4 else if j == 1 then 0x31E6A5C7 else if j == 2 then 0x22B65633 else if j == 3 then 0xD0DDD530 else
    if j == 4 then 0x0417B1DB else if j == 5 then 0xF67C32D8 else if j == 6 then 0xE52CC12C else if j == 7 then 0x1747422F else
    if j == 8 then 0x49547E0B else if j == 9 then 0xBB3FFD08 else if j == 10 then 0xA86F0EFC else if j == 11 then 0x5A048DFF else
    if j == 12 then 0x8ECEE914 else if j == 13 then 0x7CA56A17 else if j == 14 then 0x6FF599E3 else 0x9D9E1AE0
  }

  function RowD(j: bv32): (v: bv32) {
    if j == 0 then 0xD3D3E1AB else if j == 1 then 0x21B862A8 else if j == 2 then 0x32E8915C else if j == 3 then 0xC083125F else
    if j == 4 then 0x144976B4 else if j == 5 then 0xE622F5B7 else if j == 6 then 0xF5720643 else if j == 7 then 0x07198540 else
    if j == 8 then 0x590AB964 else if j == 9 then 0xAB613A67 else if j == 10 then 0xB831C993 else if j == 11 then 0x4A5A4A90 else
    if j == 12 then 0x9E902E7B else if j == 13 then 0x6CFBAD78 else if j == 14 then 0x7FAB5E8C else 0x8DC0DD8F
  }

  function RowE(j: bv32): (v: bv32) {
    if j == 0 then 0xE330A81A else if j == 1 then 0x115B2B19 else if j == 2 then 0x020BD8ED else if j == 3 then 0xF0605BEE else
    if j == 4 then 0x24AA3F05 else if j == 5 then 0xD6C1BC06 else if j == 6 then 0xC5914FF2 else if j == 7 then 0x37FACCF1 else
    if j == 8 then 0x69E9F0D5 else if j == 9 then 0x9B8273D6 else if j == 10 then 0x88D28022 else if j == 11 then 0x7AB90321 else
    if j == 12 then 0xAE7367CA else if j == 13 then 0x5C18E4C9 else if j == 14 then 0x4F48173D else 0xBD23943E
  }

  function RowF(j: bv32): (v: bv32) {
    if j == 0 then 0xF36E6F75 else if j == 1 then 0x0105EC76 else if j == 2 then 0x12551F82 else if j == 3 then 0xE03E9C81 else
    if j == 4 then 0x34F4F86A else if j == 5 then 0xC69F7B69 else if j == 6 then 0xD5CF889D else if j == 7 then 0x27A40B9E else
    if j == 8 then 0x79B737BA else if j == 9 then 0x8BDCB4B9 else if j == 10 then 0x988C474D else if j == 11 then 0x6AE7C44E else
    if j == 12 then 0xBE2DA0A5 else if j == 13 then 0x4C4623A6 else if j == 14 then 0x5F16D052 else 0xAD7D5351
  }

  function Both(h: bv32, l: bv32): (r: bv32) {
    h | l
  }

  function High4(x: bv32): (r: bv32) {
    x & 0xF0
  }

  function Low4(x: bv32): (r: bv32) {
    x & 15
  }

  /** The table the software checksum is looked up in. */
  function Table(x: bv32): (v: bv32) {
    var j := Low4(x);
    if High4(x) == 0x00 then Row0(j) else
    if High4(x) == 0x10 then Row1(j) else
    if High4(x) == 0x20 then Row2(j) else
    if High4(x) == 0x30 then Row3(j) else
    if High4(x) == 0x40 then Row4(j) else
    if High4(x) == 0x50 then Row5(j) else
    if High4(x) == 0x60 then Row6(j) else
    if High4(x) == 0x70 then Row7(j) else
    if High4(x) == 0x80 then Row8(j) else
    if High4(x) == 0x90 then Row9(j) else
    if High4(x) == 0xA0 then RowA(j) else
    if High4(x) == 0xB0 then RowB(j) else
    if High4(x) == 0xC0 then RowC(j) else
    if High4(x) == 0xD0 then RowD(j) else
    if High4(x) == 0xE0 then RowE(j) else
    RowF(j)
  }

  lemma Row0Exact(j: bv32)
    requires j < 16
    ensures Row0(j) == Eight(Both(0x00, j))
  {
    assert Eight(0x00) == 0x00000000;
    assert Eight(0x01) == 0xF26B8303;
    assert Eight(0x02) == 0xE13B70F7;
    assert Eight(0x03) == 0x1350F3F4;
    assert Eight(0x04) == 0xC79A971F;
    assert Eight(0x05) == 0x35F1141C;
    assert Eight(0x06) == 0x26A1E7E8;
    assert Eight(0x07) == 0xD4CA64EB;
    assert Eight(0x08) == 0x8AD958CF;
    assert Eight(0x09) == 0x78B2DBCC;
    assert Eight(0x0A) == 0x6BE22838;
    assert Eight(0x0B) == 0x9989AB3B;
    assert Eight(0x0C) == 0x4D43CFD0;
    assert Eight(0x0D) == 0xBF284CD3;
    assert Eight(0x0E) == 0xAC78BF27;
    assert Eight(0x0F) == 0x5E133C24;
  }

  lemma Row1Exact(j: bv32)
    requires j < 16
    ensures Row1(j) == Eight(Both(0x10, j))
  {
    assert Eight(0x10) == 0x105EC76F;
    assert Eight(0x11) == 0xE235446C;
    assert Eight(0x12) == 0xF165B798;
    assert Eight(0x13) == 0x030E349B;
    assert Eight(0x14) == 0xD7C45070;
    assert Eight(0x15) == 0x25AFD373;
    assert Eight(0x16) == 0x36FF2087;
    assert Eight(0x17) == 0xC494A384;
    assert Eight(0x18) == 0x9A879FA0;
    assert Eight(0x19) == 0x68EC1CA3;
    assert Eight(0x1A) == 0x7BBCEF57;
    assert Eight(0x1B) == 0x89D76C54;
    assert Eight(0x1C) == 0x5D1D08BF;
    assert Eight(0x1D) == 0xAF768BBC;
    assert Eight(0x1E) == 0xBC267848;
    assert Eight(0x1F) == 0x4E4DFB4B;
  }

  lemma Row2Exact(j: bv32)
    requires j < 16
    ensures Row2(j) == Eight(Both(0x20, j))
  {
    assert Eight(0x20) == 0x20BD8EDE;
    assert Eight(0x21) == 0xD2D60DDD;
    assert Eight(0x22) == 0xC186FE29;
    assert Eight(0x23) == 0x33ED7D2A;
    assert Eight(0x24) == 0xE72719C1;
    assert Eight(0x25) == 0x154C9AC2;
    assert Eight(0x26) == 0x061C6936;
    assert Eight(0x27) == 0xF477EA35;
    assert Eight(0x28) == 0xAA64D611;
    assert Eight(0x29) == 0x580F5512;
    assert Eight(0x2A) == 0x4B5FA6E6;
    assert Eight(0x2B) == 0xB93425E5;
    assert Eight(0x2C) == 0x6DFE410E;
    assert Eight(0x2D) == 0x9F95C20D;
    assert Eight(0x2E) == 0x8CC531F9;
    assert Eight(0x2F) == 0x7EAEB2FA;
  }

  lemma Row3Exact(j: bv32)
    requires j < 16
    ensures Row3(j) == Eight(Both(0x30, j))
  {
    assert Eight(0x30) == 0x30E349B1;
    assert Eight(0x31) == 0xC288CAB2;
    assert Eight(0x32) == 0xD1D83946;
    assert Eight(0x33) == 0x23B3BA45;
    assert Eight(0x34) == 0xF779DEAE;
    assert Eight(0x35) == 0x05125DAD;
    assert Eight(0x36) == 0x1642AE59;
    assert Eight(0x37) == 0xE4292D5A;
    assert Eight(0x38) == 0xBA3A117E;
    assert Eight(0x39) == 0x4851927D;
    assert Eight(0x3A) == 0x5B016189;
    assert Eight(0x3B) == 0xA96AE28A;
    assert Eight(0x3C) == 0x7DA08661;
    assert Eight(0x3D) == 0x8FCB0562;
    assert Eight(0x3E) == 0x9C9BF696;
    assert Eight(0x3F) == 0x6EF07595;
  }

  lemma Row4Exact(j: bv32)
    requires j < 16
    ensures Row4(j) == Eight(Both(0x40, j))
  {
    assert Eight(0x40) == 0x417B1DBC;
    assert Eight(0x41) == 0xB3109EBF;
    assert Eight(0x42) == 0xA0406D4B;
    assert Eight(0x43) == 0x522BEE48;
    assert Eight(0x44) == 0x86E18AA3;
    assert Eight(0x45) == 0x748A09A0;
    assert Eight(0x46) == 0x67DAFA54;
    assert Eight(0x47) == 0x95B17957;
    assert Eight(0x48) == 0xCBA24573;
    assert Eight(0x49) == 0x39C9C670;
    assert Eight(0x4A) == 0x2A993584;
    assert Eight(0x4B) == 0xD8F2B687;
    assert Eight(0x4C) == 0x0C38D26C;
    assert Eight(0x4D) == 0xFE53516F;
    assert Eight(0x4E) == 0xED03A29B;
    assert Eight(0x4F) == 0x1F682198;
  }

  lemma Row5Exact(j: bv32)
    requires j < 16
    ensures Row5(j) == Eight(Both(0x50, j))
  {
    assert Eight(0x50) == 0x5125DAD3;
    assert Eight(0x51) == 0xA34E59D0;
    assert Eight(0x52) == 0xB01EAA24;
    assert Eight(0x53) == 0x42752927;
    assert Eight(0x54) == 0x96BF4DCC;
    assert Eight(0x55) == 0x64D4CECF;
    assert Eight(0x56) == 0x77843D3B;
    assert Eight(0x57) == 0x85EFBE38;
    assert Eight(0x58) == 0xDBFC821C;
    assert Eight(0x59) == 0x2997011F;
    assert Eight(0x5A) == 0x3AC7F2EB;
    assert Eight(0x5B) == 0xC8AC71E8;
    assert Eight(0x5C) == 0x1C661503;
    assert Eight(0x5D) == 0xEE0D9600;
    assert Eight(0x5E) == 0xFD5D65F4;
    assert Eight(0x5F) == 0x0F36E6F7;
  }

  lemma Row6Exact(j: bv32)
    requires j < 16
    ensures Row6(j) == Eight(Both(0x60, j))
  {
    assert Eight(0x60) == 0x61C69362;
    assert Eight(0x61) == 0x93AD1061;
    assert Eight(0x62) == 0x80FDE395;
    assert Eight(0x63) == 0x72966096;
    assert Eight(0x64) == 0xA65C047D;
    assert Eight(0x65) == 0x5437877E;
    assert Eight(0x66) == 0x4767748A;
    assert Eight(0x67) == 0xB50CF789;
    assert Eight(0x68) == 0xEB1FCBAD;
    assert Eight(0x69) == 0x197448AE;
    assert Eight(0x6A) == 0x0A24BB5A;
    assert Eight(0x6B) == 0xF84F3859;
    assert Eight(0x6C) == 0x2C855CB2;
    assert Eight(0x6D) == 0xDEEEDFB1;
    assert Eight(0x6E) == 0xCDBE2C45;
    assert Eight(0x6F) == 0x3FD5AF46;
  }

  lemma Row7Exact(j: bv32)
    requires j < 16
    ensures Row7(j) == Eight(Both(0x70, j))
  {
    assert Eight(0x70) == 0x7198540D;
    assert Eight(0x71) == 0x83F3D70E;
    assert Eight(0x72) == 0x90A324FA;
    assert Eight(0x73) == 0x62C8A7F9;
    assert Eight(0x74) == 0xB602C312;
    assert Eight(0x75) == 0x44694011;
    assert Eight(0x76) == 0x5739B3E5;
    assert Eight(0x77) == 0xA55230E6;
    assert Eight(0x78) == 0xFB410CC2;
    assert Eight(0x79) == 0x092A8FC1;
    assert Eight(0x7A) == 0x1A7A7C35;
    assert Eight(0x7B) == 0xE811FF36;
    assert Eight(0x7C) == 0x3CDB9BDD;
    assert Eight(0x7D) == 0xCEB018DE;
    assert Eight(0x7E) == 0xDDE0EB2A;
    assert Eight(0x7F) == 0x2F8B6829;
  }

  lemma Row8Exact(j: bv32)
    requires j < 16
    ensures Row8(j) == Eight(Both(0x80, j))
  {
    assert Eight(0x80) == 0x82F63B78;
    assert Eight(0x81) == 0x709DB87B;
    assert Eight(0x82) == 0x63CD4B8F;
    assert Eight(0x83) == 0x91A6C88C;
    assert Eight(0x84) == 0x456CAC67;
    assert Eight(0x85) == 0xB7072F64;
    assert Eight(0x86) == 0xA457DC90;
    assert Eight(0x87) == 0x563C5F93;
    assert Eight(0x88) == 0x082F63B7;
    assert Eight(0x89) == 0xFA44E0B4;
    assert Eight(0x8A) == 0xE9141340;
    assert Eight(0x8B) == 0x1B7F9043;
    assert Eight(0x8C) == 0xCFB5F4A8;
    assert Eight(0x8D) == 0x3DDE77AB;
    assert Eight(0x8E) == 0x2E8E845F;
    assert Eight(0x8F) == 0xDCE5075C;
  }

  lemma Row9Exact(j: bv32)
    requires j < 16
    ensures Row9(j) == Eight(Both(0x90, j))
  {
    assert Eight(0x90) == 0x92A8FC17;
    assert Eight(0x91) == 0x60C37F14;
    assert Eight(0x92) == 0x73938CE0;
    assert Eight(0x93) == 0x81F80FE3;
    assert Eight(0x94) == 0x55326B08;
    assert Eight(0x95) == 0xA759E80B;
    assert Eight(0x96) == 0xB4091BFF;
    assert Eight(0x97) == 0x466298FC;
    assert Eight(0x98) == 0x1871A4D8;
    assert Eight(0x99) == 0xEA1A27DB;
    assert Eight(0x9A) == 0xF94AD42F;
    assert Eight(0x9B) == 0x0B21572C;
    assert Eight(0x9C) == 0xDFEB33C7;
    assert Eight(0x9D) == 0x2D80B0C4;
    assert Eight(0x9E) == 0x3ED04330;
    assert Eight(0x9F) == 0xCCBBC033;
  }

  lemma RowAExact(j: bv32)
    requires j < 16
    ensures RowA(j) == Eight(Both(0xA0, j))
  {
    assert Eight(0xA0) == 0xA24BB5A6;
    assert Eight(0xA1) == 0x502036A5;
    assert Eight(0xA2) == 0x4370C551;
    assert Eight(0xA3) == 0xB11B4652;
    assert Eight(0xA4) == 0x65D122B9;
    assert Eight(0xA5) == 0x97BAA1BA;
    assert Eight(0xA6) == 0x84EA524E;
    assert Eight(0xA7) == 0x7681D14D;
    assert Eight(0xA8) == 0x2892ED69;
    assert Eight(0xA9) == 0xDAF96E6A;
    assert Eight(0xAA) == 0xC9A99D9E;
    assert Eight(0xAB) == 0x3BC21E9D;
    assert Eight(0xAC) == 0xEF087A76;
    assert Eight(0xAD) == 0x1D63F975;
    assert Eight(0xAE) == 0x0E330A81;
    assert Eight(0xAF) == 0xFC588982;
  }

  lemma RowBExact(j: bv32)
    requires j < 16
    ensures RowB(j) == Eight(Both(0xB0, j))
  {
    assert Eight(0xB0) == 0xB21572C9;
    assert Eight(0xB1) == 0x407EF1CA;
    assert Eight(0xB2) == 0x532E023E;
    assert Eight(0xB3) == 0xA145813D;
    assert Eight(0xB4) == 0x758FE5D6;
    assert Eight(0xB5) == 0x87E466D5;
    assert Eight(0xB6) == 0x94B49521;
    assert Eight(0xB7) == 0x66DF1622;
    assert Eight(0xB8) == 0x38CC2A06;
    assert Eight(0xB9) == 0xCAA7A905;
    assert Eight(0xBA) == 0xD9F75AF1;
    assert Eight(0xBB) == 0x2B9CD9F2;
    assert Eight(0xBC) == 0xFF56BD19;
    assert Eight(0xBD) == 0x0D3D3E1A;
    assert Eight(0xBE) == 0x1E6DCDEE;
    assert Eight(0xBF) == 0xEC064EED;
  }

  lemma RowCExact(j: bv32)
    requires j < 16
    ensures RowC(j) == Eight(Both(0xC0, j))
  {
    assert Eight(0xC0) == 0xC38D26C4;
    assert Eight(0xC1) == 0x31E6A5C7;
    assert Eight(0xC2) == 0x22B65633;
    assert Eight(0xC3) == 0xD0DDD530;
    assert Eight(0xC4) == 0x0417B1DB;
    assert Eight(0xC5) == 0xF67C32D8;
    assert Eight(0xC6) == 0xE52CC12C;
    assert Eight(0xC7) == 0x1747422F;
    assert Eight(0xC8) == 0x49547E0B;
    assert Eight(0xC9) == 0xBB3FFD08;
    assert Eight(0xCA) == 0xA86F0EFC;
    assert Eight(0xCB) == 0x5A048DFF;
    assert Eight(0xCC) == 0x8ECEE914;
    assert Eight(0xCD) == 0x7CA56A17;
    assert Eight(0xCE) == 0x6FF599E3;
    assert Eight(0xCF) == 0x9D9E1AE0;
  }

  lemma RowDExact(j: bv32)
    requires j < 16
    ensures RowD(j) == Eight(Both(0xD0, j))
  {
    assert Eight(0xD0) == 0xD3D3E1AB;
    assert Eight(0xD1) == 0x21B862A8;
    assert Eight(0xD2) == 0x32E8915C;
    assert Eight(0xD3) == 0xC083125F;
    assert Eight(0xD4) == 0x144976B4;
    assert Eight(0xD5) == 0xE622F5B7;
    assert Eight(0xD6) == 0xF5720643;
    assert Eight(0xD7) == 0x07198540;
    assert Eight(0xD8) == 0x590AB964;
    assert Eight(0xD9) == 0xAB613A67;
    assert Eight(0xDA) == 0xB831C993;
    assert Eight(0xDB) == 0x4A5A4A90;
    assert Eight(0xDC) == 0x9E902E7B;
    assert Eight(0xDD) == 0x6CFBAD78;
    assert Eight(0xDE) == 0x7FAB5E8C;
    assert Eight(0xDF) == 0x8DC0DD8F;
  }

  lemma RowEExact(j: bv32)
    requires j < 16
    ensures RowE(j) == Eight(Both(0xE0, j))
  {
    assert Eight(0xE0) == 0xE330A81A;
    assert Eight(0xE1) == 0x115B2B19;
    assert Eight(0xE2) == 0x020BD8ED;
    assert Eight(0xE3) == 0xF0605BEE;
    assert Eight(0xE4) == 0x24AA3F05;
    assert Eight(0xE5) == 0xD6C1BC06;
    assert Eight(0xE6) == 0xC5914FF2;
    assert Eight(0xE7) == 0x37FACCF1;
    assert Eight(0xE8) == 0x69E9F0D5;
    assert Eight(0xE9) == 0x9B8273D6;
    assert Eight(0xEA) == 0x88D28022;
    assert Eight(0xEB) == 0x7AB90321;
    assert Eight(0xEC) == 0xAE7367CA;
    assert Eight(0xED) == 0x5C18E4C9;
    assert Eight(0xEE) == 0x4F48173D;
    assert Eight(0xEF) == 0xBD23943E;
  }

  lemma RowFExact(j: bv32)
    requires j < 16
    ensures RowF(j) == Eight(Both(0xF0, j))
  {
    assert Eight(0xF0) == 0xF36E6F75;
    assert Eight(0xF1) == 0x0105EC76;
    assert Eight(0xF2) == 0x12551F82;
    assert Eight(0xF3) == 0xE03E9C81;
    assert Eight(0xF4) == 0x34F4F86A;
    assert Eight(0xF5) == 0xC69F7B69;
    assert Eight(0xF6) == 0xD5CF889D;
    assert Eight(0xF7) == 0x27A40B9E;
    assert Eight(0xF8) == 0x79B737BA;
    assert Eight(0xF9) == 0x8BDCB4B9;
    assert Eight(0xFA) == 0x988C474D;
    assert Eight(0xFB) == 0x6AE7C44E;
    assert Eight(0xFC) == 0xBE2DA0A5;
    assert Eight(0xFD) == 0x4C4623A6;
    assert Eight(0xFE) == 0x5F16D052;
    assert Eight(0xFF) == 0xAD7D5351;
  }

  /** Every entry is what eight steps make of its index. */
  lemma TableExact(x: bv32)
    requires x < 256
    ensures Table(x) == Eight(x)
  {
    hide Eight, Both, High4, Low4, Row0, Row1, Row2, Row3, Row4, Row5, Row6, Row7, Row8, Row9, RowA, RowB, RowC, RowD, RowE, RowF;
    HighNibble(x);
    var j := Low4(x);
    if High4(x) == 0x00 {
      Join(x, 0x00);
      Row0Exact(j);
    } else if High4(x) == 0x10 {
      Join(x, 0x10);
      Row1Exact(j);
    } else if High4(x) == 0x20 {
      Join(x, 0x20);
      Row2Exact(j);
    } else if High4(x) == 0x30 {
      Join(x, 0x30);
      Row3Exact(j);
    } else if High4(x) == 0x40 {
      Join(x, 0x40);
      Row4Exact(j);
    } else if High4(x) == 0x50 {
      Join(x, 0x50);
      Row5Exact(j);
    } else if High4(x) == 0x60 {
      Join(x, 0x60);
      Row6Exact(j);
    } else if High4(x) == 0x70 {
      Join(x, 0x70);
      Row7Exact(j);
    } else if High4(x) == 0x80 {
      Join(x, 0x80);
      Row8Exact(j);
    } else if High4(x) == 0x90 {
      Join(x, 0x90);
      Row9Exact(j);
    } else if High4(x) == 0xA0 {
      Join(x, 0xA0);
      RowAExact(j);
    } else if High4(x) == 0xB0 {
      Join(x, 0xB0);
      RowBExact(j);
    } else if High4(x) == 0xC0 {
      Join(x, 0xC0);
      RowCExact(j);
    } else if High4(x) == 0xD0 {
      Join(x, 0xD0);
      RowDExact(j);
    } else if High4(x) == 0xE0 {
      Join(x, 0xE0);
      RowEExact(j);
    } else if High4(x) == 0xF0 {
      Join(x, 0xF0);
      RowFExact(j);
    }
  }

  lemma HighNibble(x: bv32)
    requires x < 256
    ensures High4(x) in {0, 0x10, 0x20, 0x30, 0x40, 0x50, 0x60, 0x70, 0x80, 0x90, 0xA0, 0xB0, 0xC0, 0xD0, 0xE0, 0xF0}
  {
  }

  lemma Join(x: bv32, h: bv32)
    requires x < 256 && High4(x) == h
    ensures Both(h, Low4(x)) == x && Low4(x) < 16
  {
  }
}
