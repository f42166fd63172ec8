// Length and offset fields of Get Log Page (section 5.14 of NVM Express 1.4).

module LogPageWire {
  import opened Bytes

  datatype GetLogPage = GetLogPage(numDl: u16, numDu: u16, lpol: u32, lpou: u32)

  /** Byte length to the 0's based dword count, in 32-bit arithmetic. */
  function BytesToNumd(len: u32): (numd: u32)
    ensures (numd + 1) % U32 == len / 4
  {
    (len / 4 + U32 - 1) % U32
  }

  function Request(size: u32, offset: u64): GetLogPage
  {
    var numd := BytesToNumd(size);
    GetLogPage(numd % U16, numd / U16, offset % U32, offset / U32)
  }

  function Numd(cmd: GetLogPage): u32
  {
    cmd.numDu * U16 + cmd.numDl
  }

  function Length(cmd: GetLogPage): u32
  {
    (Numd(cmd) + 1) % U32 * 4 % U32
  }

  function Offset(cmd: GetLogPage): u64
  {
    cmd.lpou * U32 + cmd.lpol
  }

  /** What the host asks for is what the target reads, down to whole dwords. */
  lemma RequestRoundTrip(size: u32, offset: u64)
    ensures Length(Request(size, offset)) == size - size % 4
    ensures Offset(Request(size, offset)) == offset
  {
    var numd := BytesToNumd(size);
    assert Numd(Request(size, offset)) == numd;
    assert (numd + 1) % U32 * 4 == size - size % 4;
  }

  /** Four times a 32-bit value, in 32 bits, keeps all but its two highest bits. */
  lemma Quarter(m: u32)
    ensures m * 4 % U32 / 4 == m % 0x4000_0000
  {
    var (q, r) := (m / 0x4000_0000, m % 0x4000_0000);
    assert m * 4 == q * U32 + r * 4;
    assert (q * U32 + r * 4) % U32 == r * 4;
  }

  lemma NumdBack(numd: u32)
    ensures BytesToNumd((numd + 1) % U32 * 4 % U32) == numd
       <==> numd < 0x4000_0000 - 1 || numd == U32 - 1
  {
    hide BytesToNumd;
    var m: u32 := if numd == U32 - 1 then 0 else numd + 1;
    assert (numd + 1) % U32 == m;
    Quarter(m);
    var back := BytesToNumd(m * 4 % U32);
    assert (back + 1) % U32 == m % 0x4000_0000;
    assert (back + 1) % U32 == if back == U32 - 1 then 0 else back + 1;
  }

  /** The other way round: which commands the target's reading determines. */
  lemma CommandRoundTrip(cmd: GetLogPage)
    ensures Request(Length(cmd), Offset(cmd)) == cmd
       <==> Numd(cmd) < 0x4000_0000 - 1 || Numd(cmd) == U32 - 1
  {
    NumdBack(Numd(cmd));
    assert Offset(cmd) / U32 == cmd.lpou && Offset(cmd) % U32 == cmd.lpol;
    assert Numd(cmd) / U16 == cmd.numDu && Numd(cmd) % U16 == cmd.numDl;
    assert Numd(Request(Length(cmd), Offset(cmd))) == BytesToNumd(Length(cmd));
  }
}
