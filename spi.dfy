// The SPI helpers of src/spi.c: command-line speed and port, and the write loop
// that hands a device frame to the SPI device in blocks of at most 4096 bytes.
// The ioctl-based transfer and device set-up are not part of this model.
module Spi {
  import opened Bytes

  const SPI_MAX_WRITE := 4096
  const SPI_DEFAULT_SPEED_HZ: u32 := 8000000

  /** The speed `strtol(arg, 0, 10) * 1000000` stored in a u32. */
  function SpeedArg(arg: string): u32
  {
    U32(StrToL(arg, 10) * 1000000)
  }

  /** The port `atoi(arg)` stored in a u16. */
  function PortArg(arg: string): u16
  {
    U16(AtoI(arg))
  }

  /** A speed written in MHz is read back as that many million hertz, reduced to 32 bits. */
  lemma SpeedReadBack(mhz: nat)
    requires mhz <= LONG_MAX
    ensures SpeedArg(Decimal(mhz)) == (mhz * 1000000) % 0x1_0000_0000
  {
    StrToLDecimal(mhz);
  }

  /** A port written in decimal is read back unchanged. */
  lemma PortReadBack(port: u16)
    ensures PortArg(Decimal(port)) == port
  {
    StrToLDecimal(port);
    assert AtoI(Decimal(port)) == port as int;
    U16Fits(port as int);
  }

  /** `parse_args(&speed, &port, argc, argv)`: `argv[1]` sets the speed and `argv[2]` the
      port; a value whose argument is missing is left as it was. */
  method ParseArgs(speed: u32, port: u16, argv: seq<string>) returns (newSpeed: u32, newPort: u16)
    ensures |argv| > 1 ==> newSpeed == SpeedArg(argv[1])
    ensures |argv| <= 1 ==> newSpeed == speed
    ensures |argv| > 2 ==> newPort == PortArg(argv[2])
    ensures |argv| <= 2 ==> newPort == port
  {
    newSpeed, newPort := speed, port;
    if |argv| > 1 {
      newSpeed := SpeedArg(argv[1]);
    }
    if |argv| > 2 {
      newPort := PortArg(argv[2]);
    }
  }

  /** The blocks `spi_write` hands to `write`, in order. */
  function Blocks(data: seq<byte>): (bs: seq<seq<byte>>)
    decreases |data|
  {
    if data == [] then []
    else if |data| > SPI_MAX_WRITE then [data[..SPI_MAX_WRITE]] + Blocks(data[SPI_MAX_WRITE..])
    else [data]
  }

  function Flatten(bs: seq<seq<byte>>): seq<byte>
  {
    if bs == [] then [] else bs[0] + Flatten(bs[1..])
  }

  /** The blocks are non-empty, at most 4096 bytes each, there are ceil(len / 4096) of them,
      and one after another they are exactly the data. */
  lemma {:induction false} BlocksCover(data: seq<byte>)
    ensures Flatten(Blocks(data)) == data
    ensures forall k :: 0 <= k < |Blocks(data)| ==> 0 < |Blocks(data)[k]| <= SPI_MAX_WRITE
    ensures |Blocks(data)| == (|data| + SPI_MAX_WRITE - 1) / SPI_MAX_WRITE
    decreases |data|
  {
    if |data| > SPI_MAX_WRITE {
      var rest := data[SPI_MAX_WRITE..];
      BlocksCover(rest);
      var bs := Blocks(data);
      assert bs[1..] == Blocks(rest);
      assert data == data[..SPI_MAX_WRITE] + rest;
      forall k | 0 <= k < |bs| ensures 0 < |bs[k]| <= SPI_MAX_WRITE {
        if k > 0 {
          assert bs[k] == Blocks(rest)[k - 1];
        }
      }
    } else if data != [] {
      assert Blocks(data)[1..] == [];
    }
  }

  /** The number of blocks whose `write` returned less than the block: each is logged. */
  function ShortWrites(bs: seq<seq<byte>>, writes: nat -> int, k: nat): nat
    decreases |bs|
  {
    if bs == [] then 0
    else (if writes(k) < |bs[0]| then 1 else 0) + ShortWrites(bs[1..], writes, k + 1)
  }

  /** `spi_write(fd, tx, len)`; `writes(k)` is what the k-th write call returns. A short
      write is only logged: the blocks do not depend on the write results. */
  method SpiWrite(data: seq<byte>, writes: nat -> int) returns (blocks: seq<seq<byte>>, logged: nat)
    requires |data| < 0x1_0000_0000
    ensures blocks == Blocks(data)
    ensures logged == ShortWrites(blocks, writes, 0)
  {
    var tx := 0;
    var len := |data|;
    blocks := [];
    logged := 0;
    while len != 0
      invariant 0 <= tx <= |data| && tx + len == |data|
      invariant blocks + Blocks(data[tx..]) == Blocks(data)
      invariant logged + ShortWrites(Blocks(data[tx..]), writes, |blocks|) == ShortWrites(Blocks(data), writes, 0)
      decreases len
    {
      var block := if len > SPI_MAX_WRITE then SPI_MAX_WRITE else len;
      ghost var b := data[tx..tx + block];
      ghost var later := Blocks(data[tx + block..]);
      BlockStep(data, tx, block);
      ShortWritesCons(b, later, writes, |blocks|);
      assert (blocks + [b]) + later == blocks + ([b] + later);
      if writes(|blocks|) < block {
        logged := logged + 1;
      }
      blocks := blocks + [data[tx..tx + block]];
      tx := tx + block;
      len := len - block;
    }
    assert data[tx..] == [];
  }

  /** The first block of the data from `tx` on is the next `block` bytes. */
  lemma BlockStep(data: seq<byte>, tx: nat, block: nat)
    requires tx < |data| && block == (if |data| - tx > SPI_MAX_WRITE then SPI_MAX_WRITE else |data| - tx)
    ensures Blocks(data[tx..]) == [data[tx..tx + block]] + Blocks(data[tx + block..])
  {
    var rest := data[tx..];
    assert rest[block..] == data[tx + block..];
    assert rest[..block] == data[tx..tx + block];
    if |rest| <= SPI_MAX_WRITE {
      assert rest[..block] == rest && rest[block..] == [];
    }
  }

  lemma ShortWritesCons(b: seq<byte>, bs: seq<seq<byte>>, writes: nat -> int, k: nat)
    ensures ShortWrites([b] + bs, writes, k) == (if writes(k) < |b| then 1 else 0) + ShortWrites(bs, writes, k + 1)
  {
    assert ([b] + bs)[1..] == bs;
  }
}
