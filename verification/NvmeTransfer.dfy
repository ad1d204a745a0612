/** readBlock of drivers/storage/nvme/nvme.cpp, which writeBlock repeats: commands of at most 2048
    sectors, each of them set up, submitted, waited for and unpinned. */
module NvmeTransfer {
  import opened Counting
  import opened NvmePrp

  const SECTOR := 512
  const MAX_SECTORS := 2048

  // ---------------------------------------------------------------- pin balance

  function InFrame(f: nat): nat -> bool { (a: nat) => a / PAGE_SIZE == f }

  /** How often the addresses count for a frame. */
  function Refs(addrs: seq<nat>, f: nat): nat { Num(addrs, InFrame(f)) }

  /** Every frame but frame 0, which the reference counts pass over, is pinned as often as it is
      unpinned. */
  ghost predicate Balanced(pins: seq<nat>, unpins: seq<nat>) {
    forall f: nat | f > 0 :: Refs(pins, f) == Refs(unpins, f)
  }

  /** Never pinned more often than unpinned. */
  ghost predicate AtMost(pins: seq<nat>, unpins: seq<nat>) {
    forall f: nat | f > 0 :: Refs(pins, f) <= Refs(unpins, f)
  }

  /** None of the addresses counts for a frame. */
  predicate NoFrames(addrs: seq<nat>) {
    forall i | 0 <= i < |addrs| :: addrs[i] / PAGE_SIZE == 0
  }

  lemma {:induction false} NoFramesExactly(addrs: seq<nat>)
    ensures NoFrames(addrs) <==> forall f: nat | f > 0 :: Refs(addrs, f) == 0
  {
    if NoFrames(addrs) {
      forall f: nat | f > 0 ensures Refs(addrs, f) == 0 { NumNone(addrs, InFrame(f)); }
    } else {
      var i :| 0 <= i < |addrs| && addrs[i] / PAGE_SIZE != 0;
      NumPositive(addrs, i, InFrame(addrs[i] / PAGE_SIZE));
      assert Refs(addrs, addrs[i] / PAGE_SIZE) > 0;
    }
  }

  /** Pins and later a second round of unpins. */
  lemma Twice(once: seq<nat>, pages: seq<nat>)
    ensures Balanced(once, once + pages) <==> NoFrames(pages)
    ensures AtMost(once, once + pages)
  {
    forall f: nat ensures Refs(once + pages, f) == Refs(once, f) + Refs(pages, f) { NumConcat(once, pages, InFrame(f)); }
    NoFramesExactly(pages);
    if Balanced(once, once + pages) {
      forall f: nat | f > 0 ensures Refs(pages, f) == 0 { assert Refs(once, f) == Refs(once + pages, f); }
    }
  }

  /** What follows leaves a surplus of unpins as it is or adds to it. */
  lemma Surplus(pins: seq<nat>, unpins: seq<nat>, more: seq<nat>, moreUn: seq<nat>)
    requires AtMost(pins, unpins) && AtMost(more, moreUn)
    ensures AtMost(pins + more, unpins + moreUn)
    ensures Balanced(pins + more, unpins + moreUn) <==> Balanced(pins, unpins) && Balanced(more, moreUn)
  {
    var p, u := pins + more, unpins + moreUn;
    forall f: nat | f > 0
      ensures Refs(p, f) == Refs(pins, f) + Refs(more, f) && Refs(u, f) == Refs(unpins, f) + Refs(moreUn, f)
      ensures Refs(pins, f) <= Refs(unpins, f) && Refs(more, f) <= Refs(moreUn, f)
    {
      NumConcat(pins, more, InFrame(f));
      NumConcat(unpins, moreUn, InFrame(f));
    }
    if Balanced(p, u) {
      forall f: nat | f > 0 ensures Refs(pins, f) == Refs(unpins, f) && Refs(more, f) == Refs(moreUn, f) {
        assert Refs(p, f) == Refs(u, f);
      }
    }
  }

  // ---------------------------------------------------------------- one command

  /** The callers' only test: setupPRPs gave 0 and the first page has no address. */
  predicate Refused(phys: Phys, buffer: nat, size: nat, block: nat, memory: bool) {
    phys(buffer) == 0 && !(MorePages(buffer, size) > 1 && memory && phys(block) != 0)
  }

  /** One round of the loop. A refused command is returned from at once, any other is submitted
      and its whole buffer unpinned, whether the controller answers or not. So the pins balance
      exactly if the command is refused for want of a list, or submitted and not, or nothing
      counts. A command that had no list is submitted with prp2 = 0. */
  method Round(phys: Phys, buffer: nat, sectors: nat, block: nat, memory: bool)
    returns (submitted: bool, cmd: Command, list: array<nat>, pins: seq<nat>, unpins: seq<nat>)
    requires 0 < sectors <= MAX_SECTORS
    ensures var size := sectors * SECTOR; var pages := BufferPages(phys, buffer, size); var noList := NoList(buffer, size, memory);
            && (submitted <==> !Refused(phys, buffer, size, block, memory))
            && (Balanced(pins, unpins) <==> (submitted <==> !noList) || NoFrames(pages))
            && (submitted ==> AtMost(pins, unpins))
            && (submitted && noList ==> cmd == Command(phys(buffer), 0))
            && (submitted && !noList ==>
                  forall mem: Lists | Visible(mem, list[..], phys, block, list.Length / ENTRIES) :: Transfer(cmd, mem, MorePages(buffer, size)) == pages)
  {
    var size := sectors * SECTOR;
    ghost var pages := BufferPages(phys, buffer, size);
    CallersNeverWrap(buffer, size);
    var res, listed, overrun;
    res, listed, overrun, cmd, list, pins, unpins := SetupPrps(phys, buffer, size, block, memory);
    if res == 0 && cmd.prp1 == 0 {
      Unsent(phys, buffer, size, memory, pins, unpins);
      return false, cmd, list, pins, unpins;
    }
    submitted := true;
    var back := UnpinBuffer(phys, buffer, size);
    if NoList(buffer, size, memory) {
      Twice(pins, back);
    } else {
      assert unpins + back == pins;
    }
    unpins := unpins + back;
  }

  lemma Unsent(phys: Phys, buffer: nat, size: nat, memory: bool, pins: seq<nat>, unpins: seq<nat>)
    requires phys(buffer) == 0
    requires NoList(buffer, size, memory) ==> pins == unpins
    requires !NoList(buffer, size, memory) ==> pins == BufferPages(phys, buffer, size) && unpins == []
    ensures Balanced(pins, unpins) <==> NoList(buffer, size, memory) || NoFrames(BufferPages(phys, buffer, size))
  {
    if !NoList(buffer, size, memory) {
      Twice([], pins);
      assert [] + pins == pins;
      assert Balanced(pins, []) <==> Balanced([], pins);
    }
  }

  // ---------------------------------------------------------------- a whole call

  /** Every address is mapped to some frame but frame 0. */
  ghost predicate Mapped(phys: Phys) { forall a: nat :: phys(a) >= PAGE_SIZE }

  /** A command: where in the buffer, which block of the disk, how many sectors. */
  datatype Io = Io(at: nat, lba: nat, sectors: nat)

  /** Command i of a call. The offset in the buffer is computed in 32 bits. */
  function IoAt(lba: nat, count: nat, i: nat): Io
    requires i * MAX_SECTORS < count
  {
    var s := i * MAX_SECTORS;
    Io(s * SECTOR % U32, lba + s, if count - s > MAX_SECTORS then MAX_SECTORS else count - s)
  }

  predicate IsIo(io: Io, lba: nat, count: nat, i: nat) { i * MAX_SECTORS < count && io == IoAt(lba, count, i) }

  /** Command i had no list. */
  predicate Failed(buffer: nat, count: nat, memory: nat -> bool, i: nat) {
    i * MAX_SECTORS < count && var io := IoAt(0, count, i); NoList(buffer + io.at, io.sectors * SECTOR, memory(i))
  }

  /** Three pages need a list; without memory for it the command goes out and its buffer is
      unpinned once too often. */
  lemma FailedExample(buffer: nat)
    requires buffer % PAGE_SIZE == 0
    ensures Failed(buffer, 24, (_: nat) => false, 0) && !NoneFailed(buffer, 24, (_: nat) => false, 1)
  {
    assert NoList(buffer, 24 * SECTOR, false);
  }

  predicate NoneFailed(buffer: nat, count: nat, memory: nat -> bool, n: nat) {
    forall i: nat | i < n :: !Failed(buffer, count, memory, i)
  }

  /** How the pins of the first n commands stand. */
  ghost predicate Stands(buffer: nat, count: nat, memory: nat -> bool, n: nat, pins: seq<nat>, unpins: seq<nat>) {
    AtMost(pins, unpins) && (Balanced(pins, unpins) <==> NoneFailed(buffer, count, memory, n))
  }

  /** The round of command i within a call. */
  method Issue(phys: Phys, buffer: nat, lba: nat, count: nat, block: nat, memory: nat -> bool, sectors: nat, i: nat, pins: seq<nat>, unpins: seq<nat>)
    returns (submitted: bool, io: Io, pins': seq<nat>, unpins': seq<nat>)
    requires sectors == i * MAX_SECTORS < count
    ensures io == IoAt(lba, count, i) && (Mapped(phys) ==> submitted)
    ensures Mapped(phys) && Stands(buffer, count, memory, i, pins, unpins) ==> Stands(buffer, count, memory, i + 1, pins', unpins')
  {
    io := Io(sectors * SECTOR % U32, lba + sectors, if count - sectors > MAX_SECTORS then MAX_SECTORS else count - sectors);
    var cmd, list, p, u;
    submitted, cmd, list, p, u := Round(phys, buffer + io.at, io.sectors, block, memory(i));
    pins', unpins' := pins + p, unpins + u;
    if Mapped(phys) {
      assert BufferPages(phys, buffer + io.at, io.sectors * SECTOR)[0] >= PAGE_SIZE;
      if AtMost(pins, unpins) { Surplus(pins, unpins, p, u); }
    }
    assert Failed(buffer, count, memory, i) <==> NoList(buffer + io.at, io.sectors * SECTOR, memory(i));
  }

  predicate AllAnswered(answered: nat -> bool, n: nat) {
    forall i: nat | i < n :: answered(i)
  }

  /** readBlock. The commands follow each other over the whole run of blocks. For a mapped buffer
      the call succeeds exactly if all of them are answered, and the pins balance if and only if
      every command that was set up got its list. */
  method ReadBlock(phys: Phys, buffer: nat, lba: nat, count: nat, valid: bool, block: nat -> nat, memory: nat -> bool, answered: nat -> bool)
    returns (ok: bool, pins: seq<nat>, unpins: seq<nat>, ios: seq<Io>)
    requires count < U32
    ensures ok ==> valid && count > 0 && |ios| == Ceil(count, MAX_SECTORS)
    ensures forall i | 0 <= i < |ios| :: IsIo(ios[i], lba, count, i)
    ensures Mapped(phys) ==> (ok <==> valid && count > 0 && AllAnswered(answered, Ceil(count, MAX_SECTORS)))
    ensures Mapped(phys) ==> Stands(buffer, count, memory, |ios|, pins, unpins)
  {
    ok, pins, unpins, ios := false, [], [], [];
    if count == 0 || !valid {
      return;
    }
    var sectors := 0;
    while sectors < count
      invariant sectors == (if sectors < count then |ios| * MAX_SECTORS else count) && sectors <= count
      invariant sectors == count ==> |ios| == Ceil(count, MAX_SECTORS)
      invariant (forall i | 0 <= i < |ios| :: IsIo(ios[i], lba, count, i)) && AllAnswered(answered, |ios|)
      invariant Mapped(phys) ==> Stands(buffer, count, memory, |ios|, pins, unpins)
    {
      var i := |ios|;
      var submitted, io;
      submitted, io, pins, unpins := Issue(phys, buffer, lba, count, block(i), memory, sectors, i, pins, unpins);
      if !submitted {
        return;
      }
      ios := ios + [io];
      assert i < Ceil(count, MAX_SECTORS);
      if !answered(i) {
        return;
      }
      sectors := sectors + io.sectors;
    }
    ok := true;
  }

  /** Block k is one of the command's. */
  predicate Has(io: Io, k: nat) { io.lba <= k < io.lba + io.sectors }

  /** The commands' blocks, one command after the other, are the blocks of the call: the first
      starts at the first block, each starts where the one before ends, the last ends with the
      call, and none is empty or over 2048 sectors. */
  lemma BlocksPartition(lba: nat, count: nat, i: nat)
    requires i * MAX_SECTORS < count
    ensures var io := IoAt(lba, count, i);
            && 0 < io.sectors <= 2048 && (i == 0 ==> io.lba == lba)
            && (if (i + 1) * MAX_SECTORS < count then IoAt(lba, count, i + 1).lba == io.lba + io.sectors else io.lba + io.sectors == lba + count)
  {
  }

  /** So every block of the call is in exactly one command, and no other block in any. */
  lemma EachBlockOnce(lba: nat, count: nat, k: nat)
    ensures lba <= k < lba + count ==> (k - lba) / 2048 * MAX_SECTORS < count && Has(IoAt(lba, count, (k - lba) / 2048), k)
    ensures forall i: nat | i * MAX_SECTORS < count && Has(IoAt(lba, count, i), k) :: lba <= k < lba + count && i == (k - lba) / 2048
  {
    forall i: nat | i * MAX_SECTORS < count && Has(IoAt(lba, count, i), k) ensures lba <= k < lba + count && i == (k - lba) / 2048 {
      BlocksPartition(lba, count, i);
    }
  }

  /** The offsets are the right ones if and only if the call is for at most 4 GiB. */
  lemma OffsetsExact(lba: nat, count: nat)
    ensures (forall i: nat | i * MAX_SECTORS < count :: IoAt(lba, count, i).at == i * MAX_SECTORS * SECTOR) <==> count <= 0x80_0000
  {
    if count > 0x80_0000 {
      var i := 0x1000;
      assert i * MAX_SECTORS < count && i * MAX_SECTORS * SECTOR == U32;
      assert IoAt(lba, count, i).at == 0;
    } else {
      forall i: nat | i * MAX_SECTORS < count ensures IoAt(lba, count, i).at == i * MAX_SECTORS * SECTOR {
        assert i * MAX_SECTORS * SECTOR < U32;
      }
    }
  }
}
