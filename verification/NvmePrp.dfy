/** Physical region page lists, setupPRPs and unpinBuffer of drivers/storage/nvme/nvme.cpp,
    against the controller's walk of section 4.3 of the NVM Express 1.4 specification. */
module NvmePrp {
  import opened Common

  const PAGE_SIZE := 4096
  const ENTRIES := 512
  const U32 := 0x1_0000_0000

  /** get_physical_address: some total map. */
  type Phys = nat -> nat

  function Ceil(n: nat, d: nat): nat
    requires d > 0
  {
    (n + d - 1) / d
  }

  /** Bytes of the buffer that fit its first page. */
  function FirstCap(buffer: nat): nat { PAGE_SIZE - buffer % PAGE_SIZE }

  /** Pages after the first. */
  function MorePages(buffer: nat, size: nat): nat {
    if size <= FirstCap(buffer) then 0 else Ceil(size - FirstCap(buffer), PAGE_SIZE)
  }

  /** Address of page i after the first. */
  function NextPage(buffer: nat, i: nat): nat { buffer + FirstCap(buffer) + i * PAGE_SIZE }

  function PageAt(phys: Phys, buffer: nat, i: nat): nat { phys(NextPage(buffer, i)) }

  /** Address of list page h. */
  function ListAt(phys: Phys, block: nat, h: nat): nat { phys(block + h * PAGE_SIZE) }

  /** The physical pages of the buffer after the first, from page i on. */
  function PagesFrom(phys: Phys, buffer: nat, i: nat, n: nat): seq<nat>
    requires i <= n
  {
    seq<nat>(n - i, j requires 0 <= j < n - i => PageAt(phys, buffer, i + j))
  }

  /** The physical pages of the buffer, in order. */
  function BufferPages(phys: Phys, buffer: nat, size: nat): seq<nat> {
    [phys(buffer)] + PagesFrom(phys, buffer, 0, MorePages(buffer, size))
  }

  // ---------------------------------------------------------------- the controller

  /** Physical memory that holds list pages, by address. */
  type Lists = map<nat, seq<nat>>

  /** The k entries of the list at an address. When more are left than fit the list page, its
      last entry points to the next list page. */
  function Walk(mem: Lists, addr: nat, k: nat): seq<nat>
    decreases k
  {
    if addr !in mem || |mem[addr]| != ENTRIES then []
    else if k <= ENTRIES then mem[addr][..k]
    else mem[addr][..ENTRIES - 1] + Walk(mem, mem[addr][ENTRIES - 1], k - (ENTRIES - 1))
  }

  datatype Command = Command(prp1: nat, prp2: nat)

  /** What the controller transfers to or from, for that many pages after the first. */
  function Transfer(cmd: Command, mem: Lists, more: nat): seq<nat> {
    [cmd.prp1] + if more == 0 then [] else if more == 1 then [cmd.prp2] else Walk(mem, cmd.prp2, more)
  }

  /** Where the controller reads or writes byte j: the first entry may start inside a page, and
      every later one is a whole page. */
  function ByteAt(pages: seq<nat>, j: nat): Option<nat> {
    if pages == [] then None else
    var cap := PAGE_SIZE - pages[0] % PAGE_SIZE;
    if j < cap then Some(pages[0] + j)
    else if 1 + (j - cap) / PAGE_SIZE < |pages| then Some(pages[1 + (j - cap) / PAGE_SIZE] + (j - cap) % PAGE_SIZE)
    else None
  }

  predicate InItsPage(phys: Phys, v: nat) {
    phys(v) == phys(v - v % PAGE_SIZE) + v % PAGE_SIZE && phys(v - v % PAGE_SIZE) % PAGE_SIZE == 0
  }

  /** Addresses are translated page by page. */
  ghost predicate PageWise(phys: Phys) { forall v: nat :: InItsPage(phys, v) }

  lemma PhysOf(phys: Phys, page: nat, r: nat)
    requires PageWise(phys) && page % PAGE_SIZE == 0 && r < PAGE_SIZE
    ensures phys(page + r) == phys(page) + r && phys(page + r) % PAGE_SIZE == r
  {
    assert InItsPage(phys, page + r) && (page + r) % PAGE_SIZE == r;
  }

  lemma PageBoundary(buffer: nat, i: nat)
    ensures NextPage(buffer, i) % PAGE_SIZE == 0
  {
    assert NextPage(buffer, i) == (buffer / PAGE_SIZE + 1 + i) * PAGE_SIZE;
  }

  /** A byte after the first page. */
  lemma LaterByte(buffer: nat, size: nat, j: nat)
    requires FirstCap(buffer) <= j < size
    ensures var x := j - FirstCap(buffer);
            x / PAGE_SIZE < MorePages(buffer, size) && buffer + j == NextPage(buffer, x / PAGE_SIZE) + x % PAGE_SIZE
  {
  }

  /** The pages of the buffer are where its bytes are: the controller finds each byte at its own
      physical address. */
  lemma EveryByteLands(phys: Phys, buffer: nat, size: nat, j: nat)
    requires PageWise(phys) && j < size
    ensures ByteAt(BufferPages(phys, buffer, size), j) == Some(phys(buffer + j))
  {
    var page, off, cap := buffer - buffer % PAGE_SIZE, buffer % PAGE_SIZE, FirstCap(buffer);
    PhysOf(phys, page, off);
    if j < cap {
      PhysOf(phys, page, off + j);
    } else {
      var i := (j - cap) / PAGE_SIZE;
      LaterByte(buffer, size, j);
      PageBoundary(buffer, i);
      PhysOf(phys, NextPage(buffer, i), (j - cap) % PAGE_SIZE);
      assert PagesFrom(phys, buffer, 0, MorePages(buffer, size))[i] == PageAt(phys, buffer, i);
    }
  }

  /** And there are no others: exactly the pages from the first byte's to the last byte's. */
  lemma NoMorePages(phys: Phys, buffer: nat, size: nat)
    requires size > 0
    ensures |BufferPages(phys, buffer, size)| == (buffer + size - 1) / PAGE_SIZE - buffer / PAGE_SIZE + 1
  {
  }

  // ---------------------------------------------------------------- filling the list

  /** Word x of list page g. */
  function Word(w: seq<nat>, g: nat, x: nat): nat
    requires g * ENTRIES + x < |w|
  {
    w[g * ENTRIES + x]
  }

  /** List page h carries entries from 511 h on, below x of them. */
  ghost predicate Carries(w: seq<nat>, phys: Phys, buffer: nat, h: nat, x: nat) {
    && h * ENTRIES + x <= |w|
    && forall y: nat | y < x :: Word(w, h, y) == PageAt(phys, buffer, h * (ENTRIES - 1) + y)
  }

  /** List page h is full of entries and points to the next list page. */
  ghost predicate Chained(w: seq<nat>, phys: Phys, buffer: nat, block: nat, h: nat) {
    && (h + 1) * ENTRIES <= |w| && Carries(w, phys, buffer, h, ENTRIES - 1)
    && Word(w, h, ENTRIES - 1) == ListAt(phys, block, h + 1)
  }

  /** The list pages as the controller sees them. */
  ghost predicate Visible(mem: Lists, w: seq<nat>, phys: Phys, block: nat, pages: nat) {
    && |w| == pages * ENTRIES
    && forall h: nat | h < pages ::
         ListAt(phys, block, h) in mem && mem[ListAt(phys, block, h)] == w[h * ENTRIES..(h + 1) * ENTRIES]
  }

  /** From any list page on, the walk yields the rest of the buffer's pages. */
  lemma {:induction false} WalkFrom(mem: Lists, w: seq<nat>, phys: Phys, buffer: nat, block: nat, pages: nat, g: nat, n: nat, h: nat)
    requires Visible(mem, w, phys, block, pages) && h <= g < pages
    requires forall j: nat | j < g :: Chained(w, phys, buffer, block, j)
    requires g * (ENTRIES - 1) < n <= g * (ENTRIES - 1) + ENTRIES && (g > 0 ==> n >= g * (ENTRIES - 1) + 2)
    requires Carries(w, phys, buffer, g, n - g * (ENTRIES - 1))
    ensures h * (ENTRIES - 1) <= n
    ensures Walk(mem, ListAt(phys, block, h), n - h * (ENTRIES - 1)) == PagesFrom(phys, buffer, h * (ENTRIES - 1), n)
    decreases g - h
  {
    var l := mem[ListAt(phys, block, h)];
    var k := n - h * (ENTRIES - 1);
    assert |l| == ENTRIES && forall y: nat | y < ENTRIES :: l[y] == Word(w, h, y);
    if h < g {
      WalkFrom(mem, w, phys, buffer, block, pages, g, n, h + 1);
      assert Chained(w, phys, buffer, block, h);
      assert k > ENTRIES;
      var rest := PagesFrom(phys, buffer, (h + 1) * (ENTRIES - 1), n);
      assert PagesFrom(phys, buffer, h * (ENTRIES - 1), n) == l[..ENTRIES - 1] + rest;
    } else {
      assert l[..k] == PagesFrom(phys, buffer, h * (ENTRIES - 1), n);
    }
  }

  // ---------------------------------------------------------------- setupPRPs

  /** A store into a word of list page g at or after x keeps what is already there. */
  lemma StoreKeeps(w: seq<nat>, phys: Phys, buffer: nat, block: nat, g: nat, x: nat, v: nat)
    requires g * ENTRIES + x < |w| && x < ENTRIES && Carries(w, phys, buffer, g, x)
    requires forall j: nat | j < g :: Chained(w, phys, buffer, block, j)
    ensures var w' := w[g * ENTRIES + x := v];
            Carries(w', phys, buffer, g, x) && Word(w', g, x) == v && forall j: nat | j < g :: Chained(w', phys, buffer, block, j)
  {
    var w' := w[g * ENTRIES + x := v];
    forall j: nat | j < g ensures Chained(w', phys, buffer, block, j) {
      assert Chained(w, phys, buffer, block, j) && (j + 1) * ENTRIES <= g * ENTRIES;
      assert Word(w', j, ENTRIES - 1) == Word(w, j, ENTRIES - 1);
      forall y: nat | y < ENTRIES - 1 ensures Word(w', j, y) == PageAt(phys, buffer, j * (ENTRIES - 1) + y) {
        assert Word(w', j, y) == Word(w, j, y);
      }
    }
    forall y: nat | y < x ensures Word(w', g, y) == PageAt(phys, buffer, g * (ENTRIES - 1) + y) {
      assert Word(w', g, y) == Word(w, g, y);
    }
  }

  lemma CarriesMore(w: seq<nat>, phys: Phys, buffer: nat, g: nat, x: nat)
    requires g * ENTRIES + x < |w| && Carries(w, phys, buffer, g, x) && Word(w, g, x) == PageAt(phys, buffer, g * (ENTRIES - 1) + x)
    ensures Carries(w, phys, buffer, g, x + 1)
  {
  }

  /** Where the loop stands after e entries: list page g, word x, all before it right. */
  ghost predicate Filled(w: seq<nat>, phys: Phys, buffer: nat, block: nat, g: nat, x: nat, e: nat, n: nat) {
    && e == g * (ENTRIES - 1) + x <= n && x <= ENTRIES && (x == ENTRIES ==> e == n) && (g > 0 ==> n >= g * (ENTRIES - 1) + 2)
    && Carries(w, phys, buffer, g, x) && forall j: nat | j < g :: Chained(w, phys, buffer, block, j)
  }

  /** One round of the loop. */
  method Step(w: array<nat>, phys: Phys, buffer: nat, block: nat, g: nat, x: nat, virt: nat, ghost e: nat, ghost n: nat, more: bool)
    returns (g': nat, x': nat)
    requires virt == NextPage(buffer, e) && Filled(w[..], phys, buffer, block, g, x, e, n) && e < n && (more <==> n - e > 1) && w.Length == Ceil(n, ENTRIES - 1) * ENTRIES
    modifies w
    ensures Filled(w[..], phys, buffer, block, g', x', e + 1, n)
  {
    g', x' := g, x;
    assert (g + 1) * ENTRIES <= w.Length;
    if x' == ENTRIES - 1 && more {
      StoreKeeps(w[..], phys, buffer, block, g, x, ListAt(phys, block, g + 1));
      w[g * ENTRIES + (ENTRIES - 1)] := ListAt(phys, block, g + 1);
      assert Chained(w[..], phys, buffer, block, g);
      g', x' := g + 1, 0;
    }
    assert (g' + 1) * ENTRIES <= w.Length;
    ghost var v := PageAt(phys, buffer, g' * (ENTRIES - 1) + x');
    StoreKeeps(w[..], phys, buffer, block, g', x', v);
    w[g' * ENTRIES + x'] := phys(virt);
    CarriesMore(w[..], phys, buffer, g', x');
    x' := x' + 1;
  }

  /** The loop: n entries, written within the ceil(n / 511) list pages, that the controller
      walks in order. */
  method FillList(w: array<nat>, phys: Phys, buffer: nat, block: nat, bytes: nat, ghost n: nat) returns (pins: seq<nat>)
    requires bytes > 0 && n == Ceil(bytes, PAGE_SIZE) && w.Length == Ceil(n, ENTRIES - 1) * ENTRIES
    modifies w
    ensures pins == PagesFrom(phys, buffer, 0, n)
    ensures forall mem: Lists | Visible(mem, w[..], phys, block, Ceil(n, ENTRIES - 1)) :: Walk(mem, ListAt(phys, block, 0), n) == pins
  {
    var left: nat, g: nat, x: nat, virt: nat := bytes, 0, 0, buffer + FirstCap(buffer);
    ghost var e: nat := 0;
    pins := [];
    while left > 0
      invariant Filled(w[..], phys, buffer, block, g, x, e, n) && n - e == Ceil(left, PAGE_SIZE)
      invariant pins == PagesFrom(phys, buffer, 0, e) && virt == NextPage(buffer, e)
      decreases left
    {
      g, x := Step(w, phys, buffer, block, g, x, virt, e, n, left > PAGE_SIZE);
      pins := pins + [phys(virt)];
      virt := virt + PAGE_SIZE;
      left := if left > PAGE_SIZE then left - PAGE_SIZE else 0;
      e := e + 1;
    }
    assert e == n && g < Ceil(n, ENTRIES - 1);
    forall mem: Lists | Visible(mem, w[..], phys, block, Ceil(n, ENTRIES - 1)) ensures Walk(mem, ListAt(phys, block, 0), n) == pins {
      WalkFrom(mem, w[..], phys, buffer, block, Ceil(n, ENTRIES - 1), g, n, 0);
    }
  }

  /** The list pages setupPRPs asks for, in 32-bit arithmetic. */
  function ListPages(bytes: nat): nat { Ceil((bytes + PAGE_SIZE - 1) % U32 / PAGE_SIZE, ENTRIES - 1) }

  /** They are ceil(n / 511) exactly if the rounding up does not wrap; if it does, there are
      none at all. */
  lemma ListPagesExact(bytes: nat)
    requires PAGE_SIZE < bytes < U32
    ensures ListPages(bytes) == Ceil(Ceil(bytes, PAGE_SIZE), ENTRIES - 1) <==> bytes + PAGE_SIZE - 1 < U32
    ensures bytes + PAGE_SIZE - 1 >= U32 ==> ListPages(bytes) == 0
  {
    if bytes + PAGE_SIZE - 1 >= U32 {
      assert (bytes + PAGE_SIZE - 1) % U32 == bytes + PAGE_SIZE - 1 - U32 < PAGE_SIZE;
    }
  }

  /** The rounding up of the bytes after the first page wraps. */
  predicate RoundingWraps(buffer: nat, size: nat) { MorePages(buffer, size) > 1 && size - FirstCap(buffer) + PAGE_SIZE - 1 >= U32 }

  /** A page-aligned buffer never wraps, nor does one of at most 2048 sectors, which is all that
      readBlock and writeBlock ask for. */
  lemma CallersNeverWrap(buffer: nat, size: nat)
    requires size < U32 && (buffer % PAGE_SIZE == 0 || size <= 2048 * 512)
    ensures !RoundingWraps(buffer, size)
  {
  }

  /** A buffer that ends close to 2^32 bytes after its first page boundary does. */
  lemma WrapExample()
    ensures RoundingWraps(PAGE_SIZE - 1, U32 - 1) && ListPages(U32 - 2) == 0
  {
    ListPagesExact(U32 - 2);
  }

  /** The buffer needs a list and there is no memory for it. */
  predicate NoList(buffer: nat, size: nat, memory: bool) { MorePages(buffer, size) > 1 && !memory }

  /** setupPRPs. Without a list page allocation the first page is unpinned again, and the result
      is the 0 that a buffer of one or two pages gives. Otherwise the controller's walk over the
      list pages is the buffer's pages, and exactly those are pinned; except if the rounding
      wraps: then the list has no page and the first store of the loop is past its end. */
  method SetupPrps(phys: Phys, buffer: nat, size: nat, block: nat, memory: bool)
    returns (res: nat, listed: bool, overrun: bool, cmd: Command, list: array<nat>, pins: seq<nat>, unpins: seq<nat>)
    requires size < U32
    ensures fresh(list) && cmd.prp1 == phys(buffer)
    ensures (listed <==> MorePages(buffer, size) > 1 && memory) && res == if listed then phys(block) else 0
    ensures overrun <==> memory && RoundingWraps(buffer, size)
    ensures overrun ==> list.Length == 0
    ensures NoList(buffer, size, memory) ==> cmd.prp2 == 0 && pins == unpins == [phys(buffer)]
    ensures !NoList(buffer, size, memory) && !overrun ==> pins == BufferPages(phys, buffer, size) && unpins == []
    ensures !listed && !NoList(buffer, size, memory) ==>
        forall mem: Lists :: Transfer(cmd, mem, MorePages(buffer, size)) == BufferPages(phys, buffer, size)
    ensures listed && !overrun ==> list.Length == Ceil(MorePages(buffer, size), ENTRIES - 1) * ENTRIES
    ensures listed && !overrun ==>
        forall mem: Lists | Visible(mem, list[..], phys, block, Ceil(MorePages(buffer, size), ENTRIES - 1)) ::
          Transfer(cmd, mem, MorePages(buffer, size)) == BufferPages(phys, buffer, size)
  {
    list := new nat[0];
    cmd := Command(phys(buffer), 0);
    pins, unpins, res, listed, overrun := [phys(buffer)], [], 0, false, false;
    var cap := FirstCap(buffer);
    if size <= cap {
      assert PagesFrom(phys, buffer, 0, 0) == [];
      return;
    }
    var left, virt := size - cap, buffer + cap;
    if left <= PAGE_SIZE {
      assert PagesFrom(phys, buffer, 0, 1) == [PageAt(phys, buffer, 0)] && virt == NextPage(buffer, 0);
      cmd := cmd.(prp2 := phys(virt));
      pins := pins + [phys(virt)];
      return;
    }
    var pages := ListPages(left);
    ListPagesExact(left);
    if !memory {
      unpins := UnpinBuffer(phys, buffer, size - left);
      assert PagesFrom(phys, buffer, 0, 0) == [];
      return;
    }
    list := new nat[pages * ENTRIES](_ => 0);
    cmd := cmd.(prp2 := phys(block));
    res, listed := phys(block), true;
    if list.Length == 0 {
      overrun := true;
      return;
    }
    var more := FillList(list, phys, buffer, block, left, MorePages(buffer, size));
    assert ListAt(phys, block, 0) == phys(block);
    pins := pins + more;
  }

  /** unpinBuffer undoes the pins of the same buffer, page by page. Null addresses are
      passed over by the reference counts both ways. */
  method UnpinBuffer(phys: Phys, buffer: nat, size: nat) returns (unpins: seq<nat>)
    ensures unpins == if size == 0 then [] else BufferPages(phys, buffer, size)
  {
    unpins := [];
    var virt, left: nat := buffer, size;
    ghost var e: nat := 0;
    ghost var n := MorePages(buffer, size);
    while left > 0
      invariant e == 0 ==> virt == buffer && left == size && unpins == []
      invariant e > 0 ==> size > 0 && e <= n + 1 && unpins == [phys(buffer)] + PagesFrom(phys, buffer, 0, e - 1)
      invariant e > 0 && left > 0 ==> virt == NextPage(buffer, e - 1) && virt % PAGE_SIZE == 0 && n - (e - 1) == Ceil(left, PAGE_SIZE)
      invariant e > 0 && left == 0 ==> e == n + 1
      decreases left
    {
      unpins := unpins + [phys(virt)];
      var chunk := PAGE_SIZE - virt % PAGE_SIZE;
      if chunk > left {
        chunk := left;
      }
      left := left - chunk;
      virt := virt + chunk;
      e := e + 1;
    }
  }
}
