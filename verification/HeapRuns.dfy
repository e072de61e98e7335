/** Whole runs of halloc and hfree (service/roots/halloc.c:76-142). */
module HeapRuns {
  import opened HeapSpec
  import opened Halloc

  datatype Call = Request(size: nat) | Return(addr: nat)

  /** The heap, and the bytes asked for at every address that is handed out. */
  datatype Run = Run(heap: State, grants: map<nat, nat>)

  /** Requests up to the limit, and addresses that have been handed out at some time. */
  ghost predicate Allowed(s: State, c: Call) {
    match c
    case Request(size) => size <= 0xffff_ffff_ffff_ffe0
    case Return(addr) =>
      && addr >= HEADER && addr - HEADER in s.blocks
      && (addr - HEADER in s.uses.live || addr - HEADER in FreeOf(s.uses, s.blocks[addr - HEADER]))
  }

  ghost function Requested(r: Run, size: nat): (r': Run) {
    var at := GotAt(r.heap, Rounded(size));
    Run(Got(r.heap, Rounded(size)), if at == 0 then r.grants else r.grants[at := size])
  }

  ghost function GivenBack(r: Run, addr: nat): (r': Run)
    requires addr >= HEADER && addr - HEADER in r.heap.blocks
  {
    Run(Put(r.heap, addr - HEADER), if PutAnswer(r.heap, addr - HEADER) == Freed then r.grants - {addr} else r.grants)
  }

  /** The run after one more call; calls that are not allowed are left out. */
  ghost function Step(r: Run, c: Call): (r': Run) {
    if !Allowed(r.heap, c) then r else
    match c
    case Request(size) => Requested(r, size)
    case Return(addr) => GivenBack(r, addr)
  }

  ghost function After(r: Run, calls: seq<Call>): (r': Run) {
    if calls == [] then r else Step(After(r, calls[..|calls| - 1]), calls[|calls| - 1])
  }

  /** The heap as halloc_init leaves it. */
  function Fresh(base: nat, left: nat): (r: Run) {
    Run(State(base, left, map[], Uses({}, {}, map[])), map[])
  }

  // ---- What every run keeps ----

  /** The grants are the blocks in use, each at least as long as was asked for. */
  ghost predicate GrantsOk(s: State, grants: map<nat, nat>) {
    && (forall a :: a in grants ==> GrantOk(s, a, grants[a]))
    && (forall h :: h in s.uses.live ==> h + HEADER in grants)
  }

  ghost predicate GrantOk(s: State, a: nat, size: nat) {
    a >= HEADER && a - HEADER in s.uses.live && a - HEADER in s.blocks && size <= s.blocks[a - HEADER]
  }

  ghost predicate RunOk(r: Run, base: nat, left: nat) {
    Sound(r.heap, base) && r.heap.base + r.heap.left == base + left && GrantsOk(r.heap, r.grants)
  }

  lemma GrantsGrow(s: State, s': State, grants: map<nat, nat>, addr: nat, size: nat)
    requires GrantsOk(s, grants) && Kept(s, s') && addr >= HEADER && s'.uses.live == s.uses.live + {addr - HEADER}
    requires addr - HEADER in s'.blocks && size <= s'.blocks[addr - HEADER]
    ensures GrantsOk(s', grants[addr := size]) == true
  {
    forall a | a in grants[addr := size] && a != addr ensures GrantOk(s', a, grants[a]) == true {
      assert GrantOk(s, a, grants[a]);
    }
  }

  lemma GrantsShrink(s: State, s': State, grants: map<nat, nat>, addr: nat)
    requires GrantsOk(s, grants) && Kept(s, s') && addr >= HEADER && s'.uses.live == s.uses.live - {addr - HEADER}
    ensures GrantsOk(s', grants - {addr}) == true
  {
    forall a | a in grants - {addr} ensures GrantOk(s', a, grants[a]) == true {
      assert GrantOk(s, a, grants[a]) && a != addr;
    }
    forall h | h in s'.uses.live ensures h + HEADER in grants - {addr} {
      assert h in s.uses.live && h + HEADER != addr;
    }
  }

  lemma RequestedOk(r: Run, size: nat, base: nat, left: nat)
    requires RunOk(r, base, left) && size <= 0xffff_ffff_ffff_ffe0
    ensures RunOk(Requested(r, size), base, left) == true
  {
    var rounded := Rounded(size);
    RoundsUp(size);
    GotSound(r.heap, base, rounded);
    GotMeans(r.heap, base, rounded);
    if GotAt(r.heap, rounded) != 0 {
      GrantsGrow(r.heap, Got(r.heap, rounded), r.grants, GotAt(r.heap, rounded), size);
    }
  }

  lemma GivenBackOk(r: Run, addr: nat, base: nat, left: nat)
    requires RunOk(r, base, left) && addr >= HEADER && addr - HEADER in r.heap.blocks
    ensures RunOk(GivenBack(r, addr), base, left) == true
  {
    PutSound(r.heap, base, addr - HEADER);
    GivenBackGrants(r, addr, base);
  }

  lemma GivenBackGrants(r: Run, addr: nat, base: nat)
    requires Sound(r.heap, base) && GrantsOk(r.heap, r.grants) && addr >= HEADER && addr - HEADER in r.heap.blocks
    ensures var r' := GivenBack(r, addr);
      GrantsOk(r'.heap, r'.grants) == true && r'.heap.base + r'.heap.left == r.heap.base + r.heap.left
  {
    PutMeans(r.heap, base, addr - HEADER);
    if PutAnswer(r.heap, addr - HEADER) == Freed {
      GrantsShrink(r.heap, Put(r.heap, addr - HEADER), r.grants, addr);
    }
  }

  lemma FreshOk(base: nat, left: nat)
    requires base % 16 == 0
    ensures RunOk(Fresh(base, left), base, left)
  {
  }

  /** After every sequence of calls. */
  lemma {:induction false} RunInv(base: nat, left: nat, calls: seq<Call>)
    requires base % 16 == 0
    ensures RunOk(After(Fresh(base, left), calls), base, left) == true
    decreases |calls|
  {
    if calls == [] {
      FreshOk(base, left);
    } else {
      var n := |calls| - 1;
      RunInv(base, left, calls[..n]);
      StepOk(After(Fresh(base, left), calls[..n]), calls[n], base, left);
    }
  }

  lemma StepOk(r: Run, c: Call, base: nat, left: nat)
    requires RunOk(r, base, left)
    ensures RunOk(Step(r, c), base, left) == true
  {
    if Allowed(r.heap, c) {
      match c
      case Request(size) => RequestedOk(r, size, base, left);
      case Return(addr) => GivenBackOk(r, addr, base, left);
    }
  }

  // ---- What users can rely on ----

  /** What is handed out is aligned and in the region, and no byte of it is handed out twice. */
  ghost predicate Apart(grants: map<nat, nat>, base: nat, end: nat) {
    && (forall a :: a in grants ==> a % 16 == 0 && base + HEADER <= a && a + grants[a] <= end)
    && (forall a, b :: a in grants && b in grants && a < b ==> a + grants[a] <= b)
  }

  /** In every run, whatever has been freed and reused. */
  lemma GrantsApart(base: nat, left: nat, calls: seq<Call>)
    requires base % 16 == 0
    ensures Apart(After(Fresh(base, left), calls).grants, base, base + left)
  {
    var r := After(Fresh(base, left), calls);
    RunInv(base, left, calls);
    ApartIn(r, base, left);
  }

  lemma ApartIn(r: Run, base: nat, left: nat)
    requires RunOk(r, base, left)
    ensures Apart(r.grants, base, base + left)
  {
    forall a | a in r.grants ensures a % 16 == 0 && base + HEADER <= a && a + r.grants[a] <= base + left {
      DataAligned(a - HEADER);
    }
    forall a, b | a in r.grants && b in r.grants && a < b ensures a + r.grants[a] <= b {
      assert a - HEADER in r.heap.blocks && b - HEADER in r.heap.blocks;
    }
  }

  /** No memory is lost: every block is in use, of a cache, or on one free list, once, if the region is not at 0. */
  lemma NothingLost(base: nat, left: nat, calls: seq<Call>, h: nat)
    requires base % 16 == 0 && base > 0
    requires h in After(Fresh(base, left), calls).heap.blocks
    ensures var s := After(Fresh(base, left), calls).heap;
      && s.base + s.left == base + left
      && (h in s.uses.live || h in s.uses.meta || h in FreeOf(s.uses, s.blocks[h]))
      && (h in s.uses.live ==> h !in s.uses.meta)
      && (forall t :: h in FreeOf(s.uses, t) ==> t == s.blocks[h] && h !in s.uses.live && h !in s.uses.meta)
  {
    RunInv(base, left, calls);
  }

  // ---- The program ----

  ghost predicate AllAllowed(base: nat, left: nat, calls: seq<Call>) {
    forall i :: 0 <= i < |calls| ==> Allowed(After(Fresh(base, left), calls[..i]).heap, calls[i])
  }

  /** halloc_init and any calls: the heap and the grants are those of the run. */
  method Serve(base: nat, end: nat, calls: seq<Call>) returns (heap: Heap, grants: map<nat, nat>)
    requires base <= end && base % 4096 == 0 && end % 4096 == 0
    requires AllAllowed(base, (end - base) % 0x1_0000_0000, calls)
    ensures fresh(heap) && heap.Valid() == true
    ensures Run(heap.Now(), grants) == After(Fresh(base, (end - base) % 0x1_0000_0000), calls)
    ensures Apart(grants, base, end) && heap.slabBase + heap.slabSize == base + (end - base) % 0x1_0000_0000
  {
    heap := new Heap();
    var ok := heap.Init(base, end);
    grants := ServeAll(heap, base, heap.slabSize, calls);
    PageIsBlockAligned(base);
    RunInv(base, (end - base) % 0x1_0000_0000, calls);
    ApartIn(Run(heap.Now(), grants), base, (end - base) % 0x1_0000_0000);
  }

  method ServeAll(heap: Heap, base: nat, left: nat, calls: seq<Call>) returns (grants: map<nat, nat>)
    requires heap.Valid() && heap.Now() == Fresh(base, left).heap && AllAllowed(base, left, calls)
    modifies heap
    ensures heap.Valid() == true && Run(heap.Now(), grants) == After(Fresh(base, left), calls)
  {
    grants := map[];
    var i := 0;
    while i < |calls|
      invariant i <= |calls| && heap.Valid() == true
      invariant Run(heap.Now(), grants) == After(Fresh(base, left), calls[..i])
    {
      assert calls[..i + 1][..i] == calls[..i];
      assert Allowed(heap.Now(), calls[i]);
      grants := Serve1(heap, grants, calls[i]);
      i := i + 1;
    }
    assert calls[..i] == calls;
  }

  method Serve1(heap: Heap, grants: map<nat, nat>, c: Call) returns (grants': map<nat, nat>)
    requires heap.Valid() && Allowed(heap.Now(), c)
    modifies heap
    ensures heap.Valid() == true && Run(heap.Now(), grants') == Step(old(Run(heap.Now(), grants)), c)
  {
    match c
    case Request(size) => grants' := ServeRequest(heap, grants, size);
    case Return(addr) => grants' := ServeReturn(heap, grants, addr);
  }

  method ServeRequest(heap: Heap, grants: map<nat, nat>, size: nat) returns (grants': map<nat, nat>)
    requires heap.Valid() && size <= 0xffff_ffff_ffff_ffe0
    modifies heap
    ensures heap.Valid() == true && Run(heap.Now(), grants') == Requested(old(Run(heap.Now(), grants)), size)
  {
    var addr := heap.Alloc(size);
    grants' := if addr == 0 then grants else grants[addr := size];
  }

  method ServeReturn(heap: Heap, grants: map<nat, nat>, addr: nat) returns (grants': map<nat, nat>)
    requires heap.Valid() && Allowed(heap.Now(), Return(addr))
    modifies heap
    ensures heap.Valid() == true && Run(heap.Now(), grants') == GivenBack(old(Run(heap.Now(), grants)), addr)
  {
    var answer := heap.Free(addr);
    grants' := if answer == Freed then grants - {addr} else grants;
  }

  // ---- A region at address 0 ----

  /** The first block, once freed, is on no list, and the next request of its size is served from elsewhere. */
  lemma ZeroLost(s: State, size: nat)
    requires s == Fresh(0, s.left).heap && size >= 16 && s.left >= 2 * (HEADER + size) + HEADER + CACHE
    ensures var s1 := Got(s, size);
      && GotAt(s, size) == HEADER && 0 in s1.blocks && 0 in s1.uses.live && s1.blocks[0] == size && PutAnswer(s1, 0) == Freed
      && var s2 := Put(s1, 0);
      && var s3 := Got(s2, size);
      && GotAt(s2, size) == size + 80 && 0 in s3.blocks && 0 !in s3.uses.live && 0 !in s3.uses.meta
      && forall t :: 0 !in FreeOf(s3.uses, t)
  {
  }

  method AtZero(size: nat) returns (heap: Heap, a: nat, b: nat)
    requires size % 16 == 0 && 16 <= size <= 4000
    ensures fresh(heap) && a == HEADER && b == size + 80
    ensures 0 in heap.blocks && 0 !in heap.uses.live && 0 !in heap.uses.meta && forall t :: 0 !in FreeOf(heap.uses, t)
  {
    heap := new Heap();
    var ok := heap.Init(0, 8192);
    ZeroLost(heap.Now(), size);
    assert Rounded(size) == size;
    a := heap.Alloc(size);
    var r := heap.Free(a);
    b := heap.Alloc(size);
  }
}
