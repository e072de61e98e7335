/** What halloc and hfree do to the blocks of the heap, as functions (service/roots/halloc.c). */
module HeapSpec {
  import opened Basics

  const HEADER: nat := 16             // sizeof(struct slab_header)
  const CACHE: nat := 32              // sizeof(struct slab_cache)

  /** The blocks in use, of caches (meta), and on free lists by size. */
  datatype Uses = Uses(live: set<nat>, meta: set<nat>, free: map<nat, seq<nat>>)

  /** The rest of the region, the size of every block by the address of its header, and what the blocks are for. */
  datatype State = State(base: nat, left: nat, blocks: map<nat, nat>, uses: Uses)

  datatype FreeResult = Freed | BadBlock | NoCacheMemory

  /** The free blocks of a size. */
  ghost function FreeOf(u: Uses, size: nat): (l: seq<nat>) {
    if size in u.free then u.free[size] else []
  }

  /** A list with h in front. As null ends it, a block at address 0 hides itself and the rest. */
  function Front(h: nat, l: seq<nat>): (r: seq<nat>) {
    if h == 0 then [] else [h] + l
  }

  // ---- The operations ----

  ghost function Carved(s: State, size: nat, u: Uses): (r: State)
    requires HEADER + size <= s.left
  {
    State(s.base + HEADER + size, s.left - HEADER - size, s.blocks[s.base := size], u)
  }

  /** A new block for a user, */
  ghost function NewBlock(s: State, size: nat): (r: State)
    requires HEADER + size <= s.left
  {
    Carved(s, size, s.uses.(live := s.uses.live + {s.base}))
  }

  /** or for a cache. */
  ghost function NewCache(s: State): (r: State)
    requires HEADER + CACHE <= s.left
  {
    Carved(s, CACHE, s.uses.(meta := s.uses.meta + {s.base}))
  }

  /** The first block of a list goes to a user, */
  ghost function Taken(s: State, size: nat): (r: State)
    requires FreeOf(s.uses, size) != []
  {
    var l := FreeOf(s.uses, size);
    s.(uses := s.uses.(live := s.uses.live + {l[0]}, free := s.uses.free[size := l[1..]]))
  }

  /** or a user's block to the front of its list. */
  ghost function Listed(s: State, h: nat): (r: State)
    requires h in s.blocks
  {
    s.(uses := s.uses.(live := s.uses.live - {h}, free := s.uses.free[s.blocks[h] := Front(h, FreeOf(s.uses, s.blocks[h]))]))
  }

  /** halloc of a rounded size: the address, */
  ghost function GotAt(s: State, size: nat): (addr: nat) {
    if FreeOf(s.uses, size) != [] then FreeOf(s.uses, size)[0] + HEADER
    else if s.left < HEADER + size then 0 else s.base + HEADER
  }

  /** and the heap after it. */
  ghost function Got(s: State, size: nat): (r: State) {
    if FreeOf(s.uses, size) != [] then Taken(s, size)
    else if s.left < HEADER + size then s else NewBlock(s, size)
  }

  /** hfree of the block at h: the answer, */
  ghost function PutAnswer(s: State, h: nat): (r: FreeResult)
    requires h in s.blocks
  {
    if h !in s.uses.live then BadBlock
    else if s.blocks[h] !in s.uses.free && s.left < HEADER + CACHE then NoCacheMemory else Freed
  }

  /** and the heap after it. */
  ghost function Put(s: State, h: nat): (r: State)
    requires h in s.blocks
  {
    if PutAnswer(s, h) != Freed then s
    else Listed(if s.blocks[h] in s.uses.free then s else NewCache(s), h)
  }

  // ---- What every operation keeps ----

  /** Blocks, header included, are aligned and follow each other without overlap. */
  ghost predicate Tiled(blocks: map<nat, nat>, start: nat, top: nat) {
    && (forall h :: h in blocks ==> start <= h && h % 16 == 0 && blocks[h] % 16 == 0 && blocks[h] >= 16 && h + HEADER + blocks[h] <= top)
    && (forall h, k :: h in blocks && k in blocks && h < k ==> h + HEADER + blocks[h] <= k)
  }

  /** Free blocks of a size are neither in use nor listed twice. */
  ghost predicate FreeOk(blocks: map<nat, nat>, u: Uses) {
    forall s :: s in u.free ==>
      && NoDup(u.free[s])
      && forall h :: h in u.free[s] ==> h != 0 && h in blocks && blocks[h] == s && h !in u.live && h !in u.meta
  }

  /** Blocks in use and of caches are blocks, and not both. */
  ghost predicate UsesOk(blocks: map<nat, nat>, u: Uses) {
    u.live <= blocks.Keys && u.meta <= blocks.Keys && u.live !! u.meta
  }

  /** Every block is in use, of a cache, or on the list of its size. */
  ghost predicate Accounted(blocks: map<nat, nat>, u: Uses) {
    forall h :: h in blocks ==> h in u.live || h in u.meta || h in FreeOf(u, blocks[h])
  }

  ghost predicate Sound(s: State, start: nat) {
    && start <= s.base && s.base % 16 == 0 && Tiled(s.blocks, start, s.base)
    && FreeOk(s.blocks, s.uses) && UsesOk(s.blocks, s.uses) && (start > 0 ==> Accounted(s.blocks, s.uses))
  }

  lemma TiledCarve(blocks: map<nat, nat>, start: nat, top: nat, size: nat)
    requires Tiled(blocks, start, top) && start <= top && top % 16 == 0 && size % 16 == 0 && size >= 16
    ensures top !in blocks && Tiled(blocks[top := size], start, top + HEADER + size)
  {
  }

  lemma TakeFree(blocks: map<nat, nat>, u: Uses, u': Uses, s: nat)
    requires FreeOk(blocks, u) && s in u.free && u.free[s] != []
    requires u' == u.(live := u.live + {u.free[s][0]}, free := u.free[s := u.free[s][1..]])
    ensures FreeOk(blocks, u')
  {
    var l := u.free[s];
    assert l[0] in l;
    forall r | r in u'.free
      ensures NoDup(u'.free[r]) && forall h :: h in u'.free[r] ==> h != 0 && h in blocks && blocks[h] == r && h !in u'.live && h !in u'.meta
    {
      if r == s {
        assert forall h :: h in l[1..] ==> h in l && h != l[0];
      }
    }
  }

  lemma FreeCarve(blocks: map<nat, nat>, u: Uses, top: nat, size: nat, u': Uses)
    requires FreeOk(blocks, u) && top !in blocks
    requires u' == u.(live := u.live + {top}) || u' == u.(meta := u.meta + {top})
    ensures FreeOk(blocks[top := size], u')
  {
  }

  /** A block in use goes to the list of its size, which is l or new. */
  lemma GiveFree(blocks: map<nat, nat>, u: Uses, u': Uses, s: nat, h: nat)
    requires FreeOk(blocks, u) && h in u.live && h in blocks && blocks[h] == s && h !in u.meta
    requires u' == u.(live := u.live - {h}, free := u.free[s := Front(h, FreeOf(u, s))])
    ensures FreeOk(blocks, u')
  {
    forall r | r in u'.free
      ensures NoDup(u'.free[r]) && forall k :: k in u'.free[r] ==> k != 0 && k in blocks && blocks[k] == r && k !in u'.live && k !in u'.meta
    {
      if r == s {
        assert h !in FreeOf(u, s);
      }
    }
  }

  lemma GotSound(s: State, start: nat, size: nat)
    requires Sound(s, start) && size % 16 == 0 && size >= 16
    ensures Sound(Got(s, size), start) == true
  {
    if FreeOf(s.uses, size) != [] {
      ReusedSound(s, start, size);
    } else if s.left >= HEADER + size {
      CarvedSound(s, start, size, s.uses.(live := s.uses.live + {s.base}));
    }
  }

  lemma ReusedSound(s: State, start: nat, size: nat)
    requires Sound(s, start) && FreeOf(s.uses, size) != []
    ensures Sound(Got(s, size), start) == true
  {
    var l := FreeOf(s.uses, size);
    assert l[0] in l;
    TakeFree(s.blocks, s.uses, Got(s, size).uses, size);
    if start > 0 { TakeAccounted(s.blocks, s.uses, size); }
  }

  lemma CarvedSound(s: State, start: nat, size: nat, u: Uses)
    requires Sound(s, start) && size % 16 == 0 && size >= 16 && HEADER + size <= s.left
    requires u == s.uses.(live := s.uses.live + {s.base}) || u == s.uses.(meta := s.uses.meta + {s.base})
    ensures s.base !in s.blocks && Sound(Carved(s, size, u), start) == true
  {
    TiledCarve(s.blocks, start, s.base, size);
    FreeCarve(s.blocks, s.uses, s.base, size, u);
    assert (s.base + HEADER + size) % 16 == 0;
  }

  lemma TakeAccounted(blocks: map<nat, nat>, u: Uses, size: nat)
    requires Accounted(blocks, u) && FreeOf(u, size) != []
    ensures var l := FreeOf(u, size); Accounted(blocks, u.(live := u.live + {l[0]}, free := u.free[size := l[1..]]))
  {
    var l := FreeOf(u, size);
    assert l == [l[0]] + l[1..];
  }

  lemma PutSound(s: State, start: nat, h: nat)
    requires Sound(s, start) && h in s.blocks
    ensures Sound(Put(s, h), start) == true
  {
    if PutAnswer(s, h) == Freed {
      if s.blocks[h] in s.uses.free {
        ListedSound(s, start, h);
      } else {
        CarvedSound(s, start, CACHE, s.uses.(meta := s.uses.meta + {s.base}));
        ListedSound(NewCache(s), start, h);
      }
    }
  }

  lemma ListedSound(s: State, start: nat, h: nat)
    requires Sound(s, start) && h in s.uses.live && h in s.blocks
    ensures Sound(Listed(s, h), start) == true
  {
    GiveFree(s.blocks, s.uses, Listed(s, h).uses, s.blocks[h], h);
  }

  // ---- What the operations mean ----

  /** Blocks stay where they are, at the size they have. */
  ghost predicate Kept(s: State, s': State) {
    forall h :: h in s.blocks ==> h in s'.blocks && s'.blocks[h] == s.blocks[h]
  }

  /** An allocation of size bytes: null and nothing changed if there is neither a free block nor room; else a block of
      that size that was not in use, the last freed one if there is one, while all other blocks and lists stay. */
  ghost predicate Outcome(s: State, s': State, size: nat, addr: nat) {
    var l := FreeOf(s.uses, size);
    && (addr == 0 <==> l == [] && s.left < HEADER + size)
    && (addr == 0 ==> s' == s)
    && s'.base + s'.left == s.base + s.left && Kept(s, s')
    && (addr != 0 ==>
          && addr >= HEADER && addr - HEADER in s'.blocks && s'.blocks[addr - HEADER] == size
          && addr - HEADER !in s.uses.live && s'.uses.live == s.uses.live + {addr - HEADER} && s'.uses.meta == s.uses.meta)
    && (l != [] ==> addr == l[0] + HEADER && s' == s.(uses := s'.uses) && s'.uses.free == s.uses.free[size := l[1..]])
    && (l == [] ==> s'.uses.free == s.uses.free)
  }

  lemma GotMeans(s: State, start: nat, size: nat)
    requires Tiled(s.blocks, start, s.base) && FreeOk(s.blocks, s.uses) && UsesOk(s.blocks, s.uses)
    ensures Outcome(s, Got(s, size), size, GotAt(s, size)) == true
  {
    var l := FreeOf(s.uses, size);
    if l != [] {
      assert l[0] in l;
    } else {
      assert s.base !in s.blocks;
    }
  }

  /** Block h has moved from use to the front of the list of its size, where it is not hidden by its address; other
      blocks and lists are as before, but for the block a new cache may take. */
  ghost predicate Returned(s: State, s': State, h: nat)
    requires h in s.blocks
  {
    && h in s.uses.live && s'.uses.live == s.uses.live - {h} && Kept(s, s') && s'.base + s'.left == s.base + s.left
    && FreeOf(s'.uses, s.blocks[h]) == Front(h, FreeOf(s.uses, s.blocks[h]))
    && (forall t :: t != s.blocks[h] ==> FreeOf(s'.uses, t) == FreeOf(s.uses, t))
    && s'.blocks.Keys - s.blocks.Keys == s'.uses.meta - s.uses.meta
  }

  lemma PutMeans(s: State, start: nat, h: nat)
    requires Tiled(s.blocks, start, s.base) && UsesOk(s.blocks, s.uses) && h in s.blocks
    ensures PutAnswer(s, h) == Freed ==> Returned(s, Put(s, h), h) == true
  {
    assert s.base !in s.blocks;
  }

  /** hfree of block h. */
  ghost predicate Release(s: State, s': State, h: nat, r: FreeResult) {
    h in s.blocks && r == PutAnswer(s, h) && s' == Put(s, h) && (r == Freed ==> Returned(s, s', h))
  }

  /** A freed block is the next one of its size, exactly when its header is not at address 0. */
  lemma ComesBack(s: State, start: nat, h: nat)
    requires Sound(s, start) && h in s.blocks && PutAnswer(s, h) == Freed
    ensures GotAt(Put(s, h), s.blocks[h]) == h + HEADER <==> h != 0
    ensures h != 0 ==> Got(Put(s, h), s.blocks[h]).uses.live == s.uses.live
  {
    assert Put(s, h).uses.free[s.blocks[h]] == Front(h, FreeOf(s.uses, s.blocks[h]));
    assert h + HEADER <= s.base;
    assert (s.uses.live - {h}) + {h} == s.uses.live;
  }

  /** Freeing it twice is noticed. */
  lemma TwiceNoticed(s: State, h: nat)
    requires h in s.blocks && PutAnswer(s, h) == Freed
    ensures h in Put(s, h).blocks && PutAnswer(Put(s, h), h) == BadBlock
  {
  }
}
