/** The size-class heap of the root service (service/roots/halloc.c). */
module Halloc {
  import opened Basics
  import opened HeapSpec
  import Words

  const MAGIC: nat := 0xdeadbeef

  /** A block header; word holds SLAB_MAGIC while the block is in use and the next pointer while it is free. */
  datatype Header = Header(size: nat, word: nat)

  datatype Cache = Cache(at: nat, size: nat, head: nat)

  function Hash(size: nat): (b: nat)
    ensures b < 8
  {
    size / 16 % 8
  }

  /** The eight buckets share the size classes evenly: two classes meet exactly when they are a multiple of eight apart. */
  lemma HashSpreads(i: nat, j: nat)
    ensures Hash(16 * i) == Hash(16 * j) <==> i % 8 == j % 8
  {
    assert 16 * i / 16 == i && 16 * j / 16 == j;
  }

  type Headers = map<nat, Header>
  type Buckets = seq<seq<Cache>>

  // ---- Sizes ----

  /** What halloc rounds a request to, in 64-bit arithmetic. */
  function Rounded(size: nat): (r: nat) {
    if size == 0 then 16 else (size + 15) % 0x1_0000_0000_0000_0000 / 16 * 16
  }

  /** What a block of the rounded size takes with its header. */
  function Need(size: nat): (r: nat) {
    (Rounded(size) + HEADER) % 0x1_0000_0000_0000_0000
  }

  /** Requests are served with enough room exactly up to 2^64 - 32: beyond that, the sums wrap. */
  lemma RoundsUp(size: nat)
    requires size < 0x1_0000_0000_0000_0000
    ensures Rounded(size) >= size && Need(size) == Rounded(size) + HEADER <==> size <= 0xffff_ffff_ffff_ffe0
    ensures size <= 0xffff_ffff_ffff_ffe0 ==> Rounded(size) % 16 == 0 && 16 <= Rounded(size) <= 0xffff_ffff_ffff_ffe0
    ensures 0 < size <= 0xffff_ffff_ffff_ffe0 ==> Rounded(size) < size + 16
    ensures Rounded(0) == 16
  {
  }

  /** halloc_from_slab_heap on the base and the size left: the address, or null, and both after it. */
  function SlabStep(base: nat, left: nat, size: nat): (r: (nat, nat, nat)) {
    var total := (size + HEADER) % 0x1_0000_0000_0000_0000;
    if left < total then (0, base, left) else (base + HEADER, base + total, left - total)
  }

  /** What becomes of the requests beyond: the base does not move, so that the next block is the same one, or
      the block has no room at all. */
  lemma WideRequest(base: nat, left: nat, size: nat)
    requires 0xffff_ffff_ffff_ffe0 < size < 0x1_0000_0000_0000_0000
    ensures size <= 0xffff_ffff_ffff_fff0 ==> SlabStep(base, left, Rounded(size)) == (base + HEADER, base, left)
    ensures size > 0xffff_ffff_ffff_fff0 ==> Rounded(size) == 0
  {
  }

  // ---- The heap on values ----

  function NextOf(l: seq<nat>, i: nat): (r: nat)
    requires i < |l|
  {
    if i + 1 < |l| then l[i + 1] else 0
  }

  /** head leads along the next words through the blocks of l to null. */
  ghost predicate Linked(hs: Headers, head: nat, l: seq<nat>) {
    && head == (if l == [] then 0 else l[0])
    && (forall i :: 0 <= i < |l| ==> l[i] in hs && hs[l[i]].word == NextOf(l, i))
  }

  /** Every block has a header with its size; blocks in use carry the magic word. */
  ghost predicate HeadersOk(hs: Headers, blocks: map<nat, nat>, u: Uses) {
    && (forall h :: h in blocks ==> h in hs && hs[h].size == blocks[h])
    && (forall h :: h in u.live ==> h in blocks && h !in u.meta && hs[h].word == MAGIC)
    && (forall h :: h in u.meta ==> h in blocks && blocks[h] == CACHE)
  }

  /** A cache in bucket b: the size belongs there, the list of that size hangs from it. */
  ghost predicate CacheOk(hs: Headers, u: Uses, b: nat, c: Cache) {
    && Hash(c.size) == b && c.size in u.free && Linked(hs, c.head, u.free[c.size])
    && c.at >= HEADER && c.at - HEADER in u.meta
  }

  ghost predicate AllCachesOk(hs: Headers, bs: Buckets, u: Uses) {
    |bs| == 8 && forall b, i :: 0 <= b < 8 && 0 <= i < |bs[b]| ==> CacheOk(hs, u, b, bs[b][i])
  }

  ghost predicate OnePerSize(bs: Buckets) {
    forall b, i, j :: 0 <= b < |bs| && 0 <= i < j < |bs[b]| ==> bs[b][i].size != bs[b][j].size
  }

  ghost predicate HasCache(bs: Buckets, s: nat) {
    |bs| == 8 && exists i :: 0 <= i < |bs[Hash(s)]| && bs[Hash(s)][i].size == s
  }

  /** Each size has at most one cache, in its own bucket, which heads the list of that size. */
  ghost predicate CachesOk(hs: Headers, bs: Buckets, u: Uses) {
    AllCachesOk(hs, bs, u) && OnePerSize(bs) && forall s :: s in u.free ==> HasCache(bs, s)
  }

  ghost predicate Ok(hs: Headers, bs: Buckets, blocks: map<nat, nat>, u: Uses, start: nat, top: nat) {
    Tiled(blocks, start, top) && HeadersOk(hs, blocks, u) && FreeOk(blocks, u) && CachesOk(hs, bs, u)
  }

  /** Headers of blocks other than h. */
  lemma LinkedKeeps(hs: Headers, hs': Headers, head: nat, l: seq<nat>, h: nat)
    requires Linked(hs, head, l) && h !in l
    requires forall k :: k in hs && k != h ==> k in hs' && hs'[k] == hs[k]
    ensures Linked(hs', head, l)
  {
  }

  /** A header at a place no block had: the free lists do not notice. */
  lemma CachesKeep(hs: Headers, hs': Headers, bs: Buckets, blocks: map<nat, nat>, u: Uses, u': Uses, h: nat)
    requires CachesOk(hs, bs, u) && FreeOk(blocks, u) && h !in blocks
    requires forall k :: k in hs && k != h ==> k in hs' && hs'[k] == hs[k]
    requires u'.free == u.free && u.meta <= u'.meta
    ensures CachesOk(hs', bs, u')
  {
    forall b, i | 0 <= b < 8 && 0 <= i < |bs[b]| ensures CacheOk(hs', u', b, bs[b][i]) {
      assert CacheOk(hs, u, b, bs[b][i]);
      LinkedKeeps(hs, hs', bs[b][i].head, u.free[bs[b][i].size], h);
    }
  }

  lemma HeadersCarve(hs: Headers, blocks: map<nat, nat>, u: Uses, top: nat, size: nat, u': Uses)
    requires HeadersOk(hs, blocks, u) && top !in blocks
    requires u' == u.(live := u.live + {top}) || (u' == u.(meta := u.meta + {top}) && size == CACHE)
    ensures HeadersOk(hs[top := Header(size, MAGIC)], blocks[top := size], u')
  {
  }

  /** halloc_from_slab_heap: a new block on top. */
  lemma Carve(hs: Headers, bs: Buckets, blocks: map<nat, nat>, u: Uses, start: nat, top: nat, size: nat, u': Uses)
    requires Ok(hs, bs, blocks, u, start, top) && start <= top && top % 16 == 0 && size % 16 == 0 && size >= 16
    requires u' == u.(live := u.live + {top}) || (u' == u.(meta := u.meta + {top}) && size == CACHE)
    ensures Ok(hs[top := Header(size, MAGIC)], bs, blocks[top := size], u', start, top + HEADER + size)
    ensures top !in blocks
  {
    TiledCarve(blocks, start, top, size);
    HeadersCarve(hs, blocks, u, top, size, u');
    FreeCarve(blocks, u, top, size, u');
    CachesKeep(hs, hs[top := Header(size, MAGIC)], bs, blocks, u, u', top);
  }

  // ---- Taking from and returning to a cache ----

  /** Sizes tell caches apart. */
  lemma OneCache(hs: Headers, bs: Buckets, u: Uses, b: nat, i: nat, c: nat, j: nat)
    requires AllCachesOk(hs, bs, u) && OnePerSize(bs)
    requires b < 8 && c < 8 && i < |bs[b]| && j < |bs[c]|
    ensures bs[b][i].size == bs[c][j].size ==> b == c && i == j
  {
    assert CacheOk(hs, u, b, bs[b][i]) && CacheOk(hs, u, c, bs[c][j]);
  }

  function WithHead(bs: Buckets, b: nat, i: nat, head: nat): (r: Buckets)
    requires b < |bs| && i < |bs[b]|
  {
    bs[b := bs[b][i := bs[b][i].(head := head)]]
  }

  lemma WithHeadKeeps(bs: Buckets, b: nat, i: nat, head: nat)
    requires |bs| == 8 && b < 8 && i < |bs[b]|
    ensures OnePerSize(bs) ==> OnePerSize(WithHead(bs, b, i, head))
    ensures forall s :: HasCache(bs, s) ==> HasCache(WithHead(bs, b, i, head), s)
  {
    var bs': Buckets := WithHead(bs, b, i, head);
    assert forall c, j :: 0 <= c < 8 && 0 <= j < |bs[c]| ==> bs'[c][j].size == bs[c][j].size;
    forall s | HasCache(bs, s) ensures HasCache(bs', s) {
      var j :| 0 <= j < |bs[Hash(s)]| && bs[Hash(s)][j].size == s;
      assert bs'[Hash(s)][j].size == s;
    }
  }

  /** The caches after block h of size s is taken off, or put on, the front of its list. */
  lemma CachesMove(hs: Headers, hs': Headers, bs: Buckets, blocks: map<nat, nat>, u: Uses, u': Uses, b: nat, i: nat, h: nat, head: nat, l: seq<nat>)
    requires CachesOk(hs, bs, u) && FreeOk(blocks, u) && b < 8 && i < |bs[b]|
    requires var s := bs[b][i].size; h in blocks && blocks[h] == s && u'.free == u.free[s := l] && Linked(hs', head, l)
    requires u'.meta == u.meta && forall k :: k in hs && k != h ==> k in hs' && hs'[k] == hs[k]
    ensures CachesOk(hs', WithHead(bs, b, i, head), u')
  {
    WithHeadKeeps(bs, b, i, head);
    assert CacheOk(hs, u, b, bs[b][i]);
    forall c, j | 0 <= c < 8 && 0 <= j < |WithHead(bs, b, i, head)[c]|
      ensures CacheOk(hs', u', c, WithHead(bs, b, i, head)[c][j])
    {
      CacheMoved(hs, hs', bs, blocks, u, u', b, i, h, head, l, c, j);
    }
    HasMoved(bs, WithHead(bs, b, i, head), u, u', bs[b][i].size, l);
  }

  lemma HasMoved(bs: Buckets, bs': Buckets, u: Uses, u': Uses, s: nat, l: seq<nat>)
    requires (forall r :: r in u.free ==> HasCache(bs, r)) && s in u.free && u'.free == u.free[s := l]
    requires forall r :: HasCache(bs, r) ==> HasCache(bs', r)
    ensures forall r :: r in u'.free ==> HasCache(bs', r)
  {
  }

  lemma CacheMoved(hs: Headers, hs': Headers, bs: Buckets, blocks: map<nat, nat>, u: Uses, u': Uses, b: nat, i: nat, h: nat, head: nat, l: seq<nat>, c: nat, j: nat)
    requires AllCachesOk(hs, bs, u) && OnePerSize(bs) && FreeOk(blocks, u) && b < 8 && i < |bs[b]| && c < 8 && j < |bs[c]|
    requires var s := bs[b][i].size; h in blocks && blocks[h] == s && u'.free == u.free[s := l] && Linked(hs', head, l)
    requires u'.meta == u.meta && forall k :: k in hs && k != h ==> k in hs' && hs'[k] == hs[k]
    ensures CacheOk(hs', u', c, WithHead(bs, b, i, head)[c][j])
  {
    assert CacheOk(hs, u, c, bs[c][j]);
    if c != b || j != i {
      OneCache(hs, bs, u, b, i, c, j);
      LinkedKeeps(hs, hs', bs[c][j].head, u.free[bs[c][j].size], h);
    }
  }

  /** halloc_from_hash_table takes the first block of the list. */
  lemma Take(hs: Headers, bs: Buckets, blocks: map<nat, nat>, u: Uses, start: nat, top: nat, b: nat, i: nat)
    requires Ok(hs, bs, blocks, u, start, top) && b < 8 && i < |bs[b]| && bs[b][i].head != 0
    ensures var c := bs[b][i]; var l := u.free[c.size];
      && l != [] && l[0] == c.head && c.head in blocks && blocks[c.head] == c.size && c.head !in u.live
      && Ok(hs[c.head := Header(c.size, MAGIC)], WithHead(bs, b, i, hs[c.head].word), blocks,
            u.(live := u.live + {c.head}, free := u.free[c.size := l[1..]]), start, top)
  {
    var c := bs[b][i];
    assert CacheOk(hs, u, b, c);
    var l := u.free[c.size];
    var hs' := hs[c.head := Header(c.size, MAGIC)];
    var u' := u.(live := u.live + {c.head}, free := u.free[c.size := l[1..]]);
    assert l[0] in l;
    TakeLinked(hs, hs', c.head, l, c.size);
    CachesMove(hs, hs', bs, blocks, u, u', b, i, c.head, hs[c.head].word, l[1..]);
    TakeFree(blocks, u, u', c.size);
    TakeHeaders(hs, blocks, u, u', c.head);
  }

  lemma TakeHeaders(hs: Headers, blocks: map<nat, nat>, u: Uses, u': Uses, h: nat)
    requires HeadersOk(hs, blocks, u) && h in blocks && h !in u.meta && u'.live == u.live + {h} && u'.meta == u.meta
    ensures HeadersOk(hs[h := Header(blocks[h], MAGIC)], blocks, u')
  {
  }

  lemma TakeLinked(hs: Headers, hs': Headers, head: nat, l: seq<nat>, s: nat)
    requires Linked(hs, head, l) && l != [] && NoDup(l) && hs' == hs[head := Header(s, MAGIC)]
    ensures head in hs && Linked(hs', hs[head].word, l[1..])
  {
    assert l[0] in hs && hs[l[0]].word == NextOf(l, 0);
    forall i | 0 <= i < |l| - 1
      ensures l[1..][i] in hs' && hs'[l[1..][i]].word == NextOf(l[1..], i)
    {
      assert l[i + 1] in hs && l[i + 1] != l[0] && NextOf(l[1..], i) == NextOf(l, i + 1);
    }
  }

  /** free_slab puts the block in front of the list of its size. */
  lemma Give(hs: Headers, bs: Buckets, blocks: map<nat, nat>, u: Uses, start: nat, top: nat, b: nat, i: nat, h: nat)
    requires Ok(hs, bs, blocks, u, start, top) && h in u.live && b < 8 && i < |bs[b]| && bs[b][i].size == blocks[h]
    ensures bs[b][i].size in u.free
    ensures var c := bs[b][i];
      Ok(hs[h := Header(c.size, c.head)], WithHead(bs, b, i, h), blocks,
         u.(live := u.live - {h}, free := u.free[c.size := Front(h, u.free[c.size])]), start, top)
  {
    var c := bs[b][i];
    assert CacheOk(hs, u, b, c);
    var l := u.free[c.size];
    var hs' := hs[h := Header(c.size, c.head)];
    var u' := u.(live := u.live - {h}, free := u.free[c.size := Front(h, l)]);
    GiveLinked(hs, hs', c.head, l, h);
    CachesMove(hs, hs', bs, blocks, u, u', b, i, h, h, Front(h, l));
    GiveFree(blocks, u, u', c.size, h);
    assert HeadersOk(hs', blocks, u');
  }

  lemma GiveLinked(hs: Headers, hs': Headers, head: nat, l: seq<nat>, h: nat)
    requires Linked(hs, head, l) && h !in l && h in hs' && hs'[h].word == head
    requires forall k :: k in hs && k != h ==> k in hs' && hs'[k] == hs[k]
    ensures Linked(hs', h, Front(h, l))
  {
    var m := Front(h, l);
    forall i | 0 <= i < |m| ensures m[i] in hs' && hs'[m[i]].word == NextOf(m, i) {
      if i > 0 { assert l[i - 1] in l && NextOf(m, i) == NextOf(l, i - 1); }
    }
  }

  /** Or starts a cache for it, in a block carved for the purpose. */
  lemma GiveNew(hs: Headers, bs: Buckets, blocks: map<nat, nat>, u: Uses, start: nat, top: nat, h: nat, at: nat)
    requires Ok(hs, bs, blocks, u, start, top) && h in u.live && blocks[h] !in u.free && at >= HEADER && at - HEADER in u.meta
    requires forall i :: 0 <= i < |bs[Hash(blocks[h])]| ==> bs[Hash(blocks[h])][i].size != blocks[h]
    ensures var s := blocks[h]; var b := Hash(s);
      Ok(hs[h := Header(s, 0)], bs[b := bs[b] + [Cache(at, s, h)]], blocks,
         u.(live := u.live - {h}, free := u.free[s := Front(h, [])]), start, top)
  {
    var s := blocks[h];
    var b := Hash(s);
    var hs', bs' := hs[h := Header(s, 0)], bs[b := bs[b] + [Cache(at, s, h)]];
    var u' := u.(live := u.live - {h}, free := u.free[s := Front(h, [])]);
    NewCacheOk(hs, hs', bs, bs', blocks, u, u', h, at);
    NewCacheKeeps(bs, bs', b, Cache(at, s, h));
    GiveFree(blocks, u, u', s, h);
    assert HeadersOk(hs', blocks, u');
  }

  lemma NewCacheOk(hs: Headers, hs': Headers, bs: Buckets, bs': Buckets, blocks: map<nat, nat>, u: Uses, u': Uses, h: nat, at: nat)
    requires AllCachesOk(hs, bs, u) && FreeOk(blocks, u) && h in u.live && h in blocks && blocks[h] !in u.free
    requires hs' == hs[h := Header(blocks[h], 0)] && at >= HEADER && at - HEADER in u.meta
    requires bs' == bs[Hash(blocks[h]) := bs[Hash(blocks[h])] + [Cache(at, blocks[h], h)]]
    requires u' == u.(live := u.live - {h}, free := u.free[blocks[h] := Front(h, [])])
    ensures AllCachesOk(hs', bs', u')
  {
    forall c, j | 0 <= c < 8 && 0 <= j < |bs'[c]| ensures CacheOk(hs', u', c, bs'[c][j]) {
      if j < |bs[c]| {
        assert CacheOk(hs, u, c, bs[c][j]);
        LinkedKeeps(hs, hs', bs[c][j].head, u.free[bs[c][j].size], h);
      }
    }
  }

  lemma NewCacheKeeps(bs: Buckets, bs': Buckets, b: nat, c: Cache)
    requires |bs| == 8 && b < 8 && b == Hash(c.size) && bs' == bs[b := bs[b] + [c]]
    requires forall i :: 0 <= i < |bs[b]| ==> bs[b][i].size != c.size
    ensures OnePerSize(bs) ==> OnePerSize(bs')
    ensures HasCache(bs', c.size) && forall s :: HasCache(bs, s) ==> HasCache(bs', s)
  {
    assert bs'[b][|bs[b]|] == c;
    forall s | HasCache(bs, s) ensures HasCache(bs', s) {
      var j :| 0 <= j < |bs[Hash(s)]| && bs[Hash(s)][j].size == s;
      assert bs'[Hash(s)][j].size == s;
    }
  }

  // ---- What users see ----

  /** The bytes of the block at h that its user may touch. */
  predicate DataAt(blocks: map<nat, nat>, h: nat, x: nat)
    requires h in blocks
  {
    h + HEADER <= x < h + HEADER + blocks[h]
  }

  lemma DataAligned(h: nat)
    requires h % 16 == 0
    ensures (h + HEADER) % 16 == 0
  {
  }

  /** A block's data is 16-aligned, inside the region, and apart from every other block, header and cache. */
  lemma BlocksApart(hs: Headers, bs: Buckets, blocks: map<nat, nat>, u: Uses, start: nat, top: nat, h: nat, k: nat, x: nat)
    requires Ok(hs, bs, blocks, u, start, top) && h in blocks && k in blocks && h != k && DataAt(blocks, h, x)
    ensures (h + HEADER) % 16 == 0 && start <= x < top
    ensures !(k <= x < k + HEADER + blocks[k])
  {
    DataAligned(h);
    if h < k {
      assert h + HEADER + blocks[h] <= k;
    } else {
      assert k + HEADER + blocks[k] <= h;
    }
  }

  /** The header of a free block never carries the magic word: it is null or a block's address. */
  lemma FreeHasNoMagic(hs: Headers, bs: Buckets, blocks: map<nat, nat>, u: Uses, start: nat, top: nat, s: nat, j: nat)
    requires Ok(hs, bs, blocks, u, start, top) && s in u.free && j < |u.free[s]|
    ensures u.free[s][j] in hs && hs[u.free[s][j]].word != MAGIC
    ensures hs[u.free[s][j]].word % 16 == 0
  {
    var head := ListHead(hs, bs, u, s);
    FreeWord(hs, head, u.free[s], j);
    if j + 1 < |u.free[s]| {
      FreeAligned(blocks, u, start, top, s, j + 1);
    }
    NotMagic(hs[u.free[s][j]].word);
  }

  lemma FreeWord(hs: Headers, head: nat, l: seq<nat>, j: nat)
    requires Linked(hs, head, l) && j < |l|
    ensures l[j] in hs && hs[l[j]].word == if j + 1 < |l| then l[j + 1] else 0
  {
    assert l[j] in hs && hs[l[j]].word == NextOf(l, j);
  }

  lemma NotMagic(w: nat)
    requires w % 16 == 0
    ensures w != MAGIC
  {
  }

  lemma ListHead(hs: Headers, bs: Buckets, u: Uses, s: nat) returns (head: nat)
    requires CachesOk(hs, bs, u) && s in u.free
    ensures Linked(hs, head, u.free[s])
  {
    assert HasCache(bs, s);
    var i :| 0 <= i < |bs[Hash(s)]| && bs[Hash(s)][i].size == s;
    assert CacheOk(hs, u, Hash(s), bs[Hash(s)][i]);
    head := bs[Hash(s)][i].head;
  }

  lemma FreeAligned(blocks: map<nat, nat>, u: Uses, start: nat, top: nat, s: nat, j: nat)
    requires Tiled(blocks, start, top) && FreeOk(blocks, u) && s in u.free && j < |u.free[s]|
    ensures u.free[s][j] % 16 == 0
  {
    assert u.free[s][j] in u.free[s];
  }

  lemma OkSound(hs: Headers, bs: Buckets, blocks: map<nat, nat>, u: Uses, start: nat, top: nat)
    requires Ok(hs, bs, blocks, u, start, top)
    ensures Tiled(blocks, start, top) && FreeOk(blocks, u) && UsesOk(blocks, u)
  {
  }

  class Heap {
    var slabBase: nat
    var slabEnd: nat
    var slabSize: nat                 // 32 bits wide
    var headers: Headers
    var buckets: Buckets
    ghost var blocks: map<nat, nat>
    ghost var uses: Uses
    ghost var start: nat
    ghost var lost: nat               // what slab_size lost to its width at halloc_init

    ghost predicate Valid()
      reads this
    {
      && Ok(headers, buckets, blocks, uses, start, slabBase)
      && start <= slabBase && slabBase % 16 == 0
      && slabBase + slabSize + lost == slabEnd
    }

    ghost function Now(): (s: State)
      reads this
    {
      State(slabBase, slabSize, blocks, uses)
    }

    constructor ()
    {
      slabBase, slabEnd, slabSize, headers, buckets := 0, 0, 0, map[], [[], [], [], [], [], [], [], []];
    }

    /** halloc_init. */
    method Init(base: nat, end: nat) returns (ok: bool)
      modifies this
      ensures ok <==> base <= end && base % 4096 == 0 && end % 4096 == 0
      ensures ok ==> Valid() && blocks == map[] && uses == Uses({}, {}, map[]) && start == slabBase == base && slabEnd == end
      ensures ok ==> slabSize == (end - base) % 0x1_0000_0000 && slabBase + slabSize + lost == slabEnd
      ensures ok ==> lost % 0x1_0000_0000 == 0 && (lost == 0 <==> end - base < 0x1_0000_0000)
      ensures !ok ==> slabBase == old(slabBase) && slabEnd == old(slabEnd) && slabSize == old(slabSize)
    {
      if end < base || base % 4096 != 0 || end % 4096 != 0 { return false; }
      slabBase, slabEnd, slabSize := base, end, (end - base) % 0x1_0000_0000;
      headers, buckets := map[], [[], [], [], [], [], [], [], []];
      blocks, uses, start := map[], Uses({}, {}, map[]), base;
      lost := LowWord(end - base);
      PageIsBlockAligned(base);
      EmptyOk(base);
      ok := true;
    }

    /** The position of the cache of a size in its bucket, or -1. */
    method FindCache(size: nat) returns (i: int)
      requires |buckets| == 8
      ensures i == -1 ==> forall j :: 0 <= j < |buckets[Hash(size)]| ==> buckets[Hash(size)][j].size != size
      ensures i != -1 ==> 0 <= i < |buckets[Hash(size)]| && buckets[Hash(size)][i].size == size
    {
      i := 0;
      while i < |buckets[Hash(size)]|
        invariant 0 <= i <= |buckets[Hash(size)]|
        invariant forall j :: 0 <= j < i ==> buckets[Hash(size)][j].size != size
      {
        if buckets[Hash(size)][i].size == size { return; }
        i := i + 1;
      }
      i := -1;
    }

    /** halloc_from_hash_table: the front of the list of the size, or null if it is empty. */
    method FromHashTable(size: nat) returns (addr: nat)
      requires Valid()
      modifies this`headers, this`buckets, this`uses
      ensures Valid()
      ensures addr == 0 <==> FreeOf(old(uses), size) == []
      ensures addr == 0 ==> uses == old(uses) && headers == old(headers) && buckets == old(buckets)
      ensures addr != 0 ==> Now() == Taken(old(Now()), size) && addr == GotAt(old(Now()), size)
    {
      var i := FindCache(size);
      Lookup(headers, buckets, blocks, uses, start, slabBase, size, i);
      if i == -1 || buckets[Hash(size)][i].head == 0 { return 0; }
      addr := TakeFront(size, i);
    }

    /** Stores new headers and buckets for the same blocks. */
    method Store(hs: Headers, bs: Buckets, ghost u: Uses)
      requires Valid() && Ok(hs, bs, blocks, u, start, slabBase) == true
      modifies this`headers, this`buckets, this`uses
      ensures Valid() && headers == hs && buckets == bs && uses == u
    {
      headers, buckets, uses := hs, bs, u;
    }

    method TakeFront(size: nat, i: nat) returns (addr: nat)
      requires Valid() && i < |buckets[Hash(size)]| && buckets[Hash(size)][i].size == size && buckets[Hash(size)][i].head != 0
      modifies this`headers, this`buckets, this`uses
      ensures Valid() && addr != 0 && FreeOf(old(uses), size) != [] && Now() == Taken(old(Now()), size) && addr == GotAt(old(Now()), size)
    {
      var b := Hash(size);
      var sh := buckets[b][i].head;
      ghost var u' := TakeStep(headers, buckets, blocks, uses, start, slabBase, size, i);
      Store(headers[sh := Header(size, MAGIC)], WithHead(buckets, b, i, headers[sh].word), u');
      addr := sh + HEADER;
    }

    /** halloc_from_slab_heap: a new block at slab_base, or null if too little is left. */
    method FromSlabHeap(size: nat, ghost forCache: bool) returns (addr: nat)
      requires Valid() && size % 16 == 0 && 16 <= size <= 0xffff_ffff_ffff_ffe0 && (forCache ==> size == CACHE)
      modifies this`headers, this`slabBase, this`slabSize, this`blocks, this`uses
      ensures Valid()
      ensures (addr, slabBase, slabSize) == SlabStep(old(slabBase), old(slabSize), size)
      ensures addr == 0 <==> old(slabSize) < HEADER + size
      ensures addr == 0 ==> uses == old(uses) && headers == old(headers) && blocks == old(blocks) && slabBase == old(slabBase)
      ensures addr != 0 ==>
        && addr == old(slabBase) + HEADER && addr - HEADER !in old(blocks)
        && headers == old(headers)[addr - HEADER := Header(size, MAGIC)]
        && Now() == if forCache then NewCache(old(Now())) else NewBlock(old(Now()), size)
    {
      var total := (size + HEADER) % 0x1_0000_0000_0000_0000;
      if slabSize < total { return 0; }
      var sh := slabBase;
      ghost var u := if forCache then uses.(meta := uses.meta + {sh}) else uses.(live := uses.live + {sh});
      Carve(headers, buckets, blocks, uses, start, slabBase, size, u);
      GrowTo(headers[sh := Header(size, MAGIC)], size, u);
      addr := sh + HEADER;
    }

    method GrowTo(hs: Headers, size: nat, ghost u: Uses)
      requires Valid() && size % 16 == 0 && HEADER + size <= slabSize
      requires Ok(hs, buckets, blocks[slabBase := size], u, start, slabBase + HEADER + size) == true
      modifies this`headers, this`slabBase, this`slabSize, this`blocks, this`uses
      ensures Valid() && headers == hs && uses == u && blocks == old(blocks)[old(slabBase) := size]
      ensures slabBase == old(slabBase) + HEADER + size && slabSize == old(slabSize) - HEADER - size
    {
      blocks, headers, uses := blocks[slabBase := size], hs, u;
      slabBase, slabSize := slabBase + (size + HEADER), slabSize - (size + HEADER);
    }

    /** halloc: the last freed block of the rounded size, else a new one, else null. Up to 2^64 - 32 the heap stays
        in order; beyond, a new block is what SlabStep makes of the wrapped size. */
    method Alloc(request: nat) returns (addr: nat)
      requires Valid() && request < 0x1_0000_0000_0000_0000
      modifies this`headers, this`buckets, this`slabBase, this`slabSize, this`blocks, this`uses
      ensures FreeOf(old(uses), Rounded(request)) != [] || request <= 0xffff_ffff_ffff_ffe0 ==>
        Valid() == true && Now() == Got(old(Now()), Rounded(request)) && addr == GotAt(old(Now()), Rounded(request))
      ensures FreeOf(old(uses), Rounded(request)) == [] ==>
        (addr, slabBase, slabSize) == SlabStep(old(slabBase), old(slabSize), Rounded(request))
      ensures request <= 0xffff_ffff_ffff_ffe0 ==> Rounded(request) >= request && Outcome(old(Now()), Now(), Rounded(request), addr) == true
    {
      RoundsUp(request);
      // The same steps either way; only the first branch can promise the invariant.
      if request <= 0xffff_ffff_ffff_ffe0 {
        OkSound(headers, buckets, blocks, uses, start, slabBase);
        GotMeans(Now(), start, Rounded(request));
        addr := AllocRounded(Rounded(request));
      } else {
        addr := AllocWide(Rounded(request));
      }
    }

    method AllocWide(size: nat) returns (addr: nat)
      requires Valid()
      modifies this`headers, this`buckets, this`slabBase, this`slabSize, this`uses
      ensures FreeOf(old(uses), size) != [] ==> Valid() && Now() == Got(old(Now()), size) && addr == GotAt(old(Now()), size)
      ensures FreeOf(old(uses), size) == [] ==>
        uses == old(uses) && (addr, slabBase, slabSize) == SlabStep(old(slabBase), old(slabSize), size)
    {
      addr := FromHashTable(size);
      if addr == 0 {
        var total := (size + HEADER) % 0x1_0000_0000_0000_0000;
        if slabSize < total { return 0; }
        headers := headers[slabBase := Header(size, MAGIC)];
        addr := slabBase + HEADER;
        slabBase, slabSize := slabBase + total, slabSize - total;
      }
    }

    method AllocRounded(size: nat) returns (addr: nat)
      requires Valid() && size % 16 == 0 && 16 <= size <= 0xffff_ffff_ffff_ffe0
      modifies this`headers, this`buckets, this`slabBase, this`slabSize, this`blocks, this`uses
      ensures Valid() && Now() == Got(old(Now()), size) && addr == GotAt(old(Now()), size)
      ensures FreeOf(old(uses), size) == [] ==> (addr, slabBase, slabSize) == SlabStep(old(slabBase), old(slabSize), size)
    {
      addr := FromHashTable(size);
      if addr == 0 {
        addr := FromSlabHeap(size, false);
      }
    }

    /** hfree on a block that halloc has handed out at some time. */
    method Free(addr: nat) returns (r: FreeResult)
      requires Valid() && addr >= HEADER && addr - HEADER in blocks
      requires addr - HEADER in uses.live || addr - HEADER in FreeOf(uses, blocks[addr - HEADER])
      modifies this`headers, this`buckets, this`slabBase, this`slabSize, this`blocks, this`uses
      ensures Valid() == true && Release(old(Now()), Now(), addr - HEADER, r) == true
    {
      var sh := addr - HEADER;
      CheckWord(headers, buckets, blocks, uses, start, slabBase, sh);
      if headers[sh].word != MAGIC || headers[sh].size < 16 { return BadBlock; }
      OkSound(headers, buckets, blocks, uses, start, slabBase);
      PutMeans(Now(), start, sh);
      r := FreeChecked(sh);
    }

    method FreeChecked(sh: nat) returns (r: FreeResult)
      requires Valid() && sh in uses.live && sh in blocks
      modifies this`headers, this`buckets, this`slabBase, this`slabSize, this`blocks, this`uses
      ensures Valid() == true && Now() == Put(old(Now()), sh) && r == PutAnswer(old(Now()), sh)
    {
      var size := headers[sh].size;
      var i := FindCache(size);
      NoCache(headers, buckets, uses, size, i);
      if i != -1 {
        GiveTo(sh, i);
        return Freed;
      }
      r := GiveToNewCache(sh);
    }

    /** Allocates a cache for the block's size, which has none, and puts the block on its list. */
    method GiveToNewCache(sh: nat) returns (r: FreeResult)
      requires Valid() && sh in uses.live && sh in blocks && blocks[sh] !in uses.free
      requires forall j :: 0 <= j < |buckets[Hash(blocks[sh])]| ==> buckets[Hash(blocks[sh])][j].size != blocks[sh]
      modifies this`headers, this`buckets, this`slabBase, this`slabSize, this`blocks, this`uses
      ensures Valid() == true && Now() == Put(old(Now()), sh) && r == PutAnswer(old(Now()), sh)
    {
      var sc := FromSlabHeap(CACHE, true);
      if sc == 0 { return NoCacheMemory; }
      GiveToNew(sh, sc);
      return Freed;
    }

    method GiveTo(sh: nat, i: nat)
      requires Valid() && sh in uses.live && sh in blocks && i < |buckets[Hash(blocks[sh])]| && buckets[Hash(blocks[sh])][i].size == blocks[sh]
      modifies this`headers, this`buckets, this`uses
      ensures Valid() && blocks[sh] in old(uses.free) && Now() == Listed(old(Now()), sh)
    {
      var size := headers[sh].size;
      var b := Hash(size);
      Give(headers, buckets, blocks, uses, start, slabBase, b, i, sh);
      ghost var u := uses.(live := uses.live - {sh}, free := uses.free[size := Front(sh, uses.free[size])]);
      Store(headers[sh := Header(size, buckets[b][i].head)], WithHead(buckets, b, i, sh), u);
    }

    method GiveToNew(sh: nat, sc: nat)
      requires Valid() && sh in uses.live && sh in blocks && blocks[sh] !in uses.free && sc >= HEADER && sc - HEADER in uses.meta
      requires forall j :: 0 <= j < |buckets[Hash(blocks[sh])]| ==> buckets[Hash(blocks[sh])][j].size != blocks[sh]
      modifies this`headers, this`buckets, this`uses
      ensures Valid() && Now() == Listed(old(Now()), sh)
    {
      var size := headers[sh].size;
      var b := Hash(size);
      GiveNew(headers, buckets, blocks, uses, start, slabBase, sh, sc);
      ghost var u := uses.(live := uses.live - {sh}, free := uses.free[size := Front(sh, [])]);
      Store(headers[sh := Header(size, 0)], buckets[b := buckets[b] + [Cache(sc, size, sh)]], u);
    }
  }

  /** The magic word tells blocks in use from free ones. */
  lemma CheckWord(hs: Headers, bs: Buckets, blocks: map<nat, nat>, u: Uses, start: nat, top: nat, h: nat)
    requires Ok(hs, bs, blocks, u, start, top) && h in blocks && (h in u.live || h in FreeOf(u, blocks[h]))
    ensures h in hs && hs[h].size == blocks[h] >= 16 && (hs[h].word == MAGIC <==> h in u.live)
  {
    if h in FreeOf(u, blocks[h]) {
      var j :| 0 <= j < |u.free[blocks[h]]| && u.free[blocks[h]][j] == h;
      FreeHasNoMagic(hs, bs, blocks, u, start, top, blocks[h], j);
    }
  }

  /** What an unsigned int keeps of a length. */
  lemma LowWord(n: nat) returns (lost: nat)
    ensures n % 0x1_0000_0000 + lost == n && lost % 0x1_0000_0000 == 0 && (lost == 0 <==> n < 0x1_0000_0000)
  {
    lost := n / 0x1_0000_0000 * 0x1_0000_0000;
  }

  lemma PageIsBlockAligned(base: nat)
    requires base % 4096 == 0
    ensures base % 16 == 0
  {
    Words.ModFactor(base, 16, 256);
  }

  lemma EmptyOk(base: nat)
    ensures Ok(map[], [[], [], [], [], [], [], [], []], map[], Uses({}, {}, map[]), base, base)
  {
  }

  /** The most recently freed block of the size is in use again. */
  ghost predicate Reused(u: Uses, u': Uses, blocks: map<nat, nat>, size: nat, addr: nat) {
    && FreeOf(u, size) != [] && addr == FreeOf(u, size)[0] + HEADER
    && addr - HEADER in blocks && blocks[addr - HEADER] == size && addr - HEADER !in u.live
    && u' == u.(live := u.live + {addr - HEADER}, free := u.free[size := FreeOf(u, size)[1..]])
  }

  lemma TakeStep(hs: Headers, bs: Buckets, blocks: map<nat, nat>, u: Uses, start: nat, top: nat, size: nat, i: nat) returns (u': Uses)
    requires Ok(hs, bs, blocks, u, start, top) && i < |bs[Hash(size)]|
    requires bs[Hash(size)][i].size == size && bs[Hash(size)][i].head != 0
    ensures var sh := bs[Hash(size)][i].head;
      && sh in hs && Reused(u, u', blocks, size, sh + HEADER)
      && Ok(hs[sh := Header(size, MAGIC)], WithHead(bs, Hash(size), i, hs[sh].word), blocks, u', start, top)
  {
    Take(hs, bs, blocks, u, start, top, Hash(size), i);
    var sh := bs[Hash(size)][i].head;
    u' := u.(live := u.live + {sh}, free := u.free[size := u.free[size][1..]]);
  }

  lemma Lookup(hs: Headers, bs: Buckets, blocks: map<nat, nat>, u: Uses, start: nat, top: nat, size: nat, i: int)
    requires Ok(hs, bs, blocks, u, start, top)
    requires i == -1 ==> forall j :: 0 <= j < |bs[Hash(size)]| ==> bs[Hash(size)][j].size != size
    requires i != -1 ==> 0 <= i < |bs[Hash(size)]| && bs[Hash(size)][i].size == size
    ensures FreeOf(u, size) == [] <==> i == -1 || bs[Hash(size)][i].head == 0
  {
    NoCache(hs, bs, u, size, i);
    if i != -1 && u.free[size] != [] {
      assert u.free[size][0] in u.free[size];
    }
  }

  lemma NoCache(hs: Headers, bs: Buckets, u: Uses, size: nat, i: int)
    requires CachesOk(hs, bs, u)
    requires i == -1 ==> forall j :: 0 <= j < |bs[Hash(size)]| ==> bs[Hash(size)][j].size != size
    requires i != -1 ==> 0 <= i < |bs[Hash(size)]| && bs[Hash(size)][i].size == size
    ensures i == -1 ==> size !in u.free
    ensures i != -1 ==> CacheOk(hs, u, Hash(size), bs[Hash(size)][i])
  {
    if size in u.free { assert HasCache(bs, size); }
  }
}
