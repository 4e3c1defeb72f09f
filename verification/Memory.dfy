/** Slices of shared backing arrays, as appends see them. */
module Memory {
  import opened Nft

  /** A view of the elements off .. off + len of one backing array, able to grow in place
      up to cap. */
  datatype Slice = Slice(block: nat, off: nat, len: nat, cap: nat)

  const NIL: Slice := Slice(0, 0, 0, 0)

  /** Backing arrays, by allocation order. */
  type Heap = seq<seq<Expr>>

  predicate InMem(mem: Heap, s: Slice) {
    s.len <= s.cap && (s.cap == 0 || (s.block < |mem| && s.off + s.cap <= |mem[s.block]|))
  }

  function Read(mem: Heap, s: Slice): (r: seq<Expr>)
    requires InMem(mem, s)
    ensures |r| == s.len
  {
    if s.len == 0 then [] else mem[s.block][s.off..s.off + s.len]
  }

  /** t's elements lie outside the room s can still grow into. */
  predicate Apart(t: Slice, s: Slice) {
    t.len == 0 || s.cap == s.len || t.block != s.block || t.off + t.len <= s.off + s.len || s.off + s.cap <= t.off
  }

  /** The windows of two slices share no cell. */
  predicate Disjoint(s: Slice, t: Slice) {
    s.cap == 0 || t.cap == 0 || s.block != t.block || s.off + s.cap <= t.off || t.off + t.cap <= s.off
  }

  /** Overwrites part of an array. */
  function Splice(a: seq<Expr>, at: nat, xs: seq<Expr>): (r: seq<Expr>)
    requires at + |xs| <= |a|
    ensures |r| == |a|
  {
    a[..at] + xs + a[at + |xs|..]
  }

  /** Append: in place when the capacity allows, else into a new array with some spare room. */
  function AppendMem(mem: Heap, s: Slice, xs: seq<Expr>, spare: nat): Heap
    requires InMem(mem, s)
  {
    if xs == [] then mem
    else if s.len + |xs| <= s.cap then mem[s.block := Splice(mem[s.block], s.off + s.len, xs)]
    else mem + [Read(mem, s) + xs + seq(spare, i => Counter)]
  }

  function AppendSlice(mem: Heap, s: Slice, xs: seq<Expr>, spare: nat): Slice {
    if s.len + |xs| <= s.cap then s.(len := s.len + |xs|)
    else Slice(|mem|, 0, s.len + |xs|, s.len + |xs| + spare)
  }

  lemma AppendReads(mem: Heap, s: Slice, xs: seq<Expr>, spare: nat)
    requires InMem(mem, s)
    ensures var t := AppendSlice(mem, s, xs, spare);
      InMem(AppendMem(mem, s, xs, spare), t) && Read(AppendMem(mem, s, xs, spare), t) == Read(mem, s) + xs
  {
  }

  /** Other slices keep their contents when they are apart from s. */
  lemma AppendKeeps(mem: Heap, s: Slice, xs: seq<Expr>, spare: nat, t: Slice)
    requires InMem(mem, s) && InMem(mem, t) && Apart(t, s)
    ensures InMem(AppendMem(mem, s, xs, spare), t)
    ensures Read(AppendMem(mem, s, xs, spare), t) == Read(mem, t)
  {
  }

  /** A new backing array leaves every slice as it is. */
  lemma GrowKeeps(mem: Heap, block: seq<Expr>, t: Slice)
    requires InMem(mem, t)
    ensures InMem(mem + [block], t) && Read(mem + [block], t) == Read(mem, t)
  {
  }

  // ---- the object graph ------------------------------------------------------------------

  datatype RuleObj = RuleObj(chain: Chain, exprs: Slice)

  /** A shared expression array and how much of it has been handed out. */
  datatype ExprArena = ExprArena(block: nat, used: nat)

  /** Rule objects live in chunks of fixed capacity and are referred to by position. */
  datatype Chunk = Chunk(objs: seq<RuleObj>, cap: nat)

  datatype Handle = Handle(chunk: nat, index: nat)

  datatype Graph = Graph(mem: Heap, arenas: seq<ExprArena>, chunks: seq<Chunk>, rules: seq<Handle>, windows: seq<Slice>)

  /** s lies outside the part of the current arena that is still to be handed out. */
  predicate Taken(g: Graph, s: Slice) {
    g.arenas == [] || s.cap == 0 || s.block != g.arenas[|g.arenas| - 1].block
    || s.off + s.cap <= g.arenas[|g.arenas| - 1].used
  }

  predicate Live(g: Graph, p: Handle) {
    p.chunk < |g.chunks| && p.index < |g.chunks[p.chunk].objs|
  }

  function Deref(g: Graph, p: Handle): RuleObj
    requires Live(g, p)
  {
    g.chunks[p.chunk].objs[p.index]
  }

  ghost predicate Valid(g: Graph) {
    && (forall i :: 0 <= i < |g.arenas| ==>
          g.arenas[i].block < |g.mem| && g.arenas[i].used <= |g.mem[g.arenas[i].block]|)
    && (forall i :: 0 <= i < |g.chunks| ==> |g.chunks[i].objs| <= g.chunks[i].cap)
    && (forall i :: 0 <= i < |g.rules| ==> Sound(g, g.rules[i]))
    && (forall i :: 0 <= i < |g.windows| ==> InMem(g.mem, g.windows[i]) && Taken(g, g.windows[i]))
    && (forall i, j :: 0 <= i < j < |g.windows| ==> Disjoint(g.windows[i], g.windows[j]))
  }

  /** A stored rule's slice is in memory and will not be handed out again. */
  predicate Sound(g: Graph, p: Handle) {
    Live(g, p) && InMem(g.mem, Deref(g, p).exprs) && Taken(g, Deref(g, p).exprs)
  }

  type Emitted = seq<(Chain, seq<Expr>)>

  /** Every rule added so far, read now through its handle and its slice. */
  ghost function Stored(g: Graph): (e: Emitted)
    requires Valid(g)
    ensures |e| == |g.rules|
  {
    seq(|g.rules|, i requires 0 <= i < |g.rules| => Fetch(g, g.rules[i]))
  }

  function Fetch(g: Graph, p: Handle): (Chain, seq<Expr>)
    requires Sound(g, p)
  {
    (Deref(g, p).chain, Read(g.mem, Deref(g, p).exprs))
  }

  /** No stored rule reads a cell that s can still grow into. */
  ghost predicate Owned(g: Graph, s: Slice)
    requires Valid(g)
  {
    InMem(g.mem, s) && Taken(g, s) && forall i :: 0 <= i < |g.rules| ==> Apart(Deref(g, g.rules[i]).exprs, s)
  }

  // ---- handing out windows -----------------------------------------------------------------

  function WithArena(g: Graph, size: nat): Graph {
    g.(mem := g.mem + [seq(size, i => Counter)], arenas := g.arenas + [ExprArena(|g.mem|, 0)])
  }

  predicate HasRoom(g: Graph, n: nat)
    requires forall i :: 0 <= i < |g.arenas| ==> g.arenas[i].block < |g.mem|
  {
    g.arenas != []
    && g.arenas[|g.arenas| - 1].used + n <= |g.mem[g.arenas[|g.arenas| - 1].block]|
  }

  function WithWindow(g: Graph, n: nat): (Graph, Slice)
    requires g.arenas != []
  {
    var last := |g.arenas| - 1;
    var s := Slice(g.arenas[last].block, g.arenas[last].used, 0, n);
    (g.(arenas := g.arenas[last := g.arenas[last].(used := g.arenas[last].used + n)], windows := g.windows + [s]), s)
  }

  /** g2 still reads everything g1 read and hands out nothing g1 had given away. */
  ghost predicate Extends(g1: Graph, g2: Graph) {
    forall t :: InMem(g1.mem, t) && Taken(g1, t) ==>
      InMem(g2.mem, t) && Taken(g2, t) && Read(g2.mem, t) == Read(g1.mem, t)
  }

  lemma ArenaExtends(g: Graph, size: nat)
    requires Valid(g)
    ensures Valid(WithArena(g, size)) && Extends(g, WithArena(g, size))
    ensures Stored(WithArena(g, size)) == Stored(g)
  {
    var g2 := WithArena(g, size);
    forall t | InMem(g.mem, t)
      ensures InMem(g2.mem, t) && Taken(g2, t) && Read(g2.mem, t) == Read(g.mem, t)
    {
      GrowKeeps(g.mem, seq(size, i => Counter), t);
    }
    forall i | 0 <= i < |g.rules| ensures Sound(g2, g.rules[i]) && Fetch(g2, g.rules[i]) == Fetch(g, g.rules[i]) {
      assert Sound(g, g.rules[i]);
    }
  }

  /** A window overlaps no earlier window and no stored rule. */
  lemma WindowFresh(g: Graph, n: nat)
    requires Valid(g) && HasRoom(g, n) && n > 0
    ensures var (g2, s) := WithWindow(g, n);
      && Valid(g2) && Extends(g, g2) && Stored(g2) == Stored(g) && Owned(g2, s)
      && s.len == 0 && s.cap == n && g2.mem == g.mem
  {
    var (g2, s) := WithWindow(g, n);
    forall t | InMem(g.mem, t) && Taken(g, t) ensures Taken(g2, t) && Disjoint(t, s) {
    }
    forall i | 0 <= i < |g.rules| ensures Sound(g2, g.rules[i]) && Fetch(g2, g.rules[i]) == Fetch(g, g.rules[i]) {
      assert Sound(g, g.rules[i]);
    }
    assert Stored(g2) == Stored(g);
  }

  // ---- appending ------------------------------------------------------------------------------

  function WithAppend(g: Graph, s: Slice, xs: seq<Expr>, spare: nat): Graph
    requires InMem(g.mem, s)
  {
    g.(mem := AppendMem(g.mem, s, xs, spare))
  }

  /** Everything apart from s keeps its contents. */
  ghost predicate KeepsApart(g1: Graph, g2: Graph, s: Slice) {
    forall t :: InMem(g1.mem, t) && Apart(t, s) ==> InMem(g2.mem, t) && Read(g2.mem, t) == Read(g1.mem, t)
  }

  lemma AppendOwned(g: Graph, s: Slice, xs: seq<Expr>, spare: nat)
    requires Valid(g) && Owned(g, s)
    ensures var g2, t := WithAppend(g, s, xs, spare), AppendSlice(g.mem, s, xs, spare);
      && Valid(g2) && Stored(g2) == Stored(g) && Owned(g2, t)
      && Read(g2.mem, t) == Read(g.mem, s) + xs
      && KeepsApart(g, g2, s)
  {
    var g2, t := WithAppend(g, s, xs, spare), AppendSlice(g.mem, s, xs, spare);
    AppendReads(g.mem, s, xs, spare);
    forall u | InMem(g.mem, u) && Apart(u, s) ensures InMem(g2.mem, u) && Read(g2.mem, u) == Read(g.mem, u) {
      AppendKeeps(g.mem, s, xs, spare, u);
    }
    forall i | 0 <= i < |g.rules| ensures Sound(g2, g.rules[i]) && Fetch(g2, g.rules[i]) == Fetch(g, g.rules[i]) {
      assert Sound(g, g.rules[i]);
    }
    assert forall i :: 0 <= i < |g.windows| ==> InMem(g2.mem, g.windows[i]);
    assert Stored(g2) == Stored(g);
  }

  // ---- adding a rule --------------------------------------------------------------------------

  function WithChunk(g: Graph, cap: nat): Graph {
    g.(chunks := g.chunks + [Chunk([], cap)])
  }

  predicate ChunkHasRoom(g: Graph) {
    g.chunks != [] && |g.chunks[|g.chunks| - 1].objs| < g.chunks[|g.chunks| - 1].cap
  }

  function WithRule(g: Graph, r: RuleObj): Graph
    requires g.chunks != []
  {
    var last := |g.chunks| - 1;
    var chunk := g.chunks[last];
    g.(chunks := g.chunks[last := chunk.(objs := chunk.objs + [r])],
       rules := g.rules + [Handle(last, |chunk.objs|)])
  }

  lemma ChunkKeeps(g: Graph, cap: nat)
    requires Valid(g)
    ensures Valid(WithChunk(g, cap)) && Stored(WithChunk(g, cap)) == Stored(g)
  {
    var g2 := WithChunk(g, cap);
    forall i | 0 <= i < |g.rules| ensures Sound(g2, g.rules[i]) && Fetch(g2, g.rules[i]) == Fetch(g, g.rules[i]) {
      assert Sound(g, g.rules[i]);
    }
    assert Stored(g2) == Stored(g);
  }

  /** Earlier objects stay where they are and the new rule reads back as it was passed. */
  lemma RuleAdded(g: Graph, r: RuleObj)
    requires Valid(g) && ChunkHasRoom(g) && InMem(g.mem, r.exprs) && Taken(g, r.exprs)
    ensures Valid(WithRule(g, r)) && Stored(WithRule(g, r)) == Stored(g) + [(r.chain, Read(g.mem, r.exprs))]
  {
    var g2 := WithRule(g, r);
    forall i | 0 <= i < |g.rules| ensures Sound(g2, g.rules[i]) && Fetch(g2, g.rules[i]) == Fetch(g, g.rules[i]) {
      assert Sound(g, g.rules[i]);
    }
    assert Sound(g2, g2.rules[|g.rules|]);
    assert Stored(g2) == Stored(g) + [(r.chain, Read(g.mem, r.exprs))];
  }
}
