/** The page the inspection tool adds to memory, as `__instr_load_data` sets it up. */
module PageLayout {
  import opened Values
  import opened Machine
  import opened Embedding
  import opened EventBuffer

  const MAX_PAGES := 65536

  /** Offsets from the base address, which lies 1024 bytes into the page. */
  const FILENAME := 1024
  const CIOVEC := 2048
  const WASI_RET := 3072
  const BUFFER := 4096

  const DOT: seq<Byte> := [46, 0]
  /** "__instr_cache.file" and a terminating zero. */
  const CACHE_FILE: seq<Byte> :=
    [95, 95, 105, 110, 115, 116, 114, 95, 99, 97, 99, 104, 101, 46, 102, 105, 108, 101, 0]

  /** The base address computed from the result of memory.grow. */
  function BaseOf(grown: int): nat {
    Int32(Int32(grown * 65536).bits + GUIDE).bits
  }

  /** The six globals of the instrumentation as they are declared. */
  function InitialGlobals(): (gl: seq<Value>)
    ensures |gl| == OWN_GLOBALS
  {
    [Int32(GUIDE), Int32(-1), Int32(-1), Int32(-1), Int32(0), Int32(-1)]
  }

  /** memory.grow by one page returns the old page count, or -1. */
  function GrowResult(pages: nat, maxPages: nat): int {
    if pages + 1 <= maxPages then pages else -1
  }

  class Instance {
    var mem: seq<Byte>
    var globals: seq<Value>

    constructor (m: seq<Byte>)
      ensures mem == m
      ensures globals == InitialGlobals()
    {
      mem := m;
      globals := InitialGlobals();
    }

    /** memory.init; false when it traps. */
    method MemoryInit(a: nat, bs: seq<Byte>) returns (ok: bool)
      modifies this`mem
      ensures ok <==> a + |bs| <= |old(mem)|
      ensures mem == if ok then Write(old(mem), a, bs) else old(mem)
    {
      ok := a + |bs| <= |mem|;
      if ok {
        mem := Write(mem, a, bs);
      }
    }

    /**
     * The set-up function. Where memory can grow, the program's memory is untouched and the new page
     * holds the two strings and an empty buffer. Where it cannot, the function traps, unless memory
     * already has its largest size: then the strings overwrite the last page.
     */
    method LoadData(maxPages: nat) returns (ok: bool)
      requires maxPages <= MAX_PAGES && |mem| % PAGE == 0 && |mem| <= MAX_PAGES * PAGE
      requires |globals| == OWN_GLOBALS && globals[0] == Int32(GUIDE)
      modifies this
      ensures var pages := |old(mem)| / PAGE;
        && (pages + 1 <= maxPages ==>
              && ok && |mem| == |old(mem)| + PAGE && mem[..|old(mem)|] == old(mem)
              && globals == AddressGlobals(old(globals), |old(mem)| + GUIDE)
              && Holds(mem, |old(mem)| + GUIDE, DOT) && Holds(mem, |old(mem)| + GUIDE + FILENAME, CACHE_FILE))
        && (pages + 1 > maxPages && pages < MAX_PAGES ==> !ok && mem == old(mem))
        && (pages == MAX_PAGES ==>
              && ok && |mem| == |old(mem)|
              && Holds(mem, 0xFFFF_0400, DOT) && Holds(mem, 0xFFFF_0800, CACHE_FILE))
    {
      hide Write, Holds;
      ghost var size := |mem|;
      var grown := GrowResult(|mem| / PAGE, maxPages);
      BaseAddress(size, maxPages);
      if grown != -1 {
        mem := mem + ZeroBytes(PAGE);
      }
      ghost var m0 := mem;
      assert m0[..size] == old(mem);
      var base := BaseOf(grown);
      globals := globals[BASE_ADDR := Int32(base)];
      globals := globals[WASI_RET_ADDR := Int32(base + WASI_RET)];
      globals := globals[IOBUF_ADDR := Int32(base + BUFFER)];
      ok := MemoryInit(base, DOT);
      if !ok {
        return;
      }
      var name := Int32(base + FILENAME).bits;
      assert name == base + FILENAME;
      ok := MemoryInit(name, CACHE_FILE);
      TwoWrites(m0, base, DOT, name, CACHE_FILE);
    }
  }

  function AddressGlobals(globals: seq<Value>, base: nat): seq<Value>
    requires |globals| == OWN_GLOBALS
  {
    globals[BASE_ADDR := Int32(base)][WASI_RET_ADDR := Int32(base + WASI_RET)][IOBUF_ADDR := Int32(base + BUFFER)]
  }

  /** The base address, the result area and the buffer, each in its global; the other globals stay as they are. */
  lemma AddressesAre(globals: seq<Value>, base: nat)
    requires |globals| == OWN_GLOBALS
    ensures var g := AddressGlobals(globals, base);
      && |g| == OWN_GLOBALS && g[1] == Int32(base) && g[2] == Int32(base + 3072) && g[3] == Int32(base + 4096)
      && g[0] == globals[0] && g[4] == globals[4] && g[5] == globals[5]
  {
  }

  /** The bytes bs stand at address a. */
  predicate Holds(m: seq<Byte>, a: nat, bs: seq<Byte>) {
    a + |bs| <= |m| && m[a..a + |bs|] == bs
  }

  lemma TwoWrites(m: seq<Byte>, a: nat, x: seq<Byte>, b: nat, y: seq<Byte>)
    requires a + |x| <= b && b + |y| <= |m|
    ensures var m2 := Write(Write(m, a, x), b, y);
      |m2| == |m| && m2[..a] == m[..a] && Holds(m2, a, x) && Holds(m2, b, y)
  {
  }

  /** Without wrap-around the base is 1024 bytes into the new page; a failed grow gives 0xFFFF0400. */
  lemma BaseAddress(size: nat, maxPages: nat)
    requires maxPages <= MAX_PAGES && size % PAGE == 0 && size <= MAX_PAGES * PAGE
    ensures var pages := size / PAGE;
      && size == pages * PAGE
      && (pages + 1 <= maxPages ==> BaseOf(GrowResult(pages, maxPages)) == size + GUIDE && size + PAGE <= WORD)
      && (pages + 1 > maxPages ==> BaseOf(GrowResult(pages, maxPages)) == 0xFFFF_0400)
      && (pages < MAX_PAGES ==> size <= 0xFFFF_0000)
  {
  }

  /** What the set-up leaves is an empty recording, the starting point of the backtrace. */
  lemma SetUpRecording(size: nat, globals: seq<Value>, page: seq<Byte>)
    requires size + PAGE <= WORD && |globals| == OWN_GLOBALS && |page| == PAGE && globals[IOBUF_LEN] == Int32(0)
    ensures Recorded(size, Own(AddressGlobals(globals, size + GUIDE), page), [])
  {
    var own := Own(AddressGlobals(globals, size + GUIDE), page);
    assert Content(own, 0) == EventBytes([]);
  }

  predicate Apart(a: nat, m: nat, b: nat, n: nat) {
    a + m <= b || b + n <= a
  }

  /** The five areas of the page are pairwise disjoint and inside it; the buffer ends where the page does. */
  lemma AreasDisjoint(size: nat)
    ensures var base := size + GUIDE;
      var at := [base, base + FILENAME, base + CIOVEC, base + WASI_RET, base + BUFFER];
      var len := [2, 19, 8, 8, CAPACITY];
      && (forall i, j :: 0 <= i < j < 5 ==> Apart(at[i], len[i], at[j], len[j]))
      && (forall i :: 0 <= i < 5 ==> size <= at[i] && at[i] + len[i] <= size + PAGE)
      && base + BUFFER == size + IOBUF && base + BUFFER + CAPACITY == size + PAGE
  {
  }

  /** The i32 address of a store behind n buffered bytes. */
  function StoreAddress(size: nat, n: nat): nat {
    Int32(Int32(size + IOBUF).bits + Int32(n).bits).bits
  }

  /**
   * A store of `width` bytes behind n buffered bytes goes to its place in the page, without
   * wrap-around, exactly when the total stays within 60416 bytes.
   */
  lemma StoreInPage(size: nat, n: nat, width: nat)
    requires size + PAGE <= WORD && 1 <= width <= 16 && n + width <= WORD - PAGE
    ensures size <= StoreAddress(size, n) && StoreAddress(size, n) + width <= size + PAGE <==> n + width <= CAPACITY
    ensures n + width <= CAPACITY ==> StoreAddress(size, n) == size + IOBUF + n
  {
    if size + IOBUF + n < WORD {
      assert StoreAddress(size, n) == size + IOBUF + n;
    } else {
      assert StoreAddress(size, n) == size + IOBUF + n - WORD;
    }
  }

  /** The buffer takes 15104 events of four bytes. */
  lemma EventsThatFit(n: nat)
    ensures 4 * n <= CAPACITY <==> n <= 15104
  {
  }
}
