/** The hand-written WebAssembly routines: comparison, search for the working directory, number output. */
module WatRoutines {
  import opened Values
  import opened Decimals

  /** The address k bytes behind p, with the wrap-around of i32 addition. */
  function At(p: nat, k: nat): nat {
    (p + k) % WORD
  }

  ghost predicate SameUpTo(mem: seq<Byte>, p: nat, q: nat, k: nat) {
    forall j: nat :: j < k ==> At(p, j) < |mem| && At(q, j) < |mem| && mem[At(p, j)] == mem[At(q, j)]
  }

  ghost predicate Readable(mem: seq<Byte>, p: nat, q: nat, k: nat) {
    At(p, k) < |mem| && At(q, k) < |mem|
  }

  /** The first k bytes agree and the next pair differs by d. */
  ghost predicate DifferAt(mem: seq<Byte>, p: nat, q: nat, k: nat, d: int) {
    SameUpTo(mem, p, q, k) && Readable(mem, p, q, k)
    && mem[At(p, k)] != mem[At(q, k)] && d == mem[At(p, k)] as int - mem[At(q, k)] as int
  }

  lemma NoneSame(mem: seq<Byte>, p: nat, q: nat)
    requires p < WORD && q < WORD
    ensures SameUpTo(mem, p, q, 0) && At(p, 0) == p && At(q, 0) == q
  {
  }

  lemma OneMoreSame(mem: seq<Byte>, p: nat, q: nat, k: nat)
    requires SameUpTo(mem, p, q, k) && Readable(mem, p, q, k) && mem[At(p, k)] == mem[At(q, k)]
    ensures SameUpTo(mem, p, q, k + 1)
    ensures At(p, k + 1) == Int32(At(p, k) + 1).bits && At(q, k + 1) == Int32(At(q, k) + 1).bits
  {
  }

  /** __instr_memcmp; None when a load is outside the memory. */
  method MemCmp(mem: seq<Byte>, p0: nat, q0: nat, n0: nat) returns (r: Option<nat>)
    requires p0 < WORD && q0 < WORD && n0 < WORD
    ensures r.None? ==> exists k: nat :: k < n0 && SameUpTo(mem, p0, q0, k) && !Readable(mem, p0, q0, k)
    ensures r == Some(0) ==> SameUpTo(mem, p0, q0, n0)
    ensures r.Some? && r.value != 0 ==>
              exists k: nat, d: int :: k < n0 && DifferAt(mem, p0, q0, k, d) && r.value == Int32(d).bits
  {
    hide SameUpTo, At;
    var p, q, n := p0, q0, n0;
    NoneSame(mem, p0, q0);
    if n == 0 {
      return Some(0);
    }
    ghost var k := 0;
    while true
      invariant k < n0 && n == n0 - k && p == At(p0, k) && q == At(q0, k) && SameUpTo(mem, p0, q0, k)
      decreases n
    {
      if p >= |mem| || q >= |mem| {
        assert !Readable(mem, p0, q0, k);
        return None;
      }
      var a, b := mem[p], mem[q];
      if a != b {
        var d := a as int - b as int;
        assert DifferAt(mem, p0, q0, k, d);
        return Some(Int32(d).bits);
      }
      OneMoreSame(mem, p0, q0, k);
      q := Int32(q + 1).bits;
      p := Int32(p + 1).bits;
      n := Int32(n - 1).bits;
      k := k + 1;
      if n == 0 {
        return Some(0);
      }
    }
  }

  lemma PlainAddress(p: nat, k: nat)
    requires p + k < WORD
    ensures At(p, k) == p + k
  {
  }

  /** On ranges inside the memory agreement up to n is equality of the ranges. */
  lemma RangesEqual(mem: seq<Byte>, p: nat, q: nat, n: nat)
    requires p + n <= |mem| <= WORD && q + n <= |mem|
    ensures SameUpTo(mem, p, q, n) <==> mem[p..p + n] == mem[q..q + n]
    ensures forall k: nat :: k < n ==> Readable(mem, p, q, k)
  {
    forall k: nat | k < n ensures At(p, k) == p + k && At(q, k) == q + k {
      PlainAddress(p, k);
      PlainAddress(q, k);
    }
    if mem[p..p + n] == mem[q..q + n] {
      forall j: nat | j < n ensures At(p, j) < |mem| && At(q, j) < |mem| && mem[At(p, j)] == mem[At(q, j)] {
        assert mem[p..p + n][j] == mem[q..q + n][j];
      }
    }
    if SameUpTo(mem, p, q, n) {
      var s, t := mem[p..p + n], mem[q..q + n];
      forall j: nat | j < n ensures s[j] == t[j] {
        assert mem[At(p, j)] == mem[At(q, j)];
      }
    }
  }

  /** The ranges agree for k bytes and then differ by d as unsigned bytes. */
  ghost predicate FirstDifference(mem: seq<Byte>, p: nat, q: nat, k: nat, d: int) {
    && p + k < |mem| && q + k < |mem| && mem[p..p + k] == mem[q..q + k]
    && mem[p + k] != mem[q + k] && d == mem[p + k] as int - mem[q + k] as int
  }

  /** On ranges inside the memory the result is 0 if and only if the ranges are equal. */
  method CompareRanges(mem: seq<Byte>, p: nat, q: nat, n: nat) returns (r: nat)
    requires p + n <= |mem| <= WORD && q + n <= |mem| && p < WORD && q < WORD && n < WORD
    ensures r == 0 <==> mem[p..p + n] == mem[q..q + n]
    ensures r != 0 ==> exists k: nat, d: int :: k < n && FirstDifference(mem, p, q, k, d) && r == Int32(d).bits
  {
    hide SameUpTo, At;
    RangesEqual(mem, p, q, n);
    var out := MemCmp(mem, p, q, n);
    r := out.value;
    if r != 0 {
      ghost var k: nat, d: int :| k < n && DifferAt(mem, p, q, k, d) && r == Int32(d).bits;
      RangesEqual(mem, p, q, k);
      PlainAddress(p, k);
      PlainAddress(q, k);
      var s, t := mem[p..p + n], mem[q..q + n];
      assert s[k] == mem[p + k] && t[k] == mem[q + k];
      assert FirstDifference(mem, p, q, k, d);
    }
  }

  // ----- the working directory -----

  const DOT_CHAR: Byte := 46
  /** What the host writes for a preopened directory before its name: a tag and the length of the name. */
  const PRESTAT := 8
  const FIRST_FD := 3

  /** A preopened directory: its name, and the error codes of the two calls that ask for it. */
  datatype PreOpen = PreOpen(name: seq<Byte>, getErr: nat, nameErr: nat)

  predicate IsDot(e: PreOpen) {
    e.name != [] && e.name[0] == DOT_CHAR
  }

  /** The host answers for the descriptors of the table without error. */
  predicate Answers(e: PreOpen) {
    e.getErr == 0 && e.nameErr == 0
  }

  /** The error that stops the search at entry k; the table ends with the error `last`. */
  function ErrorAt(table: seq<PreOpen>, last: nat, k: nat): nat
    requires k <= |table|
  {
    if k == |table| then last else if table[k].getErr != 0 then table[k].getErr else table[k].nameErr
  }

  class CwdSearch {
    var mem: seq<Byte>
    const table: seq<PreOpen>
    const last: nat
    /** How many bytes there are at the address given for the results. */
    const room: nat

    constructor (m: seq<Byte>, t: seq<PreOpen>, l: nat, r: nat)
      requires PRESTAT <= r
      ensures mem == m && table == t && last == l && room == r
    {
      mem, table, last, room := m, t, l, r;
    }

    /** Memory differs from m at most in the scratch area at `a`. */
    predicate OnlyScratch(m: seq<Byte>, a: nat)
      reads this
    {
      |mem| == |m| && a + room <= |m| && mem[..a] == m[..a] && mem[a + room..] == m[a + room..]
    }

    method Put(a: nat, at: nat, bs: seq<Byte>)
      requires a <= at && at + |bs| <= a + room <= |mem|
      modifies this
      ensures mem == old(mem)[..at] + bs + old(mem)[at + |bs|..]
      ensures OnlyScratch(old(mem), a)
    {
      mem := mem[..at] + bs + mem[at + |bs|..];
    }

    /** fd_prestat_get: a tag byte 0 and, four bytes on, the length of the name. */
    method PrestatGet(fd: nat, a: nat) returns (errno: nat)
      requires PRESTAT <= room && a + room <= |mem| && FIRST_FD <= fd <= FIRST_FD + |table|
      modifies this
      ensures OnlyScratch(old(mem), a)
      ensures errno == if fd - FIRST_FD == |table| then last else table[fd - FIRST_FD].getErr
      ensures errno == 0 && fd - FIRST_FD < |table| ==>
                mem[a] == 0 && mem[a + 4..a + 8] == ToBytes(|table[fd - FIRST_FD].name|, 4)
    {
      var k := fd - FIRST_FD;
      if k == |table| {
        return last;
      }
      errno := table[k].getErr;
      if errno == 0 {
        Put(a, a, [0, 0, 0, 0] + ToBytes(|table[k].name|, 4));
      }
    }

    /** fd_prestat_dir_name: the name itself. */
    method PrestatDirName(fd: nat, a: nat, len: nat) returns (errno: nat)
      requires PRESTAT <= room && a + room <= |mem| && FIRST_FD <= fd < FIRST_FD + |table|
      requires len == |table[fd - FIRST_FD].name| <= room
      modifies this
      ensures OnlyScratch(old(mem), a)
      ensures errno == table[fd - FIRST_FD].nameErr
      ensures errno == 0 ==> mem[a] == if len == 0 then old(mem)[a] else table[fd - FIRST_FD].name[0]
    {
      var k := fd - FIRST_FD;
      errno := table[k].nameErr;
      if errno == 0 {
        Put(a, a, table[k].name);
      }
    }

    /**
     * __instr_get_cwd_fd: stores the least descriptor whose name starts with a dot and returns 0, or
     * returns the first error the host reports. Only the scratch area is written.
     */
    method GetCwdFd(dotAddr: nat, a: nat) returns (errno: nat)
      requires |mem| <= WORD && a + room <= |mem| && dotAddr < |mem| && FIRST_FD + |table| < WORD && last != 0
      requires PRESTAT <= room && (dotAddr < a || a + room <= dotAddr)
      requires mem[dotAddr] == DOT_CHAR
      requires forall k :: 0 <= k < |table| ==> |table[k].name| <= room
      modifies this
      ensures OnlyScratch(old(mem), a)
      ensures exists k :: 0 <= k <= |table|
                && (forall j :: 0 <= j < k ==> Answers(table[j]) && !(table[j].name != [] && table[j].name[0] == 46))
                && (if errno == 0
                    then k < |table| && Answers(table[k]) && table[k].name != [] && table[k].name[0] == 46
                         && mem[a..a + 4] == ToBytes(FIRST_FD + k, 4)
                    else errno == ErrorAt(table, last, k))
    {
      hide ToBytes, FromBytes;
      var dirfd := FIRST_FD;
      while true
        invariant FIRST_FD <= dirfd <= FIRST_FD + |table|
        invariant OnlyScratch(old(mem), a) && mem[dotAddr] == DOT_CHAR
        invariant forall j :: 0 <= j < dirfd - FIRST_FD ==> Answers(table[j]) && !IsDot(table[j])
        decreases FIRST_FD + |table| - dirfd
      {
        ghost var k := dirfd - FIRST_FD;
        errno := PrestatGet(dirfd, a);
        DotKept(old(mem), mem, a, room, dotAddr);
        if errno != 0 {
          assert errno == ErrorAt(table, last, k);
          return;
        }
        LengthRead(|table[k].name|);
        var len := FromBytes(mem[a + 4..a + 8]);
        errno := PrestatDirName(dirfd, a, len);
        DotKept(old(mem), mem, a, room, dotAddr);
        if errno != 0 {
          assert errno == ErrorAt(table, last, k);
          return;
        }
        var c := CompareRanges(mem, a, dotAddr, 1);
        OneByte(mem, a);
        OneByte(mem, dotAddr);
        if c == 0 {
          Put(a, a, ToBytes(dirfd, 4));
          assert mem[a..a + 4] == ToBytes(FIRST_FD + k, 4);
          return;
        }
        dirfd := Int32(1 + dirfd).bits;
      }
    }
  }

  lemma DotKept(m: seq<Byte>, m2: seq<Byte>, a: nat, room: nat, dotAddr: nat)
    requires |m2| == |m| && a + room <= |m| && m2[..a] == m[..a] && m2[a + room..] == m[a + room..]
    requires dotAddr < |m| && (dotAddr < a || a + room <= dotAddr)
    ensures m2[dotAddr] == m[dotAddr]
  {
    if dotAddr < a {
      assert m2[..a][dotAddr] == m[..a][dotAddr];
    } else {
      assert m2[a + room..][dotAddr - a - room] == m[a + room..][dotAddr - a - room];
    }
  }

  lemma OneByte(m: seq<Byte>, a: nat)
    requires a < |m|
    ensures m[a..a + 1] == [m[a]]
  {
  }

  lemma LengthRead(n: nat)
    requires n < WORD
    ensures FromBytes(ToBytes(n, 4)) == n
  {
    WordIsPow256();
    BytesRoundTrip(n, 4);
  }

  // ----- number output -----

  /** Signed division by ten and the digit test of the loop: x + 9 compared, unsigned, with 19. */
  predicate MoreDigits(x: int) {
    Int32(x + 9).bits >= 19
  }

  /** The loop goes on exactly when the number has more than one digit, whatever its sign. */
  lemma MoreDigitsExact(x: int)
    requires -0x8000_0000 <= x < 0x8000_0000
    ensures MoreDigits(x) <==> x < -9 || 9 < x
  {
  }

  function Abs(n: int): nat {
    if n < 0 then -n else n
  }

  /** Signed division by ten, which truncates toward zero. */
  function Quotient(n: int): int {
    if n < 0 then -(-n / 10) else n / 10
  }

  /** The characters of a digit string; for a negative number the digit d comes out as 48 - d. */
  function Chars(negative: bool, s: string): (bs: seq<Byte>)
    requires forall k :: 0 <= k < |s| ==> IsDigit(s[k])
    ensures |bs| == |s|
    ensures forall k :: 0 <= k < |s| ==> bs[k] == if negative then 96 - s[k] as int else s[k] as int
  {
    if s == [] then [] else
      assert IsDigit(s[0]);
      [if negative then 96 - s[0] as int else s[0] as int] + Chars(negative, s[1..])
  }

  /** What is written for n, the most significant digit first. */
  function Written(n: int): (bs: seq<Byte>)
    ensures |bs| == |Decimal(Abs(n))|
  {
    Chars(n < 0, Decimal(Abs(n)))
  }

  /** A positive number is written as its decimal digits; a negative one with 48 - d for each digit d. */
  lemma WrittenDigits(n: int)
    ensures var s := Decimal(Abs(n));
      |Written(n)| == |s| && forall k :: 0 <= k < |s| ==> Written(n)[k] == if n < 0 then 96 - s[k] as int else s[k] as int
  {
  }

  function Reversed(s: seq<Byte>): (r: seq<Byte>)
    ensures |r| == |s|
  {
    if s == [] then [] else Reversed(s[1..]) + [s[0]]
  }

  lemma {:induction false} ReversedSnoc(s: seq<Byte>, x: Byte)
    ensures Reversed(s + [x]) == [x] + Reversed(s)
  {
    if s == [] {
      assert Reversed([x]) == Reversed([]) + [x];
      assert [] + [x] == [x];
    } else {
      ReversedSnoc(s[1..], x);
      assert (s + [x])[1..] == s[1..] + [x];
    }
  }

  lemma ReversedNothing()
    ensures Reversed([]) == []
  {
  }

  lemma ReversedLast(s: seq<Byte>, i: nat)
    requires 0 < i <= |s|
    ensures Reversed(s[..i]) == [s[i-1]] + Reversed(s[..i-1])
  {
    assert s[..i] == s[..i-1] + [s[i-1]];
    ReversedSnoc(s[..i-1], s[i-1]);
  }

  /** A store behind lo..at extends that range and leaves what lies before lo, from hi on, and at t alone. */
  lemma StoreInSlice(m: seq<Byte>, lo: nat, at: nat, b: Byte, t: nat, n: nat, hi: nat)
    requires lo <= at < hi <= |m| && t + n <= |m| && (at < t || t + n <= at)
    ensures var m2 := m[at := b];
      && m2[lo..at + 1] == m[lo..at] + [b] && m2[t..t + n] == m[t..t + n]
      && m2[..lo] == m[..lo] && m2[hi..] == m[hi..]
  {
  }

  /** One more character b of the temporary buffer, the one in front of those copied. */
  lemma CopyStep(m: seq<Byte>, m2: seq<Byte>, dest0: nat, dest: nat, temp: seq<Byte>, i: nat)
    requires 0 < i <= |temp| && dest0 <= dest < |m| && m2 == m[dest := temp[i - 1]]
    requires Reversed(temp) == m[dest0..dest] + Reversed(temp[..i])
    ensures Reversed(temp) == m2[dest0..dest + 1] + Reversed(temp[..i - 1])
  {
    hide Reversed;
    var b := temp[i - 1];
    ReversedLast(temp, i);
    assert m2[dest0..dest + 1] == m[dest0..dest] + [b];
    OneMore(m[dest0..dest], b, Reversed(temp[..i - 1]));
  }

  lemma SliceAt(m: seq<Byte>, p: nat, n: nat, k: nat)
    requires p + n <= |m| && k < n
    ensures m[p..p + n][k] == m[p + k]
  {
  }

  lemma OneMore(a: seq<Byte>, b: Byte, c: seq<Byte>)
    ensures a + ([b] + c) == a + [b] + c
  {
  }

  lemma WrittenStep(n: int)
    ensures -10 < n < 10 ==> Written(n) == [48 + n]
    ensures n <= -10 || n >= 10 ==> Written(n) == Written(Quotient(n)) + [48 + n - 10 * Quotient(n)]
  {
    var a := Abs(n);
    if a >= 10 {
      assert Decimal(a) == Decimal(a / 10) + [Digit(a % 10)] && Abs(Quotient(n)) == a / 10;
    }
  }

  /** One digit moved from the front number to the reversed buffer. */
  lemma DigitStep(n: int, done: seq<Byte>, whole: seq<Byte>)
    requires Written(n) + Reversed(done) == whole
    ensures var d := 48 + n - 10 * Quotient(n);
      && 39 <= d <= 57
      && (-10 < n < 10 ==> Reversed(done + [d]) == whole)
      && (n <= -10 || n >= 10 ==> Written(Quotient(n)) + Reversed(done + [d]) == whole)
  {
    hide Written, Reversed, Decimal;
    var d: Byte := 48 + n - 10 * Quotient(n);
    WrittenStep(n);
    ReversedSnoc(done, d);
    if n <= -10 || n >= 10 {
      assert Written(Quotient(n)) + ([d] + Reversed(done)) == Written(Quotient(n)) + [d] + Reversed(done);
    }
  }

  const TEMP := 12806

  class Printer {
    var mem: seq<Byte>

    constructor (m: seq<Byte>)
      ensures mem == m
    {
      mem := m;
    }

    method Store8(a: nat, b: Byte)
      requires a < |mem|
      modifies this
      ensures mem == old(mem)[a := b]
    {
      mem := mem[a := b];
    }

    /** First loop: the digits, least significant first, into the temporary buffer. */
    method Digits(n0: int) returns (count: nat)
      requires -0x8000_0000 <= n0 < 0x8000_0000 && n0 != 0 && TEMP + 10 <= |mem|
      modifies this
      ensures count == |Decimal(Abs(n0))| <= 10 && |mem| == |old(mem)|
      ensures Reversed(mem[TEMP..TEMP + count]) == Written(n0)
      ensures mem[..TEMP] == old(mem)[..TEMP] && mem[TEMP + 10..] == old(mem)[TEMP + 10..]
    {
      hide Reversed, Written;
      var n := n0;
      count := 0;
      DigitBound(n0);
      ReversedNothing();
      assert mem[TEMP..TEMP] == [] && Written(n) + [] == Written(n);
      while true
        invariant -0x8000_0000 <= n < 0x8000_0000 && n != 0 && |mem| == |old(mem)|
        invariant count + |Decimal(Abs(n))| == |Decimal(Abs(n0))| <= 10
        invariant Written(n) + Reversed(mem[TEMP..TEMP + count]) == Written(n0)
        invariant mem[..TEMP] == old(mem)[..TEMP] && mem[TEMP + 10..] == old(mem)[TEMP + 10..]
        decreases Abs(n)
      {
        var q := Quotient(n);
        ghost var done := mem[TEMP..TEMP + count];
        DigitStep(n, done, Written(n0));
        var digit := n - q * 10 + 48;
        Store8(TEMP + count, digit);
        assert mem[TEMP..TEMP + count + 1] == done + [digit];
        MoreDigitsExact(n);
        count := count + 1;
        var more := MoreDigits(n);
        n := q;
        if !more {
          break;
        }
      }
    }

    /** Second loop: copies the digits in reverse order to the destination. */
    method CopyBack(dest0: nat, count: nat)
      requires 0 < count <= 10 && dest0 + count <= |mem| && TEMP + 10 <= |mem|
      requires dest0 + count <= TEMP || TEMP + count <= dest0
      modifies this
      ensures |mem| == |old(mem)| && mem[dest0..dest0 + count] == Reversed(old(mem)[TEMP..TEMP + count])
      ensures mem[..dest0] == old(mem)[..dest0] && mem[dest0 + count..] == old(mem)[dest0 + count..]
    {
      hide Reversed;
      var i, dest := count, dest0;
      ghost var temp := mem[TEMP..TEMP + count];
      assert temp[..count] == temp && mem[dest0..dest0] == [] && [] + Reversed(temp) == Reversed(temp);
      while true
        invariant 0 < i <= count && dest == dest0 + (count - i) && |mem| == |old(mem)|
        invariant mem[TEMP..TEMP + count] == temp
        invariant Reversed(temp) == mem[dest0..dest] + Reversed(temp[..i])
        invariant mem[..dest0] == old(mem)[..dest0] && mem[dest0 + count..] == old(mem)[dest0 + count..]
        decreases i
      {
        var j := i - 1;
        SliceAt(mem, TEMP, count, j);
        ghost var before := mem;
        Store8(dest, mem[TEMP + j]);
        StoreInSlice(before, dest0, dest, temp[j], TEMP, count, dest0 + count);
        CopyStep(before, mem, dest0, dest, temp, i);
        dest := dest + 1;
        var more := i > 1;
        i := j;
        if !more {
          break;
        }
      }
      assert temp[..0] == [] && Reversed([]) == [] by { ReversedNothing(); }
    }

    /**
     * itoa: a positive number is written as its decimal digits; for a negative one each digit d comes out
     * as the character 48 - d, without a sign; for zero nothing is written. Nothing else changes but the
     * temporary buffer.
     */
    method Itoa(n: int, dest: nat)
      requires -0x8000_0000 <= n < 0x8000_0000 && TEMP + 10 <= |mem|
      requires n != 0 ==>
                 var len := |Decimal(Abs(n))|;
                 dest + len <= |mem| && (dest + len <= TEMP || TEMP + len <= dest)
      modifies this
      ensures |Decimal(Abs(n))| <= 10 && |mem| == |old(mem)|
      ensures n != 0 ==> dest + |Decimal(Abs(n))| <= |mem| && mem[dest..dest + |Decimal(Abs(n))|] == Written(n)
      ensures n == 0 ==> mem == old(mem)
      ensures forall a :: 0 <= a < |mem| && !(TEMP <= a < TEMP + 10) && !(dest <= a < dest + |Decimal(Abs(n))|) ==>
                mem[a] == old(mem)[a]
    {
      DigitBound(n);
      if n != 0 {
        var count := Digits(n);
        ghost var between := mem;
        CopyBack(dest, count);
        OutsideKept(old(mem), between, TEMP, 10);
        OutsideKept(between, mem, dest, count);
      }
    }
  }

  lemma OutsideKept(m: seq<Byte>, m2: seq<Byte>, p: nat, n: nat)
    requires |m2| == |m| && p + n <= |m| && m2[..p] == m[..p] && m2[p + n..] == m[p + n..]
    ensures forall a :: 0 <= a < |m| && !(p <= a < p + n) ==> m2[a] == m[a]
  {
    forall a | 0 <= a < |m| && !(p <= a < p + n) ensures m2[a] == m[a] {
      if a < p {
        assert m2[..p][a] == m[..p][a];
      } else {
        assert m2[p + n..][a - p - n] == m[p + n..][a - p - n];
      }
    }
  }

  lemma DigitBound(n: int)
    requires -0x8000_0000 <= n < 0x8000_0000
    ensures |Decimal(Abs(n))| <= 10
  {
    DecimalWidth(Abs(n), 0x8000_0000);
    assert Decimal(2) == ['2'];
    assert |Decimal(21)| == 2 && |Decimal(214)| == 3 && |Decimal(2147)| == 4 && |Decimal(21474)| == 5;
    assert |Decimal(214748)| == 6 && |Decimal(2147483)| == 7 && |Decimal(21474836)| == 8 && |Decimal(214748364)| == 9;
    assert |Decimal(0x8000_0000)| == 10;
  }
}
