/** Bus-master descriptor lists of the ATI drivers: how a request is compiled into page
    descriptors, and what the engine does when it walks a list. */
module DmaList {
  import opened Arith

  const PAGE: nat := 4096
  const EOL: nat := 0x8000_0000

  datatype Option<T> = None | Some(value: T)

  /** `command` is a byte count below 2^31 with the end-of-list mark in bit 31. */
  datatype Descriptor = Descriptor(fbOffset: nat, sysAddr: nat, command: nat, reserved: nat)

  /** One transfer: video memory position, size in bytes, bus address of each source page. */
  datatype Job = Job(base: nat, size: nat, pages: seq<nat>)

  function PagesNeeded(size: nat): nat {
    size / PAGE + if size % PAGE != 0 then 1 else 0
  }

  /** What is left of the request when entry `i` is written. */
  function Left(size: nat, i: nat): int {
    size - PAGE * i
  }

  function Command(size: nat, i: nat): nat
    requires PAGE * i <= size
  {
    if Left(size, i) > PAGE then PAGE else Left(size, i) + EOL
  }

  predicate Translated(job: Job) {
    |job.pages| >= PagesNeeded(job.size) && job.base < TWO32 && job.size < TWO32
  }

  /** The video memory position is a 32-bit field. */
  function Entry(job: Job, i: nat): Descriptor
    requires Translated(job) && i < PagesNeeded(job.size)
  {
    Descriptor((job.base + PAGE * i) % TWO32, job.pages[i], Command(job.size, i), 0)
  }

  /** The list a request is compiled into. */
  function Build(job: Job): (list: seq<Descriptor>)
    requires Translated(job)
    ensures |list| == PagesNeeded(job.size)
  {
    seq(PagesNeeded(job.size), i requires 0 <= i < PagesNeeded(job.size) => Entry(job, i))
  }

  // ----- The engine

  function ByteCount(d: Descriptor): nat {
    d.command % EOL
  }

  predicate IsLast(d: Descriptor) {
    d.command / EOL % 2 == 1
  }

  ghost function CopyIn(vram: seq<Byte>, at: nat, mem: nat -> Byte, addr: nat, n: nat): (v: seq<Byte>)
    requires at + n <= |vram|
    ensures |v| == |vram|
  {
    seq(|vram|, k requires 0 <= k < |vram| => if at <= k < at + n then mem(addr + (k - at)) else vram[k])
  }

  /** Walks the table from entry `i`; no result when it writes outside video memory or runs
      off the table before an end mark. */
  ghost function Execute(table: seq<Descriptor>, i: nat, mem: nat -> Byte, vram: seq<Byte>): Option<seq<Byte>>
    decreases |table| - i
  {
    if i >= |table| || table[i].fbOffset + ByteCount(table[i]) > |vram| then None
    else
      var next := CopyIn(vram, table[i].fbOffset, mem, table[i].sysAddr, ByteCount(table[i]));
      if IsLast(table[i]) then Some(next) else Execute(table, i + 1, mem, next)
  }

  /** The pages hold the source bytes. */
  ghost predicate Holds(job: Job, mem: nat -> Byte, src: seq<Byte>) {
    && |src| == job.size && |job.pages| >= PagesNeeded(job.size)
    && forall k: nat | k < |src| :: mem(SourceAddress(job, k)) == src[k]
  }

  function SourceAddress(job: Job, k: nat): nat
    requires |job.pages| >= PagesNeeded(job.size) && k < job.size
  {
    PageOf(job.size, k);
    job.pages[k / PAGE] + k % PAGE
  }

  lemma PageOf(size: nat, k: nat)
    requires k < size
    ensures k / PAGE < PagesNeeded(size)
  {}

  /** Entry by entry: every entry but the last is a full page without end mark, the last one
      ends the list and has the rest, also when the size is a multiple of the page size. */
  lemma EntryShape(job: Job, i: nat)
    requires Translated(job) && i < PagesNeeded(job.size)
    ensures var d := Entry(job, i);
            && (IsLast(d) <==> i == PagesNeeded(job.size) - 1)
            && 0 < ByteCount(d) <= PAGE
            && ByteCount(d) == (if IsLast(d) then job.size - PAGE * i else PAGE)
            && (!IsLast(d) ==> PAGE * (i + 1) < job.size)
            && (job.base + PAGE * i < TWO32 ==> d.fbOffset == job.base + PAGE * i)
  {
    var n := Left(job.size, i);
    assert n > 0;
    if n > PAGE {
      assert i + 1 < PagesNeeded(job.size);
    } else {
      assert i + 1 == PagesNeeded(job.size);
    }
  }

  ghost function TotalCount(list: seq<Descriptor>): nat {
    if list == [] then 0 else TotalCount(list[..|list| - 1]) + ByteCount(list[|list| - 1])
  }

  /** The byte counts of the list add up to the size of the request. */
  lemma CountsAddUp(job: Job)
    requires Translated(job)
    ensures TotalCount(Build(job)) == job.size
  {
    var n := PagesNeeded(job.size);
    if n > 0 {
      FullPages(job, n - 1);
      EntryShape(job, n - 1);
      assert Build(job)[..n] == Build(job);
    }
  }

  lemma {:induction false} FullPages(job: Job, n: nat)
    requires Translated(job) && n < PagesNeeded(job.size)
    ensures TotalCount(Build(job)[..n]) == PAGE * n
  {
    if n > 0 {
      var front := Build(job)[..n];
      assert front[..n - 1] == Build(job)[..n - 1] && front[n - 1] == Entry(job, n - 1);
      FullPages(job, n - 1);
      EntryShape(job, n - 1);
    }
  }

  ghost function Copied(vram: seq<Byte>, base: nat, src: seq<Byte>, n: nat): (v: seq<Byte>)
    requires n <= |src| && base + n <= |vram|
    ensures |v| == |vram|
  {
    vram[..base] + src[..n] + vram[base + n..]
  }

  /** Executing the compiled list is one copy of the source into video memory: it stays
      inside video memory and stops at its own end mark, whatever follows in the table. */
  lemma ExecuteBuild(job: Job, table: seq<Descriptor>, mem: nat -> Byte, src: seq<Byte>, vram: seq<Byte>)
    requires Translated(job) && job.size > 0 && Build(job) <= table && Holds(job, mem, src)
    requires job.base + job.size <= |vram| < TWO32
    ensures Execute(table, 0, mem, vram) == Some(Copied(vram, job.base, src, |src|))
  {
    assert Copied(vram, job.base, src, 0) == vram;
    ExecuteFrom(job, table, mem, src, vram, 0);
  }

  lemma {:induction false} ExecuteFrom(job: Job, table: seq<Descriptor>, mem: nat -> Byte, src: seq<Byte>,
      vram: seq<Byte>, i: nat)
    requires Translated(job) && job.size > 0 && Build(job) <= table && Holds(job, mem, src)
    requires job.base + job.size <= |vram| < TWO32 && i < PagesNeeded(job.size) && PAGE * i <= |src|
    ensures Execute(table, i, mem, Copied(vram, job.base, src, PAGE * i)) == Some(Copied(vram, job.base, src, |src|))
    decreases PagesNeeded(job.size) - i
  {
    hide PagesNeeded, IsLast, ByteCount;
    var d := table[i];
    assert d == Entry(job, i);
    EntryShape(job, i);
    var done := PAGE * i + ByteCount(d);
    OnePage(job, mem, src, vram, i, ByteCount(d));
    if !IsLast(d) {
      ExecuteFrom(job, table, mem, src, vram, i + 1);
    }
  }

  /** Executing the list stays inside video memory exactly when the whole target does. */
  lemma ExecuteInsideIff(job: Job, table: seq<Descriptor>, mem: nat -> Byte, src: seq<Byte>, vram: seq<Byte>)
    requires Translated(job) && job.size > 0 && Build(job) <= table && Holds(job, mem, src) && |vram| < TWO32
    ensures Execute(table, 0, mem, vram) != None <==> job.base + job.size <= |vram|
  {
    if job.base + job.size <= |vram| {
      ExecuteBuild(job, table, mem, src, vram);
    } else {
      ExecuteOutside(job, table, mem, vram, 0);
    }
  }

  lemma {:induction false} ExecuteOutside(job: Job, table: seq<Descriptor>, mem: nat -> Byte, vram: seq<Byte>, i: nat)
    requires Translated(job) && Build(job) <= table && i < PagesNeeded(job.size)
    requires job.base + job.size > |vram| && job.base + PAGE * i < TWO32 && |vram| < TWO32
    ensures Execute(table, i, mem, vram) == None
    decreases PagesNeeded(job.size) - i
  {
    hide PagesNeeded, IsLast, ByteCount;
    var d := table[i];
    assert d == Entry(job, i);
    EntryShape(job, i);
    if d.fbOffset + ByteCount(d) <= |vram| && !IsLast(d) {
      ExecuteOutside(job, table, mem, CopyIn(vram, d.fbOffset, mem, d.sysAddr, ByteCount(d)), i + 1);
    }
  }

  lemma OnePage(job: Job, mem: nat -> Byte, src: seq<Byte>, vram: seq<Byte>, i: nat, n: nat)
    requires Holds(job, mem, src) && job.base + job.size <= |vram|
    requires i < PagesNeeded(job.size) && n <= PAGE && PAGE * i + n <= |src|
    ensures CopyIn(Copied(vram, job.base, src, PAGE * i), job.base + PAGE * i, mem, job.pages[i], n)
         == Copied(vram, job.base, src, PAGE * i + n)
  {
    hide PagesNeeded;
    var before := Copied(vram, job.base, src, PAGE * i);
    var after := Copied(vram, job.base, src, PAGE * i + n);
    var at := job.base + PAGE * i;
    var written := CopyIn(before, at, mem, job.pages[i], n);
    forall k: nat | k < |vram| ensures written[k] == after[k] {
      if at <= k < at + n {
        var s := k - job.base;
        assert s / PAGE == i && s % PAGE == k - at;
        assert mem(SourceAddress(job, s)) == src[s];
      }
    }
  }

  /** A table cannot start with two different compiled lists: only one end mark comes first. */
  lemma OneListPerTable(a: Job, b: Job, table: seq<Descriptor>)
    requires Translated(a) && Translated(b) && a.size > 0 && b.size > 0
    requires Build(a) <= table && Build(b) <= table
    ensures Build(a) == Build(b)
  {
    hide PagesNeeded, Entry, IsLast;
    NotShorter(a, b, table);
    NotShorter(b, a, table);
  }

  lemma NotShorter(a: Job, b: Job, table: seq<Descriptor>)
    requires Translated(a) && Translated(b) && a.size > 0
    requires Build(a) <= table && Build(b) <= table
    ensures PagesNeeded(b.size) <= PagesNeeded(a.size)
  {
    hide Entry, IsLast;
    var last := PagesNeeded(a.size) - 1;
    EntryShape(a, last);
    assert table[last] == Build(a)[last];
    if last + 1 < PagesNeeded(b.size) {
      EntryShape(b, last);
    }
  }

  /** Two requests for the same bytes at the same place: position, size and the address of
      every page that is read. */
  predicate SameTransfer(a: Job, b: Job)
    requires Translated(a) && Translated(b)
  {
    && a.base == b.base && a.size == b.size
    && a.pages[..PagesNeeded(a.size)] == b.pages[..PagesNeeded(b.size)]
  }

  /** Different requests compile to different lists. */
  lemma BuildInjective(a: Job, b: Job)
    requires Translated(a) && Translated(b) && a.size > 0 && b.size > 0
    ensures Build(a) == Build(b) <==> SameTransfer(a, b)
  {
    hide Entry, PagesNeeded;
    var n := PagesNeeded(a.size);
    if Build(a) == Build(b) {
      CountsAddUp(a);
      CountsAddUp(b);
      HasPage(a.size);
      forall i | 0 <= i < n ensures a.pages[i] == b.pages[i] && a.base == b.base {
        assert Build(a)[i] == Entry(a, i) && Build(b)[i] == Entry(b, i);
        assert Build(a)[0] == Entry(a, 0) && Build(b)[0] == Entry(b, 0);
        EntryInjective(a, b, i);
        EntryInjective(a, b, 0);
      }
      assert a.pages[0] == b.pages[0] && a.base == b.base;
    }
    if SameTransfer(a, b) {
      forall i | 0 <= i < n ensures Build(a)[i] == Build(b)[i] {
        assert a.pages[i] == a.pages[..n][i] == b.pages[..n][i] == b.pages[i];
        EntryInjective(a, b, i);
      }
    }
  }

  lemma HasPage(size: nat)
    requires size > 0
    ensures PagesNeeded(size) > 0
  {}

  lemma EntryInjective(a: Job, b: Job, i: nat)
    requires Translated(a) && Translated(b) && i < PagesNeeded(a.size) && i < PagesNeeded(b.size)
    ensures Entry(a, i) == Entry(b, i) ==> a.pages[i] == b.pages[i] && (i == 0 ==> a.base == b.base)
    ensures a.base == b.base && a.size == b.size && a.pages[i] == b.pages[i] ==> Entry(a, i) == Entry(b, i)
  {
    hide PagesNeeded, Command;
  }

  /** A table of one video memory's worth of descriptors is large enough exactly for the
      requests that are not larger than video memory. */
  lemma TableSuffices(size: nat, ram: nat)
    requires ram % PAGE == 0
    ensures PagesNeeded(size) <= ram * 16 / PAGE / 16 <==> size <= ram
  {}
}
