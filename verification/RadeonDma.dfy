/** The radeon driver keeps its one descriptor table in video memory, behind the frames. */
module RadeonDma {
  import opened Arith
  import opened FramePlacement
  import opened DmaList
  import opened Mach64Dma

  /** The bytes set aside for descriptors: 16 for every page of video memory. */
  function ReserveBytes(ram: nat): nat {
    ram * 16 / PAGE
  }

  /** Video memory left for frames. */
  function VideoSize(ram: nat, dma: bool): (size: nat)
    ensures size <= ram
  {
    if dma then ram - ReserveBytes(ram) else ram
  }

  /** The reserve ends where video memory ends, has one descriptor per page, and so holds the
      lists of exactly those requests that are not larger than video memory. */
  lemma ReserveHolds(ram: nat, size: nat)
    requires ram % PAGE == 0
    ensures ReserveBytes(ram) == 16 * (ram / PAGE)
    ensures 16 * PagesNeeded(size) <= ReserveBytes(ram) <==> size <= ram
  {
    Quotient(ram * 16, PAGE, 16 * (ram / PAGE), 0);
  }

  // ----- An engine that reads its descriptors from video memory

  // The walk starts where the list stands.  The driver itself never computes that address.

  /** A 32-bit word, least significant byte first. */
  function Word(vram: seq<Byte>, at: nat): nat
    requires at + 4 <= |vram|
  {
    vram[at] as nat + 0x100 * vram[at + 1] as nat + 0x1_0000 * vram[at + 2] as nat + 0x100_0000 * vram[at + 3] as nat
  }

  function DescriptorAt(vram: seq<Byte>, at: nat): Descriptor
    requires at + 16 <= |vram|
  {
    Descriptor(Word(vram, at), Word(vram, at + 4), Word(vram, at + 8), Word(vram, at + 12))
  }

  /** The list stands in video memory from `at` on. */
  ghost predicate TableIn(vram: seq<Byte>, at: nat, list: seq<Descriptor>) {
    && at + 16 * |list| <= |vram|
    && forall i | 0 <= i < |list| :: DescriptorAt(vram, at + 16 * i) == list[i]
  }

  /** The walk of DmaList.Execute with every descriptor fetched when its turn comes, after what
      the entries before it have written. */
  ghost function Walk(vram: seq<Byte>, at: nat, i: nat, mem: nat -> Byte): (r: Option<seq<Byte>>)
    ensures r.Some? ==> |r.value| == |vram|
    decreases |vram| - at - 16 * i
  {
    if at + 16 * i + 16 > |vram| then None
    else
      var d := DescriptorAt(vram, at + 16 * i);
      if d.fbOffset + ByteCount(d) > |vram| then None
      else
        var next := CopyIn(vram, d.fbOffset, mem, d.sysAddr, ByteCount(d));
        if IsLast(d) then Some(next) else Walk(next, at, i + 1, mem)
  }

  /** Writing beside the list does not change it. */
  lemma TableUntouched(vram: seq<Byte>, next: seq<Byte>, at: nat, list: seq<Descriptor>)
    requires TableIn(vram, at, list) && |next| == |vram|
    requires forall k: nat | at <= k < at + 16 * |list| :: next[k] == vram[k]
    ensures TableIn(next, at, list)
  {
    forall i | 0 <= i < |list| ensures DescriptorAt(next, at + 16 * i) == list[i] {
      assert DescriptorAt(next, at + 16 * i) == DescriptorAt(vram, at + 16 * i);
    }
  }

  /** Words with the same value have the same bytes. */
  lemma WordInjective(a: seq<Byte>, b: seq<Byte>, at: nat)
    requires at + 4 <= |a| == |b| && Word(a, at) == Word(b, at)
    ensures forall k | at <= k < at + 4 :: a[k] == b[k]
  {
    var x2, y2 := a[at + 2] as nat + 0x100 * a[at + 3] as nat, b[at + 2] as nat + 0x100 * b[at + 3] as nat;
    var x1, y1 := a[at + 1] as nat + 0x100 * x2, b[at + 1] as nat + 0x100 * y2;
    LowByte(a[at], b[at], x1, y1);
    LowByte(a[at + 1], b[at + 1], x2, y2);
    LowByte(a[at + 2], b[at + 2], a[at + 3] as nat, b[at + 3] as nat);
  }

  lemma LowByte(a: Byte, b: Byte, x: nat, y: nat)
    requires a as nat + 0x100 * x == b as nat + 0x100 * y
    ensures a == b && x == y
  {}

  /** Changing any byte of the list changes a descriptor. */
  lemma TableBroken(vram: seq<Byte>, next: seq<Byte>, at: nat, list: seq<Descriptor>, p: nat)
    requires TableIn(vram, at, list) && |next| == |vram|
    requires at <= p < at + 16 * |list| && next[p] != vram[p]
    ensures !TableIn(next, at, list)
  {
    hide Word;
    if TableIn(next, at, list) {
      var i := (p - at) / 16;
      assert DescriptorAt(next, at + 16 * i) == list[i] == DescriptorAt(vram, at + 16 * i);
      WordInjective(vram, next, at + 16 * i + (p - at) % 16 / 4 * 4);
    }
  }

  /** The transfer lies below the list, or above it and inside memory. */
  predicate Beside(job: Job, at: nat, length: nat) {
    || job.base + job.size <= at
    || (at + 16 * PagesNeeded(job.size) <= job.base && job.base + job.size <= length)
  }

  /** As long as a compiled list writes beside itself, the walk is that of a table apart. */
  lemma {:induction false} WalkIsExecute(job: Job, vram: seq<Byte>, at: nat, i: nat, mem: nat -> Byte)
    requires Translated(job) && i < PagesNeeded(job.size) && |vram| < TWO32 && job.base + PAGE * i < TWO32
    requires job.base + job.size <= at || at + 16 * PagesNeeded(job.size) <= job.base
    requires TableIn(vram, at, Build(job))
    ensures Walk(vram, at, i, mem) == Execute(Build(job), i, mem, vram)
    decreases PagesNeeded(job.size) - i
  {
    hide PagesNeeded, IsLast, ByteCount, DescriptorAt;
    var d := Entry(job, i);
    EntryShape(job, i);
    assert DescriptorAt(vram, at + 16 * i) == Build(job)[i] == d;
    if d.fbOffset + ByteCount(d) <= |vram| && !IsLast(d) {
      var next := CopyIn(vram, d.fbOffset, mem, d.sysAddr, ByteCount(d));
      TableUntouched(vram, next, at, Build(job));
      WalkIsExecute(job, next, at, i + 1, mem);
    }
  }

  /** A transfer beside its list is one copy of its source and leaves the list as it is. */
  lemma WalkDelivers(job: Job, at: nat, mem: nat -> Byte, src: seq<Byte>, vram: seq<Byte>)
    requires Translated(job) && job.size > 0 && |vram| < TWO32 && Beside(job, at, |vram|)
    requires TableIn(vram, at, Build(job)) && DmaList.Holds(job, mem, src)
    ensures job.base + |src| <= |vram|
    ensures Walk(vram, at, 0, mem) == Some(Copied(vram, job.base, src, |src|))
    ensures TableIn(Copied(vram, job.base, src, |src|), at, Build(job))
  {
    hide Execute, Walk, PagesNeeded, TableIn, Build;
    HasPage(job.size);
    InsideMemory(job, at, vram);
    WalkIsExecute(job, vram, at, 0, mem);
    ExecuteBuild(job, Build(job), mem, src, vram);
    CopyKeepsList(job, at, src, vram);
  }

  lemma InsideMemory(job: Job, at: nat, vram: seq<Byte>)
    requires Translated(job) && Beside(job, at, |vram|) && TableIn(vram, at, Build(job))
    ensures job.base + job.size <= |vram|
  {
    hide PagesNeeded, Build;
  }

  lemma CopyKeepsList(job: Job, at: nat, src: seq<Byte>, vram: seq<Byte>)
    requires Translated(job) && Beside(job, at, |vram|) && TableIn(vram, at, Build(job))
    requires |src| == job.size && job.base + job.size <= |vram|
    ensures TableIn(Copied(vram, job.base, src, |src|), at, Build(job))
  {
    TableUntouched(vram, Copied(vram, job.base, src, |src|), at, Build(job));
    hide *;
  }

  lemma CopiedOnlyInside(vram: seq<Byte>, base: nat, src: seq<Byte>, low: nat, high: nat)
    requires low <= base && base + |src| <= high <= |vram|
    ensures Copied(vram, base, src, |src|)[..low] == vram[..low]
    ensures Copied(vram, base, src, |src|)[high..] == vram[high..]
  {}

  /** A transfer that stays inside the placed frames is one copy of its source and leaves the
      whole reserve, and everything else outside the frames, as it is. */
  lemma TransferIntoFrames(ram: nat, frameSize: nat, n: nat, overlay: nat, destOffset: nat, job: Job,
                           mem: nat -> Byte, src: seq<Byte>, vram: seq<Byte>)
    requires ram % PAGE == 0 && |vram| == ram < TWO32 && n > 0
    requires Placed(VideoSize(ram, true), frameSize, n, overlay)
    requires job.base == overlay + destOffset && destOffset + job.size <= frameSize * n && job.size > 0
    requires Translated(job) && TableIn(vram, VideoSize(ram, true), Build(job)) && DmaList.Holds(job, mem, src)
    ensures job.base + |src| <= VideoSize(ram, true)
    ensures var after := Walk(vram, VideoSize(ram, true), 0, mem);
            && after == Some(Copied(vram, job.base, src, |src|))
            && after.value[VideoSize(ram, true)..] == vram[VideoSize(ram, true)..]
            && after.value[..overlay] == vram[..overlay]
  {
    hide Build, Translated, Walk, TableIn, PagesNeeded;
    PlacedIff(VideoSize(ram, true), frameSize, n, overlay);
    WalkDelivers(job, VideoSize(ram, true), mem, src, vram);
    CopiedOnlyInside(vram, job.base, src, overlay, VideoSize(ram, true));
  }

  // ----- Transfers that reach their own list

  /** A byte that has the value of all source bytes never gets another one. */
  lemma {:induction false} ConstantSource(vram: seq<Byte>, at: nat, i: nat, mem: nat -> Byte, p: nat)
    requires p < |vram| && forall a: nat :: mem(a) == vram[p]
    ensures var after := Walk(vram, at, i, mem); after.Some? ==> after.value[p] == vram[p]
    decreases |vram| - at - 16 * i
  {
    hide ByteCount, IsLast, DescriptorAt;
    if at + 16 * i + 16 <= |vram| {
      var d := DescriptorAt(vram, at + 16 * i);
      if d.fbOffset + ByteCount(d) <= |vram| {
        ConstantSource(CopyIn(vram, d.fbOffset, mem, d.sysAddr, ByteCount(d)), at, i + 1, mem, p);
      }
    }
  }

  /** A transfer that reaches beyond the start of the list overwrites byte `p` there: the entry
      that covers it is fetched before the list has changed. */
  lemma {:induction false} Overwritten(job: Job, vram: seq<Byte>, at: nat, i: nat, mem: nat -> Byte, c: Byte, p: nat)
    requires Translated(job) && i < PagesNeeded(job.size) && TableIn(vram, at, Build(job))
    requires (forall a: nat :: mem(a) == c) && p < |vram| < TWO32
    requires job.base + PAGE * i <= p < job.base + job.size && (p == at || (i == 0 && p == job.base))
    ensures var after := Walk(vram, at, i, mem); after.Some? ==> after.value[p] == c
    decreases PagesNeeded(job.size) - i
  {
    hide PagesNeeded, IsLast, ByteCount, DescriptorAt;
    var d := Entry(job, i);
    EntryShape(job, i);
    assert DescriptorAt(vram, at + 16 * i) == Build(job)[i] == d;
    if d.fbOffset + ByteCount(d) <= |vram| {
      var next := CopyIn(vram, d.fbOffset, mem, d.sysAddr, ByteCount(d));
      if p < d.fbOffset + ByteCount(d) {
        assert next[p] == c;
        ConstantSource(next, at, i + 1, mem, p);
      } else if !IsLast(d) {
        TableUntouched(vram, next, at, Build(job));
        Overwritten(job, next, at, i + 1, mem, c, p);
      }
    }
  }

  /** The walk ends inside video memory and its descriptors are as they were. */
  ghost predicate KeepsList(job: Job, vram: seq<Byte>, at: nat, mem: nat -> Byte)
    requires Translated(job)
  {
    var after := Walk(vram, at, 0, mem);
    after.Some? && TableIn(after.value, at, Build(job))
  }

  /** Whatever its source holds, a request leaves its descriptors as they are exactly when it
      lies beside them. */
  lemma KeepsListIff(job: Job, vram: seq<Byte>, at: nat)
    requires Translated(job) && job.size > 0 && |vram| < TWO32 && TableIn(vram, at, Build(job))
    ensures (forall mem: nat -> Byte :: KeepsList(job, vram, at, mem)) <==> Beside(job, at, |vram|)
  {
    hide Walk, TableIn, Build, PagesNeeded, Translated;
    if Beside(job, at, |vram|) {
      forall mem: nat -> Byte ensures KeepsList(job, vram, at, mem) {
        WalkDelivers(job, at, mem, Source(job, mem), vram);
      }
    } else {
      var p := if job.base > at then job.base else at;
      var mem := BreakingSource(job, vram, at, p);
      assert !KeepsList(job, vram, at, mem);
    }
  }

  /** The source bytes, read from the pages. */
  ghost function Source(job: Job, mem: nat -> Byte): (src: seq<Byte>)
    requires Translated(job)
    ensures DmaList.Holds(job, mem, src)
  {
    seq(job.size, k requires 0 <= k < job.size => mem(SourceAddress(job, k)))
  }

  /** A source for which a transfer that is not beside its list fails or breaks it. */
  lemma BreakingSource(job: Job, vram: seq<Byte>, at: nat, p: nat) returns (mem: nat -> Byte)
    requires Translated(job) && job.size > 0 && |vram| < TWO32 && TableIn(vram, at, Build(job))
    requires !Beside(job, at, |vram|) && p == if job.base > at then job.base else at
    ensures !KeepsList(job, vram, at, mem)
  {
    hide Walk, PagesNeeded, Execute;
    var n := PagesNeeded(job.size);
    HasPage(job.size);
    var c: Byte := if p < |vram| && vram[p] == 0 then 1 else 0;
    mem := a => c;
    if p < at + 16 * n {
      Overwritten(job, vram, at, 0, mem, c, p);
      var after := Walk(vram, at, 0, mem);
      if after.Some? {
        TableBroken(vram, after.value, at, Build(job), p);
      }
    } else {
      WalkIsExecute(job, vram, at, 0, mem);
      ExecuteInsideIff(job, Build(job), mem, Source(job, mem), vram);
    }
  }

  /** An overlay at 4 MB of 8 MB, and a request of two pages that the size check accepts although
      they start where the list stands: writing the first page of zeros destroys the second
      descriptor before it is fetched. */
  lemma DescriptorsOverwritten(job: Job, vram: seq<Byte>, mem: nat -> Byte)
    requires job == Job(0x7f_8000, 2 * PAGE, [0, PAGE]) && |vram| == 0x80_0000
    requires TableIn(vram, 0x7f_8000, Build(job)) && forall a: nat :: mem(a) == 0
    ensures RadeonFits(0x80_0000, 0x3f_8000, job.size) && Target(0x40_0000, 0x3f_8000) == job.base
    ensures VideoSize(0x80_0000, true) == 0x7f_8000 && !Beside(job, 0x7f_8000, |vram|)
    ensures var next := CopyIn(vram, job.base, mem, 0, PAGE);
            && Walk(vram, 0x7f_8000, 0, mem) == Walk(next, 0x7f_8000, 1, mem)
            && DescriptorAt(next, 0x7f_8000 + 16) == Descriptor(0, 0, 0, 0) != Build(job)[1]
  {
    hide Entry, Walk, CopyIn, DescriptorAt, PagesNeeded, RadeonFits, Target, VideoSize, Build;
    AcceptedAtList(job);
    TwoPages(job);
    assert DescriptorAt(vram, 0x7f_8000 + 16 * 0) == Build(job)[0];
    hide TableIn;
    FirstStep(vram, 0x7f_8000, mem, Descriptor(0x7f_8000, 0, PAGE, 0));
    var next := CopyIn(vram, job.base, mem, 0, PAGE);
    CopiedZeros(vram, job.base, mem, PAGE);
    ZeroDescriptor(next, 0x7f_8000 + 16);
  }

  lemma AcceptedAtList(job: Job)
    requires job == Job(0x7f_8000, 2 * PAGE, [0, PAGE])
    ensures RadeonFits(0x80_0000, 0x3f_8000, job.size) && Target(0x40_0000, 0x3f_8000) == job.base
    ensures VideoSize(0x80_0000, true) == 0x7f_8000 && !Beside(job, 0x7f_8000, 0x80_0000)
  {
    assert PagesNeeded(job.size) == 2;
  }

  lemma TwoPages(job: Job)
    requires job == Job(0x7f_8000, 2 * PAGE, [0, PAGE])
    ensures Translated(job) && |Build(job)| == 2
    ensures Build(job)[0] == Descriptor(0x7f_8000, 0, PAGE, 0) && Build(job)[1].sysAddr == PAGE
  {
    assert PagesNeeded(job.size) == 2;
  }

  lemma FirstStep(vram: seq<Byte>, at: nat, mem: nat -> Byte, d: Descriptor)
    requires at + 16 <= |vram| && DescriptorAt(vram, at) == d && d.command == PAGE && d.fbOffset + PAGE <= |vram|
    ensures Walk(vram, at, 0, mem) == Walk(CopyIn(vram, d.fbOffset, mem, d.sysAddr, PAGE), at, 1, mem)
  {
    hide DescriptorAt, CopyIn;
    assert ByteCount(d) == PAGE && !IsLast(d);
  }

  lemma CopiedZeros(vram: seq<Byte>, at: nat, mem: nat -> Byte, n: nat)
    requires at + n <= |vram| && forall a: nat :: mem(a) == 0
    ensures forall k | at <= k < at + n :: CopyIn(vram, at, mem, 0, n)[k] == 0
  {}

  lemma ZeroDescriptor(vram: seq<Byte>, at: nat)
    requires at + 16 <= |vram| && forall k | at <= k < at + 16 :: vram[k] == 0
    ensures DescriptorAt(vram, at) == Descriptor(0, 0, 0, 0)
  {}

  // ----- The size check

  /** It leaves the overlay offset out, and adds up in 32 bits. */
  predicate RadeonFits(ram: nat, destOffset: nat, size: nat) {
    (destOffset + size) % TWO32 <= ram
  }

  /** A request that does not wrap around and passes is not larger than video memory, so that its
      list has room. */
  lemma AcceptedListFits(ram: nat, destOffset: nat, size: nat)
    requires ram % PAGE == 0 && RadeonFits(ram, destOffset, size) && destOffset + size < TWO32
    ensures size <= ram && 16 * PagesNeeded(size) <= ReserveBytes(ram)
  {
    ReserveHolds(ram, size);
  }

  /** But to stay inside video memory, passing suffices for all such requests only if the overlay
      starts at 0, where the frame search never places it. */
  lemma CheckSufficesIff(ram: nat, overlay: nat)
    requires 0 < ram < TWO31 && overlay < TWO31
    ensures (forall destOffset: nat, size: nat ::
               size > 0 && destOffset + size < TWO32 && RadeonFits(ram, destOffset, size)
               ==> Target(overlay, destOffset) + size <= ram)
       <==> overlay == 0
  {
    if overlay > 0 {
      assert RadeonFits(ram, 0, ram) && Target(overlay, 0) + ram > ram;
    }
  }

  /** What the walk makes of an accepted request that does not reach its own list: it ends inside
      video memory exactly when the transfer, placed relative to the overlay, does.  For requests
      that reach their list see KeepsListIff. */
  lemma RadeonAcceptedInsideIff(overlay: nat, destOffset: nat, size: nat, pages: seq<nat>, at: nat,
                                mem: nat -> Byte, vram: seq<Byte>)
    requires |vram| < TWO32 && size > 0
    requires var job := Job(Target(overlay, destOffset), size, pages);
             && Translated(job) && TableIn(vram, at, Build(job))
             && (job.base + size <= at || at + 16 * PagesNeeded(size) <= job.base)
    ensures Walk(vram, at, 0, mem) != None <==> Target(overlay, destOffset) + size <= |vram|
  {
    hide Execute, Build, Target, PagesNeeded, TableIn, Walk;
    var job := Job(Target(overlay, destOffset), size, pages);
    HasPage(size);
    WalkIsExecute(job, vram, at, 0, mem);
    ExecuteInsideIff(job, Build(job), mem, Source(job, mem), vram);
  }

  /** With an overlay at 4 MB of 8 MB, two pages behind the end of video memory pass. */
  lemma OverlayLeftOut()
    ensures RadeonFits(0x80_0000, 0x70_0000, 0x2000) && Target(0x40_0000, 0x70_0000) + 0x2000 > 0x80_0000
  {}

  /** A request of nearly 4 GB passes, for which the reserve has no room. */
  lemma RadeonCheckWraps()
    ensures RadeonFits(0x80_0000, 0x2000, 0xFFFF_F000)
    ensures 16 * PagesNeeded(0xFFFF_F000) > ReserveBytes(0x80_0000)
  {}

  // ----- The whole reserve

  /** The walk ends inside video memory and changes no byte of the reserve, used or not. */
  ghost predicate KeepsReserve(ram: nat, vram: seq<Byte>, mem: nat -> Byte)
    requires |vram| == ram
  {
    var after := Walk(vram, VideoSize(ram, true), 0, mem);
    after.Some? && after.value[VideoSize(ram, true)..] == vram[VideoSize(ram, true)..]
  }

  /** That is so, whatever the source holds, exactly for transfers that end below the reserve. */
  lemma KeepsReserveIff(ram: nat, job: Job, vram: seq<Byte>)
    requires ram % PAGE == 0 && |vram| == ram < TWO32 && Translated(job) && 0 < job.size <= ram
    requires TableIn(vram, VideoSize(ram, true), Build(job))
    ensures (forall mem: nat -> Byte :: KeepsReserve(ram, vram, mem)) <==> job.base + job.size <= VideoSize(ram, true)
  {
    var at := VideoSize(ram, true);
    hide Walk, TableIn, Build, PagesNeeded, Translated, VideoSize;
    if job.base + job.size <= at {
      forall mem: nat -> Byte ensures KeepsReserve(ram, vram, mem) {
        WalkDelivers(job, at, mem, Source(job, mem), vram);
        CopiedOnlyInside(vram, job.base, Source(job, mem), 0, at);
      }
    } else {
      var mem := ReserveChanged(ram, job, vram, at);
      assert !KeepsReserve(ram, vram, mem);
    }
  }

  lemma ReserveChanged(ram: nat, job: Job, vram: seq<Byte>, at: nat) returns (mem: nat -> Byte)
    requires ram % PAGE == 0 && |vram| == ram < TWO32 && Translated(job) && 0 < job.size <= ram
    requires at == VideoSize(ram, true) && TableIn(vram, at, Build(job)) && job.base + job.size > at
    ensures !KeepsReserve(ram, vram, mem)
  {
    hide Walk, PagesNeeded, Execute;
    HasPage(job.size);
    var p := if job.base > at then job.base else at;
    var c: Byte := if p < ram && vram[p] == 0 then 1 else 0;
    mem := a => c;
    if p < ram {
      Overwritten(job, vram, at, 0, mem, c, p);
      var after := Walk(vram, at, 0, mem);
      if after.Some? {
        TailsDiffer(after.value, vram, at, p);
      }
    } else {
      WalkIsExecute(job, vram, at, 0, mem);
      ExecuteInsideIff(job, Build(job), mem, Source(job, mem), vram);
    }
  }

  lemma TailsDiffer(a: seq<Byte>, b: seq<Byte>, at: nat, p: nat)
    requires at <= p < |a| == |b| && a[p] != b[p]
    ensures a[at..] != b[at..]
  {
    assert a[at..][p - at] != b[at..][p - at];
  }

  // ----- Writing the list

  /** Stores a 32-bit word, least significant byte first. */
  method PutWord(vram: array<Byte>, at: nat, value: nat)
    requires at + 4 <= vram.Length && value < TWO32
    modifies vram
    ensures Word(vram[..], at) == value
    ensures forall k | 0 <= k < vram.Length && !(at <= k < at + 4) :: vram[k] == old(vram[k])
  {
    var high := value / 0x100;
    var higher := high / 0x100;
    vram[at] := (value % 0x100) as Byte;
    vram[at + 1] := (high % 0x100) as Byte;
    vram[at + 2] := (higher % 0x100) as Byte;
    vram[at + 3] := (higher / 0x100) as Byte;
  }

  lemma SameWord(a: seq<Byte>, b: seq<Byte>, at: nat)
    requires at + 4 <= |a| == |b| && forall k | at <= k < at + 4 :: a[k] == b[k]
    ensures Word(a, at) == Word(b, at)
  {}

  predicate Fields(d: Descriptor) {
    d.fbOffset < TWO32 && d.sysAddr < TWO32 && d.command < TWO32 && d.reserved < TWO32
  }

  method PutDescriptor(vram: array<Byte>, at: nat, d: Descriptor)
    requires at + 16 <= vram.Length && Fields(d)
    modifies vram
    ensures DescriptorAt(vram[..], at) == d
    ensures forall k | 0 <= k < vram.Length && !(at <= k < at + 16) :: vram[k] == old(vram[k])
  {
    hide Word;
    PutWord(vram, at, d.fbOffset);
    ghost var v1 := vram[..];
    PutWord(vram, at + 4, d.sysAddr);
    ghost var v2 := vram[..];
    PutWord(vram, at + 8, d.command);
    ghost var v3 := vram[..];
    PutWord(vram, at + 12, d.reserved);
    SameWord(v1, vram[..], at);
    SameWord(v2, vram[..], at + 4);
    SameWord(v3, vram[..], at + 8);
  }

  class Driver {
    const ramSize: nat
    const dma: bool
    /** Video memory; the descriptor table is the end of it. */
    const vram: array<Byte>
    var overlay: int
    var numBuffers: nat

    constructor (ramSize: nat, dma: bool)
      ensures this.ramSize == ramSize && this.dma == dma
      ensures vram.Length == ramSize && fresh(vram)
    {
      this.ramSize, this.dma := ramSize, dma;
      vram := new Byte[ramSize];
      overlay, numBuffers := 0, 0;
    }

    /** The frame search of vixConfigPlayback; false is EINVAL. */
    method PlaceFrames(frameSize: nat, numFrames: nat, rgbSize: nat) returns (ok: bool)
      requires ramSize < TWO31 && 0 < rgbSize
      modifies this
      ensures ok ==> 0 < numBuffers <= Requested(numFrames) && 0 < overlay && overlay % ALIGN == 0
      // the frames fit exactly when the 32-bit subtraction does not wrap around
      ensures ok && frameSize + rgbSize + ALIGN <= TWO31 ==>
                (Placed(VideoSize(ramSize, dma), frameSize, numBuffers, overlay)
                 <==> Unwrapped(VideoSize(ramSize, dma), frameSize, Requested(numFrames)))
      ensures Unwrapped(VideoSize(ramSize, dma), frameSize, Requested(numFrames)) ==>
                && (ok ==> Placed(VideoSize(ramSize, dma), frameSize, numBuffers, overlay))
                // offset 0 is not accepted: a single frame must leave a 64K block before it
                && (numFrames > 0 ==> (!ok <==> frameSize + ALIGN > VideoSize(ramSize, dma)))
                // more than three frames stay clear of the visible framebuffer if they can
                && (ok ==> forall m: nat | 3 < m <= Requested(numFrames)
                    && TrueOffset(VideoSize(ramSize, dma), frameSize, m) >= rgbSize ::
                             m <= numBuffers && rgbSize <= overlay)
      // fewer frames than asked for, 1024 at most, only if one more did not fit behind a 64K block,
      // or would have reached into the framebuffer; the frames end less than 64K before the reserve
      ensures ok && Unwrapped(VideoSize(ramSize, dma), frameSize, Requested(numFrames)) ==>
                var video := ramSize - if dma then ramSize * 16 / 4096 else 0;
                && (|| numBuffers == (if numFrames < 1024 then numFrames else 1024)
                    || frameSize * (numBuffers + 1) + 65536 > video
                    || (numBuffers >= 4 && (video - frameSize * (numBuffers + 1)) / 65536 * 65536 < rgbSize))
                && overlay == (video - frameSize * numBuffers) / 65536 * 65536
    {
      hide Offset, TrueOffset, Placed, Unwrapped;
      var nfr;
      var video := VideoSize(ramSize, dma);
      nfr, overlay := Search(video, frameSize, Requested(numFrames), rgbSize, 1);
      SearchOutcomeAbove(video, frameSize, Requested(numFrames), rgbSize, nfr, overlay);
      if nfr <= 0 {
        return false;
      }
      if Unwrapped(video, frameSize, Requested(numFrames)) {
        CountKept(video, frameSize, numFrames, rgbSize, 1, nfr);
      }
      numBuffers := nfr;
      ok := true;
    }

    /** The loop of radeon_setup_frame. */
    method WriteTable(at: nat, destOffset: nat, size: nat, n: nat, pages: seq<nat>)
      requires 0 <= overlay && size < TWO32 && n == PagesNeeded(size) <= |pages| && at + 16 * n <= vram.Length
      requires forall i | 0 <= i < n :: pages[i] < TWO32
      modifies vram
      ensures TableIn(vram[..], at, Build(Job(Target(overlay, destOffset), size, pages)))
      // four words a page, least significant byte first: position, bus address, count, nothing
      ensures var v := vram[..];
              forall i | 0 <= i < n ::
                && 4096 * i < size
                && var d := v[at + 16 * i..][..16];
                   && d[0] as nat + 0x100 * d[1] as nat + 0x1_0000 * d[2] as nat + 0x100_0000 * d[3] as nat
                      == (overlay + destOffset + 4096 * i) % 0x1_0000_0000
                   && d[4] as nat + 0x100 * d[5] as nat + 0x1_0000 * d[6] as nat + 0x100_0000 * d[7] as nat == pages[i]
                   && d[8] as nat + 0x100 * d[9] as nat + 0x1_0000 * d[10] as nat + 0x100_0000 * d[11] as nat
                      == (if size - 4096 * i > 4096 then 4096 else size - 4096 * i + 0x8000_0000)
                   && d[12] == d[13] == d[14] == d[15] == 0
      ensures forall k | 0 <= k < vram.Length && !(at <= k < at + 16 * n) :: vram[k] == old(vram[k])
    {
      hide Target, DescriptorAt, PagesNeeded, TableIn, Build, Entry;
      ghost var job := Job(Target(overlay, destOffset), size, pages);
      NoEntries(vram[..], at, job);
      var destPtr, count := destOffset, size;
      var i := 0;
      while i < n
        invariant i <= n && destPtr == destOffset + PAGE * i
        invariant count == (size - PAGE * i) % TWO32
        invariant i <= |Build(job)| && TableIn(vram[..], at, Build(job)[..i])
        invariant forall k | 0 <= k < vram.Length && !(at <= k < at + 16 * i) :: vram[k] == old(vram[k])
      {
        EntryOf(job, overlay, destOffset, i, count);
        ghost var before := vram[..];
        PutDescriptor(vram, at + 16 * i,
                      Descriptor((overlay + destPtr) % TWO32, pages[i], if count > PAGE then PAGE else count + EOL, 0));
        TableExtended(before, vram[..], at, job, i);
        CountsDown(size, i, count);
        destPtr := destPtr + PAGE;
        count := (count - PAGE) % TWO32;
        i := i + 1;
      }
      assert Build(job)[..n] == Build(job);
      ghost var v := vram[..];
      forall i | 0 <= i < n
        ensures 4096 * i < size
        ensures var d := v[at + 16 * i..][..16];
                && d[0] as nat + 0x100 * d[1] as nat + 0x1_0000 * d[2] as nat + 0x100_0000 * d[3] as nat
                   == (overlay + destOffset + 4096 * i) % 0x1_0000_0000
                && d[4] as nat + 0x100 * d[5] as nat + 0x1_0000 * d[6] as nat + 0x100_0000 * d[7] as nat == pages[i]
                && d[8] as nat + 0x100 * d[9] as nat + 0x1_0000 * d[10] as nat + 0x100_0000 * d[11] as nat
                   == (if size - 4096 * i > 4096 then 4096 else size - 4096 * i + 0x8000_0000)
                && d[12] == d[13] == d[14] == d[15] == 0
      {
        EntryBytes(v, at, overlay, destOffset, size, pages, i);
      }
    }

    /** radeon_setup_frame.  A list for more than the size of video memory would not fit the
        reserve; the driver relies on the size check alone. */
    method SetupFrame(destOffset: nat, size: nat, tr: Translation) returns (r: Result)
      requires ramSize % PAGE == 0 && vram.Length == ramSize && dma
      requires 0 <= overlay && destOffset < TWO32 && size < TWO32
      requires tr.Pages? ==> |tr.pages| >= PagesNeeded(size) && forall i | 0 <= i < |tr.pages| :: tr.pages[i] < TWO32
      requires RadeonFits(ramSize, destOffset, size) && tr.Pages? ==> size <= ramSize
      modifies vram
      ensures r == if !RadeonFits(ramSize, destOffset, size) then TooBig
                   else if tr.Failed? then BusError(tr.errno) else Done
      ensures r == Done ==>
                TableIn(vram[..], VideoSize(ramSize, true), Build(Job(Target(overlay, destOffset), size, tr.pages)))
      ensures r == Done ==> vram[..VideoSize(ramSize, true)] == old(vram[..VideoSize(ramSize, true)])
      ensures r != Done ==> vram[..] == old(vram[..])
      // the size check leaves the overlay out
      ensures destOffset + size < 0x1_0000_0000 ==> (r == TooBig <==> destOffset + size > ramSize)
      // the list starts 16 bytes for every page of memory before the end: four words a page,
      // least significant byte first
      ensures r == Done ==> size <= ramSize
      ensures r == Done ==>
                var v := vram[..];
                forall i | 0 <= i < |tr.pages| && 4096 * i < size ::
                  var d := v[ramSize - ramSize / 4096 * 16 + 16 * i..][..16];
                  && d[0] as nat + 0x100 * d[1] as nat + 0x1_0000 * d[2] as nat + 0x100_0000 * d[3] as nat
                     == (overlay + destOffset + 4096 * i) % 0x1_0000_0000
                  && d[4] as nat + 0x100 * d[5] as nat + 0x1_0000 * d[6] as nat + 0x100_0000 * d[7] as nat
                     == tr.pages[i]
                  && d[8] as nat + 0x100 * d[9] as nat + 0x1_0000 * d[10] as nat + 0x100_0000 * d[11] as nat
                     == (if size - 4096 * i > 4096 then 4096 else size - 4096 * i + 0x8000_0000)
                  && d[12] == d[13] == d[14] == d[15] == 0
    {
      hide Target, Build, TableIn;
      if (destOffset + size) % TWO32 > ramSize {
        return TooBig;
      }
      var n := size / PAGE;
      if size % PAGE != 0 {
        n := n + 1;
      }
      if tr.Failed? {
        return BusError(tr.errno);
      }
      ReserveHolds(ramSize, size);
      forall i: nat ensures i < n <==> 4096 * i < size {
        PageCount(size, i);
      }
      WriteTable(VideoSize(ramSize, true), destOffset, size, n, tr.pages);
      r := Done;
    }

    /** vixPlaybackCopyFrame, with an engine started at the table and the source bytes `src`: what
        it makes of video memory.  A successful request that lies beside its list is one copy. */
    method CopyFrame(destOffset: nat, size: nat, tr: Translation, ghost mem: nat -> Byte, ghost src: seq<Byte>)
      returns (r: Result, ghost after: Option<seq<Byte>>)
      requires ramSize % PAGE == 0 && vram.Length == ramSize < TWO32 && dma
      requires 0 <= overlay && destOffset < TWO32 && 0 < size < TWO32
      requires tr.Pages? ==> |tr.pages| >= PagesNeeded(size) && forall i | 0 <= i < |tr.pages| :: tr.pages[i] < TWO32
      requires RadeonFits(ramSize, destOffset, size) && tr.Pages? ==> size <= ramSize
      requires tr.Pages? ==> DmaList.Holds(Job(Target(overlay, destOffset), size, tr.pages), mem, src)
      modifies vram
      ensures r == if !RadeonFits(ramSize, destOffset, size) then TooBig
                   else if tr.Failed? then BusError(tr.errno) else Done
      ensures r == Done
              && Beside(Job(Target(overlay, destOffset), size, tr.pages), VideoSize(ramSize, true), ramSize) ==>
                && Target(overlay, destOffset) + |src| <= ramSize
                && after == Some(Copied(vram[..], Target(overlay, destOffset), src, |src|))
      ensures r == Done ==> vram[..VideoSize(ramSize, true)] == old(vram[..VideoSize(ramSize, true)])
      ensures r != Done ==> after == None && vram[..] == old(vram[..])
    {
      hide Target, Build, TableIn, Walk, Beside, PagesNeeded, VideoSize;
      after := None;
      r := SetupFrame(destOffset, size, tr);
      if r == Done {
        ghost var job := Job(Target(overlay, destOffset), size, tr.pages);
        after := Walk(vram[..], VideoSize(ramSize, true), 0, mem);
        if Beside(job, VideoSize(ramSize, true), ramSize) {
          WalkDelivers(job, VideoSize(ramSize, true), mem, src, vram[..]);
        }
      }
    }
  }

  /** The sixteen bytes of an entry in memory. */
  lemma EntryBytes(v: seq<Byte>, at: nat, overlay: nat, destOffset: nat, size: nat, pages: seq<nat>, i: nat)
    requires var job := Job(Target(overlay, destOffset), size, pages);
             Translated(job) && TableIn(v, at, Build(job)) && i < PagesNeeded(size)
    ensures 4096 * i < size && at + 16 * i + 16 <= |v|
    ensures var d := v[at + 16 * i..][..16];
            && d[0] as nat + 0x100 * d[1] as nat + 0x1_0000 * d[2] as nat + 0x100_0000 * d[3] as nat
               == (overlay + destOffset + 4096 * i) % 0x1_0000_0000
            && d[4] as nat + 0x100 * d[5] as nat + 0x1_0000 * d[6] as nat + 0x100_0000 * d[7] as nat == pages[i]
            && d[8] as nat + 0x100 * d[9] as nat + 0x1_0000 * d[10] as nat + 0x100_0000 * d[11] as nat
               == (if size - 4096 * i > 4096 then 4096 else size - 4096 * i + 0x8000_0000)
            && d[12] == d[13] == d[14] == d[15] == 0
  {
    var job := Job(Target(overlay, destOffset), size, pages);
    assert DescriptorAt(v, at + 16 * i) == Build(job)[i] == Entry(job, i);
    hide Build, Target, PagesNeeded;
    PageCount(size, i);
    SumModulo(overlay, destOffset, PAGE * i);
    hide Entry;
  }

  lemma NoEntries(v: seq<Byte>, at: nat, job: Job)
    requires Translated(job) && at <= |v|
    ensures |Build(job)| == PagesNeeded(job.size) && TableIn(v, at, Build(job)[..0])
  {}

  /** One more entry stands in memory. */
  lemma TableExtended(v: seq<Byte>, next: seq<Byte>, at: nat, job: Job, i: nat)
    requires Translated(job) && i < PagesNeeded(job.size) && |next| == |v|
    requires TableIn(v, at, Build(job)[..i]) && at + 16 * i + 16 <= |v|
    requires DescriptorAt(next, at + 16 * i) == Entry(job, i)
    requires forall k: nat | at <= k < at + 16 * i :: next[k] == v[k]
    ensures TableIn(next, at, Build(job)[..i + 1])
  {
    hide DescriptorAt, Entry;
    TableUntouched(v, next, at, Build(job)[..i]);
    assert Build(job)[..i + 1] == Build(job)[..i] + [Entry(job, i)];
  }

  /** What the loop writes is the entry of the compiled list. */
  lemma EntryOf(job: Job, overlay: nat, destOffset: nat, i: nat, count: nat)
    requires Translated(job) && i < PagesNeeded(job.size) && job.base == Target(overlay, destOffset)
    requires count == (job.size - PAGE * i) % TWO32 && job.pages[i] < TWO32
    ensures Fields(Entry(job, i))
    ensures Entry(job, i) == Descriptor((overlay + destOffset + PAGE * i) % TWO32, job.pages[i],
                                        if count > PAGE then PAGE else count + EOL, 0)
  {
    EntryShape(job, i);
    LoopEntry(job, overlay, destOffset, i, count);
    hide Target;
  }

  /** The search when only offsets above 0 are accepted. */
  lemma SearchOutcomeAbove(video: nat, frameSize: nat, request: nat, rgbSize: nat, n: nat, overlay: int)
    requires video < TWO31 && 0 < rgbSize
    requires exists first: nat ::
               && LargestCount(video, frameSize, request, rgbSize, first)
               && LargestCount(video, frameSize, request, if first > 3 then rgbSize else 1, n)
               && (first > 3 ==> n == first)
    requires n > 0 ==> overlay == Offset(video, frameSize, n)
    ensures n <= request && (n > 0 ==> 0 < overlay && overlay % ALIGN == 0)
    ensures Unwrapped(video, frameSize, request) && n > 0 ==>
              && overlay == TrueOffset(video, frameSize, n)
              && forall m: nat | n < m <= request ::
                   TrueOffset(video, frameSize, m) < if n > 3 && overlay >= rgbSize then rgbSize else 1
    ensures n > 0 && frameSize + rgbSize + ALIGN <= TWO31 ==>
              (Placed(video, frameSize, n, overlay) <==> Unwrapped(video, frameSize, request))
    ensures Unwrapped(video, frameSize, request) ==>
              && (n > 0 ==> Placed(video, frameSize, n, overlay))
              && (request > 0 ==> (n == 0 <==> frameSize + ALIGN > video))
              && (n > 0 ==> forall m: nat | 3 < m <= request && TrueOffset(video, frameSize, m) >= rgbSize ::
                  m <= n && rgbSize <= overlay)
  {
    var first: nat :|
      && LargestCount(video, frameSize, request, rgbSize, first)
      && LargestCount(video, frameSize, request, if first > 3 then rgbSize else 1, n)
      && (first > 3 ==> n == first);
    hide Offset, TrueOffset, Placed, Unwrapped;
    SingleFrame(video, frameSize);
    OffsetAligned(video, frameSize, n);
    if frameSize + rgbSize + ALIGN <= TWO31 {
      PlacedExactly(video, frameSize, request, rgbSize, 1, first, n);
    }
    if Unwrapped(video, frameSize, request) {
      SearchPlaces(video, frameSize, request, rgbSize, 1, first, n);
      LargestIsExact(video, frameSize, request, rgbSize, first);
      LargestIsExact(video, frameSize, request, if first > 3 then rgbSize else 1, n);
      if n > 0 {
        UnwrappedPrefix(video, frameSize, n, request);
        OffsetExact(video, frameSize, n);
      }
    }
  }
}
