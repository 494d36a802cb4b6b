/** The mach64 driver's DMA requests: one descriptor table per source buffer, rebuilt on
    every request or, for fixed buffers, kept from the first one. */
module Mach64Dma {
  import opened Arith
  import opened DmaList
  import opened FramePlacement

  const TABLES: nat := 64

  /** Result of a call: the errno value, or 0. */
  datatype Result = Done | TooBig | BusError(errno: int)

  /** What bm_virt_to_bus answers. */
  datatype Translation = Pages(pages: seq<nat>) | Failed(errno: int)

  /** A request as the application passes it. */
  datatype Request = Request(idx: nat, destOffset: nat, size: nat, fixedBuffs: bool)

  /** The driver's tables and the application's `internal` marks. */
  datatype State = State(tables: seq<seq<Descriptor>>, built: seq<bool>)

  /** Indices the driver has a table for, once it has replaced those above its limit. */
  predicate HasTable(idx: nat) {
    idx < TABLES || idx >= MAX_FRAMES
  }

  /** Those are the indices that have one, and no others: 64 to 1023 are accepted without. */
  lemma HasTableIff(idx: nat)
    ensures HasTable(idx) <==> Slot(idx) < 64
    ensures !HasTable(idx) <==> 64 <= idx < 1024
    ensures Slot(idx) == if idx < 1024 then idx else 0
  {}

  function Slot(idx: nat): nat {
    if idx > MAX_FRAMES - 1 then 0 else idx
  }

  /** The position of an offset relative to the overlay, in 32 bits. */
  function Target(overlay: nat, destOffset: nat): (at: nat)
    ensures at < TWO32
    ensures overlay + destOffset < 0x1_0000_0000 ==> at == overlay + destOffset
  {
    (overlay + destOffset) % TWO32
  }

  function JobOf(overlay: nat, req: Request, pages: seq<nat>): Job {
    Job(Target(overlay, req.destOffset), req.size, pages)
  }

  /** The application's numbers are unsigned 32-bit ones. */
  predicate Unsigned(req: Request) {
    req.destOffset < TWO32 && req.size < TWO32
  }

  predicate WellFormed(s: State, ram: nat) {
    && |s.tables| == TABLES && |s.built| == MAX_FRAMES
    && forall i | 0 <= i < TABLES :: |s.tables[i]| == ram * 16 / PAGE / 16
  }

  /** The kernel's contract: a translation names one address per page. */
  predicate Sufficient(req: Request, tr: Translation) {
    tr.Pages? ==> |tr.pages| >= PagesNeeded(req.size)
  }

  /** The size check, in 32 bits. */
  predicate Fits(overlay: nat, ram: nat, req: Request) {
    (overlay + req.destOffset + req.size) % TWO32 <= ram
  }

  /** The request gets a new list. */
  predicate Compiles(s: State, overlay: nat, ram: nat, req: Request, tr: Translation)
    requires |s.built| == MAX_FRAMES
  {
    Fits(overlay, ram, req) && !(s.built[Slot(req.idx)] && req.fixedBuffs) && tr.Pages?
  }

  /** What one request does.  A list for more than the size of video memory would not fit its
      table; the driver relies on the size check alone, which wraps around. */
  function Setup(s: State, overlay: nat, ram: nat, req: Request, tr: Translation): (r: (State, Result))
    requires WellFormed(s, ram) && HasTable(req.idx) && Sufficient(req, tr) && Unsigned(req)
    requires ram % PAGE == 0 && ram < TWO32 && (Compiles(s, overlay, ram, req, tr) ==> req.size <= ram)
    ensures WellFormed(r.0, ram)
  {
    var slot := Slot(req.idx);
    if !Fits(overlay, ram, req) then (s, TooBig)
    else if s.built[slot] && req.fixedBuffs then (s, Done)
    else
      match tr
      case Failed(errno) => (s, BusError(errno))
      case Pages(pages) =>
        var job := JobOf(overlay, req, pages);
        TableSuffices(job.size, ram);
        (State(s.tables[slot := Build(job) + s.tables[slot][PagesNeeded(job.size)..]], s.built[slot := true]), Done)
  }

  /** The request structure the application keeps from call to call. */
  class Dma {
    var idx: nat
    var destOffset: nat
    var size: nat
    var fixedBuffs: bool
    const internal: array<bool>

    constructor ()
      ensures internal.Length == MAX_FRAMES && fresh(internal)
      ensures forall i | 0 <= i < MAX_FRAMES :: !internal[i]
    {
      idx, destOffset, size, fixedBuffs := 0, 0, 0, false;
      internal := new bool[MAX_FRAMES](_ => false);
    }

    function Contents(): Request
      reads this
    {
      Request(idx, destOffset, size, fixedBuffs)
    }
  }

  class Driver {
    const ramSize: nat
    var overlay: nat
    const descBase: seq<array<Descriptor>>

    ghost predicate Valid()
      reads this
    {
      && ramSize % PAGE == 0 && ramSize < TWO32 && overlay < TWO32
      && |descBase| == TABLES
      && (forall i | 0 <= i < TABLES :: descBase[i].Length == ramSize * 16 / PAGE / 16)
      && forall i, j | 0 <= i < j < TABLES :: descBase[i] != descBase[j]
    }

    ghost function View(dma: Dma): State
      requires Valid()
      reads this, descBase, dma.internal
    {
      State(seq(TABLES, i requires 0 <= i < TABLES reads descBase => descBase[i][..]), dma.internal[..])
    }

    /** mach64_setup_frame */
    method SetupFrame(dma: Dma, tr: Translation) returns (r: Result)
      requires Valid() && dma.internal.Length == MAX_FRAMES
      requires HasTable(dma.idx) && Sufficient(dma.Contents(), tr)
      requires Unsigned(dma.Contents())
      requires Compiles(View(dma), overlay, ramSize, dma.Contents(), tr) ==> dma.size <= ramSize
      modifies dma`idx, dma.internal, descBase
      ensures Valid()
      ensures (View(dma), r) == Setup(old(View(dma)), overlay, ramSize, old(dma.Contents()), tr)
      ensures r != TooBig ==> dma.idx == if old(dma.idx) < 1024 then old(dma.idx) else 0
      // short of a wrap-around, too big is what ends behind video memory and nothing else
      ensures overlay + dma.destOffset + dma.size < 0x1_0000_0000 ==>
                (r == TooBig <==> overlay + dma.destOffset + dma.size > ramSize)
    {
      hide Target, Build, PagesNeeded, Entry;
      if (overlay + dma.destOffset + dma.size) % TWO32 > ramSize {
        return TooBig;
      }
      if dma.idx > MAX_FRAMES - 1 {
        dma.idx := 0;
      }
      r := Done;
      if !(dma.internal[dma.idx] && dma.fixedBuffs) {
        r := Rebuild(dma, tr);
      }
    }

    /** The part of mach64_setup_frame that compiles a new list and marks it. */
    method Rebuild(dma: Dma, tr: Translation) returns (r: Result)
      requires Valid() && dma.internal.Length == MAX_FRAMES && dma.idx < TABLES
      requires Sufficient(dma.Contents(), tr) && Unsigned(dma.Contents()) && (tr.Pages? ==> dma.size <= ramSize)
      modifies dma.internal, descBase
      ensures tr.Failed? ==> r == BusError(tr.errno) && View(dma) == old(View(dma))
      ensures tr.Pages? ==>
                && r == Done && PagesNeeded(dma.size) <= |old(View(dma)).tables[dma.idx]|
                && Translated(JobOf(overlay, dma.Contents(), tr.pages))
                && View(dma) == old(View(dma)).(
                     tables := old(View(dma)).tables[dma.idx := Build(JobOf(overlay, dma.Contents(), tr.pages))
                                 + old(View(dma)).tables[dma.idx][PagesNeeded(dma.size)..]],
                     built := old(View(dma)).built[dma.idx := true])
    {
      hide Build, Entry;
      var list := descBase[dma.idx];
      var n := dma.size / PAGE;
      if dma.size % PAGE != 0 {
        n := n + 1;
      }
      if tr.Failed? {
        return BusError(tr.errno);
      }
      ghost var before := View(dma);
      ghost var table, job := list[..], JobOf(overlay, dma.Contents(), tr.pages);
      TableSuffices(job.size, ramSize);
      dma.internal[dma.idx] := true;
      WriteList(list, overlay, dma.destOffset, dma.size, n, tr.pages);
      assert View(dma).tables == before.tables[dma.idx := Build(job) + table[n..]];
      r := Done;
    }
  }

  /** The loop of mach64_setup_frame. */
  method WriteList(list: array<Descriptor>, overlay: nat, destOffset: nat, size: nat, n: nat, pages: seq<nat>)
    requires n == PagesNeeded(size) && n <= list.Length && n <= |pages|
    requires size < TWO32
    modifies list
    ensures list[..] == Build(Job(Target(overlay, destOffset), size, pages)) + old(list[..])[n..]
  {
    ghost var job := Job(Target(overlay, destOffset), size, pages);
    var destPtr, count := destOffset, size;
    var i := 0;
    while i < n
      invariant i <= n && destPtr == destOffset + PAGE * i
      invariant count == (size - PAGE * i) % TWO32
      invariant forall k :: 0 <= k < list.Length ==> list[k] == if k < i then Entry(job, k) else old(list[k])
    {
      LoopEntry(job, overlay, destOffset, i, count);
      CountsDown(size, i, count);
      hide Target, Entry;
      list[i] := Descriptor((overlay + destPtr) % TWO32, pages[i], if count > PAGE then PAGE else count + EOL, 0);
      destPtr := destPtr + PAGE;
      count := (count - PAGE) % TWO32;
      i := i + 1;
    }
  }

  /** What the loop writes is the entry of the compiled list. */
  lemma LoopEntry(job: Job, overlay: nat, destOffset: nat, i: nat, count: nat)
    requires Translated(job) && i < PagesNeeded(job.size) && job.base == Target(overlay, destOffset)
    requires count == (job.size - PAGE * i) % TWO32
    ensures Entry(job, i) == Descriptor((overlay + destOffset + PAGE * i) % TWO32, job.pages[i],
                                        if count > PAGE then PAGE else count + EOL, 0)
  {
    SumModulo(overlay, destOffset, PAGE * i);
    hide Target;
    PageCount(job.size, i);
  }

  lemma CountsDown(size: nat, i: nat, count: nat)
    requires count == (size - PAGE * i) % TWO32
    ensures (count - PAGE) % TWO32 == (size - PAGE * (i + 1)) % TWO32
  {}

  // ----- What the size check lets through

  /** The check adds up in 32 bits what the list adds up in two steps. */
  lemma SumModulo(overlay: nat, destOffset: nat, size: nat)
    ensures (overlay + destOffset + size) % TWO32 == (Target(overlay, destOffset) + size) % TWO32
  {}

  lemma PassesInside(overlay: nat, ram: nat, req: Request)
    requires Fits(overlay, ram, req) && Target(overlay, req.destOffset) + req.size < TWO32
    ensures Target(overlay, req.destOffset) + req.size <= ram
  {
    SumModulo(overlay, req.destOffset, req.size);
  }

  lemma SameTarget(overlay: nat, a: nat, b: nat)
    requires a < TWO32 && b < TWO32
    ensures Target(overlay, a) == Target(overlay, b) <==> a == b
  {}

  /** A request the check lets through stays inside video memory exactly when its end does not
      wrap around. */
  lemma AcceptedInsideIff(overlay: nat, ram: nat, req: Request, pages: seq<nat>, table: seq<Descriptor>,
                          mem: nat -> Byte, src: seq<Byte>, vram: seq<Byte>)
    requires Fits(overlay, ram, req) && Unsigned(req) && req.size > 0 && |vram| == ram < TWO31
    requires Translated(JobOf(overlay, req, pages)) && Build(JobOf(overlay, req, pages)) <= table
    requires Holds(JobOf(overlay, req, pages), mem, src)
    ensures Execute(table, 0, mem, vram) != None <==> Target(overlay, req.destOffset) + req.size < TWO32
  {
    hide Build, Execute, Target;
    ExecuteInsideIff(JobOf(overlay, req, pages), table, mem, src, vram);
    SumModulo(overlay, req.destOffset, req.size);
  }

  /** With an overlay at 1 MB of 8 MB: a request of nearly 4 GB passes, for which no table is
      large enough, and one of two pages, the first of which lies far behind video memory. */
  lemma CheckWraps()
    ensures var huge := Request(0, 0, 0xFFF0_1000, false);
            Fits(0x10_0000, 0x80_0000, huge) && PagesNeeded(huge.size) > 0x80_0000 * 16 / PAGE / 16
    ensures var far := Request(0, 0xFFEF_F000, 0x2000, false);
            && Fits(0x10_0000, 0x80_0000, far) && far.size <= 0x80_0000
            && Target(0x10_0000, far.destOffset) == 0xFFFF_F000
  {}

  /** Every transfer into frames the search has placed is accepted. */
  lemma FrameTransferAccepted(s: State, ram: nat, frameSize: nat, n: nat, overlay: nat, req: Request, tr: Translation)
    requires Placed(ram, frameSize, n, overlay) && n > 0 && req.destOffset + req.size <= frameSize * n
    requires WellFormed(s, ram) && HasTable(req.idx) && Sufficient(req, tr) && ram % PAGE == 0 && ram < TWO31
    ensures Unsigned(req) && req.size <= ram
    ensures Setup(s, overlay, ram, req, tr).1 != TooBig
    ensures tr.Pages? ==> Setup(s, overlay, ram, req, tr).1 == Done
  {
    PlacedIff(ram, frameSize, n, overlay);
  }

  /** A request that is inside memory, and not served by a kept list, leaves its table beginning
      with one descriptor a page: position, bus address, and what is left up to a page, with the
      end mark on the last.  The rest of that table, the other tables and marks stay. */
  lemma NewListWritten(s: State, overlay: nat, ram: nat, req: Request, pages: seq<nat>, slot: nat, i: nat)
    requires WellFormed(s, ram) && HasTable(req.idx) && |pages| >= PagesNeeded(req.size) && ram % PAGE == 0
    requires ram < TWO31 && Unsigned(req) && overlay + req.destOffset + req.size <= ram
    requires slot == (if req.idx < 1024 then req.idx else 0) && !(s.built[slot] && req.fixedBuffs)
    ensures var (t, r) := Setup(s, overlay, ram, req, Pages(pages));
            && r == Done && t.built == s.built[slot := true]
            && (forall j | 0 <= j < TABLES && j != slot :: t.tables[j] == s.tables[j])
            && |t.tables[slot]| == |s.tables[slot]|
            && (i < |t.tables[slot]| && 4096 * i >= req.size ==> t.tables[slot][i] == s.tables[slot][i])
            && (4096 * i < req.size ==>
                  && i < |t.tables[slot]| && i < |pages|
                  && t.tables[slot][i].fbOffset == overlay + req.destOffset + 4096 * i
                  && t.tables[slot][i].sysAddr == pages[i] && t.tables[slot][i].reserved == 0
                  && t.tables[slot][i].command == (if req.size - 4096 * i > 4096 then 4096
                                                   else req.size - 4096 * i + 0x8000_0000))
  {
    TableSuffices(req.size, ram);
    var job := JobOf(overlay, req, pages);
    hide Target;
    PageCount(req.size, i);
    if 4096 * i < req.size {
      assert Build(job)[i] == Entry(job, i);
    }
  }

  lemma PageCount(size: nat, i: nat)
    ensures i < PagesNeeded(size) <==> 4096 * i < size
  {}

  // ----- Whole runs with fixed buffers

  /** A source buffer the application always uses in the same way. */
  datatype Buffer = Buffer(destOffset: nat, size: nat, pages: seq<nat>)

  datatype Call = Call(idx: nat, fixedBuffs: bool, translated: bool)

  /** Every call on one slot uses that slot's buffer. */
  function Asked(plan: seq<Buffer>, c: Call): Request
    requires |plan| == TABLES && HasTable(c.idx)
  {
    Request(c.idx, plan[Slot(c.idx)].destOffset, plan[Slot(c.idx)].size, c.fixedBuffs)
  }

  function Answer(plan: seq<Buffer>, c: Call): Translation
    requires |plan| == TABLES && HasTable(c.idx)
  {
    if c.translated then Pages(plan[Slot(c.idx)].pages) else Failed(14)
  }

  /** Every list the driver writes for the plan fits its table. */
  predicate PlanFits(plan: seq<Buffer>, overlay: nat, ram: nat) {
    && |plan| == TABLES
    && forall i | 0 <= i < TABLES ::
         && |plan[i].pages| >= PagesNeeded(plan[i].size) && plan[i].destOffset < TWO32 && plan[i].size < TWO32
         && ((overlay + plan[i].destOffset + plan[i].size) % TWO32 <= ram ==> plan[i].size <= ram)
  }

  function PlannedJob(plan: seq<Buffer>, overlay: nat, slot: nat): Job
    requires |plan| == TABLES && slot < TABLES
  {
    Job(Target(overlay, plan[slot].destOffset), plan[slot].size, plan[slot].pages)
  }

  /** One call of the plan. */
  function Serve(s: State, overlay: nat, ram: nat, plan: seq<Buffer>, c: Call): (r: (State, Result))
    requires WellFormed(s, ram) && PlanFits(plan, overlay, ram) && ram % PAGE == 0 && ram < TWO32 && HasTable(c.idx)
    ensures WellFormed(r.0, ram)
  {
    Setup(s, overlay, ram, Asked(plan, c), Answer(plan, c))
  }

  function Calls(s: State, overlay: nat, ram: nat, plan: seq<Buffer>, cs: seq<Call>): (t: State)
    requires WellFormed(s, ram) && PlanFits(plan, overlay, ram) && ram % PAGE == 0 && ram < TWO32
    requires forall c | c in cs :: HasTable(c.idx)
    ensures WellFormed(t, ram)
    decreases |cs|
  {
    if cs == [] then s
    else Calls(Serve(s, overlay, ram, plan, cs[0]).0, overlay, ram, plan, cs[1..])
  }

  /** A slot that is marked holds the list a fresh build would give. */
  ghost predicate Coherent(s: State, overlay: nat, ram: nat, plan: seq<Buffer>)
    requires WellFormed(s, ram) && PlanFits(plan, overlay, ram)
  {
    forall i: nat | i < TABLES && s.built[i] :: Build(PlannedJob(plan, overlay, i)) <= s.tables[i]
  }

  lemma SetupCoherent(s: State, overlay: nat, ram: nat, plan: seq<Buffer>, c: Call)
    requires WellFormed(s, ram) && PlanFits(plan, overlay, ram) && ram % PAGE == 0 && ram < TWO32
    requires Coherent(s, overlay, ram, plan) && HasTable(c.idx)
    ensures var (t, r) := Serve(s, overlay, ram, plan, c);
            && WellFormed(t, ram) && Coherent(t, overlay, ram, plan)
            && (r == Done ==> Build(PlannedJob(plan, overlay, Slot(c.idx))) <= t.tables[Slot(c.idx)]
                              && Fits(overlay, ram, Asked(plan, c)))
  {
    hide PagesNeeded, Build;
    var job := PlannedJob(plan, overlay, Slot(c.idx));
    var (t, r) := Serve(s, overlay, ram, plan, c);
    if t != s {
      TableSuffices(job.size, ram);
      assert t.tables[Slot(c.idx)] == Build(job) + s.tables[Slot(c.idx)][PagesNeeded(job.size)..];
    }
  }

  lemma {:induction false} CallsCoherent(s: State, overlay: nat, ram: nat, plan: seq<Buffer>, cs: seq<Call>)
    requires WellFormed(s, ram) && PlanFits(plan, overlay, ram) && ram % PAGE == 0 && ram < TWO32
    requires Coherent(s, overlay, ram, plan) && forall c | c in cs :: HasTable(c.idx)
    ensures Coherent(Calls(s, overlay, ram, plan, cs), overlay, ram, plan)
    decreases |cs|
  {
    if cs != [] {
      SetupCoherent(s, overlay, ram, plan, cs[0]);
      CallsCoherent(Serve(s, overlay, ram, plan, cs[0]).0, overlay, ram, plan, cs[1..]);
    }
  }

  /** After any run from a driver whose marks are clear, a call that succeeds hands the engine
      a table whose execution copies that buffer's source into video memory and nothing else,
      whether the list was built now or kept from an earlier call. */
  lemma EveryCallDelivers(s: State, overlay: nat, ram: nat, plan: seq<Buffer>, cs: seq<Call>, c: Call,
                          mem: nat -> Byte, src: seq<Byte>, vram: seq<Byte>)
    requires WellFormed(s, ram) && PlanFits(plan, overlay, ram) && ram % PAGE == 0 && ram < TWO32
    requires (forall i | 0 <= i < MAX_FRAMES :: !s.built[i]) && forall d | d in cs :: HasTable(d.idx)
    requires HasTable(c.idx) && plan[Slot(c.idx)].size > 0
    requires PlannedJob(plan, overlay, Slot(c.idx)).base + plan[Slot(c.idx)].size < TWO32
    requires Holds(PlannedJob(plan, overlay, Slot(c.idx)), mem, src) && |vram| == ram
    requires Serve(Calls(s, overlay, ram, plan, cs), overlay, ram, plan, c).1 == Done
    ensures var t := Serve(Calls(s, overlay, ram, plan, cs), overlay, ram, plan, c).0;
            var base := Target(overlay, plan[Slot(c.idx)].destOffset);
            && base + |src| <= |vram|
            && Execute(t.tables[Slot(c.idx)], 0, mem, vram) == Some(Copied(vram, base, src, |src|))
  {
    var job := PlannedJob(plan, overlay, Slot(c.idx));
    CallsCoherent(s, overlay, ram, plan, cs);
    var now := Calls(s, overlay, ram, plan, cs);
    SetupCoherent(now, overlay, ram, plan, c);
    PassesInside(overlay, ram, Asked(plan, c));
    hide Build, Execute, PagesNeeded, Target, Coherent, Fits;
    var t := Serve(now, overlay, ram, plan, c).0;
    ExecuteBuild(job, t.tables[Slot(c.idx)], mem, src, vram);
  }

  function BufferJob(overlay: nat, b: Buffer): Job {
    Job(Target(overlay, b.destOffset), b.size, b.pages)
  }

  /** A fixed-buffer request on a slot whose table was built for an earlier buffer. */
  ghost predicate Reused(s: State, overlay: nat, ram: nat, earlier: Buffer, req: Request, pages: seq<nat>) {
    && WellFormed(s, ram) && ram % PAGE == 0 && ram < TWO32
    && HasTable(req.idx) && req.fixedBuffs && req.size > 0 && earlier.size > 0
    && Unsigned(req) && earlier.destOffset < TWO32
    && Translated(JobOf(overlay, req, pages)) && Translated(BufferJob(overlay, earlier))
    && s.built[Slot(req.idx)] && Fits(overlay, ram, req)
    && Build(BufferJob(overlay, earlier)) <= s.tables[Slot(req.idx)]
  }

  /** The kept list serves the new request exactly when place, size and source pages are those
      of the earlier buffer. */
  lemma KeptListServes(s: State, overlay: nat, ram: nat, earlier: Buffer, req: Request, pages: seq<nat>)
    requires Reused(s, overlay, ram, earlier, req, pages)
    ensures Setup(s, overlay, ram, req, Pages(pages)) == (s, Done)
    ensures Build(JobOf(overlay, req, pages)) <= s.tables[Slot(req.idx)]
       <==> && req.destOffset == earlier.destOffset && req.size == earlier.size
            && pages[..PagesNeeded(req.size)] == earlier.pages[..PagesNeeded(req.size)]
  {
    hide Build, PagesNeeded;
    var a, b := JobOf(overlay, req, pages), BufferJob(overlay, earlier);
    BuildInjective(a, b);
    SameTarget(overlay, req.destOffset, earlier.destOffset);
    if Build(a) <= s.tables[Slot(req.idx)] {
      OneListPerTable(a, b, s.tables[Slot(req.idx)]);
    }
  }

  /** Otherwise the engine still copies the earlier buffer to the earlier place. */
  lemma KeptListCopiesEarlier(s: State, overlay: nat, ram: nat, earlier: Buffer, req: Request, pages: seq<nat>,
                              mem: nat -> Byte, src: seq<Byte>, vram: seq<Byte>)
    requires Reused(s, overlay, ram, earlier, req, pages)
    requires Holds(BufferJob(overlay, earlier), mem, src)
    requires Target(overlay, earlier.destOffset) + |src| <= |vram| < TWO32
    ensures var (t, r) := Setup(s, overlay, ram, req, Pages(pages));
            && r == Done
            && Execute(t.tables[Slot(req.idx)], 0, mem, vram)
                == Some(Copied(vram, Target(overlay, earlier.destOffset), src, |src|))
  {
    hide Build, Execute;
    ExecuteBuild(BufferJob(overlay, earlier), s.tables[Slot(req.idx)], mem, src, vram);
  }

  /** The driver after loading: no table is filled and no slot is marked. */
  function Fresh(ram: nat): (s: State)
    ensures WellFormed(s, ram) && forall i | 0 <= i < MAX_FRAMES :: !s.built[i]
  {
    State(seq(TABLES, i => seq(ram * 16 / PAGE / 16, k => Descriptor(0, 0, 0, 0))), seq(MAX_FRAMES, i => false))
  }

  /** One page for the start of the overlay, then one for the page behind it on the same slot:
      the second call succeeds with a list that does not serve it. */
  lemma StaleList(first: Request, second: Request)
    requires first == Request(3, 0, PAGE, true) && second == Request(3, PAGE, PAGE, true)
    ensures var s := Setup(Fresh(0x80_0000), 0x10_0000, 0x80_0000, first, Pages([0])).0;
            && Setup(s, 0x10_0000, 0x80_0000, second, Pages([0])) == (s, Done)
            && !(Build(JobOf(0x10_0000, second, [0])) <= s.tables[3])
  {
    hide Build, Fresh;
    var s := Setup(Fresh(0x80_0000), 0x10_0000, 0x80_0000, first, Pages([0])).0;
    KeptListServes(s, 0x10_0000, 0x80_0000, Buffer(0, PAGE, [0]), second, [0]);
  }
}
