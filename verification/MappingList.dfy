/** The list of mapped areas kept by the Windows NT helper driver.  Kernel calls are
    recorded in a log; what the kernel answers is a parameter. */
module MappingList {

  datatype Mapping = Mapping(mdl: int, sys: int, user: int, size: nat)

  /** Calls that acquire or release something. */
  datatype Call =
    | MapIoSpace(sys: int, size: nat)
    | AllocateMdl(mdl: int)
    | MapPages(user: int, mdl: int)
    | UnmapPages(user: int, mdl: int)
    | FreeMdl(mdl: int)
    | UnmapIoSpace(sys: int, size: nat)

  datatype Status = Success | InvalidParameter | InsufficientResources | Exception

  /** The point at which a mapping request stops, if it does. */
  datatype MapAnswer =
    | Mapped
    | NoIoSpace
    | NoMdl
    | NoView
    | Raised(acquired: nat)
    | NoList

  /** What the kernel does during an unmap: how many of the three release calls come back
      before one raises (3: none raises), and whether the temporary list can be allocated. */
  datatype UnmapAnswer = UnmapAnswer(returned: nat, listAllocated: bool)

  const SMOOTH := UnmapAnswer(3, true)

  datatype State = State(list: seq<Mapping>, log: seq<Call>)

  function Acquire(m: Mapping): seq<Call> {
    [MapIoSpace(m.sys, m.size), AllocateMdl(m.mdl), MapPages(m.user, m.mdl)]
  }

  function Release(m: Mapping): (calls: seq<Call>)
    ensures |calls| == 3
  {
    [UnmapPages(m.user, m.mdl), FreeMdl(m.mdl), UnmapIoSpace(m.sys, m.size)]
  }

  // ----- Specification of the two operations

  function MapStep(s: State, m: Mapping, answer: MapAnswer): (State, Status) {
    match answer
    case Mapped => (State(s.list + [m], s.log + Acquire(m)), Success)
    case NoIoSpace => (s, InvalidParameter)
    case NoMdl => (s.(log := s.log + Acquire(m)[..1]), InsufficientResources)
    case NoView => (s.(log := s.log + Acquire(m)[..2]), InsufficientResources)
    case Raised(k) => (s.(log := s.log + if k <= 2 then Acquire(m)[..k] else Acquire(m)[..2]), Exception)
    case NoList => (s.(log := s.log + Acquire(m) + Release(m)[..2]), InsufficientResources)
  }

  /** The list without the mappings at a user address, in the old order. */
  function Without(list: seq<Mapping>, user: int): (r: seq<Mapping>)
    ensures |r| <= |list|
  {
    if list == [] then []
    else
      var rest := Without(list[..|list| - 1], user);
      if list[|list| - 1].user == user then rest else rest + [list[|list| - 1]]
  }

  predicate Mentions(list: seq<Mapping>, user: int) {
    exists i :: 0 <= i < |list| && list[i].user == user
  }

  /** The first mapping at a user address: the only one whose resources are released. */
  function First(list: seq<Mapping>, user: int): (m: Mapping)
    requires Mentions(list, user)
    ensures m in list && m.user == user
  {
    if list[0].user == user then list[0] else First(list[1..], user)
  }

  /** One more entry of the list is looked at. */
  lemma Scanned(list: seq<Mapping>, i: nat, user: int)
    requires i < |list|
    ensures Without(list[..i + 1], user) == Without(list[..i], user) + if list[i].user == user then [] else [list[i]]
    ensures Mentions(list[..i + 1], user) <==> Mentions(list[..i], user) || list[i].user == user
    ensures Mentions(list[..i], user) ==> First(list[..i + 1], user) == First(list[..i], user)
    ensures !Mentions(list[..i], user) && list[i].user == user ==> First(list[..i + 1], user) == list[i]
  {
    var longer := list[..i + 1];
    assert longer[..i] == list[..i] && longer[i] == list[i];
    if Mentions(list[..i], user) {
      var k :| 0 <= k < i && list[..i][k].user == user;
      assert longer[k].user == user;
      FirstOfPrefix(longer, i, user);
    } else if list[i].user == user {
      FirstIsLast(longer, user);
    }
  }

  lemma {:induction false} NothingToRemove(list: seq<Mapping>, user: int)
    ensures !Mentions(list, user) <==> Without(list, user) == list
    ensures !Mentions(list, user) <==> |Without(list, user)| == |list|
  {
    if list != [] {
      var n := |list| - 1;
      assert list[..n + 1] == list;
      Scanned(list, n, user);
      NothingToRemove(list[..n], user);
    }
  }

  lemma ScanStart(list: seq<Mapping>, user: int)
    requires list == []
    ensures Without(list, user) == [] && !Mentions(list, user)
  {}

  lemma {:induction false} FirstOfPrefix(list: seq<Mapping>, n: nat, user: int)
    requires n <= |list| && Mentions(list[..n], user)
    ensures Mentions(list, user) && First(list, user) == First(list[..n], user)
  {
    var k :| 0 <= k < n && list[..n][k].user == user;
    assert list[k].user == user;
    if list[0].user != user {
      assert list[1..][k - 1].user == user && list[1..][..n - 1] == list[..n][1..];
      assert list[1..][..n - 1][k - 1].user == user;
      FirstOfPrefix(list[1..], n - 1, user);
    }
  }

  lemma {:induction false} FirstIsLast(list: seq<Mapping>, user: int)
    requires |list| > 0 && list[|list| - 1].user == user && !Mentions(list[..|list| - 1], user)
    ensures First(list, user) == list[|list| - 1]
  {
    if |list| > 1 {
      assert list[0] == list[..|list| - 1][0];
      assert list[1..][|list| - 2].user == user;
      assert list[1..][..|list| - 2] == list[..|list| - 1][1..];
      FirstIsLast(list[1..], user);
    }
  }

  function UnmapStep(s: State, user: int, answer: UnmapAnswer): (State, Status) {
    var calls := if Mentions(s.list, user) then Release(First(s.list, user)) else [];
    if s.list == [] then (s, Success)
    else if Mentions(s.list, user) && answer.returned < 3 then
      (s.(log := s.log + calls[..answer.returned]), Exception)
    else
      var kept := Without(s.list, user);
      if kept != [] && !answer.listAllocated then
        // the array is compacted but neither shortened nor counted down
        (State(kept + s.list[|kept|..], s.log + calls), InsufficientResources)
      else (State(kept, s.log + calls), Success)
  }

  // ----- The driver

  class Helper {
    var alloclist: array<Mapping>
    var alloccount: nat
    var log: seq<Call>

    /** While anything is mapped the block holds exactly `alloccount` entries. */
    ghost predicate Valid()
      reads this
    {
      alloccount > 0 ==> alloclist.Length == alloccount
    }

    ghost function View(): State
      requires Valid()
      reads this, alloclist
    {
      State(if alloccount == 0 then [] else alloclist[..], log)
    }

    constructor ()
      ensures Valid() && View() == State([], [])
    {
      alloclist := new Mapping[0];
      alloccount := 0;
      log := [];
    }

    /** MmFreeNonCachedMemory: the size must be the one the block was allocated with. */
    static method FreeNonCached(block: array<Mapping>, entries: nat)
      requires block.Length == entries
    {}

    /** MapPhysicalMemoryToLinearSpace: `m` is what the kernel hands out if it does. */
    method Map(m: Mapping, answer: MapAnswer) returns (status: Status)
      requires Valid()
      modifies this
      ensures Valid() && (View(), status) == MapStep(old(View()), m, answer)
      ensures status == Success ==> fresh(alloclist)
      ensures status == Success <==> answer.Mapped?
      ensures View().list == old(View()).list + if answer.Mapped? then [m] else []
      ensures status == InvalidParameter <==> answer.NoIoSpace?
      ensures status == Exception <==> answer.Raised?
    {
      var room := Mapping(0, 0, 0, 0);
      match answer {
        case NoIoSpace => return InvalidParameter;
        case Raised(k) =>
          log := log + if k <= 2 then Acquire(m)[..k] else Acquire(m)[..2];
          return Exception;
        case _ =>
      }
      log := log + [MapIoSpace(m.sys, m.size)];
      assert log == old(log) + Acquire(m)[..1];
      if answer.NoMdl? {
        return InsufficientResources;
      }
      log := log + [AllocateMdl(m.mdl)];
      assert log == old(log) + Acquire(m)[..2];
      if answer.NoView? {
        return InsufficientResources;
      }
      log := log + [MapPages(m.user, m.mdl)];
      assert log == old(log) + Acquire(m);
      if answer.NoList? {
        log := log + [UnmapPages(m.user, m.mdl)];
        log := log + [FreeMdl(m.mdl)];
        assert log == old(log) + Acquire(m) + Release(m)[..2];
        return InsufficientResources;
      }
      var tmp := new Mapping[alloccount + 1](_ => room);
      if alloccount > 0 {
        CopyEntries(alloclist, tmp, alloccount);
        FreeNonCached(alloclist, alloccount);
      }
      alloclist := tmp;
      alloclist[alloccount] := m;
      alloccount := alloccount + 1;
      assert alloclist[..] == old(View()).list + [m];
      status := Success;
    }

    static method CopyEntries(from: array<Mapping>, to: array<Mapping>, n: nat)
      requires from != to && n <= from.Length && n <= to.Length
      modifies to
      ensures to[..n] == from[..n]
    {
      var i := 0;
      while i < n
        invariant i <= n && to[..i] == from[..i]
      {
        to[i] := from[i];
        i := i + 1;
      }
    }

    /** The loop of UnmapPhysicalMemory: moves the kept entries down and releases the first
        removed one.  An exception comes before any entry has moved. */
    method Compact(user: int, answer: UnmapAnswer) returns (left: nat, raised: bool)
      requires Valid() && alloccount > 0
      modifies this`log, alloclist
      ensures raised <==> Mentions(old(alloclist[..]), user) && answer.returned < 3
      ensures raised ==> alloclist[..] == old(alloclist[..])
      ensures raised ==> log == old(log) + Release(First(old(alloclist[..]), user))[..answer.returned]
      ensures !raised ==> left == |Without(old(alloclist[..]), user)|
      ensures !raised ==> alloclist[..] == Without(old(alloclist[..]), user) + old(alloclist[..])[left..]
      ensures !raised ==>
                log == old(log) + if Mentions(old(alloclist[..]), user)
                                  then Release(First(old(alloclist[..]), user)) else []
    {
      hide Without, First, Mentions, Release;
      ghost var before, log0 := alloclist[..], log;
      var x := 0;
      left := alloccount;
      ScanStart(before[..0], user);
      var i := 0;
      while i < alloccount
        invariant x <= i <= alloccount == |before| && left == alloccount - (i - x)
        invariant alloclist[..x] == Without(before[..i], user)
        invariant forall k :: x <= k < |before| ==> alloclist[k] == before[k]
        invariant x == i <==> !Mentions(before[..i], user)
        invariant Mentions(before[..i], user) ==> answer.returned >= 3
        invariant log == log0 + if Mentions(before[..i], user) then Release(First(before[..i], user)) else []
      {
        Scanned(before, i, user);
        if alloclist[i].user != user {
          if x != i {
            alloclist[x] := alloclist[i];
          }
          x := x + 1;
        } else {
          if x == i {
            var entry := alloclist[x];
            if answer.returned < 3 {
              log := log + Release(entry)[..answer.returned];
              NothingToRemove(before[..i], user);
              FirstOfPrefix(before, i + 1, user);
              return 0, true;
            }
            log := log + Release(entry);
          }
          left := left - 1;
        }
        i := i + 1;
      }
      assert before[..i] == before;
      raised := false;
    }

    /** UnmapPhysicalMemory */
    method Unmap(user: int, answer: UnmapAnswer) returns (status: Status)
      requires Valid()
      modifies this, alloclist
      ensures Valid() && (View(), status) == UnmapStep(old(View()), user, answer)
      ensures alloclist == old(alloclist) || fresh(alloclist)
    {
      hide Without, First, Mentions, Release;
      if alloccount == 0 {
        return Success;
      }
      ghost var kept := Without(alloclist[..], user);
      var left, raised := Compact(user, answer);
      if raised {
        return Exception;
      }
      if left > 0 {
        if !answer.listAllocated {
          return InsufficientResources;
        }
        var tmp := new Mapping[left](_ => Mapping(0, 0, 0, 0));
        CopyEntries(alloclist, tmp, left);
        FreeNonCached(alloclist, alloccount);
        alloclist := tmp;
        assert alloclist[..] == kept;
      }
      alloccount := left;
      assert View().list == kept;
      status := Success;
    }

    /** The loop of dhahelperunload; `answers(n)` is what the kernel does in round `n`. */
    method Unload(answers: nat -> UnmapAnswer) returns (status: Status)
      requires Valid()
      modifies this, alloclist
      ensures Valid() && (View(), status) == Drain(old(View()), answers, 0)
    {
      hide UnmapStep, Drain;
      status := Success;
      var n := 0;
      while alloccount > 0 && status == Success
        invariant Valid() && (alloclist == old(alloclist) || fresh(alloclist))
        invariant status == Success ==> Drain(View(), answers, n) == Drain(old(View()), answers, 0)
        invariant status != Success ==> (View(), status) == Drain(old(View()), answers, 0)
        decreases if status == Success then alloccount + 1 else 0
      {
        DrainRound(View(), answers, n);
        status := Unmap(alloclist[alloccount - 1].user, answers(n));
        n := n + 1;
      }
      if status == Success {
        DrainEnd(View(), answers, n);
      }
    }
  }

  // ----- Draining the list

  /** Unmapping the last entry until the list is empty or a round fails. */
  function Drain(s: State, answers: nat -> UnmapAnswer, n: nat): (State, Status)
    decreases |s.list|
  {
    if s.list == [] then (s, Success)
    else
      var (t, status) := UnmapStep(s, s.list[|s.list| - 1].user, answers(n));
      LastRemoved(s, answers(n));
      if status == Success then Drain(t, answers, n + 1) else (t, status)
  }

  lemma LastRemoved(s: State, answer: UnmapAnswer)
    requires s.list != []
    ensures var (t, status) := UnmapStep(s, s.list[|s.list| - 1].user, answer);
            status == Success ==> |t.list| < |s.list|
  {
    NothingToRemove(s.list, s.list[|s.list| - 1].user);
  }

  lemma DrainRound(s: State, answers: nat -> UnmapAnswer, n: nat)
    requires s.list != []
    ensures var (t, status) := UnmapStep(s, s.list[|s.list| - 1].user, answers(n));
            && (status == Success ==> |t.list| < |s.list|)
            && Drain(s, answers, n) == if status == Success then Drain(t, answers, n + 1) else (t, status)
  {
    LastRemoved(s, answers(n));
  }

  lemma DrainEnd(s: State, answers: nat -> UnmapAnswer, n: nat)
    requires s.list == []
    ensures Drain(s, answers, n) == (s, Success)
  {}

  // ----- What is acquired and not yet released

  datatype Resource = IoSpace(sys: int, size: nat) | Mdl(mdl: int) | View(user: int, mdl: int)

  /** What one call does to the resources alive. */
  ghost function Effect(alive: multiset<Resource>, call: Call): multiset<Resource> {
    match call
    case MapIoSpace(sys, size) => alive + multiset{IoSpace(sys, size)}
    case AllocateMdl(mdl) => alive + multiset{Mdl(mdl)}
    case MapPages(user, mdl) => alive + multiset{View(user, mdl)}
    case UnmapPages(user, mdl) => alive - multiset{View(user, mdl)}
    case FreeMdl(mdl) => alive - multiset{Mdl(mdl)}
    case UnmapIoSpace(sys, size) => alive - multiset{IoSpace(sys, size)}
  }

  /** The resources a log leaves alive. */
  ghost function Live(log: seq<Call>): multiset<Resource> {
    if log == [] then multiset{} else Effect(Live(log[..|log| - 1]), log[|log| - 1])
  }

  ghost function Resources(m: Mapping): multiset<Resource> {
    multiset{IoSpace(m.sys, m.size), Mdl(m.mdl), View(m.user, m.mdl)}
  }

  /** The resources the entries of a list stand for. */
  ghost function Owned(list: seq<Mapping>): multiset<Resource> {
    if list == [] then multiset{} else Owned(list[..|list| - 1]) + Resources(list[|list| - 1])
  }

  /** Everything alive is listed, and everything listed is alive. */
  ghost predicate Accounted(s: State) {
    Live(s.log) == Owned(s.list)
  }

  lemma LiveAfterOne(log: seq<Call>, call: Call)
    ensures Live(log + [call]) == Effect(Live(log), call)
  {
    assert (log + [call])[..|log|] == log;
  }

  lemma LiveAfterRelease(log: seq<Call>, m: Mapping)
    ensures Live(log + Release(m)[..2]) == Live(log) - multiset{View(m.user, m.mdl)} - multiset{Mdl(m.mdl)}
    ensures Live(log + Release(m)) == Live(log) - Resources(m)
  {
    hide Live;
    var l1 := log + [UnmapPages(m.user, m.mdl)];
    var l2 := l1 + [FreeMdl(m.mdl)];
    assert log + Release(m)[..2] == l2;
    assert log + Release(m) == l2 + [UnmapIoSpace(m.sys, m.size)];
    LiveAfterOne(log, UnmapPages(m.user, m.mdl));
    LiveAfterOne(l1, FreeMdl(m.mdl));
    LiveAfterOne(l2, UnmapIoSpace(m.sys, m.size));
    TakeThree(Live(log), View(m.user, m.mdl), Mdl(m.mdl), IoSpace(m.sys, m.size));
  }

  lemma TakeThree(alive: multiset<Resource>, a: Resource, b: Resource, c: Resource)
    ensures alive - multiset{a} - multiset{b} - multiset{c} == alive - multiset{c, b, a}
  {}

  lemma LiveAfterAcquire(log: seq<Call>, m: Mapping)
    ensures Live(log + Acquire(m)[..1]) == Live(log) + multiset{IoSpace(m.sys, m.size)}
    ensures Live(log + Acquire(m)[..2]) == Live(log) + multiset{IoSpace(m.sys, m.size), Mdl(m.mdl)}
    ensures Live(log + Acquire(m)) == Live(log) + Resources(m)
  {
    hide Live;
    var l1 := log + Acquire(m)[..1];
    var l2 := log + Acquire(m)[..2];
    assert l1 == log + [MapIoSpace(m.sys, m.size)] && l2 == l1 + [AllocateMdl(m.mdl)];
    assert log + Acquire(m) == l2 + [MapPages(m.user, m.mdl)];
    LiveAfterOne(log, MapIoSpace(m.sys, m.size));
    LiveAfterOne(l1, AllocateMdl(m.mdl));
    LiveAfterOne(l2, MapPages(m.user, m.mdl));
  }

  /** What stays alive, and belongs to no entry, when a mapping request fails. */
  function LeftBehind(m: Mapping, answer: MapAnswer): multiset<Resource> {
    match answer
    case Mapped => multiset{}
    case NoIoSpace => multiset{}
    case NoMdl => multiset{IoSpace(m.sys, m.size)}
    case NoView => multiset{IoSpace(m.sys, m.size), Mdl(m.mdl)}
    case Raised(k) =>
      if k == 0 then multiset{}
      else if k == 1 then multiset{IoSpace(m.sys, m.size)}
      else multiset{IoSpace(m.sys, m.size), Mdl(m.mdl)}
    case NoList => multiset{IoSpace(m.sys, m.size)}
  }

  lemma MapLeaves(s: State, m: Mapping, answer: MapAnswer)
    requires Accounted(s)
    ensures var t := MapStep(s, m, answer).0;
            Live(t.log) == Owned(t.list) + LeftBehind(m, answer)
  {
    hide Live, Acquire, Release, Owned;
    LiveAfterAcquire(s.log, m);
    match answer {
      case Mapped => OwnedAfterOne(s.list, m);
      case Raised(k) => assert k == 0 ==> s.log + Acquire(m)[..0] == s.log;
      case NoList =>
        LiveAfterRelease(s.log + Acquire(m), m);
        GiveBackTwo(Live(s.log), m);
      case _ =>
    }
  }

  lemma GiveBackTwo(alive: multiset<Resource>, m: Mapping)
    ensures alive + Resources(m) - multiset{View(m.user, m.mdl)} - multiset{Mdl(m.mdl)}
            == alive + multiset{IoSpace(m.sys, m.size)}
  {}

  lemma OwnedAfterOne(list: seq<Mapping>, m: Mapping)
    ensures Owned(list + [m]) == Owned(list) + Resources(m)
  {
    assert (list + [m])[..|list|] == list;
  }

  /** A mapping request keeps the books exactly when it succeeds or stops before it has
      acquired anything: every later failure leaves something alive that no entry owns. */
  lemma MapAccounts(s: State, m: Mapping, answer: MapAnswer)
    requires Accounted(s)
    ensures Accounted(MapStep(s, m, answer).0)
       <==> answer.Mapped? || answer.NoIoSpace? || (answer.Raised? && answer.acquired == 0)
  {
    hide Live, Owned, MapStep;
    var t := MapStep(s, m, answer).0;
    MapLeaves(s, m, answer);
    BooksByCount(Live(t.log), Owned(t.list));
  }

  ghost function Matches(list: seq<Mapping>, user: int): nat {
    if list == [] then 0 else Matches(list[..|list| - 1], user) + if list[|list| - 1].user == user then 1 else 0
  }

  /** What the entries at one user address own. */
  ghost function OwnedAt(list: seq<Mapping>, user: int): multiset<Resource> {
    if list == [] then multiset{}
    else OwnedAt(list[..|list| - 1], user) + if list[|list| - 1].user == user then Resources(list[|list| - 1])
        else multiset{}
  }

  lemma {:induction false} OwnedSplits(list: seq<Mapping>, user: int)
    ensures Owned(list) == Owned(Without(list, user)) + OwnedAt(list, user)
    ensures |list| == |Without(list, user)| + Matches(list, user)
  {
    hide Resources;
    if list != [] {
      var n := |list| - 1;
      OwnedSplits(list[..n], user);
      OwnedAfterOne(Without(list[..n], user), list[n]);
    }
  }

  lemma {:induction false} OwnedAtFirst(list: seq<Mapping>, user: int)
    ensures |OwnedAt(list, user)| == 3 * Matches(list, user)
    ensures Mentions(list, user) <==> Matches(list, user) > 0
    ensures Mentions(list, user) ==> Resources(First(list, user)) <= OwnedAt(list, user)
  {
    hide Resources, First, Mentions, Without;
    if list == [] {
      ScanStart(list, user);
    } else {
      var n := |list| - 1;
      assert list[..n + 1] == list;
      Scanned(list, n, user);
      OwnedAtFirst(list[..n], user);
      ThreeResources(list[n]);
    }
  }

  lemma ThreeResources(m: Mapping)
    ensures |Resources(m)| == 3
  {}

  /** An unmap that goes through without trouble keeps the books exactly when at most one
      entry has the address: the others leave the list without being released. */
  lemma UnmapAccounts(s: State, user: int)
    requires Accounted(s)
    ensures Accounted(UnmapStep(s, user, SMOOTH).0) <==> Matches(s.list, user) <= 1
  {
    hide Live, Owned, Without, Mentions, First;
    UnmapLeaves(s, user, SMOOTH);
  }

  /** An exception leaves the list as it was, and so keeps the books exactly when it comes
      before anything has been released. */
  lemma FaultAccounts(s: State, user: int, answer: UnmapAnswer)
    requires Accounted(s) && Mentions(s.list, user) && answer.returned < 3
    ensures var (t, status) := UnmapStep(s, user, answer);
            && status == Exception && t.list == s.list
            && (Accounted(t) <==> answer.returned == 0)
  {
    hide Live, Owned, First, Mentions, Resources, Without, Release;
    var m := First(s.list, user);
    ScanStart([], user);
    OwnedSplits(s.list, user);
    OwnedAtFirst(s.list, user);
    ViewOwned(m);
    assert View(m.user, m.mdl) in Live(s.log) by {
      hide OwnedAt;
      assert View(m.user, m.mdl) in OwnedAt(s.list, user);
    }
    PartlyReleased(s.log, m, answer.returned);
  }

  /** The first release call takes the view away, so that the books can no longer balance. */
  lemma PartlyReleased(log: seq<Call>, m: Mapping, calls: nat)
    requires calls < 3 && View(m.user, m.mdl) in Live(log)
    ensures Live(log + Release(m)[..calls]) == Live(log) <==> calls == 0
  {
    hide Live;
    FewerAlive(Live(log), View(m.user, m.mdl), Mdl(m.mdl));
    if calls == 0 {
      assert log + Release(m)[..0] == log;
    } else if calls == 1 {
      LiveAfterOne(log, UnmapPages(m.user, m.mdl));
      assert Release(m)[..1] == [UnmapPages(m.user, m.mdl)];
    } else {
      LiveAfterRelease(log, m);
    }
  }

  /** An unmap that finds no memory for the shorter list has compacted the old one but not counted
      it down, and keeps the books exactly when the address was not in it. */
  lemma NoListAccounts(s: State, user: int, answer: UnmapAnswer)
    requires Accounted(s) && answer.returned >= 3 && !answer.listAllocated && Without(s.list, user) != []
    ensures var (t, status) := UnmapStep(s, user, answer);
            && status == InsufficientResources && |t.list| == |s.list|
            && (Accounted(t) <==> !Mentions(s.list, user))
  {
    hide Live, Owned, First, Mentions, Resources, Without, OwnedAt;
    NothingToRemove(s.list, user);
    ScanStart([], user);
    var t := UnmapStep(s, user, answer).0;
    if Mentions(s.list, user) {
      var m := First(s.list, user);
      LiveAfterRelease(s.log, m);
      OwnedSplits(s.list, user);
      OwnedAtFirst(s.list, user);
      OwnedCount(s.list);
      OwnedCount(t.list);
      ThreeResources(m);
      FewerByThree(Live(s.log), Resources(m));
    } else {
      assert t.list == s.list && t.log == s.log;
    }
  }

  lemma {:induction false} OwnedCount(list: seq<Mapping>)
    ensures |Owned(list)| == 3 * |list|
  {
    if list != [] {
      OwnedCount(list[..|list| - 1]);
      ThreeResources(list[|list| - 1]);
    }
  }

  lemma FewerByThree(alive: multiset<Resource>, released: multiset<Resource>)
    requires released <= alive && |released| == 3
    ensures |alive - released| == |alive| - 3
  {
    assert alive == released + (alive - released);
  }

  lemma ViewOwned(m: Mapping)
    ensures View(m.user, m.mdl) in Resources(m)
  {}

  lemma FewerAlive(alive: multiset<Resource>, a: Resource, b: Resource)
    requires a in alive
    ensures alive - multiset{a} != alive
    ensures alive - multiset{a} - multiset{b} != alive
  {
    assert (alive - multiset{a})[a] < alive[a];
    assert (alive - multiset{a} - multiset{b})[a] < alive[a];
  }

  /** A successful unmap takes the resources of the first match from those alive. */
  lemma UnmapLeaves(s: State, user: int, answer: UnmapAnswer)
    requires Owned(s.list) <= Live(s.log)
    requires UnmapStep(s, user, answer).1 == Success
    ensures var t := UnmapStep(s, user, answer).0;
            && t.list == Without(s.list, user)
            && Owned(t.list) <= Live(t.log)
            && (Live(t.log) == Owned(t.list) <==> Live(s.log) == Owned(s.list) && Matches(s.list, user) <= 1)
  {
    hide Live, Owned, Without, Mentions, First, Resources, Matches, OwnedAt;
    var t := UnmapStep(s, user, answer).0;
    OwnedSplits(s.list, user);
    OwnedAtFirst(s.list, user);
    if Mentions(s.list, user) {
      var m := First(s.list, user);
      LiveAfterRelease(s.log, m);
      ThreeResources(m);
      FirstReleased(Live(s.log), Owned(s.list), Owned(t.list), OwnedAt(s.list, user), Resources(m),
          Matches(s.list, user));
    } else {
      NothingToRemove(s.list, user);
      if s.list == [] {
        ScanStart(s.list, user);
      } else {
        assert s.log + [] == s.log;
      }
    }
  }

  lemma FirstReleased(alive: multiset<Resource>, owned: multiset<Resource>, kept: multiset<Resource>,
                      dropped: multiset<Resource>, released: multiset<Resource>, matches: nat)
    requires owned <= alive && owned == kept + dropped && released <= dropped
    requires |released| == 3 && |dropped| == 3 * matches && matches > 0
    ensures kept <= alive - released
    ensures alive - released == kept <==> alive == owned && matches <= 1
  {
    assert |alive - released| == |alive| - 3;
    BooksByCount(alive, owned);
    BooksByCount(alive - released, kept);
    assert |owned| == |kept| + |dropped|;
    assert |owned| <= |alive| by {
      assert alive == owned + (alive - owned);
    }
  }

  lemma BooksByCount(live: multiset<Resource>, owned: multiset<Resource>)
    ensures owned <= live ==> (live == owned <==> |live| == |owned|)
  {
    if owned <= live && |live| == |owned| {
      assert live == owned + (live - owned);
      assert |live - owned| == 0;
    }
  }

  // ----- Where the books go wrong

  const ONE := Mapping(1, 10, 100, 4096)
  const SAME_ADDRESS := Mapping(2, 20, 100, 4096)
  const OTHER_ADDRESS := Mapping(2, 20, 200, 4096)

  /** Two areas mapped at one user address: unmapping it drops both and releases one. */
  lemma DuplicateAddressLeaks()
    ensures var s := MapStep(MapStep(State([], []), ONE, Mapped).0, SAME_ADDRESS, Mapped).0;
            && Accounted(s) && Matches(s.list, 100) == 2
            && UnmapStep(s, 100, SMOOTH).1 == Success && !Accounted(UnmapStep(s, 100, SMOOTH).0)
  {
    hide Live, Owned, Without;
    var t := MapStep(State([], []), ONE, Mapped).0;
    var s := MapStep(t, SAME_ADDRESS, Mapped).0;
    NothingMapped();
    MapAccounts(State([], []), ONE, Mapped);
    MapAccounts(t, SAME_ADDRESS, Mapped);
    assert s.list == [ONE, SAME_ADDRESS] && s.list[..1] == [ONE] && t.list == [ONE] && t.list[..0] == [];
    assert Matches(t.list, 100) == 1;
    UnmapAccounts(s, 100);
  }

  /** A request for which the list cannot grow keeps its I/O space. */
  lemma FailedAppendLeaks()
    ensures MapStep(State([], []), ONE, NoList).1 == InsufficientResources
    ensures !Accounted(MapStep(State([], []), ONE, NoList).0)
  {
    NothingMapped();
    MapAccounts(State([], []), ONE, NoList);
  }

  /** A fault after the first release call leaves an entry without its view. */
  lemma FaultLeaks()
    ensures var s := MapStep(State([], []), ONE, Mapped).0;
            Accounted(s) && !Accounted(UnmapStep(s, 100, UnmapAnswer(1, true)).0)
  {
    hide Live, Owned;
    var s := MapStep(State([], []), ONE, Mapped).0;
    NothingMapped();
    MapAccounts(State([], []), ONE, Mapped);
    assert s.list[0].user == 100;
    FaultAccounts(s, 100, UnmapAnswer(1, true));
  }

  /** Of two areas the first is unmapped without memory for the shorter list. */
  lemma NoListLeaks()
    ensures var s := MapStep(MapStep(State([], []), ONE, Mapped).0, OTHER_ADDRESS, Mapped).0;
            Accounted(s) && !Accounted(UnmapStep(s, 100, UnmapAnswer(3, false)).0)
  {
    hide Live, Owned;
    var t := MapStep(State([], []), ONE, Mapped).0;
    var s := MapStep(t, OTHER_ADDRESS, Mapped).0;
    NothingMapped();
    MapAccounts(State([], []), ONE, Mapped);
    MapAccounts(t, OTHER_ADDRESS, Mapped);
    assert s.list[0].user == 100 && s.list[1] == OTHER_ADDRESS;
    assert Without(s.list, 100) != [];
    NoListAccounts(s, 100, UnmapAnswer(3, false));
  }

  lemma NothingMapped()
    ensures Accounted(State([], []))
  {}

  // ----- Whole runs

  datatype Op = OpMap(m: Mapping, mapAnswer: MapAnswer) | OpUnmap(user: int, unmapAnswer: UnmapAnswer)

  function Step(s: State, op: Op): State {
    match op
    case OpMap(m, answer) => MapStep(s, m, answer).0
    case OpUnmap(user, answer) => UnmapStep(s, user, answer).0
  }

  function Run(s: State, ops: seq<Op>): State
    decreases |ops|
  {
    if ops == [] then s else Run(Step(s, ops[0]), ops[1..])
  }

  ghost predicate Distinct(list: seq<Mapping>) {
    forall i, j :: 0 <= i < j < |list| ==> list[i].user != list[j].user
  }

  /** The kernel hands out addresses that are not in use, and no request fails half way. */
  ghost predicate Clean(s: State, op: Op) {
    match op
    case OpMap(m, answer) => (answer.Mapped? && !Mentions(s.list, m.user)) || answer.NoIoSpace?
    case OpUnmap(_, answer) => answer == SMOOTH
  }

  ghost predicate CleanRun(s: State, ops: seq<Op>)
    decreases |ops|
  {
    ops == [] || (Clean(s, ops[0]) && CleanRun(Step(s, ops[0]), ops[1..]))
  }

  /** What is kept was there before. */
  lemma {:induction false} KeptWasThere(list: seq<Mapping>, user: int, k: nat)
    requires k < |Without(list, user)|
    ensures exists i :: 0 <= i < |list| && list[i] == Without(list, user)[k]
  {
    var n := |list| - 1;
    if k < |Without(list[..n], user)| {
      KeptWasThere(list[..n], user, k);
      var i :| 0 <= i < n && list[..n][i] == Without(list[..n], user)[k];
      assert list[i] == Without(list, user)[k];
    } else {
      assert list[n] == Without(list, user)[k];
    }
  }

  lemma {:induction false} AtMostOne(list: seq<Mapping>, user: int)
    requires Distinct(list)
    ensures Matches(list, user) <= 1
  {
    if list != [] {
      var n := |list| - 1;
      AtMostOne(list[..n], user);
      if Matches(list[..n], user) > 0 {
        OwnedAtFirst(list[..n], user);
        var i :| 0 <= i < n && list[..n][i].user == user;
        assert list[i].user == user;
      }
    }
  }

  lemma {:induction false} DistinctMatches(list: seq<Mapping>, user: int)
    requires Distinct(list)
    ensures Matches(list, user) <= 1
    ensures Distinct(Without(list, user))
  {
    hide Matches;
    AtMostOne(list, user);
    if list != [] {
      var n := |list| - 1;
      DistinctMatches(list[..n], user);
      forall k | 0 <= k < |Without(list[..n], user)| ensures Without(list[..n], user)[k].user != list[n].user {
        KeptWasThere(list[..n], user, k);
        var i :| 0 <= i < n && list[..n][i] == Without(list[..n], user)[k];
        assert list[i].user == list[..n][i].user;
      }
    }
  }

  lemma StepDistinct(s: State, op: Op)
    requires Distinct(s.list) && Clean(s, op)
    ensures Distinct(Step(s, op).list)
  {
    if op.OpUnmap? {
      DistinctMatches(s.list, op.user);
    }
  }

  /** Over any clean run from the empty driver nothing leaks and nothing is released twice. */
  lemma {:induction false} RunAccounts(s: State, ops: seq<Op>)
    requires Accounted(s) && Distinct(s.list) && CleanRun(s, ops)
    ensures Accounted(Run(s, ops)) && Distinct(Run(s, ops).list)
    decreases |ops|
  {
    hide Accounted, UnmapStep, MapStep, Mentions, Without;
    if ops != [] {
      StepDistinct(s, ops[0]);
      match ops[0] {
        case OpMap(m, answer) => MapAccounts(s, m, answer);
        case OpUnmap(user, answer) =>
          DistinctMatches(s.list, user);
          UnmapAccounts(s, user);
      }
      RunAccounts(Step(s, ops[0]), ops[1..]);
    }
  }

  // ----- What unloading achieves

  function ReleaseBackward(list: seq<Mapping>): seq<Call> {
    if list == [] then [] else Release(list[|list| - 1]) + ReleaseBackward(list[..|list| - 1])
  }

  lemma LastIsUnique(list: seq<Mapping>)
    requires list != [] && Distinct(list)
    ensures var user := list[|list| - 1].user;
            Without(list, user) == list[..|list| - 1] && First(list, user) == list[|list| - 1] && Mentions(list, user)
  {
    var n := |list| - 1;
    assert !Mentions(list[..n], list[n].user);
    NothingToRemove(list[..n], list[n].user);
    FirstIsLast(list, list[n].user);
  }

  /** A drain that ends with success has emptied the list and released every entry once,
      last-mapped first; success and an empty list are the same thing. */
  lemma {:induction false} DrainReleasesAll(s: State, answers: nat -> UnmapAnswer, n: nat)
    requires Distinct(s.list)
    ensures var (t, status) := Drain(s, answers, n);
            && (status == Success <==> t.list == [])
            && (status == Success ==> t.log == s.log + ReleaseBackward(s.list))
    decreases |s.list|
  {
    hide Without, First, Mentions, Release;
    if s.list != [] {
      var last := s.list[|s.list| - 1];
      LastIsUnique(s.list);
      DrainRound(s, answers, n);
      var (t, status) := UnmapStep(s, last.user, answers(n));
      if status == Success {
        DrainReleasesAll(t, answers, n + 1);
        assert s.log + Release(last) + ReleaseBackward(t.list) == s.log + ReleaseBackward(s.list);
      }
    }
  }

  lemma {:induction false} MatchesOfLast(list: seq<Mapping>)
    requires list != []
    ensures var user := list[|list| - 1].user;
            Distinct(list) <==> Matches(list, user) <= 1 && Distinct(Without(list, user))
  {
    var n := |list| - 1;
    var user := list[n].user;
    OwnedAtFirst(list[..n], user);
    NothingToRemove(list[..n], user);
    if Distinct(list) {
      LastIsUnique(list);
      DistinctMatches(list, user);
    }
    if Matches(list, user) <= 1 && Distinct(Without(list, user)) {
      assert Without(list, user) == list[..n];
      forall i, j | 0 <= i < j < |list| ensures list[i].user != list[j].user {
        if j == n {
          assert list[..n][i] == list[i];
        } else {
          assert list[..n][i] == list[i] && list[..n][j] == list[j];
        }
      }
    }
  }

  /** For any books with all entries alive, a successful drain leaves nothing alive exactly
      when nothing else was alive and all user addresses were different. */
  lemma {:induction false} DrainLeavesNothing(s: State, answers: nat -> UnmapAnswer, n: nat)
    requires Owned(s.list) <= Live(s.log)
    requires Drain(s, answers, n).1 == Success
    ensures Live(Drain(s, answers, n).0.log) == multiset{} <==> Accounted(s) && Distinct(s.list)
    decreases |s.list|
  {
    if s.list != [] {
      var user := s.list[|s.list| - 1].user;
      DrainRound(s, answers, n);
      UnmapLeaves(s, user, answers(n));
      MatchesOfLast(s.list);
      DrainLeavesNothing(UnmapStep(s, user, answers(n)).0, answers, n + 1);
    }
  }

  /** From load to unload: after any clean run, an unload that succeeds leaves nothing alive. */
  lemma CleanLifeLeavesNothing(ops: seq<Op>, answers: nat -> UnmapAnswer)
    requires CleanRun(State([], []), ops)
    requires Drain(Run(State([], []), ops), answers, 0).1 == Success
    ensures Live(Drain(Run(State([], []), ops), answers, 0).0.log) == multiset{}
  {
    RunAccounts(State([], []), ops);
    DrainLeavesNothing(Run(State([], []), ops), answers, 0);
  }

  // ----- From the first mapping to the end of the unload

  /** Each release call undoes one acquiring call, the last one first. */
  lemma ReleaseUndoesAcquire(m: Mapping, alive: multiset<Resource>, k: nat)
    requires k < 3
    ensures Effect(Effect(alive, Acquire(m)[2 - k]), Release(m)[k]) == alive
  {}

  /** Whatever was mapped last is the first thing an unload releases. */
  lemma NewestFirst(s: State, m: Mapping, answers: nat -> UnmapAnswer)
    requires Distinct(s.list) && !Mentions(s.list, m.user)
    requires Drain(MapStep(s, m, Mapped).0, answers, 0).1 == Success
    ensures s.log + [MapIoSpace(m.sys, m.size), AllocateMdl(m.mdl), MapPages(m.user, m.mdl)]
                  + [UnmapPages(m.user, m.mdl), FreeMdl(m.mdl), UnmapIoSpace(m.sys, m.size)]
            <= Drain(MapStep(s, m, Mapped).0, answers, 0).0.log
  {
    hide Drain, Mentions;
    var t := MapStep(s, m, Mapped).0;
    DistinctExtends(s.list, m);
    assert t.list[..|t.list| - 1] == s.list;
    DrainReleasesAll(t, answers, 0);
    assert s.log + Acquire(m) + (Release(m) + ReleaseBackward(s.list))
           == s.log + Acquire(m) + Release(m) + ReleaseBackward(s.list);
  }

  lemma DistinctExtends(list: seq<Mapping>, m: Mapping)
    requires Distinct(list) && !Mentions(list, m.user)
    ensures Distinct(list + [m])
  {
    forall i, j | 0 <= i < j < |list + [m]| ensures (list + [m])[i].user != (list + [m])[j].user {
      assert list[i].user != m.user;
    }
  }

  /** A run of requests that all succeed. */
  function Requests(ms: seq<Mapping>): seq<Op> {
    seq(|ms|, i requires 0 <= i < |ms| => OpMap(ms[i], Mapped))
  }

  function Acquired(ms: seq<Mapping>): seq<Call> {
    if ms == [] then [] else Acquire(ms[0]) + Acquired(ms[1..])
  }

  lemma {:induction false} RequestsAppend(s: State, ms: seq<Mapping>)
    ensures Run(s, Requests(ms)) == State(s.list + ms, s.log + Acquired(ms))
    ensures |Acquired(ms)| == 3 * |ms|
    decreases |ms|
  {
    hide Acquire;
    if ms == [] {
      assert s.list + ms == s.list && s.log + Acquired(ms) == s.log;
    } else {
      var t := MapStep(s, ms[0], Mapped).0;
      RequestsAppend(t, ms[1..]);
      assert Requests(ms)[1..] == Requests(ms[1..]);
      assert t.list + ms[1..] == s.list + ms;
      assert t.log + Acquired(ms[1..]) == s.log + Acquired(ms);
      AcquireThree(ms[0]);
    }
  }

  lemma AcquireThree(m: Mapping)
    ensures |Acquire(m)| == 3
  {}

  lemma {:induction false} BackwardAt(list: seq<Mapping>, k: nat)
    requires k < |list|
    ensures |ReleaseBackward(list)| == 3 * |list|
    ensures ReleaseBackward(list)[3 * k..3 * k + 3] == Release(list[|list| - 1 - k])
  {
    hide Release;
    var front := list[..|list| - 1];
    if k > 0 {
      BackwardAt(front, k - 1);
      assert ReleaseBackward(list)[3 * k..3 * k + 3] == ReleaseBackward(front)[3 * (k - 1)..3 * (k - 1) + 3];
    } else {
      BackwardLength(front);
    }
  }

  lemma {:induction false} BackwardLength(list: seq<Mapping>)
    ensures |ReleaseBackward(list)| == 3 * |list|
  {
    if list != [] {
      BackwardLength(list[..|list| - 1]);
    }
  }

  /** From load to unload: after requests for `ms` with different addresses, an unload that
      succeeds has released them in the opposite order, three calls for each. */
  lemma LoadMapUnload(ms: seq<Mapping>, answers: nat -> UnmapAnswer, k: nat)
    requires Distinct(ms) && k < |ms|
    requires Drain(Run(State([], []), Requests(ms)), answers, 0).1 == Success
    ensures var log, m := Drain(Run(State([], []), Requests(ms)), answers, 0).0.log, ms[|ms| - 1 - k];
            && |log| == 6 * |ms|
            && log[3 * |ms| + 3 * k..3 * |ms| + 3 * k + 3]
               == [UnmapPages(m.user, m.mdl), FreeMdl(m.mdl), UnmapIoSpace(m.sys, m.size)]
  {
    hide Drain, Run, Requests, ReleaseBackward, Acquired;
    RequestsAppend(State([], []), ms);
    var t := State(ms, Acquired(ms));
    assert [] + ms == ms && [] + Acquired(ms) == Acquired(ms);
    DrainReleasesAll(t, answers, 0);
    BackwardAt(ms, k);
    SliceBehind(Acquired(ms), ReleaseBackward(ms), 3 * k, 3 * k + 3);
    hide Distinct;
  }

  lemma SliceBehind(a: seq<Call>, b: seq<Call>, i: nat, j: nat)
    requires i <= j <= |b|
    ensures (a + b)[|a| + i..|a| + j] == b[i..j]
  {}

  // ----- Removal as a filter

  /** An untroubled unmap takes the first entry at the address out, with its three release calls,
      and drops what else has the address from behind it. */
  lemma UnmapSplits(s: State, a: seq<Mapping>, m: Mapping, b: seq<Mapping>)
    requires s.list == a + [m] + b && !Mentions(a, m.user)
    ensures UnmapStep(s, m.user, SMOOTH).1 == Success
    ensures UnmapStep(s, m.user, SMOOTH).0.list == a + Without(b, m.user)
    ensures UnmapStep(s, m.user, SMOOTH).0.log
            == s.log + [UnmapPages(m.user, m.mdl), FreeMdl(m.mdl), UnmapIoSpace(m.sys, m.size)]
  {
    hide Without, Mentions, First;
    NothingToRemove(a, m.user);
    WithoutConcat(a + [m], b, m.user);
    var n := |a|;
    assert s.list[..n] == a && s.list[..n + 1] == a + [m] && s.list[n] == m;
    Scanned(s.list, n, m.user);
    FirstOfPrefix(s.list, n + 1, m.user);
    assert a + [] == a;
  }

  /** Every outcome for an address that one entry has: a fault keeps the list and the calls that
      had returned; without memory for a shorter list the last entry stands there twice. */
  lemma UnmapOutcomes(s: State, a: seq<Mapping>, m: Mapping, b: seq<Mapping>, answer: UnmapAnswer)
    requires s.list == a + [m] + b && !Mentions(a, m.user) && !Mentions(b, m.user)
    ensures var (t, status) := UnmapStep(s, m.user, answer);
            var calls := [UnmapPages(m.user, m.mdl), FreeMdl(m.mdl), UnmapIoSpace(m.sys, m.size)];
            if answer.returned < 3 then
              status == Exception && t.list == s.list && t.log == s.log + calls[..answer.returned]
            else if a + b != [] && !answer.listAllocated then
              status == InsufficientResources && t.list == a + b + [s.list[|s.list| - 1]] && t.log == s.log + calls
            else status == Success && t.list == a + b && t.log == s.log + calls
  {
    hide Without, Mentions, First;
    UnmapSplits(s, a, m, b);
    NothingToRemove(b, m.user);
    var n := |a|;
    assert s.list[..n + 1] == a + [m] && s.list[..n] == a && s.list[n] == m && s.list[..|s.list|] == s.list;
    Scanned(s.list, n, m.user);
    FirstOfPrefix(s.list, n + 1, m.user);
    assert Without(s.list, m.user) == a + b;
    assert s.list[|a + b|..] == [s.list[|s.list| - 1]];
  }

  /** For an address that is not listed nothing is released and the list stays as it is. */
  lemma AbsentAddress(s: State, user: int, answer: UnmapAnswer)
    requires !Mentions(s.list, user)
    ensures UnmapStep(s, user, answer).0 == s
    ensures UnmapStep(s, user, answer).1
            == if s.list != [] && !answer.listAllocated then InsufficientResources else Success
  {
    NothingToRemove(s.list, user);
    hide Mentions, Without;
    assert s.log + [] == s.log && s.list + s.list[|s.list|..] == s.list;
  }

  lemma {:induction false} WithoutConcat(a: seq<Mapping>, b: seq<Mapping>, user: int)
    ensures Without(a + b, user) == Without(a, user) + Without(b, user)
  {
    if b == [] {
      assert a + b == a;
    } else {
      var n := |b| - 1;
      assert (a + b)[..|a + b| - 1] == a + b[..n];
      WithoutConcat(a, b[..n], user);
    }
  }
}
