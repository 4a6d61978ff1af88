/**
 `map_page` (src/memory.rs) and `init_heap` (src/allocator.rs) over one frame allocator:
 what they add to the address space, what they leave alone, and what they cost.
 */
module Heap {
  import opened Common
  import opened Frames
  import opened Paging

  const HEAP_START: nat := 0x4444_4444_0000
  const HEAP_SIZE: nat := 100 * 1024

  /** First page of `Page::range_inclusive` over the heap, and how many there are. */
  const HEAP_PAGE: nat := 0x4_4444_4440
  const HEAP_PAGES: nat := 25

  /** They are the pages of the first and of the last heap byte. */
  lemma HeapPageRange()
    ensures HEAP_PAGE == HEAP_START / FRAME_SIZE
    ensures HEAP_PAGE + HEAP_PAGES - 1 == (HEAP_START + HEAP_SIZE - 1) / FRAME_SIZE
  {
  }

  ghost predicate Usable(root: nat, m: Memory) {
    Sound(m.tables) && root in m.tables
  }

  /** The tables form a tree, and the frames still to be handed out are distinct and hold no table. */
  ghost predicate Ready(frames: seq<nat>, root: nat, m: Memory) {
    Usable(root, m) && WellFormed(m.tables, root) && FreshFrames(frames, m)
  }

  lemma MapPageKeepsReady(frames: seq<nat>, root: nat, m: Memory, page: nat)
    requires Ready(frames, root, m) && page < Span(4)
    ensures Ready(frames, root, m.(next := m.next + 1))
    ensures m.next < |frames| ==>
              Ready(frames, root, MapFrom(frames, m.(next := m.next + 1), root, 4, page, frames[m.next]).0)
  {
    if m.next < |frames| {
      var place :| Labelled(m.tables, root, place);
      assert page / Span(4) == 0;
      var _ := MapFromKeepsTree(frames, m.(next := m.next + 1), root, 4, page, frames[m.next], root, place);
    }
  }

  ghost function AfterMapPage(frames: seq<nat>, root: nat, m: Memory, page: nat): (r: (Memory, MapResult))
    requires Ready(frames, root, m) && page < Span(4)
    ensures Ready(frames, root, r.0)
    ensures r.1 == Ok ==> m.next < |frames|
  {
    MapPageKeepsReady(frames, root, m, page);
    match Nth(frames, m.next)
    case None => (m.(next := m.next + 1), FrameAllocationFailed)
    case Some(data) => MapFrom(frames, m.(next := m.next + 1), root, 4, page, data)
  }

  /** What the bootloader hands over is ready: disjoint usable regions, and no table in any of them. */
  lemma BootIsReady(regions: MemoryMap, root: nat, tables: Tables)
    requires Disjoint(regions) && WellFormed(tables, root)
    requires forall f :: f in tables ==> !InUsable(regions, f)
    ensures Ready(UsableFrames(regions), root, Memory(tables, 0))
  {
    var frames := UsableFrames(regions);
    UsableFramesDistinct(regions);
    var place :| Labelled(tables, root, place);
    LabelledIsSound(tables, root, place);
    forall k | 0 <= k < |frames|
      ensures frames[k] !in tables
    {
      UsableFramesMembers(regions, frames[k]);
    }
  }

  /** A frame taken from the allocator over a memory map lies in a usable region of it. */
  lemma TakenIsUsable(regions: MemoryMap, lo: nat, hi: nat, frame: nat)
    requires TakenBetween(UsableFrames(regions), lo, hi, frame)
    ensures InUsable(regions, frame)
  {
    UsableFramesMembers(regions, frame);
  }

  // -------------------------------------------- what a call adds to the space

  /** The walk for a page, from the root. */
  ghost function Walk(root: nat, m: Memory, page: nat): Option<Mapping>
    requires Usable(root, m)
  {
    Lookup(m.tables, root, 4, page)
  }

  /** The walk for a page, with the entries it shares with walks for `pages` made writable. */
  ghost function OpenedWalk(root: nat, m: Memory, pages: set<nat>, page: nat): Option<Mapping>
    requires Usable(root, m)
  {
    Opened(m.tables, root, 4, pages, page)
  }

  lemma OpenedWalkFacts(root: nat, m: Memory, pages: set<nat>, page: nat)
    requires Usable(root, m)
    ensures OpenedWalk(root, m, {}, page) == Walk(root, m, page)
    ensures Unmoved(Walk(root, m, page), OpenedWalk(root, m, pages, page))
  {
    OpenedNone(m.tables, root, 4, page);
    OpenedIsUnmoved(m.tables, root, 4, pages, page);
  }

  /** The page's walk in `m'` is its walk in `m` with the entries shared with `pages` opened. */
  ghost predicate OpensBy(root: nat, m: Memory, m': Memory, pages: set<nat>, page: nat)
    requires Usable(root, m) && Usable(root, m')
  {
    forall more :: OpenedWalk(root, m', more, page) == OpenedWalk(root, m, more + pages, page)
  }

  /** What a call changes: the pages it maps, and the pages whose walks it makes writable above level 1. */
  datatype Change = Change(added: map<nat, nat>, raised: set<nat>) {
    function Then(next: Change): Change {
      Change(added + next.added, raised + next.raised)
    }
  }

  const NoChange := Change(map[], {})

  ghost predicate PageChanged(root: nat, m: Memory, m': Memory, c: Change, page: nat)
    requires Usable(root, m) && Usable(root, m')
  {
    if page in c.added
    then Walk(root, m, page) == None && Walk(root, m', page) == Some(Mapping(c.added[page], 1, true, false))
    else OpensBy(root, m, m', c.raised, page)
  }

  /** A page that is not added leads where it led, and its permissions are the opened ones. */
  lemma NotAdded(root: nat, m: Memory, m': Memory, c: Change, page: nat)
    requires Usable(root, m) && Usable(root, m') && PageChanged(root, m, m', c, page) && page !in c.added
    ensures Walk(root, m', page) == OpenedWalk(root, m, c.raised, page)
    ensures Unmoved(Walk(root, m, page), Walk(root, m', page))
  {
    OpenedWalkFacts(root, m', {}, page);
    OpenedWalkFacts(root, m, c.raised, page);
    assert {} + c.raised == c.raised;
    assert OpenedWalk(root, m', {}, page) == OpenedWalk(root, m, {} + c.raised, page);
  }

  /** The frame was taken between the two moments, and no page table stands in it. */
  ghost predicate FrameTaken(frames: seq<nat>, m: Memory, m': Memory, frame: nat) {
    TakenBetween(frames, m.next, m'.next, frame) && frame !in m'.tables
  }

  /**
   Exactly the pages of `added`, unmapped before, are mapped now: writable, not for user
   code, each to its own frame taken in between that is not a page table.  Every other
   page leads where it led, its write permission being that of the opened walk.
   */
  ghost predicate Changes(frames: seq<nat>, root: nat, m: Memory, m': Memory, c: Change)
    requires Usable(root, m) && Usable(root, m')
  {
    && m.next <= m'.next
    && (forall page :: page in c.added ==> page < Span(4) && FrameTaken(frames, m, m', c.added[page]))
    && (forall p, q :: p in c.added && q in c.added && p != q ==> c.added[p] != c.added[q])
    && (forall page: nat :: page < Span(4) ==> PageChanged(root, m, m', c, page))
    && (forall h :: h in m'.tables ==> h in m.tables || TakenBetween(frames, m.next, m'.next, h))
  }

  /** On success the page is added; a call that got its data frame opens the page's walk in any case. */
  ghost function MapPageChange(frames: seq<nat>, root: nat, m: Memory, page: nat): Change
    requires Ready(frames, root, m) && page < Span(4)
  {
    Change(if AfterMapPage(frames, root, m, page).1 == Ok then map[page := frames[m.next]] else map[],
           if m.next < |frames| then {page} else {})
  }

  lemma NotTakenTwice(frames: seq<nat>, k: nat, lo: nat, hi: nat)
    requires Distinct(frames) && k < lo && k < |frames|
    ensures !TakenBetween(frames, lo, hi, frames[k])
  {
  }

  lemma MapPageChangesPage(frames: seq<nat>, root: nat, m: Memory, page: nat, other: nat)
    requires Ready(frames, root, m) && page < Span(4) && other < Span(4) && m.next < |frames|
    ensures PageChanged(root, m, AfterMapPage(frames, root, m, page).0, MapPageChange(frames, root, m, page), other)
  {
    hide Sound, Lookup, End, MapFrom, Opened;
    var place :| Labelled(m.tables, root, place);
    var (m', r) := AfterMapPage(frames, root, m, page);
    var data, m1 := frames[m.next], m.(next := m.next + 1);
    assert page / Span(4) == 0;
    if other == page && r == Ok {
      MapFromHits(frames, m1, root, 4, page, data, root, place);
      MapFromOutcome(frames, m1, root, 4, page, data, root, place);
      GapIsUnmapped(m.tables, root, place, root, 4, page);
    } else {
      forall more
        ensures OpenedWalk(root, m', more, other) == OpenedWalk(root, m, more + {page}, other)
      {
        MapFromOpens(frames, m1, page, data, root, place, more, other);
      }
    }
  }

  /** The data frame is taken and stays no table; new tables stand in frames taken after it. */
  lemma MapPageTakes(frames: seq<nat>, root: nat, m: Memory, page: nat)
    requires Ready(frames, root, m) && page < Span(4) && m.next < |frames|
    ensures var m' := AfterMapPage(frames, root, m, page).0;
            && m.next < m'.next
            && FrameTaken(frames, m, m', frames[m.next])
            && (forall h :: h in m'.tables ==> h in m.tables || TakenBetween(frames, m.next, m'.next, h))
  {
    hide Sound, Lookup, End, MapFrom;
    var m1, m' := m.(next := m.next + 1), AfterMapPage(frames, root, m, page).0;
    var place :| Labelled(m.tables, root, place);
    assert page / Span(4) == 0;
    var place' := MapFromKeepsTree(frames, m1, root, 4, page, frames[m.next], root, place);
    NewTablesFrom(frames, m, m1, m');
    NotTakenTwice(frames, m.next, m1.next, m'.next);
    assert frames[m.next] !in m.tables;
  }

  /**
   A `map_page` that succeeds adds its page and nothing else; one that fails adds nothing.
   The walks of all other pages, and after a failure of the page itself, are opened along
   the page's walk if a data frame was left, and untouched if not.
   */
  lemma MapPageEffect(frames: seq<nat>, root: nat, m: Memory, page: nat)
    requires Ready(frames, root, m) && page < Span(4)
    ensures var m' := AfterMapPage(frames, root, m, page).0;
            && Ready(frames, root, m')
            && Changes(frames, root, m, m', MapPageChange(frames, root, m, page))
  {
    hide Sound, Lookup, End, MapFrom, PageChanged, FrameTaken, WellFormed, FreshFrames;
    var (m', r) := AfterMapPage(frames, root, m, page);
    var c := MapPageChange(frames, root, m, page);
    if m.next < |frames| {
      forall other: nat | other < Span(4)
        ensures PageChanged(root, m, m', c, other)
      {
        MapPageChangesPage(frames, root, m, page, other);
      }
      MapPageTakes(frames, root, m, page);
    } else {
      forall other: nat | other < Span(4)
        ensures PageChanged(root, m, m', c, other)
      {
        UntouchedPage(root, m, m', other);
      }
    }
  }

  lemma UntouchedPage(root: nat, m: Memory, m': Memory, page: nat)
    requires Usable(root, m) && Usable(root, m') && m.tables == m'.tables
    ensures PageChanged(root, m, m', NoChange, page)
  {
    forall more: set<nat>
      ensures OpenedWalk(root, m', more, page) == OpenedWalk(root, m, more + {}, page)
    {
      assert more + {} == more;
    }
  }

  /** Taking the data frame first only widens the interval the tables come from. */
  lemma NewTablesFrom(frames: seq<nat>, m: Memory, m1: Memory, m': Memory)
    requires m.next <= m1.next && m1.tables == m.tables
    requires forall h :: h in m'.tables ==> h in m1.tables || TakenBetween(frames, m1.next, m'.next, h)
    ensures forall h :: h in m'.tables ==> h in m.tables || TakenBetween(frames, m.next, m'.next, h)
  {
    forall h | h in m'.tables && h !in m.tables
      ensures TakenBetween(frames, m.next, m'.next, h)
    {
      var k :| m1.next <= k < m'.next && k < |frames| && h == frames[k];
      assert m.next <= k;
    }
  }

  lemma TakenWidens(frames: seq<nat>, lo: nat, lo': nat, hi: nat, hi': nat, h: nat)
    requires lo' <= lo && hi <= hi' && TakenBetween(frames, lo, hi, h)
    ensures TakenBetween(frames, lo', hi', h)
  {
    var k :| lo <= k < hi && k < |frames| && h == frames[k];
    assert lo' <= k < hi';
  }

  lemma ChangesNothing(frames: seq<nat>, root: nat, m: Memory)
    requires Usable(root, m)
    ensures Changes(frames, root, m, m, NoChange)
  {
    forall page: nat | page < Span(4)
      ensures PageChanged(root, m, m, NoChange, page)
    {
      UntouchedPage(root, m, m, page);
    }
  }

  lemma OpensByTrans(root: nat, m: Memory, m1: Memory, m2: Memory, a: set<nat>, b: set<nat>, page: nat)
    requires Usable(root, m) && Usable(root, m1) && Usable(root, m2)
    requires OpensBy(root, m, m1, a, page) && OpensBy(root, m1, m2, b, page)
    ensures OpensBy(root, m, m2, a + b, page)
  {
    forall more: set<nat>
      ensures OpenedWalk(root, m2, more, page) == OpenedWalk(root, m, more + (a + b), page)
    {
      assert OpenedWalk(root, m2, more, page) == OpenedWalk(root, m1, more + b, page);
      assert OpenedWalk(root, m1, more + b, page) == OpenedWalk(root, m, more + b + a, page);
      assert more + b + a == more + (a + b);
    }
  }

  lemma PageChangedTrans(root: nat, m: Memory, m1: Memory, m2: Memory, a: Change, b: Change, page: nat)
    requires Usable(root, m) && Usable(root, m1) && Usable(root, m2)
    requires PageChanged(root, m, m1, a, page) && PageChanged(root, m1, m2, b, page)
    ensures PageChanged(root, m, m2, a.Then(b), page)
    ensures !(page in a.added && page in b.added)
  {
    hide Lookup, Opened, Sound;
    if page !in a.added {
      NotAdded(root, m, m1, a, page);
    }
    if page !in b.added {
      NotAdded(root, m1, m2, b, page);
    }
    if page !in a.added && page !in b.added {
      OpensByTrans(root, m, m1, m2, a.raised, b.raised, page);
    }
  }

  lemma FramesStayApart(frames: seq<nat>, root: nat, m: Memory, m1: Memory, m2: Memory, a: Change, b: Change, p: nat)
    requires Usable(root, m) && Usable(root, m1) && Usable(root, m2) && Distinct(frames)
    requires Changes(frames, root, m, m1, a) && Changes(frames, root, m1, m2, b) && p in a.added
    ensures FrameTaken(frames, m, m2, a.added[p])
    ensures forall q :: q in b.added ==> a.added[p] != b.added[q]
  {
    hide PageChanged, Sound;
    var k :| m.next <= k < m1.next && k < |frames| && a.added[p] == frames[k];
    NotTakenTwice(frames, k, m1.next, m2.next);
    TakenWidens(frames, m.next, m.next, m1.next, m2.next, a.added[p]);
    forall q | q in b.added
      ensures a.added[p] != b.added[q]
    {
      assert FrameTaken(frames, m1, m2, b.added[q]);
    }
  }

  /** Changes of consecutive calls add up. */
  lemma ChangesTrans(frames: seq<nat>, root: nat, m: Memory, m1: Memory, m2: Memory, a: Change, b: Change)
    requires Usable(root, m) && Usable(root, m1) && Usable(root, m2) && Distinct(frames)
    requires Changes(frames, root, m, m1, a) && Changes(frames, root, m1, m2, b)
    ensures Changes(frames, root, m, m2, a.Then(b))
    ensures a.added.Keys !! b.added.Keys
  {
    hide PageChanged, Sound;
    forall page: nat | page < Span(4)
      ensures PageChanged(root, m, m2, a.Then(b), page) && !(page in a.added && page in b.added)
    {
      PageChangedTrans(root, m, m1, m2, a, b, page);
    }
    forall p | p in a.added
      ensures FrameTaken(frames, m, m2, a.added[p]) && forall q :: q in b.added ==> a.added[p] != b.added[q]
    {
      FramesStayApart(frames, root, m, m1, m2, a, b, p);
    }
    forall p | p in b.added
      ensures FrameTaken(frames, m, m2, b.added[p])
    {
      TakenWidens(frames, m1.next, m.next, m2.next, m2.next, b.added[p]);
    }
    forall h | h in m2.tables && h !in m.tables
      ensures TakenBetween(frames, m.next, m2.next, h)
    {
      if h in m1.tables {
        TakenWidens(frames, m.next, m.next, m1.next, m2.next, h);
      } else {
        TakenWidens(frames, m1.next, m.next, m2.next, m2.next, h);
      }
    }
  }

  lemma ReadyDistinct(frames: seq<nat>, root: nat, m: Memory)
    requires Ready(frames, root, m)
    ensures Distinct(frames)
  {
  }

  // -------------------------------------------------------------- init_heap

  /** The loop of `init_heap` from its `k`-th page on. */
  ghost function HeapFrom(frames: seq<nat>, root: nat, m: Memory, k: nat): (r: (Memory, MapResult))
    requires Ready(frames, root, m)
    ensures Ready(frames, root, r.0)
    decreases HEAP_PAGES - k, m.next
  {
    if k >= HEAP_PAGES then (m, Ok)
    else
      var (m1, r) := AfterMapPage(frames, root, m, HEAP_PAGE + k);
      if r == Ok then HeapFrom(frames, root, m1, k + 1) else (m1, r)
  }

  ghost function AfterInitHeap(frames: seq<nat>, root: nat, m: Memory): (r: (Memory, MapResult))
    requires Ready(frames, root, m)
    ensures Ready(frames, root, r.0)
  {
    HeapFrom(frames, root, m, 0)
  }

  /** What the loop changes, page by page. */
  ghost function HeapChange(frames: seq<nat>, root: nat, m: Memory, k: nat): Change
    requires Ready(frames, root, m)
    decreases HEAP_PAGES - k, m.next
  {
    if k >= HEAP_PAGES then NoChange
    else
      var (m1, r) := AfterMapPage(frames, root, m, HEAP_PAGE + k);
      var c := MapPageChange(frames, root, m, HEAP_PAGE + k);
      if r == Ok then c.Then(HeapChange(frames, root, m1, k + 1)) else c
  }

  lemma {:induction false} HeapFromEffect(frames: seq<nat>, root: nat, m: Memory, k: nat)
    requires Ready(frames, root, m)
    ensures var m' := HeapFrom(frames, root, m, k).0;
            && Ready(frames, root, m')
            && Changes(frames, root, m, m', HeapChange(frames, root, m, k))
    decreases HEAP_PAGES - k
  {
    hide Sound, WellFormed, FreshFrames, Lookup, MapFrom, AfterMapPage, Walk, Changes;
    if k >= HEAP_PAGES {
      ChangesNothing(frames, root, m);
    } else {
      MapPageEffect(frames, root, m, HEAP_PAGE + k);
      var (m1, r) := AfterMapPage(frames, root, m, HEAP_PAGE + k);
      if r == Ok {
        ReadyDistinct(frames, root, m);
        HeapFromEffect(frames, root, m1, k + 1);
        var m2 := HeapFrom(frames, root, m1, k + 1).0;
        ChangesTrans(frames, root, m, m1, m2,
                  MapPageChange(frames, root, m, HEAP_PAGE + k), HeapChange(frames, root, m1, k + 1));
      }
    }
  }

  // ------------------------------------------------------ whole runs of calls

  datatype Call = MapCall(page: nat) | HeapCall

  ghost predicate InSpace(calls: seq<Call>) {
    forall i :: 0 <= i < |calls| && calls[i].MapCall? ==> calls[i].page < Span(4)
  }

  ghost function Perform(frames: seq<nat>, root: nat, m: Memory, call: Call): (r: (Memory, MapResult))
    requires Ready(frames, root, m) && (call.MapCall? ==> call.page < Span(4))
    ensures Ready(frames, root, r.0)
  {
    match call
    case MapCall(page) => AfterMapPage(frames, root, m, page)
    case HeapCall => AfterInitHeap(frames, root, m)
  }

  /** What a call changes, by its result. */
  ghost function CallChange(frames: seq<nat>, root: nat, m: Memory, call: Call): Change
    requires Ready(frames, root, m) && (call.MapCall? ==> call.page < Span(4))
  {
    match call
    case MapCall(page) => MapPageChange(frames, root, m, page)
    case HeapCall => HeapChange(frames, root, m, 0)
  }

  ghost function PerformAll(frames: seq<nat>, root: nat, m: Memory, calls: seq<Call>): (r: Memory)
    requires Ready(frames, root, m) && InSpace(calls)
    ensures Ready(frames, root, r)
    decreases calls
  {
    if calls == [] then m
    else PerformAll(frames, root, Perform(frames, root, m, calls[0]).0, calls[1..])
  }

  ghost function AllChanges(frames: seq<nat>, root: nat, m: Memory, calls: seq<Call>): Change
    requires Ready(frames, root, m) && InSpace(calls)
    decreases calls
  {
    if calls == [] then NoChange
    else
      CallChange(frames, root, m, calls[0])
        .Then(AllChanges(frames, root, Perform(frames, root, m, calls[0]).0, calls[1..]))
  }

  lemma {:induction false} RunChanges(frames: seq<nat>, root: nat, m: Memory, calls: seq<Call>)
    requires Ready(frames, root, m) && InSpace(calls)
    ensures var m' := PerformAll(frames, root, m, calls);
            Changes(frames, root, m, m', AllChanges(frames, root, m, calls))
    decreases calls
  {
    if calls == [] {
      ChangesNothing(frames, root, m);
    } else {
      ReadyDistinct(frames, root, m);
      match calls[0] {
        case MapCall(page) => MapPageEffect(frames, root, m, page);
        case HeapCall => HeapFromEffect(frames, root, m, 0);
      }
      var m1 := Perform(frames, root, m, calls[0]).0;
      RunChanges(frames, root, m1, calls[1..]);
      ChangesTrans(frames, root, m, m1, PerformAll(frames, root, m1, calls[1..]),
                CallChange(frames, root, m, calls[0]), AllChanges(frames, root, m1, calls[1..]));
    }
  }

  lemma TranslateUnmoved(root: nat, m: Memory, m': Memory, c: Change, addr: nat)
    requires Usable(root, m) && Usable(root, m') && PageChanged(root, m, m', c, addr / FRAME_SIZE)
    ensures TranslateAddr(m'.tables, root, addr)
         == if addr / FRAME_SIZE in c.added then Some(c.added[addr / FRAME_SIZE] * FRAME_SIZE + addr % FRAME_SIZE)
            else TranslateAddr(m.tables, root, addr)
  {
    if addr / FRAME_SIZE !in c.added {
      NotAdded(root, m, m', c, addr / FRAME_SIZE);
    }
    TranslationKeepsOffset(m'.tables, root, addr);
  }

  /**
   For every sequence of `map_page` and `init_heap` calls over one allocator, translation
   through the tables agrees with the plain map of the pages those calls added, over the
   translation found at the start.
   */
  lemma TranslationIsPlainMap(frames: seq<nat>, root: nat, m: Memory, calls: seq<Call>, addr: nat)
    requires Ready(frames, root, m) && InSpace(calls) && addr / FRAME_SIZE < Span(4)
    ensures var m', added := PerformAll(frames, root, m, calls), AllChanges(frames, root, m, calls).added;
            var page := addr / FRAME_SIZE;
            && TranslateAddr(m'.tables, root, addr)
               == if page in added then Some(added[page] * FRAME_SIZE + addr % FRAME_SIZE)
                  else TranslateAddr(m.tables, root, addr)
  {
    hide Sound, WellFormed, FreshFrames, Lookup, PerformAll, AllChanges, TranslateAddr;
    RunChanges(frames, root, m, calls);
    var m', c := PerformAll(frames, root, m, calls), AllChanges(frames, root, m, calls);
    assert PageChanged(root, m, m', c, addr / FRAME_SIZE);
    TranslateUnmoved(root, m, m', c, addr);
  }

  /**
   After every such sequence, the walk of a page that was not added is the walk it had
   at the start, with every entry above level 1 that it shares with the walk of a page
   asked for (while a data frame was left) made writable.
   */
  lemma PermissionsAreOpened(frames: seq<nat>, root: nat, m: Memory, calls: seq<Call>, page: nat)
    requires Ready(frames, root, m) && InSpace(calls) && page < Span(4)
    requires page !in AllChanges(frames, root, m, calls).added
    ensures Walk(root, PerformAll(frames, root, m, calls), page)
         == OpenedWalk(root, m, AllChanges(frames, root, m, calls).raised, page)
  {
    hide Sound, WellFormed, FreshFrames, Lookup, Opened, PerformAll, AllChanges;
    RunChanges(frames, root, m, calls);
    var m', c := PerformAll(frames, root, m, calls), AllChanges(frames, root, m, calls);
    assert PageChanged(root, m, m', c, page);
    NotAdded(root, m, m', c, page);
  }

  /**
   When the write permission of a page changes under `map_page`, told from the entries
   before the call: it had a read-only entry on its walk, and every such entry stands above
   level 1 and on the walk of the page asked for.  A call that fails does this too.
   */
  lemma PermissionChangesWhen(frames: seq<nat>, root: nat, m: Memory, page: nat, other: nat)
    requires Ready(frames, root, m) && page < Span(4) && other < Span(4) && m.next < |frames|
    requires other == page ==> AfterMapPage(frames, root, m, page).1 != Ok
    requires Walk(root, m, other).Some?
    ensures var after := Walk(root, AfterMapPage(frames, root, m, page).0, other);
            && after.Some?
            && (after != Walk(root, m, other) <==>
                  !OpensAll(m.tables, root, 4, {}, other) && OpensAll(m.tables, root, 4, {page}, other))
            && (after.value.writable <==> OpensAll(m.tables, root, 4, {page}, other))
  {
    hide Sound, WellFormed, FreshFrames, Lookup, Opened, AfterMapPage, OpensAll;
    var m' := AfterMapPage(frames, root, m, page).0;
    MapPageEffect(frames, root, m, page);
    NotAdded(root, m, m', MapPageChange(frames, root, m, page), other);
    OpenedWalkFacts(root, m, {page}, other);
    OpenedWritable(m.tables, root, 4, {}, other);
    OpenedWritable(m.tables, root, 4, {page}, other);
  }

  // ------------------------------------------------------------------- costs

  /**
   `map_page` succeeds exactly when the walk stops at an absent entry and a frame is left
   for the page and for each table still missing; it then takes exactly those.  Refused
   for a page in the way, it has used up the data frame; short of frames, all of them.
   */
  lemma MapPageOutcome(frames: seq<nat>, root: nat, m: Memory, page: nat)
    requires Ready(frames, root, m) && page < Span(4)
    ensures var end, (m', r) := End(m.tables, root, 4, page), AfterMapPage(frames, root, m, page);
            && (r == Ok <==> end.Gap? && m.next + end.level <= |frames|)
            && (r == Ok ==> m'.next == m.next + end.level)
            && (r.PageAlreadyMapped? <==> end == Taken && m.next < |frames|)
            && (r == ParentEntryHugePage <==> end == Huge && m.next < |frames|)
            && (r.PageAlreadyMapped? ==> r.frame == frames[m.next])
            && (r.PageAlreadyMapped? || r == ParentEntryHugePage ==> m'.next == m.next + 1)
            && (r == FrameAllocationFailed ==> m'.next == Max(|frames|, m.next) + 1)
            && (end.Gap? <==> Walk(root, m, page) == None)
            && (end.Gap? ==> 1 <= end.level <= 4)
  {
    var place :| Labelled(m.tables, root, place);
    assert page / Span(4) == 0;
    GapIsUnmapped(m.tables, root, place, root, 4, page);
    if m.next < |frames| {
      MapFromOutcome(frames, m.(next := m.next + 1), root, 4, page, frames[m.next], root, place);
    }
  }

  lemma MappedIsTaken(frames: seq<nat>, root: nat, m: Memory, page: nat)
    requires Ready(frames, root, m) && page < Span(4) && Usable(root, m)
    requires Walk(root, m, page).Some? && Walk(root, m, page).value.level == 1
    ensures End(m.tables, root, 4, page) == Taken
  {
    var place :| Labelled(m.tables, root, place);
    assert page / Span(4) == 0;
    GapIsUnmapped(m.tables, root, place, root, 4, page);
  }

  lemma HeapIsOneTable(k: nat)
    requires k < HEAP_PAGES
    ensures HEAP_PAGE + k < Span(4)
    ensures (HEAP_PAGE + k) / ENTRIES == HEAP_PAGE / ENTRIES
  {
  }

  ghost predicate HeapFree(root: nat, m: Memory, k: nat)
    requires Usable(root, m)
  {
    forall page :: HEAP_PAGE + k <= page < HEAP_PAGE + HEAP_PAGES ==> Walk(root, m, page) == None
  }

  /** Heap page `i` is mapped. */
  ghost predicate HeapTaken(root: nat, m: Memory, i: nat)
    requires Usable(root, m)
  {
    Walk(root, m, HEAP_PAGE + i) != None
  }

  /** The first heap page from the `k`-th on that is mapped already, or 25. */
  ghost function FirstTaken(root: nat, m: Memory, k: nat): (j: nat)
    requires Usable(root, m) && k <= HEAP_PAGES
    ensures k <= j <= HEAP_PAGES
    ensures forall i: nat :: k <= i < j ==> !HeapTaken(root, m, i)
    ensures j < HEAP_PAGES ==> HeapTaken(root, m, j)
    decreases HEAP_PAGES - k, m.next
  {
    if k == HEAP_PAGES || HeapTaken(root, m, k) then k else FirstTaken(root, m, k + 1)
  }

  lemma FreeIffNoneTaken(root: nat, m: Memory, k: nat)
    requires Usable(root, m) && k <= HEAP_PAGES
    ensures HeapFree(root, m, k) <==> FirstTaken(root, m, k) == HEAP_PAGES
  {
    hide Walk;
    var j := FirstTaken(root, m, k);
    if j == HEAP_PAGES {
      forall page | HEAP_PAGE + k <= page < HEAP_PAGE + HEAP_PAGES
        ensures Walk(root, m, page) == None
      {
        assert !HeapTaken(root, m, page - HEAP_PAGE);
      }
    }
  }

  /** Mapping heap page `k` takes no other heap page. */
  lemma FirstTakenKept(frames: seq<nat>, root: nat, m: Memory, m1: Memory, k: nat, c: Change)
    requires Usable(root, m) && Usable(root, m1) && k < HEAP_PAGES
    requires Changes(frames, root, m, m1, c) && c.added.Keys == {HEAP_PAGE + k}
    ensures FirstTaken(root, m, k) == FirstTaken(root, m1, k + 1)
  {
    hide Walk, OpensBy, Sound;
    assert PageChanged(root, m, m1, c, HEAP_PAGE + k) by {
      HeapIsOneTable(k);
    }
    forall i: nat | k < i < HEAP_PAGES
      ensures HeapTaken(root, m, i) <==> HeapTaken(root, m1, i)
    {
      HeapIsOneTable(i);
      NotAdded(root, m, m1, c, HEAP_PAGE + i);
    }
    var j, j1 := FirstTaken(root, m, k), FirstTaken(root, m1, k + 1);
    assert !HeapTaken(root, m, k);
  }

  /** A heap page mapped next to a standing last-level table. */
  lemma HeapStep(frames: seq<nat>, root: nat, m: Memory, k: nat)
    requires Ready(frames, root, m) && 1 <= k < HEAP_PAGES && HEAP_PAGE + k < Span(4)
    requires End(m.tables, root, 4, HEAP_PAGE + k - 1) == Taken
    ensures var (m1, r) := AfterMapPage(frames, root, m, HEAP_PAGE + k);
            && m1.next == m.next + 1
            && r == if m.next >= |frames| then FrameAllocationFailed
                    else if Walk(root, m, HEAP_PAGE + k) == None then Ok
                    else PageAlreadyMapped(frames[m.next])
  {
    hide Sound, WellFormed, FreshFrames, Lookup, MapFrom, AfterMapPage;
    var page := HEAP_PAGE + k;
    HeapIsOneTable(k);
    HeapIsOneTable(k - 1);
    NeighboursEnd(m.tables, root, 4, page - 1, page);
    MapPageOutcome(frames, root, m, page);
  }

  /** After a heap page is mapped its table stands, and no other heap page is taken. */
  lemma HeapStepKeeps(frames: seq<nat>, root: nat, m: Memory, k: nat)
    requires Ready(frames, root, m) && k < HEAP_PAGES && HEAP_PAGE + k < Span(4)
    requires AfterMapPage(frames, root, m, HEAP_PAGE + k).1 == Ok
    ensures var m1 := AfterMapPage(frames, root, m, HEAP_PAGE + k).0;
            && End(m1.tables, root, 4, HEAP_PAGE + k) == Taken
            && FirstTaken(root, m, k) == FirstTaken(root, m1, k + 1)
  {
    hide Sound, WellFormed, FreshFrames, Lookup, End, MapFrom, AfterMapPage, Walk, FirstTaken, OpensBy;
    var page := HEAP_PAGE + k;
    MapPageEffect(frames, root, m, page);
    var m1 := AfterMapPage(frames, root, m, page).0;
    var c := MapPageChange(frames, root, m, page);
    assert PageChanged(root, m, m1, c, page);
    MappedIsTaken(frames, root, m1, page);
    FirstTakenKept(frames, root, m, m1, k, c);
  }

  /** How a run of the loop ends: heap pages mapped in all, the answer, and the allocator's counter. */
  datatype Report = Report(mapped: nat, result: MapResult, next: nat)

  /**
   With the last-level table standing, from page `k` on: pages are mapped one frame each
   until the first one taken already or until the frames run out, whichever comes first.
   */
  ghost function TailReport(frames: seq<nat>, next: nat, first: nat, k: nat): Report
    requires k <= first <= HEAP_PAGES && next <= |frames|
  {
    var left := |frames| - next;
    var j := if first <= k + left then first else k + left;
    if j == HEAP_PAGES then Report(j, Ok, next + (j - k))
    else if j == k + left then Report(j, FrameAllocationFailed, |frames| + 1)
    else Report(j, PageAlreadyMapped(frames[next + (j - k)]), next + (j - k) + 1)
  }

  /** Heap pages `k` to `j` are mapped, to consecutive frames of the allocator from `next` on. */
  ghost predicate Filled(added: map<nat, nat>, frames: seq<nat>, next: nat, k: nat, j: nat) {
    && (forall page :: page in added <==> HEAP_PAGE + k <= page < HEAP_PAGE + j)
    && next + (j - k) <= |frames|
    && forall page :: page in added ==> added[page] == frames[next + (page - HEAP_PAGE - k)]
  }

  lemma FilledCons(added: map<nat, nat>, frames: seq<nat>, next: nat, k: nat, j: nat)
    requires k < j && next < |frames| && Filled(added, frames, next + 1, k + 1, j)
    ensures Filled(map[HEAP_PAGE + k := frames[next]] + added, frames, next, k, j)
  {
  }

  lemma TailReportUnfolds(frames: seq<nat>, next: nat, first: nat, k: nat)
    requires k <= first <= HEAP_PAGES && k < HEAP_PAGES && next <= |frames|
    ensures var rep := TailReport(frames, next, first, k);
            if next == |frames| then rep == Report(k, FrameAllocationFailed, next + 1)
            else if first == k then rep == Report(k, PageAlreadyMapped(frames[next]), next + 1)
            else rep == TailReport(frames, next + 1, first, k + 1) && k < rep.mapped
  {
  }

  /** The report of the loop from page `k` on is right. */
  ghost predicate TailIs(frames: seq<nat>, root: nat, m: Memory, k: nat, rep: Report)
    requires Ready(frames, root, m)
  {
    var (m', r) := HeapFrom(frames, root, m, k);
    && r == rep.result && m'.next == rep.next && k <= rep.mapped <= HEAP_PAGES
    && Filled(HeapChange(frames, root, m, k).added, frames, m.next, k, rep.mapped)
  }

  /** One round of the loop. */
  lemma HeapUnfolds(frames: seq<nat>, root: nat, m: Memory, k: nat)
    requires Ready(frames, root, m) && k < HEAP_PAGES && HEAP_PAGE + k < Span(4)
    requires AfterMapPage(frames, root, m, HEAP_PAGE + k).1 == Ok
    ensures var m1 := AfterMapPage(frames, root, m, HEAP_PAGE + k).0;
            && HeapFrom(frames, root, m, k) == HeapFrom(frames, root, m1, k + 1)
            && HeapChange(frames, root, m, k).added
               == map[HEAP_PAGE + k := frames[m.next]] + HeapChange(frames, root, m1, k + 1).added
  {
    hide Sound, WellFormed, FreshFrames, MapFrom, AfterMapPage;
  }

  lemma TailIsCons(frames: seq<nat>, root: nat, m: Memory, k: nat, rep: Report)
    requires Ready(frames, root, m) && k < HEAP_PAGES && HEAP_PAGE + k < Span(4) && k < rep.mapped
    requires AfterMapPage(frames, root, m, HEAP_PAGE + k).1 == Ok
    requires AfterMapPage(frames, root, m, HEAP_PAGE + k).0.next == m.next + 1
    requires TailIs(frames, root, AfterMapPage(frames, root, m, HEAP_PAGE + k).0, k + 1, rep)
    ensures TailIs(frames, root, m, k, rep)
  {
    hide Sound, WellFormed, FreshFrames, MapFrom, AfterMapPage, Filled, HeapFrom, HeapChange;
    HeapUnfolds(frames, root, m, k);
    var m1 := AfterMapPage(frames, root, m, HEAP_PAGE + k).0;
    FilledCons(HeapChange(frames, root, m1, k + 1).added, frames, m.next, k, rep.mapped);
  }

  lemma TailIsStop(frames: seq<nat>, root: nat, m: Memory, k: nat)
    requires Ready(frames, root, m) && k < HEAP_PAGES && HEAP_PAGE + k < Span(4)
    requires AfterMapPage(frames, root, m, HEAP_PAGE + k).1 != Ok && m.next <= |frames|
    ensures var (m1, r) := AfterMapPage(frames, root, m, HEAP_PAGE + k);
            TailIs(frames, root, m, k, Report(k, r, m1.next))
  {
    hide Sound, WellFormed, FreshFrames, MapFrom, AfterMapPage;
  }

  lemma {:induction false} HeapTailReport(frames: seq<nat>, root: nat, m: Memory, k: nat)
    requires Ready(frames, root, m) && 1 <= k <= HEAP_PAGES
    requires End(m.tables, root, 4, HEAP_PAGE + k - 1) == Taken && m.next <= |frames|
    ensures TailIs(frames, root, m, k, TailReport(frames, m.next, FirstTaken(root, m, k), k))
    decreases HEAP_PAGES - k
  {
    hide Sound, WellFormed, FreshFrames, Lookup, End, MapFrom, AfterMapPage, Walk;
    if k < HEAP_PAGES {
      hide TailReport, TailIs;
      HeapIsOneTable(k);
      HeapStep(frames, root, m, k);
      TailReportUnfolds(frames, m.next, FirstTaken(root, m, k), k);
      var (m1, r) := AfterMapPage(frames, root, m, HEAP_PAGE + k);
      if r == Ok {
        assert !HeapTaken(root, m, k);
        HeapStepKeeps(frames, root, m, k);
        HeapTailReport(frames, root, m1, k + 1);
        TailIsCons(frames, root, m, k, TailReport(frames, m1.next, FirstTaken(root, m1, k + 1), k + 1));
      } else {
        TailIsStop(frames, root, m, k);
      }
    }
  }

  /** The whole of `init_heap`, told from the state before it. */
  ghost function HeapReport(frames: seq<nat>, next: nat, end: WalkEnd, first: nat): Report
    requires first <= HEAP_PAGES && (end.Gap? ==> first >= 1)
  {
    if next >= |frames| then Report(0, FrameAllocationFailed, next + 1)
    else
      match end
      case Huge => Report(0, ParentEntryHugePage, next + 1)
      case Taken => Report(0, PageAlreadyMapped(frames[next]), next + 1)
      case Gap(missing) =>
        if next + missing > |frames| then Report(0, FrameAllocationFailed, |frames| + 1)
        else TailReport(frames, next + missing, first, 1)
  }

  /** The heap pages mapped by a report, and their frames: the tables come between the first page and the rest. */
  ghost predicate HeapFilled(added: map<nat, nat>, frames: seq<nat>, next: nat, end: WalkEnd, j: nat) {
    && (forall page :: page in added <==> HEAP_PAGE <= page < HEAP_PAGE + j)
    && (j > 0 ==>
          && end.Gap? && next < |frames| && next + end.level + (j - 1) <= |frames|
          && added[HEAP_PAGE] == frames[next]
          && forall page :: page in added && page > HEAP_PAGE ==>
               next + end.level + (page - HEAP_PAGE - 1) < |frames|
               && added[page] == frames[next + end.level + (page - HEAP_PAGE - 1)])
  }

  lemma HeapFilledCons(added: map<nat, nat>, frames: seq<nat>, next: nat, end: WalkEnd, j: nat)
    requires 1 <= j && end.Gap? && next < |frames| && Filled(added, frames, next + end.level, 1, j)
    ensures HeapFilled(map[HEAP_PAGE := frames[next]] + added, frames, next, end, j)
  {
  }

  lemma FirstPageFails(frames: seq<nat>, root: nat, m: Memory)
    requires Ready(frames, root, m) && HEAP_PAGE + 0 < Span(4)
    requires AfterMapPage(frames, root, m, HEAP_PAGE + 0).1 != Ok
    ensures AfterInitHeap(frames, root, m) == AfterMapPage(frames, root, m, HEAP_PAGE + 0)
    ensures HeapChange(frames, root, m, 0).added == map[]
  {
    hide Sound, WellFormed, FreshFrames, MapFrom, AfterMapPage;
  }

  /** The report of the first page and of the rest, put together. */
  lemma WholeFromTail(frames: seq<nat>, root: nat, m: Memory, end: WalkEnd, rep: Report)
    requires Ready(frames, root, m) && HEAP_PAGE + 0 < Span(4)
    requires AfterMapPage(frames, root, m, HEAP_PAGE + 0).1 == Ok
    requires end.Gap? && AfterMapPage(frames, root, m, HEAP_PAGE + 0).0.next == m.next + end.level
    requires TailIs(frames, root, AfterMapPage(frames, root, m, HEAP_PAGE + 0).0, 1, rep)
    ensures var (m', r) := AfterInitHeap(frames, root, m);
            && r == rep.result && m'.next == rep.next
            && HeapFilled(HeapChange(frames, root, m, 0).added, frames, m.next, end, rep.mapped)
  {
    hide Ready, Usable, AfterMapPage, HeapFrom, HeapChange, Filled, HeapFilled;
    assert HEAP_PAGE + 0 == HEAP_PAGE;
    HeapUnfolds(frames, root, m, 0);
    var m1 := AfterMapPage(frames, root, m, HEAP_PAGE + 0).0;
    HeapFilledCons(HeapChange(frames, root, m1, 1).added, frames, m.next, end, rep.mapped);
  }

  /**
   `init_heap` in full, from the state before it: its answer, the frames it takes, and the
   pages it leaves mapped, with their frames.  The pages are the first ones of the heap, up
   to the first already mapped or to the last frame left after the missing tables; nothing
   is undone on an error.
   */
  lemma InitHeapReport(frames: seq<nat>, root: nat, m: Memory)
    requires Ready(frames, root, m)
    ensures var end, first := End(m.tables, root, 4, HEAP_PAGE), FirstTaken(root, m, 0);
            && (end.Gap? ==> 1 <= end.level <= 4 && first >= 1)
            && var rep, (m', r) := HeapReport(frames, m.next, end, first), AfterInitHeap(frames, root, m);
               && r == rep.result && m'.next == rep.next
               && HeapFilled(HeapChange(frames, root, m, 0).added, frames, m.next, end, rep.mapped)
  {
    hide Sound, WellFormed, FreshFrames, Lookup, End, MapFrom, AfterMapPage, Walk, TailReport, TailIs,
         AfterInitHeap, HeapChange;
    HeapIsOneTable(0);
    MapPageOutcome(frames, root, m, HEAP_PAGE + 0);
    var end := End(m.tables, root, 4, HEAP_PAGE);
    assert end.Gap? <==> !HeapTaken(root, m, 0);
    var (m1, r) := AfterMapPage(frames, root, m, HEAP_PAGE + 0);
    if r == Ok {
      HeapStepKeeps(frames, root, m, 0);
      HeapTailReport(frames, root, m1, 1);
      WholeFromTail(frames, root, m, end, TailReport(frames, m1.next, FirstTaken(root, m1, 1), 1));
    } else {
      FirstPageFails(frames, root, m);
    }
  }

  /**
   `init_heap` succeeds exactly when all 25 heap pages are unmapped and there are frames
   left for them and for the tables missing on the way to their one last-level table; it
   then takes exactly that many: 25 to 28.
   */
  lemma InitHeapOutcome(frames: seq<nat>, root: nat, m: Memory)
    requires Ready(frames, root, m)
    ensures var end, (m', r) := End(m.tables, root, 4, HEAP_PAGE), AfterInitHeap(frames, root, m);
            && (r == Ok <==> HeapFree(root, m, 0) && end.Gap? && m.next + 24 + end.level <= |frames|)
            && (HeapFree(root, m, 0) ==> end.Gap? && 1 <= end.level <= 4)
            && (r == Ok ==> m'.next == m.next + 24 + end.level && m'.next - m.next <= 28)
  {
    hide Sound, WellFormed, FreshFrames, Lookup, End, MapFrom, AfterMapPage, AfterInitHeap, Walk;
    HeapIsOneTable(0);
    MapPageOutcome(frames, root, m, HEAP_PAGE);
    InitHeapReport(frames, root, m);
    FreeIffNoneTaken(root, m, 0);
  }

  /** The pages mapped are the first ones of the heap, all 25 exactly on success. */
  lemma HeapAddedIsPrefix(frames: seq<nat>, root: nat, m: Memory) returns (j: nat)
    requires Ready(frames, root, m)
    ensures j <= HEAP_PAGES
    ensures j == HEAP_PAGES <==> AfterInitHeap(frames, root, m).1 == Ok
    ensures forall page :: page in HeapChange(frames, root, m, 0).added <==> HEAP_PAGE <= page < HEAP_PAGE + j
  {
    hide Sound, WellFormed, FreshFrames, AfterInitHeap, HeapChange, End, Walk;
    InitHeapReport(frames, root, m);
    HeapIsOneTable(0);
    j := HeapReport(frames, m.next, End(m.tables, root, 4, HEAP_PAGE), FirstTaken(root, m, 0)).mapped;
  }

  /**
   `init_heap` maps all of the heap or none of it, except exactly when the first page can
   be mapped and the whole cannot: then it fails with the first pages mapped.
   */
  lemma AllOrNothingUnless(frames: seq<nat>, root: nat, m: Memory)
    requires Ready(frames, root, m)
    ensures var end, (m', r) := End(m.tables, root, 4, HEAP_PAGE), AfterInitHeap(frames, root, m);
            var added := HeapChange(frames, root, m, 0).added;
            var first, whole := end.Gap? && m.next + end.level <= |frames|,
                                HeapFree(root, m, 0) && end.Gap? && m.next + 24 + end.level <= |frames|;
            && (r == Ok || added == map[] <==> whole || !first)
            && (first && !whole ==> r != Ok && HEAP_PAGE in added
                                    && Walk(root, m', HEAP_PAGE) == Some(Mapping(frames[m.next], 1, true, false)))
  {
    hide Sound, WellFormed, FreshFrames, Lookup, End, MapFrom, AfterMapPage, Walk, HeapFrom, HeapChange;
    InitHeapOutcome(frames, root, m);
    InitHeapReport(frames, root, m);
    HeapFromEffect(frames, root, m, 0);
    HeapIsOneTable(0);
    var m', c := AfterInitHeap(frames, root, m).0, HeapChange(frames, root, m, 0);
    assert PageChanged(root, m, m', c, HEAP_PAGE);
    var first := FirstTaken(root, m, 0);
    var rep := HeapReport(frames, m.next, End(m.tables, root, 4, HEAP_PAGE), first);
    assert rep.mapped > 0 ==> HEAP_PAGE in c.added;
    assert rep.mapped == 0 ==> c.added == map[];
  }

  /** The address is inside the heap range. */
  predicate InHeap(addr: nat) {
    HEAP_START <= addr < HEAP_START + HEAP_SIZE
  }

  lemma InHeapByPage(addr: nat)
    ensures InHeap(addr) <==> HEAP_PAGE <= addr / FRAME_SIZE < HEAP_PAGE + HEAP_PAGES
  {
  }

  /** Every heap address is backed by a frame taken for it alone, and its page offset is kept. */
  ghost predicate HeapBacked(frames: seq<nat>, root: nat, m: Memory, m': Memory, back: map<nat, nat>)
    requires Usable(root, m) && Usable(root, m')
  {
    && (forall page :: page in back <==> HEAP_PAGE <= page < HEAP_PAGE + HEAP_PAGES)
    && (forall page :: page in back ==> FrameTaken(frames, m, m', back[page]))
    && (forall p, q :: p in back && q in back && p != q ==> back[p] != back[q])
    && (forall addr: nat :: InHeap(addr) ==>
          addr / FRAME_SIZE in back
          && TranslateAddr(m'.tables, root, addr) == Some(back[addr / FRAME_SIZE] * FRAME_SIZE + addr % FRAME_SIZE))
  }

  /**
   After `init_heap` returns Ok every heap address translates with its offset kept, the
   25 pages to distinct frames of which none is a page table; every other address,
   the one right after the heap included, translates as before.
   */
  lemma HeapIsMapped(frames: seq<nat>, root: nat, m: Memory) returns (back: map<nat, nat>)
    requires Ready(frames, root, m) && AfterInitHeap(frames, root, m).1 == Ok
    ensures var m' := AfterInitHeap(frames, root, m).0;
            && |back| == 25
            && HeapBacked(frames, root, m, m', back)
            && (forall addr: nat :: addr / FRAME_SIZE < Span(4) && !InHeap(addr) ==>
                  TranslateAddr(m'.tables, root, addr) == TranslateAddr(m.tables, root, addr))
            && TranslateAddr(m'.tables, root, HEAP_START + HEAP_SIZE)
               == TranslateAddr(m.tables, root, HEAP_START + HEAP_SIZE)
  {
    hide Sound, WellFormed, FreshFrames, Lookup, MapFrom, HeapFrom, HeapChange, TranslateAddr, Walk, FrameTaken;
    var c := HeapChange(frames, root, m, 0);
    back := c.added;
    var m' := AfterInitHeap(frames, root, m).0;
    HeapFromEffect(frames, root, m, 0);
    var j := HeapAddedIsPrefix(frames, root, m);
    forall addr: nat | addr / FRAME_SIZE < Span(4)
      ensures TranslateAddr(m'.tables, root, addr)
           == if InHeap(addr) then Some(back[addr / FRAME_SIZE] * FRAME_SIZE + addr % FRAME_SIZE)
              else TranslateAddr(m.tables, root, addr)
    {
      InHeapByPage(addr);
      TranslateUnmoved(root, m, m', c, addr);
    }
    forall addr: nat | InHeap(addr)
      ensures addr / FRAME_SIZE in back && addr / FRAME_SIZE < Span(4)
    {
      InHeapByPage(addr);
      HeapIsOneTable(addr / FRAME_SIZE - HEAP_PAGE);
    }
    HeapIsOneTable(0);
    KeysOfRange(back, HEAP_PAGE, HEAP_PAGES);
  }

  lemma {:induction false} KeysOfRange(m: map<nat, nat>, start: nat, n: nat)
    requires forall page :: page in m <==> start <= page < start + n
    ensures |m| == n
  {
    assert |m| == |m.Keys|;
    RangeSize(m.Keys, start, n);
  }

  lemma {:induction false} RangeSize(s: set<nat>, start: nat, n: nat)
    requires forall page :: page in s <==> start <= page < start + n
    ensures |s| == n
    decreases n
  {
    if n == 0 {
      assert s == {};
    } else {
      RangeSize(s - {start + n - 1}, start, n - 1);
    }
  }

  /**
   From boot: over a memory map with disjoint usable regions, none of which holds a page
   table, an `init_heap` that returns Ok backs the heap with 25 distinct frames, each in a
   usable region and none of them a page table.
   */
  lemma BootHeapIsUsable(regions: MemoryMap, root: nat, tables: Tables) returns (back: map<nat, nat>)
    requires Disjoint(regions) && WellFormed(tables, root)
    requires forall f :: f in tables ==> !InUsable(regions, f)
    ensures Ready(UsableFrames(regions), root, Memory(tables, 0))
    ensures var m := Memory(tables, 0);
            var (m', r) := AfterInitHeap(UsableFrames(regions), root, m);
            r == Ok ==>
              && |back| == 25 && HeapBacked(UsableFrames(regions), root, m, m', back)
              && forall page :: page in back ==> InUsable(regions, back[page]) && back[page] !in m'.tables
  {
    hide Sound, WellFormed, AfterInitHeap, TranslateAddr, InUsable;
    BootIsReady(regions, root, tables);
    var frames, m := UsableFrames(regions), Memory(tables, 0);
    var (m', r) := AfterInitHeap(frames, root, m);
    back := map[];
    if r == Ok {
      back := HeapIsMapped(frames, root, m);
      forall page | page in back
        ensures InUsable(regions, back[page]) && back[page] !in m'.tables
      {
        assert FrameTaken(frames, m, m', back[page]);
        TakenIsUsable(regions, m.next, m'.next, back[page]);
      }
    }
  }

  // -------------------------------------------------------------- witnesses

  /** A level-4 table whose first entry leads to a level-3 table whose first entry is a read-only huge page. */
  ghost function HugeTables(frame: nat): Tables {
    map[0 := EmptyTable()[0 := Link(1, true, false)], 1 := EmptyTable()[0 := Leaf(frame, false, false)]]
  }

  /** A `map_page` that fails can still make a read-only page writable. */
  lemma FailedCallOpensHugePage(frame: nat, page: nat)
    requires page < Span(2)
    ensures var m := Memory(HugeTables(frame), 0);
            && Ready([2], 0, m) && page < Span(4)
            && var (m', r) := AfterMapPage([2], 0, m, page);
               && r == ParentEntryHugePage
               && Walk(0, m, page) == Some(Mapping(frame, 3, false, false))
               && Walk(0, m', page) == Some(Mapping(frame, 3, true, false))
  {
    var t := HugeTables(frame);
    var m := Memory(t, 0);
    assert Labelled(t, 0, map[0 := Place(4, 0), 1 := Place(3, 0)]);
    LabelledIsSound(t, 0, map[0 := Place(4, 0), 1 := Place(3, 0)]);
    assert Ready([2], 0, m);
    assert Index(page, 4) == 0 && Index(page, 3) == 0;
    assert t[1][0] == Leaf(frame, false, false);
    assert End(t, 1, 3, page) == Huge;
    assert Lookup(t, 1, 3, page) == Some(Mapping(frame, 3, false, false));
    MapPageOutcome([2], 0, m, page);
    PermissionChangesWhen([2], 0, m, page, page);
    MapPageEffect([2], 0, m, page);
    NotAdded(0, m, AfterMapPage([2], 0, m, page).0, MapPageChange([2], 0, m, page), page);
    assert Shares({page}, 3, page);
    assert Opened(t, 1, 3, {page}, page) == Some(Mapping(frame, 3, true, false));
  }

  /** An `init_heap` that runs out of frames leaves its first page mapped. */
  lemma HeapCanBeLeftHalfMapped()
    ensures var m := Memory(map[0 := EmptyTable()], 0);
            && Ready([1, 2, 3, 4], 0, m)
            && var (m', r) := AfterInitHeap([1, 2, 3, 4], 0, m);
               r == FrameAllocationFailed && Walk(0, m', HEAP_PAGE) == Some(Mapping(1, 1, true, false))
  {
    hide AfterInitHeap, MapFrom;
    var t: Tables := map[0 := EmptyTable()];
    var m, frames := Memory(t, 0), [1, 2, 3, 4];
    assert Labelled(t, 0, map[0 := Place(4, 0)]);
    LabelledIsSound(t, 0, map[0 := Place(4, 0)]);
    assert Ready(frames, 0, m);
    assert End(t, 0, 4, HEAP_PAGE) == Gap(4);
    AllOrNothingUnless(frames, 0, m);
    InitHeapReport(frames, 0, m);
    HeapIsOneTable(0);
  }

  // ------------------------------------------------------------- in place

  /** The active page tables in physical memory, and the frame allocator the mapper is given. */
  class Mapper {
    var tables: Tables
    const root: nat
    const allocator: FrameAllocator

    ghost function Supply(): seq<nat> {
      UsableFrames(allocator.regions)
    }

    ghost function State(): Memory
      reads this, allocator
    {
      Memory(tables, allocator.next)
    }

    constructor (tables: Tables, root: nat, allocator: FrameAllocator)
      ensures this.tables == tables && this.root == root && this.allocator == allocator
    {
      this.tables, this.root, this.allocator := tables, root, allocator;
    }

    /** The table below an entry: linked already, made writable, or created and linked. */
    method CreateNextTable(f: nat, level: nat, page: nat) returns (below: nat, error: MapResult)
      requires Usable(root, State()) && f in tables && 2 <= level <= 4
      modifies this, allocator
      ensures Usable(root, State())
      ensures error == Ok <==> GoesDown(Supply(), old(State()), f, level, page)
      ensures error == Ok ==> (State(), below) == Down(Supply(), old(State()), f, level, page)
      ensures error != Ok ==> forall data ::
                (State(), error) == MapFrom(Supply(), old(State()), f, level, page, data)
    {
      var i := Index(page, level);
      var entry := tables[f][i];
      below, error := f, Ok;
      if entry == Absent {
        var frame := allocator.AllocateFrame();
        if frame == None {
          error := FrameAllocationFailed;
        } else {
          below := frame.value;
          tables := Graft(tables, f, i, below);
        }
      } else {
        tables := SetEntry(tables, f, i, Raised(entry));
        if entry.Leaf? {
          error := ParentEntryHugePage;
        } else {
          below := entry.frame;
        }
      }
    }

    /** `map_to`: down to the last-level table, creating what is missing, then the leaf. */
    method MapTo(page: nat, data: nat) returns (result: MapResult)
      requires Usable(root, State())
      modifies this, allocator
      ensures Usable(root, State())
      ensures (State(), result) == MapFrom(Supply(), old(State()), root, 4, page, data)
    {
      var f, level := root, 4;
      while level > 1
        invariant 1 <= level <= 4 && Usable(root, State()) && f in tables
        invariant MapFrom(Supply(), State(), f, level, page, data)
               == MapFrom(Supply(), old(State()), root, 4, page, data)
      {
        var below, error := CreateNextTable(f, level, page);
        if error != Ok {
          return error;
        }
        f, level := below, level - 1;
      }
      var i := Index(page, 1);
      if tables[f][i] != Absent {
        return PageAlreadyMapped(data);
      }
      tables := SetEntry(tables, f, i, Leaf(data, true, false));
      return Ok;
    }

    method MapPage(page: nat) returns (result: MapResult)
      requires Ready(Supply(), root, State()) && page < Span(4)
      modifies this, allocator
      ensures Ready(Supply(), root, State())
      ensures (State(), result) == AfterMapPage(Supply(), root, old(State()), page)
    {
      var frame := allocator.AllocateFrame();
      if frame == None {
        result := FrameAllocationFailed;
      } else {
        result := MapTo(page, frame.value);
      }
      assert (State(), result) == AfterMapPage(Supply(), root, old(State()), page);
    }

    method InitHeap() returns (result: MapResult)
      requires Ready(Supply(), root, State())
      modifies this, allocator
      ensures Ready(Supply(), root, State())
      ensures (State(), result) == AfterInitHeap(Supply(), root, old(State()))
    {
      for k := 0 to HEAP_PAGES
        invariant Ready(Supply(), root, State())
        invariant HeapFrom(Supply(), root, State(), k) == HeapFrom(Supply(), root, old(State()), 0)
      {
        result := MapPage(HEAP_PAGE + k);
        if result != Ok {
          return;
        }
      }
      return Ok;
    }

    method Translate(addr: nat) returns (phys: Option<nat>)
      requires Usable(root, State())
      ensures phys == TranslateAddr(tables, root, addr)
    {
      var f, level, page := root, 4, addr / FRAME_SIZE;
      while level > 0
        invariant level <= 4 && (level > 0 ==> f in tables)
        invariant Lookup(tables, root, 4, page).Some? <==> level > 0 && Lookup(tables, f, level, page).Some?
        invariant Lookup(tables, root, 4, page).Some? ==>
                    var a, b := Lookup(tables, root, 4, page).value, Lookup(tables, f, level, page).value;
                    a.frame == b.frame && a.level == b.level
      {
        var entry := tables[f][Index(page, level)];
        match entry {
          case Absent => return None;
          case Leaf(g, _, _) => return Some(g * FRAME_SIZE + addr % (FRAME_SIZE * Span(level - 1)));
          case Link(g, _, _) => f, level := g, level - 1;
        }
      }
      return None;
    }
  }
}
