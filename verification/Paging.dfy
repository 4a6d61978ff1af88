/**
 Four-level page tables in physical memory and the walks over them: translation, and the
 creation of mappings with the missing tables taken from the frame allocator
 (src/memory.rs, and `map_to` of version 0.15 of the `x86_64` crate that it calls).

 Memory is a dictionary from table frames to 512 entries, so tables could share frames
 or refer to each other in circles; `Labelled` says that they do not.
 */
module Paging {
  import opened Common
  import opened Frames

  const ENTRIES: nat := 512

  /** A page-table entry.  A `Leaf` above level 1 is a huge page. */
  datatype Entry =
    | Absent
    | Link(frame: nat, writable: bool, user: bool)
    | Leaf(frame: nat, writable: bool, user: bool)

  type Table = seq<Entry>

  type Tables = map<nat, Table>

  /** How many 4 KiB pages a table of the level covers; one entry of it covers `Span(level - 1)`. */
  function Span(level: nat): (n: nat)
    requires level <= 4
    ensures n > 0
  {
    match level
    case 0 => 1
    case 1 => 0x200
    case 2 => 0x4_0000
    case 3 => 0x800_0000
    case 4 => 0x10_0000_0000
  }

  function Index(page: nat, level: nat): (i: nat)
    requires 1 <= level <= 4
    ensures i < ENTRIES
  {
    (page / Span(level - 1)) % ENTRIES
  }

  lemma PrefixSplits(page: nat, level: nat)
    requires 1 <= level <= 4
    ensures page / Span(level - 1) == page / Span(level) * ENTRIES + Index(page, level)
  {
  }

  function EmptyTable(): (t: Table)
    ensures |t| == ENTRIES && forall i :: 0 <= i < ENTRIES ==> t[i] == Absent
  {
    seq(ENTRIES, _ => Absent)
  }

  // ---------------------------------------------------------------- the walk

  /** Where a walk ends: the leaf found, with the permissions all levels agree on. */
  datatype Mapping = Mapping(frame: nat, level: nat, writable: bool, user: bool)

  /** Every table has 512 entries and every link leads to a table. */
  ghost predicate Sound(t: Tables) {
    && (forall f :: f in t ==> |t[f]| == ENTRIES)
    && (forall f, i :: f in t && 0 <= i < |t[f]| && t[f][i].Link? ==> t[f][i].frame in t)
  }

  ghost function Lookup(t: Tables, f: nat, level: nat, page: nat): Option<Mapping>
    requires Sound(t) && f in t && level <= 4
    decreases level, f
  {
    if level == 0 then None
    else
      match t[f][Index(page, level)]
      case Absent => None
      case Leaf(g, w, u) => Some(Mapping(g, level, w, u))
      case Link(g, w, u) =>
        match Lookup(t, g, level - 1, page)
        case None => None
        case Some(m) => Some(m.(writable := m.writable && w, user := m.user && u))
  }

  /** `translate_addr`: the start of the page frame, 4 KiB or huge, plus the offset in it. */
  ghost function TranslateAddr(t: Tables, root: nat, addr: nat): Option<nat>
    requires Sound(t) && root in t
  {
    match Lookup(t, root, 4, addr / FRAME_SIZE)
    case None => None
    case Some(m) =>
      if 1 <= m.level <= 4 then Some(m.frame * FRAME_SIZE + addr % (FRAME_SIZE * Span(m.level - 1))) else None
  }

  /** The plain page-to-frame map: a huge page is a run of consecutive frames. */
  ghost function FrameOf(t: Tables, root: nat, page: nat): Option<nat>
    requires Sound(t) && root in t
  {
    match Lookup(t, root, 4, page)
    case None => None
    case Some(m) => if 1 <= m.level <= 4 then Some(m.frame + page % Span(m.level - 1)) else None
  }

  lemma {:induction false} LookupLevel(t: Tables, f: nat, level: nat, page: nat)
    requires Sound(t) && f in t && level <= 4
    ensures Lookup(t, f, level, page).Some? ==> 1 <= Lookup(t, f, level, page).value.level <= level
    decreases level
  {
    if level > 0 && t[f][Index(page, level)].Link? {
      LookupLevel(t, t[f][Index(page, level)].frame, level - 1, page);
    }
  }

  lemma OffsetSplits(addr: nat, level: nat)
    requires 1 <= level <= 4
    ensures addr % (FRAME_SIZE * Span(level - 1))
         == (addr / FRAME_SIZE) % Span(level - 1) * FRAME_SIZE + addr % FRAME_SIZE
  {
  }

  /** Translation through the tables is the page-to-frame map with the page offset kept. */
  lemma TranslationKeepsOffset(t: Tables, root: nat, addr: nat)
    requires Sound(t) && root in t
    ensures TranslateAddr(t, root, addr)
         == match FrameOf(t, root, addr / FRAME_SIZE)
            case None => None
            case Some(frame) => Some(frame * FRAME_SIZE + addr % FRAME_SIZE)
  {
    var page := addr / FRAME_SIZE;
    LookupLevel(t, root, 4, page);
    match Lookup(t, root, 4, page) {
      case None =>
      case Some(m) => OffsetSplits(addr, m.level);
    }
  }

  // ------------------------------------------------------------ tables as a tree

  /** The place of a table: its level, and the pages it covers. */
  datatype Place = Place(level: nat, prefix: nat)

  ghost predicate EntryInPlace(t: Tables, place: map<nat, Place>, f: nat, i: nat)
    requires f in t && f in place && i < |t[f]|
  {
    match t[f][i]
    case Absent => true
    case Leaf(_, _, _) => place[f].level <= 3
    case Link(g, _, _) =>
      && place[f].level >= 2
      && g in place
      && place[g] == Place(place[f].level - 1, place[f].prefix * ENTRIES + i)
  }

  /** Each table has one place, links lead one level down, and the root covers everything. */
  ghost predicate Labelled(t: Tables, root: nat, place: map<nat, Place>) {
    && place.Keys == t.Keys
    && root in t && place[root] == Place(4, 0)
    && (forall f :: f in t ==> |t[f]| == ENTRIES && 1 <= place[f].level <= 4)
    && (forall f, i: nat :: f in t && i < |t[f]| ==> EntryInPlace(t, place, f, i))
  }

  ghost predicate WellFormed(t: Tables, root: nat) {
    exists place :: Labelled(t, root, place)
  }

  lemma LabelledIsSound(t: Tables, root: nat, place: map<nat, Place>)
    requires Labelled(t, root, place)
    ensures Sound(t)
  {
    forall f, i | f in t && 0 <= i < |t[f]| && t[f][i].Link?
      ensures t[f][i].frame in t
    {
      assert EntryInPlace(t, place, f, i);
    }
  }

  /** The table `f` is where a walk for `page` stands at the level. */
  ghost predicate Covers(place: map<nat, Place>, f: nat, level: nat, page: nat)
    requires level <= 4
  {
    f in place && place[f] == Place(level, page / Span(level))
  }

  lemma StepDown(t: Tables, root: nat, place: map<nat, Place>, f: nat, level: nat, page: nat)
    requires Labelled(t, root, place) && 1 <= level <= 4 && Covers(place, f, level, page)
    ensures t[f][Index(page, level)].Link? ==>
              level >= 2 && Covers(place, t[f][Index(page, level)].frame, level - 1, page)
  {
    assert EntryInPlace(t, place, f, Index(page, level));
    PrefixSplits(page, level);
  }

  // ---------------------------------------------------------- single updates

  function SetEntry(t: Tables, f: nat, i: nat, e: Entry): Tables
    requires f in t && i < |t[f]|
  {
    t[f := t[f][i := e]]
  }

  /** The two walks lead to the same place; only the write permission may have grown. */
  ghost predicate Unmoved(a: Option<Mapping>, b: Option<Mapping>) {
    match a
    case None => b == None
    case Some(m) =>
      b.Some? && b.value == m.(writable := b.value.writable) && (m.writable ==> b.value.writable)
  }

  /** Some page of `pages` shares with `page` the table entry that the walk meets at the level. */
  ghost predicate Shares(pages: set<nat>, level: nat, page: nat)
    requires 1 <= level <= 4
  {
    exists p :: p in pages && p / Span(level - 1) == page / Span(level - 1)
  }

  /** The entry counts as writable: it is, or it stands above level 1 on the walk of one of `pages`. */
  ghost predicate OpenEntry(e: Entry, pages: set<nat>, level: nat, page: nat)
    requires 1 <= level <= 4 && !e.Absent?
  {
    e.writable || (level >= 2 && Shares(pages, level, page))
  }

  /** The walk for `page` with every entry above level 1 that it shares with a walk for `pages` made writable. */
  ghost function Opened(t: Tables, f: nat, level: nat, pages: set<nat>, page: nat): Option<Mapping>
    requires Sound(t) && f in t && level <= 4
    decreases level, f
  {
    if level == 0 then None
    else
      var e := t[f][Index(page, level)];
      match e
      case Absent => None
      case Leaf(g, _, u) => Some(Mapping(g, level, OpenEntry(e, pages, level, page), u))
      case Link(g, _, u) =>
        match Opened(t, g, level - 1, pages, page)
        case None => None
        case Some(m) =>
          Some(m.(writable := m.writable && OpenEntry(e, pages, level, page), user := m.user && u))
  }

  /** Opening nothing is looking up. */
  lemma {:induction false} OpenedNone(t: Tables, f: nat, level: nat, page: nat)
    requires Sound(t) && f in t && level <= 4
    ensures Opened(t, f, level, {}, page) == Lookup(t, f, level, page)
    decreases level
  {
    if level > 0 && t[f][Index(page, level)].Link? {
      OpenedNone(t, t[f][Index(page, level)].frame, level - 1, page);
    }
  }

  /** Opening moves nothing and takes no permission away. */
  lemma {:induction false} OpenedIsUnmoved(t: Tables, f: nat, level: nat, pages: set<nat>, page: nat)
    requires Sound(t) && f in t && level <= 4
    ensures Unmoved(Lookup(t, f, level, page), Opened(t, f, level, pages, page))
    decreases level
  {
    if level > 0 && t[f][Index(page, level)].Link? {
      OpenedIsUnmoved(t, t[f][Index(page, level)].frame, level - 1, pages, page);
    }
  }

  /** The entry that the walk for `page` meets at level `at` is there and not writable. */
  ghost predicate ReadOnlyAt(t: Tables, f: nat, level: nat, page: nat, at: nat)
    requires Sound(t) && f in t && level <= 4
    decreases level, f
  {
    level > 0 &&
    var e := t[f][Index(page, level)];
    if at == level then !e.Absent? && !e.writable
    else e.Link? && ReadOnlyAt(t, e.frame, level - 1, page, at)
  }

  lemma {:induction false} ReadOnlyBelow(t: Tables, f: nat, level: nat, page: nat, at: nat)
    requires Sound(t) && f in t && level <= 4 && ReadOnlyAt(t, f, level, page, at)
    ensures 1 <= at <= level
    decreases level
  {
    if at != level {
      ReadOnlyBelow(t, t[f][Index(page, level)].frame, level - 1, page, at);
    }
  }

  /** If the walk for `page` meets a read-only entry at the level, `pages` open it. */
  ghost predicate OpensAt(t: Tables, f: nat, level: nat, pages: set<nat>, page: nat, at: nat)
    requires Sound(t) && f in t && level <= 4 && 1 <= at <= 4
  {
    ReadOnlyAt(t, f, level, page, at) ==> at >= 2 && Shares(pages, at, page)
  }

  /** Every read-only entry on the walk for `page` is opened by `pages`. */
  ghost predicate OpensAll(t: Tables, f: nat, level: nat, pages: set<nat>, page: nat)
    requires Sound(t) && f in t && level <= 4
  {
    && OpensAt(t, f, level, pages, page, 1)
    && OpensAt(t, f, level, pages, page, 2)
    && OpensAt(t, f, level, pages, page, 3)
    && OpensAt(t, f, level, pages, page, 4)
  }

  lemma OpensAtDown(t: Tables, f: nat, level: nat, pages: set<nat>, page: nat, at: nat)
    requires Sound(t) && f in t && 1 <= level <= 4 && 1 <= at <= 4 && t[f][Index(page, level)].Link?
    ensures var e := t[f][Index(page, level)];
            OpensAt(t, f, level, pages, page, at)
            <==> if at == level then OpenEntry(e, pages, level, page)
                 else OpensAt(t, e.frame, level - 1, pages, page, at)
    ensures OpensAt(t, t[f][Index(page, level)].frame, level - 1, pages, page, level)
  {
    var e := t[f][Index(page, level)];
    if ReadOnlyAt(t, e.frame, level - 1, page, level) {
      ReadOnlyBelow(t, e.frame, level - 1, page, level);
    }
  }

  lemma OpensAllDown(t: Tables, f: nat, level: nat, pages: set<nat>, page: nat)
    requires Sound(t) && f in t && 1 <= level <= 4 && t[f][Index(page, level)].Link?
    ensures var e := t[f][Index(page, level)];
            OpensAll(t, f, level, pages, page)
            <==> OpenEntry(e, pages, level, page) && OpensAll(t, e.frame, level - 1, pages, page)
  {
    OpensAtDown(t, f, level, pages, page, 1);
    OpensAtDown(t, f, level, pages, page, 2);
    OpensAtDown(t, f, level, pages, page, 3);
    OpensAtDown(t, f, level, pages, page, 4);
  }

  /** Opening makes a mapped page writable exactly when it opens every read-only entry on its walk. */
  lemma {:induction false} OpenedWritable(t: Tables, f: nat, level: nat, pages: set<nat>, page: nat)
    requires Sound(t) && f in t && level <= 4 && Opened(t, f, level, pages, page).Some?
    ensures Opened(t, f, level, pages, page).value.writable <==> OpensAll(t, f, level, pages, page)
    decreases level
  {
    var e := t[f][Index(page, level)];
    if e.Link? {
      OpenedWritable(t, e.frame, level - 1, pages, page);
      OpensAllDown(t, f, level, pages, page);
    } else {
      assert OpensAt(t, f, level, pages, page, level) <==> OpenEntry(e, pages, level, page);
    }
  }

  /** Making an entry writable. */
  function Raised(e: Entry): Entry
    requires !e.Absent?
  {
    e.(writable := true)
  }

  lemma RaiseKeepsLabels(t: Tables, root: nat, place: map<nat, Place>, f: nat, i: nat)
    requires Labelled(t, root, place) && f in t && i < ENTRIES && !t[f][i].Absent?
    ensures Labelled(SetEntry(t, f, i, Raised(t[f][i])), root, place)
  {
    var t' := SetEntry(t, f, i, Raised(t[f][i]));
    forall g, j: nat | g in t' && j < |t'[g]|
      ensures EntryInPlace(t', place, g, j)
    {
      assert EntryInPlace(t, place, g, j);
    }
  }

  lemma SameEntryIsShared(
      place: map<nat, Place>, f: nat, raised: nat, mapped: nat, pages: set<nat>, level: nat, page: nat)
    requires 1 <= raised <= 4 && Covers(place, f, raised, mapped) && mapped in pages
    requires 1 <= level <= 4 && Covers(place, f, level, page) && Index(page, level) == Index(mapped, raised)
    ensures level == raised && Shares(pages, level, page)
  {
    PrefixSplits(page, level);
    PrefixSplits(mapped, level);
  }

  /** Raising an entry on the walk of an opened page changes no opened walk. */
  lemma {:induction false} RaiseKeepsOpened(
      t: Tables, root: nat, place: map<nat, Place>, f: nat, raised: nat, mapped: nat,
      pages: set<nat>, h: nat, level: nat, page: nat)
    requires Labelled(t, root, place) && Sound(t) && 2 <= raised <= 4 && Covers(place, f, raised, mapped)
    requires f in t && !t[f][Index(mapped, raised)].Absent? && mapped in pages
    requires Sound(SetEntry(t, f, Index(mapped, raised), Raised(t[f][Index(mapped, raised)])))
    requires 1 <= level <= 4 && Covers(place, h, level, page)
    ensures Opened(SetEntry(t, f, Index(mapped, raised), Raised(t[f][Index(mapped, raised)])), h, level, pages, page)
         == Opened(t, h, level, pages, page)
    decreases level
  {
    hide Index, Span, EntryInPlace;
    StepDown(t, root, place, h, level, page);
    if h == f && Index(page, level) == Index(mapped, raised) {
      SameEntryIsShared(place, f, raised, mapped, pages, level, page);
    }
    if t[h][Index(page, level)].Link? {
      RaiseKeepsOpened(t, root, place, f, raised, mapped, pages, t[h][Index(page, level)].frame, level - 1, page);
    }
  }

  /** A fresh empty table `g` hung under an absent entry. */
  function Graft(t: Tables, f: nat, i: nat, g: nat): Tables
    requires f in t && i < |t[f]|
  {
    SetEntry(t, f, i, Link(g, true, false))[g := EmptyTable()]
  }

  lemma GraftKeepsLabels(t: Tables, root: nat, place: map<nat, Place>, f: nat, i: nat, g: nat)
    requires Labelled(t, root, place) && f in t && i < ENTRIES && t[f][i] == Absent
    requires g !in t && place[f].level >= 2
    ensures Labelled(Graft(t, f, i, g), root, place[g := Place(place[f].level - 1, place[f].prefix * ENTRIES + i)])
  {
    var t' := Graft(t, f, i, g);
    var place' := place[g := Place(place[f].level - 1, place[f].prefix * ENTRIES + i)];
    forall h, j: nat | h in t' && j < |t'[h]|
      ensures EntryInPlace(t', place', h, j)
    {
      if h != g {
        assert EntryInPlace(t, place, h, j);
      }
    }
  }

  lemma EmptyOpened(t: Tables, g: nat, level: nat, pages: set<nat>, page: nat)
    requires Sound(t) && g in t && level <= 4 && t[g] == EmptyTable()
    ensures Opened(t, g, level, pages, page) == None
  {
  }

  lemma {:induction false} GraftKeepsOpened(
      t: Tables, f: nat, i: nat, g: nat, pages: set<nat>, h: nat, level: nat, page: nat)
    requires Sound(t) && f in t && i < ENTRIES && t[f][i] == Absent && g !in t
    requires Sound(Graft(t, f, i, g)) && h in t && level <= 4
    ensures Opened(Graft(t, f, i, g), h, level, pages, page) == Opened(t, h, level, pages, page)
    decreases level
  {
    hide Index, Span, EmptyTable;
    if level > 0 {
      var e := t[h][Index(page, level)];
      if e.Link? {
        GraftKeepsOpened(t, f, i, g, pages, e.frame, level - 1, page);
      } else if h == f && Index(page, level) == i {
        EmptyOpened(Graft(t, f, i, g), g, level - 1, pages, page);
      }
    }
  }

  lemma LeafKeepsLabels(t: Tables, root: nat, place: map<nat, Place>, f: nat, i: nat, data: nat)
    requires Labelled(t, root, place) && f in t && i < ENTRIES && place[f].level == 1
    ensures Labelled(SetEntry(t, f, i, Leaf(data, true, false)), root, place)
  {
    var t' := SetEntry(t, f, i, Leaf(data, true, false));
    forall g, j: nat | g in t' && j < |t'[g]|
      ensures EntryInPlace(t', place, g, j)
    {
      assert EntryInPlace(t, place, g, j);
    }
  }

  /** A new leaf in a last-level table is seen by no page but its own. */
  lemma {:induction false} LeafKeepsOpened(
      t: Tables, root: nat, place: map<nat, Place>, f: nat, mapped: nat, data: nat,
      pages: set<nat>, h: nat, level: nat, page: nat)
    requires Labelled(t, root, place) && Covers(place, f, 1, mapped)
    requires Sound(t) && Sound(SetEntry(t, f, Index(mapped, 1), Leaf(data, true, false)))
    requires 1 <= level <= 4 && Covers(place, h, level, page) && page != mapped
    ensures Opened(SetEntry(t, f, Index(mapped, 1), Leaf(data, true, false)), h, level, pages, page)
         == Opened(t, h, level, pages, page)
    decreases level
  {
    StepDown(t, root, place, h, level, page);
    if h == f {
      PrefixSplits(page, 1);
      PrefixSplits(mapped, 1);
    }
    if t[h][Index(page, level)].Link? {
      LeafKeepsOpened(t, root, place, f, mapped, data, pages, t[h][Index(page, level)].frame, level - 1, page);
    }
  }

  // ------------------------------------------------------------------- map_to

  datatype MapResult = Ok | FrameAllocationFailed | ParentEntryHugePage | PageAlreadyMapped(frame: nat)

  /** The tables, and how many frames the allocator has been asked for. */
  datatype Memory = Memory(tables: Tables, next: nat)

  /** `map_to` from a table of the level down; `frames` is what the allocator walks. */
  ghost function MapFrom(frames: seq<nat>, m: Memory, f: nat, level: nat, page: nat, data: nat): (r: (Memory, MapResult))
    requires Sound(m.tables) && f in m.tables && 1 <= level <= 4
    ensures Sound(r.0.tables)
    decreases level, f
  {
    var i := Index(page, level);
    var e := m.tables[f][i];
    if level == 1 then
      if e != Absent then (m, PageAlreadyMapped(data))
      else (m.(tables := SetEntry(m.tables, f, i, Leaf(data, true, false))), Ok)
    else
      match e
      case Absent =>
        (match Nth(frames, m.next)
         case None => (m.(next := m.next + 1), FrameAllocationFailed)
         case Some(g) => MapFrom(frames, Memory(Graft(m.tables, f, i, g), m.next + 1), g, level - 1, page, data))
      case Leaf(_, _, _) =>
        (m.(tables := SetEntry(m.tables, f, i, Raised(e))), ParentEntryHugePage)
      case Link(g, _, _) =>
        MapFrom(frames, m.(tables := SetEntry(m.tables, f, i, Raised(e))), g, level - 1, page, data)
  }

  /** Frames not handed out yet hold no table, and no frame is listed twice. */
  ghost predicate FreshFrames(frames: seq<nat>, m: Memory) {
    Distinct(frames) && forall k :: m.next <= k < |frames| ==> frames[k] !in m.tables
  }

  /** `map_to` goes one level down: along a link, or along a table it creates. */
  ghost predicate GoesDown(frames: seq<nat>, m: Memory, f: nat, level: nat, page: nat)
    requires Sound(m.tables) && f in m.tables
  {
    && 2 <= level <= 4
    && var e := m.tables[f][Index(page, level)]; e.Link? || (e.Absent? && m.next < |frames|)
  }

  /** The memory after that step, and the table it leads to. */
  ghost function Down(frames: seq<nat>, m: Memory, f: nat, level: nat, page: nat): (r: (Memory, nat))
    requires Sound(m.tables) && f in m.tables && GoesDown(frames, m, f, level, page)
    ensures Sound(r.0.tables) && r.1 in r.0.tables
    ensures forall data :: MapFrom(frames, m, f, level, page, data)
                        == MapFrom(frames, r.0, r.1, level - 1, page, data)
  {
    var i := Index(page, level);
    var e := m.tables[f][i];
    if e.Absent? then (Memory(Graft(m.tables, f, i, frames[m.next]), m.next + 1), frames[m.next])
    else (m.(tables := SetEntry(m.tables, f, i, Raised(e))), e.frame)
  }

  /** The labels after that step: a created table gets its own. */
  ghost function DownPlace(frames: seq<nat>, m: Memory, f: nat, level: nat, page: nat, place: map<nat, Place>)
      : map<nat, Place>
    requires Sound(m.tables) && f in m.tables && GoesDown(frames, m, f, level, page)
  {
    if m.tables[f][Index(page, level)].Absent?
    then place[frames[m.next] := Place(level - 1, page / Span(level - 1))]
    else place
  }

  lemma DownKeepsTree(frames: seq<nat>, m: Memory, f: nat, level: nat, page: nat, root: nat, place: map<nat, Place>)
    requires Labelled(m.tables, root, place) && Sound(m.tables) && FreshFrames(frames, m)
    requires f in m.tables && GoesDown(frames, m, f, level, page) && Covers(place, f, level, page)
    ensures var (m1, g) := Down(frames, m, f, level, page);
            var place1 := DownPlace(frames, m, f, level, page, place);
            && Labelled(m1.tables, root, place1)
            && FreshFrames(frames, m1)
            && Covers(place1, g, level - 1, page)
  {
    var i := Index(page, level);
    StepDown(m.tables, root, place, f, level, page);
    PrefixSplits(page, level);
    if m.tables[f][i].Absent? {
      GraftKeepsLabels(m.tables, root, place, f, i, frames[m.next]);
    } else {
      RaiseKeepsLabels(m.tables, root, place, f, i);
    }
  }

  ghost predicate TakenBetween(frames: seq<nat>, lo: nat, hi: nat, h: nat) {
    exists k :: lo <= k < hi && k < |frames| && h == frames[k]
  }

  /** Tables keep their places, those above the level keep their contents, new ones stand in frames just taken. */
  ghost predicate Grew(frames: seq<nat>, m: Memory, m': Memory,
                       place: map<nat, Place>, place': map<nat, Place>, level: nat) {
    && m.next <= m'.next
    && (forall h :: h in place ==> h in place' && place'[h] == place[h])
    && (forall h :: h in m.tables ==> h in m'.tables)
    && (forall h :: h in m.tables && h in place && place[h].level > level ==> m'.tables[h] == m.tables[h])
    && (forall h :: h in m'.tables ==> h in m.tables || TakenBetween(frames, m.next, m'.next, h))
  }

  lemma GrewTrans(frames: seq<nat>, a: Memory, b: Memory, c: Memory,
                  pa: map<nat, Place>, pb: map<nat, Place>, pc: map<nat, Place>, level: nat)
    requires level >= 1 && Grew(frames, a, b, pa, pb, level) && Grew(frames, b, c, pb, pc, level - 1)
    ensures Grew(frames, a, c, pa, pc, level)
  {
    forall h | h in c.tables && h !in a.tables
      ensures TakenBetween(frames, a.next, c.next, h)
    {
      if h in b.tables {
        var k :| a.next <= k < b.next && k < |frames| && h == frames[k];
        assert k < c.next;
      } else {
        var k :| b.next <= k < c.next && k < |frames| && h == frames[k];
        assert a.next <= k;
      }
    }
  }

  /** That step changes one entry of `f`, and creates at most one table. */
  lemma DownGrows(frames: seq<nat>, m: Memory, f: nat, level: nat, page: nat, root: nat, place: map<nat, Place>)
    requires Labelled(m.tables, root, place) && Sound(m.tables) && FreshFrames(frames, m)
    requires f in m.tables && GoesDown(frames, m, f, level, page) && Covers(place, f, level, page)
    ensures Grew(frames, m, Down(frames, m, f, level, page).0, place, DownPlace(frames, m, f, level, page, place), level)
  {
    var m1 := Down(frames, m, f, level, page).0;
    forall h | h in m1.tables && h !in m.tables
      ensures TakenBetween(frames, m.next, m1.next, h)
    {
      assert h == frames[m.next];
    }
  }

  /** Afterwards the entry for the page is a writable link to the table below. */
  lemma DownLinks(frames: seq<nat>, m: Memory, f: nat, level: nat, page: nat, root: nat, place: map<nat, Place>)
    requires Labelled(m.tables, root, place) && Sound(m.tables) && FreshFrames(frames, m)
    requires f in m.tables && GoesDown(frames, m, f, level, page) && Covers(place, f, level, page)
    ensures var (m1, g) := Down(frames, m, f, level, page);
            && f in m1.tables
            && var e := m1.tables[f][Index(page, level)]; e.Link? && e.frame == g && e.writable
    ensures var place1 := DownPlace(frames, m, f, level, page, place);
            f in place1 && place1[f].level == level
  {
    StepDown(m.tables, root, place, f, level, page);
  }

  /** With the page's own walk opened, every walk is as before that step. */
  lemma DownKeepsOpened(frames: seq<nat>, m: Memory, f: nat, level: nat, page: nat, root: nat, place: map<nat, Place>,
                        pages: set<nat>, h: nat, from: nat, other: nat)
    requires Labelled(m.tables, root, place) && Sound(m.tables) && FreshFrames(frames, m)
    requires f in m.tables && GoesDown(frames, m, f, level, page) && Covers(place, f, level, page)
    requires 1 <= from <= 4 && Covers(place, h, from, other) && page in pages
    ensures h in Down(frames, m, f, level, page).0.tables
    ensures Opened(Down(frames, m, f, level, page).0.tables, h, from, pages, other)
         == Opened(m.tables, h, from, pages, other)
  {
    var i := Index(page, level);
    if m.tables[f][i].Absent? {
      GraftKeepsOpened(m.tables, f, i, frames[m.next], pages, h, from, other);
    } else {
      RaiseKeepsOpened(m.tables, root, place, f, level, page, pages, h, from, other);
    }
  }

  /** `map_to` stops at this level: with an error, or in a last-level table. */
  lemma StopKeepsTree(
      frames: seq<nat>, m: Memory, f: nat, level: nat, page: nat, data: nat, root: nat, place: map<nat, Place>)
    requires Labelled(m.tables, root, place) && Sound(m.tables) && FreshFrames(frames, m)
    requires 1 <= level <= 4 && Covers(place, f, level, page) && !GoesDown(frames, m, f, level, page)
    ensures var m' := MapFrom(frames, m, f, level, page, data).0;
            Labelled(m'.tables, root, place) && FreshFrames(frames, m') && Grew(frames, m, m', place, place, level)
  {
    var i := Index(page, level);
    if level == 1 {
      LeafKeepsLabels(m.tables, root, place, f, i, data);
    } else if m.tables[f][i].Leaf? {
      RaiseKeepsLabels(m.tables, root, place, f, i);
    }
  }

  /** What a call of `map_to` keeps: the tree, the fresh frames, and every table above its level. */
  lemma {:induction false} MapFromKeepsTree(
      frames: seq<nat>, m: Memory, f: nat, level: nat, page: nat, data: nat, root: nat, place: map<nat, Place>)
      returns (place': map<nat, Place>)
    requires Labelled(m.tables, root, place) && Sound(m.tables) && FreshFrames(frames, m)
    requires 1 <= level <= 4 && Covers(place, f, level, page)
    ensures var m' := MapFrom(frames, m, f, level, page, data).0;
            Labelled(m'.tables, root, place') && FreshFrames(frames, m') && Grew(frames, m, m', place, place', level)
    decreases level
  {
    if GoesDown(frames, m, f, level, page) {
      DownKeepsTree(frames, m, f, level, page, root, place);
      DownGrows(frames, m, f, level, page, root, place);
      var (m1, g) := Down(frames, m, f, level, page);
      var place1 := DownPlace(frames, m, f, level, page, place);
      place' := MapFromKeepsTree(frames, m1, g, level - 1, page, data, root, place1);
      GrewTrans(frames, m, m1, MapFrom(frames, m1, g, level - 1, page, data).0, place, place1, place', level);
    } else {
      place' := place;
      StopKeepsTree(frames, m, f, level, page, data, root, place);
    }
  }

  /** That link still stands when the whole call is over. */
  lemma LinkStays(
      frames: seq<nat>, m: Memory, f: nat, level: nat, page: nat, data: nat, root: nat, place: map<nat, Place>)
    requires Labelled(m.tables, root, place) && Sound(m.tables) && FreshFrames(frames, m)
    requires f in m.tables && GoesDown(frames, m, f, level, page) && Covers(place, f, level, page)
    ensures var t, g := MapFrom(frames, m, f, level, page, data).0.tables, Down(frames, m, f, level, page).1;
            && f in t
            && var e := t[f][Index(page, level)]; e.Link? && e.frame == g && e.writable
  {
    DownKeepsTree(frames, m, f, level, page, root, place);
    DownLinks(frames, m, f, level, page, root, place);
    var (m1, g) := Down(frames, m, f, level, page);
    var place1 := DownPlace(frames, m, f, level, page, place);
    var place' := MapFromKeepsTree(frames, m1, g, level - 1, page, data, root, place1);
  }

  /** On success the page leads to its frame, writable at every level and never to user code. */
  lemma {:induction false} MapFromHits(
      frames: seq<nat>, m: Memory, f: nat, level: nat, page: nat, data: nat, root: nat, place: map<nat, Place>)
    requires Labelled(m.tables, root, place) && Sound(m.tables) && FreshFrames(frames, m)
    requires 1 <= level <= 4 && Covers(place, f, level, page)
    requires MapFrom(frames, m, f, level, page, data).1 == Ok
    ensures f in MapFrom(frames, m, f, level, page, data).0.tables
    ensures Lookup(MapFrom(frames, m, f, level, page, data).0.tables, f, level, page)
         == Some(Mapping(data, 1, true, false))
    decreases level
  {
    if level > 1 {
      LinkStays(frames, m, f, level, page, data, root, place);
      DownKeepsTree(frames, m, f, level, page, root, place);
      var (m1, g) := Down(frames, m, f, level, page);
      MapFromHits(frames, m1, g, level - 1, page, data, root, DownPlace(frames, m, f, level, page, place));
    }
  }

  lemma StopKeepsOpened(
      frames: seq<nat>, m: Memory, f: nat, level: nat, page: nat, data: nat, root: nat, place: map<nat, Place>,
      pages: set<nat>, h: nat, from: nat, other: nat)
    requires Labelled(m.tables, root, place) && Sound(m.tables) && FreshFrames(frames, m)
    requires 1 <= level <= 4 && Covers(place, f, level, page) && !GoesDown(frames, m, f, level, page)
    requires 1 <= from <= 4 && Covers(place, h, from, other) && page in pages
    requires other == page ==> MapFrom(frames, m, f, level, page, data).1 != Ok
    ensures h in MapFrom(frames, m, f, level, page, data).0.tables
    ensures Opened(MapFrom(frames, m, f, level, page, data).0.tables, h, from, pages, other)
         == Opened(m.tables, h, from, pages, other)
  {
    var i := Index(page, level);
    if level == 1 {
      if m.tables[f][i] == Absent {
        LeafKeepsOpened(m.tables, root, place, f, page, data, pages, h, from, other);
      }
    } else if m.tables[f][i].Leaf? {
      RaiseKeepsOpened(m.tables, root, place, f, level, page, pages, h, from, other);
    }
  }

  /** With the page's own walk opened, the whole call changes no walk but, on success, the page's. */
  lemma {:induction false} MapFromKeepsOpened(
      frames: seq<nat>, m: Memory, f: nat, level: nat, page: nat, data: nat, root: nat, place: map<nat, Place>,
      pages: set<nat>, h: nat, from: nat, other: nat)
    requires Labelled(m.tables, root, place) && Sound(m.tables) && FreshFrames(frames, m)
    requires 1 <= level <= 4 && Covers(place, f, level, page)
    requires 1 <= from <= 4 && Covers(place, h, from, other) && page in pages
    requires other == page ==> MapFrom(frames, m, f, level, page, data).1 != Ok
    ensures h in MapFrom(frames, m, f, level, page, data).0.tables
    ensures Opened(MapFrom(frames, m, f, level, page, data).0.tables, h, from, pages, other)
         == Opened(m.tables, h, from, pages, other)
    decreases level
  {
    if GoesDown(frames, m, f, level, page) {
      DownKeepsTree(frames, m, f, level, page, root, place);
      DownGrows(frames, m, f, level, page, root, place);
      DownKeepsOpened(frames, m, f, level, page, root, place, pages, h, from, other);
      var (m1, g) := Down(frames, m, f, level, page);
      var place1 := DownPlace(frames, m, f, level, page, place);
      MapFromKeepsOpened(frames, m1, g, level - 1, page, data, root, place1, pages, h, from, other);
    } else {
      StopKeepsOpened(frames, m, f, level, page, data, root, place, pages, h, from, other);
    }
  }

  /** Down from `f`, every entry above level 1 on the walk for the page is writable. */
  ghost predicate RaisedWalk(t: Tables, f: nat, level: nat, page: nat)
    requires Sound(t) && f in t && level <= 4
    decreases level, f
  {
    level <= 1 ||
    var e := t[f][Index(page, level)];
    match e
    case Absent => true
    case Leaf(_, w, _) => w
    case Link(g, w, _) => w && RaisedWalk(t, g, level - 1, page)
  }

  /** The call leaves the page's walk writable as far as it goes, whether it succeeds or not. */
  lemma {:induction false} MapFromRaises(
      frames: seq<nat>, m: Memory, f: nat, level: nat, page: nat, data: nat, root: nat, place: map<nat, Place>)
    requires Labelled(m.tables, root, place) && Sound(m.tables) && FreshFrames(frames, m)
    requires 1 <= level <= 4 && Covers(place, f, level, page)
    ensures f in MapFrom(frames, m, f, level, page, data).0.tables
    ensures RaisedWalk(MapFrom(frames, m, f, level, page, data).0.tables, f, level, page)
    decreases level
  {
    if GoesDown(frames, m, f, level, page) {
      LinkStays(frames, m, f, level, page, data, root, place);
      DownKeepsTree(frames, m, f, level, page, root, place);
      var (m1, g) := Down(frames, m, f, level, page);
      MapFromRaises(frames, m1, g, level - 1, page, data, root, DownPlace(frames, m, f, level, page, place));
    }
  }

  lemma StrangerSharesNothing(page: nat, other: nat, level: nat)
    requires 1 <= level <= 4 && page / Span(level) != other / Span(level)
    ensures page / Span(level - 1) != other / Span(level - 1)
  {
    PrefixSplits(page, level);
    PrefixSplits(other, level);
  }

  /** Opening the walk of a page that has already parted from this one changes nothing. */
  lemma {:induction false} StrangerOpensNothing(
      t: Tables, f: nat, level: nat, pages: set<nat>, page: nat, other: nat)
    requires Sound(t) && f in t && level <= 4 && page / Span(level) != other / Span(level)
    ensures Opened(t, f, level, pages + {page}, other) == Opened(t, f, level, pages, other)
    decreases level
  {
    if level > 0 {
      StrangerSharesNothing(page, other, level);
      assert Shares(pages + {page}, level, other) <==> Shares(pages, level, other);
      if t[f][Index(other, level)].Link? {
        StrangerOpensNothing(t, t[f][Index(other, level)].frame, level - 1, pages, page, other);
      }
    }
  }

  /** Opening a walk that is writable already changes nothing. */
  lemma {:induction false} RaisedOpensNothing(
      t: Tables, root: nat, place: map<nat, Place>, f: nat, level: nat, pages: set<nat>, page: nat, other: nat)
    requires Labelled(t, root, place) && Sound(t) && 1 <= level <= 4
    requires Covers(place, f, level, page) && Covers(place, f, level, other) && RaisedWalk(t, f, level, page)
    ensures Opened(t, f, level, pages + {page}, other) == Opened(t, f, level, pages, other)
    decreases level
  {
    StepDown(t, root, place, f, level, page);
    StepDown(t, root, place, f, level, other);
    PrefixSplits(page, level);
    PrefixSplits(other, level);
    var e := t[f][Index(other, level)];
    if Index(page, level) != Index(other, level) {
      assert Shares(pages + {page}, level, other) <==> Shares(pages, level, other);
      if e.Link? {
        StrangerOpensNothing(t, e.frame, level - 1, pages, page, other);
      }
    } else if e.Link? {
      RaisedOpensNothing(t, root, place, e.frame, level - 1, pages, page, other);
    }
  }

  /**
   What a call of `map_to` does to every page but, on success, its own, permissions
   included: the walk afterwards is the walk before it with the entries shared with the
   page's walk opened.
   */
  lemma MapFromOpens(
      frames: seq<nat>, m: Memory, page: nat, data: nat, root: nat, place: map<nat, Place>, pages: set<nat>, other: nat)
    requires Labelled(m.tables, root, place) && Sound(m.tables) && FreshFrames(frames, m)
    requires page < Span(4) && other < Span(4)
    requires other == page ==> MapFrom(frames, m, root, 4, page, data).1 != Ok
    ensures root in MapFrom(frames, m, root, 4, page, data).0.tables
    ensures Opened(MapFrom(frames, m, root, 4, page, data).0.tables, root, 4, pages, other)
         == Opened(m.tables, root, 4, pages + {page}, other)
  {
    assert page / Span(4) == 0 && other / Span(4) == 0;
    var m' := MapFrom(frames, m, root, 4, page, data).0;
    var place' := MapFromKeepsTree(frames, m, root, 4, page, data, root, place);
    MapFromKeepsOpened(frames, m, root, 4, page, data, root, place, pages + {page}, root, 4, other);
    MapFromRaises(frames, m, root, 4, page, data, root, place);
    RaisedOpensNothing(m'.tables, root, place', root, 4, pages, page, other);
  }

  // ------------------------------------------------------- entry by entry

  /** The entry `i` of the table in frame `h`; a table that is not there has none. */
  ghost function EntryOf(t: Tables, h: nat, i: nat): Entry {
    if h in t && i < |t[h]| then t[h][i] else Absent
  }

  /**
   What a call may do to one entry.  A free entry stays free, or becomes a link to a table
   that was not there before, or a leaf for the frame to map: writable, and not for user
   code.  Any other entry keeps its frame and its user bit, and may become writable.
   */
  ghost predicate Written(before: Tables, data: nat, was: Entry, now: Entry) {
    match was
    case Absent =>
      now == Absent || now == Leaf(data, true, false)
      || (now.Link? && now.writable && !now.user && now.frame !in before)
    case Link(g, w, u) => now == Link(g, w, u) || now == Link(g, true, u)
    case Leaf(g, w, u) => now == Leaf(g, w, u) || now == Leaf(g, true, u)
  }

  /** Every entry of every table after a call of `map_to`, against the same entry before it. */
  lemma {:induction false} MapFromWrites(
      frames: seq<nat>, m: Memory, f: nat, level: nat, page: nat, data: nat, root: nat, place: map<nat, Place>,
      h: nat, i: nat)
    requires Labelled(m.tables, root, place) && Sound(m.tables) && FreshFrames(frames, m)
    requires 1 <= level <= 4 && Covers(place, f, level, page)
    ensures var t := MapFrom(frames, m, f, level, page, data).0.tables;
            Written(m.tables, data, EntryOf(m.tables, h, i), EntryOf(t, h, i))
    decreases level
  {
    if GoesDown(frames, m, f, level, page) {
      DownKeepsTree(frames, m, f, level, page, root, place);
      DownGrows(frames, m, f, level, page, root, place);
      var (m1, g) := Down(frames, m, f, level, page);
      DownWrites(frames, m, f, level, page, data, h, i);
      MapFromWrites(frames, m1, g, level - 1, page, data, root, DownPlace(frames, m, f, level, page, place), h, i);
    }
  }

  lemma DownWrites(frames: seq<nat>, m: Memory, f: nat, level: nat, page: nat, data: nat, h: nat, i: nat)
    requires Sound(m.tables) && FreshFrames(frames, m) && f in m.tables && GoesDown(frames, m, f, level, page)
    ensures Written(m.tables, data, EntryOf(m.tables, h, i), EntryOf(Down(frames, m, f, level, page).0.tables, h, i))
  {
  }

  /** The entry that the walk for `page` meets at level `at`, when it gets there. */
  ghost function WalkEntry(t: Tables, f: nat, level: nat, page: nat, at: nat): Entry
    requires Sound(t) && f in t && level <= 4
    decreases level, f
  {
    if level == 0 then Absent
    else
      var e := t[f][Index(page, level)];
      if at == level then e
      else if e.Link? then WalkEntry(t, e.frame, level - 1, page, at)
      else Absent
  }

  ghost predicate UserAt(t: Tables, f: nat, level: nat, page: nat, at: nat)
    requires Sound(t) && f in t && level <= 4
  {
    var e := WalkEntry(t, f, level, page, at); !e.Absent? && e.user
  }

  ghost predicate WritableAt(t: Tables, f: nat, level: nat, page: nat, at: nat)
    requires Sound(t) && f in t && level <= 4
  {
    var e := WalkEntry(t, f, level, page, at); !e.Absent? && e.writable
  }

  /**
   A walk ends at a leaf with its frame; user code may use the page if and only if the
   entries of all levels down to the leaf let it, and the same goes for writing.
   */
  lemma {:induction false} LookupAgrees(t: Tables, f: nat, level: nat, page: nat)
    requires Sound(t) && f in t && level <= 4 && Lookup(t, f, level, page).Some?
    ensures var m := Lookup(t, f, level, page).value;
            && 1 <= m.level <= level
            && WalkEntry(t, f, level, page, m.level).Leaf? && WalkEntry(t, f, level, page, m.level).frame == m.frame
            && (m.user <==> forall at :: m.level <= at <= level ==> UserAt(t, f, level, page, at))
            && (m.writable <==> forall at :: m.level <= at <= level ==> WritableAt(t, f, level, page, at))
    decreases level
  {
    var e := t[f][Index(page, level)];
    var m := Lookup(t, f, level, page).value;
    LookupLevel(t, f, level, page);
    assert WalkEntry(t, f, level, page, level) == e;
    if e.Link? {
      var g, below := e.frame, level - 1;
      LookupAgrees(t, g, below, page);
      forall at: nat | at <= below
        ensures UserAt(t, f, level, page, at) == UserAt(t, g, below, page, at)
        ensures WritableAt(t, f, level, page, at) == WritableAt(t, g, below, page, at)
      {
      }
      assert UserAt(t, f, level, page, level) == e.user;
      assert WritableAt(t, f, level, page, level) == e.writable;
    } else {
      assert UserAt(t, f, level, page, level) == e.user;
      assert WritableAt(t, f, level, page, level) == e.writable;
    }
  }

  // ---------------------------------------------------------------- outcomes

  /** Where a walk stops: at an absent entry, at a huge page, or at a mapped page. */
  datatype WalkEnd = Gap(level: nat) | Huge | Taken

  ghost function End(t: Tables, f: nat, level: nat, page: nat): WalkEnd
    requires Sound(t) && f in t && 1 <= level <= 4
    decreases level, f
  {
    match t[f][Index(page, level)]
    case Absent => Gap(level)
    case Leaf(_, _, _) => if level == 1 then Taken else Huge
    case Link(g, _, _) => if level == 1 then Taken else End(t, g, level - 1, page)
  }

  lemma {:induction false} GapIsUnmapped(t: Tables, root: nat, place: map<nat, Place>, f: nat, level: nat, page: nat)
    requires Labelled(t, root, place) && Sound(t) && 1 <= level <= 4 && Covers(place, f, level, page)
    ensures End(t, f, level, page).Gap? <==> Lookup(t, f, level, page) == None
    ensures End(t, f, level, page).Gap? ==> 1 <= End(t, f, level, page).level <= level
    ensures End(t, f, level, page) == Taken <==>
              Lookup(t, f, level, page).Some? && Lookup(t, f, level, page).value.level == 1
    decreases level
  {
    StepDown(t, root, place, f, level, page);
    if t[f][Index(page, level)].Link? {
      GapIsUnmapped(t, root, place, t[f][Index(page, level)].frame, level - 1, page);
      LookupLevel(t, t[f][Index(page, level)].frame, level - 1, page);
    }
  }

  function Max(a: nat, b: nat): nat {
    if a < b then b else a
  }

  /** What `map_to` answers and how many frames it takes, told from where the walk stops before it. */
  ghost predicate Outcome(frames: seq<nat>, m: Memory, end: WalkEnd, data: nat, next: nat, r: MapResult) {
    match end
    case Huge => r == ParentEntryHugePage && next == m.next
    case Taken => r == PageAlreadyMapped(data) && next == m.next
    case Gap(k) =>
      if m.next + k - 1 <= Max(|frames|, m.next) then r == Ok && next == m.next + k - 1
      else r == FrameAllocationFailed && next == Max(|frames|, m.next) + 1
  }

  lemma {:induction false} MapFromOutcome(
      frames: seq<nat>, m: Memory, f: nat, level: nat, page: nat, data: nat, root: nat, place: map<nat, Place>)
    requires Labelled(m.tables, root, place) && Sound(m.tables) && FreshFrames(frames, m)
    requires 1 <= level <= 4 && Covers(place, f, level, page)
    ensures var r := MapFrom(frames, m, f, level, page, data);
            Outcome(frames, m, End(m.tables, f, level, page), data, r.0.next, r.1)
    decreases level
  {
    if GoesDown(frames, m, f, level, page) {
      DownKeepsTree(frames, m, f, level, page, root, place);
      var (m1, g) := Down(frames, m, f, level, page);
      var i := Index(page, level);
      if m.tables[f][i].Absent? {
        assert m1.tables[g][Index(page, level - 1)] == Absent;
      } else {
        RaiseKeepsEnd(m.tables, f, i, g, level - 1, page);
      }
      MapFromOutcome(frames, m1, g, level - 1, page, data, root, DownPlace(frames, m, f, level, page, place));
    }
  }

  lemma {:induction false} RaiseKeepsEnd(t: Tables, f: nat, i: nat, h: nat, level: nat, page: nat)
    requires Sound(t) && f in t && i < ENTRIES && !t[f][i].Absent?
    requires Sound(SetEntry(t, f, i, Raised(t[f][i]))) && h in t && 1 <= level <= 4
    ensures End(SetEntry(t, f, i, Raised(t[f][i])), h, level, page) == End(t, h, level, page)
    decreases level
  {
    if level > 1 && t[h][Index(page, level)].Link? {
      RaiseKeepsEnd(t, f, i, t[h][Index(page, level)].frame, level - 1, page);
    }
  }

  /** Pages in the same last-level table share the walk down to it. */
  lemma {:induction false} NeighboursEnd(t: Tables, f: nat, level: nat, p: nat, q: nat)
    requires Sound(t) && f in t && 1 <= level <= 4 && p / ENTRIES == q / ENTRIES
    ensures var a, b := End(t, f, level, p), End(t, f, level, q);
            a == b || ((a == Taken || a == Gap(1)) && (b == Taken || b == Gap(1)))
    decreases level
  {
    if level > 1 {
      NeighboursIndex(p, q, level);
      if t[f][Index(p, level)].Link? {
        NeighboursEnd(t, t[f][Index(p, level)].frame, level - 1, p, q);
      }
    }
  }

  lemma NeighboursIndex(p: nat, q: nat, level: nat)
    requires 2 <= level <= 4 && p / ENTRIES == q / ENTRIES
    ensures Index(p, level) == Index(q, level)
  {
    assert Span(1) == ENTRIES;
    assert p / Span(2) == p / ENTRIES / 512 && q / Span(2) == q / ENTRIES / 512;
    assert p / Span(3) == p / ENTRIES / 0x4_0000 && q / Span(3) == q / ENTRIES / 0x4_0000;
  }
}
