/**
 Address spaces: which page of which region a virtual page stands for, and what keeps
 reference counts, page-table entries and frames in step.

 Objects the kernel reaches through pointers are kept in maps from the pointer to the
 object.  region->pages[i] is slots[Key(region, i)], absent where the pointer is NULL;
 a mapping is found by its space and the first page of its block; addresses are page numbers.
 */
module VmState {
  import opened Sets
  import opened Sma

  const PAGE_BYTES := 4096

  function Zeros(): (c: seq<int>)
    ensures |c| == PAGE_BYTES
  {
    seq(PAGE_BYTES, _ => 0)
  }

  /** The bytes of a page. */
  type Content = c: seq<int> | |c| == PAGE_BYTES witness Zeros()

  datatype Key = Key(owner: nat, at: nat)

  datatype Page = Page(refs: nat, frame: nat)

  /** fill is what a page holds on its first use: zeros, or the file's bytes. */
  datatype Region = Region(refs: nat, size: nat, fill: seq<Content>)

  datatype Mapping = Mapping(size: nat, write: bool, region: nat)

  /** A present user entry. */
  datatype Pte = Pte(frame: nat, rw: bool)

  datatype Vm = Vm(pages: map<nat, Page>, regions: map<nat, Region>, slots: map<Key, nat>,
                   maps: map<Key, Mapping>, pt: map<Key, Pte>, areas: map<nat, Area>,
                   free: set<nat>, mem: map<nat, Content>, next: nat)

  /** The region slots that hold a page. */
  ghost function Holders(slots: map<Key, nat>, p: nat): set<Key> {
    set k | k in slots && slots[k] == p
  }

  /** The mappings of a region. */
  ghost function Users(maps: map<Key, Mapping>, r: nat): set<Key> {
    set k | k in maps && maps[k].region == r
  }

  /** The mapping whose block holds a virtual page. */
  function Home(areas: map<nat, Area>, k: Key): (h: Option<Key>)
    ensures h.Some? ==> h.value.owner == k.owner && h.value.at <= k.at && k.owner in areas
  {
    if k.owner !in areas then None
    else
      var l := areas[k.owner].used;
      var i := FindAt(l, k.at);
      if i < |l| then Some(Key(k.owner, l[i].start)) else None
  }

  /** The region slot a virtual page stands for. */
  function Cell(vm: Vm, k: Key): Option<Key> {
    var h := Home(vm.areas, k);
    if h.None? || h.value !in vm.maps then None
    else Some(Key(vm.maps[h.value].region, k.at - h.value.at))
  }

  function CellContent(vm: Vm, c: Key): Content {
    if c in vm.slots then
      var p := vm.slots[c];
      if p in vm.pages && vm.pages[p].frame in vm.mem then vm.mem[vm.pages[p].frame] else Zeros()
    else if c.owner in vm.regions && c.at < |vm.regions[c.owner].fill| then vm.regions[c.owner].fill[c.at]
    else Zeros()
  }

  /** What a process reads in a virtual page of its space; None where nothing is mapped. */
  function View(vm: Vm, k: Key): Option<Content> {
    var c := Cell(vm, k);
    if c.None? then None else Some(CellContent(vm, c.value))
  }

  // ---- the invariant, pointwise -----------------------------------------------------------

  /** A mapping belongs to a used block of its space and to a region of the block's size. */
  ghost predicate MapAt(vm: Vm, h: Key) {
    h in vm.maps ==>
      var m := vm.maps[h];
      && m.region in vm.regions && vm.regions[m.region].size == m.size
      && h.owner in vm.areas && Block(h.at, m.size) in vm.areas[h.owner].used
  }

  ghost predicate UsedAt(vm: Vm, s: nat, b: Block) {
    s in vm.areas && b in vm.areas[s].used ==>
      Key(s, b.start) in vm.maps && vm.maps[Key(s, b.start)].size == b.size
  }

  ghost predicate AreaAt(vm: Vm, s: nat) {
    s in vm.areas ==> Spaced(vm.areas[s].used)
  }

  /** A region counts its mappings. */
  ghost predicate RegionAt(vm: Vm, r: nat) {
    r in vm.regions ==>
      && vm.regions[r].refs == |Users(vm.maps, r)| && 0 < vm.regions[r].refs
      && |vm.regions[r].fill| == vm.regions[r].size && r < vm.next
  }

  /** A page counts the slots that hold it, and owns a frame that is not free; frame 0 is nobody's. */
  ghost predicate PageAt(vm: Vm, p: nat) {
    p in vm.pages ==>
      && vm.pages[p].refs == |Holders(vm.slots, p)| && 0 < vm.pages[p].refs
      && vm.pages[p].frame !in vm.free && vm.pages[p].frame in vm.mem && vm.pages[p].frame != 0 && p < vm.next
  }

  ghost predicate SlotAt(vm: Vm, k: Key) {
    k in vm.slots ==>
      vm.slots[k] in vm.pages && k.owner in vm.regions && k.at < vm.regions[k.owner].size
  }

  ghost predicate FrameApart(vm: Vm, p: nat, q: nat) {
    p in vm.pages && q in vm.pages && p != q ==> vm.pages[p].frame != vm.pages[q].frame
  }

  /** A region does not hold a page twice. */
  ghost predicate OnceAt(vm: Vm, k: Key, l: Key) {
    k in vm.slots && l in vm.slots && k != l && k.owner == l.owner ==> vm.slots[k] != vm.slots[l]
  }

  /** A region with two mappings is mapped without PROT_WRITE. */
  ghost predicate SharedAt(vm: Vm, h: Key, g: Key) {
    h in vm.maps && g in vm.maps && h != g && vm.maps[h].region == vm.maps[g].region ==> !vm.maps[h].write
  }

  /** The pages of a region mapped without PROT_WRITE are in no other region. */
  ghost predicate SoleAt(vm: Vm, h: Key, k: Key) {
    h in vm.maps && !vm.maps[h].write && k in vm.slots && k.owner == vm.maps[h].region && vm.slots[k] in vm.pages ==>
      vm.pages[vm.slots[k]].refs == 1
  }

  /** The virtual page may be stored to. */
  predicate Writable(vm: Vm, k: Key) {
    var h := Home(vm.areas, k);
    h.Some? && h.value in vm.maps && vm.maps[h.value].write
  }

  /**
   A present entry maps the frame of the page recorded in its region, and a writable entry
   of a mapping with PROT_WRITE points at a page held by one slot only.
   */
  ghost predicate PteAt(vm: Vm, k: Key) {
    k in vm.pt ==>
      var c := Cell(vm, k);
      && c.Some? && c.value in vm.slots && vm.slots[c.value] in vm.pages
      && vm.pages[vm.slots[c.value]].frame == vm.pt[k].frame
      && (Writable(vm, k) && vm.pt[k].rw ==> vm.pages[vm.slots[c.value]].refs == 1)
  }

  /** The blocks of a list follow each other without overlap. */
  ghost predicate Spaced(l: seq<Block>) {
    && (forall i :: 0 <= i < |l| ==> l[i].size > 0)
    && (forall i, j :: 0 <= i < j < |l| ==> l[i].End() <= l[j].start)
  }

  ghost predicate Mappings(vm: Vm) {
    && (forall h {:trigger MapAt(vm, h)} :: MapAt(vm, h))
    && (forall s, b {:trigger UsedAt(vm, s, b)} :: UsedAt(vm, s, b))
    && (forall s {:trigger AreaAt(vm, s)} :: AreaAt(vm, s))
  }

  ghost predicate Regions(vm: Vm) {
    && (forall r {:trigger RegionAt(vm, r)} :: RegionAt(vm, r))
    && (forall h, g {:trigger SharedAt(vm, h, g)} :: SharedAt(vm, h, g))
  }

  ghost predicate Pages(vm: Vm) {
    && 0 !in vm.free
    && (forall p {:trigger PageAt(vm, p)} :: PageAt(vm, p))
    && (forall p, q {:trigger FrameApart(vm, p, q)} :: FrameApart(vm, p, q))
  }

  ghost predicate Slots(vm: Vm) {
    && (forall k {:trigger SlotAt(vm, k)} :: SlotAt(vm, k))
    && (forall k, l {:trigger OnceAt(vm, k, l)} :: OnceAt(vm, k, l))
    && (forall h, k {:trigger SoleAt(vm, h, k)} :: SoleAt(vm, h, k))
  }

  ghost predicate Entries(vm: Vm) {
    forall k {:trigger PteAt(vm, k)} :: PteAt(vm, k)
  }

  /** Holds after every step, and while a space is being torn down. */
  ghost predicate Core(vm: Vm) {
    Mappings(vm) && Regions(vm) && Pages(vm) && Slots(vm) && Entries(vm)
  }

  // ---- first consequences ---------------------------------------------------------------

  lemma HomeIs(vm: Vm, k: Key)
    requires Mappings(vm)
    ensures var h := Home(vm.areas, k);
            h.Some? ==> h.value in vm.maps && h.value.at <= k.at < h.value.at + vm.maps[h.value].size
  {
    var h := Home(vm.areas, k);
    if h.Some? {
      var l := vm.areas[k.owner].used;
      var b := l[FindAt(l, k.at)];
      assert UsedAt(vm, k.owner, b);
    }
  }

  /** Every page of a mapping's block has that mapping as its home. */
  lemma HomeOf(vm: Vm, h: Key, v: nat)
    requires Mappings(vm) && h in vm.maps && h.at <= v < h.at + vm.maps[h].size
    ensures Home(vm.areas, Key(h.owner, v)) == Some(h)
  {
    assert MapAt(vm, h) && AreaAt(vm, h.owner);
    var l := vm.areas[h.owner].used;
    var i :| 0 <= i < |l| && l[i] == Block(h.at, vm.maps[h].size);
    assert l[i].Has(v);
  }

  lemma CellIs(vm: Vm, k: Key)
    requires Core(vm)
    ensures var c := Cell(vm, k); c.Some? ==> c.value.owner in vm.regions && c.value.at < vm.regions[c.value.owner].size
    ensures Cell(vm, k).Some? <==> Home(vm.areas, k).Some?
  {
    HomeIs(vm, k);
    var h := Home(vm.areas, k);
    if h.Some? {
      assert MapAt(vm, h.value);
    }
  }

  /** A page held once is held by that slot alone. */
  lemma HeldOnce(vm: Vm, k: Key, l: Key)
    requires Core(vm) && k in vm.slots && l in vm.slots && vm.slots[k] == vm.slots[l]
    requires vm.slots[k] in vm.pages && vm.pages[vm.slots[k]].refs == 1
    ensures k == l
  {
    var p := vm.slots[k];
    assert PageAt(vm, p);
    assert k in Holders(vm.slots, p) && l in Holders(vm.slots, p);
    OnlyElement(Holders(vm.slots, p), k, l);
  }

  /** No other virtual page anywhere stands for the slot of a writable one. */
  lemma WritableAlone(vm: Vm, k: Key, l: Key)
    requires Core(vm) && Writable(vm, k) && Cell(vm, k).Some? && Cell(vm, l) == Cell(vm, k)
    ensures k == l
  {
    HomeIs(vm, k);
    HomeIs(vm, l);
    var h, g := Home(vm.areas, k).value, Home(vm.areas, l).value;
    assert SharedAt(vm, h, g);
  }
}
