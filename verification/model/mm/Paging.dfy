/** Two-level page tables against one flat table. */
module Paging {
  const ENTRIES: nat := 1024

  /** A table entry: frame and attribute bits; 0 is an entry that is not present. */
  type Entry = int

  class Directory {
    /** For each directory slot the frame of its table, or 0. */
    const dir: array<nat>
    /** The tables, by the frame they occupy. */
    var tables: map<nat, seq<Entry>>

    ghost predicate Valid()
      reads this, dir
    {
      && dir.Length == ENTRIES
      && (forall i :: 0 <= i < ENTRIES && dir[i] != 0 ==> dir[i] in tables && |tables[dir[i]]| == ENTRIES)
      && (forall i, j :: 0 <= i < j < ENTRIES && dir[i] != 0 ==> dir[i] != dir[j])
    }

    /** What the processor finds for a page number. */
    function Lookup(v: nat): Entry
      requires Valid() && v < ENTRIES * ENTRIES
      reads this, dir
    {
      var t := dir[v / ENTRIES];
      if t == 0 then 0 else tables[t][v % ENTRIES]
    }

    constructor ()
      ensures Valid() && fresh(dir) && forall v :: 0 <= v < ENTRIES * ENTRIES ==> Lookup(v) == 0
    {
      dir := new nat[ENTRIES](_ => 0);
      tables := map[];
    }

    /**
     paging_map_page: entry e for page v, in a table allocated on demand in frame f; f is 0 if the
     allocator has none, and a frame that holds no table otherwise.
     */
    method MapPage(v: nat, e: Entry, f: nat) returns (ok: bool)
      requires Valid() && v < ENTRIES * ENTRIES && (f != 0 ==> forall i :: 0 <= i < ENTRIES ==> dir[i] != f)
      modifies this, dir
      ensures Valid() && (ok <==> old(dir[v / ENTRIES]) != 0 || f != 0)
      ensures forall x :: 0 <= x < ENTRIES * ENTRIES ==> Lookup(x) == if ok && x == v then e else old(Lookup(x))
    {
      var i := v / ENTRIES;
      if dir[i] == 0 {
        if f == 0 {
          return false;
        }
        tables := tables[f := seq(ENTRIES, _ => 0)];
        dir[i] := f;
      }
      tables := tables[dir[i] := tables[dir[i]][v % ENTRIES := e]];
      ok := true;
      forall x | 0 <= x < ENTRIES * ENTRIES ensures Lookup(x) == if x == v then e else old(Lookup(x)) {
        SamePage(x, v);
      }
    }

    /** paging_unmap_page */
    method UnmapPage(v: nat)
      requires Valid() && v < ENTRIES * ENTRIES
      modifies this
      ensures Valid()
      ensures forall x :: 0 <= x < ENTRIES * ENTRIES ==> Lookup(x) == if x == v then 0 else old(Lookup(x))
    {
      var t := dir[v / ENTRIES];
      if t != 0 {
        tables := tables[t := tables[t][v % ENTRIES := 0]];
      }
      forall x | 0 <= x < ENTRIES * ENTRIES ensures Lookup(x) == if x == v then 0 else old(Lookup(x)) {
        SamePage(x, v);
      }
    }
  }

  /** Directory slot and table slot together determine the page. */
  lemma SamePage(x: nat, v: nat)
    ensures x / ENTRIES == v / ENTRIES && x % ENTRIES == v % ENTRIES <==> x == v
  {
  }
}
