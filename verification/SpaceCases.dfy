/** An address space that a failed `sbrk` leaves with a page beyond its recorded size (kernel/src/proc/syscall.rs). */
module SpaceCases {
  import opened Prelude
  import opened PageWalk
  import opened TableCost
  import opened PageTable
  import opened UserSpace
  import opened AddressSpace

  const TRAMPOLINE: nat := 0x7000
  const TRAPFRAME: nat := 0x8000

  /** A machine with six free pages, of which a new space takes three. */
  method Machine() returns (mem: PhysMem, root: nat)
    ensures fresh(mem) && Users(mem) && Space(mem.flat, mem.frames, mem.ext, root, 0)
    ensures |mem.pool| == 3 && Lacking(mem.tables, root, 0) == 2
  {
    mem := new PhysMem([0x1000, 0x2000, 0x3000, 0x4000, 0x5000, 0x6000], {TRAMPOLINE, TRAPFRAME});
    var r, panicked := AllocUserPageTable(mem, TRAMPOLINE, TRAPFRAME);
    root := r.value;
    assert EntryTablesAt(mem.tables, root, 0);
  }

  /**
    Growing the space by two pages needs two tables and two frames.  The first page is mapped, there is no frame for the
    second, and the first stays mapped.  When the process ends, the drop of its page table panics.
  */
  method LeftBehind() returns (ok: bool, size: nat, mapped: bool, ended: bool)
    ensures !ok && size == 0 && mapped && !ended
  {
    var mem, root;
    ghost var top;
    mem, root, ok, size, top := Strand();
    mapped := IsMapped(mem, root);
    ended := FreeSpace(mem, root, size, top);
  }

  method Strand() returns (mem: PhysMem, root: nat, ok: bool, size: nat, ghost top: nat)
    ensures fresh(mem) && Users(mem) && Space(mem.flat, mem.frames, mem.ext, root, top)
    ensures !ok && size == 0 && PageCount(0) == 0 < PageCount(top) && 0 in mem.flat[root]
  {
    mem, root := Machine();
    TwoPages(mem.tables, root);
    ok, size, top := Sbrk(mem, root, 0, 0x2000);
  }

  /** What a walk to the first page finds. */
  method IsMapped(mem: PhysMem, root: nat) returns (mapped: bool)
    requires mem.Valid() && root in mem.flat
    ensures mapped <==> 0 in mem.flat[root]
  {
    var t := mem.Walk(root, 0);
    mapped := t.Some? && IsValid(mem.tables[t.value][0]);
  }

  lemma TwoPages(tables: Tables, root: nat)
    requires Lacking(tables, root, 0) == 2
    ensures PageCount(0) == 0 && !Fits(tables, root, 3, 0, 0x2000) && !Full(tables, root, 3, 0)
  {
    assert PageCount(0x2000) == 2;
  }
}
