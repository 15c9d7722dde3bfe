/**
  `dirlookup`, `find_available_dirent_offset`, `dirlink` and the entry clearing of `unlink` (kernel/src/fs.rs) over
  `readi` and `writei`: a directory is a finite map from names to inode numbers, kept in a file.
*/
module DirFile {
  import opened Prelude
  import opened FsLayout
  import opened BlockMap
  import opened Bitmap
  import opened KernelFs
  import opened FileWrite
  import opened FileRead
  import opened Directory

  /** File `inum` holds `data`, and its entries stand for the names in `spot`. */
  ghost predicate IsDir(d: Disk, inodes: map<nat, Inode>, inum: nat, data: seq<Byte>, spot: map<seq<Byte>, nat>) {
    && inum in inodes && inodes[inum].size == |data| && Holds(d, inodes[inum].addrs, data) && Denotes(data, spot)
  }

  lemma EntryPlace(data: seq<Byte>, k: nat)
    requires |data| % ENTRY == 0 && k < Entries(data)
    ensures ENTRY * k + ENTRY <= |data|
  {
  }

  /** The read of entry `k`, at offset `off`. */
  method ReadEntry(fs: Fs, inum: nat, off: nat, ghost k: nat, ghost data: seq<Byte>) returns (e: DirEnt)
    requires fs.Valid() && inum in fs.inodes && fs.inodes[inum].size == |data|
             && Holds(fs.disk, fs.inodes[inum].addrs, data)
    requires |data| % ENTRY == 0 && k < Entries(data) && off == ENTRY * k
    modifies fs`disk, fs`inodes, fs`own
    ensures fs.Valid() && fs.disk == old(fs.disk) && fs.inodes == old(fs.inodes) && fs.own == old(fs.own)
    ensures e == Get(data, k)
  {
    EntryPlace(data, k);
    HoldsMapped(fs.disk, fs.inodes[inum].addrs, data, off, off + ENTRY);
    SmallFile(data);
    var panicked, ok, bytes := ReadI(fs, inum, off, ENTRY);
    HoldsSeen(old(fs.disk), old(fs.inodes)[inum].addrs, data, off, bytes);
    e := Decode(bytes);
  }

  lemma SmallFile(data: seq<Byte>)
    requires |data| <= MAXFILE * BSIZE
    ensures |data| + ENTRY < USIZE
  {
  }

  /** One round of `dirlookup`: entry `k` is in use and has the name if and only if it is the place of the name. */
  method CheckEntry(fs: Fs, inum: nat, off: nat, name: Name, ghost k: nat,
                    ghost data: seq<Byte>, ghost spot: map<seq<Byte>, nat>)
    returns (same: bool, number: nat)
    requires fs.Valid() && IsDir(fs.disk, fs.inodes, inum, data, spot) && k < Entries(data) && off == ENTRY * k
    modifies fs`disk, fs`inodes, fs`own
    ensures fs.Valid() && fs.disk == old(fs.disk) && fs.inodes == old(fs.inodes) && fs.own == old(fs.own)
    ensures same <==> Terminated(name) && Text(name) in spot && spot[Text(name)] == k
    ensures same ==> number == InumAt(data, k)
  {
    var e := ReadEntry(fs, inum, off, k, data);
    assert EntryOk(data, spot, k);
    assert Terminated(name) && Text(name) in spot ==> SpotOk(data, spot, Text(name));
    same, number := false, e.inum;
    if e.inum != 0 {
      same := SameName(e.name, name);
    }
  }

  /** `dirlookup`: the inode number of a name, and where its entry is. */
  method Lookup(fs: Fs, inum: nat, name: Name, ghost data: seq<Byte>, ghost spot: map<seq<Byte>, nat>)
    returns (r: Option<(nat, nat)>)
    requires fs.Valid() && IsDir(fs.disk, fs.inodes, inum, data, spot)
    modifies fs`disk, fs`inodes, fs`own
    ensures fs.Valid() && fs.disk == old(fs.disk) && fs.inodes == old(fs.inodes) && fs.own == old(fs.own)
    ensures r.Some? <==> Terminated(name) && Text(name) in NamesOf(data, spot)
    ensures r.Some? ==> r.value.0 == NamesOf(data, spot)[Text(name)] && r.value.1 == ENTRY * spot[Text(name)]
  {
    var off := 0;
    ghost var k := 0;
    while off < fs.inodes[inum].size
      invariant off == ENTRY * k && k <= Entries(data)
      invariant fs.Valid() && fs.disk == old(fs.disk) && fs.inodes == old(fs.inodes) && fs.own == old(fs.own)
      invariant Terminated(name) && Text(name) in spot ==> spot[Text(name)] >= k
    {
      var same, number := CheckEntry(fs, inum, off, name, k, data, spot);
      if same {
        return Some((number, off));
      }
      off, k := off + ENTRY, k + 1;
    }
    assert Terminated(name) && Text(name) in spot ==> SpotOk(data, spot, Text(name));
    r := None;
  }

  /** `find_available_dirent_offset`: the first free entry or the end, and the last entry that was read. */
  method FindAvailable(fs: Fs, inum: nat, ghost data: seq<Byte>, ghost spot: map<seq<Byte>, nat>)
    returns (off: nat, last: DirEnt)
    requires fs.Valid() && IsDir(fs.disk, fs.inodes, inum, data, spot)
    modifies fs`disk, fs`inodes, fs`own
    ensures fs.Valid() && fs.disk == old(fs.disk) && fs.inodes == old(fs.inodes) && fs.own == old(fs.own)
    ensures off == ENTRY * FirstFree(data, 0)
  {
    off, last := 0, NoEntry;
    ghost var k := 0;
    while off < fs.inodes[inum].size
      invariant off == ENTRY * k && k <= Entries(data) && FirstFree(data, 0) == FirstFree(data, k)
      invariant fs.Valid() && fs.disk == old(fs.disk) && fs.inodes == old(fs.inodes) && fs.own == old(fs.own)
    {
      last := ReadEntry(fs, inum, off, k, data);
      if last.inum == 0 {
        return;
      }
      off, k := off + ENTRY, k + 1;
    }
  }

  // ---- Writing entries ----

  lemma EntryInBlock(k: nat, x: nat)
    requires ENTRY * k <= x < ENTRY * k + ENTRY
    ensures ENTRY * k % BSIZE + ENTRY <= BSIZE && x / BSIZE == ENTRY * k / BSIZE
  {
    var b, r := k / 128, k % 128;
    assert ENTRY * k == BSIZE * b + ENTRY * r;
  }

  /** What a write of entry `e` at place `k` gets into the file: the entry, or zeros where the bytes are lost. */
  function Arrives(d: Disk, addrs: seq<nat>, k: nat, e: DirEnt): DirEnt
    requires |addrs| == NDIRECT + 2
  {
    if Lands(d, addrs, ENTRY * k) then e else NoEntry
  }

  lemma EntryStored(d: Disk, addrs: seq<nat>, data: seq<Byte>, k: nat, e: DirEnt)
    requires |addrs| == NDIRECT + 2 && |data| % ENTRY == 0 && k <= Entries(data) && e.inum < 0x1_0000
    requires Placed(d, addrs, ENTRY * k)
    ensures ENTRY * k <= |data| && AllPlaced(d, addrs, ENTRY * k, ENTRY * k + ENTRY)
    ensures Over(data, ENTRY * k, Stored(d, addrs, ENTRY * k, Encode(e))) == Put(data, k, Arrives(d, addrs, k, e))
  {
    var off, src := ENTRY * k, Encode(e);
    forall x: nat | off <= x < off + ENTRY ensures Placed(d, addrs, x) { EntryInBlock(k, x); }
    EntryInBlock(k, off);
    StoredChunk(d, addrs, off, src, 0, ENTRY);
    var stored := Stored(d, addrs, off, src);
    assert stored[0..ENTRY] == stored && src[0..ENTRY] == src;
    assert Encode(NoEntry) == ZeroBytes(ENTRY);
  }

  /** The write of entry `e` at place `k`. */
  method WriteEntry(fs: Fs, inum: nat, off: nat, e: DirEnt, ghost k: nat, ghost data: seq<Byte>)
    returns (panicked: bool)
    requires fs.Valid() && inum in fs.inodes && fs.inodes[inum].size == |data|
             && Holds(fs.disk, fs.inodes[inum].addrs, data)
    requires |data| % ENTRY == 0 && k <= Entries(data) && off == ENTRY * k && e.inum < 0x1_0000
    requires Placed(fs.disk, fs.inodes[inum].addrs, off)
    modifies fs`disk, fs`inodes, fs`own
    ensures panicked <==> NoRoom(old(fs.disk), old(fs.inodes)[inum].addrs, data, off, fs.start, fs.size)
    ensures !panicked ==> fs.Valid() && OthersKept(old(fs.disk), old(fs.inodes), fs.disk, fs.inodes, inum)
    ensures !panicked ==>
              var data' := Put(data, k, Arrives(old(fs.disk), old(fs.inodes)[inum].addrs, k, e));
              inum in fs.inodes && fs.inodes[inum].size == |data'| && Holds(fs.disk, fs.inodes[inum].addrs, data')
  {
    EntryStored(fs.disk, fs.inodes[inum].addrs, data, k, e);
    var ok;
    PlacedBound(fs.disk, fs.inodes[inum].addrs, data, off, off + ENTRY);
    panicked, ok := WriteI(fs, inum, off, Encode(e), data);
  }

  /** There is no free block for an entry at `off`, or no size for the file. */
  ghost predicate NoRoom(d: Disk, addrs: seq<nat>, data: seq<Byte>, off: nat, start: nat, size: nat) {
    |addrs| == NDIRECT + 2
        && (WriteNeeds(d, addrs, off, off + ENTRY) > FreeCount(d, start, size) || TooLong(data, off + ENTRY))
  }

  /**
    `dirlink`: insertion if absent.  The name is found again if and only if it has a NUL and the bytes of its entry
    land.  It panics if and only if the number does not fit in 16 bits, or there is no room for the entry.
  */
  method Link(fs: Fs, inum: nat, name: Name, target: nat, ghost data: seq<Byte>, ghost spot: map<seq<Byte>, nat>)
    returns (panicked: bool, ok: bool, ghost data': seq<Byte>, ghost spot': map<seq<Byte>, nat>)
    requires fs.Valid() && IsDir(fs.disk, fs.inodes, inum, data, spot) && target > 0
    requires Placed(fs.disk, fs.inodes[inum].addrs, ENTRY * FirstFree(data, 0))
    modifies fs`disk, fs`inodes, fs`own
    ensures var found, off := Terminated(name) && Text(name) in NamesOf(data, spot), ENTRY * FirstFree(data, 0);
            && (panicked <==>
                  !found && (target >= 0x1_0000
                             || NoRoom(old(fs.disk), old(fs.inodes)[inum].addrs, data, off, fs.start, fs.size)))
            && (!panicked ==> (ok <==> !found))
            && (!panicked && !ok ==> fs.disk == old(fs.disk) && fs.inodes == old(fs.inodes))
    ensures !panicked ==> fs.Valid() && OthersKept(old(fs.disk), old(fs.inodes), fs.disk, fs.inodes, inum)
    ensures !panicked ==> IsDir(fs.disk, fs.inodes, inum, data', spot')
    ensures !panicked ==>
              var lands := Lands(old(fs.disk), old(fs.inodes)[inum].addrs, ENTRY * FirstFree(data, 0));
              NamesOf(data', spot') == if ok && Terminated(name) && lands then NamesOf(data, spot)[Text(name) := target]
                  else NamesOf(data, spot)
  {
    data', spot' := data, spot;
    NoOthers(fs.disk, fs.inodes, inum);
    var found := Lookup(fs, inum, name, data, spot);
    if found.Some? {
      return false, false, data, spot;
    }
    var off, e := FindAvailable(fs, inum, data, spot);
    var copy := CopyName(e.name, name);
    if target >= 0x1_0000 {
      return true, false, data, spot;
    }
    ghost var k := FirstFree(data, 0);
    ghost var arrives := Arrives(fs.disk, fs.inodes[inum].addrs, k, DirEnt(target, copy));
    spot' := Arrived(data, spot, name, target, copy, k, arrives);
    panicked := WriteEntry(fs, inum, off, DirEnt(target, copy), k, data);
    data', ok := Put(data, k, arrives), true;
  }

  /** What the new entry, or the zeros in its place, make of the directory. */
  lemma Arrived(data: seq<Byte>, spot: map<seq<Byte>, nat>, name: Name, target: nat, copy: Name, k: nat, e: DirEnt)
    returns (spot': map<seq<Byte>, nat>)
    requires Denotes(data, spot) && k == FirstFree(data, 0) && 0 < target < 0x1_0000
    requires !(Terminated(name) && Text(name) in spot)
    requires if Terminated(name) then Terminated(copy) && Text(copy) == Text(name) else copy == name
    requires e == DirEnt(target, copy) || e == NoEntry
    ensures Denotes(Put(data, k, e), spot')
    ensures NamesOf(Put(data, k, e), spot') == if e != NoEntry
            && Terminated(name) then NamesOf(data, spot)[Text(name) := target] else NamesOf(data, spot)
  {
    spot' := spot;
    if e == NoEntry {
      Ignored(data, spot, k);
    } else if Terminated(name) {
      Linked(data, spot, k, e);
      spot' := spot[Text(name) := k];
    } else {
      Hidden(data, spot, k, e);
    }
  }

  /** The entry clearing of `unlink`: removal from the map, without a panic. */
  method Unlink(fs: Fs, inum: nat, name: Name, ghost data: seq<Byte>, ghost spot: map<seq<Byte>, nat>)
    returns (panicked: bool, ok: bool, ghost data': seq<Byte>, ghost spot': map<seq<Byte>, nat>)
    requires fs.Valid() && IsDir(fs.disk, fs.inodes, inum, data, spot)
    modifies fs`disk, fs`inodes, fs`own
    ensures !panicked && fs.Valid() && IsDir(fs.disk, fs.inodes, inum, data', spot')
    ensures ok <==> Terminated(name) && Text(name) in NamesOf(data, spot)
    ensures NamesOf(data', spot') == if ok then NamesOf(data, spot) - {Text(name)} else NamesOf(data, spot)
    ensures OthersKept(old(fs.disk), old(fs.inodes), fs.disk, fs.inodes, inum)
  {
    data', spot', panicked := data, spot, false;
    NoOthers(fs.disk, fs.inodes, inum);
    var found := Lookup(fs, inum, name, data, spot);
    if found.None? {
      return false, false, data, spot;
    }
    ghost var k := spot[Text(name)];
    Unlinked(data, spot, Text(name));
    EntryPlace(data, k);
    HoldsMapped(fs.disk, fs.inodes[inum].addrs, data, ENTRY * k, ENTRY * k + ENTRY);
    assert HoldsAt(fs.disk, fs.inodes[inum].addrs, ENTRY * k, data[ENTRY * k]);
    panicked := WriteEntry(fs, inum, found.value.1, NoEntry, k, data);
    data', spot', ok := Put(data, k, NoEntry), spot - {Text(name)}, true;
  }
}
