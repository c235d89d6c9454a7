/**
 * File operations on a disk whose every failure, delay and random name is chosen by an oracle,
 * so that a claim about all oracles covers every I/O error at every step. Each operation that
 * changes the tree logs the tree it leaves: the logged trees are the states a crash can expose.
 */
module FileOps {
  import opened Words
  import opened FileTree
  import opened Listing

  /** The outside world, by operation number. */
  datatype World = World(
    fault: nat -> bool,        // the operation fails
    removeFault: nat -> bool,  // a removal fails
    partial: nat -> nat,       // bytes a failing copy wrote first
    delay: nat -> nat,         // clock ticks before the operation
    pick: nat -> string,       // random part of a temporary name
    dirTime: nat -> nat)       // modification time of a directory, when one is asked for

  datatype Disk = Disk(nodes: Tree, clock: nat, step: nat, log: seq<Tree>)

  datatype IoResult = IoResult(disk: Disk, ok: bool)

  /** One operation later, nothing changed. */
  function Next(w: World, d: Disk): Disk {
    d.(clock := d.clock + w.delay(d.step), step := d.step + 1)
  }

  /** One operation later, with this tree. */
  function Put(w: World, d: Disk, t: Tree): Disk {
    var n := Next(w, d);
    n.(nodes := t, log := d.log + [t])
  }

  function Fails(w: World, d: Disk): IoResult {
    IoResult(Next(w, d), false)
  }

  /** The state after the operation that logged tree number `at`, if this call logged it. */
  function StoppedAt(before: Disk, after: Disk, at: nat): Disk {
    if |before.log| <= at < |after.log| then after.(nodes := after.log[at], log := after.log[..at + 1]) else before
  }

  function Without(t: Tree, p: Path): Tree {
    map q | q in t && !(p <= q) :: t[q]
  }

  // ---- reads: the result, to be paired with Next ----

  /** Files have the time of their last write; a directory's time is the world's to choose. */
  function StatTime(w: World, d: Disk, p: Path): Option<nat> {
    if w.fault(d.step) || Resolve(d.nodes, p) == None then None
    else if ModTime(d.nodes, p).Some? then ModTime(d.nodes, p)
    else Some(w.dirTime(d.step))
  }

  /** What p leads to, if anything, is a file. */
  predicate NotDirectory(t: Tree, p: Path) {
    Resolve(t, p).Some? ==> ModTime(t, p).Some?
  }

  lemma StatOfFile(w: World, d: Disk, p: Path)
    requires NotDirectory(d.nodes, p)
    ensures StatTime(w, d, p) == if w.fault(d.step) then None else ModTime(d.nodes, p)
  {
  }

  function ReadLink(w: World, d: Disk, p: Path): Option<Path> {
    if !w.fault(d.step) && p in d.nodes && d.nodes[p].Link? then Some(d.nodes[p].target) else None
  }

  function OpenRead(w: World, d: Disk, p: Path): Option<Bytes> {
    if w.fault(d.step) then None else Content(d.nodes, p)
  }

  function ReadDir(w: World, d: Disk, dir: Path): Option<seq<string>> {
    if !w.fault(d.step) && DirAt(d.nodes, dir) then Some(Entries(d.nodes, dir)) else None
  }

  // ---- changes ----

  /** Removal of p and all below it; the callers ignore its outcome. */
  function RemoveAll(w: World, d: Disk, p: Path): Disk {
    if w.removeFault(d.step) then Next(w, d) else Put(w, d, Without(d.nodes, p))
  }

  /** Removal of one file, link or empty directory, ignored by callers too. */
  function Remove(w: World, d: Disk, p: Path): Disk {
    if w.removeFault(d.step) || p !in d.nodes || (d.nodes[p].Dir? && Names(d.nodes, p) != {}) then Next(w, d)
    else Put(w, d, d.nodes - {p})
  }

  function RemoveEntries(w: World, d: Disk, dir: Path, names: seq<string>): Disk
    decreases |names|
  {
    if names == [] then d else RemoveEntries(w, RemoveAll(w, d, dir + [names[0]]), dir, names[1..])
  }

  function Symlink(w: World, d: Disk, target: Path, p: Path): IoResult {
    if w.fault(d.step) || p in d.nodes || !DirAt(d.nodes, Parent(p)) then Fails(w, d)
    else IoResult(Put(w, d, d.nodes[p := Link(target)]), true)
  }

  function MkdirAll(w: World, d: Disk, p: Path): IoResult
    decreases |p|
  {
    if p == [] then IoResult(d, true)
    else
      var above := MkdirAll(w, d, Parent(p));
      if !above.ok then above
      else if p in above.disk.nodes then IoResult(Next(w, above.disk), above.disk.nodes[p].Dir?)
      else if w.fault(above.disk.step) then Fails(w, above.disk)
      else IoResult(Put(w, above.disk, above.disk.nodes[p := Dir]), true)
  }

  function TempPath(w: World, d: Disk, dir: Path, prefix: string): Path {
    dir + [prefix + w.pick(d.step)]
  }

  /** Exclusive creation of an empty temporary file at TempPath. */
  function CreateTemp(w: World, d: Disk, dir: Path, prefix: string): (r: IoResult)
    ensures r.ok ==> IsFile(r.disk, TempPath(w, d, dir, prefix))
  {
    var p := TempPath(w, d, dir, prefix);
    if w.fault(d.step) || p in d.nodes || !DirAt(d.nodes, dir) then Fails(w, d)
    else IoResult(Put(w, d, d.nodes[p := File([], Next(w, d).clock)]), true)
  }

  predicate IsFile(d: Disk, p: Path) {
    p in d.nodes && d.nodes[p].File?
  }

  /** Appending to an open file; a failing copy leaves a prefix. A write stamps the file. */
  function Append(w: World, d: Disk, p: Path, data: Bytes): (r: IoResult)
    requires IsFile(d, p)
    ensures IsFile(r.disk, p)
  {
    var n := if w.fault(d.step) && w.partial(d.step) < |data| then w.partial(d.step) else |data|;
    var written :=
      if n == 0 then d.nodes[p] else File(d.nodes[p].data + data[..n], Next(w, d).clock);
    IoResult(Put(w, d, d.nodes[p := written]), !w.fault(d.step))
  }

  /** Close, chmod and sync: they take time and may fail, but change no node. */
  function Settle(w: World, d: Disk): IoResult {
    IoResult(Next(w, d), !w.fault(d.step))
  }

  /** Renaming a file over a file, a link or nothing. */
  function Rename(w: World, d: Disk, from: Path, to: Path): IoResult {
    if w.fault(d.step) || from !in d.nodes || !d.nodes[from].File? || (to in d.nodes && d.nodes[to].Dir?)
       || !DirAt(d.nodes, Parent(to))
    then Fails(w, d)
    else IoResult(Put(w, d, (d.nodes - {from})[to := d.nodes[from]]), true)
  }

  /** The disk as an object, for the procedures that work on it step by step. */
  class Volume {
    const w: World
    var disk: Disk

    constructor (w: World, d: Disk)
      ensures this.w == w && disk == d
    {
      this.w := w;
      disk := d;
    }

    method StatFile(p: Path) returns (r: Option<nat>)
      modifies this
      ensures r == StatTime(w, old(disk), p) && disk == Next(w, old(disk))
    {
      r := StatTime(w, disk, p);
      disk := Next(w, disk);
    }

    method LinkTarget(p: Path) returns (r: Option<Path>)
      modifies this
      ensures r == ReadLink(w, old(disk), p) && disk == Next(w, old(disk))
    {
      r := ReadLink(w, disk, p);
      disk := Next(w, disk);
    }

    method ReadFile(p: Path) returns (r: Option<Bytes>)
      modifies this
      ensures r == OpenRead(w, old(disk), p) && disk == Next(w, old(disk))
    {
      r := OpenRead(w, disk, p);
      disk := Next(w, disk);
    }

    method ListDir(dir: Path) returns (r: Option<seq<string>>)
      modifies this
      ensures r == ReadDir(w, old(disk), dir) && disk == Next(w, old(disk))
    {
      r := ReadDir(w, disk, dir);
      disk := Next(w, disk);
    }

    method RemoveTree(p: Path)
      modifies this
      ensures disk == RemoveAll(w, old(disk), p)
    {
      disk := RemoveAll(w, disk, p);
    }

    method RemoveFile(p: Path)
      modifies this
      ensures disk == Remove(w, old(disk), p)
    {
      disk := Remove(w, disk, p);
    }

    method MakeLink(target: Path, p: Path) returns (ok: bool)
      modifies this
      ensures IoResult(disk, ok) == Symlink(w, old(disk), target, p)
    {
      var r := Symlink(w, disk, target, p);
      disk, ok := r.disk, r.ok;
    }

    method MakeDirs(p: Path) returns (ok: bool)
      modifies this
      ensures IoResult(disk, ok) == MkdirAll(w, old(disk), p)
    {
      var r := MkdirAll(w, disk, p);
      disk, ok := r.disk, r.ok;
    }

    method NewTemp(dir: Path, prefix: string) returns (ok: bool, p: Path)
      modifies this
      ensures IoResult(disk, ok) == CreateTemp(w, old(disk), dir, prefix)
      ensures p == TempPath(w, old(disk), dir, prefix)
    {
      p := TempPath(w, disk, dir, prefix);
      var r := CreateTemp(w, disk, dir, prefix);
      disk, ok := r.disk, r.ok;
    }

    method Write(p: Path, data: Bytes) returns (ok: bool)
      requires IsFile(disk, p)
      modifies this
      ensures IoResult(disk, ok) == Append(w, old(disk), p, data)
    {
      var r := Append(w, disk, p, data);
      disk, ok := r.disk, r.ok;
    }

    /** Closing, changing the mode, syncing. */
    method Finish() returns (ok: bool)
      modifies this
      ensures IoResult(disk, ok) == Settle(w, old(disk))
    {
      var r := Settle(w, disk);
      disk, ok := r.disk, r.ok;
    }

    method RenameTo(from: Path, to: Path) returns (ok: bool)
      modifies this
      ensures IoResult(disk, ok) == Rename(w, old(disk), from, to)
    {
      var r := Rename(w, disk, from, to);
      disk, ok := r.disk, r.ok;
    }
  }
}
