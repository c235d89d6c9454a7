/** A directory tree as a map from paths to nodes, with symbolic links and their resolution. */
module FileTree {
  import opened Words

  datatype Option<+T> = None | Some(value: T)

  /** Path segments below the data directory. */
  type Path = seq<string>

  datatype Node = Dir | File(data: Bytes, mtime: nat) | Link(target: Path)

  type Tree = map<Path, Node>

  const MAX_LINKS := 40

  function Parent(p: Path): Path {
    if p == [] then [] else p[..|p| - 1]
  }

  /** The place `rest` leads to from directory `at`, following links and going up at "..". */
  function Walk(t: Tree, at: Path, rest: Path, links: nat): Option<Path>
    decreases links, |rest|
  {
    if rest == [] then Some(at)
    else if rest[0] == ".." then Walk(t, Parent(at), rest[1..], links)
    else
      var p := at + [rest[0]];
      if p !in t then None
      else match t[p]
        case Dir => Walk(t, p, rest[1..], links)
        case File(_, _) => if |rest| == 1 then Some(p) else None
        case Link(target) => if links == 0 then None else Walk(t, at, target + rest[1..], links - 1)
  }

  function Resolve(t: Tree, p: Path): Option<Path> {
    Walk(t, [], p, MAX_LINKS)
  }

  /** What reading the file at p yields, links followed. */
  function Content(t: Tree, p: Path): Option<Bytes> {
    match Resolve(t, p)
    case None => None
    case Some(q) => if q in t && t[q].File? then Some(t[q].data) else None
  }

  function ModTime(t: Tree, p: Path): Option<nat> {
    match Resolve(t, p)
    case None => None
    case Some(q) => if q in t && t[q].File? then Some(t[q].mtime) else None
  }

  predicate DirAt(t: Tree, p: Path) {
    p == [] || (p in t && t[p].Dir?)
  }

  /** Every directory above p is a real directory. */
  predicate DirsAbove(t: Tree, p: Path) {
    forall k | 0 <= k < |p| :: DirAt(t, p[..k])
  }

  predicate Upward(p: Path) {
    ".." in p
  }

  /** p is reached directly: real directories all the way and no "..". */
  predicate Direct(t: Tree, p: Path) {
    !Upward(p) && DirsAbove(t, p)
  }

  predicate Regular(t: Tree, p: Path) {
    p != [] && Direct(t, p) && p in t && t[p].File?
  }

  lemma {:induction false} WalkDirs(t: Tree, p: Path, k: nat, links: nat)
    requires k < |p| && Direct(t, p)
    ensures Walk(t, [], p, links) == Walk(t, p[..k], p[k..], links)
  {
    if k == 0 {
      assert p[..0] == [] && p[0..] == p;
    } else {
      WalkDirs(t, p, k - 1, links);
      var rest := p[k - 1..];
      assert p[..k] == p[..k - 1] + [rest[0]];
      assert rest[1..] == p[k..];
      assert DirAt(t, p[..k]);
    }
  }

  /** Below real directories, resolution is decided by the last segment alone. */
  lemma WalkLast(t: Tree, p: Path, links: nat)
    requires p != [] && Direct(t, p)
    ensures Walk(t, [], p, links) ==
            if p !in t then None
            else match t[p]
              case Dir => Some(p)
              case File(_, _) => Some(p)
              case Link(target) => if links == 0 then None else Walk(t, Parent(p), target, links - 1)
  {
    var k := |p| - 1;
    WalkDirs(t, p, k, links);
    assert p[k..] == [p[k]] && p == p[..k] + [p[k]];
    if p in t && t[p].Link? {
      assert t[p].target + p[k..][1..] == t[p].target;
    }
  }

  lemma RegularContent(t: Tree, p: Path)
    requires Regular(t, p)
    ensures Resolve(t, p) == Some(p) && Content(t, p) == Some(t[p].data) && ModTime(t, p) == Some(t[p].mtime)
  {
    WalkLast(t, p, MAX_LINKS);
  }

  lemma {:induction false} WalkUp(t: Tree, at: Path, n: nat, rest: Path, links: nat)
    requires n <= |at|
    ensures Walk(t, at, seq(n, _ => "..") + rest, links) == Walk(t, at[..|at| - n], rest, links)
    decreases n
  {
    var up := seq(n, _ => "..");
    if n == 0 {
      assert up + rest == rest && at[..|at|] == at;
    } else {
      assert (up + rest)[1..] == seq(n - 1, _ => "..") + rest;
      WalkUp(t, Parent(at), n - 1, rest, links);
      assert Parent(at)[..|at| - 1 - (n - 1)] == at[..|at| - n];
    }
  }

  /** Nothing below `root` differs between the two trees. */
  ghost predicate SameBelow(t: Tree, u: Tree, root: Path) {
    forall p: Path | root <= p :: (p in t <==> p in u) && (p in t ==> t[p] == u[p])
  }

  /** Nothing but what lies strictly below `dir` differs between the two trees. */
  ghost predicate ChangedOnlyIn(t: Tree, u: Tree, dir: Path) {
    forall p: Path | !(dir < p) :: (p in t <==> p in u) && (p in t ==> t[p] == u[p])
  }

  lemma OutsideIsSame(t: Tree, u: Tree, dir: Path, root: string)
    requires ChangedOnlyIn(t, u, dir) && dir != [] && dir[0] != root
    ensures SameBelow(t, u, [root])
  {
    forall p: Path | [root] <= p
      ensures (p in t <==> p in u) && (p in t ==> t[p] == u[p])
    {
      assert !(dir < p);
    }
  }

  /** No link lies on the way to p, nor is p one. */
  predicate Plain(t: Tree, p: Path) {
    p != [] && !Upward(p) && forall k | 0 < k <= |p| :: p[..k] in t ==> !t[p[..k]].Link?
  }

  lemma {:induction false} WalkPlain(t: Tree, p: Path, k: nat, links: nat)
    requires Plain(t, p) && k < |p| && forall i | 0 <= i <= k :: DirAt(t, p[..i])
    ensures Walk(t, p[..k], p[k..], links) == if DirsAbove(t, p) && p in t then Some(p) else None
    decreases |p| - k
  {
    var q := p[..k + 1];
    assert q == p[..k] + [p[k]] && p[k] in p && p[k..][1..] == p[k + 1..];
    if q in t && t[q].Dir? {
      if k + 1 < |p| {
        WalkPlain(t, p, k + 1, links);
      } else {
        assert q == p && p[k + 1..] == [];
      }
    } else if k + 1 < |p| {
      assert !DirAt(t, p[..k + 1]);
    } else {
      assert q == p;
    }
  }

  lemma PlainResolve(t: Tree, p: Path)
    requires Plain(t, p)
    ensures Resolve(t, p) == if DirsAbove(t, p) && p in t then Some(p) else None
  {
    assert p[..0] == [] && p[0..] == p;
    WalkPlain(t, p, 0, MAX_LINKS);
  }

  /** A plain path reads the same in two trees that agree below its first segment. */
  lemma PlainSame(t: Tree, u: Tree, p: Path)
    requires Plain(t, p) && SameBelow(t, u, [p[0]])
    ensures Plain(u, p) && Content(u, p) == Content(t, p) && ModTime(u, p) == ModTime(t, p)
  {
    forall k | 0 < k <= |p| ensures p[..k] in t <==> p[..k] in u {
      assert [p[0]] <= p[..k];
    }
    assert Plain(u, p) by {
      forall k | 0 < k <= |p| && p[..k] in u ensures !u[p[..k]].Link? {
        assert [p[0]] <= p[..k] && p[..k] in t;
      }
    }
    forall k | 0 <= k < |p| ensures DirAt(t, p[..k]) == DirAt(u, p[..k]) {
      if k > 0 {
        assert [p[0]] <= p[..k];
      }
    }
    assert [p[0]] <= p && p[..|p|] == p;
    PlainResolve(t, p);
    PlainResolve(u, p);
  }

  lemma PlainWalk(t: Tree, p: Path, links: nat)
    requires Plain(t, p)
    ensures Walk(t, [], p, links) == Resolve(t, p)
  {
    assert p[..0] == [] && p[0..] == p;
    WalkPlain(t, p, 0, links);
    WalkPlain(t, p, 0, MAX_LINKS);
  }

  /** A relative link ../..(n times)/q, n the depth of its directory, reads as q does, present or not. */
  lemma LinkReadsAs(t: Tree, p: Path, q: Path)
    requires p != [] && Direct(t, p) && p in t && Plain(t, q)
    requires t[p] == Link(seq(|p| - 1, _ => "..") + q)
    ensures Resolve(t, p) == Resolve(t, q) && Content(t, p) == Content(t, q) && ModTime(t, p) == ModTime(t, q)
  {
    WalkLast(t, p, MAX_LINKS);
    WalkUp(t, Parent(p), |p| - 1, q, MAX_LINKS - 1);
    assert Parent(p)[..0] == [];
    PlainWalk(t, q, MAX_LINKS - 1);
  }
}
