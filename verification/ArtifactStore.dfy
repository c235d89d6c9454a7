/** Where artifacts are installed, and the shape their directory keeps. */
module ArtifactStore {
  import opened FileTree

  /** An installed artifact: its object name and its file name. */
  datatype Ref = Ref(name: string, file: string)

  function ArtifactPath(r: Ref): Path {
    ["artifacts", r.name, r.file]
  }

  predicate Usable(r: Ref) {
    r.name != ".." && r.file != ".."
  }

  /** artifacts/<name>/<file> and nothing else: directories on the first two levels, files below, no orphan. */
  ghost predicate StoreSound(t: Tree) {
    forall p: Path | ["artifacts"] <= p && p in t ::
      && |p| <= 3
      && (|p| < 3 ==> t[p] == Dir)
      && (|p| == 3 ==> t[p].File?)
      && (|p| > 1 ==> Parent(p) in t)
  }

  lemma StoreEmpty(t: Tree)
    requires forall p | p in t :: !(["artifacts"] <= p)
    ensures StoreSound(t)
  {
  }

  lemma StoreSame(t: Tree, u: Tree)
    requires StoreSound(t) && SameBelow(t, u, ["artifacts"])
    ensures StoreSound(u)
  {
    forall p: Path | ["artifacts"] <= p && p in u && |p| > 1 ensures Parent(p) in u {
      assert ["artifacts"] <= Parent(p);
      assert p in t;
    }
  }

  /** In a sound store an artifact is plain, and reading it is looking at its own node. */
  lemma StoreReads(t: Tree, r: Ref)
    requires StoreSound(t) && Usable(r)
    ensures var p := ArtifactPath(r);
            && Plain(t, p)
            && (p in t ==> t[p].File? && Regular(t, p))
            && Resolve(t, p) == (if p in t then Some(p) else None)
            && Content(t, p) == (if p in t then Some(t[p].data) else None)
            && ModTime(t, p) == (if p in t then Some(t[p].mtime) else None)
  {
    var p := ArtifactPath(r);
    assert |"artifacts"| == 9 && |".."| == 2;
    assert p[..1] == ["artifacts"] && p[..2] == ["artifacts", r.name] && p[..3] == p;
    if p in t {
      assert Parent(p) == p[..2] && Parent(p[..2]) == p[..1];
      assert p[..2] in t && p[..1] in t;
    }
    PlainResolve(t, p);
  }
}
