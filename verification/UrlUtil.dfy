/** Slash-separated strings: splitting, joining, and the file name an artifact URL stands for. */
module UrlUtil {
  import opened FileTree

  predicate Sepless(s: string) {
    '/' !in s
  }

  /** The pieces between slashes; the empty string has one empty piece. */
  function Split(s: string): (r: seq<string>)
    ensures |r| > 0 && forall x | x in r :: Sepless(x)
  {
    if s == "" then [""]
    else
      var rest := Split(s[1..]);
      assert rest[0] in rest;
      if s[0] == '/' then [""] + rest else [[s[0]] + rest[0]] + rest[1..]
  }

  function Join(segs: seq<string>): string
    requires segs != []
  {
    if |segs| == 1 then segs[0] else segs[0] + "/" + Join(segs[1..])
  }

  lemma {:induction false} SplitSepless(a: string)
    requires Sepless(a)
    ensures Split(a) == [a]
  {
    if a != "" {
      SplitSepless(a[1..]);
      assert [a[0]] + a[1..] == a;
    }
  }

  lemma {:induction false} SplitAt(a: string, b: string)
    requires Sepless(a)
    ensures Split(a + "/" + b) == [a] + Split(b)
  {
    var s := a + "/" + b;
    if a == "" {
      assert s[1..] == b;
    } else {
      SplitAt(a[1..], b);
      assert s[1..] == a[1..] + "/" + b;
      assert [a[0]] + a[1..] == a;
    }
  }

  /** Joining segments and splitting the result again gives the segments back. */
  lemma {:induction false} SplitJoin(segs: seq<string>)
    requires segs != [] && forall x | x in segs :: Sepless(x)
    ensures Split(Join(segs)) == segs
  {
    if |segs| == 1 {
      SplitSepless(segs[0]);
      assert segs == [segs[0]];
    } else {
      SplitJoin(segs[1..]);
      SplitAt(segs[0], Join(segs[1..]));
      assert segs == [segs[0]] + segs[1..];
    }
  }

  /** A segment that names an entry of the directory it is looked up in. */
  predicate SafeSegment(s: string) {
    s != "" && s != "." && s != ".." && Sepless(s)
  }

  // ---- the last element of a slash-separated path ----

  function TrimSlashes(p: string): (r: string)
    ensures r != "" ==> r[|r| - 1] != '/'
    ensures r <= p
  {
    if p != "" && p[|p| - 1] == '/' then TrimSlashes(p[..|p| - 1]) else p
  }

  function AfterLastSlash(p: string): (r: string)
    ensures Sepless(r)
  {
    if p == "" || p[|p| - 1] == '/' then "" else AfterLastSlash(p[..|p| - 1]) + [p[|p| - 1]]
  }

  function Base(p: string): string {
    if p == "" then "."
    else
      var name := AfterLastSlash(TrimSlashes(p));
      if name == "" then "/" else name
  }

  /** A URL with what parsing makes of its path; None when it does not parse. */
  datatype Url = Url(raw: string, path: Option<string>)

  const FALLBACK := "artifact"

  /** Always a usable file name. */
  function FilenameFromURL(u: Url): (name: string)
    ensures SafeSegment(name)
  {
    match u.path
    case None => FALLBACK
    case Some(p) =>
      var name := Base(p);
      BaseSepless(p);
      if name == "" || name == "." || name == "/" || name == ".." then FALLBACK else name
  }

  lemma BaseSepless(p: string)
    ensures Base(p) == "/" || Sepless(Base(p))
  {
  }

  /** The last piece that is not empty. */
  function LastNonEmpty(segs: seq<string>): Option<string> {
    if segs == [] then None
    else if segs[|segs| - 1] != "" then Some(segs[|segs| - 1])
    else LastNonEmpty(segs[..|segs| - 1])
  }

  lemma {:induction false} SplitSnocSlash(p: string)
    ensures Split(p + "/") == Split(p) + [""]
  {
    if p == "" {
      assert Split("/") == [""] + Split("") by { assert "/"[1..] == ""; }
    } else {
      SplitSnocSlash(p[1..]);
      assert (p + "/")[1..] == p[1..] + "/";
    }
  }

  /** Replacing the last piece is the same before and after pieces are put in front. */
  lemma LastOfJoined(front: seq<string>, rest: seq<string>, last: string)
    requires rest != []
    ensures var s := front + rest;
            && s[|s| - 1] == rest[|rest| - 1]
            && s[..|s| - 1] + [last] == front + (rest[..|rest| - 1] + [last])
  {
    var s := front + rest;
    assert s[..|s| - 1] == front + rest[..|rest| - 1];
  }

  lemma SplitFirst(c: char, p: string)
    ensures var rest := Split(p);
            Split([c] + p) == if c == '/' then [""] + rest else [[c] + rest[0]] + rest[1..]
  {
    assert ([c] + p)[1..] == p;
  }

  lemma {:induction false} SplitSnoc(p: string, c: char)
    requires c != '/'
    ensures var s := Split(p); Split(p + [c]) == s[..|s| - 1] + [s[|s| - 1] + [c]]
  {
    hide Split;
    if p == "" {
      SplitSepless("");
      SplitSepless([c]);
      assert "" + [c] == [c];
    } else {
      var a, q := p[0], p[1..];
      assert p == [a] + q && p + [c] == [a] + (q + [c]);
      SplitSnoc(q, c);
      SplitFirst(a, q);
      SplitFirst(a, q + [c]);
      var rest, longer := Split(q), Split(q + [c]);
      var last := rest[|rest| - 1] + [c];
      if a == '/' {
        LastOfJoined([""], rest, last);
      } else if |rest| == 1 {
        assert longer == [last];
        assert [a] + last == ([a] + rest[0]) + [c];
      } else {
        LastOfJoined([[a] + rest[0]], rest[1..], last);
        assert longer[1..] == rest[1..][..|rest| - 2] + [last];
      }
    }
  }

  lemma {:induction false} LastPiece(p: string)
    ensures var s := Split(p); s[|s| - 1] == AfterLastSlash(p)
    decreases |p|
  {
    if p == "" {
    } else {
      var q, c := p[..|p| - 1], p[|p| - 1];
      assert p == q + [c];
      if c == '/' {
        SplitSnocSlash(q);
      } else {
        LastPiece(q);
        SplitSnoc(q, c);
      }
    }
  }

  lemma {:induction false} TrimKeepsLast(p: string)
    ensures LastNonEmpty(Split(p)) == LastNonEmpty(Split(TrimSlashes(p)))
    decreases |p|
  {
    if p != "" && p[|p| - 1] == '/' {
      var q := p[..|p| - 1];
      assert p == q + "/";
      SplitSnocSlash(q);
      assert (Split(q) + [""])[..|Split(q)|] == Split(q);
      TrimKeepsLast(q);
    }
  }

  /**
   * The file name is the last non-empty piece of the URL's path, unless there is none or it is
   * "." or "..": then, and when the URL does not parse, it is the fallback.
   */
  lemma FilenameIsLastPiece(u: Url)
    ensures FilenameFromURL(u) ==
            match u.path
            case None => "artifact"
            case Some(p) =>
              match LastNonEmpty(Split(p))
              case None => "artifact"
              case Some(x) => if x == "." || x == ".." then "artifact" else x
  {
    if u.path.Some? {
      var p := u.path.value;
      var t := TrimSlashes(p);
      TrimKeepsLast(p);
      LastPiece(t);
      if t == "" {
        assert Split("") == [""];
        assert LastNonEmpty([""]) == None by { assert [""][..0] == []; }
      } else {
        assert AfterLastSlash(t) != "";
        BaseSepless(p);
      }
    }
  }

  lemma OneCharacterName(raw: string, c: char)
    requires c != '/' && c != '.'
    ensures FilenameFromURL(Url(raw, Some(['/', c]))) == [c]
  {
    var p := ['/', c];
    assert TrimSlashes(p) == p && p[..1] == "/";
    assert AfterLastSlash(p) == AfterLastSlash("/") + [c];
    assert AfterLastSlash("/") == "";
    assert [c][0] != "."[0] && [c][0] != "/"[0] && [c][0] != ".."[0];
  }

  /** A non-empty in-image path with no ".." piece. */
  predicate IsSafeIsoPath(p: string) {
    p != "" && ".." !in Split(p)
  }

  // ---- pieces by position ----

  /** x stands at position i of p, with a slash or an end of p on either side. */
  predicate PieceAt(p: string, i: nat, x: string) {
    && i + |x| <= |p| && p[i..i + |x|] == x
    && (i == 0 || p[i - 1] == '/') && (i + |x| == |p| || p[i + |x|] == '/')
  }

  /** p is its first piece, or that, a slash and the rest. */
  lemma {:induction false} FirstPiece(p: string)
    ensures Leads(Split(p)[0], p)
  {
    hide Leads;
    if p == "" {
      LeadsAll(p);
    } else if p[0] == '/' {
      LeadsNothing(p);
    } else {
      FirstPiece(p[1..]);
      LeadsLonger(p);
    }
  }

  predicate Leads(a: string, p: string) {
    && Sepless(a) && a <= p
    && (|a| < |p| ==> p == a + "/" + p[|a| + 1..] && Split(p) == [a] + Split(p[|a| + 1..]))
    && (|a| == |p| ==> Split(p) == [a])
  }

  lemma LeadsAll(p: string)
    requires p == ""
    ensures Leads(Split(p)[0], p)
  {
  }

  lemma LeadsNothing(p: string)
    requires p != "" && p[0] == '/'
    ensures Leads(Split(p)[0], p)
  {
    assert Split(p)[0] == "" && p == "/" + p[1..];
  }

  lemma LeadsLonger(p: string)
    requires p != "" && p[0] != '/' && Leads(Split(p[1..])[0], p[1..])
    ensures Leads(Split(p)[0], p)
  {
    hide Split;
    var q, rest := p[1..], Split(p[1..]);
    var b := rest[0];
    var a := [p[0]] + b;
    assert p == [p[0]] + q;
    SplitFirst(p[0], q);
    assert Split(p)[0] == a && Split(p) == [a] + rest[1..];
    if |b| < |q| {
      var r := q[|b| + 1..];
      assert p[|a| + 1..] == r;
      assert rest[1..] == Split(r);
      assert p == a + "/" + r;
    }
  }

  lemma {:induction false} PieceIff(p: string, x: string)
    requires Sepless(x)
    ensures x in Split(p) <==> exists i: nat :: PieceAt(p, i, x)
    decreases |p|
  {
    FirstPiece(p);
    var a := Split(p)[0];
    if |a| == |p| {
      assert x == a ==> PieceAt(p, 0, x);
      forall i: nat | PieceAt(p, i, x) ensures x == a {
        assert forall k | 0 <= k < |p| :: p[k] in a;
      }
    } else {
      var b := p[|a| + 1..];
      PieceIff(b, x);
      if x == a {
        assert PieceAt(p, 0, x);
      }
      if x in Split(b) {
        var i: nat :| PieceAt(b, i, x);
        PieceShifts(a, b, i, x);
      }
      forall i: nat | PieceAt(p, i, x) ensures x in Split(p) {
        PieceSplits(a, b, i, x);
      }
    }
  }

  lemma PieceShifts(a: string, b: string, i: nat, x: string)
    requires PieceAt(b, i, x)
    ensures PieceAt(a + "/" + b, |a| + 1 + i, x)
  {
    var p := a + "/" + b;
    assert p[|a| + 1 + i..|a| + 1 + i + |x|] == b[i..i + |x|];
  }

  lemma PieceSplits(a: string, b: string, i: nat, x: string)
    requires Sepless(a) && Sepless(x) && PieceAt(a + "/" + b, i, x)
    ensures if i == 0 then x == a else i > |a| && PieceAt(b, i - |a| - 1, x)
  {
    var p := a + "/" + b;
    assert p[|a|] == '/' && forall k | 0 <= k < |a| :: p[k] == a[k] && a[k] in a;
    if i == 0 {
      assert forall k | 0 <= k < |x| :: p[k] == x[k] && x[k] in x;
      if |x| != |a| {
        assert false;
      }
    } else {
      assert i - 1 >= |a|;
      var j := i - |a| - 1;
      assert p[i..i + |x|] == b[j..j + |x|];
    }
  }

  /** Safe means not empty, and nowhere two dots with a slash or an end on either side. */
  lemma SafePathIff(p: string)
    ensures IsSafeIsoPath(p) <==> p != "" && forall i: nat :: !PieceAt(p, i, "..")
  {
    PieceIff(p, "..");
  }
}
