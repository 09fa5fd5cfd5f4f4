/**
 Rewriting a history: paths and contents are mapped change by change while git streams
 by, and the result must be every commit's whole tree, mapped.
 */
module HistoryRewrite {
  import opened Prelude
  import opened PathQuoting

  type Path = Bytes
  type Oid = nat

  /** The redaction rules, as the functions they are. */
  datatype Rules = Rules(
    path: Path -> Path,
    stub: Path -> Option<Bytes>,      // the notice replacing a whole file
    replaced: Oid -> Option<Bytes>,   // a blob exchanged for a given file
    text: Bytes -> Bytes,
    blob: Oid -> Bytes)               // the source blobs

  datatype File = File(mode: nat, oid: Oid)
  datatype NewFile = NewFile(mode: nat, content: Bytes)

  type Tree = map<Path, File>
  type NewTree = map<Path, NewFile>

  /** One file of one tree: stub, then blob, then text rules. */
  function Expected(r: Rules, p: Path, oid: Oid): Bytes {
    match r.stub(p)
    case Some(notice) => notice
    case None => match r.replaced(oid)
      case Some(given) => given
      case None => r.text(r.blob(oid))
  }

  /** What a line writes. */
  function BytesOf(r: Rules, data: Data): Bytes {
    if data.Inline? then data.bytes else NewBlob(r, data.oid)
  }

  /** A blob as the filter writes it, once for all the paths that use it. */
  function NewBlob(r: Rules, oid: Oid): Bytes {
    if r.replaced(oid).Some? then r.replaced(oid).value else r.text(r.blob(oid))
  }

  /** No two paths of the tree become one. */
  ghost predicate Separate(r: Rules, paths: set<Path>) {
    forall p, q | p in paths && q in paths && r.path(p) == r.path(q) :: p == q
  }

  /** The tree under the transform, path by path. */
  ghost function MapTree(r: Rules, t: Tree): NewTree
    requires Separate(r, t.Keys)
  {
    map np | np in Image(r, t) :: var p := Origin(r, t, np); NewFile(t[p].mode, Expected(r, p, t[p].oid))
  }

  function Image(r: Rules, t: Tree): set<Path> {
    set p | p in t :: r.path(p)
  }

  /** The path that became `np`. */
  ghost function Origin(r: Rules, t: Tree, np: Path): (p: Path)
    requires np in Image(r, t)
    ensures p in t && r.path(p) == np
  {
    var p :| p in t && r.path(p) == np;
    p
  }

  // ---------------------------------------------------------------- changes

  datatype Change = Modify(path: Path, file: File) | Delete(path: Path)

  /** What a rewritten line carries: a quoted path, and inline data or the blob's mark. */
  datatype Data = Inline(bytes: Bytes) | Mark(oid: Oid)
  datatype Line = M(path: Bytes, mode: nat, data: Data) | D(path: Bytes)

  function Apply(t: Tree, cs: seq<Change>): Tree {
    if cs == [] then t else
      var u := Apply(t, cs[..|cs|-1]);
      match cs[|cs|-1]
      case Modify(p, f) => u[p := f]
      case Delete(p) => u - {p}
  }

  /** fast-import: unquote the path, look up the mark, one change after the other. */
  function Import(r: Rules, t: NewTree, lines: seq<Line>): NewTree {
    if lines == [] then t else
      var u, line := Import(r, t, lines[..|lines|-1]), lines[|lines|-1];
      if Unquoted(line.path) == None then u else
      var p := Unquoted(line.path).value;
      match line
      case M(_, mode, data) => u[p := NewFile(mode, BytesOf(r, data))]
      case D(_) => u - {p}
  }

  /** One filechange line, rewritten. */
  function FileChange(r: Rules, c: Change): Line {
    match c
    case Modify(p, f) =>
      M(Quoted(r.path(p)), f.mode, if r.stub(p).Some? then Inline(r.stub(p).value) else Mark(f.oid))
    case Delete(p) => D(Quoted(r.path(p)))
  }

  function Rewritten(r: Rules, cs: seq<Change>): seq<Line> {
    seq(|cs|, i requires 0 <= i < |cs| => FileChange(r, cs[i]))
  }

  function Written(lines: seq<Line>): set<Bytes> {
    set i | 0 <= i < |lines| && lines[i].M? :: lines[i].path
  }

  function Dropping(lines: seq<Line>, written: set<Bytes>): seq<Line> {
    if lines == [] then [] else
      var last := lines[|lines|-1];
      Dropping(lines[..|lines|-1], written) + if last.D? && last.path in written then [] else [last]
  }

  /** Without the deletes of a path that the same commit writes. */
  function Settled(lines: seq<Line>): seq<Line> {
    Dropping(lines, Written(lines))
  }

  /** A commit's changes against its parent: each path once, deletes of what is there. */
  ghost predicate Diff(t: Tree, cs: seq<Change>) {
    && (forall i, j | 0 <= i < j < |cs| :: cs[i].path != cs[j].path)
    && (forall i | 0 <= i < |cs| && cs[i].Delete? :: cs[i].path in t)
  }

  // ---------------------------------------------------------------- single lookups

  /** Where a commit leaves a path. */
  lemma {:induction false} ApplyAt(t: Tree, cs: seq<Change>, p: Path)
    requires Diff(t, cs)
    ensures (forall i | 0 <= i < |cs| :: cs[i].path != p) ==>
      (p in Apply(t, cs) <==> p in t) && (p in t ==> Apply(t, cs)[p] == t[p])
    ensures forall i | 0 <= i < |cs| && cs[i].path == p ::
      if cs[i].Modify? then p in Apply(t, cs) && Apply(t, cs)[p] == cs[i].file else p !in Apply(t, cs)
  {
    if cs != [] {
      ApplyAt(t, cs[..|cs|-1], p);
    }
  }

  /** The lines agree on what becomes of `np`: all write `f`, or all delete it. */
  ghost predicate Agree(r: Rules, lines: seq<Line>, np: Path, f: Option<NewFile>) {
    forall i | 0 <= i < |lines| && Unquoted(lines[i].path) == Some(np) ::
      if f.Some? then lines[i].M? && NewFile(lines[i].mode, BytesOf(r, lines[i].data)) == f.value
      else lines[i].D?
  }

  ghost predicate Touched(lines: seq<Line>, np: Path) {
    exists i | 0 <= i < |lines| :: Unquoted(lines[i].path) == Some(np)
  }

  lemma {:induction false} ImportAt(r: Rules, t: NewTree, lines: seq<Line>, np: Path, f: Option<NewFile>)
    requires Agree(r, lines, np, f)
    ensures var u := Import(r, t, lines);
      if Touched(lines, np) then (if f.Some? then np in u && u[np] == f.value else np !in u)
      else (np in u <==> np in t) && (np in t ==> u[np] == t[np])
  {
    if lines != [] {
      var rest := lines[..|lines|-1];
      assert forall i | 0 <= i < |rest| :: rest[i] == lines[i];
      ImportAt(r, t, rest, np, f);
      if Touched(rest, np) {
        var i :| 0 <= i < |rest| && Unquoted(rest[i].path) == Some(np);
        assert Unquoted(lines[i].path) == Some(np);
      }
    }
  }

  // ---------------------------------------------------------------- settling

  lemma {:induction false} KeptIff(lines: seq<Line>, written: set<Bytes>, line: Line)
    ensures line in Dropping(lines, written) <==> line in lines && !(line.D? && line.path in written)
  {
    if lines != [] {
      KeptIff(lines[..|lines|-1], written, line);
      assert lines == lines[..|lines|-1] + [lines[|lines|-1]];
    }
  }

  /** A settled line about `np` comes from one change of a path mapped to `np`. */
  lemma LineComesFrom(r: Rules, cs: seq<Change>, line: Line, np: Path) returns (j: nat)
    requires line in Settled(Rewritten(r, cs)) && Unquoted(line.path) == Some(np)
    ensures j < |cs| && line == FileChange(r, cs[j]) && r.path(cs[j].path) == np
    ensures line.D? ==> forall i | 0 <= i < |cs| && cs[i].Modify? :: r.path(cs[i].path) != np
  {
    var lines := Rewritten(r, cs);
    KeptIff(lines, Written(lines), line);
    j :| 0 <= j < |lines| && lines[j] == line;
    QuoteRoundTrip(r.path(cs[j].path));
    forall i | 0 <= i < |cs| && cs[i].Modify? && r.path(cs[i].path) == np
      ensures line.M?
    {
      assert lines[i].M? && lines[i].path == Quoted(np);
    }
  }

  /** A modification always has its line; a deletion has it when nothing is written there. */
  lemma LineIsKept(r: Rules, cs: seq<Change>, i: nat, np: Path)
    requires i < |cs| && r.path(cs[i].path) == np
    requires cs[i].Modify? || forall k | 0 <= k < |cs| && cs[k].Modify? :: r.path(cs[k].path) != np
    ensures FileChange(r, cs[i]) in Settled(Rewritten(r, cs)) && Unquoted(FileChange(r, cs[i]).path) == Some(np)
    ensures Touched(Settled(Rewritten(r, cs)), np)
  {
    var lines, line := Rewritten(r, cs), FileChange(r, cs[i]);
    QuoteRoundTrip(np);
    assert lines[i] == line;
    if line.D? && line.path in Written(lines) {
      var k :| 0 <= k < |lines| && lines[k].M? && lines[k].path == line.path;
      QuoteIsInjective(r.path(cs[k].path), np);
      assert false;
    }
    KeptIff(lines, Written(lines), line);
  }

  // ---------------------------------------------------------------- the theorem

  /** At every path the rewritten commit agrees with the mapped one. */
  lemma SamePath(r: Rules, t: Tree, cs: seq<Change>, np: Path)
    requires Diff(t, cs) && Separate(r, t.Keys) && Separate(r, Apply(t, cs).Keys)
    ensures var got, want := Import(r, MapTree(r, t), Settled(Rewritten(r, cs))), MapTree(r, Apply(t, cs));
      (np in got <==> np in want) && (np in got ==> got[np] == want[np])
  {
    if i :| 0 <= i < |cs| && cs[i].Modify? && r.path(cs[i].path) == np {
      Modified(r, t, cs, i);
    } else if i :| 0 <= i < |cs| && r.path(cs[i].path) == np {
      Deleted(r, t, cs, i);
    } else {
      Unchanged(r, t, cs, np);
    }
  }

  lemma Modified(r: Rules, t: Tree, cs: seq<Change>, i: nat)
    requires Diff(t, cs) && Separate(r, t.Keys) && Separate(r, Apply(t, cs).Keys)
    requires i < |cs| && cs[i].Modify?
    ensures var got, want := Import(r, MapTree(r, t), Settled(Rewritten(r, cs))), MapTree(r, Apply(t, cs));
      var np := r.path(cs[i].path);
      np in got && np in want && got[np] == want[np]
  {
    var p, u, lines := cs[i].path, Apply(t, cs), Settled(Rewritten(r, cs));
    var np := r.path(p);
    ApplyAt(t, cs, p);
    var f := MapTree(r, u)[np];
    forall k | 0 <= k < |lines| && Unquoted(lines[k].path) == Some(np)
      ensures lines[k] == FileChange(r, cs[i])
    {
      var j := LineComesFrom(r, cs, lines[k], np);
      if cs[j].Modify? {
        ApplyAt(t, cs, cs[j].path);
      }
    }
    LineIsKept(r, cs, i, np);
    ImportAt(r, MapTree(r, t), lines, np, Some(f));
  }

  lemma Deleted(r: Rules, t: Tree, cs: seq<Change>, i: nat)
    requires Diff(t, cs) && Separate(r, t.Keys) && Separate(r, Apply(t, cs).Keys)
    requires i < |cs| && cs[i].Delete? && forall k | 0 <= k < |cs| && cs[k].Modify? ::
      r.path(cs[k].path) != r.path(cs[i].path)
    ensures var np := r.path(cs[i].path);
      np !in Import(r, MapTree(r, t), Settled(Rewritten(r, cs))) && np !in MapTree(r, Apply(t, cs))
  {
    var lines, np := Settled(Rewritten(r, cs)), r.path(cs[i].path);
    forall k | 0 <= k < |lines| && Unquoted(lines[k].path) == Some(np)
      ensures lines[k].D?
    {
      var _ := LineComesFrom(r, cs, lines[k], np);
    }
    LineIsKept(r, cs, i, np);
    ImportAt(r, MapTree(r, t), lines, np, None);
    forall q | q in Apply(t, cs)
      ensures r.path(q) != np
    {
      ApplyAt(t, cs, q);
    }
  }

  lemma Unchanged(r: Rules, t: Tree, cs: seq<Change>, np: Path)
    requires Diff(t, cs) && Separate(r, t.Keys) && Separate(r, Apply(t, cs).Keys)
    requires forall k | 0 <= k < |cs| :: r.path(cs[k].path) != np
    ensures var got, want := Import(r, MapTree(r, t), Settled(Rewritten(r, cs))), MapTree(r, Apply(t, cs));
      (np in got <==> np in want) && (np in got ==> got[np] == want[np])
  {
    var lines, u := Settled(Rewritten(r, cs)), Apply(t, cs);
    if Touched(lines, np) {
      var k :| 0 <= k < |lines| && Unquoted(lines[k].path) == Some(np);
      var _ := LineComesFrom(r, cs, lines[k], np);
    }
    ImportAt(r, MapTree(r, t), lines, np, None);
    forall q | r.path(q) == np
      ensures (q in u <==> q in t) && (q in t ==> u[q] == t[q])
    {
      ApplyAt(t, cs, q);
    }
  }

  /** Applying the mapped, settled changes to the mapped parent is mapping the commit. */
  lemma RewriteCommutes(r: Rules, t: Tree, cs: seq<Change>)
    requires Diff(t, cs) && Separate(r, t.Keys) && Separate(r, Apply(t, cs).Keys)
    ensures Import(r, MapTree(r, t), Settled(Rewritten(r, cs))) == MapTree(r, Apply(t, cs))
  {
    forall np {
      SamePath(r, t, cs, np);
    }
  }

  /** Unsettled, a rename made by the commit itself would lose the file. */
  lemma SettlingIsNeeded(r: Rules, f: File, p: Path, q: Path)
    requires p != q && r.path(p) == r.path(q)
    ensures var t, cs := map[p := f], [Modify(q, f), Delete(p)];
      && Diff(t, cs) && Separate(r, t.Keys) && Separate(r, Apply(t, cs).Keys)
      && Import(r, MapTree(r, t), Rewritten(r, cs)) != MapTree(r, Apply(t, cs))
  {
    var t, cs := map[p := f], [Modify(q, f), Delete(p)];
    assert cs[..1] == [Modify(q, f)] && cs[..1][..0] == [];
    assert Apply(t, cs[..1]) == t[q := f];
    assert Apply(t, cs) == map[q := f];
    var lines := Rewritten(r, cs);
    QuoteRoundTrip(r.path(p));
    assert r.path(q) in MapTree(r, Apply(t, cs));
    assert r.path(p) !in Import(r, MapTree(r, t), lines);
  }

  // ---------------------------------------------------------------- whole histories

  /** A commit and its changes against its first parent. */
  datatype Commit = Commit(parent: Option<nat>, changes: seq<Change>)

  /** Commits come after their parents. */
  ghost predicate Ordered(h: seq<Commit>) {
    forall i | 0 <= i < |h| && h[i].parent.Some? :: h[i].parent.value < i
  }

  function TreeOf(h: seq<Commit>, i: nat): Tree
    requires Ordered(h) && i < |h|
    decreases i, 1
  {
    Apply(ParentTree(h, i), h[i].changes)
  }

  function ParentTree(h: seq<Commit>, i: nat): Tree
    requires Ordered(h) && i < |h|
    decreases i, 0
  {
    if h[i].parent.Some? then TreeOf(h, h[i].parent.value) else map[]
  }

  /** The tree the filter makes of a commit, from the trees it made before. */
  function NewTreeOf(r: Rules, h: seq<Commit>, i: nat): NewTree
    requires Ordered(h) && i < |h|
    decreases i
  {
    Import(r, if h[i].parent.Some? then NewTreeOf(r, h, h[i].parent.value) else map[],
           Settled(Rewritten(r, h[i].changes)))
  }

  /** Every commit of the history ends up with its own tree, mapped. */
  lemma {:induction false} HistoryPreserved(r: Rules, h: seq<Commit>, i: nat)
    requires Ordered(h) && i < |h|
    requires forall k | 0 <= k < |h| :: Diff(ParentTree(h, k), h[k].changes) && Separate(r, TreeOf(h, k).Keys)
    ensures NewTreeOf(r, h, i) == MapTree(r, TreeOf(h, i))
  {
    if h[i].parent.Some? {
      HistoryPreserved(r, h, h[i].parent.value);
    }
    RewriteCommutes(r, ParentTree(h, i), h[i].changes);
  }

  // ---------------------------------------------------------------- the loops

  function Elements(paths: seq<Path>): set<Path> { set p | p in paths }

  /** The up-front check: exactly the trees in which two paths become one. */
  method Collisions(r: Rules, trees: seq<seq<Path>>) returns (bad: seq<nat>)
    ensures forall k: nat :: k in bad <==> k < |trees| && !Separate(r, Elements(trees[k]))
  {
    bad := [];
    for c := 0 to |trees|
      invariant forall k: nat :: k in bad <==> k < c && !Separate(r, Elements(trees[k]))
    {
      var collides := Collides(r, trees[c]);
      if collides {
        bad := bad + [c];
      }
    }
  }

  method Collides(r: Rules, tree: seq<Path>) returns (bad: bool)
    ensures bad <==> !Separate(r, Elements(tree))
  {
    var seen: map<Path, Path> := map[];
    for i := 0 to |tree|
      invariant forall n | n in seen :: seen[n] in tree[..i] && r.path(seen[n]) == n
      invariant forall p | p in tree[..i] :: r.path(p) in seen && seen[r.path(p)] == p
    {
      var p := tree[i];
      var n := r.path(p);
      assert p in Elements(tree);
      if n in seen && seen[n] != p {
        assert seen[n] in Elements(tree);
        return true;
      }
      seen := seen[n := p];
    }
    assert tree[..|tree|] == tree;
    bad := false;
  }

  /** Drops the deletes of paths that the same commit writes. */
  method Settle(changes: seq<Line>) returns (out: seq<Line>)
    ensures out == Settled(changes)
  {
    var written := Written(changes);
    out := [];
    for i := 0 to |changes|
      invariant out == Dropping(changes[..i], written)
    {
      assert changes[..i+1][..i] == changes[..i];
      if !(changes[i].D? && changes[i].path in written) {
        out := out + [changes[i]];
      }
    }
    assert changes[..|changes|] == changes;
  }
}
