/**
 Resolving paths inside the workspace, in a file tree with symbolic links.

 Absolute paths are lists of segments; `Abs` writes one as the string that the
 original compares.  The tree does not change while a path is resolved.
 */
module WorkspaceJail {
  import opened Wrappers
  import RelativePath
  import Text

  type Path = seq<string>

  datatype Node = Dir | File | Link(target: string)

  datatype Tree = Tree(nodes: map<Path, Node>)

  const MAX_LINKS := 40

  predicate IsSegment(s: string) {
    RelativePath.IsName(s) && '/' !in s
  }

  ghost predicate AllSegments(p: Path) {
    forall i | 0 <= i < |p| :: IsSegment(p[i])
  }

  /** Every node hangs in a directory, below the root. */
  ghost predicate ValidTree(t: Tree) {
    && [] in t.nodes && t.nodes[[]] == Dir
    && forall p | p in t.nodes && p != [] ::
         IsSegment(p[|p| - 1]) && p[..|p| - 1] in t.nodes && t.nodes[p[..|p| - 1]] == Dir
  }

  // ---------- path strings ----------

  function Abs(p: Path): string {
    "/" + Text.Join(p, '/')
  }

  /** Walks segments from a path, as `path.resolve` does without looking at the tree. */
  function Normalize(base: Path, parts: seq<string>): Path
    decreases |parts|
  {
    if parts == [] then base
    else if RelativePath.IsSkipped(parts[0]) then Normalize(base, parts[1..])
    else if parts[0] == ".." then Normalize(if base == [] then [] else base[..|base| - 1], parts[1..])
    else Normalize(base + [parts[0]], parts[1..])
  }

  function PathResolve(base: Path, s: string): Path {
    Normalize(if s != "" && s[0] == '/' then [] else base, Text.Split(s, '/'))
  }

  function Dirname(p: Path): Path {
    if p == [] then [] else p[..|p| - 1]
  }

  /** `p === root || p.startsWith(root + '/')`, where a root that ends in `/` gets no second one. */
  predicate StringInside(root: string, p: string) {
    var prefix := if Text.EndsWith(root, "/") then root else root + "/";
    p == root || Text.StartsWith(p, prefix)
  }

  // ---------- following links ----------

  /**
   What the file system does with a path: where walking `todo` from a real directory leads; None if something is
   missing or links go on too long.
   */
  function Follow(t: Tree, base: Path, todo: seq<string>, links: nat): Option<Path>
    decreases links, |todo|
  {
    if todo == [] then Some(base)
    else if base in t.nodes && t.nodes[base] == File then None
    else if RelativePath.IsSkipped(todo[0]) then Follow(t, base, todo[1..], links)
    else if todo[0] == ".." then Follow(t, Dirname(base), todo[1..], links)
    else
      var child := base + [todo[0]];
      if child !in t.nodes then None
      else if t.nodes[child].Link? then
        if links == 0 then None
        else
          var target := t.nodes[child].target;
          Follow(t, if target != "" && target[0] == '/' then [] else base,
                 Text.Split(target, '/') + todo[1..], links - 1)
      else Follow(t, child, todo[1..], links)
  }

  function Walked(t: Tree, p: Path): Option<Path> {
    Follow(t, [], p, MAX_LINKS)
  }

  /** `fs.existsSync` asks the file system. */
  predicate Exists(t: Tree, p: Path) {
    Walked(t, p).Some?
  }

  /**
   `fs.realpathSync` replaces one link after the other in the text of the path: the target of a link that leads
   somewhere is resolved against the directory of the link without looking at the tree, and the walk starts over.
   */
  function Real(t: Tree, base: Path, todo: Path, links: nat): Option<Path>
    decreases links, |todo|
  {
    if todo == [] then Some(base)
    else if base in t.nodes && t.nodes[base] == File then None
    else
      var child := base + [todo[0]];
      if child !in t.nodes then None
      else if t.nodes[child].Link? then
        if links == 0 || !Exists(t, child) then None
        else Real(t, [], PathResolve(base, t.nodes[child].target) + todo[1..], links - 1)
      else Real(t, child, todo[1..], links)
  }

  function RealPath(t: Tree, p: Path): Option<Path> {
    Real(t, [], p, MAX_LINKS)
  }

  /** The nearest existing ancestor, the path itself included. */
  function NearestExisting(t: Tree, p: Path): (a: Path)
    ensures a <= p
    decreases |p|
  {
    if p == [] || Exists(t, p) then p else NearestExisting(t, p[..|p| - 1])
  }

  // ---------- the jail ----------

  function InsideWorkspace(t: Tree, cwd: Path, workspaceRoot: string, relativePath: string): Option<Path> {
    if workspaceRoot == "" || relativePath == "" then None
    else
      match RealPath(t, PathResolve(cwd, workspaceRoot))
      case None => None
      case Some(root) =>
        var candidate := PathResolve(root, relativePath);
        if !(root <= candidate) then None
        else if Exists(t, candidate) then
          match RealPath(t, candidate)
          case None => None
          case Some(actual) => if root <= actual then Some(actual) else None
        else InsideMissing(t, root, candidate)
  }

  /** The path that a missing target gets. */
  function InsideMissing(t: Tree, root: Path, candidate: Path): Option<Path> {
    var ancestor := NearestExisting(t, Dirname(candidate));
    match RealPath(t, ancestor)
    case None => None
    case Some(realAncestor) =>
      var rebuilt := realAncestor + candidate[|ancestor|..];
      if root <= realAncestor && root <= rebuilt then Some(rebuilt) else None
  }

  function JailedWritePath(t: Tree, cwd: Path, workspaceRoot: string, relativePath: string,
                           jailRel: string): Option<Path> {
    match RelativePath.Canonical(relativePath)
    case None => None
    case Some(canonical) =>
      match InsideWorkspace(t, cwd, workspaceRoot, canonical)
      case None => None
      case Some(resolved) =>
        if jailRel == "" then Some(resolved)
        else
          match InsideWorkspace(t, cwd, workspaceRoot, jailRel)
          case None => None
          case Some(jail) => if jail <= resolved then Some(resolved) else None
  }

  /** `resolveInsideWorkspace`, with the string tests and the climb of the original. */
  method ResolveInsideWorkspace(t: Tree, cwd: Path, workspaceRoot: string, relativePath: string)
    returns (r: Option<string>)
    requires ValidTree(t) && AllSegments(cwd)
    ensures match InsideWorkspace(t, cwd, workspaceRoot, relativePath)
            case None => r == None
            case Some(p) => r == Some(Abs(p))
  {
    if workspaceRoot == "" || relativePath == "" {
      return None;
    }
    var rootReal := RealPath(t, PathResolve(cwd, workspaceRoot));
    if rootReal.None? {
      return None;
    }
    var root := rootReal.value;
    RealPathIsReal(t, PathResolve(cwd, workspaceRoot));
    var candidate := PathResolve(root, relativePath);
    PathResolveSegments(root, relativePath);
    InsideIsPrefix(root, candidate);
    if !StringInside(Abs(root), Abs(candidate)) {
      return None;
    }
    if Exists(t, candidate) {
      var actual := RealPath(t, candidate);
      if actual.None? {
        return None;
      }
      RealPathIsReal(t, candidate);
      InsideIsPrefix(root, actual.value);
      return if StringInside(Abs(root), Abs(actual.value)) then Some(Abs(actual.value)) else None;
    }
    r := ResolveMissing(t, root, candidate);
  }

  /** A target that does not exist yet, seen from its nearest existing ancestor. */
  method ResolveMissing(t: Tree, root: Path, candidate: Path) returns (r: Option<string>)
    requires ValidTree(t) && AllSegments(root) && AllSegments(candidate)
    ensures match InsideMissing(t, root, candidate)
            case None => r == None
            case Some(p) => r == Some(Abs(p))
  {
    var ancestor := ClimbToExisting(t, Dirname(candidate));
    var found := RealPath(t, ancestor);
    if found.None? {
      return None;
    }
    var realAncestor := found.value;
    RealPathIsReal(t, ancestor);
    InsideIsPrefix(root, realAncestor);
    if !StringInside(Abs(root), Abs(realAncestor)) {
      return None;
    }
    var rel := Text.Join(candidate[|ancestor|..], '/');
    RebuiltPath(realAncestor, candidate[|ancestor|..]);
    var rebuilt := if rel == "" then realAncestor else PathResolve(realAncestor, rel);
    InsideIsPrefix(root, rebuilt);
    r := if StringInside(Abs(root), Abs(rebuilt)) then Some(Abs(rebuilt)) else None;
  }

  /**
   The climb.  It ends at the root, which exists; so the case of a root without a parent to climb to does not come up.
   */
  method ClimbToExisting(t: Tree, start: Path) returns (ancestor: Path)
    ensures ancestor == NearestExisting(t, start)
  {
    ancestor := start;
    while !Exists(t, ancestor)
      invariant NearestExisting(t, ancestor) == NearestExisting(t, start)
      decreases |ancestor|
    {
      RootExists(t);
      ancestor := Dirname(ancestor);
    }
  }

  method ResolveJailedWritePath(t: Tree, cwd: Path, workspaceRoot: string, relativePath: string, jailRel: string)
    returns (r: Option<string>)
    requires ValidTree(t) && AllSegments(cwd)
    ensures match JailedWritePath(t, cwd, workspaceRoot, relativePath, jailRel)
            case None => r == None
            case Some(p) => r == Some(Abs(p))
  {
    var canonical := RelativePath.CanonicalizeRelativePath(relativePath);
    if canonical.None? {
      return None;
    }
    var resolved := ResolveInsideWorkspace(t, cwd, workspaceRoot, canonical.value);
    if resolved.None? || jailRel == "" {
      return resolved;
    }
    var jailRoot := ResolveInsideWorkspace(t, cwd, workspaceRoot, jailRel);
    if jailRoot.None? {
      return None;
    }
    ResultSegments(t, cwd, workspaceRoot, canonical.value);
    ResultSegments(t, cwd, workspaceRoot, jailRel);
    InsideIsPrefix(InsideWorkspace(t, cwd, workspaceRoot, jailRel).value,
                   InsideWorkspace(t, cwd, workspaceRoot, canonical.value).value);
    r := if StringInside(jailRoot.value, resolved.value) then resolved else None;
  }

  // ---------- strings and segments ----------

  lemma {:induction false} NormalizeSegments(base: Path, parts: seq<string>)
    requires AllSegments(base) && forall i | 0 <= i < |parts| :: '/' !in parts[i]
    ensures AllSegments(Normalize(base, parts))
    decreases |parts|
  {
    if parts != [] {
      if RelativePath.IsSkipped(parts[0]) {
        NormalizeSegments(base, parts[1..]);
      } else if parts[0] == ".." {
        NormalizeSegments(if base == [] then [] else base[..|base| - 1], parts[1..]);
      } else {
        NormalizeSegments(base + [parts[0]], parts[1..]);
      }
    }
  }

  lemma PathResolveSegments(base: Path, s: string)
    requires AllSegments(base)
    ensures AllSegments(PathResolve(base, s))
  {
    NormalizeSegments(if s != "" && s[0] == '/' then [] else base, Text.Split(s, '/'));
  }

  lemma {:induction false} NormalizePlain(base: Path, parts: seq<string>)
    requires AllSegments(parts)
    ensures Normalize(base, parts) == base + parts
    decreases |parts|
  {
    if parts == [] {
      assert base + parts == base;
    } else {
      assert IsSegment(parts[0]);
      NormalizePlain(base + [parts[0]], parts[1..]);
      assert base + [parts[0]] + parts[1..] == base + parts;
    }
  }

  /** Joining a relative rest and resolving it again appends it. */
  lemma RebuiltPath(base: Path, rest: Path)
    requires AllSegments(rest)
    ensures var rel := Text.Join(rest, '/');
            (if rel == "" then base else PathResolve(base, rel)) == base + rest
  {
    if rest == [] {
      assert base + rest == base;
    } else {
      assert IsSegment(rest[0]);
      Text.SplitJoin(rest, '/');
      NormalizePlain(base, rest);
      var rel := Text.Join(rest, '/');
      assert rel[0] == rest[0][0];
      assert rest[0][0] in rest[0];
    }
  }

  lemma AbsSplits(p: Path)
    requires AllSegments(p)
    ensures Text.Split(Abs(p), '/') == [""] + (if p == [] then [""] else p)
  {
    Text.SplitPiece("", '/', Text.Join(p, '/'));
    assert "" + ['/'] + Text.Join(p, '/') == Abs(p);
    if p != [] {
      forall i | 0 <= i < |p| ensures '/' !in p[i] {
        assert IsSegment(p[i]);
      }
      Text.SplitJoin(p, '/');
    }
  }

  lemma AbsInjective(p: Path, q: Path)
    requires AllSegments(p) && AllSegments(q) && Abs(p) == Abs(q)
    ensures p == q
  {
    AbsSplits(p);
    AbsSplits(q);
    assert p != [] ==> IsSegment(p[0]);
    assert q != [] ==> IsSegment(q[0]);
    if p == [] {
      assert ([""] + [""])[1] == "";
    } else {
      assert ([""] + p)[1..] == p;
      assert ([""] + p)[1] == p[0];
      assert q != [] ==> ([""] + q)[1..] == q;
    }
  }

  lemma AbsEnd(p: Path)
    requires AllSegments(p)
    ensures Text.EndsWith(Abs(p), "/") <==> p == []
  {
    var s := Abs(p);
    if p == [] {
      assert s == "/";
    } else {
      JoinEnd(p);
      var j := Text.Join(p, '/');
      assert s[|s| - 1..][0] == j[|j| - 1];
    }
  }

  lemma {:induction false} JoinEnd(p: Path)
    requires p != [] && AllSegments(p)
    ensures var j := Text.Join(p, '/'); j != "" && j[|j| - 1] != '/'
  {
    var last := p[|p| - 1];
    assert IsSegment(last);
    if |p| == 1 {
      assert last[|last| - 1] in last;
    } else {
      assert p[1..][|p| - 2] == last;
      JoinEnd(p[1..]);
    }
  }

  /** The string test with its separator is containment segment by segment. */
  lemma InsideIsPrefix(root: Path, p: Path)
    requires AllSegments(root) && AllSegments(p)
    ensures StringInside(Abs(root), Abs(p)) <==> root <= p
  {
    AbsEnd(root);
    if root == [] {
      assert Abs(p)[0..1] == "/";
    } else {
      var prefix := Abs(root) + "/";
      if root <= p {
        var rest := p[|root|..];
        assert root + rest == p;
        if rest == [] {
          assert p == root;
        } else {
          Text.JoinAppend(root, rest, '/');
          assert Abs(p) == prefix + Text.Join(rest, '/');
          assert Abs(p)[..|prefix|] == prefix;
        }
      }
      if Abs(p) == Abs(root) {
        AbsInjective(p, root);
      } else if Text.StartsWith(Abs(p), prefix) {
        PrefixGivesSegments(root, p, Abs(p)[|prefix|..]);
      }
    }
  }

  lemma PrefixGivesSegments(root: Path, p: Path, rest: string)
    requires AllSegments(root) && AllSegments(p) && root != []
    requires Text.StartsWith(Abs(p), Abs(root) + "/") && rest == Abs(p)[|Abs(root) + "/"|..]
    ensures root <= p
  {
    var more := Text.Split(rest, '/');
    Text.JoinSplit(rest, '/');
    NoSlashes(root);
    Text.JoinAppend(root, more, '/');
    SameBehindSlash(Text.Join(p, '/'), Text.Join(root, '/'), rest);
    JoinedAlike(p, root, more);
  }

  lemma SameBehindSlash(joined: string, front: string, rest: string)
    requires Text.StartsWith("/" + joined, "/" + front + "/") && rest == ("/" + joined)[|"/" + front + "/"|..]
    ensures joined == front + "/" + rest
  {
    assert "/" + joined == "/" + front + "/" + rest;
    Text.AssociateFour("/", front, "/", rest);
    assert ("/" + joined)[1..] == joined && ("/" + (front + "/" + rest))[1..] == front + "/" + rest;
  }

  lemma NoSlashes(p: Path)
    requires AllSegments(p)
    ensures forall i | 0 <= i < |p| :: '/' !in p[i]
  {
    forall i | 0 <= i < |p| ensures '/' !in p[i] {
      assert IsSegment(p[i]);
    }
  }

  lemma JoinedAlike(p: Path, root: Path, more: seq<string>)
    requires AllSegments(p) && AllSegments(root) && root != [] && forall i | 0 <= i < |more| :: '/' !in more[i]
    requires Text.Join(p, '/') == Text.Join(root + more, '/')
    ensures p == root + more
  {
    NoSlashes(p);
    NoSlashes(root);
    JoinStarts(root + more);
    Text.SplitJoin(root + more, '/');
    Text.SplitJoin(p, '/');
  }

  lemma JoinStarts(parts: seq<string>)
    requires parts != [] && IsSegment(parts[0])
    ensures Text.Join(parts, '/') != ""
  {
  }

  // ---------- real paths ----------

  /** A path that names its own real location: a node, and not a link. */
  ghost predicate IsReal(t: Tree, p: Path) {
    p in t.nodes && !t.nodes[p].Link?
  }

  lemma {:induction false} NodeParents(t: Tree, p: Path, k: nat)
    requires ValidTree(t) && p in t.nodes && k < |p|
    ensures p[..k] in t.nodes && t.nodes[p[..k]] == Dir
    decreases |p|
  {
    var q := p[..|p| - 1];
    if k < |q| {
      NodeParents(t, q, k);
      assert q[..k] == p[..k];
    } else {
      assert p[..k] == q;
    }
  }

  lemma NodeNames(t: Tree, p: Path)
    requires ValidTree(t) && p in t.nodes
    ensures AllSegments(p)
  {
    forall i | 0 <= i < |p| ensures IsSegment(p[i]) {
      var q := p[..i + 1];
      if i + 1 < |p| {
        NodeParents(t, p, i + 1);
      } else {
        assert q == p;
      }
      assert q in t.nodes && q[|q| - 1] == p[i];
    }
  }

  lemma NodeSegments(t: Tree, p: Path)
    requires ValidTree(t) && p in t.nodes
    ensures AllSegments(p)
    ensures forall k | 0 <= k < |p| :: p[..k] in t.nodes && t.nodes[p[..k]] == Dir
  {
    NodeNames(t, p);
    forall k | 0 <= k < |p| ensures p[..k] in t.nodes && t.nodes[p[..k]] == Dir {
      NodeParents(t, p, k);
    }
  }

  lemma {:induction false} FollowIsReal(t: Tree, base: Path, todo: seq<string>, links: nat)
    requires ValidTree(t) && IsReal(t, base) && Follow(t, base, todo, links).Some?
    ensures IsReal(t, Follow(t, base, todo, links).value)
    decreases links, |todo|
  {
    if todo != [] {
      FollowHasStep(t, base, todo, links);
      FollowStep(t, base, todo, links);
      StepIsReal(t, base, todo);
      FollowIsReal(t, StepFrom(t, base, todo), StepInto(t, base, todo) + todo[1..],
                   LinksLeft(t, base, todo, links));
    }
  }

  lemma StepIsReal(t: Tree, base: Path, todo: seq<string>)
    requires ValidTree(t) && IsReal(t, base) && todo != []
    requires RelativePath.IsName(todo[0]) ==> base + [todo[0]] in t.nodes
    ensures IsReal(t, StepFrom(t, base, todo))
  {
    DirnameIsReal(t, base);
  }

  lemma DirnameIsReal(t: Tree, p: Path)
    requires ValidTree(t) && IsReal(t, p)
    ensures IsReal(t, Dirname(p)) && IsReal(t, [])
  {
    if p != [] {
      NodeParents(t, p, |p| - 1);
    }
  }

  lemma {:induction false} RealIsReal(t: Tree, base: Path, todo: Path, links: nat)
    requires IsReal(t, base) && IsReal(t, []) && Real(t, base, todo, links).Some?
    ensures IsReal(t, Real(t, base, todo, links).value)
    decreases links, |todo|
  {
    if todo != [] {
      var child := base + [todo[0]];
      if t.nodes[child].Link? {
        RealIsReal(t, [], PathResolve(base, t.nodes[child].target) + todo[1..], links - 1);
      } else {
        RealIsReal(t, child, todo[1..], links);
      }
    }
  }

  lemma RealPathIsReal(t: Tree, p: Path)
    requires ValidTree(t) && RealPath(t, p).Some?
    ensures IsReal(t, RealPath(t, p).value) && AllSegments(RealPath(t, p).value)
  {
    RealIsReal(t, [], p, MAX_LINKS);
    NodeNames(t, RealPath(t, p).value);
  }

  lemma {:induction false} NearestExists(t: Tree, p: Path)
    requires ValidTree(t)
    ensures Exists(t, NearestExisting(t, p))
    ensures forall k | |NearestExisting(t, p)| < k <= |p| :: !Exists(t, p[..k])
    decreases |p|
  {
    if p != [] && !Exists(t, p) {
      var q := p[..|p| - 1];
      NearestExists(t, q);
      forall k | |NearestExisting(t, p)| < k <= |p| ensures !Exists(t, p[..k]) {
        assert k < |p| ==> q[..k] == p[..k];
        assert k == |p| ==> p[..k] == p;
      }
    }
  }

  lemma ResultSegments(t: Tree, cwd: Path, workspaceRoot: string, relativePath: string)
    requires ValidTree(t) && AllSegments(cwd) && InsideWorkspace(t, cwd, workspaceRoot, relativePath).Some?
    ensures AllSegments(InsideWorkspace(t, cwd, workspaceRoot, relativePath).value)
  {
    RealPathIsReal(t, PathResolve(cwd, workspaceRoot));
    var root := RealPath(t, PathResolve(cwd, workspaceRoot)).value;
    var candidate := PathResolve(root, relativePath);
    PathResolveSegments(root, relativePath);
    if Exists(t, candidate) {
      RealPathIsReal(t, candidate);
    } else {
      RealPathIsReal(t, NearestExisting(t, Dirname(candidate)));
    }
  }

  // ---------- main results ----------

  lemma ResultIsInsideRoot(t: Tree, cwd: Path, workspaceRoot: string, relativePath: string)
    requires ValidTree(t) && InsideWorkspace(t, cwd, workspaceRoot, relativePath).Some?
    ensures var root := RealPath(t, PathResolve(cwd, workspaceRoot));
            root.Some? && IsReal(t, root.value) &&
            root.value <= InsideWorkspace(t, cwd, workspaceRoot, relativePath).value
  {
    RealPathIsReal(t, PathResolve(cwd, workspaceRoot));
  }

  /** The result lies inside the real workspace root and inside the real jail root, segment by segment. */
  lemma JailedResultIsInside(t: Tree, cwd: Path, workspaceRoot: string, relativePath: string, jailRel: string)
    requires ValidTree(t) && JailedWritePath(t, cwd, workspaceRoot, relativePath, jailRel).Some?
    ensures var p := JailedWritePath(t, cwd, workspaceRoot, relativePath, jailRel).value;
            var root := RealPath(t, PathResolve(cwd, workspaceRoot));
            && root.Some? && IsReal(t, root.value) && root.value <= p
            && (jailRel != "" ==>
                  var jail := InsideWorkspace(t, cwd, workspaceRoot, jailRel);
                  && jail.Some? && root.value <= jail.value <= p
                  && (Exists(t, PathResolve(root.value, jailRel)) ==> IsReal(t, jail.value)))
  {
    ResultIsInsideRoot(t, cwd, workspaceRoot, RelativePath.Canonical(relativePath).value);
    if jailRel != "" {
      ResultIsInsideRoot(t, cwd, workspaceRoot, jailRel);
      ResultCases(t, cwd, workspaceRoot, jailRel);
    }
  }

  /** No component of the path is a link, so following it never leaves it. */
  ghost predicate LinkFree(t: Tree, p: Path) {
    forall k | 0 <= k <= |p| && p[..k] in t.nodes :: !t.nodes[p[..k]].Link?
  }

  lemma RealIsLinkFree(t: Tree, p: Path)
    requires ValidTree(t) && IsReal(t, p)
    ensures LinkFree(t, p)
  {
    NodeSegments(t, p);
    assert p[..|p|] == p;
  }

  /** Below a missing or linked node there are no nodes. */
  lemma NothingBelow(t: Tree, p: Path, k: nat, m: nat)
    requires ValidTree(t) && k < m <= |p| && p[..m] in t.nodes
    ensures p[..k] in t.nodes && t.nodes[p[..k]] == Dir
  {
    NodeSegments(t, p[..m]);
    assert p[..m][..k] == p[..k];
  }

  /** Below a real path some component of `p` is a link. */
  ghost predicate LinkBelow(t: Tree, actual: Path, p: Path) {
    exists k | |actual| < k <= |p| :: p[..k] in t.nodes && t.nodes[p[..k]].Link?
  }

  lemma RebuiltIsLinkFreeIff(t: Tree, actual: Path, p: Path)
    requires ValidTree(t) && IsReal(t, actual) && actual <= p
    ensures LinkFree(t, p) <==> !LinkBelow(t, actual, p)
  {
    RealIsLinkFree(t, actual);
    if !LinkBelow(t, actual, p) {
      forall k | 0 <= k <= |p| && p[..k] in t.nodes ensures !t.nodes[p[..k]].Link? {
        if k <= |actual| {
          assert p[..k] == actual[..k];
        }
      }
    }
  }

  /** Where the first component below is missing, or a link to nowhere, that component decides. */
  lemma FirstDecides(t: Tree, actual: Path, p: Path)
    requires ValidTree(t) && IsReal(t, actual) && actual <= p && |actual| < |p|
    requires p[..|actual| + 1] in t.nodes ==> t.nodes[p[..|actual| + 1]].Link?
    ensures LinkBelow(t, actual, p) <==> p[..|actual| + 1] in t.nodes
  {
    if p[..|actual| + 1] !in t.nodes {
      forall k | |actual| < k <= |p| ensures !(p[..k] in t.nodes && t.nodes[p[..k]].Link?) {
        if k > |actual| + 1 && p[..k] in t.nodes {
          NothingBelow(t, p, |actual| + 1, k);
        }
      }
    }
  }

  /** The result where the target exists, and where it does not. */
  lemma ResultCases(t: Tree, cwd: Path, workspaceRoot: string, relativePath: string)
    requires ValidTree(t) && InsideWorkspace(t, cwd, workspaceRoot, relativePath).Some?
    ensures var root := RealPath(t, PathResolve(cwd, workspaceRoot)).value;
            var candidate := PathResolve(root, relativePath);
            var p := InsideWorkspace(t, cwd, workspaceRoot, relativePath).value;
            var ancestor := NearestExisting(t, Dirname(candidate));
            && (Exists(t, candidate) ==> RealPath(t, candidate) == Some(p) && IsReal(t, p))
            && (!Exists(t, candidate) ==>
                  RealPath(t, ancestor).Some? && IsReal(t, RealPath(t, ancestor).value) &&
                  p == RealPath(t, ancestor).value + candidate[|ancestor|..])
  {
    var root := RealPath(t, PathResolve(cwd, workspaceRoot)).value;
    var candidate := PathResolve(root, relativePath);
    if Exists(t, candidate) {
      RealPathIsReal(t, candidate);
    } else {
      RealPathIsReal(t, NearestExisting(t, Dirname(candidate)));
    }
  }

  /**
   The result names its own real location exactly if the target exists or no component below the real location of
   the nearest existing ancestor is a link.  Where the file system and the textual walk agree on that ancestor,
   only the first component below it counts: it is missing, or a link to nowhere.
   */
  lemma ResultIsLinkFreeIff(t: Tree, cwd: Path, workspaceRoot: string, relativePath: string)
    requires ValidTree(t) && AllSegments(cwd) && InsideWorkspace(t, cwd, workspaceRoot, relativePath).Some?
    ensures var p := InsideWorkspace(t, cwd, workspaceRoot, relativePath).value;
            var candidate := PathResolve(RealPath(t, PathResolve(cwd, workspaceRoot)).value, relativePath);
            var ancestor := NearestExisting(t, Dirname(candidate));
            && (LinkFree(t, p) <==> Exists(t, candidate) || !LinkBelow(t, RealPath(t, ancestor).value, p))
            && (!Exists(t, candidate) && Walked(t, ancestor) == RealPath(t, ancestor) ==>
                  |RealPath(t, ancestor).value| < |p| &&
                  (LinkFree(t, p) <==> p[..|RealPath(t, ancestor).value| + 1] !in t.nodes))
  {
    var root := RealPath(t, PathResolve(cwd, workspaceRoot)).value;
    var candidate := PathResolve(root, relativePath);
    RealPathIsReal(t, PathResolve(cwd, workspaceRoot));
    PathResolveSegments(root, relativePath);
    ResultCases(t, cwd, workspaceRoot, relativePath);
    LinkFreeCases(t, candidate, NearestExisting(t, Dirname(candidate)),
                  InsideWorkspace(t, cwd, workspaceRoot, relativePath).value);
  }

  lemma LinkFreeCases(t: Tree, candidate: Path, ancestor: Path, p: Path)
    requires ValidTree(t) && AllSegments(candidate) && ancestor == NearestExisting(t, Dirname(candidate))
    requires Exists(t, candidate) ==> IsReal(t, p)
    requires !Exists(t, candidate) ==>
               RealPath(t, ancestor).Some? && IsReal(t, RealPath(t, ancestor).value) &&
               p == RealPath(t, ancestor).value + candidate[|ancestor|..]
    ensures LinkFree(t, p) <==> Exists(t, candidate) || !LinkBelow(t, RealPath(t, ancestor).value, p)
    ensures !Exists(t, candidate) && Walked(t, ancestor) == RealPath(t, ancestor) ==>
              |RealPath(t, ancestor).value| < |p| &&
              (LinkFree(t, p) <==> p[..|RealPath(t, ancestor).value| + 1] !in t.nodes)
  {
    if Exists(t, candidate) {
      RealIsLinkFree(t, p);
    } else {
      MissingIsLinkFreeIff(t, candidate, ancestor, RealPath(t, ancestor).value, p);
    }
  }

  lemma MissingIsLinkFreeIff(t: Tree, candidate: Path, ancestor: Path, actual: Path, p: Path)
    requires ValidTree(t) && AllSegments(candidate) && !Exists(t, candidate)
    requires ancestor == NearestExisting(t, Dirname(candidate))
    requires IsReal(t, actual) && p == actual + candidate[|ancestor|..]
    ensures LinkFree(t, p) <==> !LinkBelow(t, actual, p)
    ensures Walked(t, ancestor) == Some(actual) ==>
              |actual| < |p| && (LinkFree(t, p) <==> p[..|actual| + 1] !in t.nodes)
  {
    RebuiltIsLinkFreeIff(t, actual, p);
    MissingIsNotRoot(t, candidate);
    NextIsMissing(t, candidate, ancestor);
    assert p[..|actual| + 1] == actual + [candidate[|ancestor|]];
    if Walked(t, ancestor) == Some(actual) {
      FirstMissing(t, candidate, ancestor);
      FirstDecides(t, actual, p);
    }
  }

  lemma RootExists(t: Tree)
    ensures Exists(t, [])
  {
  }

  lemma MissingIsNotRoot(t: Tree, p: Path)
    requires !Exists(t, p)
    ensures p != []
  {
    if p == [] {
      RootExists(t);
    }
  }

  lemma FollowLast(t: Tree, base: Path, links: nat, s: string)
    requires ValidTree(t) && IsSegment(s) && base + [s] in t.nodes && !t.nodes[base + [s]].Link?
    ensures Follow(t, base, [s], links) == Some(base + [s])
  {
    assert (base + [s])[..|base|] == base;
    assert [s][1..] == [];
  }

  /** One step of a walk: from where, over which segments, and with how many links it goes on. */
  function StepFrom(t: Tree, base: Path, todo: seq<string>): Path
    requires todo != []
  {
    if RelativePath.IsSkipped(todo[0]) then base
    else if todo[0] == ".." then Dirname(base)
    else
      var child := base + [todo[0]];
      if child in t.nodes && t.nodes[child].Link? then
        var target := t.nodes[child].target;
        if target != "" && target[0] == '/' then [] else base
      else child
  }

  /** The segments that a link stands for; none where there is no link. */
  function StepInto(t: Tree, base: Path, todo: seq<string>): seq<string>
    requires todo != []
  {
    var child := base + [todo[0]];
    if RelativePath.IsName(todo[0]) && child in t.nodes && t.nodes[child].Link?
    then Text.Split(t.nodes[child].target, '/')
    else []
  }

  /** How many links may still be followed after this step. */
  function LinksLeft(t: Tree, base: Path, todo: seq<string>, links: nat): nat
    requires todo != []
  {
    if StepInto(t, base, todo) == [] || links == 0 then links else links - 1
  }

  lemma FollowStep(t: Tree, base: Path, todo: seq<string>, links: nat)
    requires todo != [] && !(base in t.nodes && t.nodes[base] == File)
    requires RelativePath.IsName(todo[0]) ==> base + [todo[0]] in t.nodes
    requires StepInto(t, base, todo) != [] ==> links > 0
    ensures Follow(t, base, todo, links) ==
            Follow(t, StepFrom(t, base, todo), StepInto(t, base, todo) + todo[1..],
                   LinksLeft(t, base, todo, links))
  {
    assert [] + todo[1..] == todo[1..];
  }

  /** Where a walk ends in a directory, one more segment that is a node and not a link continues it. */
  lemma {:induction false} FollowOne(t: Tree, base: Path, todo: seq<string>, links: nat, s: string)
    requires ValidTree(t) && IsSegment(s) && Follow(t, base, todo, links).Some?
    requires var r := Follow(t, base, todo, links).value; r + [s] in t.nodes && !t.nodes[r + [s]].Link?
    ensures Follow(t, base, todo + [s], links).Some?
    decreases links, |todo|
  {
    if todo == [] {
      FollowLast(t, base, links, s);
      assert todo + [s] == [s];
    } else {
      FollowHasStep(t, base, todo, links);
      FollowStep(t, base, todo, links);
      FollowOne(t, StepFrom(t, base, todo), StepInto(t, base, todo) + todo[1..], LinksLeft(t, base, todo, links), s);
      FollowLonger(t, base, todo, links, s);
    }
  }

  lemma FollowHasStep(t: Tree, base: Path, todo: seq<string>, links: nat)
    requires todo != [] && Follow(t, base, todo, links).Some?
    ensures !(base in t.nodes && t.nodes[base] == File)
    ensures RelativePath.IsName(todo[0]) ==> base + [todo[0]] in t.nodes
    ensures StepInto(t, base, todo) != [] ==> links > 0
  {
  }

  lemma FollowLonger(t: Tree, base: Path, todo: seq<string>, links: nat, s: string)
    requires todo != [] && Follow(t, base, todo, links).Some?
    requires Follow(t, StepFrom(t, base, todo), StepInto(t, base, todo) + todo[1..] + [s],
                    LinksLeft(t, base, todo, links)).Some?
    ensures Follow(t, base, todo + [s], links).Some?
  {
    var longer := todo + [s];
    FollowHasStep(t, base, todo, links);
    assert longer[0] == todo[0] && longer[1..] == todo[1..] + [s];
    FollowStep(t, base, longer, links);
    var into := StepInto(t, base, todo);
    assert into + todo[1..] + [s] == into + longer[1..];
  }

  /** Directly below the nearest existing ancestor there is nothing, or a link to nowhere. */
  lemma FirstMissing(t: Tree, candidate: Path, ancestor: Path)
    requires ValidTree(t) && AllSegments(candidate) && candidate != [] && !Exists(t, candidate)
    requires ancestor == NearestExisting(t, Dirname(candidate)) && Exists(t, ancestor)
    ensures var first := Walked(t, ancestor).value + [candidate[|ancestor|]];
            first in t.nodes ==> t.nodes[first].Link?
  {
    NextIsMissing(t, candidate, ancestor);
    var first := Walked(t, ancestor).value + [candidate[|ancestor|]];
    if first in t.nodes && !t.nodes[first].Link? {
      FollowOne(t, [], ancestor, MAX_LINKS, candidate[|ancestor|]);
    }
  }

  lemma NextIsMissing(t: Tree, candidate: Path, ancestor: Path)
    requires ValidTree(t) && candidate != [] && !Exists(t, candidate)
    requires ancestor == NearestExisting(t, Dirname(candidate))
    ensures |ancestor| < |candidate| && !Exists(t, ancestor + [candidate[|ancestor|]])
  {
    NearestExists(t, Dirname(candidate));
    var n := |ancestor|;
    assert ancestor == candidate[..n];
    Cut(candidate, n);
    if n + 1 < |candidate| {
      assert Dirname(candidate)[..n + 1] == candidate[..n + 1];
    } else {
      assert candidate[..n + 1] == candidate;
    }
  }

  // ---------- what is accepted ----------

  lemma {:induction false} NormalizeWalks(base: Path, out: Path, parts: seq<string>)
    requires RelativePath.Walk(out, parts).Some?
    ensures Normalize(base + out, parts) == base + RelativePath.Walk(out, parts).value
    decreases |parts|
  {
    if parts != [] {
      if RelativePath.IsSkipped(parts[0]) {
        NormalizeWalks(base, out, parts[1..]);
      } else if parts[0] == ".." {
        NormalizeWalks(base, out[..|out| - 1], parts[1..]);
        assert (base + out)[..|base + out| - 1] == base + out[..|out| - 1];
      } else {
        NormalizeWalks(base, out + [parts[0]], parts[1..]);
        assert base + out + [parts[0]] == base + (out + [parts[0]]);
      }
    }
  }

  /**
   Canonicalization keeps the place: seen from any directory, a spelling and its canonical form lead to the same path.
   */
  lemma CanonicalDenotesSamePlace(base: Path, value: string)
    requires RelativePath.Canonical(value).Some?
    ensures var canonical := RelativePath.Canonical(value).value;
            Normalize(base, RelativePath.Parts(value)) == PathResolve(base, canonical) ==
              base + RelativePath.Parts(canonical)
  {
    var canonical, parts := RelativePath.Canonical(value).value, RelativePath.Parts(value);
    NormalizeWalks(base, [], parts);
    assert base + [] == base;
    RelativePath.PartsPlain(value);
    RelativePath.WalkKeepsClean([], parts);
    var out := RelativePath.Walk([], parts).value;
    RelativePath.CleanIsCanonical(out);
    forall i | 0 <= i < |out| ensures IsSegment(out[i]) && '/' !in out[i] && '\\' !in out[i] {
      assert RelativePath.IsClean(out[i]);
    }
    RebuiltPath(base, out);
    assert canonical != "" by {
      assert RelativePath.Canonical(canonical).Some?;
    }
  }

  /** A path without links that exists is its own real path. */
  lemma {:induction false} LinkFreeIsReal(t: Tree, base: Path, rest: Path, links: nat)
    requires AllSegments(rest) && LinkFree(t, base + rest) && Follow(t, base, rest, links).Some?
    ensures Follow(t, base, rest, links) == Some(base + rest)
    decreases |rest|
  {
    if rest == [] {
      assert base + rest == base;
    } else {
      assert IsSegment(rest[0]);
      var child := base + [rest[0]];
      assert child == (base + rest)[..|child|];
      assert child + rest[1..] == base + rest;
      LinkFreeIsReal(t, child, rest[1..], links);
    }
  }

  lemma LinkFreePrefix(t: Tree, p: Path, q: Path)
    requires ValidTree(t) && LinkFree(t, p) && q <= p && AllSegments(p) && Exists(t, q)
    ensures Walked(t, q) == RealPath(t, q) == Some(q)
  {
    LinkFreeAbove(t, p, q);
    assert [] + q == q;
    LinkFreeIsReal(t, [], q, MAX_LINKS);
    WalkedIsReal(t, q);
    RealWalks(t, q);
  }

  lemma LinkFreeAbove(t: Tree, p: Path, q: Path)
    requires LinkFree(t, p) && q <= p
    ensures LinkFree(t, q)
  {
    forall k | 0 <= k <= |q| ensures q[..k] == p[..k] {
    }
  }

  lemma WalkedIsReal(t: Tree, p: Path)
    requires ValidTree(t) && Exists(t, p)
    ensures IsReal(t, Walked(t, p).value)
  {
    FollowIsReal(t, [], p, MAX_LINKS);
  }

  /**
   The jail refuses nothing it need not refuse: any spelling of
   a path without links below the root resolves to that path.
   */
  lemma LinkFreePathIsAccepted(t: Tree, cwd: Path, workspaceRoot: string, value: string)
    requires ValidTree(t) && AllSegments(cwd) && workspaceRoot != ""
    requires RealPath(t, PathResolve(cwd, workspaceRoot)).Some?
    requires RelativePath.Canonical(value).Some?
    requires LinkFree(t, Normalize(RealPath(t, PathResolve(cwd, workspaceRoot)).value, RelativePath.Parts(value)))
    ensures JailedWritePath(t, cwd, workspaceRoot, value, "") ==
            Some(Normalize(RealPath(t, PathResolve(cwd, workspaceRoot)).value, RelativePath.Parts(value)))
  {
    var root := RealPath(t, PathResolve(cwd, workspaceRoot)).value;
    var canonical := RelativePath.Canonical(value).value;
    CanonicalDenotesSamePlace(root, value);
    RealPathIsReal(t, PathResolve(cwd, workspaceRoot));
    assert canonical != "" by {
      RelativePath.CanonicalIsIdempotent(value);
    }
    LinkFreeInside(t, cwd, workspaceRoot, canonical, root);
  }

  lemma LinkFreeInside(t: Tree, cwd: Path, workspaceRoot: string, relativePath: string, root: Path)
    requires ValidTree(t) && AllSegments(root) && IsReal(t, root) && workspaceRoot != "" && relativePath != ""
    requires RealPath(t, PathResolve(cwd, workspaceRoot)) == Some(root)
    requires root <= PathResolve(root, relativePath) && LinkFree(t, PathResolve(root, relativePath))
    ensures InsideWorkspace(t, cwd, workspaceRoot, relativePath) == Some(PathResolve(root, relativePath))
  {
    PathResolveSegments(root, relativePath);
    LinkFreeCandidate(t, root, PathResolve(root, relativePath));
  }

  lemma LinkFreeCandidate(t: Tree, root: Path, candidate: Path)
    requires ValidTree(t) && IsReal(t, root) && root <= candidate && AllSegments(candidate) && LinkFree(t, candidate)
    ensures Exists(t, candidate) ==> RealPath(t, candidate) == Some(candidate)
    ensures !Exists(t, candidate) ==>
              var ancestor := NearestExisting(t, Dirname(candidate));
              RealPath(t, ancestor) == Some(ancestor) && root <= ancestor &&
              ancestor + candidate[|ancestor|..] == candidate
  {
    if Exists(t, candidate) {
      LinkFreePrefix(t, candidate, candidate);
    } else {
      var ancestor := NearestExisting(t, Dirname(candidate));
      NearestExists(t, Dirname(candidate));
      LinkFreePrefix(t, candidate, ancestor);
      RealExists(t, root, candidate);
      assert Dirname(candidate)[..|root|] == root;
    }
  }

  /** A real path below which a path without links lies exists. */
  lemma RealExists(t: Tree, root: Path, p: Path)
    requires ValidTree(t) && IsReal(t, root) && root <= p && AllSegments(p) && LinkFree(t, p) && !Exists(t, p)
    ensures Exists(t, root) && root <= Dirname(p)
  {
    WalkDown(t, root, 0, MAX_LINKS);
    assert root[..0] == [] && root[0..] == root;
    assert root != p;
  }

  lemma {:induction false} WalkDown(t: Tree, p: Path, k: nat, links: nat)
    requires ValidTree(t) && IsReal(t, p) && k <= |p|
    ensures Follow(t, p[..k], p[k..], links) == Some(p)
    decreases |p| - k
  {
    if k == |p| {
      assert p[..k] == p;
    } else {
      NodeSegments(t, p);
      assert IsSegment(p[k]);
      assert p[..k] in t.nodes && t.nodes[p[..k]] == Dir;
      assert p[..k + 1] in t.nodes && !t.nodes[p[..k + 1]].Link? by {
        assert k + 1 == |p| ==> p[..k + 1] == p;
      }
      Cut(p, k);
      WalkDown(t, p, k + 1, links);
    }
  }

  /** The textual walk leaves a real path as it is. */
  lemma {:induction false} RealWalkDown(t: Tree, p: Path, k: nat, links: nat)
    requires ValidTree(t) && IsReal(t, p) && k <= |p|
    ensures Real(t, p[..k], p[k..], links) == Some(p)
    decreases |p| - k
  {
    if k == |p| {
      assert p[..k] == p;
    } else {
      NodeSegments(t, p);
      assert p[..k] in t.nodes && t.nodes[p[..k]] == Dir;
      assert p[..k + 1] in t.nodes && !t.nodes[p[..k + 1]].Link? by {
        assert k + 1 == |p| ==> p[..k + 1] == p;
      }
      Cut(p, k);
      RealWalkDown(t, p, k + 1, links);
    }
  }

  lemma Cut(p: Path, k: nat)
    requires k < |p|
    ensures p[..k] + [p[k]] == p[..k + 1] && p[k..][0] == p[k] && p[k..][1..] == p[k + 1..]
  {
  }

  // ---------- where a write lands ----------

  /**
   Where opening a path for writing leads: like a walk, but a missing last component is created where the walk has come
   to; None where the open fails.
   */
  function Opened(t: Tree, base: Path, todo: seq<string>, links: nat): Option<Path>
    decreases links, |todo|
  {
    if todo == [] then Some(base)
    else if base in t.nodes && t.nodes[base] == File then None
    else if RelativePath.IsSkipped(todo[0]) then Opened(t, base, todo[1..], links)
    else if todo[0] == ".." then Opened(t, Dirname(base), todo[1..], links)
    else
      var child := base + [todo[0]];
      if child !in t.nodes then (if |todo| == 1 then Some(child) else None)
      else if t.nodes[child].Link? then (if links == 0 then None else ThroughLink(t, base, child, todo[1..], links))
      else Opened(t, child, todo[1..], links)
  }

  /** On through a link: from its directory, or from the root, over its target and what is left. */
  function ThroughLink(t: Tree, base: Path, link: Path, rest: seq<string>, links: nat): Option<Path>
    requires link in t.nodes && t.nodes[link].Link? && links > 0
    decreases links - 1, |Text.Split(t.nodes[link].target, '/') + rest| + 1
  {
    var target := t.nodes[link].target;
    Opened(t, if target != "" && target[0] == '/' then [] else base, Text.Split(target, '/') + rest, links - 1)
  }

  function WriteTarget(t: Tree, p: Path): Option<Path> {
    Opened(t, [], p, MAX_LINKS)
  }

  /** One step of opening where more than the last component is left. */
  lemma OpenedStep(t: Tree, base: Path, todo: seq<string>, links: nat)
    requires |todo| > 1 && Opened(t, base, todo, links).Some?
    ensures !(base in t.nodes && t.nodes[base] == File)
    ensures RelativePath.IsName(todo[0]) ==> base + [todo[0]] in t.nodes
    ensures StepInto(t, base, todo) != [] ==> links > 0
    ensures Opened(t, base, todo, links) ==
            Opened(t, StepFrom(t, base, todo), StepInto(t, base, todo) + todo[1..],
                   LinksLeft(t, base, todo, links))
  {
    assert [] + todo[1..] == todo[1..];
  }

  /** ... and where only the last one is. */
  lemma OpenedLast(t: Tree, base: Path, name: string, links: nat)
    requires Opened(t, base, [name], links).Some?
    ensures StepInto(t, base, [name]) != [] ==> links > 0
    ensures Opened(t, base, [name], links) ==
            if StepInto(t, base, [name]) == [] then Some(StepFrom(t, base, [name]))
            else if links == 0 then None
            else Opened(t, StepFrom(t, base, [name]), StepInto(t, base, [name]), links - 1)
  {
    assert [name][1..] == [];
    assert StepInto(t, base, [name]) + [] == StepInto(t, base, [name]);
  }

  // ---------- finding that place beforehand ----------

  /**
   A loop that a caller can run before the write: resolve the directory part, look at the last component, and
   go on with the text of the link if it is one.
   */
  function Chased(t: Tree, base: Path, todo: seq<string>, hops: nat): Option<Path>
    requires todo != []
    decreases hops
  {
    var n := |todo| - 1;
    match Follow(t, base, todo[..n], MAX_LINKS)
    case None => None
    case Some(dir) =>
      var last := [todo[n]];
      if StepInto(t, dir, last) == [] then Some(StepFrom(t, dir, last))
      else if hops == 0 then None
      else Chased(t, StepFrom(t, dir, last), StepInto(t, dir, last), hops - 1)
  }

  function ChasedPath(t: Tree, p: Path): Option<Path> {
    if p == [] then Some(p) else Chased(t, [], p, MAX_LINKS)
  }

  lemma {:induction false} FollowMore(t: Tree, base: Path, todo: seq<string>, links: nat, more: nat)
    requires links <= more && Follow(t, base, todo, links).Some?
    ensures Follow(t, base, todo, more) == Follow(t, base, todo, links)
    decreases links, |todo|
  {
    if todo != [] {
      FollowHasStep(t, base, todo, links);
      FollowStep(t, base, todo, links);
      FollowStep(t, base, todo, more);
      FollowMore(t, StepFrom(t, base, todo), StepInto(t, base, todo) + todo[1..],
                 LinksLeft(t, base, todo, links), LinksLeft(t, base, todo, more));
    }
  }

  /** Opening walks the directory part first. */
  lemma {:induction false} OpenedSplits(t: Tree, base: Path, dirs: seq<string>, name: string, links: nat)
    returns (dir: Path, left: nat)
    requires Opened(t, base, dirs + [name], links).Some?
    ensures left <= links && Follow(t, base, dirs, links) == Some(dir)
    ensures Opened(t, dir, [name], left) == Opened(t, base, dirs + [name], links)
    decreases links, |dirs|
  {
    if dirs == [] {
      dir, left := base, links;
      assert dirs + [name] == [name];
    } else {
      OpenedSplitsStep(t, base, dirs, name, links);
      FollowStep(t, base, dirs, links);
      dir, left := OpenedSplits(t, StepFrom(t, base, dirs), StepInto(t, base, dirs) + dirs[1..], name,
                                LinksLeft(t, base, dirs, links));
    }
  }

  lemma OpenedSplitsStep(t: Tree, base: Path, dirs: seq<string>, name: string, links: nat)
    requires dirs != [] && Opened(t, base, dirs + [name], links).Some?
    ensures !(base in t.nodes && t.nodes[base] == File)
    ensures RelativePath.IsName(dirs[0]) ==> base + [dirs[0]] in t.nodes
    ensures StepInto(t, base, dirs) != [] ==> links > 0
    ensures Opened(t, base, dirs + [name], links) ==
            Opened(t, StepFrom(t, base, dirs), StepInto(t, base, dirs) + dirs[1..] + [name],
                   LinksLeft(t, base, dirs, links))
  {
    var todo := dirs + [name];
    assert todo[0] == dirs[0] && todo[1..] == dirs[1..] + [name];
    OpenedStep(t, base, todo, links);
    assert StepInto(t, base, todo) + todo[1..] == StepInto(t, base, dirs) + dirs[1..] + [name];
  }

  function Lands(t: Tree, base: Path, todo: seq<string>, links: nat): Option<Path> {
    Opened(t, base, todo, links)
  }

  function Finds(t: Tree, base: Path, todo: seq<string>, hops: nat): Option<Path>
    requires todo != []
  {
    Chased(t, base, todo, hops)
  }

  /** The loop finds where the write lands. */
  lemma {:induction false} ChasedFinds(t: Tree, base: Path, todo: seq<string>, links: nat, hops: nat)
    requires todo != [] && links <= hops <= MAX_LINKS && Lands(t, base, todo, links).Some?
    ensures Finds(t, base, todo, hops) == Lands(t, base, todo, links)
    decreases hops
  {
    var n := |todo| - 1;
    var dir, left := OpenedFront(t, base, todo, n, links);
    ChasedStep(t, base, todo, n, dir, hops);
    if StepInto(t, dir, [todo[n]]) != [] {
      ChasedFinds(t, StepFrom(t, dir, [todo[n]]), StepInto(t, dir, [todo[n]]), left - 1, hops - 1);
    }
  }

  lemma ChasedStep(t: Tree, base: Path, todo: seq<string>, n: nat, dir: Path, hops: nat)
    requires |todo| == n + 1 && Follow(t, base, todo[..n], MAX_LINKS) == Some(dir)
    ensures Finds(t, base, todo, hops) ==
            if StepInto(t, dir, [todo[n]]) == [] then Some(StepFrom(t, dir, [todo[n]]))
            else if hops == 0 then None
            else Finds(t, StepFrom(t, dir, [todo[n]]), StepInto(t, dir, [todo[n]]), hops - 1)
  {
  }

  lemma OpenedFront(t: Tree, base: Path, todo: seq<string>, n: nat, links: nat) returns (dir: Path, left: nat)
    requires |todo| == n + 1 && links <= MAX_LINKS && Lands(t, base, todo, links).Some?
    ensures left <= links && Follow(t, base, todo[..n], MAX_LINKS) == Some(dir)
    ensures StepInto(t, dir, [todo[n]]) != [] ==> left > 0
    ensures Lands(t, base, todo, links) ==
            if StepInto(t, dir, [todo[n]]) == [] then Some(StepFrom(t, dir, [todo[n]]))
            else if left == 0 then None
            else Lands(t, StepFrom(t, dir, [todo[n]]), StepInto(t, dir, [todo[n]]), left - 1)
  {
    assert todo == todo[..n] + [todo[n]];
    dir, left := OpenedSplits(t, base, todo[..n], todo[n], links);
    FollowMore(t, base, todo[..n], links, MAX_LINKS);
    OpenedLast(t, dir, todo[n], left);
  }

  /** A place that a write can land at: a node that is no link, or a name missing below one. */
  ghost predicate IsSpot(t: Tree, q: Path) {
    IsReal(t, q) || (q != [] && q !in t.nodes && IsReal(t, Dirname(q)))
  }

  lemma SpotIsLinkFree(t: Tree, q: Path)
    requires ValidTree(t) && IsSpot(t, q)
    ensures LinkFree(t, q)
  {
    if IsReal(t, q) {
      RealIsLinkFree(t, q);
    } else {
      RealIsLinkFree(t, Dirname(q));
      assert q[..|q|] == q;
      forall k | 0 <= k < |q| ensures q[..k] == Dirname(q)[..k] {
      }
    }
  }

  lemma {:induction false} OpenedIsSpot(t: Tree, base: Path, todo: seq<string>, links: nat)
    requires ValidTree(t) && IsReal(t, base) && Opened(t, base, todo, links).Some?
    ensures IsSpot(t, Opened(t, base, todo, links).value)
    decreases links, |todo|
  {
    if |todo| == 1 {
      assert todo == [todo[0]];
      OpenedLast(t, base, todo[0], links);
      LastIsSpot(t, base, todo[0]);
      if StepInto(t, base, todo) != [] {
        OpenedIsSpot(t, StepFrom(t, base, todo), StepInto(t, base, todo), links - 1);
      }
    } else if todo != [] {
      OpenedStep(t, base, todo, links);
      StepIsReal(t, base, todo);
      OpenedIsSpot(t, StepFrom(t, base, todo), StepInto(t, base, todo) + todo[1..], LinksLeft(t, base, todo, links));
    }
  }

  lemma LastIsSpot(t: Tree, base: Path, name: string)
    requires ValidTree(t) && IsReal(t, base)
    ensures StepInto(t, base, [name]) == [] ==> IsSpot(t, StepFrom(t, base, [name]))
    ensures StepInto(t, base, [name]) != [] ==> IsReal(t, StepFrom(t, base, [name]))
  {
    DirnameIsReal(t, base);
    assert Dirname(base + [name]) == base;
  }

  /** Without a link on it the path itself is opened, or nothing is. */
  lemma {:induction false} OpensItself(t: Tree, p: Path, j: nat, links: nat)
    requires AllSegments(p) && j <= |p| && LinkFree(t, p) && Opened(t, p[..j], p[j..], links).Some?
    ensures Opened(t, p[..j], p[j..], links) == Some(p)
    decreases |p| - j
  {
    if j == |p| {
      assert p[..j] == p;
    } else {
      Cut(p, j);
      assert IsSegment(p[j]);
      if p[..j + 1] in t.nodes {
        OpensItself(t, p, j + 1, links);
      } else {
        assert p[..j + 1] == p;
      }
    }
  }

  /**
   A write to the result lands at the result itself exactly if no component of it is a link.  In any case it lands at
   a path that runs through no link, the one that the loop finds; that one decides whether it is inside the root.
   */
  lemma WriteLandsInsideIff(t: Tree, cwd: Path, workspaceRoot: string, relativePath: string, q: Path)
    requires ValidTree(t) && AllSegments(cwd) && InsideWorkspace(t, cwd, workspaceRoot, relativePath).Some?
    requires WriteTarget(t, InsideWorkspace(t, cwd, workspaceRoot, relativePath).value) == Some(q)
    ensures var p := InsideWorkspace(t, cwd, workspaceRoot, relativePath).value;
            var root := RealPath(t, PathResolve(cwd, workspaceRoot)).value;
            && (q == p <==> LinkFree(t, p))
            && LinkFree(t, q)
            && ChasedPath(t, p).Some? && (root <= q <==> root <= ChasedPath(t, p).value)
            && (LinkFree(t, p) ==> root <= q)
  {
    var p := InsideWorkspace(t, cwd, workspaceRoot, relativePath).value;
    ResultIsInsideRoot(t, cwd, workspaceRoot, relativePath);
    ResultSegments(t, cwd, workspaceRoot, relativePath);
    LandsAtItself(t, p);
    if p != [] {
      ChasedFinds(t, [], p, MAX_LINKS, MAX_LINKS);
    }
  }

  lemma LandsAtItself(t: Tree, p: Path)
    requires ValidTree(t) && AllSegments(p) && WriteTarget(t, p).Some?
    ensures WriteTarget(t, p) == Some(p) <==> LinkFree(t, p)
    ensures LinkFree(t, WriteTarget(t, p).value)
  {
    assert p[..0] == [] && p[0..] == p;
    OpenedIsSpot(t, [], p, MAX_LINKS);
    SpotIsLinkFree(t, WriteTarget(t, p).value);
    if LinkFree(t, p) {
      OpensItself(t, p, 0, MAX_LINKS);
    }
  }

  // ---------- a link to nowhere ----------

  /** In the workspace `/w` stands a link to `/n`, which does not exist. */
  const DANGLING := Tree(map[[] := Dir, ["w"] := Dir, ["w", "l"] := Link("/n")])

  lemma SplitsRooted(name: string)
    requires IsSegment(name)
    ensures Text.Split("/" + name, '/') == ["", name] && Text.Split(name, '/') == [name]
  {
    Text.SplitJoin([name], '/');
    Text.SplitPiece("", '/', name);
    assert "" + ['/'] + name == "/" + name && [""] + [name] == ["", name];
  }

  lemma RootedPath(name: string)
    requires IsSegment(name)
    ensures PathResolve([], "/" + name) == [name]
  {
    SplitsRooted(name);
    assert ["", name][1..] == [name];
    NormalizePlain([], [name]);
    assert [] + [name] == [name];
  }

  lemma RelativeName(base: Path, name: string)
    requires IsSegment(name)
    ensures PathResolve(base, name) == base + [name]
  {
    SplitsRooted(name);
    NormalizePlain(base, [name]);
    assert name[0] in name;
  }

  lemma RealWalks(t: Tree, p: Path)
    requires ValidTree(t) && IsReal(t, p)
    ensures Walked(t, p) == RealPath(t, p) == Some(p)
  {
    assert p[..0] == [] && p[0..] == p;
    WalkDown(t, p, 0, MAX_LINKS);
    RealWalkDown(t, p, 0, MAX_LINKS);
  }

  /** A link in a directory below the root, to a name that is not there. */
  ghost predicate IsDangling(t: Tree, dir: string, name: string, gone: string) {
    && IsSegment(dir) && IsSegment(name) && IsSegment(gone)
    && [] in t.nodes && t.nodes[[]] == Dir && [dir] in t.nodes && t.nodes[[dir]] == Dir
    && [dir, name] in t.nodes && t.nodes[[dir, name]] == Link("/" + gone) && [gone] !in t.nodes
  }

  lemma GoneName(t: Tree, gone: string, links: nat)
    requires IsSegment(gone) && [] in t.nodes && t.nodes[[]] == Dir && [gone] !in t.nodes
    ensures Follow(t, [], ["", gone], links) == None && Opened(t, [], ["", gone], links) == Some([gone])
  {
    assert ["", gone][1..] == [gone] && [] + [gone] == [gone];
    assert Follow(t, [], [gone], links) == None && Opened(t, [], [gone], links) == Some([gone]);
  }

  lemma LinkWalks(t: Tree, dir: string, name: string, gone: string)
    requires IsDangling(t, dir, name, gone)
    ensures Follow(t, [dir], [name], MAX_LINKS) == None && Opened(t, [dir], [name], MAX_LINKS) == Some([gone])
  {
    SplitsRooted(gone);
    GoneName(t, gone, MAX_LINKS - 1);
    assert [dir] + [name] == [dir, name] && [name][1..] == [] && ["", gone] + [] == ["", gone];
  }

  lemma DanglingWalks(t: Tree, dir: string, name: string, gone: string)
    requires IsDangling(t, dir, name, gone)
    ensures Walked(t, [dir, name]) == None && WriteTarget(t, [dir, name]) == Some([gone])
  {
    LinkWalks(t, dir, name, gone);
    assert [dir, name][1..] == [name] && [] + [dir] == [dir];
  }

  lemma DanglingInside(t: Tree, dir: string, name: string, gone: string)
    requires ValidTree(t) && IsDangling(t, dir, name, gone)
    ensures InsideWorkspace(t, [], "/" + dir, name) == Some([dir, name]) && !LinkFree(t, [dir, name])
  {
    RootedPath(dir);
    RelativeName([dir], name);
    assert [dir] + [name] == [dir, name];
    RealWalks(t, [dir]);
    DanglingWalks(t, dir, name, gone);
    assert [dir, name][..1] == [dir] && [dir, name][..2] == [dir, name];
    assert name[0] in name;
    var rest := [dir, name][|NearestExisting(t, [dir])|..];
    assert NearestExisting(t, [dir]) == [dir] && rest == [name];
  }

  lemma DanglingIsValid()
    ensures ValidTree(DANGLING) && IsDangling(DANGLING, "w", "l", "n")
  {
    assert ["w", "l"][..1] == ["w"] && ["w"][..0] == [];
    assert "/" + "n" == "/n";
    assert "n"[0] != "w"[0];
    assert ["n"][0] == "n" && ["w"][0] == "w";
  }

  /** The jail answers with the link, and a write to it lands outside the workspace. */
  lemma DanglingLinkLeadsOutside()
    ensures ValidTree(DANGLING) && InsideWorkspace(DANGLING, [], "/" + "w", "l") == Some(["w", "l"])
    ensures !LinkFree(DANGLING, ["w", "l"])
    ensures WriteTarget(DANGLING, ["w", "l"]) == Some(["n"]) && !(["w"] <= ["n"])
  {
    DanglingIsValid();
    DanglingInside(DANGLING, "w", "l", "n");
    DanglingWalks(DANGLING, "w", "l", "n");
    assert "n"[0] != "w"[0];
  }
}
