/**
  Sandbox write grants: lexical normalization that refuses to leave its base, and the list of
  granted subtrees that is kept minimal while grants are inserted.
*/
module WriteGrants {
  import opened Wrappers
  import opened LexicalPaths
  import opened Subtrees

  // ----- lexical normalization -----

  /** The number of leading components that `..` may not remove. */
  function BaseLength(path: seq<Component>): nat
  {
    if path != [] && (path[0].RootDir? || path[0].CurDir?) then 1 else 0
  }

  /** A normalized path: an optional base, then names only. */
  predicate IsNormal(path: seq<Component>)
  {
    WellFormed(path) && forall i :: 0 <= i < |path| ==> !path[i].ParentDir?
  }

  /** One component after the base; None once a `..` has reached the base. */
  function LexicalStep(lexical: seq<Component>, base: nat, c: Component): Option<seq<Component>>
  {
    match c
    case ParentDir => if |lexical| <= base then None else Some(lexical[..|lexical| - 1])
    case c => Some(lexical + [c])
  }

  /** What the first n components normalize to. */
  function LexicalPrefix(path: Path, n: nat): Option<seq<Component>>
    requires BaseLength(path) <= n <= |path|
    decreases n
  {
    if n == BaseLength(path) then Some(path[..n])
    else
      match LexicalPrefix(path, n - 1)
      case None => None
      case Some(lexical) => LexicalStep(lexical, BaseLength(path), path[n - 1])
  }

  function LexicalNormal(path: Path): Option<seq<Component>>
  {
    if path != [] && path[0].ParentDir? then None else LexicalPrefix(path, |path|)
  }

  lemma DepthOfBase(path: Path)
    ensures var base := BaseLength(path);
            Depth(path[..base]) == 0 && !EscapesWithin(path, base) && IsNormal(path[..base])
  {
  }

  /** One step keeps a normalized prefix normal and in step with the walk. */
  lemma LexicalStepMeaning(lexical: seq<Component>, base: nat, c: Component, d: seq<string>)
    requires IsNormal(lexical) && BaseLength(lexical) == base <= |lexical|
    requires c.ParentDir? || (c.Normal? && ProperName(c.name))
    ensures var next := LexicalStep(lexical, base, c);
            && (next.None? <==> |lexical| - base + Rise(c) < 0)
            && (next.Some? ==>
                  && IsNormal(next.value) && BaseLength(next.value) == base
                  && |next.value| == |lexical| + Rise(c)
                  && Walk(next.value, d) == StepInto(Walk(lexical, d), c))
  {
  }

  /** The normalized prefix is normal, as long as the walk is deep, and in step with the walk. */
  predicate InStep(path: Path, n: nat, lexical: seq<Component>, d: seq<string>)
    requires n <= |path|
  {
    && IsNormal(lexical) && BaseLength(lexical) == BaseLength(path)
    && |lexical| == BaseLength(path) + Depth(path[..n])
    && Walk(lexical, d) == Walk(path[..n], d)
  }

  lemma InStepAfter(path: Path, n: nat, lexical: seq<Component>, d: seq<string>)
    requires BaseLength(path) <= n < |path| && InStep(path, n, lexical, d)
    requires !EscapesWithin(path, n)
    ensures var next := LexicalStep(lexical, BaseLength(path), path[n]);
            && (next.None? <==> EscapesWithin(path, n + 1))
            && (next.Some? ==> InStep(path, n + 1, next.value, d))
  {
    DepthPush(path, n);
    assert Depth(path[..n]) >= 0;
    LexicalStepMeaning(lexical, BaseLength(path), path[n], d);
    assert path[..n + 1][..n] == path[..n];
  }

  /** What holds of the normalization of the first n components. */
  predicate PrefixMeaning(path: Path, n: nat, d: seq<string>)
    requires BaseLength(path) <= n <= |path|
  {
    var lexical := LexicalPrefix(path, n);
    && (lexical.None? <==> EscapesWithin(path, n))
    && (lexical.Some? ==> InStep(path, n, lexical.value, d))
  }

  lemma BaseMeaning(path: Path, d: seq<string>)
    ensures PrefixMeaning(path, BaseLength(path), d)
  {
    DepthOfBase(path);
  }

  lemma NextMeaning(path: Path, n: nat, d: seq<string>)
    requires BaseLength(path) <= n < |path| && PrefixMeaning(path, n, d)
    ensures PrefixMeaning(path, n + 1, d)
  {
    if LexicalPrefix(path, n).Some? {
      InStepAfter(path, n, LexicalPrefix(path, n).value, d);
    } else {
      DepthPush(path, n);
    }
  }

  lemma {:induction false} LexicalPrefixMeaning(path: Path, n: nat, d: seq<string>)
    requires BaseLength(path) <= n <= |path|
    ensures PrefixMeaning(path, n, d)
    decreases n
  {
    if n == BaseLength(path) {
      BaseMeaning(path, d);
    } else {
      LexicalPrefixMeaning(path, n - 1, d);
      NextMeaning(path, n - 1, d);
    }
  }

  /**
    Normalization succeeds exactly for the paths that never climb above their base; the result is
    normal and leads where the path leads.
  */
  lemma LexicalNormalMeaning(path: Path, d: seq<string>)
    ensures LexicalNormal(path).None? <==> Escapes(path)
    ensures LexicalNormal(path).Some? ==>
      IsNormal(LexicalNormal(path).value) && Walk(LexicalNormal(path).value, d) == Walk(path, d)
  {
    LexicalPrefixMeaning(path, |path|, d);
    assert path[..|path|] == path;
    if path != [] && path[0].ParentDir? {
      assert path[..1][..0] == [];
      assert Depth(path[..1]) == -1;
    }
  }

  lemma {:induction false} LexicalPrefixOfNormal(path: Path, n: nat)
    requires IsNormal(path) && BaseLength(path) <= n <= |path|
    ensures LexicalPrefix(path, n) == Some(path[..n])
    decreases n
  {
    if n > BaseLength(path) {
      LexicalPrefixOfNormal(path, n - 1);
      assert path[..n - 1] + [path[n - 1]] == path[..n];
    }
  }

  lemma LexicalNormalIsIdempotent(path: Path)
    requires IsNormal(path)
    ensures LexicalNormal(path) == Some(path)
  {
    LexicalPrefixOfNormal(path, |path|);
    assert path[..|path|] == path;
  }

  // ----- the normal form of a path -----

  predicate SameBase(a: seq<Component>, b: seq<Component>)
  {
    BaseLength(a) == BaseLength(b) && a[..BaseLength(a)] == b[..BaseLength(b)]
  }

  /** A path without parent references that starts and leads like the given one. */
  ghost predicate IsNormalFormOf(normal: seq<Component>, path: Path)
  {
    IsNormal(normal) && SameBase(normal, path) && forall d: Directory :: Walk(normal, d) == Walk(path, d)
  }

  lemma StepKeepsBase(lexical: seq<Component>, base: nat, c: Component, start: seq<Component>)
    requires base <= |lexical| && lexical[..base] == start && LexicalStep(lexical, base, c).Some?
    ensures var next := LexicalStep(lexical, base, c).value; base <= |next| && next[..base] == start
  {
  }

  lemma {:induction false} LexicalKeepsBase(path: Path, n: nat)
    requires BaseLength(path) <= n <= |path| && LexicalPrefix(path, n).Some?
    ensures var base, lexical := BaseLength(path), LexicalPrefix(path, n).value;
            base <= |lexical| && lexical[..base] == path[..base]
    decreases n
  {
    if n > BaseLength(path) {
      LexicalKeepsBase(path, n - 1);
      StepKeepsBase(LexicalPrefix(path, n - 1).value, BaseLength(path), path[n - 1], path[..BaseLength(path)]);
    }
  }

  lemma NamesPush(front: seq<Component>, name: string)
    requires ProperName(name)
    ensures Walk(front + [Normal(name)], []) == Walk(front, []) + [name]
    ensures AsComponents(Walk(front, []) + [name]) == AsComponents(Walk(front, [])) + [Normal(name)]
  {
    assert (front + [Normal(name)])[..|front|] == front;
  }

  lemma NormalFront(normal: seq<Component>, n: nat)
    requires IsNormal(normal) && |normal| == n + 1 > BaseLength(normal)
    ensures var front := normal[..n];
            && normal[n].Normal? && normal == front + [normal[n]]
            && IsNormal(front) && BaseLength(front) == BaseLength(normal)
            && normal[BaseLength(normal)..] == front[BaseLength(front)..] + [normal[n]]
  {
  }

  /** From the root, a normal path leads to what follows its base. */
  lemma {:induction false} NormalLeadsToNames(normal: seq<Component>)
    requires IsNormal(normal)
    ensures AsComponents(Walk(normal, [])) == normal[BaseLength(normal)..]
    decreases |normal|
  {
    if |normal| > BaseLength(normal) {
      var n := |normal| - 1;
      NormalFront(normal, n);
      NormalLeadsToNames(normal[..n]);
      NamesPush(normal[..n], normal[n].name);
    } else if normal != [] {
      assert normal[..0] == [];
    }
  }

  lemma NormalFormIsUnique(a: seq<Component>, b: seq<Component>, path: Path)
    requires IsNormalFormOf(a, path) && IsNormalFormOf(b, path)
    ensures a == b
  {
    var root: Directory := [];
    assert Walk(a, root) == Walk(b, root);
    NormalLeadsToNames(a);
    NormalLeadsToNames(b);
    assert a == a[..BaseLength(a)] + a[BaseLength(a)..] && b == b[..BaseLength(b)] + b[BaseLength(b)..];
  }

  /** A path that does not escape is normalized to its one normal form. */
  lemma LexicalNormalExactly(path: Path, normal: seq<Component>)
    requires !Escapes(path)
    ensures LexicalNormal(path) == Some(normal) <==> IsNormalFormOf(normal, path)
  {
    LexicalNormalMeaning(path, []);
    var result := LexicalNormal(path).value;
    LexicalPrefixMeaning(path, |path|, []);
    LexicalKeepsBase(path, |path|);
    forall d: Directory ensures Walk(result, d) == Walk(path, d) {
      LexicalNormalMeaning(path, d);
    }
    if IsNormalFormOf(normal, path) {
      NormalFormIsUnique(normal, result, path);
    }
  }

  /** One turn of the loop: what follows the base is a name or a parent, and a parent of the base escapes. */
  lemma LexicalTurn(path: Path, i: nat, lexical: seq<Component>)
    requires BaseLength(path) <= i < |path| && LexicalPrefix(path, i) == Some(lexical)
    ensures BaseLength(path) <= |lexical| && (path[i].ParentDir? || path[i].Normal?)
    ensures path[i].Normal? ==> LexicalPrefix(path, i + 1) == Some(lexical + [path[i]])
    ensures path[i].ParentDir? && |lexical| > BaseLength(path) ==> LexicalPrefix(path, i + 1) == Some(lexical[..|lexical| - 1])
    ensures path[i].ParentDir? && |lexical| == BaseLength(path) ==> Escapes(path)
  {
    LexicalKeepsBase(path, i);
    if path[i].ParentDir? && |lexical| == BaseLength(path) {
      LexicalPrefixMeaning(path, i + 1, []);
      EscapesEarlier(path, i + 1);
    }
  }

  lemma EscapesEarlier(path: seq<Component>, n: nat)
    requires n <= |path| && EscapesWithin(path, n)
    ensures Escapes(path)
  {
  }

  method NormalizeLexically(path: Path) returns (normal: Option<Path>)
    ensures normal == LexicalNormal(path)
    ensures normal.None? <==> Escapes(path)
  {
    LexicalNormalMeaning(path, []);
    if path == [] {
      return Some([]);
    }
    var lexical: seq<Component> := [];
    var i := 0;
    match path[0] {
      case ParentDir => return None;
      case RootDir => lexical, i := [path[0]], 1;
      case CurDir => lexical, i := [path[0]], 1;
      case Normal(_) =>
    }
    var root := |lexical|;
    assert lexical == path[..root];
    while i < |path|
      invariant root <= i <= |path| && root == BaseLength(path)
      invariant LexicalPrefix(path, i) == Some(lexical)
    {
      LexicalTurn(path, i, lexical);
      match path[i] {
        case ParentDir =>
          if |lexical| == root {
            return None;
          }
          lexical := lexical[..|lexical| - 1];
        case Normal(name) => lexical := lexical + [path[i]];
      }
      i := i + 1;
    }
    normal := Some(lexical);
  }

  // ----- grants -----

  datatype GrantedWritePathContent = GrantedWritePathContent(requested: Path, resolved: Option<Path>, onWindowsFs: bool)

  datatype GrantedWritePath = GrantedWritePath(requested: Path, resolved: Option<Path>, onWindowsFs: bool)
  {
    /** The path that is enforced. */
    function Canonical(): Path
    {
      if resolved.Some? then resolved.value else requested
    }

    function ToContent(): GrantedWritePathContent
    {
      GrantedWritePathContent(requested, resolved, onWindowsFs)
    }
  }

  function FromRequested(requested: Path): GrantedWritePath
  {
    GrantedWritePath(requested, None, false)
  }

  /** The grant an entry stands for, or None when one of its paths escapes its base. */
  function GrantOf(entry: GrantedWritePathContent): Option<GrantedWritePath>
  {
    match LexicalNormal(entry.requested)
    case None => None
    case Some(requested) =>
      LexicalNormalMeaning(entry.requested, []);
      match entry.resolved
      case None => Some(FromRequested(requested))
      case Some(path) =>
        match LexicalNormal(path)
        case None => None
        case Some(resolved) =>
          LexicalNormalMeaning(path, []);
          Some(GrantedWritePath(requested, Some(resolved), entry.onWindowsFs))
  }

  /** Neither path of the entry climbs above its base. */
  predicate IsKept(entry: GrantedWritePathContent)
  {
    !Escapes(entry.requested) && (entry.resolved.Some? ==> !Escapes(entry.resolved.value))
  }

  /** The path an entry is about: where the requested one really is, if that was resolved. */
  function Enforced(entry: GrantedWritePathContent): Path
  {
    if entry.resolved.Some? then entry.resolved.value else entry.requested
  }

  /**
    An entry is kept exactly when neither of its paths escapes. Its grant then has the normal form of
    the requested path and enforces that of the resolved one, if there is one.
  */
  lemma GrantOfExactly(entry: GrantedWritePathContent)
    ensures GrantOf(entry).Some? <==> IsKept(entry)
    ensures IsKept(entry) ==>
              var grant := GrantOf(entry).value;
              && IsNormalFormOf(grant.requested, entry.requested)
              && IsNormalFormOf(grant.Canonical(), Enforced(entry))
              && (grant.resolved.Some? <==> entry.resolved.Some?)
              && grant.onWindowsFs == (entry.resolved.Some? && entry.onWindowsFs)
  {
    LexicalNormalMeaning(entry.requested, []);
    if entry.resolved.Some? {
      LexicalNormalMeaning(entry.resolved.value, []);
    }
    if IsKept(entry) {
      LexicalNormalExactly(entry.requested, GrantOf(entry).value.requested);
      LexicalNormalExactly(Enforced(entry), GrantOf(entry).value.Canonical());
    }
  }

  /** The grants of the entries that are not dropped, in order. */
  function KeptGrants(entries: seq<GrantedWritePathContent>): seq<GrantedWritePath>
  {
    if entries == [] then []
    else
      var n := |entries| - 1;
      KeptGrants(entries[..n]) + (match GrantOf(entries[n]) case None => [] case Some(grant) => [grant])
  }

  /** Grant a's subtree contains grant b's. */
  const SUBTREE := (a: GrantedWritePath, b: GrantedWritePath) => a.Canonical() <= b.Canonical()

  lemma SubtreeIsPreorder()
    ensures IsPreorder(SUBTREE)
  {
  }

  /** The path lies in the subtree of some grant. */
  predicate Writable(grants: seq<GrantedWritePath>, path: Path)
  {
    Covers(grants, FromRequested(path), SUBTREE)
  }

  function CanonicalPaths(grants: seq<GrantedWritePath>): set<Path>
  {
    set g | g in grants :: g.Canonical()
  }

  function MinimalPaths(paths: set<Path>): set<Path>
  {
    set p | p in paths && forall q :: q in paths ==> !(q < p)
  }

  /** A grant is minimal in its list exactly when its path is minimal among the paths of the list. */
  lemma MinimalByPath(grants: seq<GrantedWritePath>, i: nat)
    requires i < |grants|
    ensures (forall j :: 0 <= j < |grants| && SUBTREE(grants[j], grants[i]) ==> SUBTREE(grants[i], grants[j]))
       <==> grants[i].Canonical() in MinimalPaths(CanonicalPaths(grants))
  {
    var p := grants[i].Canonical();
    if forall j :: 0 <= j < |grants| && SUBTREE(grants[j], grants[i]) ==> SUBTREE(grants[i], grants[j]) {
      forall q | q in CanonicalPaths(grants) ensures !(q < p) {
        var g :| g in grants && g.Canonical() == q;
        var j :| 0 <= j < |grants| && grants[j] == g;
        assert SUBTREE(grants[j], grants[i]) ==> SUBTREE(grants[i], grants[j]);
      }
    }
    if p in MinimalPaths(CanonicalPaths(grants)) {
      forall j | 0 <= j < |grants| && SUBTREE(grants[j], grants[i]) ensures SUBTREE(grants[i], grants[j]) {
        assert grants[j].Canonical() in CanonicalPaths(grants);
      }
    }
  }

  /** The canonical paths of the result are the minimal canonical paths of the inputs. */
  lemma InsertedAllPaths(grants: seq<GrantedWritePath>)
    ensures CanonicalPaths(InsertedAll(grants, SUBTREE)) == MinimalPaths(CanonicalPaths(grants))
  {
    SubtreeIsPreorder();
    InsertedAllIsFirstMinimal(grants, SUBTREE);
    var marks := Marks(grants, SUBTREE);
    var result := FirstMinimal(grants, SUBTREE);
    forall p | p in CanonicalPaths(result) ensures p in MinimalPaths(CanonicalPaths(grants)) {
      var g :| g in result && g.Canonical() == p;
      MarkedMembers(grants, marks, g);
      var i :| 0 <= i < |grants| && marks[i] && grants[i] == g;
      MinimalByPath(grants, i);
    }
    forall p | p in MinimalPaths(CanonicalPaths(grants)) ensures p in CanonicalPaths(result) {
      var g :| g in grants && g.Canonical() == p;
      var n :| 0 <= n < |grants| && grants[n] == g;
      MinimalByPath(grants, n);
      var i := MinimalHasFirst(grants, n, SUBTREE);
      MarkedMembers(grants, marks, grants[i]);
      assert grants[i].Canonical() == p;
    }
  }

  // ----- compilation -----

  function CompiledPaths(entries: seq<GrantedWritePathContent>): seq<GrantedWritePath>
  {
    InsertedAll(KeptGrants(entries), SUBTREE)
  }

  lemma {:induction false} KeptGrantsAre(entries: seq<GrantedWritePathContent>, g: GrantedWritePath)
    ensures g in KeptGrants(entries) <==> exists e :: e in entries && GrantOf(e) == Some(g)
    decreases |entries|
  {
    if entries != [] {
      var n := |entries| - 1;
      KeptGrantsAre(entries[..n], g);
      assert entries == entries[..n] + [entries[n]];
    }
  }

  /** The path lies in the subtree that a kept entry enforces. */
  ghost predicate Allows(entry: GrantedWritePathContent, path: Path)
  {
    IsKept(entry) && exists normal :: IsNormalFormOf(normal, Enforced(entry)) && normal <= path
  }

  lemma AllowsByGrant(entry: GrantedWritePathContent, path: Path)
    ensures Allows(entry, path) <==> GrantOf(entry).Some? && GrantOf(entry).value.Canonical() <= path
  {
    GrantOfExactly(entry);
    if Allows(entry, path) {
      var normal :| IsNormalFormOf(normal, Enforced(entry)) && normal <= path;
      NormalFormIsUnique(normal, GrantOf(entry).value.Canonical(), Enforced(entry));
    }
  }

  lemma CoveredIsAllowed(entries: seq<GrantedWritePathContent>, path: Path, k: nat)
    requires k < |KeptGrants(entries)| && KeptGrants(entries)[k].Canonical() <= path
    ensures exists e :: e in entries && Allows(e, path)
  {
    var g := KeptGrants(entries)[k];
    KeptGrantsAre(entries, g);
    var e :| e in entries && GrantOf(e) == Some(g);
    AllowsByGrant(e, path);
  }

  lemma AllowedIsCovered(entries: seq<GrantedWritePathContent>, path: Path, e: GrantedWritePathContent)
    requires e in entries && Allows(e, path)
    ensures Writable(KeptGrants(entries), path)
  {
    AllowsByGrant(e, path);
    KeptGrantsAre(entries, GrantOf(e).value);
    var k :| 0 <= k < |KeptGrants(entries)| && KeptGrants(entries)[k] == GrantOf(e).value;
    assert SUBTREE(KeptGrants(entries)[k], FromRequested(path));
  }

  /** The compiled list is an antichain that covers exactly the subtrees that the kept entries enforce. */
  lemma CompiledPathsAreExact(entries: seq<GrantedWritePathContent>, path: Path)
    ensures IsAntichain(CompiledPaths(entries), SUBTREE)
    ensures Writable(CompiledPaths(entries), path) <==> exists e :: e in entries && Allows(e, path)
  {
    var kept := KeptGrants(entries);
    SubtreeIsPreorder();
    InsertedAllIsAntichain(kept, SUBTREE);
    InsertedAllCovers(kept, SUBTREE, FromRequested(path));
    if Writable(kept, path) {
      var k :| 0 <= k < |kept| && SUBTREE(kept[k], FromRequested(path));
      CoveredIsAllowed(entries, path, k);
    }
    if e :| e in entries && Allows(e, path) {
      AllowedIsCovered(entries, path, e);
    }
  }

 /** Entry lists with the same entries, in any order and multiplicity, grant the same canonical paths. */
  lemma CompiledPathsIgnoreOrder(a: seq<GrantedWritePathContent>, b: seq<GrantedWritePathContent>)
    requires forall e :: e in a <==> e in b
    ensures CanonicalPaths(CompiledPaths(a)) == CanonicalPaths(CompiledPaths(b))
         == MinimalPaths(CanonicalPaths(KeptGrants(a)))
  {
    InsertedAllPaths(KeptGrants(a));
    InsertedAllPaths(KeptGrants(b));
    forall g ensures g in KeptGrants(a) <==> g in KeptGrants(b) {
      KeptGrantsAre(a, g);
      KeptGrantsAre(b, g);
    }
    assert CanonicalPaths(KeptGrants(a)) == CanonicalPaths(KeptGrants(b));
  }

  /** A compiled grant, read back as an entry, stands for itself. */
  lemma GrantOfIsStable(entry: GrantedWritePathContent)
    requires GrantOf(entry).Some?
    ensures GrantOf(GrantOf(entry).value.ToContent()) == GrantOf(entry)
  {
    var grant := GrantOf(entry).value;
    LexicalNormalMeaning(entry.requested, []);
    LexicalNormalIsIdempotent(grant.requested);
    if entry.resolved.Some? {
      LexicalNormalMeaning(entry.resolved.value, []);
      LexicalNormalIsIdempotent(grant.resolved.value);
    }
  }

  function ToContents(grants: seq<GrantedWritePath>): seq<GrantedWritePathContent>
  {
    seq(|grants|, i requires 0 <= i < |grants| => grants[i].ToContent())
  }

  lemma KeptGrantsPush(entries: seq<GrantedWritePathContent>, e: GrantedWritePathContent)
    requires GrantOf(e).Some?
    ensures KeptGrants(entries + [e]) == KeptGrants(entries) + [GrantOf(e).value]
  {
    assert (entries + [e])[..|entries|] == entries;
  }

  lemma ToContentsPush(grants: seq<GrantedWritePath>, n: nat)
    requires |grants| == n + 1
    ensures ToContents(grants) == ToContents(grants[..n]) + [grants[n].ToContent()]
    ensures grants == grants[..n] + [grants[n]]
  {
  }

  lemma {:induction false} KeptGrantsOfStable(grants: seq<GrantedWritePath>)
    requires forall g :: g in grants ==> GrantOf(g.ToContent()) == Some(g)
    ensures KeptGrants(ToContents(grants)) == grants
    decreases |grants|
  {
    if grants != [] {
      var n := |grants| - 1;
      KeptGrantsOfStable(grants[..n]);
      ToContentsPush(grants, n);
      assert grants[n] in grants;
      KeptGrantsPush(ToContents(grants[..n]), grants[n].ToContent());
    }
  }

  /** Compiling a compiled list again changes neither its content nor its order. */
  lemma CompileTwice(entries: seq<GrantedWritePathContent>)
    ensures CompiledPaths(ToContents(CompiledPaths(entries))) == CompiledPaths(entries)
  {
    var kept := KeptGrants(entries);
    var grants := CompiledPaths(entries);
    SubtreeIsPreorder();
    InsertedAllIsFirstMinimal(kept, SUBTREE);
    forall g | g in grants ensures GrantOf(g.ToContent()) == Some(g) {
      MarkedMembers(kept, Marks(kept, SUBTREE), g);
      KeptGrantsAre(entries, g);
      var e :| e in entries && GrantOf(e) == Some(g);
      GrantOfIsStable(e);
    }
    KeptGrantsOfStable(grants);
    InsertedAllIsAntichain(kept, SUBTREE);
    InsertedAllIsFirstMinimal(grants, SUBTREE);
    FirstMinimalOfAntichain(grants, SUBTREE);
  }

  // ----- the mutable list of the source -----

  class GrantList {
    var subtrees: seq<GrantedWritePath>

    constructor ()
      ensures subtrees == []
    {
      subtrees := [];
    }

    method InsertGrantedSubtree(granted: GrantedWritePath)
      modifies this
      ensures subtrees == Inserted(old(subtrees), granted, SUBTREE)
      ensures IsAntichain(old(subtrees), SUBTREE) ==> IsAntichain(subtrees, SUBTREE)
      ensures forall path: Path ::
        Writable(subtrees, path) <==> Writable(old(subtrees), path) || granted.Canonical() <= path
    {
      SubtreeIsPreorder();
      forall path: Path
        ensures Writable(Inserted(subtrees, granted, SUBTREE), path)
           <==> Writable(subtrees, path) || granted.Canonical() <= path
      {
        InsertedCovers(subtrees, granted, SUBTREE, FromRequested(path));
      }
      if IsAntichain(subtrees, SUBTREE) {
        InsertedIsAntichain(subtrees, granted, SUBTREE);
      }
      if Covers(subtrees, granted, SUBTREE) {
        return;
      }
      subtrees := Outside(subtrees, granted, SUBTREE);
      subtrees := subtrees + [granted];
    }
  }

  datatype SandboxPermissionsContent = SandboxPermissionsContent(
    writePaths: Option<seq<GrantedWritePathContent>>,
    networkHosts: Option<seq<string>>,
    allowAllHosts: Option<bool>,
    allowFsWriteAll: Option<bool>,
    allowUnsandboxed: Option<bool>,
    warnConfusableUnicode: Option<bool>,
    warnNtfsGrants: Option<bool>)

  datatype SandboxPermissions = SandboxPermissions(
    writePaths: seq<GrantedWritePath>,
    networkHosts: seq<string>,
    allowAllHosts: bool,
    allowFsWriteAll: bool,
    allowUnsandboxed: bool,
    warnConfusableUnicode: bool,
    warnNtfsGrants: bool)

  const DEFAULT_PERMISSIONS := SandboxPermissions([], [], false, false, false, true, true)

  const NO_SETTINGS := SandboxPermissionsContent(None, None, None, None, None, None, None)

  function GetOr<T>(value: Option<T>, default: T): T
  {
    match value case Some(v) => v case None => default
  }

  /** One more entry is one more insertion, unless the entry is dropped. */
  lemma CompiledPathsPush(entries: seq<GrantedWritePathContent>, i: nat)
    requires i < |entries|
    ensures CompiledPaths(entries[..i + 1]) ==
      match GrantOf(entries[i])
      case None => CompiledPaths(entries[..i])
      case Some(grant) => Inserted(CompiledPaths(entries[..i]), grant, SUBTREE)
  {
    assert entries[..i + 1][..i] == entries[..i];
    var kept := KeptGrants(entries[..i]);
    if GrantOf(entries[i]).Some? {
      assert (kept + [GrantOf(entries[i]).value])[..|kept|] == kept;
    } else {
      assert kept + [] == kept;
    }
  }

  /** The grants of the entries, normalized, inserted one after the other. */
  method CompileWritePaths(entries: seq<GrantedWritePathContent>) returns (writePaths: seq<GrantedWritePath>)
    ensures writePaths == CompiledPaths(entries)
  {
    var list := new GrantList();
    var i := 0;
    while i < |entries|
      invariant 0 <= i <= |entries|
      invariant fresh(list)
      invariant list.subtrees == CompiledPaths(entries[..i])
    {
      var granted := CompileEntry(entries[i]);
      CompiledPathsPush(entries, i);
      if granted.Some? {
        list.InsertGrantedSubtree(granted.value);
      }
      i := i + 1;
    }
    assert entries[..|entries|] == entries;
    writePaths := list.subtrees;
  }

  method CompileEntry(entry: GrantedWritePathContent) returns (granted: Option<GrantedWritePath>)
    ensures granted == GrantOf(entry)
    ensures granted.None? <==> Escapes(entry.requested) || (entry.resolved.Some? && Escapes(entry.resolved.value))
    ensures granted.Some? ==>
      && IsNormalFormOf(granted.value.requested, entry.requested)
      && IsNormalFormOf(granted.value.Canonical(), Enforced(entry))
      && granted.value.onWindowsFs == (entry.resolved.Some? && entry.onWindowsFs)
  {
    GrantOfExactly(entry);
    var requested := NormalizeLexically(entry.requested);
    if requested.None? {
      return None;
    }
    if entry.resolved.None? {
      return Some(FromRequested(requested.value));
    }
    var resolved := NormalizeLexically(entry.resolved.value);
    if resolved.None? {
      return None;
    }
    granted := Some(GrantedWritePath(requested.value, Some(resolved.value), entry.onWindowsFs));
  }

  method CompileSandboxPermissions(content: Option<SandboxPermissionsContent>) returns (p: SandboxPermissions)
    ensures var settings := if content.Some? then content.value else NO_SETTINGS;
            && p.writePaths == CompiledPaths(if settings.writePaths.Some? then settings.writePaths.value else [])
            && p.networkHosts == (if settings.networkHosts.Some? then settings.networkHosts.value else [])
            && (p.allowAllHosts <==> settings.allowAllHosts == Some(true))
            && (p.allowFsWriteAll <==> settings.allowFsWriteAll == Some(true))
            && (p.allowUnsandboxed <==> settings.allowUnsandboxed == Some(true))
            && (p.warnConfusableUnicode <==> settings.warnConfusableUnicode != Some(false))
            && (p.warnNtfsGrants <==> settings.warnNtfsGrants != Some(false))
    ensures IsAntichain(p.writePaths, SUBTREE)
  {
    if content.None? {
      return DEFAULT_PERMISSIONS;
    }
    var c := content.value;
    var writePaths := CompileWritePaths(GetOr(c.writePaths, []));
    InsertedAllIsAntichain(KeptGrants(GetOr(c.writePaths, [])), SUBTREE);
    p := SandboxPermissions(writePaths, GetOr(c.networkHosts, []), GetOr(c.allowAllHosts, false),
                            GetOr(c.allowFsWriteAll, false), GetOr(c.allowUnsandboxed, false),
                            GetOr(c.warnConfusableUnicode, true), GetOr(c.warnNtfsGrants, true));
  }
}
