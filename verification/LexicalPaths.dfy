/**
  Lexical Unix paths: what Rust's `Path::components` yields, what a list of components denotes as
  a walk through directories, and the stack machine that normalizes a path.
*/
module LexicalPaths {
  import opened Text

  datatype Component = RootDir | CurDir | ParentDir | Normal(name: string)

  /** A segment that `Path::components` reports as `Normal`. */
  predicate ProperName(s: string)
  {
    s != "" && s != "." && s != ".." && '/' !in s
  }

  predicate HasRoot(raw: string)
  {
    raw != "" && raw[0] == '/'
  }

  /** The root stands first, a leading `.` may stand first, and names are proper. */
  predicate WellFormed(cs: seq<Component>)
  {
    forall i :: 0 <= i < |cs| ==>
      && (cs[i].RootDir? || cs[i].CurDir? ==> i == 0)
      && (cs[i].Normal? ==> ProperName(cs[i].name))
  }

  /** A `PathBuf`, which Rust compares component by component. */
  type Path = cs: seq<Component> | WellFormed(cs)

  /** The components of the pieces between slashes; `.` survives only where `keepDot` holds. */
  function PieceComponents(pieces: seq<string>, keepDot: bool): (cs: seq<Component>)
    ensures forall i :: 0 <= i < |cs| ==>
      !cs[i].RootDir? && (cs[i].CurDir? ==> i == 0 && keepDot)
    ensures |cs| <= |pieces|
  {
    if pieces == [] then []
    else
      var rest := PieceComponents(pieces[1..], false);
      match pieces[0]
      case "" => rest
      case "." => if keepDot then [CurDir] + rest else rest
      case ".." => [ParentDir] + rest
      case name => [Normal(name)] + rest
  }

  /** `Path::new(raw).components()` on Unix. */
  function Components(raw: string): (p: Path)
  {
    var pieces := Split(raw, '/');
    SplitPieces(raw, '/');
    PieceNamesAreProper(pieces, !HasRoot(raw));
    (if HasRoot(raw) then [RootDir] else []) + PieceComponents(pieces, !HasRoot(raw))
  }

  lemma {:induction false} PieceNamesAreProper(pieces: seq<string>, keepDot: bool)
    requires forall p :: p in pieces ==> '/' !in p
    ensures forall c :: c in PieceComponents(pieces, keepDot) && c.Normal? ==> ProperName(c.name)
  {
    if pieces != [] {
      PieceNamesAreProper(pieces[1..], false);
      assert pieces[0] in pieces;
    }
  }

  // ----- the meaning of a path -----

  /** A directory, named by the entries that lead to it from the root. */
  type Directory = d: seq<string> | IsDirectory(d)

  predicate IsDirectory(d: seq<string>)
  {
    forall i :: 0 <= i < |d| ==> ProperName(d[i])
  }

  /** One step of a walk; `..` at the root stays at the root. */
  function StepInto(d: seq<string>, c: Component): seq<string>
  {
    match c
    case RootDir => []
    case CurDir => d
    case ParentDir => if d == [] then [] else d[..|d| - 1]
    case Normal(name) => d + [name]
  }

  function Walk(cs: seq<Component>, d: seq<string>): seq<string>
  {
    if cs == [] then d else StepInto(Walk(cs[..|cs| - 1], d), cs[|cs| - 1])
  }

  /** Where the path leads from directory d. */
  function Denotation(raw: string, d: Directory): seq<string>
  {
    Walk(Components(raw), d)
  }

  /** Two paths mean the same when they lead to the same place from every directory. */
  ghost predicate Equivalent(a: string, b: string)
  {
    forall d: Directory :: Denotation(a, d) == Denotation(b, d)
  }

  lemma {:induction false} WalkConcat(xs: seq<Component>, ys: seq<Component>, d: seq<string>)
    ensures Walk(xs + ys, d) == Walk(ys, Walk(xs, d))
    decreases |ys|
  {
    if ys == [] {
      assert xs + ys == xs;
    } else {
      var zs := xs + ys;
      assert zs[..|zs| - 1] == xs + ys[..|ys| - 1];
      WalkConcat(xs, ys[..|ys| - 1], d);
    }
  }

  // ----- climbing above the start -----

  function Rise(c: Component): int
  {
    match c { case Normal(_) => 1 case ParentDir => -1 case _ => 0 }
  }

  /** How far the components lead down, net of the steps up. */
  function Depth(cs: seq<Component>): int
  {
    if cs == [] then 0 else Depth(cs[..|cs| - 1]) + Rise(cs[|cs| - 1])
  }

  /** Some step among the first n climbs above the directory the walk started from. */
  predicate EscapesWithin(path: seq<Component>, n: nat)
    requires n <= |path|
  {
    exists m :: 0 <= m <= n && Depth(path[..m]) < 0
  }

  predicate Escapes(path: seq<Component>)
  {
    EscapesWithin(path, |path|)
  }

  lemma DepthPush(path: seq<Component>, n: nat)
    requires n < |path|
    ensures Depth(path[..n + 1]) == Depth(path[..n]) + Rise(path[n])
    ensures EscapesWithin(path, n + 1) <==> EscapesWithin(path, n) || Depth(path[..n + 1]) < 0
  {
    assert path[..n + 1][..n] == path[..n];
  }

  /** A walk that starts deep enough ends as deep as its steps say. */
  lemma {:induction false} WalkFromDeep(cs: seq<Component>, d: seq<string>)
    requires |cs| <= |d| && forall i :: 0 <= i < |cs| ==> !cs[i].RootDir?
    ensures |Walk(cs, d)| == |d| + Depth(cs) && -|cs| <= Depth(cs)
    decreases |cs|
  {
    if cs != [] {
      WalkFromDeep(cs[..|cs| - 1], d);
    }
  }

  /** From the root, steps up are lost where the walk would climb above it. */
  lemma {:induction false} WalkFromRoot(cs: seq<Component>, n: nat)
    requires n <= |cs| && forall i :: 0 <= i < |cs| ==> !cs[i].RootDir?
    ensures |Walk(cs[..n], [])| >= Depth(cs[..n])
    ensures EscapesWithin(cs, n) ==> |Walk(cs[..n], [])| > Depth(cs[..n])
    decreases n
  {
    if n > 0 {
      WalkFromRoot(cs, n - 1);
      DepthPush(cs, n - 1);
      WalkNext(cs, n - 1, []);
    }
  }

  lemma WalkNext(cs: seq<Component>, n: nat, d: seq<string>)
    requires n < |cs|
    ensures Walk(cs[..n + 1], d) == StepInto(Walk(cs[..n], d), cs[n])
  {
    assert cs[..n + 1][..n] == cs[..n];
  }

  lemma StepBelow(w: seq<string>, d: seq<string>, c: Component)
    requires !c.RootDir? && |w| + Rise(c) >= 0
    ensures StepInto(d + w, c) == d + StepInto(w, c) && |StepInto(w, c)| == |w| + Rise(c)
  {
  }

  /** While it does not climb, a walk only adds to the directory it started from. */
  lemma {:induction false} WalkStaysBelow(cs: seq<Component>, n: nat, d: seq<string>)
    requires n <= |cs| && (forall i :: 0 <= i < |cs| ==> !cs[i].RootDir?) && !EscapesWithin(cs, n)
    ensures Walk(cs[..n], d) == d + Walk(cs[..n], [])
    ensures |Walk(cs[..n], [])| == Depth(cs[..n])
    decreases n
  {
    if n > 0 {
      DepthPush(cs, n - 1);
      WalkStaysBelow(cs, n - 1, d);
      WalkNext(cs, n - 1, d);
      WalkNext(cs, n - 1, []);
      assert Depth(cs[..n]) >= 0;
      StepBelow(Walk(cs[..n - 1], []), d, cs[n - 1]);
    }
  }

  /** A walk leads below every start where it leads below the root, exactly when it never climbs above its start. */
  lemma ClimbsExactly(cs: seq<Component>)
    requires forall i :: 0 <= i < |cs| ==> !cs[i].RootDir?
    ensures (forall d: Directory :: Walk(cs, d) == d + Walk(cs, [])) <==> !Escapes(cs)
  {
    assert cs[..|cs|] == cs;
    if Escapes(cs) {
      var deep := DeepDirectory(|cs|, LongName(0));
      WalkFromDeep(cs, deep);
      WalkFromRoot(cs, |cs|);
      assert |Walk(cs, deep)| != |deep + Walk(cs, [])|;
    } else {
      forall d: Directory ensures Walk(cs, d) == d + Walk(cs, []) {
        WalkStaysBelow(cs, |cs|, d);
      }
    }
  }

  // ----- the stack machine -----

  /** What one component does to the stack. */
  function StackStep(stack: seq<string>, c: Component, absolute: bool): seq<string>
  {
    match c
    case RootDir => stack
    case CurDir => stack
    case Normal(name) => stack + [name]
    case ParentDir =>
      if stack != [] && stack[|stack| - 1] == ".." then stack + [".."]
      else if stack != [] then stack[..|stack| - 1]
      else if !absolute then stack + [".."]
      else stack
  }

  function Reduce(cs: seq<Component>, absolute: bool): seq<string>
  {
    if cs == [] then [] else StackStep(Reduce(cs[..|cs| - 1], absolute), cs[|cs| - 1], absolute)
  }

  function Render(stack: seq<string>, absolute: bool): string
  {
    (if absolute then "/" else "") + Join(stack, "/")
  }

  function Normalize(raw: string): string
  {
    Render(Reduce(Components(raw), HasRoot(raw)), HasRoot(raw))
  }

  /** Parent references first (and none in an absolute path), then proper names. */
  ghost predicate CanonicalStack(stack: seq<string>, absolute: bool)
  {
    exists k :: HasParents(stack, k) && (absolute ==> k == 0)
  }

  predicate HasParents(stack: seq<string>, k: nat)
  {
    && k <= |stack|
    && (forall i :: 0 <= i < k ==> stack[i] == "..")
    && (forall i :: k <= i < |stack| ==> ProperName(stack[i]))
  }

  function AsComponents(stack: seq<string>): (cs: seq<Component>)
    ensures |cs| == |stack|
  {
    seq(|stack|, i requires 0 <= i < |stack| => if stack[i] == ".." then ParentDir else Normal(stack[i]))
  }

  lemma {:induction false} ReduceIsCanonical(cs: Path, absolute: bool)
    ensures CanonicalStack(Reduce(cs, absolute), absolute)
    decreases |cs|
  {
    if cs == [] {
      assert HasParents([], 0);
    } else {
      var front := cs[..|cs| - 1];
      ReduceIsCanonical(front, absolute);
      var stack := Reduce(front, absolute);
      var k: nat :| HasParents(stack, k) && (absolute ==> k == 0);
      var next := StackStep(stack, cs[|cs| - 1], absolute);
      if cs[|cs| - 1].ParentDir? && k == |stack| && !absolute {
        assert HasParents(next, k + 1);
      } else {
        assert HasParents(next, k);
      }
    }
  }

  /** Where the walk of an absolute path starts does not matter. */
  function StartOf(absolute: bool, d: seq<string>): seq<string>
  {
    if absolute then [] else d
  }

  lemma WalkPush(stack: seq<string>, s: string, d: seq<string>)
    ensures Walk(AsComponents(stack + [s]), d)
         == StepInto(Walk(AsComponents(stack), d), if s == ".." then ParentDir else Normal(s))
  {
    var cs := AsComponents(stack + [s]);
    assert cs[..|cs| - 1] == AsComponents(stack);
  }

  /** One step of the stack machine is one step of the walk. */
  lemma StackStepPreservesWalk(stack: seq<string>, k: nat, c: Component, absolute: bool, start: seq<string>)
    requires HasParents(stack, k) && (absolute ==> k == 0 && start == [])
    requires !c.RootDir? && (c.Normal? ==> ProperName(c.name))
    ensures Walk(AsComponents(StackStep(stack, c, absolute)), start) == StepInto(Walk(AsComponents(stack), start), c)
  {
    match c
    case CurDir =>
    case Normal(name) => WalkPush(stack, name, start);
    case ParentDir =>
      if stack != [] && stack[|stack| - 1] != ".." {
        WalkPush(stack[..|stack| - 1], stack[|stack| - 1], start);
        assert stack[..|stack| - 1] + [stack[|stack| - 1]] == stack;
      } else {
        WalkPush(stack, "..", start);
      }
  }

  /** The stack machine preserves the walk. */
  lemma {:induction false} ReducePreservesWalk(cs: Path, absolute: bool, d: seq<string>)
    requires absolute <==> cs != [] && cs[0].RootDir?
    ensures Walk(AsComponents(Reduce(cs, absolute)), StartOf(absolute, d)) == Walk(cs, d)
    decreases |cs|
  {
    if |cs| == 1 && absolute {
      assert cs[..0] == [] && Reduce(cs[..0], absolute) == [];
      assert Walk(cs[..0], d) == d;
    } else if cs != [] {
      var front := cs[..|cs| - 1];
      ReducePreservesWalk(front, absolute, d);
      ReduceIsCanonical(front, absolute);
      var stack := Reduce(front, absolute);
      var k: nat :| HasParents(stack, k) && (absolute ==> k == 0);
      StackStepPreservesWalk(stack, k, cs[|cs| - 1], absolute, StartOf(absolute, d));
    }
  }

  /** No component yields more than one entry of the stack. */
  lemma {:induction false} ReduceIsNoLonger(cs: Path, absolute: bool)
    requires absolute <==> cs != [] && cs[0].RootDir?
    ensures |Reduce(cs, absolute)| + (if absolute then 1 else 0) <= |cs|
    decreases |cs|
  {
    if |cs| == 1 && absolute {
      assert Reduce(cs[..0], absolute) == [];
    } else if cs != [] {
      ReduceIsNoLonger(cs[..|cs| - 1], absolute);
    }
  }

  // ----- from the stack to text and back -----

  lemma {:induction false} PiecesOfStack(stack: seq<string>, keepDot: bool)
    requires forall i :: 0 <= i < |stack| ==> stack[i] == ".." || ProperName(stack[i])
    ensures PieceComponents(stack, keepDot) == AsComponents(stack)
  {
    if stack != [] {
      PiecesOfStack(stack[1..], false);
      assert AsComponents(stack) == AsComponents(stack[..1]) + AsComponents(stack[1..]);
    }
  }

  /** Reading a rendered canonical stack back gives exactly its entries. */
  lemma ComponentsOfRender(stack: seq<string>, absolute: bool)
    requires CanonicalStack(stack, absolute)
    ensures HasRoot(Render(stack, absolute)) == absolute
    ensures Components(Render(stack, absolute)) == (if absolute then [RootDir] else []) + AsComponents(stack)
  {
    var joined := Join(stack, "/");
    if stack == [] {
      assert Split("/", '/') == [""] + Split("", '/');
      assert PieceComponents(["", ""], false) == PieceComponents([""], false) == [];
    } else {
      forall i | 0 <= i < |stack| ensures '/' !in stack[i] && stack[i] != "" {
      }
      SplitJoin(stack, '/');
      PiecesOfStack(stack, !absolute);
      assert joined[0] == stack[0][0];
      assert stack[0][0] in stack[0];
      if absolute {
        var text := "/" + joined;
        assert text[1..] == joined;
        assert Split(text, '/') == [""] + stack;
        assert ([""] + stack)[1..] == stack;
        PiecesOfStack(stack, false);
      } else {
        assert "" + joined == joined;
      }
    }
  }

  lemma HasRootIsRootDir(raw: string)
    ensures HasRoot(raw) <==> Components(raw) != [] && Components(raw)[0].RootDir?
  {
  }

  lemma NormalizedComponents(raw: string)
    ensures HasRoot(Normalize(raw)) == HasRoot(raw)
    ensures Components(Normalize(raw))
         == (if HasRoot(raw) then [RootDir] else []) + AsComponents(Reduce(Components(raw), HasRoot(raw)))
  {
    HasRootIsRootDir(raw);
    ReduceIsCanonical(Components(raw), HasRoot(raw));
    ComponentsOfRender(Reduce(Components(raw), HasRoot(raw)), HasRoot(raw));
  }

  // ----- the main results -----

  /** The normalized path leads where the original leads, from every directory. */
  lemma NormalizePreservesMeaning(raw: string)
    ensures Equivalent(Normalize(raw), raw)
  {
    var cs, absolute := Components(raw), HasRoot(raw);
    HasRootIsRootDir(raw);
    NormalizedComponents(raw);
    forall d: Directory
      ensures Denotation(Normalize(raw), d) == Denotation(raw, d)
    {
      ReducePreservesWalk(cs, absolute, d);
      var stack := AsComponents(Reduce(cs, absolute));
      WalkConcat(if absolute then [RootDir] else [], stack, d);
      assert Walk([RootDir], d) == StepInto(Walk([RootDir][..0], d), RootDir);
    }
  }

  /** A directory k levels up from d, then down along the names. */
  lemma {:induction false} WalkOfStack(stack: seq<string>, k: nat, d: seq<string>)
    requires HasParents(stack, k)
    requires |d| >= k
    ensures Walk(AsComponents(stack), d) == d[..|d| - k] + stack[k..]
    decreases |stack|
  {
    if stack == [] {
      assert d[..|d|] + stack[0..] == d;
    } else {
      var front, last := stack[..|stack| - 1], stack[|stack| - 1];
      assert front + [last] == stack;
      WalkPush(front, last, d);
      if k == |stack| {
        WalkOfStack(front, k - 1, d);
        assert front[k - 1..] == [] && d[..|d| - (k - 1)][..|d| - k] == d[..|d| - k];
      } else {
        WalkOfStack(front, k, d);
        assert d[..|d| - k] + front[k..] + [last] == d[..|d| - k] + stack[k..];
      }
    }
  }

  /** A proper name that is longer than every entry of the stacks, hence none of them. */
  function LongName(n: nat): (s: string)
    ensures |s| == n + 3 && ProperName(s)
  {
    seq(n + 3, _ => 'x')
  }

  function MaxLength(stack: seq<string>): (n: nat)
    ensures forall s :: s in stack ==> |s| <= n
  {
    if stack == [] then 0
    else
      var rest := MaxLength(stack[1..]);
      if |stack[0]| > rest then |stack[0]| else rest
  }

  /** Seen from a deep directory whose entries occur in neither stack, relative stacks differ. */
  lemma RelativeStacksDiffer(a: seq<string>, k: nat, b: seq<string>, l: nat, deep: seq<string>, marker: string)
    requires HasParents(a, k) && HasParents(b, l) && |deep| > |a| + |b|
    requires marker !in a && marker !in b
    requires forall i :: 0 <= i < |deep| ==> deep[i] == marker
    requires deep[..|deep| - k] + a[k..] == deep[..|deep| - l] + b[l..]
    ensures a == b
  {
    if k < l {
      DeeperEntryDiffers(a, k, b, l, deep, marker);
    } else if l < k {
      DeeperEntryDiffers(b, l, a, k, deep, marker);
    }
    var fromA, fromB := deep[..|deep| - k] + a[k..], deep[..|deep| - l] + b[l..];
    assert a[k..] == fromA[|deep| - k..] && b[l..] == fromB[|deep| - l..];
    assert a == a[..k] + a[k..] && b == b[..l] + b[l..];
    assert a[..k] == b[..l];
  }

  lemma DeeperEntryDiffers(a: seq<string>, k: nat, b: seq<string>, l: nat, deep: seq<string>, marker: string)
    requires k < l <= |b| && k <= |a| && |deep| > |a| + |b|
    requires marker !in b
    requires forall i :: 0 <= i < |deep| ==> deep[i] == marker
    ensures deep[..|deep| - k] + a[k..] != deep[..|deep| - l] + b[l..]
  {
    var fromA, fromB := deep[..|deep| - k] + a[k..], deep[..|deep| - l] + b[l..];
    assert fromA[|deep| - l] == marker;
    if l < |b| {
      assert fromB[|deep| - l] == b[l] && b[l] in b;
    } else {
      assert |fromB| == |deep| - l < |fromA|;
    }
  }

  function DeepDirectory(depth: nat, name: string): (d: Directory)
    requires ProperName(name)
    ensures |d| == depth && forall i :: 0 <= i < depth ==> d[i] == name
  {
    seq(depth, _ => name)
  }

  lemma StacksDifferFromDeep(a: seq<string>, absA: bool, k: nat, b: seq<string>, absB: bool, l: nat,
        deep: Directory, marker: string)
    requires HasParents(a, k) && (absA ==> k == 0)
    requires HasParents(b, l) && (absB ==> l == 0)
    requires |deep| > |a| + |b| && forall i :: 0 <= i < |deep| ==> deep[i] == marker
    requires marker !in a && marker !in b
    requires Walk(AsComponents(a), StartOf(absA, deep)) == Walk(AsComponents(b), StartOf(absB, deep))
    ensures a == b && absA == absB
  {
    var startA, startB := StartOf(absA, deep), StartOf(absB, deep);
    WalkOfStack(a, k, startA);
    WalkOfStack(b, l, startB);
    if absA && absB {
      assert a == startA[..0] + a[0..] && b == startB[..0] + b[0..];
    } else if !absA && !absB {
      RelativeStacksDiffer(a, k, b, l, deep, marker);
    } else {
      assert false;
    }
  }

  /** Canonical stacks that lead to the same place from every directory are the same stack. */
  lemma CanonicalStacksDiffer(a: seq<string>, absA: bool, b: seq<string>, absB: bool)
    requires CanonicalStack(a, absA) && CanonicalStack(b, absB)
    requires forall d: Directory ::
      Walk(AsComponents(a), StartOf(absA, d)) == Walk(AsComponents(b), StartOf(absB, d))
    ensures a == b && absA == absB
  {
    var k: nat :| HasParents(a, k) && (absA ==> k == 0);
    var l: nat :| HasParents(b, l) && (absB ==> l == 0);
    var marker := LongName(MaxLength(a) + MaxLength(b));
    var deep := DeepDirectory(|a| + |b| + 1, marker);
    StacksDifferFromDeep(a, absA, k, b, absB, l, deep, marker);
  }

  /** Normalization is a complete invariant: equal results exactly for equivalent paths. */
  lemma NormalizeIsComplete(a: string, b: string)
    ensures Normalize(a) == Normalize(b) <==> Equivalent(a, b)
  {
    NormalizePreservesMeaning(a);
    NormalizePreservesMeaning(b);
    if Normalize(a) == Normalize(b) {
      forall d: Directory ensures Denotation(a, d) == Denotation(b, d) {
        assert Denotation(Normalize(a), d) == Denotation(a, d);
        assert Denotation(Normalize(b), d) == Denotation(b, d);
      }
    }
    if Equivalent(a, b) {
      HasRootIsRootDir(a);
      HasRootIsRootDir(b);
      ReduceIsCanonical(Components(a), HasRoot(a));
      ReduceIsCanonical(Components(b), HasRoot(b));
      var stackA, stackB := Reduce(Components(a), HasRoot(a)), Reduce(Components(b), HasRoot(b));
      forall d: Directory
        ensures Walk(AsComponents(stackA), StartOf(HasRoot(a), d)) == Walk(AsComponents(stackB), StartOf(HasRoot(b), d))
      {
        ReducePreservesWalk(Components(a), HasRoot(a), d);
        ReducePreservesWalk(Components(b), HasRoot(b), d);
        assert Denotation(a, d) == Denotation(b, d);
      }
      CanonicalStacksDiffer(stackA, HasRoot(a), stackB, HasRoot(b));
    }
  }

  lemma NormalizeIsIdempotent(raw: string)
    ensures Normalize(Normalize(raw)) == Normalize(raw)
  {
    NormalizePreservesMeaning(raw);
    NormalizeIsComplete(Normalize(raw), raw);
  }

  /** No equivalent path has fewer components than the normalized one. */
  lemma NormalizeIsMinimal(raw: string, other: string)
    requires Equivalent(raw, other)
    ensures |Components(Normalize(raw))| <= |Components(other)|
  {
    NormalizeIsComplete(raw, other);
    NormalizedComponents(other);
    HasRootIsRootDir(other);
    ReduceIsNoLonger(Components(other), HasRoot(other));
  }

  lemma NormalIs(raw: string, path: string)
    requires path == Normalize(raw)
    ensures Equivalent(path, raw) && Normalize(path) == path
  {
    NormalizePreservesMeaning(raw);
    NormalizeIsIdempotent(raw);
  }

  lemma RenderIs(stack: seq<string>, absolute: bool)
    ensures Render(stack, absolute) == if absolute then "/" + Join(stack, "/") else Join(stack, "/")
  {
    assert "" + Join(stack, "/") == Join(stack, "/");
  }

  lemma ReduceOne(c: Component, absolute: bool)
    ensures Reduce([c], absolute) == StackStep([], c, absolute)
  {
    assert [c][..0] == [];
  }

  lemma ReduceNext(cs: seq<Component>, i: nat, absolute: bool)
    requires i < |cs|
    ensures Reduce(cs[..i + 1], absolute) == StackStep(Reduce(cs[..i], absolute), cs[i], absolute)
  {
    assert cs[..i + 1][..i] == cs[..i];
  }

  /** The loop of the source: pushes and pops of a component stack. */
  method NormalizePath(raw: string) returns (path: string)
    ensures path == Normalize(raw)
    ensures Equivalent(path, raw)
    ensures Normalize(path) == path
  {
    var absolute := HasRoot(raw);
    var cs := Components(raw);
    var components: seq<string> := [];
    var i := 0;
    while i < |cs|
      invariant 0 <= i <= |cs|
      invariant components == Reduce(cs[..i], absolute)
    {
      ReduceNext(cs, i, absolute);
      match cs[i] {
        case CurDir =>
        case ParentDir =>
          if components != [] && components[|components| - 1] == ".." {
            components := components + [".."];
          } else if components != [] {
            components := components[..|components| - 1];
          } else if !absolute {
            components := components + [".."];
          }
        case Normal(segment) =>
          components := components + [segment];
        case RootDir =>
      }
      i := i + 1;
    }
    assert cs[..|cs|] == cs;
    var joined := Join(components, "/");
    path := if absolute then "/" + joined else joined;
    RenderIs(components, absolute);
    NormalIs(raw, path);
  }
}
