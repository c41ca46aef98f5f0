/** Operands of `rm` in the home directory, as the shell reads them before and after the rewriting. */
module HomeOperands {
  import opened Sequences
  import opened Wrappers
  import opened Text
  import opened LexicalPaths
  import opened PathMeaning
  import opened RmExpansion

  predicate IsHomeOperand(path: string)
  {
    HomePrefix(path).Some? && HasRoot(path[|HomePrefix(path).value|..])
  }

  /** What the shell makes of a text behind the home directory. */
  function Behind(home: Directory, suffix: string): string
  {
    Render(home, true) + suffix
  }

  /** The operand as the shell reads it. */
  function AtHome(path: string, home: Directory): string
    requires HomePrefix(path).Some?
  {
    Behind(home, path[|HomePrefix(path).value|..])
  }

  /** The components of what follows the home directory. */
  function BelowHome(path: string): seq<Component>
    requires IsHomeOperand(path)
  {
    Components(path[|HomePrefix(path).value|..])[1..]
  }

  /** What the rewriting leaves of a suffix. */
  function Rewritten(suffix: string): string
  {
    if Normalize(suffix) == "/" then "" else Normalize(suffix)
  }

  /** An absolute suffix behind a text adds its components without the root. */
  lemma ComponentsOfSuffix(text: string, suffix: string)
    requires HasRoot(text) && HasRoot(suffix)
    ensures Components(text + suffix) == Components(text) + Components(suffix)[1..]
  {
    var rest := suffix[1..];
    assert suffix == "/" + rest && text + suffix == text + "/" + rest;
    ComponentsOfSlash(text, rest);
    ComponentsOfRooted(rest);
  }

  lemma WalkOfNames(names: Directory, d: Directory)
    ensures Walk(AsComponents(names), d) == d + names
  {
    assert HasParents(names, 0);
    WalkOfStack(names, 0, d);
    assert d[..|d|] == d && names[0..] == names;
  }

  lemma HomeIsRead(home: Directory)
    ensures HasRoot(Render(home, true)) && forall d: Directory :: Denotation(Render(home, true), d) == home
  {
    assert HasParents(home, 0);
    ComponentsOfRender(home, true);
    forall d: Directory ensures Denotation(Render(home, true), d) == home {
      WalkConcat([RootDir], AsComponents(home), d);
      assert Walk([RootDir], d) == StepInto(Walk([RootDir][..0], d), RootDir);
      WalkOfNames(home, []);
    }
  }

  /** An absolute suffix leads from the home directory along its components. */
  lemma BehindLeads(home: Directory, suffix: string, d: Directory)
    requires HasRoot(suffix)
    ensures Denotation(Behind(home, suffix), d) == Walk(Components(suffix)[1..], home)
  {
    var text := Render(home, true);
    HomeIsRead(home);
    ComponentsOfSuffix(text, suffix);
    WalkConcat(Components(text), Components(suffix)[1..], d);
    assert Denotation(text, d) == home;
  }

  /** What an absolute path leads to is its stack. */
  lemma StackFromRoot(raw: string)
    requires HasRoot(raw)
    ensures var stack := Reduce(Components(raw), true);
            HasParents(stack, 0) && Walk(Components(raw)[1..], []) == stack
  {
    var cs := Components(raw);
    HasRootIsRootDir(raw);
    ReduceIsCanonical(cs, true);
    ReducePreservesWalk(cs, true, []);
    assert cs == [RootDir] + cs[1..];
    WalkConcat([RootDir], cs[1..], []);
    assert Walk([RootDir], []) == StepInto(Walk([RootDir][..0], []), RootDir);
    WalkOfNames(Reduce(cs, true), []);
  }

  lemma NothingBelowHome(raw: string)
    requires HasRoot(raw) && Normalize(raw) == "/"
    ensures Reduce(Components(raw), true) == []
  {
    NormalizedComponents(raw);
    assert Split("/", '/') == ["", ""] && PieceComponents(["", ""], false) == PieceComponents([""], false) == [];
    assert |AsComponents(Reduce(Components(raw), true))| == 0;
  }

  lemma NormalLeads(home: Directory, suffix: string, d: Directory)
    requires HasRoot(suffix)
    ensures Denotation(Behind(home, Normalize(suffix)), d) == home + Reduce(Components(suffix), true)
  {
    var stack := Reduce(Components(suffix), true);
    NormalizedComponents(suffix);
    assert Components(Normalize(suffix))[1..] == AsComponents(stack);
    BehindLeads(home, Normalize(suffix), d);
    StackFromRoot(suffix);
    WalkOfNames(stack, home);
  }

  /** The rewritten suffix leads from the home directory to where the suffix leads from the root. */
  lemma RewrittenLeads(home: Directory, suffix: string, d: Directory)
    requires HasRoot(suffix)
    ensures Denotation(Behind(home, Rewritten(suffix)), d) == home + Walk(Components(suffix)[1..], [])
  {
    StackFromRoot(suffix);
    if Normalize(suffix) == "/" {
      NothingBelowHome(suffix);
      assert Behind(home, "") == Render(home, true);
      HomeIsRead(home);
    } else {
      NormalLeads(home, suffix, d);
    }
  }

  lemma SameFromHome(home: Directory, suffix: string)
    requires HasRoot(suffix)
    ensures var cs := Components(suffix)[1..];
            Equivalent(Behind(home, suffix), Behind(home, Rewritten(suffix))) <==> Walk(cs, home) == home + Walk(cs, [])
  {
    forall d: Directory
      ensures Denotation(Behind(home, suffix), d) == Walk(Components(suffix)[1..], home)
      ensures Denotation(Behind(home, Rewritten(suffix)), d) == home + Walk(Components(suffix)[1..], [])
    {
      BehindLeads(home, suffix, d);
      RewrittenLeads(home, suffix, d);
    }
    var root: Directory := [];
    assert Denotation(Behind(home, suffix), root) == Walk(Components(suffix)[1..], home);
  }

  /**
    A home operand is rewritten to one that leads to the same place, wherever the home directory is,
    exactly when what follows never climbs above the home directory.
  */
  lemma HomeOperandExactly(path: string)
    requires IsHomeOperand(path)
    ensures HomePrefix(Rewrite(path)) == HomePrefix(path)
    ensures (forall home: Directory :: Equivalent(AtHome(path, home), AtHome(Rewrite(path), home)))
       <==> !Escapes(BelowHome(path))
  {
    RewriteKeepsPrefix(path);
    var suffix, cs := path[|HomePrefix(path).value|..], BelowHome(path);
    ClimbsExactly(cs);
    if Escapes(cs) {
      var home: Directory :| Walk(cs, home) != home + Walk(cs, []);
      SameFromHome(home, suffix);
      assert !Equivalent(AtHome(path, home), AtHome(Rewrite(path), home));
    } else {
      forall home: Directory ensures Equivalent(AtHome(path, home), AtHome(Rewrite(path), home)) {
        SameFromHome(home, suffix);
        assert Walk(cs, home) == home + Walk(cs, []);
      }
    }
  }

  lemma ParentComponents(raw: string)
    requires raw == "/.."
    ensures Components(raw) == [RootDir, ParentDir]
  {
    SplitOnePiece("..", '/');
    ComponentsOfRooted("..");
    assert raw == "/" + "..";
    assert PieceComponents([".."], false) == [ParentDir] + PieceComponents([], false);
  }

  lemma ParentOfRoot()
    ensures Reduce([RootDir, ParentDir], true) == []
  {
    ReduceNext([RootDir, ParentDir], 0, true);
    ReduceNext([RootDir, ParentDir], 1, true);
    assert [RootDir, ParentDir][..2] == [RootDir, ParentDir];
  }

  lemma ParentSuffix(raw: string)
    requires raw == "/.."
    ensures Components(raw) == [RootDir, ParentDir] && Normalize(raw) == "/" && Escapes([ParentDir])
  {
    ParentComponents(raw);
    ParentOfRoot();
    DepthPush([ParentDir], 0);
  }

  /** `$HOME/..` is rewritten to `$HOME`, which is not the directory above it. */
  lemma ParentOfHomeIsHome()
    ensures Rewrite("$HOME/..") == "$HOME" && IsHomeOperand("$HOME/..")
    ensures exists home: Directory :: !Equivalent(AtHome("$HOME/..", home), AtHome("$HOME", home))
  {
    var path := "$HOME/..";
    ParentSuffix(path[5..]);
    assert path[..5] == "$HOME" && path[5..] == "/..";
    assert [RootDir, ParentDir][1..] == [ParentDir];
    HomeOperandExactly(path);
  }
}
