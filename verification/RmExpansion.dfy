/**
  The expansion of an `rm` command line into one command per operand, so that deny rules written
  for a single normalized operand can be matched against each of them.
*/
module RmExpansion {
  import opened Wrappers
  import opened Text
  import opened LexicalPaths
  import opened RustText
  import opened Sequences

  predicate IsArgument(w: string)
  {
    IsWord(w, IsSpace)
  }

  /** `eq_ignore_ascii_case("rm")` */
  predicate IsRm(word: string)
  {
    |word| == 2 && (word[0] == 'r' || word[0] == 'R') && (word[1] == 'm' || word[1] == 'M')
  }

  predicate StartsWith(s: string, prefix: string)
  {
    prefix <= s
  }

  predicate Begins(s: string, c: char)
  {
    s != "" && s[0] == c
  }

  // ----- flags and operands -----

  /** The index of the first `--`, or the number of arguments. */
  function FirstDoubleDash(args: seq<string>): (k: nat)
    ensures k <= |args|
    ensures "--" !in args[..k]
    ensures k < |args| ==> args[k] == "--"
  {
    if args == [] || args[0] == "--" then 0 else 1 + FirstDoubleDash(args[1..])
  }

  /** The arguments that do (or do not) begin with a dash, in order. */
  function Select(args: seq<string>, dashed: bool): seq<string>
  {
    if args == [] then []
    else
      var last := args[|args| - 1];
      Select(args[..|args| - 1], dashed) + (if Begins(last, '-') == dashed then [last] else [])
  }

  function FlagsOf(args: seq<string>): seq<string>
  {
    var k := FirstDoubleDash(args);
    Select(args[..k], true) + (if k < |args| then ["--"] else [])
  }

  function OperandsOf(args: seq<string>): seq<string>
  {
    var k := FirstDoubleDash(args);
    Select(args[..k], false) + (if k < |args| then args[k + 1..] else [])
  }

  // ----- one operand -----

  function HomePrefix(path: string): Option<string>
  {
    if StartsWith(path, "${HOME}") then Some("${HOME}")
    else if StartsWith(path, "$HOME") then Some("$HOME")
    else None
  }

  function RewriteVariable(path: string): string
  {
    match HomePrefix(path)
    case None => path
    case Some(prefix) =>
      var suffix := path[|prefix|..];
      if suffix == "" || suffix[0] != '/' then path
      else if Normalize(suffix) == "/" then prefix
      else prefix + Normalize(suffix)
  }

  /** What the expansion makes of one operand. */
  function Rewrite(path: string): string
  {
    if Begins(path, '$') then RewriteVariable(path)
    else if Normalize(path) == "" && !HasRoot(path) then "."
    else Normalize(path)
  }

  function FlagText(flags: seq<string>): string
  {
    if flags == [] then "" else Join(flags, " ") + " "
  }

  function Line(flags: seq<string>, path: string): string
  {
    "rm " + FlagText(flags) + path
  }

  function Lines(flags: seq<string>, operands: seq<string>): (lines: seq<string>)
    ensures |lines| == |operands|
    ensures forall i :: 0 <= i < |operands| ==> lines[i] == Line(flags, Rewrite(operands[i]))
  {
    seq(|operands|, i requires 0 <= i < |operands| => Line(flags, Rewrite(operands[i])))
  }

  function ExpandRm(command: string): seq<string>
  {
    var words := Words(Trim(command, IsSpace), IsSpace);
    if words == [] || !IsRm(words[0]) then [] else Lines(FlagsOf(words[1..]), OperandsOf(words[1..]))
  }

  // ----- the loops of the source -----

  lemma SelectPush(args: seq<string>, i: nat, dashed: bool)
    requires i < |args|
    ensures Select(args[..i + 1], dashed)
         == Select(args[..i], dashed) + (if Begins(args[i], '-') == dashed then [args[i]] else [])
  {
    assert args[..i + 1][..i] == args[..i];
  }

  /** The flags among the first i arguments, k being the index of the first `--`. */
  function FlagsUpTo(args: seq<string>, k: nat, i: nat): seq<string>
    requires k <= |args| && i <= |args|
  {
    if i <= k then Select(args[..i], true) else Select(args[..k], true) + ["--"]
  }

  function OperandsUpTo(args: seq<string>, k: nat, i: nat): seq<string>
    requires k <= |args| && i <= |args|
  {
    if i <= k then Select(args[..i], false) else Select(args[..k], false) + args[k + 1..i]
  }

  /** What one more argument adds: before, at and after the first `--`. */
  lemma ArgumentStep(args: seq<string>, k: nat, i: nat)
    requires k <= |args| && i < |args|
    ensures i < k ==>
              && FlagsUpTo(args, k, i + 1) == FlagsUpTo(args, k, i) + (if Begins(args[i], '-') then [args[i]] else [])
              && OperandsUpTo(args, k, i + 1) == OperandsUpTo(args, k, i) + if Begins(args[i], '-') then [] else [args[i]]
    ensures i == k ==>
              FlagsUpTo(args, k, i + 1) == FlagsUpTo(args, k, i) + ["--"] && OperandsUpTo(args, k, i + 1) == OperandsUpTo(args, k, i)
    ensures k < i ==>
              && FlagsUpTo(args, k, i + 1) == FlagsUpTo(args, k, i)
              && OperandsUpTo(args, k, i + 1) == OperandsUpTo(args, k, i) + [args[i]]
  {
    if i < k {
      SelectPush(args, i, true);
      SelectPush(args, i, false);
    } else if i == k {
      EmptyIsNeutral(Select(args[..k], false));
    } else {
      assert args[k + 1..i + 1] == args[k + 1..i] + [args[i]];
      Associative(Select(args[..k], false), args[k + 1..i], [args[i]]);
    }
  }

  method SplitArguments(args: seq<string>) returns (flags: seq<string>, paths: seq<string>)
    ensures flags == FlagsOf(args)
    ensures paths == OperandsOf(args)
  {
    flags, paths := [], [];
    var pastDoubleDash := false;
    ghost var k := FirstDoubleDash(args);
    var i := 0;
    while i < |args|
      invariant 0 <= i <= |args|
      invariant pastDoubleDash == (k < i)
      invariant flags == FlagsUpTo(args, k, i) && paths == OperandsUpTo(args, k, i)
    {
      var part := args[i];
      assert i < k ==> part in args[..k];
      ArgumentStep(args, k, i);
      EmptyIsNeutral(flags);
      EmptyIsNeutral(paths);
      if !pastDoubleDash && part == "--" {
        pastDoubleDash := true;
        flags := flags + [part];
      } else if !pastDoubleDash && Begins(part, '-') {
        flags := flags + [part];
      } else {
        paths := paths + [part];
      }
      i := i + 1;
    }
    ArgumentsEnd(args);
  }

  lemma ArgumentsEndAt(args: seq<string>, k: nat)
    requires k <= |args|
    ensures FlagsUpTo(args, k, |args|) == Select(args[..k], true) + if k < |args| then ["--"] else []
    ensures OperandsUpTo(args, k, |args|) == Select(args[..k], false) + if k < |args| then args[k + 1..] else []
  {
    EmptyIsNeutral(Select(args[..k], true));
    EmptyIsNeutral(Select(args[..k], false));
    assert args[..|args|] == args;
  }

  lemma ArgumentsEnd(args: seq<string>)
    ensures var k := FirstDoubleDash(args);
            FlagsUpTo(args, k, |args|) == FlagsOf(args) && OperandsUpTo(args, k, |args|) == OperandsOf(args)
  {
    ArgumentsEndAt(args, FirstDoubleDash(args));
  }

  method RewriteOperand(path: string) returns (rewritten: string)
    ensures rewritten == Rewrite(path)
  {
    if Begins(path, '$') {
      var homePrefix := if StartsWith(path, "${HOME}") then Some("${HOME}")
                        else if StartsWith(path, "$HOME") then Some("$HOME") else None;
      if homePrefix.None? {
        return path;
      }
      var prefix := homePrefix.value;
      var suffix := path[|prefix|..];
      if suffix == "" {
        return path;
      } else if Begins(suffix, '/') {
        var normalizedSuffix := NormalizePath(suffix);
        return if normalizedSuffix == "/" then prefix else prefix + normalizedSuffix;
      } else {
        return path;
      }
    }
    rewritten := NormalizePath(path);
    if rewritten == "" && !HasRoot(path) {
      rewritten := ".";
    }
  }

  lemma LinesPush(flags: seq<string>, paths: seq<string>, i: nat, line: string)
    requires i < |paths| && line == Line(flags, Rewrite(paths[i]))
    ensures Lines(flags, paths[..i + 1]) == Lines(flags, paths[..i]) + [line]
  {
  }

  method ExpandOperands(flags: seq<string>, paths: seq<string>) returns (results: seq<string>)
    ensures results == Lines(flags, paths)
  {
    results := [];
    var i := 0;
    while i < |paths|
      invariant 0 <= i <= |paths|
      invariant results == Lines(flags, paths[..i])
    {
      var rewritten := RewriteOperand(paths[i]);
      var result := Line(flags, rewritten);
      LinesPush(flags, paths, i, result);
      results := results + [result];
      i := i + 1;
    }
    assert paths[..|paths|] == paths;
  }

  /** One command per operand, in the order of the operands; none for any other command. */
  method ExpandRmToSinglePathCommands(command: string) returns (results: seq<string>)
    ensures results == ExpandRm(command)
  {
    var words := Words(Trim(command, IsSpace), IsSpace);
    if words == [] || !IsRm(words[0]) {
      return [];
    }
    var flags, paths := SplitArguments(words[1..]);
    results := ExpandOperands(flags, paths);
  }

  // ----- what the rewritten operand means -----

  lemma NormalFormOfRoot(raw: string)
    requires raw == "/"
    ensures Normalize(raw) == "/"
  {
    assert Split(raw, '/') == ["", ""];
    assert PieceComponents(["", ""], false) == PieceComponents([""], false) == [];
    assert Components(raw) == [RootDir];
    ReduceOne(RootDir, true);
  }

  lemma NormalFormOfCurrent(raw: string)
    requires raw == "."
    ensures Normalize(raw) == ""
  {
    SplitOnePiece(raw, '/');
    assert PieceComponents(["."], true) == [CurDir] + PieceComponents([], false);
    assert Components(raw) == [CurDir];
    ReduceOne(CurDir, false);
  }

  lemma NormalFormOfParent(raw: string)
    requires raw == ".."
    ensures Normalize(raw) == ".."
  {
    SplitOnePiece(raw, '/');
    assert PieceComponents([".."], true) == [ParentDir] + PieceComponents([], false);
    assert Components(raw) == [ParentDir];
    ReduceOne(ParentDir, false);
  }

  /** The fixed spellings of the three special directories. */
  lemma NormalFormsOfSpecialDirectories()
    ensures Normalize("/") == "/" && Normalize(".") == "" && Normalize("..") == ".."
  {
    NormalFormOfRoot("/");
    NormalFormOfCurrent(".");
    NormalFormOfParent("..");
  }

  lemma VariableStaysVariable(path: string)
    requires Begins(path, '$')
    ensures Begins(Rewrite(path), '$')
  {
  }

  lemma SpecialDirectoriesPlain(path: string)
    requires path != "" && !Begins(path, '$')
    ensures Rewrite(path) == "/" <==> Normalize(path) == "/"
    ensures Rewrite(path) == "." <==> Normalize(path) == ""
    ensures Rewrite(path) == ".." <==> Normalize(path) == ".."
  {
    NormalFormsOfSpecialDirectories();
    NormalizedComponents(path);
    NormalizeIsIdempotent(path);
  }

  /**
    An operand that denotes the root, the current or the parent directory is written `/`, `.` or
    `..` however it is spelled, and no other operand is. Operands that begin with a dollar sign
    are never normalized as paths of their own, so `$X/..` keeps its spelling.
  */
  lemma SpecialDirectories(path: string)
    requires path != ""
    ensures Rewrite(path) == "/" <==> Equivalent(path, "/")
    ensures Rewrite(path) == "." <==> Equivalent(path, ".") && path[0] != '$'
    ensures Rewrite(path) == ".." <==> Equivalent(path, "..") && path[0] != '$'
  {
    NormalFormsOfSpecialDirectories();
    NormalizeIsComplete(path, "/");
    NormalizeIsComplete(path, ".");
    NormalizeIsComplete(path, "..");
    if Begins(path, '$') {
      VariableStaysVariable(path);
      NormalizedComponents(path);
    } else {
      SpecialDirectoriesPlain(path);
    }
  }

  lemma ComponentsOfVariableParent(path: string)
    requires path == "$X/.."
    ensures Components(path) == [Normal("$X"), ParentDir]
  {
    SplitOnePiece("..", '/');
    SplitFirstPiece("$X", '/', "..");
    assert path == "$X" + ['/'] + "..";
    assert PieceComponents(["$X", ".."], true) == [Normal("$X")] + PieceComponents([".."], false);
    assert PieceComponents([".."], false) == [ParentDir] + PieceComponents([], false);
  }

  lemma ReduceOfNameAndParent(name: string)
    requires ProperName(name)
    ensures Reduce([Normal(name), ParentDir], false) == []
  {
    var cs := [Normal(name), ParentDir];
    assert cs[..1] == [Normal(name)] && cs[..1][..0] == [];
    assert Reduce(cs[..1], false) == [name];
  }

  /** `$X/..` is the current directory as a path, and keeps its spelling. */
  lemma VariableParentIsKept(path: string)
    requires path == "$X/.."
    ensures Equivalent(path, ".") && Rewrite(path) == path
  {
    ComponentsOfVariableParent(path);
    ReduceOfNameAndParent("$X");
    NormalFormsOfSpecialDirectories();
    NormalizeIsComplete(path, ".");
  }

  // ----- which operands change, and where they lead -----

  /** The two spellings of the home directory are recognised wherever a text begins with them. */
  lemma HomePrefixExactly(rest: string, path: string)
    ensures HomePrefix("${HOME}" + rest) == Some("${HOME}") && HomePrefix("$HOME" + rest) == Some("$HOME")
    ensures HomePrefix(path).Some? ==>
              exists suffix :: path == "${HOME}" + suffix || path == "$HOME" + suffix
  {
    assert ("${HOME}" + rest)[1] == '{' && ("$HOME" + rest)[1] == 'H';
    if HomePrefix(path).Some? {
      var prefix := HomePrefix(path).value;
      assert path == prefix + path[|prefix|..];
    }
  }

  /** A plain operand is rewritten to one that leads to the same place; a dollar operand only changes behind the home directory. */
  lemma RewriteLeads(path: string)
    requires path != ""
    ensures path[0] != '$' ==> Equivalent(Rewrite(path), path)
    ensures path[0] == '$' && (HomePrefix(path).None? || !HasRoot(path[|HomePrefix(path).value|..])) ==> Rewrite(path) == path
  {
    if !Begins(path, '$') {
      NormalFormsOfSpecialDirectories();
      NormalizeIsIdempotent(path);
      NormalizeIsComplete(Rewrite(path), path);
    }
  }

  // ----- expanding twice -----

  lemma {:induction false} ReduceOfNames(names: seq<string>)
    requires forall i :: 0 <= i < |names| ==> ProperName(names[i])
    ensures Reduce([RootDir] + AsComponents(names), true) == names
    decreases |names|
  {
    var cs := [RootDir] + AsComponents(names);
    if names == [] {
      assert cs == [RootDir] && Reduce(cs[..0], true) == [];
    } else {
      var n := |names| - 1;
      ReduceOfNames(names[..n]);
      assert cs[..|cs| - 1] == [RootDir] + AsComponents(names[..n]);
      assert cs[|cs| - 1] == Normal(names[n]) && names[..n] + [names[n]] == names;
    }
  }

  /** An absolute path that is spelled canonically is its own normal form. */
  lemma NormalizeOfNames(names: seq<string>)
    requires forall i :: 0 <= i < |names| ==> ProperName(names[i])
    ensures Normalize(Render(names, true)) == Render(names, true)
  {
    assert HasParents(names, 0);
    ComponentsOfRender(names, true);
    ReduceOfNames(names);
  }

  /** What follows the first name of a normalized relative path is a normalized absolute path. */
  lemma SuffixIsNormal(path: string, first: string, rest: string)
    requires Normalize(path) == first + "/" + rest
    requires ProperName(first) && !HasRoot(path)
    ensures Normalize("/" + rest) == "/" + rest && rest != ""
  {
    var stack := Reduce(Components(path), false);
    ReduceIsCanonical(Components(path), false);
    var k: nat :| HasParents(stack, k);
    assert Normalize(path) == Join(stack, "/") by { assert "" + Join(stack, "/") == Join(stack, "/"); }
    assert stack == [] ==> Join(stack, "/") == "";
    forall i | 0 <= i < |stack| ensures '/' !in stack[i] && stack[i] != "" {
    }
    SplitJoin(stack, '/');
    SplitFirstPiece(first, '/', rest);
    assert first + ['/'] + rest == first + "/" + rest;
    assert stack == [first] + Split(rest, '/');
    assert stack[1..] == Split(rest, '/');
    assert Join(stack, "/") == first + "/" + Join(stack[1..], "/");
    assert (first + "/" + rest)[|first| + 1..] == rest;
    assert (first + "/" + Join(stack[1..], "/"))[|first| + 1..] == Join(stack[1..], "/");
    assert k == 0;
    NormalizeOfNames(stack[1..]);
    assert rest == "" ==> stack == [first, ""];
  }

  /** A rewritten home operand is one, with the suffix normalized. */
  lemma RewriteKeepsPrefix(path: string)
    requires HomePrefix(path).Some? && HasRoot(path[|HomePrefix(path).value|..])
    ensures HomePrefix(Rewrite(path)) == HomePrefix(path)
    ensures var prefix := HomePrefix(path).value;
            var normalized := Normalize(path[|prefix|..]);
            Rewrite(path)[|prefix|..] == if normalized == "/" then "" else normalized
  {
    var prefix := HomePrefix(path).value;
    var suffix := path[|prefix|..];
    NormalizedComponents(suffix);
    var rewritten := Rewrite(path);
    assert StartsWith(rewritten, prefix);
    assert prefix == "$HOME" ==> path[1] == 'H' && rewritten[1] == 'H';
  }

  lemma RewriteVariableIsStable(path: string)
    requires Begins(path, '$')
    ensures Rewrite(Rewrite(path)) == Rewrite(path)
  {
    VariableStaysVariable(path);
    if HomePrefix(path).Some? {
      var suffix := path[|HomePrefix(path).value|..];
      if suffix != "" && suffix[0] == '/' {
        RewriteKeepsPrefix(path);
        NormalizedComponents(suffix);
        NormalizeIsIdempotent(suffix);
      }
    }
  }

  /** A normalized relative path may itself begin with a dollar sign, as `./$HOME/x` does. */
  lemma RewriteOfNormalVariable(path: string)
    requires !HasRoot(path) && Begins(Normalize(path), '$')
    ensures Rewrite(Normalize(path)) == Normalize(path)
  {
    var normalized := Normalize(path);
    if HomePrefix(normalized).Some? {
      var prefix := HomePrefix(normalized).value;
      var suffix := normalized[|prefix|..];
      if suffix != "" && suffix[0] == '/' {
        assert suffix == "/" + suffix[1..];
        assert normalized == prefix + "/" + suffix[1..];
        SuffixIsNormal(path, prefix, suffix[1..]);
        assert prefix + suffix == normalized;
      }
    }
  }

  /** Rewriting an operand that is already rewritten changes nothing. */
  lemma RewriteIsStable(path: string)
    requires path != ""
    ensures Rewrite(Rewrite(path)) == Rewrite(path) && Rewrite(path) != ""
  {
    if Begins(path, '$') {
      RewriteVariableIsStable(path);
      VariableStaysVariable(path);
    } else {
      NormalizedComponents(path);
      NormalizeIsIdempotent(path);
      if Normalize(path) == "" {
        NormalFormsOfSpecialDirectories();
      } else if Begins(Normalize(path), '$') {
        RewriteOfNormalVariable(path);
      }
    }
  }

  // ----- rewriting adds no white space -----

  predicate NoSpace(s: string)
  {
    forall c :: c in s ==> !IsSpace(c)
  }

  lemma {:induction false} ReduceAddsNoSpace(cs: seq<Component>, absolute: bool)
    requires forall c :: c in cs && c.Normal? ==> NoSpace(c.name)
    ensures forall s :: s in Reduce(cs, absolute) ==> NoSpace(s)
    decreases |cs|
  {
    if cs != [] {
      var front, last := cs[..|cs| - 1], cs[|cs| - 1];
      assert last in cs;
      ReduceAddsNoSpace(front, absolute);
      assert NoSpace("..");
    }
  }

  lemma {:induction false} PiecesAddNoSpace(pieces: seq<string>, keepDot: bool)
    requires forall p :: p in pieces ==> NoSpace(p)
    ensures forall c :: c in PieceComponents(pieces, keepDot) && c.Normal? ==> NoSpace(c.name)
  {
    if pieces != [] {
      PiecesAddNoSpace(pieces[1..], false);
      assert pieces[0] in pieces;
    }
  }

  lemma {:induction false} JoinAddsNoSpace(pieces: seq<string>, sep: string)
    requires NoSpace(sep) && forall p :: p in pieces ==> NoSpace(p)
    ensures NoSpace(Join(pieces, sep))
  {
    if pieces != [] {
      assert pieces[0] in pieces;
      JoinAddsNoSpace(pieces[1..], sep);
    }
  }

  lemma NormalizeAddsNoSpace(raw: string)
    requires NoSpace(raw)
    ensures NoSpace(Normalize(raw))
  {
    SplitPieces(raw, '/');
    PiecesAddNoSpace(Split(raw, '/'), !HasRoot(raw));
    ReduceAddsNoSpace(Components(raw), HasRoot(raw));
    JoinAddsNoSpace(Reduce(Components(raw), HasRoot(raw)), "/");
  }

  lemma RewriteVariableAddsNoSpace(path: string)
    requires NoSpace(path)
    ensures NoSpace(RewriteVariable(path))
  {
    if HomePrefix(path).Some? {
      var prefix := HomePrefix(path).value;
      assert forall c :: c in prefix ==> c in path;
      NormalizeAddsNoSpace(path[|prefix|..]);
    }
  }

  lemma RewriteIsArgument(path: string)
    requires IsArgument(path)
    ensures IsArgument(Rewrite(path))
  {
    RewriteIsStable(path);
    if Begins(path, '$') {
      RewriteVariableAddsNoSpace(path);
    } else {
      NormalizeAddsNoSpace(path);
    }
  }

  // ----- the words of an expanded command -----

  lemma {:induction false} JoinPush(ws: seq<string>, w: string)
    requires ws != []
    ensures Join(ws + [w], " ") == Join(ws, " ") + " " + w
  {
    if |ws| > 1 {
      JoinPush(ws[1..], w);
      assert (ws + [w])[1..] == ws[1..] + [w];
    } else {
      assert (ws + [w])[1..] == [w];
    }
  }

  lemma WordsOfLine(flags: seq<string>, path: string)
    requires IsArgument(path) && forall f :: f in flags ==> IsArgument(f)
    ensures Words(Trim(Line(flags, path), IsSpace), IsSpace) == ["rm"] + flags + [path]
  {
    var words := ["rm"] + flags + [path];
    JoinPush(["rm"] + flags, path);
    assert Line(flags, path) == Join(words, " ") by {
      if flags == [] {
        assert ["rm"] + flags == ["rm"];
      } else {
        assert (["rm"] + flags)[1..] == flags;
      }
    }
    forall i | 0 <= i < |words| ensures IsArgument(words[i]) {
      if 1 <= i <= |flags| { assert words[i] == flags[i - 1]; }
    }
    WordsOfJoin(words, IsSpace);
    WordsOfTrim(Line(flags, path), IsSpace);
  }

  lemma {:induction false} SelectProperties(args: seq<string>, dashed: bool)
    ensures forall a :: a in Select(args, dashed) ==> a in args && Begins(a, '-') == dashed
    decreases |args|
  {
    if args != [] {
      SelectProperties(args[..|args| - 1], dashed);
    }
  }

  lemma {:induction false} SelectAll(args: seq<string>, dashed: bool)
    requires forall i :: 0 <= i < |args| ==> Begins(args[i], '-') == dashed
    ensures Select(args, dashed) == args
    ensures Select(args, !dashed) == []
    decreases |args|
  {
    if args != [] {
      var front, last := args[..|args| - 1], args[|args| - 1];
      SelectAll(front, dashed);
      assert Select(args, dashed) == front + [last] == args;
    }
  }

  /** Flags are dashed, and `--` occurs among them at most once, at the end. */
  lemma FlagProperties(args: seq<string>)
    ensures forall f :: f in FlagsOf(args) ==> f in args && Begins(f, '-')
    ensures "--" in FlagsOf(args) <==> "--" in args
    ensures "--" in args ==> FlagsOf(args)[|FlagsOf(args)| - 1] == "--"
    ensures forall i :: 0 <= i < |FlagsOf(args)| - 1 ==> FlagsOf(args)[i] != "--"
    ensures forall p :: p in OperandsOf(args) ==> p in args
  {
    var k := FirstDoubleDash(args);
    SelectProperties(args[..k], true);
    SelectProperties(args[..k], false);
    if k < |args| {
      assert FlagsOf(args)[|FlagsOf(args)| - 1] == "--";
    } else {
      assert args[..k] == args;
    }
    forall i | 0 <= i < |FlagsOf(args)| - 1 ensures FlagsOf(args)[i] != "--" {
      assert FlagsOf(args)[i] in args[..k] by {
        assert FlagsOf(args)[i] == Select(args[..k], true)[i];
      }
    }
  }

  lemma {:induction false} FirstDoubleDashIs(args: seq<string>, k: nat)
    requires k <= |args| && "--" !in args[..k] && (k < |args| ==> args[k] == "--")
    ensures FirstDoubleDash(args) == k
  {
  }

  lemma ArgumentsAfterOptions(options: seq<string>, path: string)
    requires forall i :: 0 <= i < |options| ==> Begins(options[i], '-') && options[i] != "--"
    ensures var args := options + ["--"] + [path];
            FlagsOf(args) == options + ["--"] && OperandsOf(args) == [path]
  {
    var args, n := options + ["--"] + [path], |options|;
    assert args[..n] == options && args[n] == "--" && args[n + 1..] == [path];
    FirstDoubleDashIs(args, n);
    SelectAll(options, true);
  }

  lemma ArgumentsAfterDoubleDash(flags: seq<string>, path: string)
    requires forall i :: 0 <= i < |flags| ==> Begins(flags[i], '-')
    requires flags != [] && flags[|flags| - 1] == "--"
    requires forall i :: 0 <= i < |flags| - 1 ==> flags[i] != "--"
    ensures FlagsOf(flags + [path]) == flags && OperandsOf(flags + [path]) == [path]
  {
    var options := flags[..|flags| - 1];
    assert flags == options + ["--"];
    ArgumentsAfterOptions(options, path);
  }

  lemma ArgumentsWithoutDoubleDash(flags: seq<string>, path: string)
    requires forall i :: 0 <= i < |flags| ==> Begins(flags[i], '-') && flags[i] != "--"
    ensures !Begins(path, '-') ==> FlagsOf(flags + [path]) == flags && OperandsOf(flags + [path]) == [path]
    ensures Begins(path, '-') ==> OperandsOf(flags + [path]) == []
  {
    var args, n := flags + [path], |flags|;
    SelectAll(flags, true);
    assert args[..n] == flags;
    if path == "--" {
      FirstDoubleDashIs(args, n);
      assert args[n + 1..] == [];
    } else {
      assert args[..n + 1] == args;
      FirstDoubleDashIs(args, n + 1);
      SelectPush(args, n, true);
      SelectPush(args, n, false);
    }
  }

  lemma ExpandOfLine(flags: seq<string>, path: string)
    requires IsArgument(path) && forall f :: f in flags ==> IsArgument(f)
    ensures ExpandRm(Line(flags, path)) == Lines(FlagsOf(flags + [path]), OperandsOf(flags + [path]))
  {
    var words := ["rm"] + flags + [path];
    WordsOfLine(flags, path);
    assert words[1..] == flags + [path] && IsRm(words[0]);
  }

  lemma ExpandLine(flags: seq<string>, path: string)
    requires IsArgument(path) && Rewrite(path) == path
    requires forall f :: f in flags ==> IsArgument(f) && Begins(f, '-')
    requires forall i :: 0 <= i < |flags| - 1 ==> flags[i] != "--"
    ensures ExpandRm(Line(flags, path))
         == if "--" in flags || !Begins(path, '-') then [Line(flags, path)] else []
  {
    ExpandOfLine(flags, path);
    if "--" in flags {
      ArgumentsAfterDoubleDash(flags, path);
    } else {
      ArgumentsWithoutDoubleDash(flags, path);
    }
    assert Lines(flags, [path]) == [Line(flags, path)];
  }

  /**
    Expanding an expanded command gives that command back exactly when the dash of its operand
    cannot be taken for a flag; otherwise it gives nothing.
  */
  lemma ExpandTwice(command: string, i: nat)
    requires i < |ExpandRm(command)|
    ensures var args := Words(Trim(command, IsSpace), IsSpace)[1..];
            var rewritten := Rewrite(OperandsOf(args)[i]);
            ExpandRm(ExpandRm(command)[i]) ==
            if "--" in args || !Begins(rewritten, '-') then [ExpandRm(command)[i]] else []
  {
    var args := Words(Trim(command, IsSpace), IsSpace)[1..];
    FlagProperties(args);
    var operand := OperandsOf(args)[i];
    assert operand in OperandsOf(args);
    assert forall a :: a in args ==> IsArgument(a);
    RewriteIsStable(operand);
    RewriteIsArgument(operand);
    ExpandLine(FlagsOf(args), Rewrite(operand));
  }

  lemma DashIsRewritten()
    ensures Rewrite("./-x") == "-x" && Rewrite("-x") == "-x"
  {
    SplitOnePiece("-x", '/');
    SplitFirstPiece(".", '/', "-x");
    assert "." + ['/'] + "-x" == "./-x";
    assert PieceComponents([".", "-x"], true) == [CurDir] + PieceComponents(["-x"], false);
    assert PieceComponents(["-x"], false) == [Normal("-x")] + PieceComponents([], false);
    assert Components("./-x") == [CurDir, Normal("-x")];
    assert [CurDir, Normal("-x")][..1] == [CurDir] && Reduce([CurDir][..0], false) == [];
    RewriteIsStable("./-x");
  }

  /** A lone operand that is rewritten to a dashed one is expanded to a command without operands. */
  lemma LoneOperandIsLost(path: string)
    requires IsArgument(path) && !Begins(path, '-') && Begins(Rewrite(path), '-') && Rewrite(path) != "--"
    ensures ExpandRm(Line([], path)) == [Line([], Rewrite(path))] && ExpandRm(Line([], Rewrite(path))) == []
  {
    RewriteIsStable(path);
    RewriteIsArgument(path);
    ExpandOfLine([], path);
    ArgumentsWithoutDoubleDash([], path);
    assert Lines([], [path]) == [Line([], Rewrite(path))];
    ExpandLine([], Rewrite(path));
  }

  lemma DashedLines()
    ensures Line([], "./-x") == "rm ./-x" && Line([], "-x") == "rm -x" && IsArgument("./-x")
  {
  }

  /** `rm ./-x` becomes `rm -x`, which expands to nothing. */
  lemma DashedOperandIsLost(command: string)
    requires command == "rm ./-x"
    ensures ExpandRm(command) == ["rm -x"] && ExpandRm(ExpandRm(command)[0]) == []
  {
    DashIsRewritten();
    DashedLines();
    LoneOperandIsLost("./-x");
  }

  /** One output command per operand, in order, each with all the flags. */
  lemma OneCommandPerOperand(command: string)
    ensures var words := Words(command, IsSpace);
            if words != [] && IsRm(words[0]) then
              && |ExpandRm(command)| == |OperandsOf(words[1..])|
              && (forall i :: 0 <= i < |ExpandRm(command)| ==>
                    Words(ExpandRm(command)[i], IsSpace)
                    == ["rm"] + FlagsOf(words[1..]) + [Rewrite(OperandsOf(words[1..])[i])])
            else ExpandRm(command) == []
  {
    WordsOfTrim(command, IsSpace);
    var words := Words(command, IsSpace);
    if words != [] && IsRm(words[0]) {
      var args := words[1..];
      FlagProperties(args);
      assert forall a :: a in args ==> IsArgument(a);
      forall i | 0 <= i < |ExpandRm(command)|
        ensures Words(ExpandRm(command)[i], IsSpace) == ["rm"] + FlagsOf(args) + [Rewrite(OperandsOf(args)[i])]
      {
        assert OperandsOf(args)[i] in OperandsOf(args);
        RewriteIsArgument(OperandsOf(args)[i]);
        WordsOfLine(FlagsOf(args), Rewrite(OperandsOf(args)[i]));
        WordsOfTrim(Line(FlagsOf(args), Rewrite(OperandsOf(args)[i])), IsSpace);
      }
    }
  }
}
