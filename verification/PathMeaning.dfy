/** What a path leads to, piece by piece of its text. */
module PathMeaning {
  import opened Sequences
  import opened Text
  import opened LexicalPaths

  /** What one piece adds in front of the others. */
  function FirstPiece(piece: string, keepDot: bool): seq<Component>
  {
    match piece
    case "" => []
    case "." => if keepDot then [CurDir] else []
    case ".." => [ParentDir]
    case name => [Normal(name)]
  }

  lemma PiecesOfCons(piece: string, rest: seq<string>, keepDot: bool)
    ensures PieceComponents([piece] + rest, keepDot) == FirstPiece(piece, keepDot) + PieceComponents(rest, false)
  {
    var pieces := [piece] + rest;
    assert pieces[0] == piece && pieces[1..] == rest;
    EmptyIsNeutral(PieceComponents(rest, false));
  }

  lemma {:induction false} PieceComponentsConcat(a: seq<string>, b: seq<string>, keepDot: bool)
    requires a != []
    ensures PieceComponents(a + b, keepDot) == PieceComponents(a, keepDot) + PieceComponents(b, false)
  {
    var first, rest := a[0], a[1..];
    assert a == [first] + rest;
    Associative([first], rest, b);
    PiecesOfCons(first, rest, keepDot);
    PiecesOfCons(first, rest + b, keepDot);
    if rest != [] {
      PieceComponentsConcat(rest, b, false);
    } else {
      EmptyIsNeutral(b);
      EmptyIsNeutral(PieceComponents(b, false));
    }
    Associative(FirstPiece(first, keepDot), PieceComponents(rest, false), PieceComponents(b, false));
  }

  /** The components of what follows a slash. */
  function After(b: string): seq<Component>
  {
    PieceComponents(Split(b, '/'), false)
  }

  lemma ComponentsOfSlash(a: string, b: string)
    requires a != ""
    ensures Components(a + "/" + b) == Components(a) + After(b)
  {
    assert a + "/" + b == a + ['/'] + b;
    SplitAppend(a, '/', b);
    PieceComponentsConcat(Split(a, '/'), Split(b, '/'), !HasRoot(a));
    if HasRoot(a) {
      Associative([RootDir], PieceComponents(Split(a, '/'), false), After(b));
    } else {
      EmptyIsNeutral(PieceComponents(Split(a, '/'), true));
      EmptyIsNeutral(PieceComponents(Split(a + "/" + b, '/'), true));
    }
  }

  lemma SlashLeads(a: string, b: string, d: Directory)
    requires a != ""
    ensures Denotation(a + "/" + b, d) == Walk(After(b), Denotation(a, d))
  {
    ComponentsOfSlash(a, b);
    WalkConcat(Components(a), After(b), d);
  }

  lemma ComponentsOfRooted(b: string)
    ensures Components("/" + b) == [RootDir] + After(b)
  {
    assert ("/" + b)[1..] == b;
    assert Split("/" + b, '/') == [""] + Split(b, '/');
    assert ([""] + Split(b, '/'))[1..] == Split(b, '/');
  }

  lemma RootLeads(b: string, d: Directory)
    ensures Denotation("/" + b, d) == Walk(After(b), [])
  {
    ComponentsOfRooted(b);
    WalkConcat([RootDir], After(b), d);
    assert Walk([RootDir], d) == StepInto(Walk([RootDir][..0], d), RootDir);
  }

  // ----- pieces -----

  /** Where one piece leads from a directory. */
  function StepBy(piece: string, at: seq<string>): seq<string>
  {
    if piece == "" || piece == "." then at
    else if piece == ".." then if at == [] then [] else at[..|at| - 1]
    else at + [piece]
  }

  lemma WalkOne(c: Component, d: seq<string>)
    ensures Walk([c], d) == StepInto(d, c)
  {
    assert [c][..0] == [];
  }

  lemma PieceLeads(piece: string, keepDot: bool, at: seq<string>)
    requires '/' !in piece
    ensures Walk(PieceComponents([piece], keepDot), at) == StepBy(piece, at)
  {
    assert [piece][1..] == [] && PieceComponents([], false) == [];
    match piece
    case "" =>
    case "." =>
      WalkOne(CurDir, at);
      assert PieceComponents([piece], keepDot) == if keepDot then [CurDir] else [];
    case ".." =>
      WalkOne(ParentDir, at);
      assert PieceComponents([piece], keepDot) == [ParentDir];
    case name =>
      WalkOne(Normal(name), at);
      assert PieceComponents([piece], keepDot) == [Normal(name)];
  }

  /**
    The last piece of a path, behind a text, behind the root or alone: an empty piece and a single dot
    lead nowhere else, two dots lead to the parent (or stay at the root), a name leads to that entry.
  */
  lemma LastPieceLeads(a: string, piece: string, d: Directory)
    requires '/' !in piece
    ensures a != "" ==> Denotation(a + "/" + piece, d) == StepBy(piece, Denotation(a, d))
    ensures Denotation("/" + piece, d) == StepBy(piece, [])
    ensures Denotation(piece, d) == StepBy(piece, d)
  {
    SplitOnePiece(piece, '/');
    if a != "" {
      SlashLeads(a, piece, d);
      PieceLeads(piece, false, Denotation(a, d));
    }
    RootLeads(piece, d);
    PieceLeads(piece, false, []);
    assert !HasRoot(piece);
    EmptyIsNeutral(PieceComponents([piece], true));
    PieceLeads(piece, true, d);
  }

  // ----- dots and slashes inside -----

  lemma AfterDotOrSlash(b: string)
    ensures After("./" + b) == After(b) && After("/" + b) == After(b)
  {
    SplitOnePiece(".", '/');
    SplitFirstPiece(".", '/', b);
    assert "./" + b == "." + ['/'] + b;
    assert (["."] + Split(b, '/'))[1..] == Split(b, '/');
    assert ("/" + b)[1..] == b;
    assert Split("/" + b, '/') == [""] + Split(b, '/');
    assert ([""] + Split(b, '/'))[1..] == Split(b, '/');
  }

  /** A single dot between slashes, and a second slash, change nothing. */
  lemma InnerDotsAndSlashes(a: string, b: string)
    requires a != ""
    ensures Equivalent(a + "/./" + b, a + "/" + b)
    ensures Equivalent(a + "//" + b, a + "/" + b)
  {
    AfterDotOrSlash(b);
    assert a + "/./" + b == a + "/" + ("./" + b);
    assert a + "//" + b == a + "/" + ("/" + b);
    forall d: Directory
      ensures Denotation(a + "/./" + b, d) == Denotation(a + "/" + b, d)
      ensures Denotation(a + "//" + b, d) == Denotation(a + "/" + b, d)
    {
      SlashLeads(a, b, d);
      SlashLeads(a, "./" + b, d);
      SlashLeads(a, "/" + b, d);
    }
  }

  /** So does a dot behind the root, or a second slash there. */
  lemma RootDotsAndSlashes(b: string)
    ensures Equivalent("/./" + b, "/" + b)
    ensures Equivalent("//" + b, "/" + b)
  {
    AfterDotOrSlash(b);
    assert "/./" + b == "/" + ("./" + b) && "//" + b == "/" + ("/" + b);
    forall d: Directory
      ensures Denotation("/./" + b, d) == Denotation("/" + b, d)
      ensures Denotation("//" + b, d) == Denotation("/" + b, d)
    {
      RootLeads(b, d);
      RootLeads("./" + b, d);
      RootLeads("/" + b, d);
    }
  }
}
