/** White space in UTF-8: what a skill file is trimmed of agrees with the characters that are white space. */
module SkillText {
  import opened RustText
  import opened Frontmatter
  import opened SkillSlug

  /** The bytes of a character in UTF-8. */
  function Encode(c: char): (bytes: Bytes)
    ensures 1 <= |bytes| <= 4
  {
    var n := c as int;
    if n < 0x80 then [n]
    else if n < 0x800 then [0xC0 + n / 0x40, 0x80 + n % 0x40]
    else if n < 0x10000 then [0xE0 + n / 0x1000, 0x80 + n / 0x40 % 0x40, 0x80 + n % 0x40]
    else [0xF0 + n / 0x40000, 0x80 + n / 0x1000 % 0x40, 0x80 + n / 0x40 % 0x40, 0x80 + n % 0x40]
  }

  function EncodeAll(s: string): Bytes
  {
    if s == "" then [] else Encode(s[0]) + EncodeAll(s[1..])
  }

  lemma ShortSpace(c: char, rest: Bytes)
    requires (c as int) < 0x800
    ensures SpaceLength(Encode(c) + rest) == if IsSpace(c) then |Encode(c)| else 0
  {
  }

  lemma LongSpace(c: char, rest: Bytes)
    requires (c as int) >= 0x800
    ensures SpaceLength(Encode(c) + rest) == if IsSpace(c) then |Encode(c)| else 0
  {
    var n := c as int;
    assert n == n / 0x1000 * 0x1000 + n / 0x40 % 0x40 * 0x40 + n % 0x40;
  }

  /** The first character of a text is white space for the one exactly when it is for the other. */
  lemma SpaceLengthExactly(c: char, rest: Bytes)
    ensures SpaceLength(Encode(c) + rest) == if IsSpace(c) then |Encode(c)| else 0
  {
    if (c as int) < 0x800 {
      ShortSpace(c, rest);
    } else {
      LongSpace(c, rest);
    }
  }

  /** Of a text, exactly the white space at its start is trimmed. */
  lemma {:induction false} TrimsSpace(space: string, s: string)
    requires (forall c :: c in space ==> IsSpace(c)) && (s == "" || !IsSpace(s[0]))
    ensures SpacePrefix(EncodeAll(space) + EncodeAll(s)) == |EncodeAll(space)|
  {
    var text := EncodeAll(space) + EncodeAll(s);
    if space == "" {
      assert text == EncodeAll(s);
      if s != "" {
        SpaceLengthExactly(s[0], EncodeAll(s[1..]));
      }
    } else {
      var first, rest := Encode(space[0]), EncodeAll(space[1..]) + EncodeAll(s);
      assert text == first + rest && space[0] in space;
      SpaceLengthExactly(space[0], rest);
      TrimsSpace(space[1..], s);
      assert text[|first|..] == rest;
    }
  }

  // ----- marks and lengths -----

  /** The bytes of the marks are those of the dash, the line break and the carriage return. */
  lemma MarksAre()
    ensures DASHES == EncodeAll("---") && [NEWLINE] == EncodeAll("\n") && [RETURN, NEWLINE] == EncodeAll("\r\n")
  {
    assert "---"[1..] == "--" && "--"[1..] == "-" && "-"[1..] == "" && "\n"[1..] == "" && "\r\n"[1..] == "\n";
    assert EncodeAll("") == [] && EncodeAll("-") == [45] && EncodeAll("--") == [45, 45];
    assert EncodeAll("\n") == [10];
  }

  lemma {:induction false} ByteLengthIs(s: string)
    ensures ByteLength(s) == |EncodeAll(s)|
  {
    if s != "" {
      ByteLengthIs(s[1..]);
    }
  }

  /** Which rule a name breaks first: it is empty, longer than 64 bytes, has a dash at an end, or another character. */
  lemma NameErrorsExactly(name: string)
    ensures ValidateName(name) ==
            if name == "" then EmptyName
            else if |EncodeAll(name)| > 64 then TooLong
            else if name[0] == '-' || name[|name| - 1] == '-' then EdgeHyphen
            else if exists c :: c in name && !IsNameChar(c) then BadCharacter
            else Valid
  {
    ByteLengthIs(name);
  }
}
