// The expressions of the sweep written out, part by part and byte by byte, and what their captures render to.

module FnPtrWritten {
  import opened Wrappers
  import opened Chars
  import opened JsRegex
  import opened FnPtrPatterns
  import opened FnPtrSearch
  import opened FnPtrTypedefs
  import opened FnPtrSkeletons
  import opened FnPtrInitializers
  import opened FnPtrDispatch
  import opened FnPtrMacros
  import opened StructFields
  import opened InlineStructs

  // ---------------------------------------------------------------- the parts

  function Byte1(b: Byte): Regex { Atom(OneOf({b})) }

  function Any(a: Regex): Regex { Star(a, true) }

  function Many(a: Regex): Regex { Cat(a, Star(a, true)) }

  function Maybe(a: Regex): Regex { Alt(a, Empty) }

  function Then(a: Regex, b: Regex): Regex { Cat(a, b) }

  const S: Regex := Star(Atom(Space), true)                        // \s*
  const S1: Regex := Cat(Atom(Space), Star(Atom(Space), true))     // \s+
  const W1: Regex := Cat(Atom(Word), Star(Atom(Word), true))       // \w+
  const T: Regex := Star(Atom(OneOf({0x20, 0x09})), true)          // [ \t]*
  const T1: Regex := Cat(Atom(OneOf({0x20, 0x09})), T)             // [ \t]+

  function Literal(w: string): Regex
    requires forall k :: 0 <= k < |w| ==> w[k] < 128 as char
  {
    Atom(Lit(Ascii(w)))
  }

  /** `\w` is a digit, a letter or the underscore. */
  lemma WordBytes(s: Text, i: nat)
    requires i < |s|
    ensures Width(Word, s, i)
         == if 0x30 <= s[i] <= 0x39 || 0x41 <= s[i] <= 0x5A || 0x61 <= s[i] <= 0x7A || s[i] == 0x5F then 1 else 0
  {}

  /** The UTF-8 form of a code point of the basic plane. */
  function Encoded(cp: nat): Text
    requires cp < 0x10000
  {
    if cp < 0x80 then [cp]
    else if cp < 0x800 then [0xC0 + cp / 64, 0x80 + cp % 64]
    else [0xE0 + cp / 4096, 0x80 + cp / 64 % 64, 0x80 + cp % 64]
  }

  /** White space and line terminators of ECMAScript. */
  predicate WhiteSpace(cp: nat) {
    || 0x09 <= cp <= 0x0D || cp == 0x20 || cp == 0xA0 || cp == 0x1680 || 0x2000 <= cp <= 0x200A
    || cp == 0x2028 || cp == 0x2029 || cp == 0x202F || cp == 0x205F || cp == 0x3000 || cp == 0xFEFF
  }

  /** `\s` takes these characters, whole, and no other of the basic plane. */
  lemma SpaceCharacters(cp: nat, rest: Text)
    requires cp < 0x10000
    ensures Width(Space, Encoded(cp) + rest, 0) == if WhiteSpace(cp) then |Encoded(cp)| else 0
  {
    var s := Encoded(cp) + rest;
    assert forall k :: 0 <= k < |Encoded(cp)| ==> s[k] == Encoded(cp)[k];
  }

  // ---------------------------------------------------------------- typedefs

  /** `\(\s*(?:\w+\s+)*\*\s*(\w+)\s*\)\s*\(` and `\btypedef\b[^;{}]*?` before it; `\btypedef\b([^;{}]*);` and `\b(\w+)\s*\(`. */
  lemma TypedefPatterns()
    ensures PAREN_TAIL ==
      Do(Byte1(0x28), Do(S, Do(Any(Then(W1, S1)), Do(Byte1(0x2A), Do(S, Do(Cap(1, W1),
      Do(S, Do(Byte1(0x29), Do(S, Do(Byte1(0x28), Done))))))))))
    ensures FNPTR_TYPEDEF ==
      Do(Boundary, Do(Literal("typedef"), Do(Boundary, Do(Star(Atom(NoneOf({0x3B, 0x7B, 0x7D})), false), PAREN_TAIL))))
    ensures FNTYPE_TYPEDEF ==
      Do(Boundary, Do(Literal("typedef"), Do(Boundary, Do(Cap(1, Any(Atom(NoneOf({0x3B, 0x7B, 0x7D})))), Do(Byte1(0x3B), Done)))))
    ensures CALLED_NAME == Do(Boundary, Do(Cap(1, W1), Do(S, Do(Byte1(0x28), Done))))
  {}

  /** A function type's names: the first called name, unless the statement holds `(*` or `( *`, or the name is a C word. */
  lemma TypeNamesAre(guts: Text)
    ensures TypeNames(guts) ==
      var f := Find(CALLED_NAME, guts, 0);
      if Contains(guts, Ascii("(*")) || Contains(guts, Ascii("( *")) || f.None? then []
      else if Group(guts, f.value.hit, 1) in C_WORDS then []
      else [Group(guts, f.value.hit, 1)]
  {}

  const C_WORDS: seq<Text> := [
    Ascii("void"), Ascii("int"), Ascii("char"), Ascii("short"), Ascii("long"), Ascii("unsigned"), Ascii("signed"),
    Ascii("float"), Ascii("double"), Ascii("const"), Ascii("struct"), Ascii("union"), Ascii("enum"), Ascii("static"),
    Ascii("volatile"), Ascii("register"), Ascii("inline")]

  // ---------------------------------------------------------------- initializers and tables

  /** `(?:(?:static|const|extern|register|volatile)\s+)*` */
  const MODIFIED: Regex :=
    Any(Then(Alt(Literal("static"), Alt(Literal("const"), Alt(Literal("extern"), Alt(Literal("register"), Literal("volatile"))))), S1))

  /** `\[[^\]]*\]` */
  const BRACKETED: Regex := Then(Byte1(0x5B), Then(Any(Atom(NoneOf({0x5D}))), Byte1(0x5D)))

  /** `\s*=\s*\{` */
  const EQUALS_BRACE: Cont := Do(S, Do(Byte1(0x3D), Do(S, Do(Byte1(0x7B), Done))))

  /**
   * `\s*(?:MODIFIERS\s+)*(?:(?:struct|union)\s+)?(\w+)\s+(\w+)\s*(\[[^\]]*\])?\s*=\s*\{` reports group 1;
   * `\s*(?:MODIFIERS\s+)*(\w+)\s+(\*\s*)?(\w+)\s*\[[^\]]*\]\s*=\s*\{` reports group 1, after a star if group 2
   * took part; both stand at the start or after `;`, `{` or `}`.
   */
  lemma InitializerPatterns(s: Text, h: Hit, k: Cont)
    ensures INIT_BODY ==
      Do(S, Do(MODIFIED, Do(Maybe(Then(Alt(Literal("struct"), Literal("union")), S1)), Do(Cap(1, W1), Do(S1, Do(Cap(2, W1),
      Do(S, Do(Maybe(Cap(3, BRACKETED)), EQUALS_BRACE))))))))
    ensures TABLE_BODY ==
      Do(S, Do(MODIFIED, Do(Cap(1, W1), Do(S1, Do(Maybe(Cap(2, Then(Byte1(0x2A), S))), Do(Cap(3, W1),
      Do(S, Do(BRACKETED, EQUALS_BRACE))))))))
    ensures Initializer.Body() == INIT_BODY && ArrayTable.Body() == TABLE_BODY
    ensures Anchored(k) == Do(Alt(Begin, Atom(OneOf({0x3B, 0x7B, 0x7D}))), k)
    ensures Initializer.Render()(s, h) == [Group(s, h, 1)]
    ensures ArrayTable.Render()(s, h) == [(if 2 in h.caps then [0x2A] else []) + Group(s, h, 1)]
  {
    AltSteps(MODIFIERS);
    AltSteps(MODIFIERS[1..]);
    AltSteps(MODIFIERS[2..]);
    AltSteps(MODIFIERS[3..]);
    AltSteps(MODIFIERS[4..]);
    assert MODIFIERS[1..][1..] == MODIFIERS[2..] && MODIFIERS[2..][1..] == MODIFIERS[3..];
    assert MODIFIERS[3..][1..] == MODIFIERS[4..];
  }

  lemma AltSteps(words: seq<Text>)
    requires words != []
    ensures AltOf(words) == if |words| == 1 then Atom(Lit(words[0])) else Alt(Atom(Lit(words[0])), AltOf(words[1..]))
  {}

  // ---------------------------------------------------------------- assignments and dispatches

  /** `->|\.` */
  const ACCESS: Regex := Alt(Atom(Lit([0x2D, 0x3E])), Byte1(0x2E))

  /** `\s*\)?\s*\(` */
  const CALLS: Cont := Do(S, Do(Maybe(Byte1(0x29)), Do(S, Do(Byte1(0x28), Done))))

  /** `\[[^\]\[]*\]` */
  const INDEX: Regex := Then(Byte1(0x5B), Then(Any(Atom(NoneOf({0x5D, 0x5B}))), Byte1(0x5D)))

  /**
   * `(\w+)\s*(?:->|\.)\s*(\w+)\s*=\s*(\w+)\s*(?:->|\.)\s*(\w+)` reports groups 2 and 4;
   * `((?:\w+(?:\s*INDEX)?\s*(?:->|\.)\s*)+)(\w+)\s*\)?\s*\(` reports group 2; and
   * `(?:\(\s*\*\s*)?\b(\w+)\s*INDEX\s*\)?\s*\(` reports group 1.
   */
  lemma DispatchPatterns(s: Text, h: Hit)
    ensures FIELD_ASSIGN ==
      Do(Cap(1, W1), Do(S, Do(ACCESS, Do(S, Do(Cap(2, W1), Do(S, Do(Byte1(0x3D), Do(S, Do(Cap(3, W1),
      Do(S, Do(ACCESS, Do(S, Do(Cap(4, W1), Done)))))))))))))
    ensures DISPATCH ==
      Do(Cap(1, Many(Then(W1, Then(Maybe(Then(S, INDEX)), Then(S, Then(ACCESS, S)))))), Do(Cap(2, W1), CALLS))
    ensures ARRAY_DISPATCH ==
      Do(Maybe(Then(Byte1(0x28), Then(S, Then(Byte1(0x2A), S)))), Do(Boundary, Do(Cap(1, W1), Do(S, Do(INDEX, CALLS)))))
    ensures FieldPair(s, h) == [Group(s, h, 2) + [0] + Group(s, h, 4)]
    ensures SecondGroup(s, h) == [Group(s, h, 2)] && FirstGroup(s, h) == [Group(s, h, 1)]
  {}

  // ---------------------------------------------------------------- preprocessor lines

  predicate StartsName(b: Byte) { 0x41 <= b <= 0x5A || 0x61 <= b <= 0x7A || b == 0x5F }

  /** `[A-Za-z_]` */
  const NAME_STARTS: set<Byte> := set b: Byte | 0 <= b < 256 && StartsName(b)

  /**
   * `^[ \t]*#[ \t]*define[ \t]+(\w+)[ \t]+(?:(?:struct|union)[ \t]+)*[A-Za-z_]\w*[ \t\r]*$`;
   * `#[ \t]*include[ \t]+"([^"\n]+)"`; and `\\\r?\n`, which joins lines.
   */
  lemma LinePatterns()
    ensures ALIAS_LINE ==
      Do(Begin, Do(T, Do(Byte1(0x23), Do(T, Do(Literal("define"), Do(T1, Do(Cap(1, W1), Do(T1,
      Do(Any(Then(Alt(Literal("struct"), Literal("union")), T1)),
      Do(Atom(OneOf(NAME_STARTS)), Do(Any(Atom(Word)),
      Do(Any(Atom(OneOf({0x20, 0x09, 0x0D}))), Do(End, Done)))))))))))))
    ensures INCLUDE_DIRECTIVE ==
      Do(Byte1(0x23), Do(T, Do(Literal("include"), Do(T1, Do(Byte1(0x22), Do(Cap(1, Many(Atom(NoneOf({0x22, 0x0A})))),
      Do(Byte1(0x22), Done)))))))
    ensures CONTINUATION == Do(Byte1(0x5C), Do(Maybe(Byte1(0x0D)), Do(Byte1(0x0A), Done)))
  {
    assert LETTERS == NAME_STARTS;
    AltSteps(TAGS);
  }

  // ---------------------------------------------------------------- struct bodies

  /** `(\w+)\s+\**\s*(\w+)\s*$`, `^\**\s*(\w+)` and `\b(?:struct|union)\s+(\w+)\s*\{`. */
  lemma StructPatterns()
    ensures TYPED == Do(Cap(1, W1), Do(S1, Do(Any(Byte1(0x2A)), Do(S, Do(Cap(2, W1), Do(S, Do(End, Done)))))))
    ensures LATER_NAME == Do(Begin, Do(Any(Byte1(0x2A)), Do(S, Do(Cap(1, W1), Done))))
    ensures INLINE_HEAD ==
      Do(Boundary, Do(Alt(Literal("struct"), Literal("union")), Do(S1, Do(Cap(1, W1), Do(S, Do(Byte1(0x7B), Done))))))
    ensures COMMA == 0x2C && SEMICOLON == 0x3B
  {}
}
