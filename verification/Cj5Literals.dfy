/** The characters and words of the notation against literals. */
module Cj5Literals {
  import Ascii
  import opened Cj5Spec
  import opened Cj5Build
  import opened Cj5Read
  import opened Cj5Write
  import opened Options

  /// Characters

  lemma DigitsAre(c: char)
    ensures IsDigit(c) <==> c in Ascii.DECIMAL
  {
    if c in Ascii.DECIMAL {
      var i :| 0 <= i < |Ascii.DECIMAL| && Ascii.DECIMAL[i] == c;
      Ascii.DigitsByNumber(i);
    }
    if IsDigit(c) {
      Ascii.DigitsByNumber(c as int - 48);
      assert Ascii.DECIMAL[c as int - 48] == c;
    }
  }

  predicate AreLetters(upper: char, lower: char) {
    exists i :: 0 <= i < 26 && Ascii.UPPER[i] == upper && Ascii.LOWER[i] == lower
  }

  lemma UpperAre(c: char)
    ensures c in Ascii.UPPER <==> 'A' <= c <= 'Z'
  {
    Ascii.LettersByNumber(0);
    if c in Ascii.UPPER {
      var i :| 0 <= i < |Ascii.UPPER| && Ascii.UPPER[i] == c;
      Ascii.LettersByNumber(i);
    }
    if 'A' <= c <= 'Z' {
      Ascii.LettersByNumber(c as int - 65);
      assert Ascii.UPPER[c as int - 65] == c;
    }
  }

  lemma LowerAre(c: char)
    ensures c in Ascii.LOWER <==> 'a' <= c <= 'z'
  {
    Ascii.LettersByNumber(0);
    if c in Ascii.LOWER {
      var i :| 0 <= i < |Ascii.LOWER| && Ascii.LOWER[i] == c;
      Ascii.LettersByNumber(i);
    }
    if 'a' <= c <= 'z' {
      Ascii.LettersByNumber(c as int - 97);
      assert Ascii.LOWER[c as int - 97] == c;
    }
  }

  /** The classes of characters, each against its literal. */
  lemma ClassesAre(c: char)
    ensures IsQuote(c) <==> c in "\"'"
    ensures IsNumberChar(c) <==> c in Ascii.DECIMAL || c in Ascii.UPPER || c in Ascii.LOWER || c in ".+-"
    ensures IsKeyStart(c) <==> c in Ascii.UPPER || c in Ascii.LOWER || c in "_$"
    ensures IsNameChar(c) <==> c in Ascii.DECIMAL || c in Ascii.UPPER || c in Ascii.LOWER || c in "_$"
  {
    DigitsAre(c);
    UpperAre(c);
    LowerAre(c);
  }

  lemma CasesAre(upper: char, lower: char)
    ensures AreLetters(upper, lower) ==> upper as int + 32 == lower as int
    ensures 'a' <= lower <= 'z' && upper as int + 32 == lower as int ==> AreLetters(upper, lower)
  {
    if AreLetters(upper, lower) {
      var i :| 0 <= i < 26 && Ascii.UPPER[i] == upper && Ascii.LOWER[i] == lower;
      Ascii.LettersByNumber(i);
    }
    if 'a' <= lower <= 'z' && upper as int + 32 == lower as int {
      var i := lower as int - 97;
      Ascii.LettersByNumber(i);
      assert Ascii.UPPER[i] == upper;
    }
  }

  /** A letter is taken for the lower case one or for the upper case one in the same place. */
  lemma SameIs(c: char, lower: char)
    requires lower in Ascii.LOWER
    ensures 'a' <= lower <= 'z' && (Same(c, lower) <==> c == lower || AreLetters(c, lower))
  {
    hide AreLetters;
    LowerAre(lower);
    CasesAre(c, lower);
  }

  /// Words

  /** The text is the word, in upper and lower case letters. */
  ghost predicate Spells(t: string, word: string) {
    |t| == |word| && forall i :: 0 <= i < |word| ==> t[i] == word[i] || AreLetters(t[i], word[i])
  }

  lemma WordIs(t: string, word: string)
    requires IsLower(word)
    ensures IsWord(t, 0, word) <==> |word| <= |t| && Spells(t[..|word|], word)
  {
    hide AreLetters, Same;
    if |word| <= |t| {
      forall i | 0 <= i < |word|
        ensures Same(t[0 + i], word[i]) <==> t[..|word|][i] == word[i] || AreLetters(t[..|word|][i], word[i])
      {
        LowerAre(word[i]);
        SameIs(t[i], word[i]);
      }
    }
  }

  lemma WholeWordIs(t: string, word: string)
    requires IsLower(word)
    ensures |t| == |word| && IsWord(t, 0, word) <==> Spells(t, word)
  {
    WordIs(t, word);
    assert |t| == |word| ==> t[..|word|] == t;
    hide AreLetters, IsWord;
  }

  /** Which texts are words, and which are numbers. */
  lemma AtomsAre(t: string)
    ensures IsAtom(Null, t) <==> Spells(t, "null")
    ensures IsAtom(Bool, t) <==> Spells(t, "true") || Spells(t, "false")
    ensures IsAtom(Number, t) <==>
              && t != "" && (forall i :: 0 <= i < |t| ==> IsNumberChar(t[i]))
              && (|t| >= 4 ==> !Spells(t[..4], "null") && !Spells(t[..4], "true") && !Spells(t[..4], "fals"))
  {
    hide Spells, IsWord, IsNumberChar;
    WholeWordIs(t, "null");
    WholeWordIs(t, "true");
    WholeWordIs(t, "false");
    WordIs(t, "null");
    WordIs(t, "true");
    WordIs(t, "fals");
  }

  lemma SpellsLength(t: string, word: string)
    ensures Spells(t, word) ==> |t| == |word|
  {
  }

  /// Texts

  lemma AloneReads(j: Json)
    requires Writable(j) && Depth(j) < MAX_NESTING
    ensures Read(Text(j)) == Some(ValueAt(j, 0))
  {
    hide Writable, Depth, Text, ValueAt, Read;
    WrittenIsRead([], j, [], "");
    assert Document([], j, [], "") == Text(j);
  }

  lemma AtomReads(kind: Kind, t: string)
    requires IsAtom(kind, t)
    ensures Read(t) == Some(ValueAt(Atom(kind, t), 0))
  {
    hide IsAtom, Read;
    AloneReads(Atom(kind, t));
  }

  /** A text of one word or number reads as one value of its kind that spans the text. */
  lemma WordsAreRead(t: string)
    ensures Spells(t, "null") ==> Read(t) == Some(Leaf(Null, 0, 3))
    ensures Spells(t, "true") ==> Read(t) == Some(Leaf(Bool, 0, 3))
    ensures Spells(t, "false") ==> Read(t) == Some(Leaf(Bool, 0, 4))
    ensures IsAtom(Number, t) ==> Read(t) == Some(Leaf(Number, 0, |t| - 1))
  {
    hide Read, Spells, IsAtom;
    AtomsAre(t);
    SpellsLength(t, "null");
    SpellsLength(t, "true");
    SpellsLength(t, "false");
    if IsAtom(Null, t) { AtomReads(Null, t); }
    if IsAtom(Bool, t) { AtomReads(Bool, t); }
    if IsAtom(Number, t) { AtomReads(Number, t); }
  }

  function Mark(c: char): string {
    if c in "\"\\\n" then ['\\', c] else [c]
  }

  /** Any text with a backslash before each quote, backslash and line feed. */
  function Escaped(t: string): string {
    if t == "" then "" else Mark(t[0]) + Escaped(t[1..])
  }

  function InQuotes(t: string): string {
    "\"" + (Escaped(t) + "\"")
  }

  lemma MarkStep(s: string, p: nat, c: char)
    requires Holds(s, p, Mark(c))
    ensures StringEnd(s, p, '\"') == StringEnd(s, p + |Mark(c)|, '\"')
  {
    HoldsAt(s, p, Mark(c), 0);
  }

  lemma {:induction false} EscapedEnds(s: string, p: nat, t: string)
    requires Holds(s, p, Escaped(t)) && p + |Escaped(t)| < |s| && s[p + |Escaped(t)|] == '\"'
    ensures StringEnd(s, p, '\"') == Some(p + |Escaped(t)|)
    decreases |t|
  {
    hide Holds, Mark;
    if t == "" {
      assert StringEnd(s, p, '\"') == Some(p);
    } else {
      hide StringEnd;
      HoldsParts(s, p, Mark(t[0]), Escaped(t[1..]));
      MarkStep(s, p, t[0]);
      EscapedEnds(s, p + |Mark(t[0])|, t[1..]);
    }
  }

  /** Every text, escaped and in quotes, reads as one string that spans what is between the quotes. */
  lemma StringsAreRead(t: string)
    ensures Read(InQuotes(t)) == Some(Leaf(String, 1, |Escaped(t)|))
  {
    hide Read, Escaped, StringEnd;
    var s := InQuotes(t);
    assert s[1..1 + |Escaped(t)|] == Escaped(t);
    EscapedEnds(s, 1, t);
    AtomReads(String, s);
  }

  function Plain(key: Option<Key>, value: Json): Member {
    Member([], key, value, [])
  }

  lemma EmptyIsRead()
    ensures Read("{}") == Some(Tree(Object, 0, 1, []))
    ensures Read("[]") == Some(Tree(Array, 0, 1, []))
  {
    hide Read;
    AloneReads(Node(Object, [], false, []));
    AloneReads(Node(Array, [], false, []));
    assert Text(Node(Object, [], false, [])) == "{}";
    assert Text(Node(Array, [], false, [])) == "[]";
  }

  lemma OneMember(kind: Kind, m: Member)
    requires m.value.Atom? && MemberWritable(kind, m) && (kind == Object || kind == Array)
    ensures var j := Node(kind, [m], false, []); Writable(j) && Depth(j) < MAX_NESTING
    ensures MembersText([m], false) == MemberText(m) && (forall p: nat :: Children([m], p, false) == MemberValues(m, p))
  {
    hide MemberWritable, MemberText, MemberValues;
    var ms := [m];
    assert ms[0] == m && ms[1..] == [];
    assert AllWritable(kind, ms[1..]);
    assert AllWritable(kind, ms);
    assert DepthAll(ms) == 0;
    assert MembersText(ms[1..], false) == "";
  }

  /** An object with one member. */
  lemma PairIsRead(k: string, kind: Kind, t: string)
    requires (IsQuotedText(k) || IsName(k)) && IsAtom(kind, t)
    ensures Read("{" + (k + (":" + t) + "}"))
            == Some(Tree(Object, 0, |k| + |t| + 2, [StringLeaf(k, 1), ValueAt(Atom(kind, t), |k| + 2)]))
  {
    hide Read, IsQuotedText, IsName, IsAtom, StringLeaf;
    var m := Plain(Some(Key(k, [], [])), Atom(kind, t));
    var j := Node(Object, [m], false, []);
    OneMember(Object, m);
    assert MemberText(m) == k + (":" + t);
    assert KeyText(m.key) == k + ":";
    assert MemberValues(m, 1) == [StringLeaf(k, 1), ValueAt(Atom(kind, t), |k| + 2)];
    hide MemberText, MembersText, Children, MemberValues, Writable, Depth;
    assert Text(j) == "{" + (k + (":" + t) + "}");
    AloneReads(j);
  }

  lemma TwoMembers(m: Member, n: Member)
    requires m.value.Atom? && MemberWritable(Array, m) && n.value.Atom? && MemberWritable(Array, n)
    ensures var j := Node(Array, [m, n], false, []); Writable(j) && Depth(j) < MAX_NESTING
    ensures MembersText([m, n], false) == MemberText(m) + ("," + MemberText(n))
    ensures Children([m, n], 1, false) == MemberValues(m, 1) + MemberValues(n, |MemberText(m)| + 2)
  {
    hide MemberWritable, MemberText, MemberValues;
    OneMember(Array, n);
    var ms := [m, n];
    assert ms[0] == m && ms[1..] == [n];
    assert AllWritable(Array, [n]) by { assert Writable(Node(Array, [n], false, [])); }
    assert AllWritable(Array, ms);
    assert DepthAll([n]) == 0 by { assert [n][1..] == []; }
    assert DepthAll(ms) == 0;
    assert Comma(ms, false) == ",";
  }

  /** An array with two elements. */
  lemma ListIsRead(kind: Kind, t: string, kind': Kind, u: string)
    requires IsAtom(kind, t) && IsAtom(kind', u)
    ensures Read("[" + (t + ("," + u) + "]"))
            == Some(Tree(Array, 0, |t| + |u| + 2, [ValueAt(Atom(kind, t), 1), ValueAt(Atom(kind', u), |t| + 2)]))
  {
    hide Read, IsAtom;
    var m, n := Plain(None, Atom(kind, t)), Plain(None, Atom(kind', u));
    var j := Node(Array, [m, n], false, []);
    TwoMembers(m, n);
    assert MemberText(m) == t && MemberText(n) == u;
    assert MemberValues(m, 1) == [ValueAt(Atom(kind, t), 1)];
    assert MemberValues(n, |t| + 2) == [ValueAt(Atom(kind', u), |t| + 2)];
    assert Children([m, n], 1, false) == [ValueAt(Atom(kind, t), 1), ValueAt(Atom(kind', u), |t| + 2)];
    hide MemberText, MembersText, Children, MemberValues, Writable, Depth;
    assert Text(j) == "[" + (t + ("," + u) + "]");
    AloneReads(j);
  }
}
