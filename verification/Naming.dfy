/** The generator's names: how an interface name becomes the key of the dispatch maps, and when keys collide. */
module Naming {
  predicate IsUpper(c: char) {
    'A' <= c <= 'Z'
  }

  function Lower(c: char): char {
    if IsUpper(c) then c - 'A' + 'a' else c
  }

  function Upper(c: char): char {
    if 'a' <= c <= 'z' then c - 'a' + 'A' else c
  }

  predicate IsBlank(c: char) {
    c == ' ' || '\t' <= c <= '\r' || (28 as char) <= c <= (31 as char)
  }

  /** The blanks among the first 128 characters, by their codes. */
  lemma Blanks(c: char)
    ensures IsBlank(c) <==> c as int in {9, 10, 11, 12, 13, 28, 29, 30, 31, 32}
  {
  }

  predicate NoBlank(s: string) {
    forall i :: 0 <= i < |s| ==> !IsBlank(s[i])
  }

  function LowerAll(s: string): (r: string)
    ensures |r| == |s| && forall i :: 0 <= i < |s| ==> r[i] == Lower(s[i])
  {
    seq(|s|, i requires 0 <= i < |s| => Lower(s[i]))
  }

  function Capitals(): string {
    "ABCDEFGHIJKLMNOPQRSTUVWXYZ"
  }

  function SmallLetters(): string {
    "abcdefghijklmnopqrstuvwxyz"
  }

  lemma Codes(i: nat)
    requires i < 26
    ensures |Capitals()| == |SmallLetters()| == 26
    ensures Capitals()[i] as int == 65 + i && SmallLetters()[i] as int == 97 + i
  {
  }

  /** The capitals are those of the alphabet, each with its small letter; every other character stands for itself. */
  lemma Alphabet(c: char)
    ensures |Capitals()| == |SmallLetters()| == 26
    ensures forall i :: 0 <= i < 26 ==>
              Lower(Capitals()[i]) == SmallLetters()[i] && Upper(SmallLetters()[i]) == Capitals()[i]
    ensures IsUpper(c) <==> c in Capitals()
    ensures IsUpper(c) || Lower(c) == c
    ensures c in SmallLetters() || Upper(c) == c
  {
    hide Capitals, SmallLetters;
    Codes(0);
    forall i | 0 <= i < 26 ensures Capitals()[i] as int == 65 + i && SmallLetters()[i] as int == 97 + i {
      Codes(i);
    }
    if IsUpper(c) {
      assert Capitals()[c as int - 65] == c;
    }
    if 'a' <= c <= 'z' {
      assert SmallLetters()[c as int - 97] == c;
    }
  }

  // ----- The steps of the generator -----

  /** Capitals that follow a capital become small letters. */
  function Collapsed(s: string, lastUpper: bool): (r: string)
    ensures |r| == |s|
  {
    if s == [] then []
    else [if IsUpper(s[0]) && lastUpper then Lower(s[0]) else s[0]] + Collapsed(s[1..], IsUpper(s[0]))
  }

  /** `re.sub`: a space before each capital. */
  function Spaced(s: string): string {
    if s == [] then [] else (if IsUpper(s[0]) then [' ', s[0]] else [s[0]]) + Spaced(s[1..])
  }

  function SkipBlanks(s: string): (r: string)
    ensures |r| <= |s|
    ensures r != [] ==> !IsBlank(r[0])
  {
    if s != [] && IsBlank(s[0]) then SkipBlanks(s[1..]) else s
  }

  /** The length of the word at the front. */
  function WordLength(s: string): (n: nat)
    ensures n <= |s|
  {
    if s == [] || IsBlank(s[0]) then 0 else 1 + WordLength(s[1..])
  }

  /** `str.split` without an argument. */
  function Words(s: string): seq<string>
    decreases |s|
  {
    var t := SkipBlanks(s);
    if t == [] then [] else [t[..WordLength(t)]] + Words(t[WordLength(t)..])
  }

  function JoinLowered(words: seq<string>): string {
    if words == [] then []
    else if |words| == 1 then LowerAll(words[0])
    else LowerAll(words[0]) + "_" + JoinLowered(words[1..])
  }

  // ----- The specification -----

  /** The characters after the first: an underscore before each run of capitals, and everything small. */
  function Marked(s: string, lastUpper: bool): string {
    if s == [] then []
    else (if IsUpper(s[0]) && !lastUpper then "_" else "") + [Lower(s[0])] + Marked(s[1..], IsUpper(s[0]))
  }

  function Lowercased(name: string): string {
    if name == [] then [] else [Lower(name[0])] + Marked(name[1..], IsUpper(name[0]))
  }

  /** `get_lowercased_name`. The loop walks over the original name while the name is being rewritten. */
  method GetLowercasedName(name: string) returns (lowercased: string)
    ensures lowercased == JoinLowered(Words(Spaced(Collapsed(name, false))))
    ensures NoBlank(name) ==> lowercased == Lowercased(name)
  {
    hide Lowercased, Words, Spaced, JoinLowered, Collapsed, Lower, NoBlank;
    var current := name;
    var lastUpper := false;
    assert current[..0] + Collapsed(name[0..], false) == Collapsed(name, false) by {
      assert name[0..] == name;
    }
    for i := 0 to |name|
      invariant |current| == |name|
      invariant lastUpper <==> i > 0 && IsUpper(name[i - 1])
      invariant current[i..] == name[i..]
      invariant current[..i] + Collapsed(name[i..], lastUpper) == Collapsed(name, false)
    {
      var c := name[i];
      CollapsedNext(current[..i], name[i..], lastUpper);
      assert name[i..][1..] == name[i + 1..];
      assert current[i] == current[i..][0] == c;
      ghost var before := current;
      if IsUpper(c) {
        if lastUpper {
          current := current[..i] + [Lower(c)] + current[i + 1..];
        }
        lastUpper := true;
      } else {
        lastUpper := false;
      }
      assert current[..i + 1] == before[..i] + [current[i]];
      assert current[i + 1..] == before[i..][1..];
    }
    CollapsedEnd(current[..|name|], lastUpper);
    assert name[|name|..] == [] && current[..|name|] == current;
    var words := Words(Spaced(current));
    lowercased := JoinLowered(words);
    if NoBlank(name) {
      CollapsedNoBlank(name, false);
      JoinIsSnake(current);
      MarkCollapsed(name);
    }
  }

  // ----- Why the steps amount to the specification -----

  lemma CollapsedNext(before: string, s: string, lastUpper: bool)
    requires s != []
    ensures before + Collapsed(s, lastUpper)
         == before + [if IsUpper(s[0]) && lastUpper then Lower(s[0]) else s[0]] + Collapsed(s[1..], IsUpper(s[0]))
  {
  }

  lemma CollapsedEnd(before: string, lastUpper: bool)
    ensures before + Collapsed([], lastUpper) == before
  {
  }

  /** An underscore before each capital, and everything small. */
  function Mark(s: string): string {
    if s == [] then [] else (if IsUpper(s[0]) then "_" else "") + [Lower(s[0])] + Mark(s[1..])
  }

  function Snake(s: string): string {
    if s == [] then [] else [Lower(s[0])] + Mark(s[1..])
  }

  lemma {:induction false} MarkIsMarked(s: string, lastUpper: bool)
    ensures Mark(Collapsed(s, lastUpper)) == Marked(s, lastUpper)
  {
    if s == [] {
    } else {
      MarkIsMarked(s[1..], IsUpper(s[0]));
      assert Collapsed(s, lastUpper)[1..] == Collapsed(s[1..], IsUpper(s[0]));
    }
  }

  lemma MarkCollapsed(name: string)
    ensures Snake(Collapsed(name, false)) == Lowercased(name)
  {
    if name != [] {
      hide Mark, Marked, Lower;
      MarkIsMarked(name[1..], IsUpper(name[0]));
      var collapsed := Collapsed(name, false);
      assert collapsed == [name[0]] + Collapsed(name[1..], IsUpper(name[0]));
      assert collapsed[1..] == Collapsed(name[1..], IsUpper(name[0]));
    }
  }

  lemma {:induction false} CollapsedNoBlank(s: string, lastUpper: bool)
    requires NoBlank(s)
    ensures NoBlank(Collapsed(s, lastUpper))
  {
    if s == [] {
    } else {
      CollapsedNoBlank(s[1..], IsUpper(s[0]));
    }
  }

  /** The number of characters before the first capital. */
  function Stretch(s: string): (n: nat)
    ensures n <= |s|
    ensures n < |s| ==> IsUpper(s[n])
    ensures forall i :: 0 <= i < n ==> !IsUpper(s[i])
  {
    if s == [] || IsUpper(s[0]) then 0 else 1 + Stretch(s[1..])
  }

  lemma {:induction false} SpacedStretch(s: string)
    ensures Spaced(s) == s[..Stretch(s)] + Spaced(s[Stretch(s)..])
  {
    if s != [] && !IsUpper(s[0]) {
      SpacedStretch(s[1..]);
      assert s[..Stretch(s)] == [s[0]] + s[1..][..Stretch(s[1..])];
      assert s[Stretch(s)..] == s[1..][Stretch(s[1..])..];
    } else {
      assert s[..0] == [] && s[0..] == s;
    }
  }

  lemma {:induction false} MarkStretch(s: string)
    ensures Mark(s) == LowerAll(s[..Stretch(s)]) + Mark(s[Stretch(s)..])
  {
    if s != [] && !IsUpper(s[0]) {
      MarkStretch(s[1..]);
      assert LowerAll(s[..Stretch(s)]) == [Lower(s[0])] + LowerAll(s[1..][..Stretch(s[1..])]);
      assert s[Stretch(s)..] == s[1..][Stretch(s[1..])..];
    } else {
      assert LowerAll(s[..0]) == [] && s[0..] == s;
    }
  }

  lemma {:induction false} WordOf(word: string, rest: string)
    requires NoBlank(word) && (rest == [] || IsBlank(rest[0]))
    ensures WordLength(word + rest) == |word|
  {
    if word == [] {
      assert word + rest == rest;
    } else {
      assert (word + rest)[1..] == word[1..] + rest;
      WordOf(word[1..], rest);
    }
  }

  lemma FirstWord(word: string, rest: string)
    requires word != [] && NoBlank(word) && (rest == [] || IsBlank(rest[0]))
    ensures Words(word + rest) == [word] + Words(rest)
    ensures Words(" " + (word + rest)) == [word] + Words(rest)
  {
    WordOf(word, rest);
    var s := word + rest;
    assert s[..|word|] == word && s[|word|..] == rest;
    assert (" " + s)[1..] == s;
  }

  /** The first word of a name: its first character and the small ones after it. */
  function FirstPart(s: string): (word: string)
    requires s != []
    ensures word != [] && word <= s
  {
    [s[0]] + s[1..][..Stretch(s[1..])]
  }

  lemma Regroup(a: string, b: string, c: string)
    ensures a + (b + c) == a + b + c
  {
  }

  lemma PartsSpaced(s: string)
    requires s != []
    ensures var word := FirstPart(s); var rest := s[|word|..];
            && (rest != [] ==> IsUpper(rest[0]))
            && Spaced(s) == (if IsUpper(s[0]) then " " else "") + (word + Spaced(rest))
  {
    hide Spaced, Stretch, IsUpper;
    var tail := s[1..];
    var n := Stretch(tail);
    SpacedStretch(tail);
    SpacedHead(s);
    PartIs(s);
    Regroup([s[0]], tail[..n], Spaced(tail[n..]));
  }

  lemma PartIs(s: string)
    requires s != []
    ensures FirstPart(s) == [s[0]] + s[1..][..Stretch(s[1..])]
    ensures s[|FirstPart(s)|..] == s[1..][Stretch(s[1..])..]
  {
  }

  lemma SpacedHead(s: string)
    requires s != []
    ensures Spaced(s) == (if IsUpper(s[0]) then " " else "") + ([s[0]] + Spaced(s[1..]))
  {
  }

  lemma PartsSnake(s: string)
    requires s != []
    ensures var word := FirstPart(s); var rest := s[|word|..];
            Snake(s) == LowerAll(word) + (if rest == [] then [] else "_" + Snake(rest))
  {
    hide Mark, Lower, Stretch, FirstPart, IsUpper, Snake, LowerAll;
    var tail := s[1..];
    var n := Stretch(tail);
    var rest := tail[n..];
    PartIs(s);
    MarkStretch(tail);
    SnakeHead(s);
    LowerHead(s[0], tail[..n]);
    Regroup([Lower(s[0])], LowerAll(tail[..n]), Mark(rest));
    MarkHead(rest);
    MarkNothing();
  }

  lemma SnakeHead(s: string)
    requires s != []
    ensures Snake(s) == [Lower(s[0])] + Mark(s[1..])
  {
  }

  lemma LowerHead(c: char, s: string)
    ensures LowerAll([c] + s) == [Lower(c)] + LowerAll(s)
  {
  }

  lemma MarkNothing()
    ensures Mark([]) == []
  {
  }

  lemma MarkHead(s: string)
    ensures s != [] && IsUpper(s[0]) ==> Mark(s) == "_" + Snake(s)
  {
  }

  lemma JoinNext(word: string, words: seq<string>)
    ensures JoinLowered([word] + words) == LowerAll(word) + (if words == [] then [] else "_" + JoinLowered(words))
  {
  }

  /** Splitting before the capitals and joining the small words is marking the capitals. */
  lemma {:induction false} JoinIsSnake(s: string)
    requires NoBlank(s)
    ensures JoinLowered(Words(Spaced(s))) == Snake(s)
    ensures s != [] <==> Words(Spaced(s)) != []
    decreases |s|
  {
    if s == [] {
    } else {
      var word := FirstPart(s);
      var rest := s[|word|..];
      PartsSpaced(s);
      PartsSnake(s);
      JoinIsSnake(rest);
      RestBlank(rest);
      FirstWord(word, Spaced(rest));
      JoinNext(word, Words(Spaced(rest)));
      hide *;
      assert [] + (word + Spaced(rest)) == word + Spaced(rest);
      assert Words(Spaced(s)) == [word] + Words(Spaced(rest));
    }
  }

  lemma RestBlank(rest: string)
    requires rest != [] ==> IsUpper(rest[0])
    ensures Spaced(rest) == [] || IsBlank(Spaced(rest)[0])
  {
  }

  function WithoutBlanks(s: string): string {
    if s == [] then [] else (if IsBlank(s[0]) then [] else [s[0]]) + WithoutBlanks(s[1..])
  }

  function Joined(words: seq<string>): string {
    if words == [] then [] else words[0] + Joined(words[1..])
  }

  lemma {:induction false} SkippedBlanks(s: string)
    ensures WithoutBlanks(SkipBlanks(s)) == WithoutBlanks(s)
  {
    if s == [] || !IsBlank(s[0]) {
    } else {
      SkippedBlanks(s[1..]);
      assert [] + WithoutBlanks(s[1..]) == WithoutBlanks(s[1..]);
    }
  }

  lemma {:induction false} WordAhead(s: string)
    ensures var n := WordLength(s);
            && NoBlank(s[..n]) && (n < |s| ==> IsBlank(s[n]))
            && WithoutBlanks(s) == s[..n] + WithoutBlanks(s[n..])
  {
    if s == [] || IsBlank(s[0]) {
      assert s[..0] == [] && s[0..] == s;
    } else {
      hide IsBlank;
      WordAhead(s[1..]);
      var n := WordLength(s[1..]);
      assert s[..n + 1] == [s[0]] + s[1..][..n] && s[n + 1..] == s[1..][n..];
      assert WithoutBlanks(s) == [s[0]] + WithoutBlanks(s[1..]);
      Regroup([s[0]], s[1..][..n], WithoutBlanks(s[n + 1..]));
    }
  }

  /** The words of a text are not empty and hold no blank, and together they are the text without its blanks. */
  lemma {:induction false} WordsInFull(s: string)
    ensures Joined(Words(s)) == WithoutBlanks(s)
    ensures forall i :: 0 <= i < |Words(s)| ==> Words(s)[i] != [] && NoBlank(Words(s)[i])
    decreases |s|
  {
    var t := SkipBlanks(s);
    SkippedBlanks(s);
    if t == [] {
    } else {
      var n := WordLength(t);
      WordAhead(t);
      WordsInFull(t[n..]);
      assert Words(s) == [t[..n]] + Words(t[n..]);
      assert Words(s)[1..] == Words(t[n..]);
    }
  }

  /** An example with a run of capitals. */
  lemma NameInFull()
    ensures Lowercased("aBCd") == "a_bcd"
  {
    MarkedStep("d", true);
    assert Marked("d", true) == "d" by {
      assert "d"[1..] == [];
    }
    MarkedStep("Cd", true);
    assert Marked("Cd", true) == "cd" by {
      assert "Cd"[1..] == "d";
    }
    MarkedStep("BCd", false);
    assert Marked("BCd", false) == "_bcd" by {
      assert "BCd"[1..] == "Cd";
    }
    assert "aBCd"[1..] == "BCd";
    hide Marked;
  }

  lemma MarkedStep(s: string, lastUpper: bool)
    requires s != []
    ensures Marked(s, lastUpper)
         == (if IsUpper(s[0]) && !lastUpper then "_" else "") + [Lower(s[0])] + Marked(s[1..], IsUpper(s[0]))
    ensures Marked([], IsUpper(s[0])) == []
  {
  }

  // ----- Properties of the names -----

  predicate NoUnderscore(s: string) {
    '_' !in s
  }

  predicate NoCapital(s: string) {
    forall i :: 0 <= i < |s| ==> !IsUpper(s[i])
  }

  function WithoutUnderscores(s: string): string {
    if s == [] then [] else (if s[0] == '_' then [] else [s[0]]) + WithoutUnderscores(s[1..])
  }

  lemma {:induction false} MarkedSmall(s: string, lastUpper: bool)
    ensures NoCapital(Marked(s, lastUpper))
    ensures NoCapital(s) ==> Marked(s, lastUpper) == s
  {
    if s == [] {
    } else {
      MarkedSmall(s[1..], IsUpper(s[0]));
      assert NoCapital(s) ==> forall i :: 0 <= i < |s[1..]| ==> !IsUpper(s[i + 1]) && s[1..][i] == s[i + 1];
    }
  }

  /** The names that the conversion leaves alone are those without capitals; it never needs a second pass. */
  lemma FixedPoints(name: string)
    ensures NoCapital(Lowercased(name))
    ensures Lowercased(name) == name <==> NoCapital(name)
    ensures Lowercased(Lowercased(name)) == Lowercased(name)
  {
    SmallAlone(name);
    SmallAlone(Lowercased(name));
  }

  lemma SmallAlone(name: string)
    ensures NoCapital(Lowercased(name))
    ensures NoCapital(name) ==> Lowercased(name) == name
  {
    if name != [] {
      MarkedSmall(name[1..], IsUpper(name[0]));
      assert NoCapital(name) ==>
        forall i :: 0 <= i < |name[1..]| ==> !IsUpper(name[i + 1]) && name[1..][i] == name[i + 1];
    }
  }

  lemma MarkedHead(s: string, lastUpper: bool)
    requires s != []
    ensures Marked(s, lastUpper)
         == (if IsUpper(s[0]) && !lastUpper then "_" else "") + ([Lower(s[0])] + Marked(s[1..], IsUpper(s[0])))
  {
  }

  lemma WithoutStep(c: char, marked: bool, rest: string)
    requires c != '_'
    ensures WithoutUnderscores((if marked then "_" else "") + ([c] + rest)) == [c] + WithoutUnderscores(rest)
  {
    var m := [c] + rest;
    assert m[1..] == rest && ("_" + m)[1..] == m && "" + m == m;
  }

  lemma {:induction false} MarkedLetters(s: string, lastUpper: bool)
    requires NoUnderscore(s)
    ensures WithoutUnderscores(Marked(s, lastUpper)) == LowerAll(s)
  {
    if s == [] {
    } else {
      MarkedLetters(s[1..], IsUpper(s[0]));
      MarkedHead(s, lastUpper);
      assert s[0] != '_';
      WithoutStep(Lower(s[0]), IsUpper(s[0]) && !lastUpper, Marked(s[1..], IsUpper(s[0])));
      assert LowerAll(s) == [Lower(s[0])] + LowerAll(s[1..]);
      hide WithoutUnderscores, Marked;
    }
  }

  /** Without its underscores the result is the name in small letters. */
  lemma LettersKept(name: string)
    requires NoUnderscore(name)
    ensures WithoutUnderscores(Lowercased(name)) == LowerAll(name)
  {
    if name != [] {
      MarkedLetters(name[1..], IsUpper(name[0]));
      assert LowerAll(name) == [Lower(name[0])] + LowerAll(name[1..]);
      assert Lowercased(name)[1..] == Marked(name[1..], IsUpper(name[0]));
    }
  }

  // ----- Collisions -----

  /** Undoing the underscores: the letter after one becomes a capital. */
  function Unmarked(s: string): string {
    if s == [] then []
    else if s[0] == '_' && |s| > 1 then [Upper(s[1])] + Unmarked(s[2..])
    else [s[0]] + Unmarked(s[1..])
  }

  /** What a name keeps: its first letter small, and only the first capital of each later run. */
  function Canonical(name: string): string {
    if name == [] then [] else [Lower(name[0])] + Collapsed(name[1..], IsUpper(name[0]))
  }

  lemma UnmarkedStep(c: char, marked: bool, rest: string)
    requires c != '_'
    ensures Unmarked((if marked then "_" else "") + ([c] + rest)) == [if marked then Upper(c) else c] + Unmarked(rest)
  {
    var m := [c] + rest;
    assert m[1..] == rest && ("_" + m)[2..] == rest && "" + m == m;
  }

  lemma {:induction false} UnmarkedMarked(s: string, lastUpper: bool)
    requires NoUnderscore(s)
    ensures Unmarked(Marked(s, lastUpper)) == Collapsed(s, lastUpper)
  {
    if s == [] {
    } else {
      UnmarkedMarked(s[1..], IsUpper(s[0]));
      MarkedHead(s, lastUpper);
      assert s[0] != '_';
      UnmarkedStep(Lower(s[0]), IsUpper(s[0]) && !lastUpper, Marked(s[1..], IsUpper(s[0])));
      hide Unmarked, Marked;
    }
  }

  lemma CanonicalRecovered(name: string)
    requires NoUnderscore(name)
    ensures Unmarked(Lowercased(name)) == Canonical(name)
  {
    if name != [] {
      UnmarkedMarked(name[1..], IsUpper(name[0]));
      assert name[0] != '_';
      assert Lowercased(name)[1..] == Marked(name[1..], IsUpper(name[0]));
    }
  }

  lemma CanonicalDetermines(name: string)
    ensures Lowercased(name) == Snake(Canonical(name))
  {
    if name != [] {
      MarkIsMarked(name[1..], IsUpper(name[0]));
      assert Canonical(name)[1..] == Collapsed(name[1..], IsUpper(name[0]));
    }
  }

  /** A run of capitals begins at a position after the first. */
  predicate RunStart(s: string, i: nat)
    requires 0 < i < |s|
  {
    IsUpper(s[i]) && !IsUpper(s[i - 1])
  }

  lemma {:induction false} CollapsedAt(s: string, lastUpper: bool, i: nat)
    requires i < |s|
    ensures Collapsed(s, lastUpper)[i]
         == if IsUpper(s[i]) && (if i == 0 then lastUpper else IsUpper(s[i - 1])) then Lower(s[i]) else s[i]
  {
    if i == 0 {
    } else {
      CollapsedAt(s[1..], IsUpper(s[0]), i - 1);
    }
  }

  lemma CanonicalAt(name: string, i: nat)
    requires i < |name|
    ensures |Canonical(name)| == |name|
    ensures i == 0 ==> Canonical(name)[i] == Lower(name[i])
    ensures i > 0 ==> (IsUpper(Canonical(name)[i]) <==> RunStart(name, i))
    ensures Lower(Canonical(name)[i]) == Lower(name[i])
  {
    if i > 0 {
      CollapsedAt(name[1..], IsUpper(name[0]), i - 1);
    }
  }

  lemma LetterAndCase(c: char, d: char)
    ensures c == d <==> Lower(c) == Lower(d) && (IsUpper(c) <==> IsUpper(d))
  {
  }

  lemma SameCanonical(a: string, b: string)
    ensures Canonical(a) == Canonical(b) <==>
              && LowerAll(a) == LowerAll(b)
              && forall i :: 0 < i < |a| ==> (RunStart(a, i) <==> RunStart(b, i))
  {
    hide Canonical, Lower, IsUpper, RunStart;
    CanonicalLength(a);
    CanonicalLength(b);
    if |a| == |b| {
      forall i | 0 <= i < |a|
        ensures Canonical(a)[i] == Canonical(b)[i] <==>
                  Lower(a[i]) == Lower(b[i]) && (i > 0 ==> (RunStart(a, i) <==> RunStart(b, i)))
      {
        CanonicalAt(a, i);
        CanonicalAt(b, i);
        if i > 0 {
          LetterAndCase(Canonical(a)[i], Canonical(b)[i]);
        }
      }
      if Canonical(a) == Canonical(b) {
        assert forall i :: 0 <= i < |a| ==> LowerAll(a)[i] == LowerAll(b)[i];
      }
    }
  }

  lemma CanonicalLength(name: string)
    ensures |Canonical(name)| == |name|
  {
  }

  /** Two names without underscores get the same key exactly when they have the same letters, whatever
      their case, and the same positions after the first at which a run of capitals begins. */
  lemma CollideExactly(a: string, b: string)
    requires NoUnderscore(a) && NoUnderscore(b)
    ensures Lowercased(a) == Lowercased(b) <==>
              && LowerAll(a) == LowerAll(b)
              && forall i :: 0 < i < |a| ==> (RunStart(a, i) <==> RunStart(b, i))
  {
    hide Canonical, Lowercased, LowerAll, RunStart;
    CanonicalRecovered(a);
    CanonicalRecovered(b);
    CanonicalDetermines(a);
    CanonicalDetermines(b);
    SameCanonical(a, b);
  }

  /** A capital first, and no two capitals in a row. */
  predicate CamelCase(name: string) {
    name != [] && IsUpper(name[0]) && forall i :: 0 < i < |name| ==> !(IsUpper(name[i - 1]) && IsUpper(name[i]))
  }

  /** Position i does not continue a run of capitals. */
  predicate Alone(s: string, lastUpper: bool, i: nat)
    requires i < |s|
  {
    !(IsUpper(s[i]) && if i == 0 then lastUpper else IsUpper(s[i - 1]))
  }

  lemma {:induction false} CollapsedAlone(s: string, lastUpper: bool)
    requires forall i :: 0 <= i < |s| ==> Alone(s, lastUpper, i)
    ensures Collapsed(s, lastUpper) == s
  {
    if s == [] {
    } else {
      var rest := s[1..];
      assert Alone(s, lastUpper, 0);
      forall i | 0 <= i < |rest| ensures Alone(rest, IsUpper(s[0]), i) {
        assert Alone(s, lastUpper, i + 1);
      }
      CollapsedAlone(rest, IsUpper(s[0]));
      assert s == [s[0]] + rest;
    }
  }

  /** A CamelCase name can be read off its key, so the keys of distinct CamelCase names are distinct. */
  lemma CamelCaseInvertible(name: string)
    requires CamelCase(name) && NoUnderscore(name)
    ensures var s := Unmarked(Lowercased(name)); s != [] && name == [Upper(s[0])] + s[1..]
  {
    CanonicalRecovered(name);
    var rest := name[1..];
    forall i | 0 <= i < |rest| ensures Alone(rest, IsUpper(name[0]), i) {
      assert rest[i] == name[i + 1];
    }
    CollapsedAlone(rest, IsUpper(name[0]));
    assert Canonical(name)[1..] == rest;
    assert name == [name[0]] + rest;
  }

  /** Names outside CamelCase can collide: a second capital in a row leaves no trace. */
  lemma CapitalsCollide()
    ensures Lowercased("AB") == Lowercased("Ab") == "ab"
  {
    assert "AB"[1..] == "B" && "Ab"[1..] == "b" && "B"[1..] == "b"[1..] == [];
    assert Marked("B", true) == "b" && Marked("b", true) == "b";
  }
}
