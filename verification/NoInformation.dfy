/** The one answer that may stand without a citation: what exactly is taken for it. */
module NoInformation {
  import opened Citations
  import opened Answers

  const SENTENCE: string := "The provided documents do not contain this information."

  function CodeOf(g: Glyph): nat {
    match g
    case Digit(_, code) => code
    case Space(code) => code
    case Comma => 44
    case LeftSquare => 91
    case RightSquare => 93
    case LeftBracket => 0x3010
    case RightBracket => 0x3011
    case Dagger => 0x2020
    case Other(code) => code
  }

  /** The glyph is this character, and of its class. */
  predicate Writes(g: Glyph, c: char) {
    && CodeOf(g) == c as nat
    && (g.Digit? <==> '0' <= c <= '9') && (g.Digit? ==> g.value == c as nat - '0' as nat)
    && (g.Space? <==> c == ' ')
    && (g.Other? ==> c !in {',', '[', ']'})
  }

  /** The text is this string, glyph for glyph. */
  predicate Spells(t: Text, s: string) {
    if s == "" then t.End? else t.Cons? && Writes(t.head, s[0]) && Spells(t.tail, s[1..])
  }

  predicate AllSpaces(t: Text) {
    t.Cons? ==> t.head.Space? && AllSpaces(t.tail)
  }

  ghost predicate MadeOf(answer: Text, front: Text, body: Text, rest: Text, sentence: string) {
    AllSpaces(front) && Spells(body, sentence) && answer == Append(front, Append(body, rest))
  }

  /** Blanks, then the sentence, then anything. */
  ghost predicate Opens(answer: Text, sentence: string) {
    exists front, body, rest :: MadeOf(answer, front, body, rest, sentence)
  }

  ghost predicate StatesNoInformation(answer: Text) {
    Opens(answer, SENTENCE)
  }

  lemma {:induction false} SpellsExactly(t: Text, s: string)
    requires IsAscii(s)
    ensures Spells(t, s) <==> t == Encode(s)
    decreases |s|
  {
    if s != "" && t.Cons? {
      SpellsExactly(t.tail, s[1..]);
    }
  }

  lemma {:induction false} AppendAssociative(a: Text, b: Text, c: Text)
    ensures Append(Append(a, b), c) == Append(a, Append(b, c))
  {
    if a.Cons? {
      AppendAssociative(a.tail, b, c);
    }
  }

  lemma {:induction false} Dropped(t: Text) returns (front: Text)
    ensures AllSpaces(front) && t == Append(front, DropSpaces(t))
  {
    if t.Cons? && t.head.Space? {
      var rest := Dropped(t.tail);
      front := Cons(t.head, rest);
    } else {
      front := End;
    }
  }

  lemma {:induction false} DropsFront(front: Text, t: Text)
    requires AllSpaces(front) && t.Cons? && !t.head.Space?
    ensures DropSpaces(Append(front, t)) == t
  {
    if front.Cons? {
      DropsFront(front.tail, t);
    }
  }

  lemma {:induction false} Stripped(t: Text) returns (back: Text)
    ensures AllSpaces(back) && t == Append(StripTrailing(t), back)
  {
    if t.End? {
      back := End;
    } else {
      back := Stripped(t.tail);
      if StripTrailing(t.tail).End? && t.head.Space? {
        back := Cons(t.head, back);
      }
    }
  }

  lemma {:induction false} StartsWithExactly(t: Text, prefix: Text) returns (rest: Text)
    ensures StartsWith(t, prefix) <==> t == Append(prefix, rest)
  {
    rest := t;
    if prefix.Cons? && t.Cons? {
      rest := StartsWithExactly(t.tail, prefix.tail);
    }
  }

  lemma {:induction false} StartsWithAppend(prefix: Text, rest: Text)
    ensures StartsWith(Append(prefix, rest), prefix)
  {
    if prefix.Cons? {
      StartsWithAppend(prefix.tail, rest);
    }
  }

  /** A text that ends in no blank. */
  predicate EndsVisibly(t: Text) {
    t.Cons? && (if t.tail.End? then !t.head.Space? else EndsVisibly(t.tail))
  }

  lemma {:induction false} StripKeepsFront(t: Text, rest: Text)
    requires EndsVisibly(t)
    ensures StripTrailing(Append(t, rest)) == Append(t, StripTrailing(rest))
  {
    if t.tail.Cons? {
      StripKeepsFront(t.tail, rest);
    } else {
      assert Append(t, rest) == Cons(t.head, rest);
    }
  }

  lemma {:induction false} EncodedEndsVisibly(s: string)
    requires s != "" && s[|s| - 1] != ' '
    ensures EndsVisibly(Encode(s))
    decreases |s|
  {
    if |s| > 1 {
      EncodedEndsVisibly(s[1..]);
      assert Encode(s[1..]).Cons?;
    } else {
      assert s[1..] == "";
    }
  }

  lemma {:induction false} OpensExactly(answer: Text, s: string)
    requires s != "" && s[0] != ' ' && s[|s| - 1] != ' ' && IsAscii(s)
    ensures StartsWith(StripTrailing(DropSpaces(answer)), Encode(s)) <==> Opens(answer, s)
  {
    hide Encode, Spells, AllSpaces, StartsWith, StripTrailing, DropSpaces;
    var code := Encode(s);
    var visible := DropSpaces(answer);
    var stripped := StripTrailing(visible);
    EncodedEndsVisibly(s);
    if StartsWith(stripped, code) {
      var front := Dropped(answer);
      var back := Stripped(visible);
      var rest := StartsWithExactly(stripped, code);
      AppendAssociative(code, rest, back);
      SpellsExactly(code, s);
      assert MadeOf(answer, front, code, Append(rest, back), s);
    }
    if Opens(answer, s) {
      var front, body, rest :| MadeOf(answer, front, body, rest, s);
      SpellsExactly(body, s);
      FirstIsVisible(s);
      DropsFront(front, Append(code, rest));
      StripKeepsFront(code, rest);
      StartsWithAppend(code, StripTrailing(rest));
    }
  }

  lemma FirstIsVisible(s: string)
    requires s != "" && s[0] != ' '
    ensures Encode(s).Cons? && !Encode(s).head.Space?
  {
  }

  lemma FirstPieces()
    ensures "The provided documents do " == "The provided " + "documents do "
  {
  }

  lemma LastPieces()
    ensures "not contain this information." == "not contain " + "this informatio" + "n."
  {
  }

  lemma Halves()
    ensures SENTENCE == "The provided documents do " + "not contain this information."
  {
  }

  lemma PiecesOfSentence()
    ensures SENTENCE == "The provided " + "documents do " + ("not contain " + "this informatio" + "n.")
  {
    Halves();
    FirstPieces();
    LastPieces();
  }

  predicate IsAscii(s: string) {
    forall i :: 0 <= i < |s| ==> s[i] as nat < 128
  }

  lemma PiecesAreAscii()
    ensures IsAscii("The provided ") && IsAscii("documents do ") && IsAscii("not contain ")
    ensures IsAscii("this informatio") && IsAscii("n.")
    ensures "The provided "[0] == 'T' && "n."[1] == '.' && |"n."| == 2 && |"The provided "| > 0
  {
  }

  lemma SentenceIsPlain()
    ensures SENTENCE != "" && SENTENCE[0] != ' ' && SENTENCE[|SENTENCE| - 1] != ' ' && IsAscii(SENTENCE)
  {
    PiecesOfSentence();
    PiecesAreAscii();
  }

  /** An answer is taken to say that there is no information if and only if it opens with the sentence. */
  lemma {:induction false} SaysNoInformationExactly(answer: Text)
    ensures SaysNoInformation(answer) <==> StatesNoInformation(answer)
  {
    hide StartsWith, StripTrailing, DropSpaces, Opens, IsAscii;
    SentenceIsPlain();
    OpensExactly(answer, SENTENCE);
  }
}
