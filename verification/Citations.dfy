/**
 Citation normalisation and checking. A text is a list of classified characters, which is all the
 two citation patterns look at; both patterns are read by one small automaton.
 */
module Citations {
  /** Characters by the class the patterns test; the payload keeps the character itself. */
  datatype Glyph =
    | Digit(value: nat, code: nat)
    | Space(code: nat)
    | Comma
    | LeftSquare
    | RightSquare
    | LeftBracket   // U+3010
    | RightBracket  // U+3011
    | Dagger        // U+2020
    | Other(code: nat)

  datatype Text = End | Cons(head: Glyph, tail: Text)

  const BLANK: Glyph := Space(32)

  function Append(a: Text, b: Text): Text {
    if a.End? then b else Cons(a.head, Append(a.tail, b))
  }

  function Length(t: Text): nat {
    if t.End? then 0 else 1 + Length(t.tail)
  }

  // ---------------------------------------------------------------- the patterns

  /** `[1, 2]`, or the same between bracket glyphs with blanks before and a dagger note after the list. */
  datatype Kind = Square | Bracketed

  /** How far a citation has been read; `Listed` is after a comma, and after an opening bracket glyph. */
  datatype Place = Opened | Number | Spaced | Listed | Note

  datatype Move = Fail | Done | Go(place: Place)

  function Next(kind: Kind, place: Place, g: Glyph): Move {
    if place == Note then (if g == RightBracket then Done else Go(Note))
    else
      match g
      case Digit(_, _) => if place == Spaced then Fail else Go(Number)
      case Space(_) => if place == Opened then Fail else if place == Listed then Go(Listed) else Go(Spaced)
      case Comma => if place == Number || place == Spaced then Go(Listed) else Fail
      case RightSquare => if kind == Square && place == Number then Done else Fail
      case RightBracket => if kind == Bracketed && place == Number then Done else Fail
      case Dagger => if kind == Bracketed && place == Number then Go(Note) else Fail
      case _ => Fail
  }

  /** A citation begun earlier is closed in this text after `body`, and `rest` follows; or it never is. */
  datatype Closing = Unclosed | Closed(body: Text, rest: Text)

  function Close(kind: Kind, place: Place, t: Text): (c: Closing)
    ensures c.Closed? ==> Length(c.rest) < Length(t)
    decreases t
  {
    if t.End? then Unclosed
    else
      match Next(kind, place, t.head)
      case Fail => Unclosed
      case Done => Closed(End, t.tail)
      case Go(p) =>
        var c := Close(kind, p, t.tail);
        if c.Closed? then Closed(Cons(t.head, c.body), c.rest) else Unclosed
  }

  /** The citation of this kind that begins the text. */
  function Citation(kind: Kind, t: Text): (c: Closing)
    ensures c.Closed? ==> Length(c.rest) < Length(t)
  {
    if t.Cons? && t.head == (if kind == Square then LeftSquare else LeftBracket)
    then Close(kind, if kind == Square then Opened else Listed, t.tail)
    else Unclosed
  }

  function DropSpaces(t: Text): Text {
    if t.Cons? && t.head.Space? then DropSpaces(t.tail) else t
  }

  /** The list in front of a dagger note. */
  function BeforeNote(t: Text): Text {
    if t.End? || t.head == Dagger then End else Cons(t.head, BeforeNote(t.tail))
  }

  /** The captured group: the bare number list. */
  function Group(kind: Kind, body: Text): Text {
    if kind == Square then body else DropSpaces(BeforeNote(body))
  }

  /** The groups of all citations of one kind, left to right, without overlap. */
  function Groups(kind: Kind, t: Text): seq<Text>
    decreases Length(t)
  {
    if t.End? then []
    else
      match Citation(kind, t)
      case Closed(body, rest) => [Group(kind, body)] + Groups(kind, rest)
      case Unclosed => Groups(kind, t.tail)
  }

  // ---------------------------------------------------------------- normalisation

  /** First substitution: every bracket-glyph citation becomes a square one with the same group. */
  function ReplaceBrackets(t: Text): Text
    decreases Length(t)
  {
    if t.End? then End
    else
      match Citation(Bracketed, t)
      case Closed(body, rest) =>
        Cons(LeftSquare, Append(Group(Bracketed, body), Cons(RightSquare, ReplaceBrackets(rest))))
      case Unclosed => Cons(t.head, ReplaceBrackets(t.tail))
  }

  /** Second substitution: a square citation directly after a visible character gets a blank before it. */
  function SetApart(t: Text, gap: bool): Text
    decreases Length(t)
  {
    if t.End? then End
    else
      var c := Citation(Square, t);
      if c.Closed? && !gap then
        Cons(BLANK, Cons(LeftSquare, Append(c.body, Cons(RightSquare, SetApart(c.rest, false)))))
      else Cons(t.head, SetApart(t.tail, t.head.Space?))
  }

  function Normalize(answer: Text): Text {
    SetApart(ReplaceBrackets(answer), true)
  }

  /** The citations of the raw answer, of either kind, leftmost first. */
  function MixedGroups(t: Text): seq<Text>
    decreases Length(t)
  {
    if t.End? then []
    else
      match Citation(Bracketed, t)
      case Closed(body, rest) => [Group(Bracketed, body)] + MixedGroups(rest)
      case Unclosed =>
        match Citation(Square, t)
        case Closed(body, rest) => [Group(Square, body)] + MixedGroups(rest)
        case Unclosed => MixedGroups(t.tail)
  }

  ghost predicate NoBrackets(t: Text) {
    t.Cons? ==> Citation(Bracketed, t).Unclosed? && NoBrackets(t.tail)
  }

  // ---------------------------------------------------------------- number lists

  /** Digits, blanks and commas that lead from a place to the end of a number. */
  ghost predicate IsList(place: Place, t: Text)
    decreases t
  {
    if t.End? then place == Number
    else (t.head.Digit? || t.head.Space? || t.head.Comma?)
         && place != Note && Next(Square, place, t.head).Go? && IsList(Next(Square, place, t.head).place, t.tail)
  }

  lemma {:induction false} SquareBodyIsList(place: Place, t: Text)
    requires place != Note && Close(Square, place, t).Closed?
    ensures var c := Close(Square, place, t);
            IsList(place, c.body) && t == Append(c.body, Cons(RightSquare, c.rest))
    decreases t
  {
    if Next(Square, place, t.head).Go? {
      SquareBodyIsList(Next(Square, place, t.head).place, t.tail);
    }
  }

  lemma {:induction false} ListCloses(place: Place, list: Text, rest: Text)
    requires IsList(place, list)
    ensures Close(Square, place, Append(list, Cons(RightSquare, rest))) == Closed(list, rest)
    decreases list
  {
    if list.Cons? {
      ListCloses(Next(Square, place, list.head).place, list.tail, rest);
    }
  }

  lemma {:induction false} BracketedBodyHasList(place: Place, t: Text)
    requires place != Note && Close(Bracketed, place, t).Closed?
    ensures IsList(place, BeforeNote(Close(Bracketed, place, t).body))
    decreases t
  {
    var move := Next(Bracketed, place, t.head);
    if move.Go? && move.place != Note {
      BracketedBodyHasList(move.place, t.tail);
    }
  }

  lemma {:induction false} ListWithoutBlanks(t: Text)
    requires IsList(Listed, t)
    ensures IsList(Opened, DropSpaces(t))
  {
    if t.head.Space? {
      ListWithoutBlanks(t.tail);
    }
  }

  /** Whatever the kind, a captured group is a bare list of numbers. */
  lemma {:induction false} GroupIsList(kind: Kind, t: Text)
    requires Citation(kind, t).Closed?
    ensures IsList(Opened, Group(kind, Citation(kind, t).body))
  {
    if kind == Square {
      SquareBodyIsList(Opened, t.tail);
    } else {
      BracketedBodyHasList(Listed, t.tail);
      ListWithoutBlanks(BeforeNote(Citation(kind, t).body));
    }
  }

  // ---------------------------------------------------------------- what the substitutions keep

  ghost predicate HasCloser(t: Text) {
    t.Cons? && (t.head == RightBracket || HasCloser(t.tail))
  }

  lemma {:induction false} HasCloserAppend(a: Text, b: Text)
    ensures HasCloser(Append(a, b)) <==> HasCloser(a) || HasCloser(b)
  {
    if a.Cons? {
      HasCloserAppend(a.tail, b);
    }
  }

  lemma {:induction false} NoteClosesAtCloser(t: Text)
    ensures Close(Bracketed, Note, t).Closed? <==> HasCloser(t)
  {
    if t.Cons? {
      NoteClosesAtCloser(t.tail);
    }
  }

  lemma {:induction false} BracketedNeedsCloser(place: Place, t: Text)
    requires Close(Bracketed, place, t).Closed?
    ensures HasCloser(t)
    decreases t
  {
    var move := Next(Bracketed, place, t.head);
    if move.Go? {
      BracketedNeedsCloser(move.place, t.tail);
    }
  }

  /** Replacing brackets opens no new way to close a bracketed citation that was begun earlier. */
  lemma {:induction false} ReplaceClosesNoBracket(place: Place, t: Text)
    requires Close(Bracketed, place, ReplaceBrackets(t)).Closed?
    ensures Close(Bracketed, place, t).Closed?
    decreases t
  {
    if Citation(Bracketed, t).Closed? {
      BracketedNeedsCloser(Listed, t.tail);
      NoteClosesAtCloser(t);
    } else {
      var move := Next(Bracketed, place, t.head);
      if move.Go? {
        ReplaceClosesNoBracket(move.place, t.tail);
      }
    }
  }

  /** It leaves square citations exactly where they were. */
  lemma {:induction false} ReplaceKeepsSquare(place: Place, t: Text)
    requires place != Note
    ensures var c := Close(Square, place, t);
            Close(Square, place, ReplaceBrackets(t))
              == if c.Closed? then Closed(c.body, ReplaceBrackets(c.rest)) else Unclosed
    decreases t
  {
    if t.Cons? && Citation(Bracketed, t).Unclosed? {
      var move := Next(Square, place, t.head);
      if move.Go? {
        ReplaceKeepsSquare(move.place, t.tail);
      }
    }
  }

  lemma {:induction false} SetApartKeepsClosers(t: Text, gap: bool)
    ensures HasCloser(SetApart(t, gap)) <==> HasCloser(t)
    decreases Length(t)
  {
    if t.Cons? {
      var c := Citation(Square, t);
      if c.Closed? && !gap {
        SquareBodyIsList(Opened, t.tail);
        SetApartKeepsClosers(c.rest, false);
        HasCloserAppend(c.body, Cons(RightSquare, c.rest));
        HasCloserAppend(c.body, Cons(RightSquare, SetApart(c.rest, false)));
      } else {
        SetApartKeepsClosers(t.tail, t.head.Space?);
      }
    }
  }

  lemma {:induction false} SetApartClosesNoBracket(place: Place, t: Text, gap: bool)
    requires Close(Bracketed, place, SetApart(t, gap)).Closed?
    ensures Close(Bracketed, place, t).Closed?
    decreases t
  {
    if place == Note {
      NoteClosesAtCloser(t);
      NoteClosesAtCloser(SetApart(t, gap));
      SetApartKeepsClosers(t, gap);
    } else if Citation(Square, t).Unclosed? || gap {
      var move := Next(Bracketed, place, t.head);
      if move.Go? {
        SetApartClosesNoBracket(move.place, t.tail, t.head.Space?);
      }
    }
  }

  lemma {:induction false} SetApartKeepsSquare(place: Place, t: Text, gap: bool)
    requires place != Note
    ensures var c := Close(Square, place, t);
            Close(Square, place, SetApart(t, gap))
              == if c.Closed? then Closed(c.body, SetApart(c.rest, false)) else Unclosed
    decreases t
  {
    if t.Cons? && (Citation(Square, t).Unclosed? || gap) {
      var move := Next(Square, place, t.head);
      if move.Go? {
        SetApartKeepsSquare(move.place, t.tail, t.head.Space?);
      }
    }
  }

  /** Inside a citation the second substitution only copies. */
  lemma {:induction false} SetApartCopiesList(place: Place, list: Text, rest: Text, gap: bool)
    requires IsList(place, list)
    ensures SetApart(Append(list, Cons(RightSquare, rest)), gap)
         == Append(list, Cons(RightSquare, SetApart(rest, false)))
    decreases list
  {
    if list.Cons? {
      SetApartCopiesList(Next(Square, place, list.head).place, list.tail, rest, list.head.Space?);
    }
  }

  // ---------------------------------------------------------------- the laws of normalisation

  lemma {:induction false} NoBracketsInList(place: Place, list: Text, rest: Text)
    requires IsList(place, list) && NoBrackets(rest)
    ensures NoBrackets(Append(list, Cons(RightSquare, rest)))
    decreases list
  {
    if list.Cons? {
      NoBracketsInList(Next(Square, place, list.head).place, list.tail, rest);
    }
  }

  lemma {:induction false} ReplaceLeavesNoBrackets(t: Text)
    ensures NoBrackets(ReplaceBrackets(t))
    decreases Length(t)
  {
    if t.Cons? {
      var c := Citation(Bracketed, t);
      if c.Closed? {
        GroupIsList(Bracketed, t);
        ReplaceLeavesNoBrackets(c.rest);
        NoBracketsInList(Opened, Group(Bracketed, c.body), ReplaceBrackets(c.rest));
      } else {
        ReplaceLeavesNoBrackets(t.tail);
        if t.head == LeftBracket && Close(Bracketed, Listed, ReplaceBrackets(t.tail)).Closed? {
          ReplaceClosesNoBracket(Listed, t.tail);
        }
      }
    }
  }

  lemma {:induction false} SetApartLeavesNoBrackets(t: Text, gap: bool)
    requires NoBrackets(t)
    ensures NoBrackets(SetApart(t, gap))
    decreases Length(t)
  {
    if t.Cons? {
      var c := Citation(Square, t);
      if c.Closed? && !gap {
        SquareBodyIsList(Opened, t.tail);
        NoBracketsAfterList(Opened, c.body, c.rest);
        SetApartLeavesNoBrackets(c.rest, false);
        NoBracketsInList(Opened, c.body, SetApart(c.rest, false));
      } else {
        SetApartLeavesNoBrackets(t.tail, t.head.Space?);
        if t.head == LeftBracket && Close(Bracketed, Listed, SetApart(t.tail, false)).Closed? {
          SetApartClosesNoBracket(Listed, t.tail, false);
        }
      }
    }
  }

  lemma {:induction false} NoBracketsAfterList(place: Place, list: Text, rest: Text)
    requires IsList(place, list) && NoBrackets(Append(list, Cons(RightSquare, rest)))
    ensures NoBrackets(rest)
    decreases list
  {
    if list.Cons? {
      NoBracketsAfterList(Next(Square, place, list.head).place, list.tail, rest);
    }
  }

  lemma {:induction false} NothingToReplace(t: Text)
    requires NoBrackets(t)
    ensures ReplaceBrackets(t) == t && Groups(Bracketed, t) == []
  {
    if t.Cons? {
      NothingToReplace(t.tail);
    }
  }

  lemma {:induction false} SetApartIdempotent(t: Text, gap: bool)
    ensures SetApart(SetApart(t, gap), gap) == SetApart(t, gap)
    decreases Length(t)
  {
    if t.Cons? {
      var c := Citation(Square, t);
      if c.Closed? && !gap {
        SquareBodyIsList(Opened, t.tail);
        var rest := SetApart(c.rest, false);
        SetApartIdempotent(c.rest, false);
        SetApartCopiesList(Opened, c.body, rest, false);
      } else {
        SetApartIdempotent(t.tail, t.head.Space?);
        SetApartKeepsSquare(Opened, t.tail, t.head.Space?);
      }
    }
  }

  /** No bracket-glyph citation survives normalisation. */
  lemma {:induction false} NormalizedHasNoBrackets(answer: Text)
    ensures Groups(Bracketed, Normalize(answer)) == []
  {
    ReplaceLeavesNoBrackets(answer);
    SetApartLeavesNoBrackets(ReplaceBrackets(answer), true);
    NothingToReplace(Normalize(answer));
  }

  lemma {:induction false} NormalizeIdempotent(answer: Text)
    ensures Normalize(Normalize(answer)) == Normalize(answer)
  {
    ReplaceLeavesNoBrackets(answer);
    SetApartLeavesNoBrackets(ReplaceBrackets(answer), true);
    NothingToReplace(Normalize(answer));
    SetApartIdempotent(ReplaceBrackets(answer), true);
  }

  lemma {:induction false} SetApartKeepsGroups(t: Text, gap: bool)
    ensures Groups(Square, SetApart(t, gap)) == Groups(Square, t)
    decreases Length(t)
  {
    if t.Cons? {
      var c := Citation(Square, t);
      if c.Closed? {
        SquareBodyIsList(Opened, t.tail);
        SetApartKeepsGroups(c.rest, false);
        ListCloses(Opened, c.body, SetApart(c.rest, false));
        SetApartCopiesList(Opened, c.body, c.rest, false);
      } else {
        SetApartKeepsGroups(t.tail, t.head.Space?);
        SetApartKeepsSquare(Opened, t.tail, t.head.Space?);
      }
    }
  }

  lemma {:induction false} ReplaceKeepsGroups(t: Text)
    ensures Groups(Square, ReplaceBrackets(t)) == MixedGroups(t)
    decreases Length(t)
  {
    if t.Cons? {
      var b, c := Citation(Bracketed, t), Citation(Square, t);
      if b.Closed? {
        GroupIsList(Bracketed, t);
        ReplaceKeepsGroups(b.rest);
        ListCloses(Opened, Group(Bracketed, b.body), ReplaceBrackets(b.rest));
      } else {
        ReplaceKeepsSquare(Opened, t.tail);
        ReplaceKeepsGroups(t.tail);
        if c.Closed? {
          ReplaceKeepsGroups(c.rest);
        }
      }
    }
  }

  /** Normalisation keeps the meaning: the same number lists are cited, in the same order. */
  lemma {:induction false} NormalizeKeepsCitations(answer: Text)
    ensures Groups(Square, Normalize(answer)) == MixedGroups(answer)
  {
    SetApartKeepsGroups(ReplaceBrackets(answer), true);
    ReplaceKeepsGroups(answer);
  }
}
