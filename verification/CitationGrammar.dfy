/**
 What the automaton of `Citations` recognises is exactly what the two citation patterns describe, and what is read
 from a citation is exactly the numbers written in it. Normalisation sets every citation apart and keeps all other text.
 */
module CitationGrammar {
  import opened Wrappers
  import opened Citations
  import opened Answers
  import opened NoInformation

  // ---------------------------------------------------------------- the patterns

  /** Numbers between commas, with blanks before and after each comma. */
  datatype Listing = Last(number: Text) | More(number: Text, before: Text, after: Text, rest: Listing)

  /** What follows the first number of a listing of several. */
  datatype Continuation = Continuation(before: Text, after: Text, rest: Listing)

  predicate AllDigits(t: Text) {
    t.Cons? ==> t.head.Digit? && AllDigits(t.tail)
  }

  predicate WellFormed(l: Listing) {
    && l.number.Cons? && AllDigits(l.number)
    && (l.More? ==> AllSpaces(l.before) && AllSpaces(l.after) && WellFormed(l.rest))
  }

  function Written(l: Listing): Text {
    match l
    case Last(number) => number
    case More(number, before, after, rest) =>
      Append(number, Append(before, Cons(Comma, Append(after, Written(rest)))))
  }

  /** Nothing, or a dagger and anything but a closing bracket glyph. */
  ghost predicate IsNote(t: Text) {
    t.End? || (t.head == Dagger && !HasCloser(t.tail))
  }

  lemma {:induction false} ParseNumber(t: Text) returns (digits: Text, more: Option<Continuation>)
    requires IsList(Number, t)
    ensures AllDigits(digits)
    ensures more.None? ==> t == digits
    ensures more.Some? ==>
              var c := more.value;
              AllSpaces(c.before) && AllSpaces(c.after) && WellFormed(c.rest)
              && t == Append(digits, Append(c.before, Cons(Comma, Append(c.after, Written(c.rest)))))
    decreases t
  {
    if t.End? {
      digits, more := End, None;
    } else if t.head.Digit? {
      digits, more := ParseNumber(t.tail);
      digits := Cons(t.head, digits);
    } else {
      var before, after, l := ParseSpaced(t);
      digits, more := End, Some(Continuation(before, after, l));
    }
  }

  lemma {:induction false} ParseSpaced(t: Text) returns (before: Text, after: Text, l: Listing)
    requires IsList(Spaced, t) || (IsList(Number, t) && t.Cons? && !t.head.Digit?)
    ensures AllSpaces(before) && AllSpaces(after) && WellFormed(l)
    ensures t == Append(before, Cons(Comma, Append(after, Written(l))))
    decreases t, 0
  {
    if t.head.Comma? {
      after, l := ParseListed(t.tail);
      before := End;
    } else {
      before, after, l := ParseSpaced(t.tail);
      before := Cons(t.head, before);
    }
  }

  lemma {:induction false} ParseListed(t: Text) returns (after: Text, l: Listing)
    requires IsList(Listed, t)
    ensures AllSpaces(after) && WellFormed(l) && t == Append(after, Written(l))
    decreases t, 1
  {
    if t.head.Space? {
      after, l := ParseListed(t.tail);
      after := Cons(t.head, after);
    } else {
      after := End;
      l := ParseOpened(t);
    }
  }

  lemma {:induction false} ParseOpened(t: Text) returns (l: Listing)
    requires t.Cons? && t.head.Digit? && (IsList(Opened, t) || IsList(Listed, t))
    ensures WellFormed(l) && t == Written(l)
    decreases t, 0
  {
    var digits, more := ParseNumber(t.tail);
    if more.None? {
      l := Last(Cons(t.head, digits));
    } else {
      l := More(Cons(t.head, digits), more.value.before, more.value.after, more.value.rest);
    }
  }

  lemma {:induction false} DigitsLead(digits: Text, rest: Text, place: Place)
    requires AllDigits(digits) && IsList(Number, rest)
    requires place == Number || (digits.Cons? && (place == Opened || place == Listed))
    ensures IsList(place, Append(digits, rest))
    decreases digits
  {
    if digits.Cons? {
      DigitsLead(digits.tail, rest, Number);
    }
  }

  lemma {:induction false} CommaFollows(before: Text, rest: Text, place: Place)
    requires AllSpaces(before) && IsList(Listed, rest) && (place == Number || place == Spaced)
    ensures IsList(place, Append(before, Cons(Comma, rest)))
    decreases before
  {
    if before.Cons? {
      CommaFollows(before.tail, rest, Spaced);
    }
  }

  lemma {:induction false} BlanksLead(after: Text, rest: Text)
    requires AllSpaces(after) && IsList(Listed, rest)
    ensures IsList(Listed, Append(after, rest))
  {
    if after.Cons? {
      BlanksLead(after.tail, rest);
    }
  }

  lemma {:induction false} WrittenIsList(l: Listing)
    requires WellFormed(l)
    ensures IsList(Opened, Written(l)) && IsList(Listed, Written(l))
  {
    match l {
      case Last(number) =>
        DigitsLead(number, End, Opened);
        DigitsLead(number, End, Listed);
        AppendEnd(number);
      case More(number, before, after, rest) =>
        WrittenIsList(rest);
        BlanksLead(after, Written(rest));
        CommaFollows(before, Append(after, Written(rest)), Number);
        var tail := Append(before, Cons(Comma, Append(after, Written(rest))));
        DigitsLead(number, tail, Opened);
        DigitsLead(number, tail, Listed);
    }
  }

  lemma {:induction false} AppendEnd(t: Text)
    ensures Append(t, End) == t
  {
    if t.Cons? {
      AppendEnd(t.tail);
    }
  }

  ghost predicate IsSquare(t: Text, body: Text, rest: Text, l: Listing) {
    && WellFormed(l) && body == Written(l)
    && t == Cons(LeftSquare, Append(body, Cons(RightSquare, rest)))
  }

  /** A square citation stands here exactly when the text begins with a listing in square brackets. */
  lemma {:induction false} SquareExactly(t: Text, body: Text, rest: Text)
    ensures Citation(Square, t) == Closed(body, rest) <==> exists l :: IsSquare(t, body, rest, l)
  {
    hide IsList, Close;
    if Citation(Square, t) == Closed(body, rest) {
      SquareBodyIsList(Opened, t.tail);
      OpensWithDigit(body);
      var l := ParseOpened(body);
      assert IsSquare(t, body, rest, l);
    }
    if l :| IsSquare(t, body, rest, l) {
      WrittenIsList(l);
      ListCloses(Opened, body, rest);
    }
  }

  lemma OpensWithDigit(t: Text)
    requires IsList(Opened, t)
    ensures t.Cons? && t.head.Digit?
  {
  }

  lemma {:induction false} BracketedBody(place: Place, t: Text) returns (note: Text)
    requires Close(Bracketed, place, t).Closed?
    ensures var c := Close(Bracketed, place, t);
            && t == Append(c.body, Cons(RightBracket, c.rest))
            && (if place == Note then !HasCloser(c.body)
                else IsNote(note) && c.body == Append(BeforeNote(c.body), note))
    decreases t
  {
    var move := Next(Bracketed, place, t.head);
    note := End;
    if move.Go? {
      note := BracketedBody(move.place, t.tail);
      if place != Note && move.place == Note {
        note := Close(Bracketed, place, t).body;
      }
    }
  }

  lemma {:induction false} NoteCloses(note: Text, rest: Text)
    requires !HasCloser(note)
    ensures Close(Bracketed, Note, Append(note, Cons(RightBracket, rest))) == Closed(note, rest)
  {
    if note.Cons? {
      NoteCloses(note.tail, rest);
    }
  }

  lemma {:induction false} ListAndNoteClose(place: Place, list: Text, note: Text, rest: Text)
    requires IsList(place, list) && IsNote(note)
    ensures Close(Bracketed, place, Append(list, Append(note, Cons(RightBracket, rest))))
         == Closed(Append(list, note), rest)
    ensures BeforeNote(Append(list, note)) == list
    decreases list
  {
    if list.Cons? {
      ListAndNoteClose(Next(Square, place, list.head).place, list.tail, note, rest);
    } else if note.Cons? {
      NoteCloses(note.tail, rest);
    }
  }

  ghost predicate IsBracketed(t: Text, body: Text, rest: Text, blanks: Text, l: Listing, note: Text) {
    && WellFormed(l) && AllSpaces(blanks) && IsNote(note) && body == Append(blanks, Append(Written(l), note))
    && t == Cons(LeftBracket, Append(body, Cons(RightBracket, rest)))
  }

  /**
   A bracket-glyph citation stands here exactly when the text begins with blanks, a listing and perhaps a note
   between bracket glyphs; and what it cites is the listing.
   */
  lemma {:induction false} BracketedExactly(t: Text, body: Text, rest: Text)
    ensures Citation(Bracketed, t) == Closed(body, rest) <==>
              exists blanks, l, note :: IsBracketed(t, body, rest, blanks, l, note)
    ensures forall blanks, l, note :: IsBracketed(t, body, rest, blanks, l, note) ==>
              Group(Bracketed, body) == Written(l)
  {
    hide IsList, Close, Written, IsNote, BeforeNote, DropSpaces;
    if Citation(Bracketed, t) == Closed(body, rest) {
      var note := BracketedBody(Listed, t.tail);
      BracketedBodyHasList(Listed, t.tail);
      var blanks, l := ParseListed(BeforeNote(body));
      AppendAssociative(blanks, Written(l), note);
      assert IsBracketed(t, body, rest, blanks, l, note);
    }
    forall blanks, l, note | IsBracketed(t, body, rest, blanks, l, note)
      ensures Citation(Bracketed, t) == Closed(body, rest) && Group(Bracketed, body) == Written(l) {
      BracketedCloses(t, body, rest, blanks, l, note);
    }
  }

  lemma {:induction false} BracketedCloses(t: Text, body: Text, rest: Text, blanks: Text, l: Listing, note: Text)
    requires IsBracketed(t, body, rest, blanks, l, note)
    ensures Citation(Bracketed, t) == Closed(body, rest) && Group(Bracketed, body) == Written(l)
  {
    hide IsList, Close, Written, IsNote, BeforeNote, DropSpaces;
    var list, closer := Append(blanks, Written(l)), Cons(RightBracket, rest);
    WrittenIsList(l);
    BlanksLead(blanks, Written(l));
    AppendAssociative(blanks, Written(l), note);
    AppendAssociative(list, note, closer);
    ListAndNoteClose(Listed, list, note, rest);
    OpensWithDigit(Written(l));
    DropsFront(blanks, Written(l));
  }

  // ---------------------------------------------------------------- the numbers

  function DigitsIn(t: Text): Numeral {
    if t.Cons? && t.head.Digit? then [t.head.value] + DigitsIn(t.tail) else []
  }

  /** The numbers of a listing, each with its digits in order. */
  function Entries(l: Listing): seq<Numeral> {
    [DigitsIn(l.number)] + (if l.More? then Entries(l.rest) else [])
  }

  lemma {:induction false} DigitsAreRead(digits: Text, rest: Text, current: Numeral)
    requires AllDigits(digits)
    ensures Numerals(Append(digits, rest), current) == Numerals(rest, current + DigitsIn(digits))
    decreases digits
  {
    if digits.Cons? {
      DigitsAreRead(digits.tail, rest, current + [digits.head.value]);
      assert current + [digits.head.value] + DigitsIn(digits.tail) == current + DigitsIn(digits);
    } else {
      assert current + DigitsIn(digits) == current;
    }
  }

  lemma {:induction false} BlanksAreSkipped(blanks: Text, rest: Text, current: Numeral)
    requires AllSpaces(blanks)
    ensures Numerals(Append(blanks, rest), current) == Numerals(rest, current)
    decreases blanks
  {
    if blanks.Cons? {
      BlanksAreSkipped(blanks.tail, rest, current);
    }
  }

  /** What is read from a listing is its numbers, in order. */
  lemma {:induction false} ListingIsRead(l: Listing)
    requires WellFormed(l)
    ensures Numerals(Written(l), []) == Entries(l)
  {
    hide Numerals, DigitsIn;
    assert [] + DigitsIn(l.number) == DigitsIn(l.number);
    match l {
      case Last(number) =>
        DigitsAreRead(number, End, []);
        AppendEnd(number);
        NumeralsStep(Written(l), DigitsIn(number));
      case More(number, before, after, rest) =>
        var tail := Append(after, Written(rest));
        DigitsAreRead(number, Append(before, Cons(Comma, tail)), []);
        BlanksAreSkipped(before, Cons(Comma, tail), DigitsIn(number));
        NumeralsStep(tail, DigitsIn(number));
        BlanksAreSkipped(after, Written(rest), []);
        ListingIsRead(rest);
    }
  }

  lemma NumeralsStep(rest: Text, current: Numeral)
    ensures Numerals(End, current) == [current]
    ensures Numerals(Cons(Comma, rest), current) == [current] + Numerals(rest, [])
  {
  }

  function DecimalDigitsOf(n: nat): Numeral {
    if n < 10 then [n] else DecimalDigitsOf(n / 10) + [n % 10]
  }

  function Zeros(n: nat): Numeral {
    seq(n, _ => 0)
  }

  /** The digits of a number are read as that number, with any leading zeros. */
  lemma {:induction false} DigitsAreValue(n: nat, zeros: nat)
    ensures Value(Zeros(zeros) + DecimalDigitsOf(n)) == n
    decreases n, zeros
  {
    var all := Zeros(zeros) + DecimalDigitsOf(n);
    if n >= 10 {
      DigitsAreValue(n / 10, zeros);
      assert all[..|all| - 1] == Zeros(zeros) + DecimalDigitsOf(n / 10);
    } else {
      assert all[..|all| - 1] == Zeros(zeros);
      ZerosAreNothing(zeros);
    }
  }

  lemma {:induction false} ZerosAreNothing(zeros: nat)
    ensures Value(Zeros(zeros)) == 0
  {
    if zeros > 0 {
      ZerosAreNothing(zeros - 1);
      assert Zeros(zeros)[..zeros - 1] == Zeros(zeros - 1);
    }
  }

  /** This numeral is readable, and none before it reads the same. */
  ghost predicate FirstReading(numerals: seq<Numeral>, i: nat, v: nat) {
    && i < |numerals| && ParseInt(numerals[i]) == Some(v)
    && forall j :: 0 <= j < i ==> ParseInt(numerals[j]) != Some(v)
  }

  /** The numbers read, without repetition, in the order in which they first appear. */
  ghost predicate InOrder(numbers: seq<nat>, numerals: seq<Numeral>, firsts: seq<nat>) {
    && |firsts| == |numbers|
    && (forall k :: 0 <= k < |firsts| ==> FirstReading(numerals, firsts[k], numbers[k]))
    && (forall k, m :: 0 <= k < m < |firsts| ==> firsts[k] < firsts[m])
  }

  lemma FirstsOfPrefix(numerals: seq<Numeral>, n: nat)
    requires n < |numerals|
    ensures forall i: nat, v: nat :: i < n ==> (FirstReading(numerals, i, v) <==> FirstReading(numerals[..n], i, v))
    ensures forall v: nat :: FirstReading(numerals, n, v) <==>
                               ParseInt(numerals[n]) == Some(v)
                               && forall j :: 0 <= j < n ==> ParseInt(numerals[..n][j]) != Some(v)
  {
    hide ParseInt;
  }

  lemma {:induction false} ReadExactlyFirsts(numerals: seq<Numeral>, v: nat)
    ensures v in Distinctly(numerals) <==> exists i: nat :: FirstReading(numerals, i, v)
  {
    hide ParseInt, FirstReading;
    if numerals != [] {
      var n := |numerals| - 1;
      var init := numerals[..n];
      ReadExactlyFirsts(init, v);
      NotReadBefore(init, v);
      FirstsOfPrefix(numerals, n);
      if i: nat :| FirstReading(init, i, v) {
        WithinRange(init, i, v);
        assert FirstReading(numerals, i, v);
      }
      if i: nat :| FirstReading(numerals, i, v) {
        WithinRange(numerals, i, v);
      }
    } else {
      forall i: nat ensures !FirstReading(numerals, i, v) {
        NothingFirst(i, v);
      }
    }
  }

  lemma WithinRange(numerals: seq<Numeral>, i: nat, v: nat)
    requires FirstReading(numerals, i, v)
    ensures i < |numerals|
  {
  }

  lemma NothingFirst(i: nat, v: nat)
    ensures !FirstReading([], i, v)
  {
  }

  /** The numbers read are those that some numeral is the first to read, in the order of these numerals. */
  lemma {:induction false} ReadInOrder(numerals: seq<Numeral>) returns (firsts: seq<nat>)
    ensures InOrder(Distinctly(numerals), numerals, firsts)
    ensures forall v: nat :: v in Distinctly(numerals) <==> exists i: nat :: FirstReading(numerals, i, v)
  {
    firsts := FirstsInOrder(numerals);
    hide Distinctly, FirstReading;
    forall v: nat ensures v in Distinctly(numerals) <==> exists i: nat :: FirstReading(numerals, i, v) {
      ReadExactlyFirsts(numerals, v);
    }
  }

  lemma {:induction false} FirstsInOrder(numerals: seq<Numeral>) returns (firsts: seq<nat>)
    ensures InOrder(Distinctly(numerals), numerals, firsts)
    ensures forall k :: 0 <= k < |firsts| ==> firsts[k] < |numerals|
  {
    hide ParseInt, FirstReading;
    firsts := [];
    if numerals != [] {
      var n := |numerals| - 1;
      var init := numerals[..n];
      firsts := FirstsInOrder(init);
      FirstsOfPrefix(numerals, n);
      var value := ParseInt(numerals[n]);
      if value.Some? && value.value !in Distinctly(init) {
        NotReadBefore(init, value.value);
        firsts := firsts + [n];
      }
    }
  }

  lemma {:induction false} NotReadBefore(numerals: seq<Numeral>, v: nat)
    ensures v !in Distinctly(numerals) <==> forall j :: 0 <= j < |numerals| ==> ParseInt(numerals[j]) != Some(v)
  {
    DistinctlyKeepsAll(numerals, v);
  }

  /** The numbers read from the citations of one kind. */
  ghost predicate CitesIn(kind: Kind, answer: Text, v: nat) {
    v in Distinctly(AllNumerals(Groups(kind, answer)))
  }

  /**
   The check of any answer against any sources: it passes if and only if every number in square brackets is a source,
   none stands between bracket glyphs, and it cites something, or says that there is no information, or has no sources.
   */
  lemma {:induction false} CheckExactly(answer: Text, valid: set<nat>)
    ensures CheckCitations(answer, valid).ok <==>
              && (forall v :: CitesIn(Square, answer, v) ==> v in valid)
              && (forall v :: !CitesIn(Bracketed, answer, v))
              && ((exists v :: CitesIn(Square, answer, v)) || StatesNoInformation(answer) || valid == {})
    ensures forall v :: v in CheckCitations(answer, valid).missing <==> CitesIn(Square, answer, v) && v !in valid
  {
    hide Distinctly, AllNumerals, Groups, SaysNoInformation, StatesNoInformation;
    var cited := Distinctly(AllNumerals(Groups(Square, answer)));
    var nonstandard := Distinctly(AllNumerals(Groups(Bracketed, answer)));
    SaysNoInformationExactly(answer);
    FilterEmpty(cited, valid);
    FilterKeepsMissing(cited, valid);
    assert cited != [] ==> CitesIn(Square, answer, cited[0]);
    assert nonstandard != [] ==> CitesIn(Bracketed, answer, nonstandard[0]);
  }

  lemma {:induction false} FilterKeepsMissing(numbers: seq<nat>, valid: set<nat>)
    ensures forall v :: v in Filter(numbers, valid) <==> v in numbers && v !in valid
  {
    if numbers != [] {
      FilterKeepsMissing(numbers[..|numbers| - 1], valid);
      assert numbers == numbers[..|numbers| - 1] + [numbers[|numbers| - 1]];
    }
  }

  // ---------------------------------------------------------------- normalisation

  /** Every square citation begins the text or follows a blank. */
  ghost predicate Apart(t: Text, gap: bool) {
    t.Cons? ==> (Citation(Square, t).Closed? ==> gap) && Apart(t.tail, t.head.Space?)
  }

  lemma {:induction false} ListIsApart(place: Place, list: Text, rest: Text, gap: bool)
    requires IsList(place, list) && Apart(rest, false)
    ensures Apart(Append(list, Cons(RightSquare, rest)), gap)
    decreases list
  {
    if list.Cons? {
      ListIsApart(Next(Square, place, list.head).place, list.tail, rest, list.head.Space?);
    }
  }

  lemma {:induction false} SetApartIsApart(t: Text, gap: bool)
    ensures Apart(SetApart(t, gap), gap)
    decreases Length(t)
  {
    if t.Cons? {
      var c := Citation(Square, t);
      if c.Closed? && !gap {
        SquareBodyIsList(Opened, t.tail);
        SetApartIsApart(c.rest, false);
        ListIsApart(Opened, c.body, SetApart(c.rest, false), false);
      } else {
        SetApartIsApart(t.tail, t.head.Space?);
        SetApartKeepsSquare(Opened, t.tail, t.head.Space?);
      }
    }
  }

  lemma {:induction false} NothingToSetApart(t: Text, gap: bool)
    requires Apart(t, gap)
    ensures SetApart(t, gap) == t
    decreases Length(t)
  {
    if t.Cons? {
      NothingToSetApart(t.tail, t.head.Space?);
    }
  }

  /** Normalisation leaves every citation square and set apart, and changes nothing where that is so already. */
  lemma {:induction false} NormalizedIsApart(answer: Text)
    ensures Apart(Normalize(answer), true) && NoBrackets(Normalize(answer))
    ensures Normalize(answer) == answer <==> Apart(answer, true) && NoBrackets(answer)
  {
    SetApartIsApart(ReplaceBrackets(answer), true);
    ReplaceLeavesNoBrackets(answer);
    SetApartLeavesNoBrackets(ReplaceBrackets(answer), true);
    if Apart(answer, true) && NoBrackets(answer) {
      NothingToReplace(answer);
      NothingToSetApart(answer, true);
    }
  }

  /** The text outside all citations, without its blanks. */
  function Remainder(t: Text): Text
    decreases Length(t)
  {
    if t.End? then End
    else
      var bracketed, square := Citation(Bracketed, t), Citation(Square, t);
      if bracketed.Closed? then Remainder(bracketed.rest)
      else if square.Closed? then Remainder(square.rest)
      else if t.head.Space? then Remainder(t.tail)
      else Cons(t.head, Remainder(t.tail))
  }

  lemma {:induction false} ReplaceKeepsRemainder(t: Text)
    ensures Remainder(ReplaceBrackets(t)) == Remainder(t)
    decreases Length(t)
  {
    if t.Cons? {
      var b, c := Citation(Bracketed, t), Citation(Square, t);
      if b.Closed? {
        GroupIsList(Bracketed, t);
        ReplaceKeepsRemainder(b.rest);
        ListCloses(Opened, Group(Bracketed, b.body), ReplaceBrackets(b.rest));
      } else {
        ReplaceKeepsSquare(Opened, t.tail);
        ReplaceKeepsRemainder(t.tail);
        if t.head == LeftBracket && Close(Bracketed, Listed, ReplaceBrackets(t.tail)).Closed? {
          ReplaceClosesNoBracket(Listed, t.tail);
        }
        if c.Closed? {
          ReplaceKeepsRemainder(c.rest);
        }
      }
    }
  }

  lemma {:induction false} SetApartKeepsRemainder(t: Text, gap: bool)
    requires NoBrackets(t)
    ensures Remainder(SetApart(t, gap)) == Remainder(t)
    decreases Length(t)
  {
    if t.Cons? {
      var c := Citation(Square, t);
      if c.Closed? {
        SquareBodyIsList(Opened, t.tail);
        NoBracketsAfterList(Opened, c.body, c.rest);
        SetApartKeepsRemainder(c.rest, false);
        ListCloses(Opened, c.body, SetApart(c.rest, false));
        SetApartCopiesList(Opened, c.body, c.rest, false);
      } else {
        SetApartKeepsRemainder(t.tail, t.head.Space?);
        SetApartKeepsSquare(Opened, t.tail, t.head.Space?);
        if t.head == LeftBracket && Close(Bracketed, Listed, SetApart(t.tail, false)).Closed? {
          SetApartClosesNoBracket(Listed, t.tail, false);
        }
      }
    }
  }

  /** Outside the citations normalisation keeps every visible character, in order. */
  lemma {:induction false} NormalizeKeepsText(answer: Text)
    ensures Remainder(Normalize(answer)) == Remainder(answer)
  {
    ReplaceLeavesNoBrackets(answer);
    SetApartKeepsRemainder(ReplaceBrackets(answer), true);
    ReplaceKeepsRemainder(answer);
  }
}
