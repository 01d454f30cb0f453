/** Which generated answers are accepted, and what an accepted answer cites. */
module Answers {
  import opened Wrappers
  import opened Citations

  /** Python (3.11 on) raises ValueError on longer decimal literals, and such a number is skipped. */
  const MAX_INT_DIGITS: nat := 4300

  type Numeral = seq<nat>

  // ---------------------------------------------------------------- numbers in a group

  /** The comma-separated numerals of a group, blanks dropped. */
  function Numerals(group: Text, current: Numeral): (numerals: seq<Numeral>)
    ensures numerals != []
  {
    match group
    case End => [current]
    case Cons(Comma, rest) => [current] + Numerals(rest, [])
    case Cons(Digit(value, _), rest) => Numerals(rest, current + [value])
    case Cons(_, rest) => Numerals(rest, current)
  }

  function Value(numeral: Numeral): nat {
    if numeral == [] then 0 else 10 * Value(numeral[..|numeral| - 1]) + numeral[|numeral| - 1]
  }

  function ParseInt(numeral: Numeral): Option<nat> {
    if 0 < |numeral| <= MAX_INT_DIGITS then Some(Value(numeral)) else None
  }

  /** The numerals of all groups, in order. */
  function AllNumerals(groups: seq<Text>): seq<Numeral> {
    if groups == [] then [] else AllNumerals(groups[..|groups| - 1]) + Numerals(groups[|groups| - 1], [])
  }

  /** The distinct readable numbers, in order of first appearance. */
  function Distinctly(numerals: seq<Numeral>): seq<nat> {
    if numerals == [] then []
    else Remember(Distinctly(numerals[..|numerals| - 1]), ParseInt(numerals[|numerals| - 1]))
  }

  function Remember(numbers: seq<nat>, value: Option<nat>): seq<nat> {
    if value.Some? && value.value !in numbers then numbers + [value.value] else numbers
  }

  method CitationNumbers(groups: seq<Text>) returns (numbers: seq<nat>)
    ensures numbers == Distinctly(AllNumerals(groups))
  {
    hide Distinctly, Numerals, AllNumerals, ParseInt;
    numbers := [];
    var seen: set<nat> := {};
    NothingRead();
    for g := 0 to |groups|
      invariant numbers == Distinctly(AllNumerals(groups[..g]))
      invariant seen == set v | v in numbers
    {
      ghost var before := AllNumerals(groups[..g]);
      var raws := Numerals(groups[g], []);
      assert before + raws[..0] == before;
      for r := 0 to |raws|
        invariant numbers == Distinctly(before + raws[..r])
        invariant seen == set v | v in numbers
      {
        DistinctlyOneMore(before, raws, r);
        var value := ParseInt(raws[r]);
        if value.Some? && value.value !in seen {
          seen := seen + {value.value};
          numbers := numbers + [value.value];
        }
      }
      assert before + raws[..|raws|] == before + raws;
      AllNumeralsOneMore(groups, g);
    }
    assert groups[..|groups|] == groups;
  }

  lemma NothingRead()
    ensures AllNumerals([]) == [] && Distinctly([]) == []
  {
  }

  lemma DistinctlyOneMore(before: seq<Numeral>, raws: seq<Numeral>, r: nat)
    requires r < |raws|
    ensures Distinctly(before + raws[..r + 1]) == Remember(Distinctly(before + raws[..r]), ParseInt(raws[r]))
  {
    hide ParseInt, Remember;
    var all := before + raws[..r + 1];
    assert all[..|all| - 1] == before + raws[..r] && all[|all| - 1] == raws[r];
  }

  lemma AllNumeralsOneMore(groups: seq<Text>, g: nat)
    requires g < |groups|
    ensures AllNumerals(groups[..0]) == []
    ensures AllNumerals(groups[..g + 1]) == AllNumerals(groups[..g]) + Numerals(groups[g], [])
  {
    hide Numerals;
    assert groups[..g + 1][..g] == groups[..g];
  }

  lemma {:induction false} DistinctlyKeepsAll(numerals: seq<Numeral>, v: nat)
    ensures v in Distinctly(numerals) <==> exists i :: 0 <= i < |numerals| && ParseInt(numerals[i]) == Some(v)
  {
    if numerals != [] {
      var init, last := numerals[..|numerals| - 1], |numerals| - 1;
      DistinctlyKeepsAll(init, v);
      if v in Distinctly(numerals) && v in Distinctly(init) {
        var i :| 0 <= i < |init| && ParseInt(init[i]) == Some(v);
        assert ParseInt(numerals[i]) == Some(v);
      }
    }
  }

  // ---------------------------------------------------------------- the checker

  function Ascii(c: char): Glyph {
    if '0' <= c <= '9' then Digit(c as nat - '0' as nat, c as nat)
    else if c == ' ' then BLANK
    else if c == ',' then Comma
    else if c == '[' then LeftSquare
    else if c == ']' then RightSquare
    else Other(c as nat)
  }

  function Encode(s: string): Text {
    if s == "" then End else Cons(Ascii(s[0]), Encode(s[1..]))
  }

  const NO_INFORMATION: Text := Encode("The provided documents do not contain this information.")

  function StripTrailing(t: Text): Text {
    if t.End? then End
    else
      var rest := StripTrailing(t.tail);
      if rest.End? && t.head.Space? then End else Cons(t.head, rest)
  }

  function StartsWith(t: Text, prefix: Text): bool {
    prefix.End? || (t.Cons? && t.head == prefix.head && StartsWith(t.tail, prefix.tail))
  }

  predicate SaysNoInformation(answer: Text) {
    StartsWith(StripTrailing(DropSpaces(answer)), NO_INFORMATION)
  }

  function Filter(numbers: seq<nat>, valid: set<nat>): seq<nat> {
    if numbers == [] then []
    else Filter(numbers[..|numbers| - 1], valid)
         + (if numbers[|numbers| - 1] in valid then [] else [numbers[|numbers| - 1]])
  }

  datatype Check = Check(ok: bool, cited: seq<nat>, missing: seq<nat>, nonstandard: seq<nat>)

  function CheckCitations(answer: Text, valid: set<nat>): Check {
    var cited := Distinctly(AllNumerals(Groups(Square, answer)));
    var nonstandard := Distinctly(AllNumerals(Groups(Bracketed, answer)));
    var missing := Filter(cited, valid);
    var required := cited != [] || SaysNoInformation(answer) || valid == {};
    Check(required && missing == [] && nonstandard == [], cited, missing, nonstandard)
  }

  datatype AnswerError = CitationValidationFailed

  function ValidatedAnswer(answer: Text, sourceIds: seq<nat>): Result<Text, AnswerError> {
    var normalized := Normalize(answer);
    if sourceIds == [] && !SaysNoInformation(normalized) then Err(CitationValidationFailed)
    else if !CheckCitations(normalized, set id | id in sourceIds).ok then Err(CitationValidationFailed)
    else Ok(normalized)
  }

  // ---------------------------------------------------------------- what acceptance means

  /** The readable numbers an answer cites, before any normalisation: square or bracketed, in any order. */
  ghost predicate Cites(answer: Text, v: nat) {
    var numerals := AllNumerals(MixedGroups(answer));
    exists i :: 0 <= i < |numerals| && ParseInt(numerals[i]) == Some(v)
  }

  ghost predicate Grounded(answer: Text, count: nat) {
    forall v: nat :: Cites(answer, v) ==> 1 <= v <= count
  }

  ghost predicate CitesSomething(answer: Text) {
    exists v :: Cites(answer, v)
  }

  lemma {:induction false} FilterEmpty(numbers: seq<nat>, valid: set<nat>)
    ensures Filter(numbers, valid) == [] <==> forall v :: v in numbers ==> v in valid
  {
    if numbers != [] {
      FilterEmpty(numbers[..|numbers| - 1], valid);
      assert numbers == numbers[..|numbers| - 1] + [numbers[|numbers| - 1]];
    }
  }

  /** The readable square citations of a text name only sources. */
  ghost predicate CitesWithin(text: Text, count: nat) {
    forall v: nat :: v in Distinctly(AllNumerals(Groups(Square, text))) ==> 1 <= v <= count
  }

  lemma {:induction false} GroundedMeansWithin(answer: Text, count: nat)
    ensures Grounded(answer, count) <==> CitesWithin(Normalize(answer), count)
  {
    hide Normalize, MixedGroups, AllNumerals, Distinctly;
    NormalizeKeepsCitations(answer);
    forall v: nat ensures v in Distinctly(AllNumerals(MixedGroups(answer))) <==> Cites(answer, v) {
      DistinctlyKeepsAll(AllNumerals(MixedGroups(answer)), v);
    }
  }

  ghost predicate NumberedFromOne(sourceIds: seq<nat>) {
    forall k :: 0 <= k < |sourceIds| ==> sourceIds[k] == k + 1
  }

  /**
   Acceptance, both ways: an answer is accepted exactly when every number it cites names one of the
   sources shown to the generator, and it cites something or says that there is no information,
   which it must say when there were no sources. The accepted text is the normalised one.
   */
  lemma {:induction false} AcceptedExactly(answer: Text, sourceIds: seq<nat>)
    requires NumberedFromOne(sourceIds)
    ensures ValidatedAnswer(answer, sourceIds).Ok? <==>
              Grounded(answer, |sourceIds|)
              && (SaysNoInformation(Normalize(answer)) || (sourceIds != [] && CitesSomething(answer)))
    ensures ValidatedAnswer(answer, sourceIds).Ok? ==> ValidatedAnswer(answer, sourceIds).value == Normalize(answer)
  {
    hide Normalize, SaysNoInformation;
    var normalized := Normalize(answer);
    NormalizeKeepsCitations(answer);
    NormalizedHasNoBrackets(answer);
    var valid := set id | id in sourceIds;
    var cited := Distinctly(AllNumerals(Groups(Square, normalized)));
    forall v ensures v in cited <==> Cites(answer, v) {
      DistinctlyKeepsAll(AllNumerals(MixedGroups(answer)), v);
    }
    forall v: nat ensures v in valid <==> 1 <= v <= |sourceIds| {
      if 1 <= v <= |sourceIds| {
        assert sourceIds[v - 1] == v;
      }
    }
    FilterEmpty(cited, valid);
    if sourceIds != [] {
      assert sourceIds[0] in valid;
    }
    if cited != [] {
      assert Cites(answer, cited[0]);
    }
  }

  // ---------------------------------------------------------------- numbers too long to read

  /** Every cited number, readable or not, lies in 1..count. */
  ghost predicate AllInRange(answer: Text, count: nat) {
    var numerals := AllNumerals(MixedGroups(answer));
    forall i :: 0 <= i < |numerals| ==> 1 <= Value(numerals[i]) <= count
  }

  ghost predicate NoneOverlong(answer: Text) {
    var numerals := AllNumerals(MixedGroups(answer));
    forall i :: 0 <= i < |numerals| ==> |numerals[i]| <= 4300
  }

  /** The numerals that are not read happen to name sources. */
  ghost predicate OverlongInRange(answer: Text, count: nat) {
    var numerals := AllNumerals(MixedGroups(answer));
    forall i :: 0 <= i < |numerals| && |numerals[i]| > 4300 ==> 1 <= Value(numerals[i]) <= count
  }

  /** No numeral has leading zeros. */
  ghost predicate PlainNumerals(answer: Text) {
    var numerals := AllNumerals(MixedGroups(answer));
    forall i :: 0 <= i < |numerals| && numerals[i] != [] ==> numerals[i][0] > 0
  }

  // The patterns admit no empty numeral: every place where one could end comes after a digit.
  lemma {:induction false} NumeralsAreNonempty(place: Place, group: Text, current: Numeral)
    requires IsList(place, group) && (place == Number || place == Spaced ==> current != [])
    ensures forall i :: 0 <= i < |Numerals(group, current)| ==> Numerals(group, current)[i] != []
    decreases group
  {
    if group.Cons? {
      var g := group.head;
      NumeralsAreNonempty(Next(Square, place, g).place, group.tail,
                          if g.Comma? then [] else if g.Digit? then current + [g.value] else current);
    }
  }

  lemma {:induction false} GroupsAreLists(t: Text)
    ensures forall i :: 0 <= i < |MixedGroups(t)| ==> IsList(Opened, MixedGroups(t)[i])
    decreases Length(t)
  {
    if t.Cons? {
      var bracketed, square := Citation(Bracketed, t), Citation(Square, t);
      if bracketed.Closed? {
        GroupIsList(Bracketed, t);
        GroupsAreLists(bracketed.rest);
      } else if square.Closed? {
        GroupIsList(Square, t);
        GroupsAreLists(square.rest);
      } else {
        GroupsAreLists(t.tail);
      }
    }
  }

  lemma {:induction false} AllNumeralsAreNonempty(groups: seq<Text>)
    requires forall i :: 0 <= i < |groups| ==> IsList(Opened, groups[i])
    ensures forall i :: 0 <= i < |AllNumerals(groups)| ==> AllNumerals(groups)[i] != []
  {
    if groups != [] {
      AllNumeralsAreNonempty(groups[..|groups| - 1]);
      NumeralsAreNonempty(Opened, groups[|groups| - 1], []);
    }
  }

  /**
   Of every accepted answer: all its numbers lie in 1..sources if and only if those too long to be read do. So
   they lie there whenever none is too long.
   */
  lemma {:induction false} InRangeExactly(answer: Text, sourceIds: seq<nat>)
    requires NumberedFromOne(sourceIds) && ValidatedAnswer(answer, sourceIds).Ok?
    ensures AllInRange(answer, |sourceIds|) <==> OverlongInRange(answer, |sourceIds|)
    ensures NoneOverlong(answer) ==> AllInRange(answer, |sourceIds|)
  {
    hide Normalize, SaysNoInformation, MixedGroups, ValidatedAnswer, AllNumerals, Value;
    AcceptedExactly(answer, sourceIds);
    GroupsAreLists(answer);
    AllNumeralsAreNonempty(MixedGroups(answer));
    var numerals := AllNumerals(MixedGroups(answer));
    forall i | 0 <= i < |numerals| && |numerals[i]| <= MAX_INT_DIGITS ensures 1 <= Value(numerals[i]) <= |sourceIds| {
      assert ParseInt(numerals[i]) == Some(Value(numerals[i]));
      assert Cites(answer, Value(numerals[i]));
    }
  }

  lemma {:induction false} LongNumeralsAreLarge(numeral: Numeral)
    requires numeral != [] && numeral[0] > 0
    ensures Value(numeral) >= 1
    ensures |numeral| >= 4 ==> Value(numeral) >= 1000
  {
    if |numeral| > 1 {
      LongNumeralsAreLarge(numeral[..|numeral| - 1]);
      if |numeral| == 4 {
        assert numeral[..3][..2][..1] == [numeral[0]];
        assert Value([numeral[0]]) == 10 * Value([]) + numeral[0];
        assert Value(numeral[..3][..2]) >= 10;
        assert Value(numeral[..3]) >= 100;
      }
    }
  }

  /** Written without leading zeros a number too long to be read is too large: a query has at most 100 sources. */
  lemma {:induction false} InRangeUnlessOverlong(answer: Text, sourceIds: seq<nat>)
    requires NumberedFromOne(sourceIds) && |sourceIds| <= 100
    requires ValidatedAnswer(answer, sourceIds).Ok? && PlainNumerals(answer)
    ensures AllInRange(answer, |sourceIds|) <==> NoneOverlong(answer)
  {
    hide Normalize, SaysNoInformation, MixedGroups, ValidatedAnswer, AllNumerals, Value;
    InRangeExactly(answer, sourceIds);
    var numerals := AllNumerals(MixedGroups(answer));
    forall i | 0 <= i < |numerals| && |numerals[i]| > MAX_INT_DIGITS ensures Value(numerals[i]) > |sourceIds| {
      LongNumeralsAreLarge(numerals[i]);
    }
  }

  ghost function Nines(n: nat): Text {
    if n == 0 then End else Cons(Digit(9, 57), Nines(n - 1))
  }

  ghost function NinesValue(n: nat): Numeral {
    seq(n, _ => 9)
  }

  lemma {:induction false} NinesRead(n: nat, place: Place, current: Numeral)
    requires place == Number || (place == Opened && n > 0)
    ensures IsList(place, Nines(n))
    ensures Numerals(Nines(n), current) == [current + NinesValue(n)]
    decreases n
  {
    if n > 0 {
      NinesRead(n - 1, Number, current + [9]);
      assert current + [9] + NinesValue(n - 1) == current + NinesValue(n);
    } else {
      assert current + NinesValue(0) == current;
    }
  }

  /** A blank and a citation of source one. */
  const CITE_ONE: Text := Cons(BLANK, Cons(LeftSquare, Cons(Digit(1, 49), Cons(RightSquare, End))))

  lemma CiteOneGroups()
    ensures MixedGroups(CITE_ONE) == [Cons(Digit(1, 49), End)]
    ensures Numerals(Cons(Digit(1, 49), End), []) == [[1]]
  {
    var citation := CITE_ONE.tail;
    assert Close(Square, Opened, citation.tail) == Closed(Cons(Digit(1, 49), End), End);
    assert MixedGroups(citation) == [Cons(Digit(1, 49), End)] + MixedGroups(End);
    var none: Numeral := [];
    assert none + [1] == [1];
    assert Numerals(Cons(Digit(1, 49), End), none) == Numerals(End, none + [1]);
  }

  /** A citation of one overlong numeral, then a citation of source one. */
  ghost function OverlongAnswer(): Text {
    Cons(LeftSquare, Append(Nines(MAX_INT_DIGITS + 1), Cons(RightSquare, CITE_ONE)))
  }

  lemma GroupInFront(group: Text, rest: Text)
    requires IsList(Opened, group)
    ensures MixedGroups(Cons(LeftSquare, Append(group, Cons(RightSquare, rest)))) == [group] + MixedGroups(rest)
  {
    ListCloses(Opened, group, rest);
  }

  lemma TwoNumerals(a: Text, b: Text, x: Numeral, y: Numeral)
    requires Numerals(a, []) == [x] && Numerals(b, []) == [y]
    ensures AllNumerals([a] + [b]) == [x, y]
  {
    assert ([a] + [b])[..1] == [a] && [a][..0] == [];
    assert AllNumerals([a]) == AllNumerals([]) + [x];
  }

  lemma {:induction false} OverlongAnswerNumerals()
    ensures AllNumerals(MixedGroups(OverlongAnswer())) == [NinesValue(MAX_INT_DIGITS + 1), [1]]
  {
    hide NinesValue, Nines, IsList, AllNumerals, MixedGroups, Numerals;
    var n, one := MAX_INT_DIGITS + 1, Cons(Digit(1, 49), End);
    NinesRead(n, Opened, []);
    assert [] + NinesValue(n) == NinesValue(n);
    GroupInFront(Nines(n), CITE_ONE);
    CiteOneGroups();
    TwoNumerals(Nines(n), one, NinesValue(n), [1]);
  }

  /** An accepted answer that names a source far outside the one source it was given. */
  lemma {:induction false} OverlongNumeralEscapes()
    ensures var answer := OverlongAnswer();
            ValidatedAnswer(answer, [1]).Ok? && PlainNumerals(answer) && !AllInRange(answer, 1)
  {
    hide Normalize, SaysNoInformation, ValidatedAnswer, NinesValue, OverlongAnswer, MixedGroups;
    var answer := OverlongAnswer();
    OverlongAnswerNumerals();
    NinesNumeral(MAX_INT_DIGITS + 1);
    var numerals := AllNumerals(MixedGroups(answer));
    assert Value([1]) == 10 * Value([]) + 1 == 1;
    assert ParseInt(numerals[1]) == Some(1);
    assert Cites(answer, 1);
    AcceptedExactly(answer, [1]);
    LongNumeralsAreLarge(numerals[0]);
    assert Value(numerals[0]) > 1;
  }

  lemma NinesNumeral(n: nat)
    ensures |NinesValue(n)| == n && (n > 0 ==> NinesValue(n)[0] == 9)
  {
  }
}
