/** Day 4 (day04/src/lib.rs): scratchcards. Each card lists winning numbers and the numbers
    the player owns; the owned numbers that are winning are its matches, and the card is worth
    one point for the first match, doubled for each further one. */
module Day04 {
  import opened Wrappers
  import opened Strings

  /** `u32::MAX + 1`: a number text above `u32::MAX` fails to parse. */
  const U32Limit: nat := 0x1_0000_0000

  /** A card: its id, the set of winning numbers and the owned numbers in order. */
  datatype Card = Card(id: nat, winning: set<nat>, owned: seq<nat>)

  // ---------------------------------------------------------------------------------------
  // Parsing
  // ---------------------------------------------------------------------------------------

  function SetOf(ns: seq<nat>): (r: set<nat>)
    ensures forall x :: x in r <==> x in ns
  {
    set i | 0 <= i < |ns| :: ns[i]
  }

  predicate AllU32(ns: seq<nat>) {
    forall i :: 0 <= i < |ns| ==> ns[i] < U32Limit
  }

  /** The words of a number list parsed as `u32`s; `None` stands for the `unwrap` panic. */
  function ParseU32s(text: string): Option<seq<nat>> {
    match ParseNats(SplitWhitespace(text))
    case Some(ns) => if AllU32(ns) then Some(ns) else None
    case None => None
  }

  /** `Card::parse`: the header before ": " ends with the id, and the rest splits at " | "
      into the winning and the owned numbers. `None` stands for the panics of the `unwrap`s:
      a missing separator, an empty header, a word that is not a number. */
  function Parse(st: string): Option<Card> {
    match SplitOnce(st, ": ")
    case None => None
    case Some((header, numbers)) =>
      var words := SplitWhitespace(header);
      if words == [] then None
      else match (ParseNumbers(numbers), ParseNat(words[|words| - 1]))
        case (Some((winning, owned)), Some(id)) => Some(Card(id, SetOf(winning), owned))
        case _ => None
  }

  /** The numbers after the header: the winning ones before " | ", the owned ones after. */
  function ParseNumbers(numbers: string): Option<(seq<nat>, seq<nat>)> {
    match SplitOnce(numbers, " | ")
    case None => None
    case Some((winningRaw, ownedRaw)) =>
      match (ParseU32s(winningRaw), ParseU32s(ownedRaw))
      case (Some(winning), Some(owned)) => Some((winning, owned))
      case _ => None
  }

  /** A number right-aligned in a column two characters wide, as the puzzle writes them. */
  function PaddedText(n: nat): string {
    if n < 10 then " " + NatText(n) else NatText(n)
  }

  function PaddedTexts(ns: seq<nat>): seq<string> {
    seq(|ns|, k requires 0 <= k < |ns| => PaddedText(ns[k]))
  }

  /** A card written out as the puzzle does: the numbers in columns two characters wide,
      separated by single spaces. */
  function CardText(id: nat, winning: seq<nat>, owned: seq<nat>): string {
    "Card " + NatText(id) + ": " + (Join(PaddedTexts(winning), " ") + " | " + Join(PaddedTexts(owned), " "))
  }

  lemma PaddedTextsAvoid(ns: seq<nat>, c: char)
    requires !IsDigit(c) && c != ' '
    ensures c !in Join(PaddedTexts(ns), " ")
  {
    forall i | 0 <= i < |PaddedTexts(ns)| ensures c !in PaddedTexts(ns)[i] {
      var t := NatText(ns[i]);
      assert forall k :: 0 <= k < |t| ==> IsDigit(t[k]);
    }
    JoinAvoids(PaddedTexts(ns), " ", c);
  }

  lemma HeaderWords(id: nat)
    ensures SplitWhitespace("Card " + NatText(id)) == ["Card", NatText(id)]
    ensures ':' !in "Card " + NatText(id)
  {
    var t := NatText(id);
    NatTextIsWord(id);
    assert IsWord("Card");
    assert Join(["Card", t], " ") == "Card" + " " + t;
    assert "Card" + " " + t == "Card " + t;
    SplitWhitespaceJoin(["Card", t]);
    assert forall k :: 0 <= k < |t| ==> IsDigit(t[k]);
  }

  /** The padded texts split back into the numbers' texts, and parse to the numbers. */
  lemma ParseU32sText(ns: seq<nat>)
    requires AllU32(ns)
    ensures ParseU32s(Join(PaddedTexts(ns), " ")) == Some(ns)
  {
    forall k | 0 <= k < |ns| ensures IsWord(NatTexts(ns)[k]) {
      NatTextIsWord(ns[k]);
    }
    SplitWhitespacePadded(PaddedTexts(ns), NatTexts(ns));
    ParseNatTexts(ns);
  }

  lemma ParseNumbersText(winning: seq<nat>, owned: seq<nat>)
    requires AllU32(winning) && AllU32(owned)
    ensures ParseNumbers(Join(PaddedTexts(winning), " ") + " | " + Join(PaddedTexts(owned), " ")) == Some((winning, owned))
  {
    var w, o := Join(PaddedTexts(winning), " "), Join(PaddedTexts(owned), " ");
    PaddedTextsAvoid(winning, '|');
    assert " | "[..1] == " ";
    SplitOnceInner(w, " | ", o, 1);
    ParseU32sText(winning);
    ParseU32sText(owned);
  }

  /** Parsing a written card gives back its id, the set of its winning numbers and its owned
      numbers in order, repeats included. */
  lemma ParseCardText(id: nat, winning: seq<nat>, owned: seq<nat>)
    requires AllU32(winning) && AllU32(owned)
    ensures Parse(CardText(id, winning, owned)) == Some(Card(id, SetOf(winning), owned))
  {
    var numbers := Join(PaddedTexts(winning), " ") + " | " + Join(PaddedTexts(owned), " ");
    CardTextSplits(id, numbers);
    HeaderWords(id);
    ParseNumbersText(winning, owned);
    ParseNatText(id);
    ParseParts(CardText(id, winning, owned), "Card " + NatText(id), numbers, id, winning, owned);
  }

  /** A card's text is its header, ": " and its numbers. */
  lemma CardTextSplits(id: nat, numbers: string)
    ensures SplitOnce("Card " + NatText(id) + ": " + numbers, ": ") == Some(("Card " + NatText(id), numbers))
  {
    HeaderWords(id);
    SplitOncePattern("Card " + NatText(id), ": ", numbers);
  }

  /** A text whose header ends with the id and whose numbers parse is the card they make. */
  lemma ParseParts(st: string, header: string, numbers: string, id: nat, winning: seq<nat>, owned: seq<nat>)
    requires SplitOnce(st, ": ") == Some((header, numbers))
    requires SplitWhitespace(header) == ["Card", NatText(id)] && ParseNat(NatText(id)) == Some(id)
    requires ParseNumbers(numbers) == Some((winning, owned))
    ensures Parse(st) == Some(Card(id, SetOf(winning), owned))
  {
  }

  /** The card of the source's parsing test; written in the puzzle's columns, its text is
      the test's, double spaces included. */
  lemma ParseExample(winning: seq<nat>, owned: seq<nat>)
    requires winning == [41, 48, 83, 86, 17] && owned == [83, 86, 6, 31, 17, 9, 48, 53]
    ensures Parse(CardText(1, winning, owned)) == Some(Card(1, {41, 48, 83, 86, 17}, owned))
  {
    assert AllU32(winning) && AllU32(owned);
    ParseCardText(1, winning, owned);
    ExampleSet(winning);
  }

  lemma ExampleSet(winning: seq<nat>)
    requires winning == [41, 48, 83, 86, 17]
    ensures SetOf(winning) == {41, 48, 83, 86, 17}
  {
    assert winning[0] == 41 && winning[1] == 48 && winning[2] == 83 && winning[3] == 86 && winning[4] == 17;
    assert forall x :: x in winning <==> x == 41 || x == 48 || x == 83 || x == 86 || x == 17;
  }

  /** A header without a ": " separator makes `parse` panic. */
  lemma ParseNoColon(st: string)
    requires ':' !in st
    ensures Parse(st).None?
  {
    SplitOnceNoPattern(st, ": ");
  }

  // ---------------------------------------------------------------------------------------
  // Matches and value
  // ---------------------------------------------------------------------------------------

  /** The number of entries of `ns` that are in `winning`, repeats included. */
  function CountIn(ns: seq<nat>, winning: set<nat>): (n: nat)
    ensures n <= |ns|
  {
    if ns == [] then 0
    else CountIn(ns[..|ns| - 1], winning) + (if ns[|ns| - 1] in winning then 1 else 0)
  }

  /** `Card::winner_count`. */
  function WinnerCount(c: Card): nat {
    CountIn(c.owned, c.winning)
  }

  /** The positions of the owned numbers that are winning. */
  function Matches(ns: seq<nat>, winning: set<nat>): set<nat> {
    set i | 0 <= i < |ns| && ns[i] in winning
  }

  /** The count is the number of positions holding a winning number: every repeat of an
      owned winning number counts. It is 0 exactly when no owned number wins, and the number
      of owned numbers exactly when all of them win. */
  lemma {:induction false} CountInSpec(ns: seq<nat>, winning: set<nat>)
    ensures CountIn(ns, winning) == |Matches(ns, winning)|
    ensures CountIn(ns, winning) == 0 <==> forall i :: 0 <= i < |ns| ==> ns[i] !in winning
    ensures CountIn(ns, winning) == |ns| <==> forall i :: 0 <= i < |ns| ==> ns[i] in winning
  {
    if ns != [] {
      var init := ns[..|ns| - 1];
      var x := ns[|ns| - 1];
      CountInSpec(init, winning);
      var before := Matches(init, winning);
      assert forall i :: 0 <= i < |init| ==> init[i] == ns[i];
      if x in winning {
        assert Matches(ns, winning) == before + {|init|};
      } else {
        assert Matches(ns, winning) == before;
        assert CountIn(ns, winning) < |ns|;
      }
    }
  }

  function Pow2(k: nat): (r: nat)
    ensures r >= 1
  {
    if k == 0 then 1 else 2 * Pow2(k - 1)
  }

  /** The points for `matches` matches: 0 without a match, else `1 << (matches - 1)`. */
  function ValueOf(matches: nat): nat
    requires matches <= 64
  {
    if matches > 0 then Pow2(matches - 1) else 0
  }

  /** `Card::value`. A shift by 64 or more bits overflows the `u64`, so a card has at most
      64 matches. */
  function Value(c: Card): nat
    requires WinnerCount(c) <= 64
  {
    ValueOf(WinnerCount(c))
  }

  /** One match is worth one point, each further match doubles the value, and the value fits
      in a `u64`. */
  lemma ValueDoubles(matches: nat)
    requires 1 <= matches < 64
    ensures ValueOf(1) == 1 && ValueOf(0) == 0
    ensures ValueOf(matches + 1) == 2 * ValueOf(matches)
    ensures ValueOf(matches + 1) < 0x1_0000_0000_0000_0000
  {
    Pow2Monotone(matches, 63);
    Pow2U64();
  }

  lemma {:induction false} Pow2Monotone(a: nat, b: nat)
    requires a <= b
    ensures Pow2(a) <= Pow2(b)
    decreases b
  {
    if a < b {
      Pow2Monotone(a, b - 1);
    }
  }

  lemma {:induction false} Pow2Add(a: nat, b: nat)
    ensures Pow2(a + b) == Pow2(a) * Pow2(b)
    decreases a
  {
    if a > 0 {
      Pow2Add(a - 1, b);
    }
  }

  lemma Pow2Square(k: nat, v: nat)
    requires Pow2(k) == v
    ensures Pow2(2 * k) == v * v
  {
    Pow2Add(k, k);
  }

  /** `1 << 63` is the largest power of two a `u64` holds. */
  lemma Pow2U64()
    ensures Pow2(63) * 2 == 0x1_0000_0000_0000_0000
  {
    assert Pow2(2) == 4;
    Pow2Square(2, 4);
    Pow2Square(4, 16);
    Pow2Square(8, 256);
    Pow2Square(16, 65536);
    Pow2Square(32, 0x1_0000_0000);
  }

  /** The matches of one card with eight owned numbers, checked number by number. */
  lemma CountEight(c: Card, positions: set<nat>)
    requires |c.owned| == 8 && forall p :: p in positions ==> p < 8
    requires forall i :: 0 <= i < 8 ==> (c.owned[i] in c.winning <==> i in positions)
    ensures WinnerCount(c) == |positions|
  {
    CountInSpec(c.owned, c.winning);
    assert Matches(c.owned, c.winning) == positions;
  }

  /** Card `k` of the puzzle's sample input. */
  function SampleCard(k: nat): Card
    requires 1 <= k <= 6
  {
    if k == 1 then Card(1, {41, 48, 83, 86, 17}, [83, 86, 6, 31, 17, 9, 48, 53])
    else if k == 2 then Card(2, {13, 32, 20, 16, 61}, [61, 30, 68, 82, 17, 32, 24, 19])
    else if k == 3 then Card(3, {1, 21, 53, 59, 44}, [69, 82, 63, 72, 16, 21, 14, 1])
    else if k == 4 then Card(4, {41, 92, 73, 84, 69}, [59, 84, 76, 51, 58, 5, 54, 83])
    else if k == 5 then Card(5, {87, 83, 26, 28, 32}, [88, 30, 70, 12, 93, 22, 82, 36])
    else Card(6, {31, 18, 13, 56, 72}, [74, 77, 10, 23, 35, 67, 36, 11])
  }

  lemma SampleMatches1()
    ensures WinnerCount(SampleCard(1)) == 4
  {
    CountEight(SampleCard(1), {0, 1, 4, 6});
  }

  lemma SampleMatches2()
    ensures WinnerCount(SampleCard(2)) == 2
  {
    CountEight(SampleCard(2), {0, 5});
  }

  lemma SampleMatches3()
    ensures WinnerCount(SampleCard(3)) == 2
  {
    CountEight(SampleCard(3), {5, 7});
  }

  lemma SampleMatches4()
    ensures WinnerCount(SampleCard(4)) == 1
  {
    CountEight(SampleCard(4), {1});
  }

  lemma SampleMatches5()
    ensures WinnerCount(SampleCard(5)) == 0
  {
    CountEight(SampleCard(5), {});
  }

  lemma SampleMatches6()
    ensures WinnerCount(SampleCard(6)) == 0
  {
    CountEight(SampleCard(6), {});
  }

  /** The six sample cards are worth 8, 2, 2, 1, 0 and 0 points. */
  lemma SampleValues()
    ensures forall k :: 1 <= k <= 6 ==> WinnerCount(SampleCard(k)) <= 64
    ensures seq(6, i requires 0 <= i < 6 && WinnerCount(SampleCard(i + 1)) <= 64 => Value(SampleCard(i + 1))) ==
      [8, 2, 2, 1, 0, 0]
  {
    SampleMatches1();
    SampleMatches2();
    SampleMatches3();
    SampleMatches4();
    SampleMatches5();
    SampleMatches6();
    assert Pow2(3) == 8;
  }
}
