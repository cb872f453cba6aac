/** Day 7 (day07/src/lib.rs): Camel Cards. A hand is five cards and a bid; its kind (five of
    a kind down to high card) depends only on how often each face occurs. Hands are ordered
    by kind, then card by card, then by bid. */
module Day07 {
  import opened Wrappers
  import opened Strings

  // ---------------------------------------------------------------------------------------
  // Cards and kinds, in the order of their declarations
  // ---------------------------------------------------------------------------------------

  datatype Kind = High | Pair | TwoPair | ThreeOf | Full | FourOf | FiveOf

  datatype Card = Joker | Two | Three | Four | Five | Six | Seven | Eight | Nine | Ten
                | Jack | Queen | King | Ace

  /** The number of faces. */
  const Faces: nat := 14

  /** The face at position `n` of the declaration, weakest first. */
  function CardOf(n: nat): Card
    requires n < Faces
  {
    match n
    case 0 => Joker case 1 => Two case 2 => Three case 3 => Four case 4 => Five
    case 5 => Six case 6 => Seven case 7 => Eight case 8 => Nine case 9 => Ten
    case 10 => Jack case 11 => Queen case 12 => King case _ => Ace
  }

  /** The position of a face in the declaration, which the derived ordering compares. */
  function CardRank(c: Card): (n: nat)
    ensures n < Faces && CardOf(n) == c
  {
    match c
    case Joker => 0 case Two => 1 case Three => 2 case Four => 3 case Five => 4
    case Six => 5 case Seven => 6 case Eight => 7 case Nine => 8 case Ten => 9
    case Jack => 10 case Queen => 11 case King => 12 case Ace => 13
  }

  function KindRank(k: Kind): (n: nat)
    ensures n < 7
  {
    match k
    case High => 0 case Pair => 1 case TwoPair => 2 case ThreeOf => 3
    case Full => 4 case FourOf => 5 case FiveOf => 6
  }

  lemma CardOfRank(n: nat)
    requires n < Faces
    ensures CardRank(CardOf(n)) == n
  {
  }

  /** Ranks tell faces and kinds apart. */
  lemma RanksInjective(a: Card, b: Card, k: Kind, l: Kind)
    ensures CardRank(a) == CardRank(b) ==> a == b
    ensures KindRank(k) == KindRank(l) ==> k == l
  {
  }

  // ---------------------------------------------------------------------------------------
  // `Card::from_char`
  // ---------------------------------------------------------------------------------------

  /** `Card::from_char`: 'J' is the joker when `withJoker` is set and the jack otherwise. */
  function CardFromChar(value: char, withJoker: bool): Result<Card, string> {
    match value
    case 'J' => if withJoker then Ok(Joker) else Ok(Jack)
    case '2' => Ok(Two) case '3' => Ok(Three) case '4' => Ok(Four) case '5' => Ok(Five)
    case '6' => Ok(Six) case '7' => Ok(Seven) case '8' => Ok(Eight) case '9' => Ok(Nine)
    case 'T' => Ok(Ten) case 'Q' => Ok(Queen) case 'K' => Ok(King) case 'A' => Ok(Ace)
    case _ => Err("Not a valid card face")
  }

  /** The character a card is written with (the joker shares 'J' with the jack). */
  function Face(c: Card): char {
    match c
    case Joker => 'J' case Two => '2' case Three => '3' case Four => '4' case Five => '5'
    case Six => '6' case Seven => '7' case Eight => '8' case Nine => '9' case Ten => 'T'
    case Jack => 'J' case Queen => 'Q' case King => 'K' case Ace => 'A'
  }

  /** The faces that `from_char` reads. */
  predicate IsFace(ch: char) {
    ch in "23456789TJQKA"
  }

  /** `from_char` accepts exactly the thirteen faces, reads back the face of what it
      returns, and reads every card written by its face, except the jack when jokers are
      wild (and the joker when they are not). */
  lemma CardFromCharFaces(ch: char, c: Card, withJoker: bool)
    ensures CardFromChar(ch, withJoker).Ok? <==> IsFace(ch)
    ensures CardFromChar(ch, withJoker).Ok? ==> Face(CardFromChar(ch, withJoker).value) == ch
    ensures CardFromChar(ch, withJoker).Ok? ==> (CardFromChar(ch, withJoker).value == Joker <==> ch == 'J' && withJoker)
    ensures c != (if withJoker then Jack else Joker) ==> CardFromChar(Face(c), withJoker) == Ok(c)
  {
  }

  // ---------------------------------------------------------------------------------------
  // `Kind::from_cards`
  // ---------------------------------------------------------------------------------------

  /** The number of faces among the first `k` that occur exactly `v` times. */
  function Ranks(ms: multiset<Card>, v: nat, k: nat): nat
    requires k <= Faces
  {
    if k == 0 then 0 else Ranks(ms, v, k - 1) + (if ms[CardOf(k - 1)] == v then 1 else 0)
  }

  /** The kind of a hand, from how many faces occur five, four, three or two times. */
  function KindOf(cards: seq<Card>): Kind {
    var ms := multiset(cards);
    var n := Faces;
    if Ranks(ms, 5, n) > 0 then FiveOf
    else if Ranks(ms, 4, n) > 0 then FourOf
    else if Ranks(ms, 3, n) > 0 && Ranks(ms, 2, n) > 0 then Full
    else if Ranks(ms, 3, n) > 0 then ThreeOf
    else if Ranks(ms, 2, n) >= 2 then TwoPair
    else if Ranks(ms, 2, n) == 1 then Pair
    else High
  }

  /** The counts `unique` holds after the cards `cs`. */
  function Counts(cs: seq<Card>): map<Card, nat> {
    map c | c in multiset(cs) :: multiset(cs)[c]
  }

  /** The values of `unique`, face by face (the source's order is the hash map's). */
  function ValuesOf(u: map<Card, nat>, k: nat): seq<nat>
    requires k <= Faces
  {
    if k == 0 then []
    else ValuesOf(u, k - 1) + (if CardOf(k - 1) in u then [u[CardOf(k - 1)]] else [])
  }

  /** `Kind::from_cards`: count every face in a map, collect the counts, and decide by the
      number of distinct faces (and, for three or two of them, by the sorted counts).
      Comparing the sorted counts with a sorted literal is comparing their multisets. */
  method FromCards(cards: seq<Card>) returns (r: Result<Kind, string>)
    ensures r.Err? <==> |cards| != 5
    ensures r.Ok? ==> r.value == KindOf(cards)
  {
    if |cards| != 5 {
      return Err("Illegal hand size");
    }
    var unique: map<Card, nat> := map[];
    for i := 0 to |cards|
      invariant unique == Counts(cards[..i])
    {
      var card := cards[i];
      var count := if card in unique then unique[card] else 0;
      CountsSnoc(cards[..i], card);
      assert cards[..i + 1] == cards[..i] + [card];
      unique := unique[card := count + 1];
    }
    assert cards[..|cards|] == cards;
    var cardCount: seq<nat> := [];
    for k := 0 to Faces
      invariant cardCount == ValuesOf(unique, k)
    {
      var face := CardOf(k);
      if face in unique {
        cardCount := cardCount + [unique[face]];
      }
    }
    KindByCounts(cards);
    match |unique|
    case 5 => r := Ok(High);
    case 4 => r := Ok(Pair);
    case 3 => r := if multiset(cardCount) == multiset{1, 2, 2} then Ok(TwoPair) else Ok(ThreeOf);
    case 2 => r := if multiset(cardCount) == multiset{1, 4} then Ok(FourOf) else Ok(Full);
    case 1 => r := Ok(FiveOf);
    case _ =>
      assert false;
      r := Err("unimplemented");
  }

  lemma CountsSnoc(cs: seq<Card>, x: Card)
    ensures Counts(cs + [x]) ==
      Counts(cs)[x := (if x in Counts(cs) then Counts(cs)[x] else 0) + 1]
  {
    assert multiset(cs + [x]) == multiset(cs) + multiset{x};
  }

  /** What the counts of five cards look like: as many counts as distinct faces, each
      between one and five, adding up to five, and `v` occurs among them as often as
      there are faces that occur `v` times. */
  lemma HandShape(cards: seq<Card>)
    requires |cards| == 5
    ensures var vs := ValuesOf(Counts(cards), Faces);
      var m := multiset(vs);
      |Counts(cards)| == |vs| &&
      (forall v :: 1 <= v <= 5 ==> m[v] == Ranks(multiset(cards), v, Faces)) &&
      m[1] + 2 * m[2] + 3 * m[3] + 4 * m[4] + 5 * m[5] == 5 &&
      |vs| == m[1] + m[2] + m[3] + m[4] + m[5] &&
      (|vs| == 3 ==> (m == multiset{1, 2, 2} <==> m[2] == 2)) &&
      (|vs| == 2 ==> (m == multiset{1, 4} <==> m[4] == 1))
  {
    var u := Counts(cards);
    var vs := ValuesOf(u, Faces);
    KeysCount(u, Faces);
    forall v | 1 <= v <= 5
      ensures multiset(vs)[v] == Ranks(multiset(cards), v, Faces)
    {
      ValuesCount(cards, v, Faces);
    }
    ValuesSum(cards, Faces);
    TallyAll(cards);
    ValuesPositive(cards, Faces);
    AtMostSum(vs);
    SumByValue(vs);
    ShapeOfCounts(vs);
  }

  /** The keys of `u` among the first `k` faces. */
  function KeysBelow(u: map<Card, nat>, k: nat): set<Card> {
    set c | c in u && CardRank(c) < k
  }

  lemma {:induction false} KeysCount(u: map<Card, nat>, k: nat)
    requires k <= Faces
    ensures |KeysBelow(u, k)| == |ValuesOf(u, k)|
    ensures k == Faces ==> |u| == |ValuesOf(u, k)|
  {
    if k > 0 {
      KeysCount(u, k - 1);
      KeysStep(u, k);
    } else {
      assert KeysBelow(u, 0) == {};
    }
    if k == Faces {
      assert KeysBelow(u, k) == u.Keys;
    }
  }

  lemma KeysStep(u: map<Card, nat>, k: nat)
    requires 0 < k <= Faces
    ensures CardOf(k - 1) !in KeysBelow(u, k - 1)
    ensures KeysBelow(u, k) ==
      KeysBelow(u, k - 1) + (if CardOf(k - 1) in u then {CardOf(k - 1)} else {})
  {
    CardOfRank(k - 1);
    forall c | c in u && CardRank(c) == k - 1
      ensures c == CardOf(k - 1)
    {
    }
  }

  lemma {:induction false} ValuesCount(cards: seq<Card>, v: nat, k: nat)
    requires k <= Faces && v > 0
    ensures multiset(ValuesOf(Counts(cards), k))[v] == Ranks(multiset(cards), v, k)
  {
    if k > 0 {
      ValuesCount(cards, v, k - 1);
    }
  }

  /** The sum of a sequence of counts. */
  function Sum(s: seq<nat>): nat {
    if s == [] then 0 else Sum(s[..|s| - 1]) + s[|s| - 1]
  }

  lemma {:induction false} SumConcat(a: seq<nat>, b: seq<nat>)
    ensures Sum(a + b) == Sum(a) + Sum(b)
    decreases |b|
  {
    if b == [] {
      assert a + b == a;
    } else {
      assert (a + b)[..|a + b| - 1] == a + b[..|b| - 1];
      SumConcat(a, b[..|b| - 1]);
    }
  }

  /** How many cards of the first `k` faces there are. */
  function Tally(ms: multiset<Card>, k: nat): nat
    requires k <= Faces
  {
    if k == 0 then 0 else Tally(ms, k - 1) + ms[CardOf(k - 1)]
  }

  lemma {:induction false} ValuesSum(cards: seq<Card>, k: nat)
    requires k <= Faces
    ensures Sum(ValuesOf(Counts(cards), k)) == Tally(multiset(cards), k)
  {
    if k > 0 {
      ValuesSum(cards, k - 1);
      var face := CardOf(k - 1);
      var tail: seq<nat> := if face in Counts(cards) then [Counts(cards)[face]] else [];
      SumConcat(ValuesOf(Counts(cards), k - 1), tail);
      assert Sum([]) == 0;
    }
  }

  lemma {:induction false} TallyAdd(ms: multiset<Card>, x: Card, k: nat)
    requires k <= Faces
    ensures Tally(ms + multiset{x}, k) == Tally(ms, k) + (if CardRank(x) < k then 1 else 0)
  {
    if k > 0 {
      TallyAdd(ms, x, k - 1);
      CardOfRank(k - 1);
    }
  }

  /** Every card is counted under its face. */
  lemma {:induction false} TallyAll(cards: seq<Card>)
    ensures Tally(multiset(cards), Faces) == |cards|
    decreases |cards|
  {
    if cards == [] {
      TallyEmpty(Faces);
    } else {
      var init := cards[..|cards| - 1];
      assert cards == init + [cards[|cards| - 1]];
      TallyAll(init);
      TallyAdd(multiset(init), cards[|cards| - 1], Faces);
    }
  }

  lemma {:induction false} TallyEmpty(k: nat)
    requires k <= Faces
    ensures Tally(multiset{}, k) == 0
  {
    if k > 0 {
      TallyEmpty(k - 1);
    }
  }

  lemma {:induction false} ValuesPositive(cards: seq<Card>, k: nat)
    requires k <= Faces
    ensures forall x :: x in ValuesOf(Counts(cards), k) ==> x >= 1
  {
    if k > 0 {
      ValuesPositive(cards, k - 1);
    }
  }

  lemma {:induction false} AtMostSum(s: seq<nat>)
    ensures forall x :: x in s ==> x <= Sum(s)
  {
    if s != [] {
      AtMostSum(s[..|s| - 1]);
      assert s == s[..|s| - 1] + [s[|s| - 1]];
    }
  }

  lemma {:induction false} SumByValue(s: seq<nat>)
    requires forall x :: x in s ==> 1 <= x <= 5
    ensures var m := multiset(s);
      Sum(s) == m[1] + 2 * m[2] + 3 * m[3] + 4 * m[4] + 5 * m[5] &&
      |s| == m[1] + m[2] + m[3] + m[4] + m[5]
  {
    if s != [] {
      var init, last := s[..|s| - 1], s[|s| - 1];
      assert s == init + [last];
      assert multiset(s) == multiset(init) + multiset{last};
      assert forall x :: x in init ==> x in s;
      SumByValue(init);
      assert last in s;
      var m, mi := multiset(s), multiset(init);
      assert Sum(s) == Sum(init) + last;
      assert m[1] == mi[1] + (if last == 1 then 1 else 0);
      assert m[2] == mi[2] + (if last == 2 then 1 else 0);
      assert m[3] == mi[3] + (if last == 3 then 1 else 0);
      assert m[4] == mi[4] + (if last == 4 then 1 else 0);
      assert m[5] == mi[5] + (if last == 5 then 1 else 0);
    }
  }

  lemma ShapeOfCounts(vs: seq<nat>)
    requires forall x :: x in vs ==> 1 <= x <= 5
    ensures var m := multiset(vs);
      (|vs| == 3 && m[1] + 2 * m[2] + 3 * m[3] + 4 * m[4] + 5 * m[5] == 5 ==>
        (m == multiset{1, 2, 2} <==> m[2] == 2)) &&
      (|vs| == 2 && m[1] + 2 * m[2] + 3 * m[3] + 4 * m[4] + 5 * m[5] == 5 ==>
        (m == multiset{1, 4} <==> m[4] == 1))
  {
    var m := multiset(vs);
    SumByValue(vs);
    if |vs| == 3 && m[2] == 2 && m[1] + 2 * m[2] + 3 * m[3] + 4 * m[4] + 5 * m[5] == 5 {
      assert forall x :: m[x] == multiset{1, 2, 2}[x] by {
        forall x ensures m[x] == multiset{1, 2, 2}[x] {
          if !(1 <= x <= 5) {
            assert x !in vs;
          }
        }
      }
    }
    if |vs| == 2 && m[4] == 1 && m[1] + 2 * m[2] + 3 * m[3] + 4 * m[4] + 5 * m[5] == 5 {
      assert forall x :: m[x] == multiset{1, 4}[x] by {
        forall x ensures m[x] == multiset{1, 4}[x] {
          if !(1 <= x <= 5) {
            assert x !in vs;
          }
        }
      }
    }
  }

  /** Each branch of `from_cards` gives the kind the repeated faces call for. */
  lemma KindByCounts(cards: seq<Card>)
    requires |cards| == 5
    ensures var d, m := |Counts(cards)|, multiset(ValuesOf(Counts(cards), Faces));
      1 <= d <= 5 &&
      (d == 5 ==> KindOf(cards) == High) &&
      (d == 4 ==> KindOf(cards) == Pair) &&
      (d == 3 ==> KindOf(cards) == if m == multiset{1, 2, 2} then TwoPair else ThreeOf) &&
      (d == 2 ==> KindOf(cards) == if m == multiset{1, 4} then FourOf else Full) &&
      (d == 1 ==> KindOf(cards) == FiveOf)
  {
    HandShape(cards);
  }

  /** The classification by distinct faces is the classification by repeated faces, for
      every hand of five cards: none of the source's branches is unreachable by mistake and
      none gives the wrong kind. */
  lemma KindByDistinct(cards: seq<Card>)
    requires |cards| == 5
    ensures var d := |Counts(cards)|;
      1 <= d <= 5 &&
      (d == 5 <==> KindOf(cards) == High) &&
      (d == 4 <==> KindOf(cards) == Pair) &&
      (d == 3 <==> KindOf(cards) in {TwoPair, ThreeOf}) &&
      (d == 2 <==> KindOf(cards) in {Full, FourOf}) &&
      (d == 1 <==> KindOf(cards) == FiveOf)
  {
    KindByCounts(cards);
  }

  // ---------------------------------------------------------------------------------------
  // The derived ordering of `Hand`
  // ---------------------------------------------------------------------------------------

  /** `Hand`: the kind, the cards in the order dealt, and the bid (a `u64`). */
  datatype Hand = Hand(kind: Kind, cards: seq<Card>, bid: nat)

  datatype Ordering = Less | Equal | Greater

  function Reversed(o: Ordering): Ordering {
    match o
    case Less => Greater
    case Equal => Equal
    case Greater => Less
  }

  function CompareNat(a: nat, b: nat): Ordering {
    if a < b then Less else if a == b then Equal else Greater
  }

  /** The derived ordering of `Vec<Card>`: card by card, a proper prefix first. */
  function CompareCards(a: seq<Card>, b: seq<Card>): Ordering
    decreases |a|
  {
    if a == [] then (if b == [] then Equal else Less)
    else if b == [] then Greater
    else match CompareNat(CardRank(a[0]), CardRank(b[0]))
      case Equal => CompareCards(a[1..], b[1..])
      case o => o
  }

  /** The derived ordering of `Hand`: kind first, then the cards, then the bid. */
  function CompareHands(a: Hand, b: Hand): Ordering {
    match CompareNat(KindRank(a.kind), KindRank(b.kind))
    case Equal =>
      (match CompareCards(a.cards, b.cards)
       case Equal => CompareNat(a.bid, b.bid)
       case o => o)
    case o => o
  }

  lemma {:induction false} CompareCardsEqual(a: seq<Card>, b: seq<Card>)
    ensures CompareCards(a, b) == Equal <==> a == b
    decreases |a|
  {
    if a != [] && b != [] {
      CompareCardsEqual(a[1..], b[1..]);
      RanksInjective(a[0], b[0], High, High);
      if a[0] == b[0] && a[1..] == b[1..] {
        assert a == [a[0]] + a[1..] && b == [b[0]] + b[1..];
      }
    }
  }

  lemma {:induction false} CompareCardsFlip(a: seq<Card>, b: seq<Card>)
    ensures CompareCards(b, a) == Reversed(CompareCards(a, b))
    decreases |a|
  {
    if a != [] && b != [] {
      CompareCardsFlip(a[1..], b[1..]);
    }
  }

  lemma {:induction false} CompareCardsTrans(a: seq<Card>, b: seq<Card>, c: seq<Card>)
    requires CompareCards(a, b) == Less && CompareCards(b, c) == Less
    ensures CompareCards(a, c) == Less
    decreases |a|
  {
    if a != [] && b != [] && c != [] && a[0] == b[0] && b[0] == c[0] {
      CompareCardsTrans(a[1..], b[1..], c[1..]);
    } else if a != [] && b != [] && c != [] {
      RanksInjective(a[0], b[0], High, High);
      RanksInjective(b[0], c[0], High, High);
    }
  }

  /** The derived ordering of hands is a total order: equal only on equal hands,
      antisymmetric and transitive, so sorting the hands ranks them. */
  lemma CompareHandsOrder(a: Hand, b: Hand, c: Hand)
    ensures CompareHands(a, b) == Equal <==> a == b
    ensures CompareHands(b, a) == Reversed(CompareHands(a, b))
    ensures CompareHands(a, b) == Less && CompareHands(b, c) == Less ==> CompareHands(a, c) == Less
  {
    CompareCardsEqual(a.cards, b.cards);
    CompareCardsFlip(a.cards, b.cards);
    RanksInjective(Joker, Joker, a.kind, b.kind);
    RanksInjective(Joker, Joker, b.kind, c.kind);
    if CompareHands(a, b) == Less && CompareHands(b, c) == Less {
      if a.kind == b.kind && b.kind == c.kind {
        if CompareCards(a.cards, b.cards) == Less && CompareCards(b.cards, c.cards) == Less {
          CompareCardsTrans(a.cards, b.cards, c.cards);
        } else {
          CompareCardsEqual(b.cards, c.cards);
        }
      }
    }
  }

  // ---------------------------------------------------------------------------------------
  // `From<&str> for Hand`
  // ---------------------------------------------------------------------------------------

  /** The bound of a `u64`. */
  const U64: nat := 0x1_0000_0000_0000_0000

  /** Every character read as a card; `None` stands for the panic of `unwrap()` on the
      first character that is not a face. */
  function ParseCards(raw: string, withJoker: bool): (r: Option<seq<Card>>)
    ensures r.Some? <==> forall i :: 0 <= i < |raw| ==> CardFromChar(raw[i], withJoker).Ok?
    ensures r.Some? ==> |r.value| == |raw|
    ensures r.Some? ==> forall i :: 0 <= i < |raw| ==> CardFromChar(raw[i], withJoker) == Ok(r.value[i])
    decreases |raw|
  {
    if raw == [] then Some([])
    else
      var init := raw[..|raw| - 1];
      assert forall i :: 0 <= i < |init| ==> init[i] == raw[i];
      match ParseCards(init, withJoker)
      case None => None
      case Some(cs) =>
        match CardFromChar(raw[|raw| - 1], withJoker)
        case Err(_) => None
        case Ok(c) => Some(cs + [c])
  }

  /** What parsing a line gives: `None` for every panic (no space, a character that is
      not a face, not five cards, a bid that is not a `u64`). */
  function ParseHand(value: string): Option<Hand> {
    match SplitOnce(value, " ")
    case None => None
    case Some((raw, bidText)) =>
      match ParseCards(raw, false)
      case None => None
      case Some(cards) =>
        if |cards| != 5 then None
        else match ParseNat(bidText)
          case None => None
          case Some(bid) => if bid < U64 then Some(Hand(KindOf(cards), cards, bid)) else None
  }

  /** `From<&str> for Hand`: split at the first space, read the cards (the jack is not a
      joker), classify them and parse the bid. */
  method HandFrom(value: string) returns (h: Option<Hand>)
    ensures h == ParseHand(value)
  {
    var split := SplitOnce(value, " ");
    if split.None? {
      return None;
    }
    var (raw, bidText) := split.value;
    var cards := ParseCards(raw, false);
    if cards.None? {
      return None;
    }
    var kind := FromCards(cards.value);
    if kind.Err? {
      return None;
    }
    var bid := ParseNat(bidText);
    if bid.None? || bid.value >= U64 {
      return None;
    }
    h := Some(Hand(kind.value, cards.value, bid.value));
  }

  /** A hand as the puzzle input writes it. */
  function Line(h: Hand): string {
    seq(|h.cards|, i requires 0 <= i < |h.cards| => Face(h.cards[i])) + " " + NatText(h.bid)
  }

  /** A hand the parser can produce: five cards, no joker, its kind, a `u64` bid. */
  predicate ValidHand(h: Hand) {
    |h.cards| == 5 && Joker !in h.cards && h.kind == KindOf(h.cards) && h.bid < U64
  }

  /** Every hand the parser produces is valid, and every valid hand is read back from
      its line. */
  lemma ParseHandLine(value: string, h: Hand)
    ensures ParseHand(value).Some? ==> ValidHand(ParseHand(value).value)
    ensures ValidHand(h) ==> ParseHand(Line(h)) == Some(h)
  {
    if ParseHand(value).Some? {
      var cards := ParseHand(value).value.cards;
      var raw := SplitOnce(value, " ").value.0;
      forall i | 0 <= i < |cards| ensures cards[i] != Joker {
        CardFromCharFaces(raw[i], cards[i], false);
      }
    }
    if ValidHand(h) {
      var faces := seq(|h.cards|, i requires 0 <= i < |h.cards| => Face(h.cards[i]));
      assert ' ' !in faces;
      SplitOnceChar(faces, ' ', NatText(h.bid));
      forall i | 0 <= i < |faces| ensures CardFromChar(faces[i], false) == Ok(h.cards[i]) {
        CardFromCharFaces(faces[i], h.cards[i], false);
      }
      var parsed := ParseCards(faces, false);
      assert parsed.value == h.cards;
      ParseNatText(h.bid);
    }
  }

  /** The hands of the parsing test: "32T3K 765" is one pair and "QQQJA 483" three of a
      kind, with the 'J' read as a jack. */
  lemma ParseExamples(first: string, second: string)
    requires first == "32T3K 765" && second == "QQQJA 483"
    ensures ParseHand(first) == Some(Hand(Pair, [Three, Two, Ten, Three, King], 765))
    ensures ParseHand(second) == Some(Hand(ThreeOf, [Queen, Queen, Queen, Jack, Ace], 483))
  {
    ParsePairExample(first, Hand(Pair, [Three, Two, Ten, Three, King], 765));
    ParseThreeOfExample(second, Hand(ThreeOf, [Queen, Queen, Queen, Jack, Ace], 483));
  }

  lemma ParsePairExample(line: string, h: Hand)
    requires line == "32T3K 765" && h == Hand(Pair, [Three, Two, Ten, Three, King], 765)
    ensures ParseHand(line) == Some(h)
  {
    PairExample(h.cards);
    ThreeDigits(765);
    assert Line(h) == line;
    ParseHandLine(line, h);
  }

  lemma ParseThreeOfExample(line: string, h: Hand)
    requires line == "QQQJA 483" && h == Hand(ThreeOf, [Queen, Queen, Queen, Jack, Ace], 483)
    ensures ParseHand(line) == Some(h)
  {
    ThreeOfExample(h.cards);
    ThreeDigits(483);
    assert Line(h) == line;
    ParseHandLine(line, h);
  }

  lemma {:induction false} RanksNone(ms: multiset<Card>, v: nat, k: nat)
    requires k <= Faces && forall i :: 0 <= i < k ==> ms[CardOf(i)] != v
    ensures Ranks(ms, v, k) == 0
  {
    if k > 0 {
      RanksNone(ms, v, k - 1);
    }
  }

  lemma {:induction false} RanksOne(ms: multiset<Card>, v: nat, k: nat, j: nat)
    requires j < k <= Faces && ms[CardOf(j)] == v
    requires forall i :: 0 <= i < k && i != j ==> ms[CardOf(i)] != v
    ensures Ranks(ms, v, k) == 1
  {
    if j < k - 1 {
      RanksOne(ms, v, k - 1, j);
    } else {
      RanksNone(ms, v, k - 1);
    }
  }

  lemma PairExample(cards: seq<Card>)
    requires cards == [Three, Two, Ten, Three, King]
    ensures KindOf(cards) == Pair
  {
    var ms := multiset(cards);
    assert forall c :: ms[c] == if c == Three then 2 else if c in {Two, Ten, King} then 1 else 0;
    RanksOne(ms, 2, Faces, 2);
    RanksNone(ms, 3, Faces);
    RanksNone(ms, 4, Faces);
    RanksNone(ms, 5, Faces);
  }

  lemma ThreeOfExample(cards: seq<Card>)
    requires cards == [Queen, Queen, Queen, Jack, Ace]
    ensures KindOf(cards) == ThreeOf
  {
    var ms := multiset(cards);
    assert forall c :: ms[c] == if c == Queen then 3 else if c in {Jack, Ace} then 1 else 0;
    RanksNone(ms, 2, Faces);
    RanksOne(ms, 3, Faces, 11);
    RanksNone(ms, 4, Faces);
    RanksNone(ms, 5, Faces);
  }
}
