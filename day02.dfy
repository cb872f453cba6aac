/** Day 2 (day02/src/lib.rs): games of cubes drawn from a bag, written
    "Game 3: 8 green, 6 blue, 20 red; 5 blue, 4 red, 13 green", and whether a game is
    possible with a given number of cubes of each colour. */
module Day02 {
  import opened Wrappers
  import opened Strings

  /** The cubes of one draw; `GameData::new` is the constructor, with the counts in the order
      red, green, blue. */
  datatype GameData = GameData(red: nat, green: nat, blue: nat)

  /** Why `from_string` gives up: a part without a space (the source panics on `unwrap`),
      a colour other than red, green and blue, or a count that is not a number. */
  datatype Error = NoSpace(part: string) | UnknownColor(color: string) | BadNumber(text: string)

  datatype Color = Red | Green | Blue

  /** The colour a name stands for, if any. */
  function ColorOf(name: string): Option<Color> {
    if name == "blue" then Some(Blue)
    else if name == "red" then Some(Red)
    else if name == "green" then Some(Green)
    else None
  }

  function Get(g: GameData, color: Color): nat {
    match color
    case Red => g.red
    case Green => g.green
    case Blue => g.blue
  }

  /** The draw with the count of one colour replaced. */
  function Set(g: GameData, color: Color, v: nat): (r: GameData)
    ensures Get(r, color) == v
    ensures forall c :: c != color ==> Get(r, c) == Get(g, c)
  {
    match color
    case Red => g.(red := v)
    case Green => g.(green := v)
    case Blue => g.(blue := v)
  }

  /** One part "n colour": its colour and count, or why it is rejected. The colour is
      checked before the count is parsed. */
  function Read(part: string): Result<(Color, nat), Error> {
    match SplitOnceAt(part, ' ')
    case None => Err(NoSpace(part))
    case Some((num, name)) =>
      match ColorOf(name)
      case None => Err(UnknownColor(name))
      case Some(color) =>
        match ParseNat(num)
        case None => Err(BadNumber(num))
        case Some(v) => Ok((color, v))
  }

  /** The parts read in order, up to the first one rejected. */
  function ReadAll(parts: seq<string>): (r: Result<seq<(Color, nat)>, Error>)
    ensures r.Ok? ==> |r.value| == |parts|
  {
    if parts == [] then Ok([])
    else
      match ReadAll(parts[..|parts| - 1])
      case Err(e) => Err(e)
      case Ok(entries) =>
        match Read(parts[|parts| - 1])
        case Err(e) => Err(e)
        case Ok(entry) => Ok(entries + [entry])
  }

  /** Every colour starts at 0 and each entry overwrites its colour. */
  function Assign(entries: seq<(Color, nat)>): GameData {
    if entries == [] then GameData(0, 0, 0)
    else
      var last := entries[|entries| - 1];
      Set(Assign(entries[..|entries| - 1]), last.0, last.1)
  }

  /** What the loop of `from_string` computes from its parts. */
  function FromParts(parts: seq<string>): Result<GameData, Error> {
    match ReadAll(parts)
    case Err(e) => Err(e)
    case Ok(entries) => Ok(Assign(entries))
  }

  /** The draw a text "n colour, n colour, ..." stands for: its parts separated by ", ",
      read in order. */
  function DrawOf(st: string): Result<GameData, Error> {
    FromParts(Split(st, ", "))
  }

  /** `GameData::from_string`: the parts of `st` separated by ", ", read in order. */
  method FromString(st: string) returns (r: Result<GameData, Error>)
    ensures r == DrawOf(st)
  {
    var parts := Split(st, ", ");
    var red, green, blue := 0, 0, 0;
    ghost var entries: seq<(Color, nat)> := [];
    for i := 0 to |parts|
      invariant ReadAll(parts[..i]) == Ok(entries)
      invariant Assign(entries) == GameData(red, green, blue)
    {
      assert parts[..i + 1][..i] == parts[..i];
      match Read(parts[i]) {
        case Err(e) =>
          ErrorSticks(parts, i + 1);
          return Err(e);
        case Ok((color, v)) =>
          match color {
            case Blue => blue := v;
            case Red => red := v;
            case Green => green := v;
          }
          ghost var old_entries := entries;
          entries := entries + [(color, v)];
          assert entries[..|entries| - 1] == old_entries;
      }
    }
    assert parts[..|parts|] == parts;
    return Ok(GameData(red, green, blue));
  }

  /** Once a prefix of the parts is rejected, so are all the parts, with the same error. */
  lemma {:induction false} ErrorSticks(parts: seq<string>, i: nat)
    requires i <= |parts| && ReadAll(parts[..i]).Err?
    ensures ReadAll(parts) == ReadAll(parts[..i])
    decreases |parts| - i
  {
    if i < |parts| {
      assert parts[..i + 1][..i] == parts[..i];
      ErrorSticks(parts, i + 1);
    } else {
      assert parts[..i] == parts;
    }
  }

  /** The entries read are the parts read one by one, and the parts are accepted exactly
      when every one of them reads. */
  lemma {:induction false} ReadAllKnown(parts: seq<string>)
    ensures ReadAll(parts).Ok? <==> forall i :: 0 <= i < |parts| ==> Read(parts[i]).Ok?
    ensures ReadAll(parts).Ok? ==> forall i :: 0 <= i < |parts| ==> Read(parts[i]) == Ok(ReadAll(parts).value[i])
  {
    if parts != [] {
      var init := parts[..|parts| - 1];
      ReadAllKnown(init);
      assert forall i :: 0 <= i < |init| ==> init[i] == parts[i];
    }
  }

  /** The error is the one of the first part that does not read. */
  lemma FromPartsFirstError(parts: seq<string>, i: nat)
    requires i < |parts| && Read(parts[i]).Err?
    requires forall j :: 0 <= j < i ==> Read(parts[j]).Ok?
    ensures FromParts(parts) == Err(Read(parts[i]).error)
  {
    ReadAllKnown(parts[..i]);
    assert forall j :: 0 <= j < i ==> parts[..i][j] == parts[j];
    assert parts[..i + 1][..i] == parts[..i];
    ErrorSticks(parts, i + 1);
  }

  /** A colour no entry names keeps its 0. */
  lemma {:induction false} AssignUnnamed(entries: seq<(Color, nat)>, color: Color)
    requires forall i :: 0 <= i < |entries| ==> entries[i].0 != color
    ensures Get(Assign(entries), color) == 0
  {
    if entries != [] {
      var n := |entries| - 1;
      var init := entries[..n];
      assert forall i :: 0 <= i < n ==> init[i] == entries[i];
      AssignUnnamed(init, color);
    }
  }

  /** A colour holds the count of entry `i` when no later entry names it. */
  lemma {:induction false} AssignLast(entries: seq<(Color, nat)>, color: Color, i: nat)
    requires i < |entries| && entries[i].0 == color
    requires forall j :: i < j < |entries| ==> entries[j].0 != color
    ensures Get(Assign(entries), color) == entries[i].1
  {
    var n := |entries| - 1;
    if i < n {
      var init := entries[..n];
      assert forall j :: i < j < n ==> init[j] == entries[j];
      AssignLast(init, color, i);
    }
  }

  /** Each colour holds the count of the last entry naming it, and 0 when no entry names it. */
  lemma AssignLastWins(entries: seq<(Color, nat)>, color: Color)
    ensures (forall i :: 0 <= i < |entries| ==> entries[i].0 != color) ==> Get(Assign(entries), color) == 0
    ensures forall i :: (0 <= i < |entries| && entries[i].0 == color &&
      forall j :: i < j < |entries| ==> entries[j].0 != color) ==> Get(Assign(entries), color) == entries[i].1
  {
    if forall i :: 0 <= i < |entries| ==> entries[i].0 != color {
      AssignUnnamed(entries, color);
    }
    forall i | 0 <= i < |entries| && entries[i].0 == color &&
      forall j :: i < j < |entries| ==> entries[j].0 != color
      ensures Get(Assign(entries), color) == entries[i].1
    {
      AssignLast(entries, color, i);
    }
  }

  /** `from_string` accepts the parts exactly when each reads, and then each colour holds
      the count of the last part naming it, or 0. */
  lemma FromPartsLastWins(parts: seq<string>, color: Color)
    ensures FromParts(parts).Ok? <==> forall i :: 0 <= i < |parts| ==> Read(parts[i]).Ok?
    ensures FromParts(parts).Ok? ==>
      (forall i :: 0 <= i < |parts| ==> Read(parts[i]).value.0 != color) ==>
      Get(FromParts(parts).value, color) == 0
    ensures FromParts(parts).Ok? ==>
      forall i :: (0 <= i < |parts| && Read(parts[i]).value.0 == color &&
        forall j :: i < j < |parts| ==> Read(parts[j]).value.0 != color) ==>
        Get(FromParts(parts).value, color) == Read(parts[i]).value.1
  {
    ReadAllKnown(parts);
    if ReadAll(parts).Ok? {
      AssignLastWins(ReadAll(parts).value, color);
    }
  }

  /** The text of one part: a count and a colour. */
  lemma ReadText(v: nat, name: string)
    requires ColorOf(name).Some?
    ensures Read(Part(v, name)) == Ok((ColorOf(name).value, v))
  {
    assert ' ' !in NatText(v) by {
      assert forall k :: 0 <= k < |NatText(v)| ==> IsDigit(NatText(v)[k]);
    }
    SplitOncePattern(NatText(v), " ", name);
    SplitOnceAtIsSplitOnce(NatText(v) + " " + name, ' ');
    ParseNatText(v);
  }

  /** Parts that each read give the entries they read. */
  lemma {:induction false} ReadAllOk(parts: seq<string>, entries: seq<(Color, nat)>)
    requires |parts| == |entries| && forall i :: 0 <= i < |parts| ==> Read(parts[i]) == Ok(entries[i])
    ensures ReadAll(parts) == Ok(entries)
  {
    if parts != [] {
      var n := |parts| - 1;
      ReadAllOk(parts[..n], entries[..n]);
      SplitLast(entries);
    }
  }

  /** Parts that each read give the counts their entries assign. */
  lemma FromPartsOf(parts: seq<string>, entries: seq<(Color, nat)>)
    requires |parts| == |entries| && forall i :: 0 <= i < |parts| ==> Read(parts[i]) == Ok(entries[i])
    ensures FromParts(parts) == Ok(Assign(entries))
  {
    ReadAllOk(parts, entries);
  }

  /** Two entries set their colours in turn, starting from 0. */
  lemma AssignTwo(ea: (Color, nat), eb: (Color, nat))
    ensures Assign([ea, eb]) == Set(Set(GameData(0, 0, 0), ea.0, ea.1), eb.0, eb.1)
  {
    assert [ea, eb][..1] == [ea];
    assert [ea][..0] == [];
    assert Assign([ea]) == Set(GameData(0, 0, 0), ea.0, ea.1);
  }

  /** The three colours in the order red, green, blue give those counts. */
  lemma AssignThree(r: nat, g: nat, b: nat)
    ensures Assign([(Red, r), (Green, g), (Blue, b)]) == GameData(r, g, b)
  {
    var es := [(Red, r), (Green, g), (Blue, b)];
    assert es[..2] == [(Red, r), (Green, g)];
    assert es[..2][..1] == [(Red, r)];
    assert es[..2][..1][..0] == es[..0];
    assert Assign(es[..2][..1]) == GameData(r, 0, 0);
    assert Assign(es[..2]) == GameData(r, g, 0);
  }

  // The test cases of the source. Each literal is handled in a small lemma of its own,
  // and the examples work on variables equal to the literals.

  lemma SplitSample(x: string, a: string, b: string)
    requires x == "3 blue, 4 red" && a == "3 blue" && b == "4 red"
    ensures Split(x, ", ") == [a, b]
  {
    SplitJoinPattern([a, b], ", ");
    assert [a, b][1..] == [b];
    assert Join([a, b], ", ") == x;
  }

  lemma ReadSample(p: string, d: char, name: string, color: Color)
    requires IsDigit(d) && ColorOf(name) == Some(color) && p == [d, ' '] + name
    ensures Read(p) == Ok((color, DigitValue(d)))
  {
    var v := DigitValue(d);
    ReadText(v, name);
    assert NatText(v) == [d];
    assert Part(v, name) == p;
  }

  /** Two parts that read give the counts their two entries assign. */
  lemma FromPartsTwo(a: string, b: string, ea: (Color, nat), eb: (Color, nat))
    requires Read(a) == Ok(ea) && Read(b) == Ok(eb)
    ensures FromParts([a, b]) == Ok(Assign([ea, eb]))
  {
    FromPartsOf([a, b], [ea, eb]);
  }

  // One lemma per part text, so that each literal is read on its own.

  lemma ReadThreeBlue(p: string)
    requires p == "3 blue"
    ensures Read(p) == Ok((Blue, 3))
  {
    ReadSample(p, '3', "blue", Blue);
  }

  lemma ReadFourRed(p: string)
    requires p == "4 red"
    ensures Read(p) == Ok((Red, 4))
  {
    ReadSample(p, '4', "red", Red);
  }

  lemma ReadOneRed(p: string)
    requires p == "1 red"
    ensures Read(p) == Ok((Red, 1))
  {
    ReadSample(p, '1', "red", Red);
  }

  lemma ReadTwoGreen(p: string)
    requires p == "2 green"
    ensures Read(p) == Ok((Green, 2))
  {
    ReadSample(p, '2', "green", Green);
  }

  lemma ReadSixBlue(p: string)
    requires p == "6 blue"
    ensures Read(p) == Ok((Blue, 6))
  {
    ReadSample(p, '6', "blue", Blue);
  }

  /** The parts "3 blue" and "4 red" give 4 red, 0 green and 3 blue. */
  lemma PartsExample1(a: string, b: string)
    requires a == "3 blue" && b == "4 red"
    ensures FromParts([a, b]) == Ok(GameData(4, 0, 3))
  {
    ReadThreeBlue(a);
    ReadFourRed(b);
    FromPartsTwo(a, b, (Blue, 3), (Red, 4));
    AssignTwo((Blue, 3), (Red, 4));
  }

  /** "3 blue, 4 red" gives 4 red, 0 green and 3 blue. */
  lemma FromPartsExample1(x: string)
    requires x == "3 blue, 4 red"
    ensures DrawOf(x) == Ok(GameData(4, 0, 3))
  {
    var a, b := "3 blue", "4 red";
    SplitSample(x, a, b);
    PartsExample1(a, b);
  }

  /** Three parts that read give the counts their three entries assign. */
  lemma FromPartsThree(a: string, b: string, c: string, ea: (Color, nat), eb: (Color, nat), ec: (Color, nat))
    requires Read(a) == Ok(ea) && Read(b) == Ok(eb) && Read(c) == Ok(ec)
    ensures FromParts([a, b, c]) == Ok(Assign([ea, eb, ec]))
  {
    FromPartsOf([a, b, c], [ea, eb, ec]);
  }

  /** The parts of "1 red, 2 green, 6 blue" give 1 red, 2 green and 6 blue. */
  lemma FromPartsExample2(a: string, b: string, c: string)
    requires a == "1 red" && b == "2 green" && c == "6 blue"
    ensures FromParts([a, b, c]) == Ok(GameData(1, 2, 6))
  {
    ReadOneRed(a);
    ReadTwoGreen(b);
    ReadSixBlue(c);
    FromPartsThree(a, b, c, (Red, 1), (Green, 2), (Blue, 6));
    AssignThree(1, 2, 6);
  }

  /** "2 green" gives 0 red, 2 green and 0 blue. */
  lemma FromPartsExample3(z: string)
    requires z == "2 green"
    ensures DrawOf(z) == Ok(GameData(0, 2, 0))
  {
    SplitOnceNoPattern(z, ", ");
    assert Split(z, ", ") == [z];
    ReadTwoGreen(z);
    FromPartsOf([z], [(Green, 2)]);
  }

  lemma ReadUnknown(p: string)
    requires p == "4 purple"
    ensures Read(p) == Err(UnknownColor("purple"))
  {
    SplitOncePattern("4", " ", "purple");
    assert "4" + " " + "purple" == p;
    SplitOnceAtIsSplitOnce(p, ' ');
  }

  /** In the parts of "3 blue, 4 purple" the unknown colour is an error naming it. */
  lemma UnknownColorExample(a: string, b: string)
    requires a == "3 blue" && b == "4 purple"
    ensures FromParts([a, b]) == Err(UnknownColor("purple"))
  {
    ReadThreeBlue(a);
    ReadUnknown(b);
    FromPartsFirstError([a, b], 1);
  }

  // ---------------------------------------------------------------------------------------
  // Games
  // ---------------------------------------------------------------------------------------

  datatype Game = Game(id: nat, draws: seq<GameData>)

  predicate Within(draw: GameData, reference: GameData) {
    draw.blue <= reference.blue && draw.red <= reference.red && draw.green <= reference.green
  }

  /** `draws.iter().all(...)`: every draw within the reference counts. */
  function AllWithin(draws: seq<GameData>, reference: GameData): (b: bool)
    ensures b <==> forall i :: 0 <= i < |draws| ==> Within(draws[i], reference)
  {
    if draws == [] then true
    else Within(draws[0], reference) && AllWithin(draws[1..], reference)
  }

  /** `Game::is_possible`. */
  function IsPossible(game: Game, reference: GameData): bool {
    AllWithin(game.draws, reference)
  }

  /** A game without draws is possible with any reference, and a game stays possible with
      a reference that has at least as many cubes of each colour. */
  lemma IsPossibleMonotone(game: Game, reference: GameData, larger: GameData)
    requires larger.red >= reference.red && larger.green >= reference.green && larger.blue >= reference.blue
    ensures game.draws == [] ==> IsPossible(game, reference)
    ensures IsPossible(game, reference) ==> IsPossible(game, larger)
  {
  }

  /** The draws of some results, or nothing when one of them is an error. */
  function Collect(results: seq<Result<GameData, Error>>): (r: Option<seq<GameData>>)
    ensures r.Some? ==> |r.value| == |results|
  {
    if results == [] then Some([])
    else
      match (results[0], Collect(results[1..]))
      case (Ok(d), Some(ds)) => Some([d] + ds)
      case _ => None
  }

  /** The results are collected exactly when none is an error, and then in order. */
  lemma {:induction false} CollectOk(results: seq<Result<GameData, Error>>)
    ensures Collect(results).Some? <==> forall i :: 0 <= i < |results| ==> results[i].Ok?
    ensures Collect(results).Some? ==> forall i :: 0 <= i < |results| ==> results[i] == Ok(Collect(results).value[i])
  {
    if results != [] {
      CollectOk(results[1..]);
      assert forall i :: 1 <= i < |results| ==> results[i] == results[1..][i - 1];
    }
  }

  /** Every draw text read by `from_string`; nothing when one is rejected (the source
      panics on `unwrap`). */
  function ParseDraws(texts: seq<string>): Option<seq<GameData>> {
    Collect(seq(|texts|, i requires 0 <= i < |texts| => DrawOf(texts[i])))
  }

  /** The draws are accepted exactly when every text reads, and then they are the texts
      read one by one. */
  lemma ParseDrawsRead(texts: seq<string>)
    ensures ParseDraws(texts).Some? <==> forall i :: 0 <= i < |texts| ==> DrawOf(texts[i]).Ok?
    ensures ParseDraws(texts).Some? ==> |ParseDraws(texts).value| == |texts|
    ensures ParseDraws(texts).Some? ==> forall i :: 0 <= i < |texts| ==> DrawOf(texts[i]) == Ok(ParseDraws(texts).value[i])
  {
    var results := seq(|texts|, i requires 0 <= i < |texts| => DrawOf(texts[i]));
    CollectOk(results);
    assert ParseDraws(texts) == Collect(results);
    assert forall i :: 0 <= i < |texts| ==> results[i] == DrawOf(texts[i]);
  }

  /** `parse_line`: "Game N: " followed by the draws separated by "; ". Nothing when the
      line lacks ": " or a space before it, when a draw is rejected, or when N is not a
      number (the source panics in each case). */
  function ParseLine(st: string): Option<Game> {
    match SplitOnce(st, ": ")
    case None => None
    case Some((front, back)) =>
      match SplitOnce(front, " ")
      case None => None
      case Some((_, id)) =>
        match (ParseDraws(Split(back, "; ")), ParseNat(id))
        case (Some(draws), Some(n)) => Some(Game(n, draws))
        case _ => None
  }

  // ---------------------------------------------------------------------------------------
  // Round trip
  // ---------------------------------------------------------------------------------------

  /** A draw written with all three colours, red first. */
  function DrawText(d: GameData): string {
    Join(DrawParts(d), ", ")
  }

  function DrawTexts(draws: seq<GameData>): (r: seq<string>)
    ensures |r| == |draws|
  {
    seq(|draws|, i requires 0 <= i < |draws| => DrawText(draws[i]))
  }

  /** The line of a game. */
  function GameText(g: Game): string {
    "Game " + NatText(g.id) + ": " + Join(DrawTexts(g.draws), "; ")
  }

  lemma NatTextAvoids(n: nat, c: char)
    requires !IsDigit(c)
    ensures c !in NatText(n)
  {
    assert forall k :: 0 <= k < |NatText(n)| ==> IsDigit(NatText(n)[k]);
  }

  /** A part "n colour". */
  function Part(v: nat, name: string): string {
    NatText(v) + " " + name
  }

  function DrawParts(d: GameData): seq<string> {
    [Part(d.red, "red"), Part(d.green, "green"), Part(d.blue, "blue")]
  }

  lemma PartAvoids(v: nat, name: string, c: char)
    requires !IsDigit(c) && c != ' ' && c !in name
    ensures c !in Part(v, name)
  {
    NatTextAvoids(v, c);
  }

  /** A draw's text splits into its three parts and holds no ';'. */
  lemma DrawTextSplit(d: GameData)
    ensures Split(DrawText(d), ", ") == DrawParts(d)
    ensures ';' !in DrawText(d)
  {
    var parts := DrawParts(d);
    PartAvoids(d.red, "red", ',');
    PartAvoids(d.green, "green", ',');
    PartAvoids(d.blue, "blue", ',');
    PartAvoids(d.red, "red", ';');
    PartAvoids(d.green, "green", ';');
    PartAvoids(d.blue, "blue", ';');
    assert forall i :: 0 <= i < |parts| ==> parts[i] == parts[0] || parts[i] == parts[1] || parts[i] == parts[2];
    SplitJoinPattern(parts, ", ");
    JoinAvoids(parts, ", ", ';');
  }

  /** A draw's text reads back as the draw. */
  lemma DrawTextRead(d: GameData)
    ensures DrawOf(DrawText(d)) == Ok(d)
    ensures ';' !in DrawText(d)
  {
    DrawTextSplit(d);
    ReadText(d.red, "red");
    ReadText(d.green, "green");
    ReadText(d.blue, "blue");
    ReadAllOk(DrawParts(d), [(Red, d.red), (Green, d.green), (Blue, d.blue)]);
    AssignThree(d.red, d.green, d.blue);
  }

  /** The head "Game N: " of a line splits off at ": ", and its front at the space. */
  lemma GameTextHead(id: nat, back: string)
    ensures SplitOnce("Game " + NatText(id) + ": " + back, ": ") == Some(("Game " + NatText(id), back))
    ensures SplitOnce("Game " + NatText(id), " ") == Some(("Game", NatText(id)))
  {
    var front := "Game " + NatText(id);
    NatTextAvoids(id, ':');
    NatTextAvoids(id, ' ');
    SplitOncePattern(front, ": ", back);
    SplitOncePattern("Game", " ", NatText(id));
    assert front == "Game" + " " + NatText(id);
  }

  /** Parsing the line of a game with at least one draw gives the game back. (A game without
      draws is written "Game N: ", whose single empty draw the source rejects.) */
  lemma ParseLineText(g: Game)
    requires |g.draws| >= 1
    ensures ParseLine(GameText(g)) == Some(g)
  {
    GameTextHead(g.id, Join(DrawTexts(g.draws), "; "));
    ParseNatText(g.id);
    DrawTextsRead(g.draws);
    SplitJoinPattern(DrawTexts(g.draws), "; ");
  }

  /** The texts of some draws read back as those draws, and hold no ';'. */
  lemma DrawTextsRead(draws: seq<GameData>)
    ensures ParseDraws(DrawTexts(draws)) == Some(draws)
    ensures forall i :: 0 <= i < |draws| ==> ';' !in DrawTexts(draws)[i]
  {
    forall i | 0 <= i < |draws|
      ensures ';' !in DrawTexts(draws)[i]
      ensures DrawOf(DrawTexts(draws)[i]) == Ok(draws[i])
    {
      DrawTextRead(draws[i]);
    }
    ParseDrawsRead(DrawTexts(draws));
    var r := ParseDraws(DrawTexts(draws));
    assert r.Some? && r.value == draws;
  }
}
