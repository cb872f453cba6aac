/** Day 4, second part (day04/src/bin/part2.rs): every card with `w` matches wins one copy of
    each of the next `w` cards, once per copy of itself held. The model works on the cards'
    match counts, in order. */
module Day04Part2 {

  /** The copies that cards `j < k` win of card `i`: card `j` adds its own number of copies
      to each of the cards `j + 1 ..= j + winners[j]`. */
  function Won(winners: seq<nat>, k: nat, i: nat): nat
    requires k <= |winners|
    decreases k, 0
  {
    if k == 0 then 0
    else Won(winners, k - 1, i) + (if k - 1 < i <= k - 1 + winners[k - 1] then Copies(winners, k - 1) else 0)
  }

  /** The copies held of card `i`: the original plus those won from the cards before it.
      Positions past the last card stand for the entries the source appends there. */
  function Copies(winners: seq<nat>, i: nat): nat
    decreases if i <= |winners| then i else |winners|, 1
  {
    1 + Won(winners, if i <= |winners| then i else |winners|, i)
  }

  /** The length of `copies` after `k` cards: at least one entry, one per card seen, and one
      up to the last card each of them wins. */
  function Length(winners: seq<nat>, k: nat): (n: nat)
    requires k <= |winners|
    ensures n >= 1 && n >= k
    ensures forall j :: 0 <= j < k ==> j + winners[j] < n
  {
    if k == 0 then 1
    else
      var n := Length(winners, k - 1);
      var m := if n > k then n else k;
      if m >= k + winners[k - 1] then m else k + winners[k - 1]
  }

  /** No card wins copies of itself or of an earlier card: the cards from `i` on leave the
      count of card `i` as it was. */
  lemma {:induction false} WonSettled(winners: seq<nat>, k: nat, i: nat)
    requires i <= k <= |winners|
    ensures Won(winners, k, i) == Won(winners, i, i)
    decreases k
  {
    if k > i {
      WonSettled(winners, k - 1, i);
    }
  }

  /** Cards that win nothing past `i` leave it at the original copy. */
  lemma {:induction false} WonBeyond(winners: seq<nat>, k: nat, i: nat)
    requires k <= |winners| && forall j :: 0 <= j < k ==> j + winners[j] < i
    ensures Won(winners, k, i) == 0
  {
    if k > 0 {
      WonBeyond(winners, k - 1, i);
    }
  }

  /** One pass of the loop body for card `idx` with `winners` matches: a card reached for
      the first time gets a single copy, `copies` grows with single copies so that every won
      card has an entry, and each of the next `winners` cards gains the copies of card `idx`;
      entries up to `idx` are left as they were. */
  method ProcessCard(copies: seq<nat>, idx: nat, winners: nat) returns (next: seq<nat>)
    requires idx <= |copies|
    ensures |next| == if |copies| > idx + winners then |copies| else idx + winners + 1
    ensures forall i :: 0 <= i < |next| ==>
      next[i] == (if i < |copies| then copies[i] else 1)
                 + (if idx < i <= idx + winners then (if idx < |copies| then copies[idx] else 1) else 0)
  {
    next := copies;
    if |next| == idx {
      next := next + [1];
    }
    var multiplier := next[idx];
    var leftToCount := |next| - (idx + 1);
    var missing := if winners > leftToCount then winners - leftToCount else 0;
    if missing > 0 {
      next := next + seq(missing, _ => 1);
    }
    ghost var grown := next;
    for k := idx + 1 to idx + winners + 1
      invariant |next| == |grown|
      invariant forall i :: 0 <= i < |next| ==> next[i] == grown[i] + (if idx < i < k then multiplier else 0)
    {
      next := next[k := next[k] + multiplier];
    }
  }

  /** The `copies` loop of `main`, over the match counts of the cards in order. */
  method CountCopies(winners: seq<nat>) returns (copies: seq<nat>)
    ensures |copies| == Length(winners, |winners|)
    ensures forall i :: 0 <= i < |copies| ==> copies[i] == Copies(winners, i)
  {
    copies := [1];
    for idx := 0 to |winners|
      invariant |copies| == Length(winners, idx)
      invariant forall i :: 0 <= i < |copies| ==> copies[i] == 1 + Won(winners, idx, i)
    {
      ghost var before := copies;
      if idx == |before| {
        WonBeyond(winners, idx, idx);
      }
      assert (if idx < |before| then before[idx] else 1) == Copies(winners, idx);
      copies := ProcessCard(copies, idx, winners[idx]);
      forall i | 0 <= i < |copies|
        ensures copies[i] == 1 + Won(winners, idx + 1, i)
      {
        if i >= |before| {
          WonBeyond(winners, idx, i);
        }
      }
    }
    forall i | 0 <= i < |copies|
      ensures copies[i] == Copies(winners, i)
    {
      if i <= |winners| {
        WonSettled(winners, |winners|, i);
      }
    }
  }

  /** The total number of scratchcards: the sum of the copies. */
  function Total(copies: seq<nat>): nat {
    if copies == [] then 0 else Total(copies[..|copies| - 1]) + copies[|copies| - 1]
  }

  /** Every card is held at least once, and without cards the single initial entry still
      counts one scratchcard. */
  lemma {:induction false} TotalBound(copies: seq<nat>)
    requires forall i :: 0 <= i < |copies| ==> copies[i] >= 1
    ensures Total(copies) >= |copies|
  {
    if copies != [] {
      TotalBound(copies[..|copies| - 1]);
    }
  }

  /** With no cards the loop leaves the initial `[1]`. */
  lemma NoCards()
    ensures Length([], 0) == 1 && Copies([], 0) == 1
  {
  }

  /** The six sample cards win 4, 2, 2, 1, 0 and 0 numbers; they end with 1, 2, 4, 8, 14 and 1
      copies, 30 scratchcards in all. */
  lemma SampleCopies(winners: seq<nat>)
    requires winners == [4, 2, 2, 1, 0, 0]
    ensures Length(winners, 6) == 6
    ensures Copies(winners, 0) == 1 && Copies(winners, 1) == 2 && Copies(winners, 2) == 4
    ensures Copies(winners, 3) == 8 && Copies(winners, 4) == 14 && Copies(winners, 5) == 1
    ensures Total([1, 2, 4, 8, 14, 1]) == 30
  {
    assert Length(winners, 1) == 5;
    assert Length(winners, 2) == 5;
    assert Length(winners, 3) == 5;
    assert Length(winners, 4) == 5;
    assert Length(winners, 5) == 5;
    assert Copies(winners, 0) == 1;
    assert Copies(winners, 1) == 2;
    assert Copies(winners, 2) == 4;
    assert Copies(winners, 3) == 8;
    assert Copies(winners, 4) == 14;
    assert Copies(winners, 5) == 1;
    assert Total([1, 2, 4, 8, 14, 1]) == 30 by {
      assert [1, 2, 4, 8, 14, 1][..5] == [1, 2, 4, 8, 14];
      assert [1, 2, 4, 8, 14][..4] == [1, 2, 4, 8];
      assert [1, 2, 4, 8][..3] == [1, 2, 4];
      assert [1, 2, 4][..2] == [1, 2];
      assert [1, 2][..1] == [1];
      assert [1][..0] == [];
    }
  }
}
