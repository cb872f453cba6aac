/** Day 13 (day13/src/lib.rs): patterns of ash and rocks, each with a line of reflection
    between two rows (horizontal) or two columns (vertical). A pattern reflects at `n` when
    every row above the line equals its mirror image below it, as far as the pattern
    reaches. */
module Day13 {
  import Wrappers
  import Strings

  datatype Score = Vertical(n: nat) | Horizontal(n: nat) | None

  datatype Pattern = Pattern(lines: seq<string>)

  // ---------------------------------------------------------------------------------------
  // Reflection
  // ---------------------------------------------------------------------------------------

  /** The lines reflect between lines `n - 1` and `n`: every in-bounds pair `a < n <= b`
      with `a + b == 2n - 1` holds equal lines. */
  predicate Mirrors(lines: seq<string>, n: nat) {
    1 <= n < |lines| &&
    forall a, b :: 0 <= a < n <= b < |lines| && a + b == 2 * n - 1 ==> lines[a] == lines[b]
  }

  /** The largest `m <= n` at which the lines reflect, or the error. */
  function Largest(lines: seq<string>, n: nat): Wrappers.Result<nat, string> {
    if n == 0 then Wrappers.Err("No reflection!")
    else if Mirrors(lines, n) then Wrappers.Ok(n)
    else Largest(lines, n - 1)
  }

  /** What `reflecting_at` yields: the largest reflection line. */
  function Reflection(lines: seq<string>): Wrappers.Result<nat, string>
    requires |lines| >= 1
  {
    Largest(lines, |lines| - 1)
  }

  /** `reflecting_at` finds the largest line of reflection, and fails with "No reflection!"
      exactly when there is none. */
  lemma {:induction false} LargestSpec(lines: seq<string>, n: nat)
    ensures Largest(lines, n).Ok? ==>
      (Largest(lines, n).value <= n && Mirrors(lines, Largest(lines, n).value) &&
       forall m :: Largest(lines, n).value < m <= n ==> !Mirrors(lines, m))
    ensures Largest(lines, n).Err? ==>
      (Largest(lines, n).error == "No reflection!" && forall m :: 1 <= m <= n ==> !Mirrors(lines, m))
  {
    if n > 0 && !Mirrors(lines, n) {
      LargestSpec(lines, n - 1);
    }
  }

  /** The largest reflection line is what `Reflection` yields, and no reflection line at all
      gives the error. */
  lemma {:induction false} LargestIs(lines: seq<string>, n: nat, c: nat)
    requires c <= n && Mirrors(lines, c) && forall m :: c < m <= n ==> !Mirrors(lines, m)
    ensures Largest(lines, n) == Wrappers.Ok(c)
  {
    if n != c {
      LargestIs(lines, n - 1, c);
    }
  }

  lemma {:induction false} LargestNone(lines: seq<string>, n: nat)
    requires forall m :: 1 <= m <= n ==> !Mirrors(lines, m)
    ensures Largest(lines, n) == Wrappers.Err("No reflection!")
  {
    if n > 0 {
      LargestNone(lines, n - 1);
    }
  }

  /** The two index ranges `reflecting_at` zips for candidate `c`: `a` runs up from
      `aStart` to `aEnd`, `b` runs down from `bEnd - 1`. */
  function Ranges(len: nat, c: nat): (r: (nat, nat, nat))
    requires 1 <= c < len
  {
    var post := len - c;
    if c > post then (c - post, c, len) else (0, c, 2 * c)
  }

  /** Both branches compare `min(c, len - c)` pairs, all in bounds, each mirrored around the
      candidate line, with `a` on the near side of the line and `b` on the far side. */
  lemma RangesCount(len: nat, c: nat)
    requires 1 <= c < len
    ensures var (aStart, aEnd, bEnd) := Ranges(len, c);
      aStart <= aEnd == c <= bEnd <= len &&
      aEnd - aStart == (if c < len - c then c else len - c) &&
      bEnd - c == aEnd - aStart &&
      aStart + bEnd - 1 == 2 * c - 1
  {
  }

  /** The first `k` zipped pairs hold equal lines. */
  predicate ZipAgree(lines: seq<string>, aStart: nat, bEnd: nat, k: nat)
    requires aStart + k <= |lines| && k <= bEnd <= |lines|
  {
    forall a :: aStart <= a < aStart + k ==> lines[a] == lines[aStart + bEnd - 1 - a]
  }

  /** The zipped pairs all agree exactly when the lines reflect at the candidate. */
  lemma RangesMirror(lines: seq<string>, c: nat)
    requires 1 <= c < |lines|
    ensures Ranges(|lines|, c).0 <= Ranges(|lines|, c).1 <= Ranges(|lines|, c).2 <= |lines|
    ensures ZipAgree(lines, Ranges(|lines|, c).0, Ranges(|lines|, c).2, Ranges(|lines|, c).1 - Ranges(|lines|, c).0)
      <==> Mirrors(lines, c)
  {
    RangesCount(|lines|, c);
    var (aStart, aEnd, bEnd) := Ranges(|lines|, c);
    var k := aEnd - aStart;
    if ZipAgree(lines, aStart, bEnd, k) {
      forall a, b | 0 <= a < c <= b < |lines| && a + b == 2 * c - 1
        ensures lines[a] == lines[b]
      {
        assert aStart <= a < aStart + k;
      }
    }
  }

  /** The candidate lines among the first `n` adjacent pairs: `m` with
      `lines[m - 1] == lines[m]`, ascending. */
  function Candidates(lines: seq<string>, n: nat): seq<nat>
    requires n < |lines|
  {
    if n == 0 then []
    else Candidates(lines, n - 1) + (if lines[n - 1] == lines[n] then [n] else [])
  }

  lemma {:induction false} CandidatesSpec(lines: seq<string>, n: nat)
    requires n < |lines|
    ensures forall i :: 0 <= i < |Candidates(lines, n)| ==> 1 <= Candidates(lines, n)[i] <= n
    ensures forall i, j :: 0 <= i < j < |Candidates(lines, n)| ==> Candidates(lines, n)[i] < Candidates(lines, n)[j]
    ensures forall m :: 1 <= m <= n && lines[m - 1] == lines[m] ==> m in Candidates(lines, n)
  {
    if n > 0 {
      CandidatesSpec(lines, n - 1);
    }
  }

  /** Reversed, the candidates descend, lie between 1 and the last line, and include every
      line of reflection. */
  lemma ReversedCandidates(lines: seq<string>)
    requires |lines| >= 1
    ensures var rev := Strings.Reverse(Candidates(lines, |lines| - 1));
      (forall i, j :: 0 <= i < j < |rev| ==> rev[i] > rev[j]) &&
      (forall i :: 0 <= i < |rev| ==> 1 <= rev[i] < |lines|) &&
      (forall m :: 1 <= m < |lines| && Mirrors(lines, m) ==> m in rev)
  {
    var ascending := Candidates(lines, |lines| - 1);
    var rev := Strings.Reverse(ascending);
    CandidatesSpec(lines, |lines| - 1);
    forall m | 1 <= m < |lines| && Mirrors(lines, m)
      ensures m in rev
    {
      assert lines[m - 1] == lines[m];
      var i :| 0 <= i < |ascending| && ascending[i] == m;
      assert rev[|rev| - 1 - i] == m;
    }
  }

  /** The `all` over the zipped ranges of candidate `c`, stopping at the first pair that
      differs: true exactly when the lines reflect at `c`. */
  method MirrorsAt(lines: seq<string>, c: nat) returns (agree: bool)
    requires 1 <= c < |lines|
    ensures agree <==> Mirrors(lines, c)
  {
    var (aStart, aEnd, bEnd) := Ranges(|lines|, c);
    RangesMirror(lines, c);
    agree := true;
    var k := 0;
    while k < aEnd - aStart && agree
      invariant 0 <= k <= aEnd - aStart
      invariant agree <==> ZipAgree(lines, aStart, bEnd, k)
    {
      agree := lines[aStart + k] == lines[bEnd - 1 - k];
      k := k + 1;
    }
  }

  /** `reflecting_at`: collects the candidates, reverses them so that the largest comes first,
      and returns the first one whose zipped pairs all agree. `lines.len() - 1` underflows
      on an empty pattern, hence the precondition. */
  method ReflectingAt(lines: seq<string>) returns (r: Wrappers.Result<nat, string>)
    requires |lines| >= 1
    ensures r == Reflection(lines)
  {
    var candidates: seq<nat> := [];
    for n := 0 to |lines| - 1
      invariant candidates == Candidates(lines, n)
    {
      if lines[n] == lines[n + 1] {
        candidates := candidates + [n + 1];
      }
    }
    assert candidates == Candidates(lines, |lines| - 1);
    candidates := Strings.Reverse(candidates);
    ReversedCandidates(lines);
    assert candidates == Strings.Reverse(Candidates(lines, |lines| - 1));
    for t := 0 to |candidates|
      invariant Descending(lines, candidates)
      invariant Pending(lines, candidates, t)
    {
      var c := candidates[t];
      var agree := MirrorsAt(lines, c);
      if agree {
        FirstAgreeing(lines, candidates, t);
        return Wrappers.Ok(c);
      }
    }
    LargestNone(lines, |lines| - 1);
    return Wrappers.Err("No reflection!");
  }

  /** Candidates strictly descending, each a possible line of reflection. */
  predicate Descending(lines: seq<string>, candidates: seq<nat>) {
    (forall i :: 0 <= i < |candidates| ==> 1 <= candidates[i] < |lines|) &&
    forall i, j :: 0 <= i < j < |candidates| ==> candidates[i] > candidates[j]
  }

  /** Every line of reflection is among the candidates not yet tried. */
  predicate Pending(lines: seq<string>, candidates: seq<nat>, t: nat)
    requires t <= |candidates|
  {
    forall m :: 1 <= m < |lines| && Mirrors(lines, m) ==> m in candidates[t..]
  }

  /** The first candidate that reflects is the largest line of reflection. */
  lemma FirstAgreeing(lines: seq<string>, candidates: seq<nat>, t: nat)
    requires |lines| >= 1 && t < |candidates| && Descending(lines, candidates)
    requires Pending(lines, candidates, t) && Mirrors(lines, candidates[t])
    ensures Reflection(lines) == Wrappers.Ok(candidates[t])
  {
    assert forall i :: t <= i < |candidates| ==> candidates[i] <= candidates[t];
    LargestIs(lines, |lines| - 1, candidates[t]);
  }

  // ---------------------------------------------------------------------------------------
  // Transposition
  // ---------------------------------------------------------------------------------------

  /** Every line is at least as long as the first, so that `as_bytes()[idx]` is in bounds. */
  predicate Transposable(lines: seq<string>) {
    |lines| >= 1 && forall j :: 0 <= j < |lines| ==> |lines[j]| >= |lines[0]|
  }

  /** Character `idx` of every line, in order. */
  function Column(lines: seq<string>, idx: nat): (r: string)
    requires forall j :: 0 <= j < |lines| ==> idx < |lines[j]|
  {
    seq(|lines|, j requires 0 <= j < |lines| => lines[j][idx])
  }

  /** What `transpose` yields: one string per column of the first line. */
  function Transposed(lines: seq<string>): (r: seq<string>)
    requires Transposable(lines)
  {
    seq(|lines[0]|, i requires 0 <= i < |lines[0]| => Column(lines, i))
  }

  /** `transpose`: pushes the columns one by one. */
  method Transpose(lines: seq<string>) returns (transposed: seq<string>)
    requires Transposable(lines)
    ensures transposed == Transposed(lines)
  {
    transposed := [];
    for idx := 0 to |lines[0]|
      invariant transposed == Transposed(lines)[..idx]
    {
      transposed := transposed + [Column(lines, idx)];
    }
  }

  /** All lines of the same, non-zero width. */
  predicate Rectangular(lines: seq<string>) {
    |lines| >= 1 && |lines[0]| >= 1 && forall j :: 0 <= j < |lines| ==> |lines[j]| == |lines[0]|
  }

  /** Transposing a rectangle twice gives it back; its transposition is a rectangle of the
      swapped dimensions, with character `j` of string `i` being character `i` of line `j`. */
  lemma TransposeTwice(lines: seq<string>)
    requires Rectangular(lines)
    ensures Rectangular(Transposed(lines))
    ensures |Transposed(lines)| == |lines[0]| && |Transposed(lines)[0]| == |lines|
    ensures forall i, j :: 0 <= i < |lines[0]| && 0 <= j < |lines| ==> Transposed(lines)[i][j] == lines[j][i]
    ensures Transposed(Transposed(lines)) == lines
  {
    var t := Transposed(lines);
    var tt := Transposed(t);
    assert |tt| == |lines|;
    forall j | 0 <= j < |lines|
      ensures tt[j] == lines[j]
    {
      assert |tt[j]| == |lines[j]|;
      forall i | 0 <= i < |lines[j]|
        ensures tt[j][i] == lines[j][i]
      {
        assert tt[j][i] == t[i][j];
      }
    }
  }

  /** Every line reflects around column `n`: the vertical counterpart of `Mirrors`. */
  predicate ColumnsMirror(lines: seq<string>, n: nat)
    requires Transposable(lines)
  {
    1 <= n < |lines[0]| &&
    forall j, a, b :: 0 <= j < |lines| && 0 <= a < n <= b < |lines[0]| && a + b == 2 * n - 1 ==>
      lines[j][a] == lines[j][b]
  }

  /** Reflecting the transposition between rows is reflecting the pattern between columns. */
  lemma TransposedMirrors(lines: seq<string>, n: nat)
    requires Transposable(lines)
    ensures Mirrors(Transposed(lines), n) <==> ColumnsMirror(lines, n)
  {
    var t := Transposed(lines);
    if Mirrors(t, n) {
      forall j, a, b | 0 <= j < |lines| && 0 <= a < n <= b < |lines[0]| && a + b == 2 * n - 1
        ensures lines[j][a] == lines[j][b]
      {
        assert t[a] == t[b];
        assert t[a][j] == t[b][j];
      }
    }
    if ColumnsMirror(lines, n) {
      forall a, b | 0 <= a < n <= b < |t| && a + b == 2 * n - 1
        ensures t[a] == t[b]
      {
        assert forall j :: 0 <= j < |lines| ==> t[a][j] == t[b][j];
      }
    }
  }

  // ---------------------------------------------------------------------------------------
  // Scoring
  // ---------------------------------------------------------------------------------------

  /** `Pattern::find_reflection_score`: the horizontal reflection if there is one, else the
      vertical one found on the transposition, else `None`. The source indexes the first
      line and line bytes, so the pattern must be non-empty and, when the vertical search
      is reached, transposable and at least one column wide. */
  function FindReflectionScore(p: Pattern): Score
    requires |p.lines| >= 1
    requires Reflection(p.lines).Err? ==> Transposable(p.lines) && |p.lines[0]| >= 1
  {
    match Reflection(p.lines)
    case Ok(n) => Horizontal(n)
    case Err(_) =>
      match Reflection(Transposed(p.lines))
      case Ok(n) => Vertical(n)
      case Err(_) => None
  }

  /** The score names the largest horizontal line of reflection; failing that, the largest
      vertical one; `None` exactly when the pattern reflects in neither direction. */
  lemma ScoreSpec(p: Pattern)
    requires |p.lines| >= 1
    requires Reflection(p.lines).Err? ==> Transposable(p.lines) && |p.lines[0]| >= 1
    ensures FindReflectionScore(p).Horizontal? ==>
      (Mirrors(p.lines, FindReflectionScore(p).n) &&
       forall m :: FindReflectionScore(p).n < m < |p.lines| ==> !Mirrors(p.lines, m))
    ensures !FindReflectionScore(p).Horizontal? ==>
      (Transposable(p.lines) && forall m :: 1 <= m < |p.lines| ==> !Mirrors(p.lines, m))
    ensures FindReflectionScore(p).Vertical? ==>
      (Transposable(p.lines) && ColumnsMirror(p.lines, FindReflectionScore(p).n) &&
       forall m :: FindReflectionScore(p).n < m ==> !ColumnsMirror(p.lines, m))
    ensures FindReflectionScore(p).None? ==>
      (Transposable(p.lines) && forall m :: !ColumnsMirror(p.lines, m))
  {
    LargestSpec(p.lines, |p.lines| - 1);
    if Reflection(p.lines).Err? {
      var t := Transposed(p.lines);
      LargestSpec(t, |t| - 1);
      forall m: nat
        ensures ColumnsMirror(p.lines, m) ==> 1 <= m <= |t| - 1 && Mirrors(t, m)
      {
        TransposedMirrors(p.lines, m);
      }
      if Reflection(t).Ok? {
        TransposedMirrors(p.lines, Reflection(t).value);
      }
    }
  }

  // ---------------------------------------------------------------------------------------
  // Reading
  // ---------------------------------------------------------------------------------------

  /** The lines split at every empty line, as `str::split` would: one more group than there
      are empty lines. */
  function Groups(lines: seq<string>): (r: seq<seq<string>>)
    ensures |r| >= 1
  {
    if lines == [] then [[]]
    else
      var g := Groups(lines[..|lines| - 1]);
      var line := lines[|lines| - 1];
      if line == "" then g + [[]] else g[..|g| - 1] + [g[|g| - 1] + [line]]
  }

  /** The groups joined back with an empty line between consecutive ones. */
  function JoinGroups(gs: seq<seq<string>>): seq<string> {
    if gs == [] then []
    else if |gs| == 1 then gs[0]
    else JoinGroups(gs[..|gs| - 1]) + [""] + gs[|gs| - 1]
  }

  predicate NoEmptyLine(gs: seq<seq<string>>) {
    forall i, j :: 0 <= i < |gs| && 0 <= j < |gs[i]| ==> gs[i][j] != ""
  }

  /** How one more line changes the groups. */
  lemma GroupsSnoc(lines: seq<string>, line: string)
    ensures Groups(lines + [line]) ==
      var g := Groups(lines);
      if line == "" then g + [[]] else g[..|g| - 1] + [g[|g| - 1] + [line]]
  {
    assert (lines + [line])[..|lines|] == lines;
  }

  lemma JoinAppendLine(gs: seq<seq<string>>, line: string)
    requires |gs| >= 1
    ensures JoinGroups(gs[..|gs| - 1] + [gs[|gs| - 1] + [line]]) == JoinGroups(gs) + [line]
  {
    var init := gs[..|gs| - 1];
    var g' := init + [gs[|gs| - 1] + [line]];
    assert g'[..|g'| - 1] == init;
  }

  lemma JoinAppendEmpty(gs: seq<seq<string>>)
    requires |gs| >= 1
    ensures JoinGroups(gs + [[]]) == JoinGroups(gs) + [""]
  {
    assert (gs + [[]])[..|gs|] == gs;
  }

  lemma NoEmptyLineSnoc(gs: seq<seq<string>>, line: string)
    requires |gs| >= 1 && NoEmptyLine(gs)
    ensures NoEmptyLine(gs + [[]])
    ensures line != "" ==> NoEmptyLine(gs[..|gs| - 1] + [gs[|gs| - 1] + [line]])
  {
  }

  /** Splitting and joining are inverse: the groups hold no empty line and join back to the
      lines. */
  lemma {:induction false} GroupsJoin(lines: seq<string>)
    ensures NoEmptyLine(Groups(lines))
    ensures JoinGroups(Groups(lines)) == lines
  {
    if lines != [] {
      var init := lines[..|lines| - 1];
      var line := lines[|lines| - 1];
      assert init + [line] == lines;
      GroupsJoin(init);
      var g := Groups(init);
      NoEmptyLineSnoc(g, line);
      if line == "" {
        assert Groups(lines) == g + [[]] by {
          GroupsSnoc(init, line);
        }
        JoinAppendEmpty(g);
      } else {
        assert Groups(lines) == g[..|g| - 1] + [g[|g| - 1] + [line]] by {
          GroupsSnoc(init, line);
        }
        JoinAppendLine(g, line);
      }
    }
  }

  /** Joining groups without empty lines and splitting again gives the groups back. */
  lemma {:induction false} JoinGroupsSplit(gs: seq<seq<string>>)
    requires |gs| >= 1 && NoEmptyLine(gs)
    ensures Groups(JoinGroups(gs)) == gs
    decreases |gs|, |gs[|gs| - 1]|
  {
    var init := gs[..|gs| - 1];
    var last := gs[|gs| - 1];
    if |gs| == 1 && last == [] {
      assert gs == [[]];
    } else if last == [] {
      JoinGroupsSplit(init);
      assert init + [[]] == gs;
      JoinAppendEmpty(init);
      GroupsSnoc(JoinGroups(init), "");
    } else {
      var line := last[|last| - 1];
      var shorter := init + [last[..|last| - 1]];
      assert shorter[..|shorter| - 1] == init;
      assert last[..|last| - 1] + [line] == last;
      assert shorter[..|shorter| - 1] + [shorter[|shorter| - 1] + [line]] == gs;
      JoinGroupsSplit(shorter);
      JoinAppendLine(shorter, line);
      GroupsSnoc(JoinGroups(shorter), line);
    }
  }

  function PatternsOf(gs: seq<seq<string>>): (r: seq<Pattern>)
    ensures |r| == |gs| && forall i :: 0 <= i < |gs| ==> r[i].lines == gs[i]
  {
    if gs == [] then [] else PatternsOf(gs[..|gs| - 1]) + [Pattern(gs[|gs| - 1])]
  }

  /** What `read_patterns` yields: the groups, without the last one when it is empty (a
      trailing empty line, or no lines at all). */
  function Patterns(lines: seq<string>): seq<Pattern> {
    var g := Groups(lines);
    if g[|g| - 1] == [] then PatternsOf(g[..|g| - 1]) else PatternsOf(g)
  }

  /** `read_patterns`: collects lines into `pattern` and pushes it at every empty line and,
      when not empty, at the end. */
  method ReadPatterns(lines: seq<string>) returns (result: seq<Pattern>)
    ensures result == Patterns(lines)
  {
    result := [];
    var pattern: seq<string> := [];
    ghost var groups: seq<seq<string>> := [];
    for i := 0 to |lines|
      invariant Groups(lines[..i]) == groups + [pattern]
      invariant result == PatternsOf(groups)
    {
      assert lines[..i + 1][..i] == lines[..i];
      var line := lines[i];
      if line == "" {
        result := result + [Pattern(pattern)];
        groups := groups + [pattern];
        assert (groups + [[]])[..|groups|] == groups;
        pattern := [];
      } else {
        pattern := pattern + [line];
      }
    }
    assert lines[..|lines|] == lines;
    if pattern != [] {
      result := result + [Pattern(pattern)];
      assert (groups + [pattern])[..|groups|] == groups;
    } else {
      assert (groups + [pattern])[..|groups|] == groups;
    }
  }

  /** Every empty line ends a pattern, even one with no lines; the final pattern is kept
      without a trailing empty line, and no pattern holds an empty line. */
  lemma PatternsSpec(lines: seq<string>)
    ensures |Patterns(lines)| == |Groups(lines)| - (if Groups(lines)[|Groups(lines)| - 1] == [] then 1 else 0)
    ensures forall i :: 0 <= i < |Patterns(lines)| ==> Patterns(lines)[i].lines == Groups(lines)[i]
  {
  }

  /** The groups of a line, an empty line and another: the line alone, then nothing. */
  lemma GroupsLineBlank(a: string)
    requires a != ""
    ensures Groups([a]) == [[a]]
    ensures Groups([a, ""]) == [[a], []]
    ensures Groups([a, "", ""]) == [[a], [], []]
  {
    var empty: seq<string> := [];
    GroupsSnoc(empty, a);
    assert empty + [a] == [a];
    GroupsSnoc([a], "");
    assert [a] + [""] == [a, ""];
    GroupsSnoc([a, ""], "");
    assert [a, ""] + [""] == [a, "", ""];
  }

  lemma GroupsLineBlankBlankLine(a: string, b: string)
    requires a != "" && b != ""
    ensures Groups([a, "", "", b]) == [[a], [], [b]]
  {
    GroupsLineBlank(a);
    GroupsSnoc([a, "", ""], b);
    assert [a, "", ""] + [b] == [a, "", "", b];
    var g: seq<seq<string>> := [[a], [], []];
    assert g[..2] == [[a], []] && g[2] + [b] == [b];
  }

  /** Two patterns separated by two empty lines give an empty pattern between them; a
      trailing empty line adds nothing. */
  lemma Examples(a: string, b: string)
    requires a != "" && b != ""
    ensures Patterns([a, "", "", b]) == [Pattern([a]), Pattern([]), Pattern([b])]
    ensures Patterns([a, ""]) == [Pattern([a])]
  {
    GroupsLineBlank(a);
    GroupsLineBlankBlankLine(a, b);
    var g: seq<seq<string>> := [[a], []];
    assert g[..1] == [[a]];
  }
}
