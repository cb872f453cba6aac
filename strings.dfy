/** The few methods of Rust's `str` that the solvers use, on `seq<char>`.
    Inputs are ASCII, so a character is a byte and byte offsets are indices. */
module Strings {
  import opened Wrappers

  predicate IsDigit(c: char) {
    '0' <= c <= '9'
  }

  function DigitValue(c: char): nat
    requires IsDigit(c)
  {
    c as int - '0' as int
  }

  /** `char::is_whitespace`, restricted to ASCII: space and U+0009 to U+000D. */
  predicate IsWhitespace(c: char) {
    c == ' ' || '\t' <= c <= '\r'
  }

  predicate AllDigits(s: string) {
    forall i :: 0 <= i < |s| ==> IsDigit(s[i])
  }

  /** The number written by a string of decimal digits, most significant first. */
  function DecimalValue(s: string): nat
    requires AllDigits(s)
    decreases |s|
  {
    if s == [] then 0 else DecimalValue(s[..|s| - 1]) * 10 + DigitValue(s[|s| - 1])
  }

  /** `str::parse::<u64>()` (also `usize`, `u32`): an optional `+` and at least one digit.
      The integer width is not modelled. */
  function ParseNat(s: string): Option<nat> {
    if |s| > 0 && AllDigits(s) then Some(DecimalValue(s))
    else if |s| > 1 && s[0] == '+' && AllDigits(s[1..]) then Some(DecimalValue(s[1..]))
    else None
  }

  /** The decimal digits of `n`, most significant first, without leading zeros. */
  function NatText(n: nat): (s: string)
    ensures |s| >= 1 && AllDigits(s) && DecimalValue(s) == n
  {
    var last := ['0' + (n % 10) as char];
    if n < 10 then last
    else
      var init := NatText(n / 10);
      assert (init + last)[..|init + last| - 1] == init;
      init + last
  }

  /** Parsing a number's decimal text gives the number back. */
  lemma ParseNatText(n: nat)
    ensures ParseNat(NatText(n)) == Some(n)
  {
  }

  lemma ConcatAssociative<T>(a: seq<T>, b: seq<T>, c: seq<T>)
    ensures a + b + c == a + (b + c)
  {
  }

  /** The prefix one longer than `s[..i]` extends it by `s[i]`. */
  lemma PrefixStep<T>(s: seq<T>, i: nat)
    requires i < |s|
    ensures s[..i + 1][..i] == s[..i] && s[..i + 1] == s[..i] + [s[i]]
  {
  }

  lemma PrefixWhole<T>(s: seq<T>)
    ensures s[..|s|] == s
  {
  }

  lemma AppendLast<T>(s: seq<T>, x: T)
    ensures (s + [x])[..|s|] == s && (s + [x])[|s|] == x
  {
  }

  lemma SplitLast<T>(s: seq<T>)
    requires |s| > 0
    ensures s[..|s| - 1] + [s[|s| - 1]] == s
  {
  }

  lemma SplitFirst<T>(s: seq<T>)
    requires |s| > 0
    ensures [s[0]] + s[1..] == s
  {
  }

  /** A sequence read backwards. */
  function Reverse<T>(s: seq<T>): (r: seq<T>)
    ensures |r| == |s| && forall i :: 0 <= i < |s| ==> r[i] == s[|s| - 1 - i]
  {
    seq(|s|, i requires 0 <= i < |s| => s[|s| - 1 - i])
  }

  lemma TwoDigits(n: nat)
    requires 10 <= n < 100
    ensures NatText(n) == ['0' + (n / 10) as char, '0' + (n % 10) as char]
  {
    assert NatText(n / 10) == ['0' + (n / 10) as char];
  }

  /** The text of a three-digit number. */
  lemma ThreeDigits(n: nat)
    requires 100 <= n < 1000
    ensures NatText(n) == ['0' + (n / 100) as char, '0' + (n / 10 % 10) as char, '0' + (n % 10) as char]
  {
    TwoDigits(n / 10);
  }

  predicate StartsWith(s: string, prefix: string) {
    |prefix| <= |s| && s[..|prefix|] == prefix
  }

  predicate EndsWith(s: string, suffix: string) {
    |suffix| <= |s| && s[|s| - |suffix|..] == suffix
  }

  predicate OccursAt(s: string, pat: string, k: int) {
    0 <= k && k + |pat| <= |s| && s[k..k + |pat|] == pat
  }

  /** Index of the first occurrence of `pat` in `s` (`str::find`). */
  function Find(s: string, pat: string): (r: Option<nat>)
    requires |pat| > 0
    ensures r.Some? ==> OccursAt(s, pat, r.value)
    ensures r.Some? ==> forall k :: 0 <= k < r.value ==> !OccursAt(s, pat, k)
    ensures r.None? ==> forall k :: 0 <= k ==> !OccursAt(s, pat, k)
    decreases |s|
  {
    if |s| < |pat| then None
    else if s[..|pat|] == pat then Some(0)
    else match Find(s[1..], pat)
      case None =>
        assert forall k :: 1 <= k ==> OccursAt(s, pat, k) == OccursAt(s[1..], pat, k - 1);
        None
      case Some(k) =>
        assert forall j :: 1 <= j ==> OccursAt(s, pat, j) == OccursAt(s[1..], pat, j - 1);
        Some(k + 1)
  }

  /** `str::split_once`: the text before and after the first occurrence of `pat`. */
  function SplitOnce(s: string, pat: string): (r: Option<(string, string)>)
    requires |pat| > 0
    ensures r.Some? ==> s == r.value.0 + pat + r.value.1
    ensures r.Some? ==> forall k :: 0 <= k < |r.value.0| ==> !OccursAt(s, pat, k)
    ensures r.None? ==> forall k :: 0 <= k ==> !OccursAt(s, pat, k)
  {
    match Find(s, pat)
    case None => None
    case Some(k) =>
      assert s == s[..k] + pat + s[k + |pat|..];
      Some((s[..k], s[k + |pat|..]))
  }

  /** A one-character pattern first occurs right after a prefix that lacks it. */
  lemma {:induction false} FindChar(a: string, c: char, b: string)
    requires c !in a
    ensures Find(a + [c] + b, [c]) == Some(|a|)
    decreases |a|
  {
    var s := a + [c] + b;
    if a != [] {
      assert s[1..] == a[1..] + [c] + b;
      assert s[..1] != [c] by {
        assert s[..1][0] == a[0];
      }
      FindChar(a[1..], c, b);
    } else {
      assert s[..1] == [c];
    }
  }

  /** Index of the first `c` in `s`: `str::find` with a one-character pattern. */
  function IndexOf(s: string, c: char): (r: Option<nat>)
    ensures r.Some? ==> r.value < |s|
  {
    if s == [] then None
    else if s[0] == c then Some(0)
    else
      match IndexOf(s[1..], c)
      case None => None
      case Some(k) => Some(k + 1)
  }

  /** `str::split_once` with a one-character pattern, written with `IndexOf`, whose
      definition is cheaper to unfold than that of `Find`. */
  function SplitOnceAt(s: string, c: char): Option<(string, string)> {
    match IndexOf(s, c)
    case None => None
    case Some(k) => Some((s[..k], s[k + 1..]))
  }

  lemma {:induction false} IndexOfFind(s: string, c: char)
    ensures IndexOf(s, c) == Find(s, [c])
    decreases |s|
  {
    if s != [] {
      assert s[..1] == [s[0]];
      IndexOfFind(s[1..], c);
    }
  }

  /** Both forms of `split_once` on one character agree. */
  lemma SplitOnceAtIsSplitOnce(s: string, c: char)
    ensures SplitOnceAt(s, c) == SplitOnce(s, [c])
  {
    IndexOfFind(s, c);
  }

  /** A one-character pattern that never occurs is not found. */
  lemma {:induction false} FindNoChar(s: string, c: char)
    requires c !in s
    ensures Find(s, [c]) == None
    decreases |s|
  {
    if |s| >= 1 {
      assert s[..1] == [s[0]];
      FindNoChar(s[1..], c);
    }
  }

  lemma SplitOnceChar(a: string, c: char, b: string)
    requires c !in a
    ensures SplitOnce(a + [c] + b, [c]) == Some((a, b))
  {
    FindChar(a, c, b);
    var s := a + [c] + b;
    assert s[..|a|] == a;
    assert s[|a| + 1..] == b;
  }

  lemma SplitOnceNoChar(s: string, c: char)
    requires c !in s
    ensures SplitOnce(s, [c]) == None
  {
    FindNoChar(s, c);
  }

  /** A pattern first occurs right after a prefix that lacks its first character. */
  lemma FindPattern(a: string, pat: string, b: string)
    requires |pat| > 0 && pat[0] !in a
    ensures Find(a + pat + b, pat) == Some(|a|)
  {
    var s := a + pat + b;
    assert s[|a|..|a| + |pat|] == pat;
    assert OccursAt(s, pat, |a|);
    forall k | 0 <= k < |a| ensures !OccursAt(s, pat, k) {
      assert s[k] == a[k] != pat[0];
    }
  }

  lemma SplitOncePattern(a: string, pat: string, b: string)
    requires |pat| > 0 && pat[0] !in a
    ensures SplitOnce(a + pat + b, pat) == Some((a, b))
  {
    FindPattern(a, pat, b);
    var s := a + pat + b;
    assert s[..|a|] == a;
    assert s[|a| + |pat|..] == b;
  }

  /** A pattern first occurs right after a prefix that lacks one of its characters, when
      that character does not occur earlier in the pattern either. */
  lemma SplitOnceInner(a: string, pat: string, b: string, j: nat)
    requires j < |pat| && pat[j] !in a && pat[j] !in pat[..j]
    ensures SplitOnce(a + pat + b, pat) == Some((a, b))
  {
    var s := a + pat + b;
    assert s[|a|..|a| + |pat|] == pat;
    assert OccursAt(s, pat, |a|);
    forall k | 0 <= k < |a| ensures !OccursAt(s, pat, k) {
      if k + |pat| <= |s| {
        assert s[k + j] != pat[j] by {
          if k + j < |a| {
            assert s[k + j] == a[k + j];
          } else {
            assert s[k + j] == pat[..j][k + j - |a|];
          }
        }
        assert s[k..k + |pat|][j] == s[k + j];
      }
    }
    assert Find(s, pat) == Some(|a|);
    assert s[..|a|] == a;
    assert s[|a| + |pat|..] == b;
  }

  /** The pieces joined back with `sep` between them. */
  function Join(pieces: seq<string>, sep: string): string
    decreases |pieces|
  {
    if pieces == [] then []
    else if |pieces| == 1 then pieces[0]
    else pieces[0] + sep + Join(pieces[1..], sep)
  }

  /** `str::split` on a string pattern: the pieces between the occurrences of `pat`,
      found left to right. */
  function Split(s: string, pat: string): (r: seq<string>)
    requires |pat| > 0
    ensures |r| >= 1
    ensures Join(r, pat) == s
    decreases |s|
  {
    match SplitOnce(s, pat)
    case None => [s]
    case Some((a, b)) => [a] + Split(b, pat)
  }

  /** A pattern whose first character is missing from the text does not occur in it. */
  lemma SplitOnceNoPattern(s: string, pat: string)
    requires |pat| > 0 && pat[0] !in s
    ensures SplitOnce(s, pat) == None
  {
    assert forall k :: OccursAt(s, pat, k) ==> s[k] == pat[0];
  }

  /** Splitting on a pattern undoes joining pieces that lack its first character. */
  lemma {:induction false} SplitJoinPattern(pieces: seq<string>, pat: string)
    requires |pat| > 0 && |pieces| >= 1 && forall i :: 0 <= i < |pieces| ==> pat[0] !in pieces[i]
    ensures Split(Join(pieces, pat), pat) == pieces
    decreases |pieces|
  {
    if |pieces| == 1 {
      SplitOnceNoPattern(pieces[0], pat);
    } else {
      var rest := pieces[1..];
      SplitOncePattern(pieces[0], pat, Join(rest, pat));
      SplitJoinPattern(rest, pat);
    }
  }

  /** A character missing from every piece and from the separator is missing from the join. */
  lemma {:induction false} JoinAvoids(pieces: seq<string>, sep: string, c: char)
    requires c !in sep && forall i :: 0 <= i < |pieces| ==> c !in pieces[i]
    ensures c !in Join(pieces, sep)
    decreases |pieces|
  {
    if |pieces| > 1 {
      JoinAvoids(pieces[1..], sep, c);
    }
  }

  /** Splitting on a character undoes joining pieces that do not contain it. */
  lemma {:induction false} SplitJoin(pieces: seq<string>, c: char)
    requires |pieces| >= 1 && forall i :: 0 <= i < |pieces| ==> c !in pieces[i]
    ensures Split(Join(pieces, [c]), [c]) == pieces
    decreases |pieces|
  {
    if |pieces| == 1 {
      SplitOnceNoChar(pieces[0], c);
    } else {
      var rest := pieces[1..];
      SplitOnceChar(pieces[0], c, Join(rest, [c]));
      SplitJoin(rest, c);
    }
  }

  /** Length of the leading run of non-whitespace characters. */
  function WordLength(s: string): (n: nat)
    ensures n <= |s|
    ensures forall i :: 0 <= i < n ==> !IsWhitespace(s[i])
    ensures n < |s| ==> IsWhitespace(s[n])
  {
    if s == [] || IsWhitespace(s[0]) then 0 else 1 + WordLength(s[1..])
  }

  /** `str::split_whitespace`: the maximal runs of non-whitespace characters. */
  function SplitWhitespace(s: string): (r: seq<string>)
    ensures forall i :: 0 <= i < |r| ==> |r[i]| > 0
    ensures forall i, j :: 0 <= i < |r| && 0 <= j < |r[i]| ==> !IsWhitespace(r[i][j])
    decreases |s|
  {
    if s == [] then []
    else if IsWhitespace(s[0]) then SplitWhitespace(s[1..])
    else
      var n := WordLength(s);
      [s[..n]] + SplitWhitespace(s[n..])
  }

  /** A non-empty run of non-whitespace characters. */
  predicate IsWord(w: string) {
    |w| > 0 && forall i :: 0 <= i < |w| ==> !IsWhitespace(w[i])
  }

  lemma {:induction false} WordLengthOfWord(w: string, rest: string)
    requires IsWord(w) && (rest == [] || IsWhitespace(rest[0]))
    ensures WordLength(w + rest) == |w|
    decreases |w|
  {
    var s := w + rest;
    assert s[0] == w[0];
    if |w| > 1 {
      assert s[1..] == w[1..] + rest;
      WordLengthOfWord(w[1..], rest);
    } else {
      assert s[1..] == rest;
    }
  }

  /** Splitting at whitespace undoes joining words with single spaces. */
  lemma {:induction false} SplitWhitespaceJoin(ws: seq<string>)
    requires forall i :: 0 <= i < |ws| ==> IsWord(ws[i])
    ensures SplitWhitespace(Join(ws, " ")) == ws
    decreases |ws|
  {
    if |ws| == 1 {
      WordAlone(ws[0]);
    } else if |ws| > 1 {
      WordThenRest(ws[0], Join(ws[1..], " "));
      SplitWhitespaceJoin(ws[1..]);
      assert ws == [ws[0]] + ws[1..];
    }
  }

  /** A word followed by a space: the word, then the words after the space. */
  lemma WordThenRest(w: string, rest: string)
    requires IsWord(w)
    ensures SplitWhitespace(w + " " + rest) == [w] + SplitWhitespace(rest)
  {
    var s := w + " " + rest;
    assert s == w + (" " + rest);
    WordLengthOfWord(w, " " + rest);
    assert s[..|w|] == w;
    assert s[|w|..] == " " + rest;
    assert (" " + rest)[1..] == rest;
  }

  /** A single word, alone. */
  lemma WordAlone(w: string)
    requires IsWord(w)
    ensures SplitWhitespace(w) == [w]
  {
    WordLengthOfWord(w, []);
    assert w + [] == w;
    assert w[|w|..] == [];
  }

  /** A leading space adds no word. */
  lemma LeadingSpace(s: string)
    ensures SplitWhitespace(" " + s) == SplitWhitespace(s)
  {
    assert (" " + s)[1..] == s;
  }

  /** Splitting at whitespace undoes joining with single spaces words that may each carry
      one more space in front (numbers right-aligned in a column). */
  lemma {:induction false} SplitWhitespacePadded(ps: seq<string>, ws: seq<string>)
    requires |ps| == |ws|
    requires forall i :: 0 <= i < |ws| ==> IsWord(ws[i]) && (ps[i] == ws[i] || ps[i] == " " + ws[i])
    ensures SplitWhitespace(Join(ps, " ")) == ws
    decreases |ws|
  {
    if |ws| == 1 {
      if ps[0] != ws[0] {
        LeadingSpace(ws[0]);
      }
      WordAlone(ws[0]);
    } else if |ws| > 1 {
      var rest := Join(ps[1..], " ");
      if ps[0] != ws[0] {
        assert ps[0] + " " + rest == " " + (ws[0] + " " + rest);
        LeadingSpace(ws[0] + " " + rest);
      }
      WordThenRest(ws[0], rest);
      SplitWhitespacePadded(ps[1..], ws[1..]);
      assert ws == [ws[0]] + ws[1..];
    }
  }

  lemma {:induction false} WordLengthTrailing(s: string, c: char)
    requires IsWhitespace(c)
    ensures WordLength(s + [c]) == WordLength(s)
    decreases |s|
  {
    if s != [] {
      assert (s + [c])[0] == s[0];
      if !IsWhitespace(s[0]) {
        assert (s + [c])[1..] == s[1..] + [c];
        WordLengthTrailing(s[1..], c);
      }
    }
  }

  /** Trailing whitespace (the newline `read_line` keeps) adds no word. */
  lemma {:induction false} SplitWhitespaceTrailing(s: string, c: char)
    requires IsWhitespace(c)
    ensures SplitWhitespace(s + [c]) == SplitWhitespace(s)
    decreases |s|
  {
    var t := s + [c];
    if s == [] {
      assert t[1..] == [];
    } else if IsWhitespace(s[0]) {
      assert t[1..] == s[1..] + [c];
      SplitWhitespaceTrailing(s[1..], c);
    } else {
      WordLengthTrailing(s, c);
      var n := WordLength(s);
      assert t[..n] == s[..n];
      assert t[n..] == s[n..] + [c];
      SplitWhitespaceTrailing(s[n..], c);
    }
  }

  /** `str::trim` leaves nothing exactly when the string is all whitespace. */
  lemma TrimEmpty(s: string)
    ensures Trim(s) == [] <==> forall i :: 0 <= i < |s| ==> IsWhitespace(s[i])
  {
    var front := TrimStart(s);
    TrimStartAll(s);
    TrimEndAll(front);
    if forall i :: 0 <= i < |s| ==> IsWhitespace(s[i]) {
      assert front == [];
    } else {
      var i :| 0 <= i < |s| && !IsWhitespace(s[i]);
      assert front != [];
    }
  }

  lemma {:induction false} TrimStartAll(s: string)
    ensures TrimStart(s) == [] <==> forall i :: 0 <= i < |s| ==> IsWhitespace(s[i])
    decreases |s|
  {
    if s != [] && IsWhitespace(s[0]) {
      TrimStartAll(s[1..]);
      var tail := s[1..];
      if forall i :: 0 <= i < |tail| ==> IsWhitespace(tail[i]) {
        forall i | 0 <= i < |s| ensures IsWhitespace(s[i]) {
          if i > 0 {
            assert s[i] == tail[i - 1];
          }
        }
      }
    }
  }

  lemma {:induction false} TrimEndAll(s: string)
    ensures TrimEnd(s) == [] <==> forall i :: 0 <= i < |s| ==> IsWhitespace(s[i])
    decreases |s|
  {
    if s != [] && IsWhitespace(s[|s| - 1]) {
      TrimEndAll(s[..|s| - 1]);
      var init := s[..|s| - 1];
      if forall i :: 0 <= i < |init| ==> IsWhitespace(init[i]) {
        forall i | 0 <= i < |s| ensures IsWhitespace(s[i]) {
          if i < |s| - 1 {
            assert s[i] == init[i];
          }
        }
      }
    }
  }

  /** The decimal text of a number is a word. */
  lemma NatTextIsWord(n: nat)
    ensures IsWord(NatText(n))
  {
    var s := NatText(n);
    forall i | 0 <= i < |s| ensures !IsWhitespace(s[i]) {
      assert IsDigit(s[i]);
    }
  }

  /** The decimal texts of the numbers. */
  function NatTexts(ns: seq<nat>): seq<string> {
    seq(|ns|, k requires 0 <= k < |ns| => NatText(ns[k]))
  }

  /** Numbers written with single spaces between them split back into their texts. */
  lemma SplitNatTexts(ns: seq<nat>)
    ensures SplitWhitespace(Join(NatTexts(ns), " ")) == NatTexts(ns)
  {
    forall k | 0 <= k < |ns| ensures IsWord(NatTexts(ns)[k]) {
      NatTextIsWord(ns[k]);
    }
    SplitWhitespaceJoin(NatTexts(ns));
  }

  /** Every word parsed as a number, as `map(|w| w.parse().unwrap()).collect()` does;
      `None` stands for the panic on the first word that is not a number. */
  function ParseNats(words: seq<string>): (r: Option<seq<nat>>)
    ensures r.Some? <==> forall k :: 0 <= k < |words| ==> ParseNat(words[k]).Some?
    ensures r.Some? ==> |r.value| == |words|
    ensures r.Some? ==> forall k :: 0 <= k < |words| ==> ParseNat(words[k]) == Some(r.value[k])
    decreases |words|
  {
    if words == [] then Some([])
    else
      var rest := ParseNats(words[1..]);
      assert forall k :: 1 <= k < |words| ==> words[k] == words[1..][k - 1];
      if ParseNat(words[0]).None? || rest.None? then None
      else Some([ParseNat(words[0]).value] + rest.value)
  }

  /** Parsing the decimal texts gives the numbers back. */
  lemma ParseNatTexts(ns: seq<nat>)
    ensures ParseNats(NatTexts(ns)) == Some(ns)
  {
    forall k | 0 <= k < |ns| ensures ParseNat(NatTexts(ns)[k]) == Some(ns[k]) {
      ParseNatText(ns[k]);
    }
    var r := ParseNats(NatTexts(ns));
    assert r.value == ns;
  }

  function Pow10(k: nat): nat {
    if k == 0 then 1 else 10 * Pow10(k - 1)
  }

  /** The digits of `a` followed by those of `b` write `a`'s number shifted left by the
      length of `b`, plus `b`'s number. */
  lemma {:induction false} DecimalValueConcat(a: string, b: string)
    requires AllDigits(a) && AllDigits(b)
    ensures AllDigits(a + b)
    ensures DecimalValue(a + b) == DecimalValue(a) * Pow10(|b|) + DecimalValue(b)
    decreases |b|
  {
    if b == [] {
      assert a + b == a;
    } else {
      var init := b[..|b| - 1];
      DecimalValueConcat(a, init);
      var s := a + b;
      assert s[..|s| - 1] == a + init;
      assert s[|s| - 1] == b[|b| - 1];
      assert DecimalValue(s) == DecimalValue(a + init) * 10 + DigitValue(b[|b| - 1]);
      assert DecimalValue(b) == DecimalValue(init) * 10 + DigitValue(b[|b| - 1]);
      ShiftDigit(DecimalValue(a), Pow10(|init|), DecimalValue(init), DigitValue(b[|b| - 1]));
    }
  }

  lemma ShiftDigit(x: nat, p: nat, y: nat, d: nat)
    ensures (x * p + y) * 10 + d == x * (10 * p) + (y * 10 + d)
  {
  }

  function TrimStart(s: string): (r: string)
    ensures |r| <= |s|
    ensures r != [] ==> !IsWhitespace(r[0])
  {
    if s != [] && IsWhitespace(s[0]) then TrimStart(s[1..]) else s
  }

  function TrimEnd(s: string): (r: string)
    ensures |r| <= |s|
    ensures r != [] ==> !IsWhitespace(r[|r| - 1])
  {
    if s != [] && IsWhitespace(s[|s| - 1]) then TrimEnd(s[..|s| - 1]) else s
  }

  /** `str::trim`. */
  function Trim(s: string): string {
    TrimEnd(TrimStart(s))
  }

  /** Concatenation of all the pieces (`join("")`). */
  function Concat(pieces: seq<string>): string
    decreases |pieces|
  {
    if pieces == [] then [] else pieces[0] + Concat(pieces[1..])
  }
}
