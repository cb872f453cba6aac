/** Day 15 library (day15/src/lib.rs): the HASH algorithm and the boxes of lenses it files
    labels into. A box is a value: `remove` and `replace` return a new box. */
module Day15 {
  import opened Wrappers

  /** A byte, the type of a focal length and of a hash. */
  type Byte = n: nat | n < 256

  /** Text whose characters are all ASCII, so that each is one byte of its UTF-8 form. */
  predicate Ascii(s: string) {
    forall i :: 0 <= i < |s| ==> s[i] as int < 128
  }

  /** One step of HASH on a `u16` accumulator: add the byte, multiply by 17, keep the low
      eight bits. The product never leaves 16 bits, so the `u16` arithmetic does not wrap. */
  function HashStep(acc: Byte, c: char): (r: Byte)
    requires c as int < 128
    ensures (acc + c as int) * 17 < 0x1_0000
    ensures r < 256 && (r - (acc + c as int) * 17) % 256 == 0
  {
    ((acc + c as int) * 17) % 256
  }

  /** The fold of `hash_algo`, from the first byte on, starting from `acc`. */
  function HashFrom(acc: Byte, s: string): Byte
    requires Ascii(s)
    decreases |s|
  {
    if s == [] then acc else HashFrom(HashStep(acc, s[0]), s[1..])
  }

  function Hash(s: string): (h: Byte)
    requires Ascii(s)
  {
    HashFrom(0, s)
  }

  /** The fold consumes bytes left to right: one more byte at the end takes one more step
      from the hash of the text before it. */
  lemma {:induction false} HashFromSnoc(acc: Byte, s: string, c: char)
    requires Ascii(s) && c as int < 128
    ensures Ascii(s + [c])
    ensures HashFrom(acc, s + [c]) == HashStep(HashFrom(acc, s), c)
    decreases |s|
  {
    if s == [] {
      assert (s + [c])[1..] == [];
    } else {
      assert (s + [c])[1..] == s[1..] + [c];
      HashFromSnoc(HashStep(acc, s[0]), s[1..], c);
    }
  }

  /** HASH of the empty text is 0, and each further byte is one HashStep on the hash of the
      text before it. */
  lemma HashSnoc(s: string, c: char)
    requires Ascii(s) && c as int < 128
    ensures Ascii(s + [c]) && Hash(s + [c]) == HashStep(Hash(s), c)
    ensures Hash([]) == 0
  {
    HashFromSnoc(0, s, c);
  }

  lemma HashTwo(a: char, b: char)
    requires a as int < 128 && b as int < 128
    ensures Ascii([a, b]) && Hash([a, b]) == HashStep(HashStep(0, a), b)
  {
    assert [a, b][1..] == [b] && [b][1..] == [];
    assert HashFrom(HashStep(0, a), [b]) == HashFrom(HashStep(HashStep(0, a), b), []);
  }

  /** HASH values of the sample steps: "rn" and "cm" go to box 0, "qp" to box 1, and "pc",
      "ot" and "ab" to box 3. */
  lemma HashSamples()
    ensures Ascii("rn") && Hash("rn") == 0 && Ascii("cm") && Hash("cm") == 0
    ensures Ascii("qp") && Hash("qp") == 1 && Ascii("pc") && Hash("pc") == 3
    ensures Ascii("ot") && Hash("ot") == 3 && Ascii("ab") && Hash("ab") == 3
  {
    HashTwo('r', 'n');
    HashTwo('c', 'm');
    HashTwo('q', 'p');
    HashTwo('p', 'c');
    HashTwo('o', 't');
    HashTwo('a', 'b');
  }

  /** A lens: a label and a focal length of one byte. */
  datatype Lens = Lens(name: string, focal: Byte)

  datatype LensBox = LensBox(lenses: seq<Lens>)

  function Labels(lenses: seq<Lens>): set<string> {
    set i | 0 <= i < |lenses| :: lenses[i].name
  }

  lemma LabelsCons(lenses: seq<Lens>)
    requires lenses != []
    ensures Labels(lenses) == {lenses[0].name} + Labels(lenses[1..])
  {
    var tail := lenses[1..];
    forall l | l in Labels(lenses) && l != lenses[0].name
      ensures l in Labels(tail)
    {
      var i :| 0 <= i < |lenses| && lenses[i].name == l;
      assert tail[i - 1] == lenses[i];
    }
    forall l | l in Labels(tail)
      ensures l in Labels(lenses)
    {
      var i :| 0 <= i < |tail| && tail[i].name == l;
      assert lenses[i + 1] == tail[i];
    }
  }

  /** No two lenses of the box share a label. */
  predicate Unique(b: LensBox) {
    forall i, j :: 0 <= i < j < |b.lenses| ==> b.lenses[i].name != b.lenses[j].name
  }

  /** The focal length of the first lens with the label, the one the box shows for it. */
  function Lookup(lenses: seq<Lens>, name: string): (r: Option<Byte>)
    ensures r.None? <==> name !in Labels(lenses)
  {
    if lenses == [] then None
    else
      LabelsCons(lenses);
      if lenses[0].name == name then Some(lenses[0].focal)
      else Lookup(lenses[1..], name)
  }

  function New(): (b: LensBox)
    ensures IsEmpty(b) && forall name :: Lookup(b.lenses, name).None?
  {
    LensBox([])
  }

  function IsEmpty(b: LensBox): (r: bool)
    ensures r <==> Labels(b.lenses) == {}
    ensures r ==> Power(b) == 0
  {
    assert b.lenses != [] ==> b.lenses[0].name in Labels(b.lenses);
    |b.lenses| == 0
  }

  /** The lenses other than those with label `name`, in their order. */
  function Filter(lenses: seq<Lens>, name: string): (r: seq<Lens>)
    ensures |r| <= |lenses|
    ensures forall i :: 0 <= i < |r| ==> r[i].name != name
  {
    if lenses == [] then []
    else if lenses[0].name == name then Filter(lenses[1..], name)
    else [lenses[0]] + Filter(lenses[1..], name)
  }

  function Remove(b: LensBox, name: string): (r: LensBox)
    ensures |r.lenses| <= |b.lenses|
    ensures forall i :: 0 <= i < |r.lenses| ==> r.lenses[i].name != name
  {
    LensBox(Filter(b.lenses, name))
  }

  /** After `remove` the label is gone, every other label shows the focal length it showed
      before, and labels stay unique. */
  lemma RemoveLookup(b: LensBox, name: string)
    ensures Labels(Remove(b, name).lenses) == Labels(b.lenses) - {name}
    ensures Lookup(Remove(b, name).lenses, name).None?
    ensures forall other :: other != name ==> Lookup(Remove(b, name).lenses, other) == Lookup(b.lenses, other)
    ensures Unique(b) ==> Unique(Remove(b, name))
  {
    FilterLookup(b.lenses, name);
    if Unique(b) {
      FilterUnique(b.lenses, name);
    }
  }

  lemma {:induction false} FilterLookup(lenses: seq<Lens>, name: string)
    ensures Labels(Filter(lenses, name)) == Labels(lenses) - {name}
    ensures forall other :: other != name ==> Lookup(Filter(lenses, name), other) == Lookup(lenses, other)
  {
    if lenses != [] {
      FilterLookup(lenses[1..], name);
      LabelsCons(lenses);
      if lenses[0].name != name {
        var r := [lenses[0]] + Filter(lenses[1..], name);
        assert r[1..] == Filter(lenses[1..], name);
        LabelsCons(r);
      }
    }
  }

  lemma {:induction false} FilterUnique(lenses: seq<Lens>, name: string)
    requires Unique(LensBox(lenses))
    ensures Unique(LensBox(Filter(lenses, name)))
  {
    if lenses != [] {
      var tail := lenses[1..];
      assert Unique(LensBox(tail)) by {
        forall i, j | 0 <= i < j < |tail|
          ensures tail[i].name != tail[j].name
        {
          assert tail[i] == lenses[i + 1] && tail[j] == lenses[j + 1];
        }
      }
      FilterUnique(tail, name);
      if lenses[0].name != name {
        var rest := Filter(tail, name);
        FilterLookup(tail, name);
        assert lenses[0].name !in Labels(tail) by {
          forall i | 0 <= i < |tail|
            ensures tail[i].name != lenses[0].name
          {
            assert tail[i] == lenses[i + 1];
          }
        }
        var r := [lenses[0]] + rest;
        forall i, j | 0 <= i < j < |r|
          ensures r[i].name != r[j].name
        {
          assert r[j] == rest[j - 1];
          assert rest[j - 1].name in Labels(rest);
          if i > 0 {
            assert r[i] == rest[i - 1];
          }
        }
      }
    }
  }

  /** Filtering distributes over concatenation, so the kept lenses stay in their order. */
  lemma {:induction false} FilterAppend(a: seq<Lens>, c: seq<Lens>, name: string)
    ensures Filter(a + c, name) == Filter(a, name) + Filter(c, name)
  {
    if a != [] {
      assert (a + c)[1..] == a[1..] + c;
      FilterAppend(a[1..], c, name);
    } else {
      assert a + c == c;
    }
  }

  /** A box without the label is returned as it was. */
  lemma {:induction false} FilterAbsent(lenses: seq<Lens>, name: string)
    ensures name !in Labels(lenses) ==> Filter(lenses, name) == lenses
  {
    if lenses != [] {
      LabelsCons(lenses);
      FilterAbsent(lenses[1..], name);
    }
  }

  /** Every lens with label `name` becomes the new lens, in its own place. */
  function Swap(lenses: seq<Lens>, name: string, focal: Byte): (r: seq<Lens>)
    ensures |r| == |lenses|
    ensures forall i :: 0 <= i < |r| ==> r[i] == (if lenses[i].name == name then Lens(name, focal) else lenses[i])
  {
    if lenses == [] then []
    else [if lenses[0].name == name then Lens(name, focal) else lenses[0]] + Swap(lenses[1..], name, focal)
  }

  function Replace(b: LensBox, name: string, focal: Byte): (r: LensBox)
    ensures name in Labels(b.lenses) ==> |r.lenses| == |b.lenses|
    ensures name in Labels(b.lenses) ==> forall i :: 0 <= i < |r.lenses| ==> r.lenses[i] == (if b.lenses[i].name == name then Lens(name, focal) else b.lenses[i])
    ensures name !in Labels(b.lenses) ==> r.lenses == b.lenses + [Lens(name, focal)]
  {
    if name in Labels(b.lenses) then LensBox(Swap(b.lenses, name, focal))
    else LensBox(b.lenses + [Lens(name, focal)])
  }

  /** After `replace` the label shows the new focal length, every other label shows what it
      showed before, and labels stay unique. */
  lemma ReplaceLookup(b: LensBox, name: string, focal: Byte)
    ensures Labels(Replace(b, name, focal).lenses) == Labels(b.lenses) + {name}
    ensures Lookup(Replace(b, name, focal).lenses, name) == Some(focal)
    ensures forall other :: other != name ==> Lookup(Replace(b, name, focal).lenses, other) == Lookup(b.lenses, other)
    ensures Unique(b) ==> Unique(Replace(b, name, focal))
  {
    if name in Labels(b.lenses) {
      SwapLookup(b.lenses, name, focal);
      SwapOthers(b.lenses, name, focal);
    } else {
      AppendLookup(b.lenses, Lens(name, focal));
      if Unique(b) {
        var r := Replace(b, name, focal);
        forall i, j | 0 <= i < j < |r.lenses|
          ensures r.lenses[i].name != r.lenses[j].name
        {
          if j == |b.lenses| {
            assert r.lenses[i] == b.lenses[i];
          }
        }
      }
    }
  }

  lemma SwapLabels(lenses: seq<Lens>, name: string, focal: Byte)
    requires name in Labels(lenses)
    ensures Labels(Swap(lenses, name, focal)) == Labels(lenses)
  {
    var r := Swap(lenses, name, focal);
    forall l | l in Labels(lenses)
      ensures l in Labels(r)
    {
      var i :| 0 <= i < |lenses| && lenses[i].name == l;
      assert r[i].name == l;
    }
    forall l | l in Labels(r)
      ensures l in Labels(lenses)
    {
      var i :| 0 <= i < |r| && r[i].name == l;
      if l == name {
      } else {
        assert lenses[i].name == l;
      }
    }
  }

  lemma {:induction false} SwapLookup(lenses: seq<Lens>, name: string, focal: Byte)
    requires name in Labels(lenses)
    ensures Labels(Swap(lenses, name, focal)) == Labels(lenses)
    ensures Lookup(Swap(lenses, name, focal), name) == Some(focal)
  {
    SwapLabels(lenses, name, focal);
    LabelsCons(lenses);
    if lenses[0].name != name {
      var r := Swap(lenses, name, focal);
      assert r[1..] == Swap(lenses[1..], name, focal);
      SwapLookup(lenses[1..], name, focal);
    }
  }

  lemma {:induction false} SwapOthers(lenses: seq<Lens>, name: string, focal: Byte)
    ensures forall other :: other != name ==> Lookup(Swap(lenses, name, focal), other) == Lookup(lenses, other)
  {
    if lenses != [] {
      assert Swap(lenses, name, focal)[1..] == Swap(lenses[1..], name, focal);
      SwapOthers(lenses[1..], name, focal);
    }
  }

  lemma {:induction false} AppendLookup(lenses: seq<Lens>, lens: Lens)
    requires lens.name !in Labels(lenses)
    ensures Labels(lenses + [lens]) == Labels(lenses) + {lens.name}
    ensures Lookup(lenses + [lens], lens.name) == Some(lens.focal)
    ensures forall other :: other != lens.name ==> Lookup(lenses + [lens], other) == Lookup(lenses, other)
  {
    var r := lenses + [lens];
    LabelsCons(r);
    if lenses != [] {
      assert r[1..] == lenses[1..] + [lens];
      LabelsCons(lenses);
      AppendLookup(lenses[1..], lens);
    } else {
      assert r[1..] == [];
    }
  }

  /** The focusing power of the lenses from slot `k` on: each focal length times its
      one-based slot. */
  function Weighted(lenses: seq<Lens>, k: nat): nat {
    if lenses == [] then 0 else lenses[0].focal * k + Weighted(lenses[1..], k + 1)
  }

  function Power(b: LensBox): nat {
    Weighted(b.lenses, 1)
  }

  lemma {:induction false} WeightedSnoc(lenses: seq<Lens>, lens: Lens, k: nat)
    ensures Weighted(lenses + [lens], k) == Weighted(lenses, k) + lens.focal * (k + |lenses|)
  {
    if lenses != [] {
      assert (lenses + [lens])[1..] == lenses[1..] + [lens];
      WeightedSnoc(lenses[1..], lens, k + 1);
    } else {
      assert (lenses + [lens])[1..] == [];
    }
  }

  /** Adding a lens at the back adds its focal length times its one-based slot. */
  lemma PowerSnoc(lenses: seq<Lens>, lens: Lens)
    ensures Power(LensBox(lenses + [lens])) == Power(LensBox(lenses)) + lens.focal * (|lenses| + 1)
  {
    WeightedSnoc(lenses, lens, 1);
  }

  /** A box of `n` lenses has power at most 255 · n(n+1)/2. */
  lemma {:induction false} PowerBound(lenses: seq<Lens>)
    ensures 2 * Power(LensBox(lenses)) <= 255 * |lenses| * (|lenses| + 1)
    decreases |lenses|
  {
    if lenses != [] {
      var n := |lenses| - 1;
      var init := lenses[..n];
      assert init + [lenses[n]] == lenses;
      PowerSnoc(init, lenses[n]);
      PowerBound(init);
      SlotBound(lenses[n].focal, n);
    }
  }

  lemma SlotBound(focal: Byte, n: nat)
    ensures 255 * n * (n + 1) + 2 * focal * (n + 1) <= 255 * (n + 1) * (n + 2)
  {
    assert focal * (n + 1) <= 255 * (n + 1);
    assert 255 * n * (n + 1) + 2 * 255 * (n + 1) == 255 * (n + 1) * (n + 2);
  }
}
