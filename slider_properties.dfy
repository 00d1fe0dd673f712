/** What the converter's slider list is, stated independently of the fold
    that builds it, and what the rest of the document always looks like. */
module SliderProperties {
  import opened Wrappers
  import opened JSlot
  import opened SliderPresets
  import opened Program

  /** The fold distributes over concatenation: each morph's contribution
      depends on that morph alone, not on what came before it. */
  lemma {:induction false} SliderListAppend(a: seq<BodyMorph>, b: seq<BodyMorph>)
    ensures SliderList(a + b) == SliderList(a) + SliderList(b)
    decreases |b|
  {
    if b == [] {
      assert a + b == a;
    } else {
      var init := b[..|b| - 1];
      var last := b[|b| - 1];
      assert (a + b)[..|a + b| - 1] == a + init;
      assert (a + b)[|a + b| - 1] == last;
      SliderListAppend(a, init);
      calc {
        SliderList(a + b);
        SliderList(a + init) + MorphSliders(last);
        SliderList(a) + SliderList(init) + MorphSliders(last);
        SliderList(a) + (SliderList(init) + MorphSliders(last));
        SliderList(a) + SliderList(b);
      }
    }
  }

  /** The filter distributes over concatenation. */
  lemma {:induction false} QualifyingAppend(a: seq<BodyMorph>, b: seq<BodyMorph>)
    ensures Qualifying(a + b) == Qualifying(a) + Qualifying(b)
    decreases |b|
  {
    if b == [] {
      assert a + b == a;
    } else {
      var init := b[..|b| - 1];
      var last := b[|b| - 1];
      assert (a + b)[..|a + b| - 1] == a + init;
      assert (a + b)[|a + b| - 1] == last;
      QualifyingAppend(a, init);
    }
  }

  /** The filter outright: wherever a morph stands, it is kept in place when
      it qualifies and dropped otherwise; nothing is reordered or merged. */
  lemma QualifyingFilter(a: seq<BodyMorph>, m: BodyMorph, b: seq<BodyMorph>)
    ensures Qualifying(a + [m] + b) ==
      Qualifying(a) + (if Qualifies(m) then [m] else []) + Qualifying(b)
  {
    var kept := if Qualifies(m) then [m] else [];
    assert [m][..0] == [];
    assert Qualifying([m]) == kept;
    QualifyingAppend(a + [m], b);
    QualifyingAppend(a, [m]);
  }

  /** A morph without keys, whose first key is null, or whose first key is
      not `MORPH_KEY`, adds no slider wherever it stands in the list. */
  lemma NonQualifyingContributesNothing(a: seq<BodyMorph>, m: BodyMorph, b: seq<BodyMorph>)
    requires !Qualifies(m)
    ensures SliderList(a + [m] + b) == SliderList(a + b)
  {
    assert SliderList([m]) == SliderList([]) + MorphSliders(m) == [];
    calc {
      SliderList(a + [m] + b);
      { SliderListAppend(a + [m], b); }
      SliderList(a + [m]) + SliderList(b);
      { SliderListAppend(a, [m]); }
      SliderList(a) + SliderList(b);
      { SliderListAppend(a, b); }
      SliderList(a + b);
    }
  }

  /** A morph whose first key is `MORPH_KEY` adds exactly two adjacent
      sliders at its own position: small then big, both named after the morph
      and valued at 100 times the first key's value. */
  lemma QualifyingContributesPair(a: seq<BodyMorph>, m: BodyMorph, b: seq<BodyMorph>)
    requires Qualifies(m)
    ensures SliderList(a + [m] + b) ==
      SliderList(a)
      + [Slider(m.name, SIZE_SMALL, KeyValue(m) * 100.0), Slider(m.name, SIZE_BIG, KeyValue(m) * 100.0)]
      + SliderList(b)
  {
    assert SliderList([m]) == SliderList([]) + MorphSliders(m);
    calc {
      SliderList(a + [m] + b);
      { SliderListAppend(a + [m], b); }
      SliderList(a + [m]) + SliderList(b);
      { SliderListAppend(a, [m]); }
      SliderList(a) + MorphSliders(m) + SliderList(b);
    }
  }

  /** The whole slider list against the filtered morphs: two sliders per
      qualifying morph, in the morphs' order, the pair for the k-th qualifying
      morph at positions 2k (small) and 2k+1 (big), both valued at 100 times
      its first key's value. */
  lemma {:induction false} SliderListShape(morphs: seq<BodyMorph>)
    ensures |SliderList(morphs)| == 2 * |Qualifying(morphs)|
    ensures forall k :: 0 <= k < |Qualifying(morphs)| ==>
      var m := Qualifying(morphs)[k];
      SliderList(morphs)[2 * k] == Slider(m.name, SIZE_SMALL, KeyValue(m) * 100.0) &&
      SliderList(morphs)[2 * k + 1] == Slider(m.name, SIZE_BIG, KeyValue(m) * 100.0)
  {
    if morphs != [] {
      var init := morphs[..|morphs| - 1];
      var last := morphs[|morphs| - 1];
      SliderListShape(init);
      var q, sl := Qualifying(morphs), SliderList(morphs);
      assert sl == SliderList(init) + MorphSliders(last);
      assert q == Qualifying(init) + (if Qualifies(last) then [last] else []);
      forall k | 0 <= k < |q|
        ensures sl[2 * k] == Slider(q[k].name, SIZE_SMALL, KeyValue(q[k]) * 100.0)
        ensures sl[2 * k + 1] == Slider(q[k].name, SIZE_BIG, KeyValue(q[k]) * 100.0)
      {
        if k < |Qualifying(init)| {
          assert q[k] == Qualifying(init)[k];
        } else {
          assert q[k] == last;
        }
      }
    }
  }

  /** The list splits into adjacent (small, big) pairs that agree on name
      and value. */
  lemma SliderPairs(morphs: seq<BodyMorph>)
    ensures |SliderList(morphs)| % 2 == 0
    ensures forall k :: 0 <= k < |SliderList(morphs)| / 2 ==>
      SliderList(morphs)[2 * k].size == SIZE_SMALL &&
      SliderList(morphs)[2 * k + 1].size == SIZE_BIG &&
      SliderList(morphs)[2 * k].name == SliderList(morphs)[2 * k + 1].name &&
      SliderList(morphs)[2 * k].value == SliderList(morphs)[2 * k + 1].value
  {
    SliderListShape(morphs);
  }

  /** The names carried by a list of sliders. */
  function SliderNames(sliders: seq<Slider>): set<string> {
    set s | s in sliders :: s.name
  }

  /** The names of the morphs that pass the filter. */
  function QualifyingNames(morphs: seq<BodyMorph>): set<string> {
    set m | m in morphs && Qualifies(m) :: m.name
  }

  /** The sliders' names are exactly the names of the qualifying morphs. */
  lemma {:induction false} SliderNamesAreQualifyingNames(morphs: seq<BodyMorph>)
    ensures SliderNames(SliderList(morphs)) == QualifyingNames(morphs)
  {
    if morphs != [] {
      var init := morphs[..|morphs| - 1];
      var last := morphs[|morphs| - 1];
      SliderNamesAreQualifyingNames(init);
      var sl := SliderList(morphs);
      assert sl == SliderList(init) + MorphSliders(last);
      assert morphs == init + [last];
      forall n | n in SliderNames(sl) ensures n in QualifyingNames(morphs) {
        var s :| s in sl && s.name == n;
        if s in SliderList(init) {
          assert n in SliderNames(SliderList(init));
          var m :| m in init && Qualifies(m) && m.name == n;
          assert m in morphs;
        } else {
          assert s in MorphSliders(last);
          assert last in morphs;
        }
      }
      forall n | n in QualifyingNames(morphs) ensures n in SliderNames(sl) {
        var m :| m in morphs && Qualifies(m) && m.name == n;
        if m in init {
          assert n in QualifyingNames(init);
          var s :| s in SliderList(init) && s.name == n;
          assert s in sl;
        } else {
          assert m == last;
          assert MorphSliders(last)[0] in sl;
        }
      }
    }
  }

  /** Only each morph's name and first key are consulted: two morph lists
      that agree on those, whatever their other keys, give the same sliders. */
  lemma {:induction false} OnlyFirstKeyConsulted(xs: seq<BodyMorph>, ys: seq<BodyMorph>)
    requires |xs| == |ys|
    requires forall i :: 0 <= i < |xs| ==>
      xs[i].name == ys[i].name && FirstKey(xs[i].keys) == FirstKey(ys[i].keys)
    ensures SliderList(xs) == SliderList(ys)
  {
    if xs != [] {
      var n := |xs| - 1;
      OnlyFirstKeyConsulted(xs[..n], ys[..n]);
      assert MorphSliders(xs[n]) == MorphSliders(ys[n]);
    }
  }

  /** The worked example: "BreastSize" keyed on `MORPH_KEY` at 0.3, "Other"
      keyed elsewhere and "Nulled" whose first key is null give exactly the
      two "BreastSize" sliders valued 30. */
  lemma WorkedExample()
    ensures SliderList([
      BodyMorph("BreastSize", [Some(BodyMorphKey("RaceMenuMorphsCBBE.esp", 0.3))]),
      BodyMorph("Other", [Some(BodyMorphKey("SomethingElse", 0.9))]),
      BodyMorph("Nulled", [None, Some(BodyMorphKey("RaceMenuMorphsCBBE.esp", 0.5))])])
      == [Slider("BreastSize", "small", 30.0), Slider("BreastSize", "big", 30.0)]
  {
    var ms := [
      BodyMorph("BreastSize", [Some(BodyMorphKey("RaceMenuMorphsCBBE.esp", 0.3))]),
      BodyMorph("Other", [Some(BodyMorphKey("SomethingElse", 0.9))]),
      BodyMorph("Nulled", [None, Some(BodyMorphKey("RaceMenuMorphsCBBE.esp", 0.5))])];
    assert ms[..2][..1] == [ms[0]];
    assert [ms[0]][..0] == [];
    assert MorphSliders(ms[2]) == [] && MorphSliders(ms[1]) == [];
    assert SliderList(ms[..2]) == SliderList([ms[0]]) + MorphSliders(ms[1]);
    assert SliderList(ms) == SliderList(ms[..2]) + MorphSliders(ms[2]);
  }
}
