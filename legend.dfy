// The map legend: `calculate_legend_intervals` cuts the range of per-location event
// counts into coloured tiers, and the `getIntensityColor` rule of the page colours a
// marker by the same thresholds.

module Legend {
  import opened Text

  const Blue := "#4dabf7"
  const Orange := "#ff922b"
  const Red := "#ff6b6b"
  const DarkRed := "#c92a2a"

  /** The colours of the tiers, lowest tier first. */
  const Palette := [Blue, Orange, Red, DarkRed]

  /** One legend row `(min, max, colour, label)`. */
  datatype Tier = Tier(lo: int, hi: int, color: string, caption: string)

  predicate InTier(t: Tier, c: int)
  {
    t.lo <= c <= t.hi
  }

  /** The tiers start at 1, each one starts right after the previous one ends, none is
      empty, and they take the colours of the palette in order. */
  predicate WellFormed(r: seq<Tier>)
  {
    && 0 < |r| <= |Palette|
    && r[0].lo == 1
    && (forall i :: 0 <= i < |r| ==> r[i].lo <= r[i].hi && r[i].color == Palette[i])
    && (forall i :: 0 < i < |r| ==> r[i].lo == r[i - 1].hi + 1)
  }

  /** `max(event_counts)` */
  function Max(s: seq<int>): (m: int)
    requires |s| > 0
    ensures m in s
    ensures forall i :: 0 <= i < |s| ==> s[i] <= m
  {
    if |s| == 1 then s[0]
    else
      var m := Max(s[1..]);
      assert forall i :: 1 <= i < |s| ==> s[i] == s[1..][i - 1];
      if s[0] >= m then s[0] else m
  }

  const DefaultTiers := [
    Tier(1, 2, Blue, "Low (1-2)"),
    Tier(3, 5, Orange, "Medium (3-5)"),
    Tier(6, 10, Red, "High (6-10)"),
    Tier(11, 1000, DarkRed, "Critical (11+)")
  ]

  /** The three tiers for a largest count `m`: four fixed cuts up to 50, thirds above. */
  function TiersFor(m: int): seq<Tier>
  {
    if m <= 5 then
      [Tier(1, 1, Blue, "Single (1)"), Tier(2, 3, Orange, "Few (2-3)"),
       Tier(4, 5, Red, "Several (4-5)")]
    else if m <= 15 then
      [Tier(1, 3, Blue, "Low (1-3)"), Tier(4, 7, Orange, "Medium (4-7)"),
       Tier(8, 15, Red, "High (8-15)")]
    else if m <= 30 then
      [Tier(1, 5, Blue, "Low (1-5)"), Tier(6, 15, Orange, "Medium (6-15)"),
       Tier(16, 30, Red, "High (16-30)")]
    else if m <= 50 then
      [Tier(1, 10, Blue, "Low (1-10)"), Tier(11, 25, Orange, "Medium (11-25)"),
       Tier(26, 50, Red, "High (26-50)")]
    else
      var third := m / 3;
      [Tier(1, third, Blue, "Low (1-" + NatToString(third) + ")"),
       Tier(third + 1, third * 2, Orange,
            "Medium (" + NatToString(third + 1) + "-" + NatToString(third * 2) + ")"),
       Tier(third * 2 + 1, m, Red, "High (" + NatToString(third * 2 + 1) + "+)")]
  }

  /** The first three tiers end at `a`, `b` and `c`; in well-formed tiers this fixes
      their bounds. */
  predicate EndsAt(r: seq<Tier>, a: int, b: int, c: int)
  {
    |r| >= 3 && r[0].hi == a && r[1].hi == b && r[2].hi == c
  }

  /** `calculate_legend_intervals(event_counts)` */
  function LegendIntervals(counts: seq<int>): (r: seq<Tier>)
    ensures WellFormed(r)
    ensures |counts| == 0 ==> |r| == 4 && EndsAt(r, 2, 5, 10) && r[3].hi == 1000
    ensures |counts| > 0 ==> |r| == 3
    ensures |counts| > 0 && Max(counts) <= 5 ==> EndsAt(r, 1, 3, 5)
    ensures |counts| > 0 && 5 < Max(counts) <= 15 ==> EndsAt(r, 3, 7, 15)
    ensures |counts| > 0 && 15 < Max(counts) <= 30 ==> EndsAt(r, 5, 15, 30)
    ensures |counts| > 0 && 30 < Max(counts) <= 50 ==> EndsAt(r, 10, 25, 50)
    ensures |counts| > 0 && Max(counts) > 50 ==>
              EndsAt(r, Max(counts) / 3, Max(counts) / 3 * 2, Max(counts))
    ensures |counts| > 0 && Max(counts) >= 1 ==> r[2].hi >= Max(counts)
    ensures |counts| > 0 && Max(counts) > 50 ==> r[2].hi == Max(counts) && r[0].hi >= 17
  {
    if |counts| == 0 then DefaultTiers else TiersFor(Max(counts))
  }

  /** The colour rule of the page, `getIntensityColor(count)` under `maxCount`. */
  function IntensityColor(maxCount: int, count: int): (c: string)
    ensures c == Blue || c == Orange || c == Red
  {
    if maxCount <= 5 then
      if count <= 1 then Blue else if count <= 3 then Orange else Red
    else if maxCount <= 15 then
      if count <= 3 then Blue else if count <= 7 then Orange else Red
    else if maxCount <= 30 then
      if count <= 5 then Blue else if count <= 15 then Orange else Red
    else if maxCount <= 50 then
      if count <= 10 then Blue else if count <= 25 then Orange else Red
    else
      var third := maxCount / 3;
      if count <= third then Blue else if count <= third * 2 then Orange else Red
  }

  /** In well-formed tiers, every value from 1 to the last maximum lies in some tier. */
  lemma {:induction false} Covered(r: seq<Tier>, c: int)
    requires WellFormed(r) && 1 <= c <= r[|r| - 1].hi
    ensures exists i :: 0 <= i < |r| && InTier(r[i], c)
  {
    if |r| > 1 && c > r[|r| - 2].hi {
      assert InTier(r[|r| - 1], c);
    } else if |r| > 1 {
      var s := r[..|r| - 1];
      assert WellFormed(s);
      Covered(s, c);
      var i :| 0 <= i < |s| && InTier(s[i], c);
      assert InTier(r[i], c);
    }
  }

  /** In well-formed tiers, a later tier lies wholly above an earlier one. */
  lemma {:induction false} Ascending(r: seq<Tier>, i: nat, j: nat)
    requires WellFormed(r) && i < j < |r|
    ensures r[i].hi < r[j].lo
    decreases j - i
  {
    if i + 1 < j {
      Ascending(r, i + 1, j);
    }
  }

  /** Well-formed tiers do not overlap. */
  lemma Disjoint(r: seq<Tier>, c: int, i: nat, j: nat)
    requires WellFormed(r) && i < |r| && j < |r|
    requires InTier(r[i], c) && InTier(r[j], c)
    ensures i == j
  {
    if i < j {
      Ascending(r, i, j);
    } else if j < i {
      Ascending(r, j, i);
    }
  }

  /** For a non-empty list of counts, every count from 1 up to the largest lies in
      exactly one tier. */
  lemma EveryCountInOneTier(counts: seq<int>, c: int)
    requires |counts| > 0 && 1 <= c <= Max(counts)
    ensures exists i :: 0 <= i < 3 && InTier(LegendIntervals(counts)[i], c)
    ensures forall i, j ::
              (0 <= i < 3 && 0 <= j < 3 && InTier(LegendIntervals(counts)[i], c)
               && InTier(LegendIntervals(counts)[j], c)) ==> i == j
  {
    var r := LegendIntervals(counts);
    Covered(r, c);
    forall i, j | 0 <= i < 3 && 0 <= j < 3 && InTier(r[i], c) && InTier(r[j], c)
      ensures i == j
    {
      Disjoint(r, c, i, j);
    }
  }

  /** Under a largest count `m`, the page's colour for `c` is the colour of the tier of
      `c`. */
  lemma ColourAgreesFor(m: int, c: int, i: nat)
    requires 1 <= c <= m && i < 3 && InTier(TiersFor(m)[i], c)
    ensures IntensityColor(m, c) == TiersFor(m)[i].color
  {
    var r := TiersFor(m);
    if m > 50 {
      var third := m / 3;
      assert r[0].hi == third && r[1].lo == third + 1 && r[1].hi == third * 2;
      assert r[2].lo == third * 2 + 1;
    }
  }

  /** The page colours a count exactly as the legend does: the colour of the tier the
      count lies in. */
  lemma ColourAgrees(counts: seq<int>, c: int, i: nat)
    requires |counts| > 0 && 1 <= c <= Max(counts)
    requires i < 3 && InTier(LegendIntervals(counts)[i], c)
    ensures IntensityColor(Max(counts), c) == LegendIntervals(counts)[i].color
  {
    ColourAgreesFor(Max(counts), c, i);
  }

  /** A single location with 120 events: thirds of 40, the top tier captioned `High (81+)`. */
  lemma HundredTwenty(counts: seq<int>)
    requires counts == [120]
    ensures var r := LegendIntervals(counts);
            r[0].lo == 1 && r[0].hi == 40 && r[1].lo == 41 && r[1].hi == 80
            && r[2].lo == 81 && r[2].hi == 120 && r[2].caption == "High (81+)"
  {
    assert Max(counts) == 120;
    assert NatToString(81) == "81";
  }
}
