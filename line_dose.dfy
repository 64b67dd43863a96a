/** The axis ticks of the line-dose plot, `LineDosePlot::write_xaxis` and
    `LineDosePlot::write_yaxis` (src/plots/line-dose.cpp:331-377). The depth
    axis picks the first divisor of a fixed list that gives more than
    `MIN_XTICKS` ticks; the dose axis always has `MIN_YTICKS` ticks. Tick
    positions are fractions of the axis length, computed in double precision
    by the source and over `real` here. A tick label is modelled as the
    number it prints. */
module LineDose {
  /** line-dose.cpp:16-17. */
  const MinXTicks: int := 9
  const MinYTicks: int := 9
  /** line-dose.cpp:10. */
  const DoseMaxMult: real := 1.0

  /** The divisors `write_xaxis` tries, in order (line-dose.cpp:333). */
  const TikDivs: seq<int> := [100, 50, 20, 10, 5, 2, 1]

  /** C's `ldiv`: quotient truncated toward zero, remainder with the sign of
      the dividend. */
  function LDiv(n: int, d: int): (r: (int, int))
    requires d > 0
    ensures n == r.0 * d + r.1
    ensures n >= 0 ==> 0 <= r.1 < d && r.0 >= 0
    ensures n < 0 ==> -d < r.1 <= 0 && r.0 <= 0
  {
    var m := if n >= 0 then n else -n;
    DivModParts(m, d);
    if n >= 0 then (m / d, m % d) else (-(m / d), -(m % d))
  }

  /** Euclidean division of a non-negative number, and of its negation with
      quotient and remainder both negated. */
  lemma DivModParts(m: int, d: int)
    requires m >= 0 && d > 0
    ensures m == (m / d) * d + m % d && 0 <= m % d < d && m / d >= 0
    ensures -m == (-(m / d)) * d + -(m % d)
  {
    var q, r := m / d, m % d;
    assert m == q * d + r;
    assert (-q) * d == -(q * d);
  }

  /** Whether divisor `d` gives more than `MinXTicks` ticks. */
  predicate Qualifies(maxdepth: int, d: int)
  {
    d > 0 && LDiv(maxdepth, d).0 > MinXTicks
  }

  /** The divisor `write_xaxis` settles on, looking from position `k` of
      `TikDivs`; 0 when none qualifies. */
  function DivisorFrom(maxdepth: int, k: nat): int
    requires k <= |TikDivs|
    decreases |TikDivs| - k
  {
    if k == |TikDivs| then 0
    else if Qualifies(maxdepth, TikDivs[k]) then TikDivs[k]
    else DivisorFrom(maxdepth, k + 1)
  }

  function Divisor(maxdepth: int): int
  {
    DivisorFrom(maxdepth, 0)
  }

  /** `Divisor` is the first entry of the list that qualifies, and 0 exactly
      when no entry does. */
  lemma {:induction false} DivisorFromIsFirst(maxdepth: int, k: nat)
    requires k <= |TikDivs|
    ensures DivisorFrom(maxdepth, k) == 0 <==> forall j :: k <= j < |TikDivs| ==> !Qualifies(maxdepth, TikDivs[j])
    ensures DivisorFrom(maxdepth, k) != 0 ==>
      exists j :: k <= j < |TikDivs| && TikDivs[j] == DivisorFrom(maxdepth, k) &&
        Qualifies(maxdepth, TikDivs[j]) && forall i :: k <= i < j ==> !Qualifies(maxdepth, TikDivs[i])
    decreases |TikDivs| - k
  {
    if k < |TikDivs| {
      DivisorFromIsFirst(maxdepth, k + 1);
      if Qualifies(maxdepth, TikDivs[k]) {
        assert TikDivs[k] != 0;
      } else if DivisorFrom(maxdepth, k + 1) != 0 {
        var j :| k + 1 <= j < |TikDivs| && TikDivs[j] == DivisorFrom(maxdepth, k + 1) &&
          Qualifies(maxdepth, TikDivs[j]) && forall i :: k + 1 <= i < j ==> !Qualifies(maxdepth, TikDivs[i]);
        assert forall i :: k <= i < j ==> !Qualifies(maxdepth, TikDivs[i]);
      }
    }
  }

  /** Since the list ends with 1, some divisor qualifies exactly when the
      depth exceeds `MinXTicks`; the ticks then number more than
      `MinXTicks` and the last regular one is not past the depth. */
  lemma DivisorExists(maxdepth: int)
    ensures Divisor(maxdepth) != 0 <==> maxdepth > MinXTicks
    ensures Divisor(maxdepth) != 0 ==>
      Divisor(maxdepth) > 0 &&
      LDiv(maxdepth, Divisor(maxdepth)).0 > MinXTicks &&
      LDiv(maxdepth, Divisor(maxdepth)).0 * Divisor(maxdepth) <= maxdepth
  {
    DivisorFromIsFirst(maxdepth, 0);
    if maxdepth > MinXTicks {
      assert Qualifies(maxdepth, TikDivs[6]);
    }
  }

  /** The loop over `tikdivs` (line-dose.cpp:338-344): the divisor chosen
      and the `ldiv` result left behind by the last division done. */
  method ChooseDivisor(maxdepth: int) returns (div: int, quot: int, rem: int)
    ensures div == Divisor(maxdepth)
    ensures div != 0 ==> (quot, rem) == LDiv(maxdepth, div)
    ensures div == 0 ==> (quot, rem) == LDiv(maxdepth, 1)
  {
    div := 0;
    quot, rem := 0, 0;
    var k := 0;
    while k < |TikDivs|
      invariant k <= |TikDivs|
      invariant DivisorFrom(maxdepth, 0) == DivisorFrom(maxdepth, k)
      invariant 0 < k ==> (quot, rem) == LDiv(maxdepth, TikDivs[k - 1])
    {
      var res := LDiv(maxdepth, TikDivs[k]);
      quot, rem := res.0, res.1;
      if quot > MinXTicks {
        div := TikDivs[k];
        return;
      }
      k := k + 1;
    }
  }

  /** The position step: `(1 - rem / maxdepth) / quot`
      (line-dose.cpp:346-347). */
  function TikInc(maxdepth: int, quot: int, rem: int): real
    requires maxdepth != 0 && quot != 0
  {
    (1.0 - rem as real / maxdepth as real) / quot as real
  }

  /** A depth tick: its position as a fraction of the axis and the depth
      it marks (a `std::pair<double, long>` in the source). */
  datatype Tick = Tick(pos: real, depth: int)

  /** `n` evenly spaced ticks: position `i * inc` at depth `i * div`. */
  function RegularTicks(n: nat, inc: real, div: int): (r: seq<Tick>)
    ensures |r| == n
  {
    seq(n, i => Tick(i as real * inc, i * div))
  }

  /** The end tick at the full depth, present when the division leaves a
      remainder (line-dose.cpp:360-362). */
  function EndTick(maxdepth: int, rem: int): seq<Tick>
  {
    if rem != 0 then [Tick(1.0, maxdepth)] else []
  }

  /** What `write_xaxis` has in hand when it fills the ticks: a positive
      divisor that leaves more than `MinXTicks` ticks, and the quotient and
      remainder of the depth by it. */
  predicate Chosen(maxdepth: int, div: int, quot: int, rem: int)
  {
    div > 0 && quot > MinXTicks && 0 <= rem < div && maxdepth == quot * div + rem
  }

  /** The divisor found and its `ldiv` are such a choice. */
  lemma DivisorChosen(maxdepth: int)
    requires Divisor(maxdepth) != 0
    ensures Chosen(maxdepth, Divisor(maxdepth), LDiv(maxdepth, Divisor(maxdepth)).0, LDiv(maxdepth, Divisor(maxdepth)).1)
  {
    DivisorExists(maxdepth);
  }

  /** The depth-axis ticks: `quot + 1` evenly spaced regular ticks and
      possibly the end tick (line-dose.cpp:353-362). */
  function XTicks(maxdepth: int, div: int, quot: int, rem: int): seq<Tick>
    requires Chosen(maxdepth, div, quot, rem)
  {
    RegularTicks(quot + 1, TikInc(maxdepth, quot, rem), div) + EndTick(maxdepth, rem)
  }

  /** The labels of the regular ticks, one per tick (line-dose.cpp:358). */
  function XTickLabels(div: int, quot: int): seq<int>
    requires quot >= 0
  {
    seq(quot + 1, i => i * div)
  }

  lemma DivMulCancel(a: real, b: real)
    requires b != 0.0
    ensures (a / b) * b == a
  {
  }

  /** The step is the divisor as a fraction of the depth. */
  lemma {:induction false} TikIncIsFraction(maxdepth: int, div: int, quot: int, rem: int)
    requires maxdepth > 0 && quot > 0 && maxdepth == quot * div + rem
    ensures TikInc(maxdepth, quot, rem) == div as real / maxdepth as real
  {
    var m, q, r, d := maxdepth as real, quot as real, rem as real, div as real;
    var t := TikInc(maxdepth, quot, rem);
    assert m == q * d + r;
    calc {
      t * q;
      ((1.0 - r / m) / q) * q;
      { DivMulCancel(1.0 - r / m, q); }
      1.0 - r / m;
    }
    calc {
      (r / m) * m;
      { DivMulCancel(r, m); }
      r;
    }
    calc {
      (t * q) * m;
      (1.0 - r / m) * m;
      m - (r / m) * m;
      m - r;
      q * d;
    }
    assert q * (t * m) == q * d;
    assert t * m == d;
    calc {
      d / m;
      (t * m) / m;
      t;
    }
  }

  /** Tick `i` of the depth axis. */
  lemma XTickAt(maxdepth: int, div: int, quot: int, rem: int, i: int)
    requires Chosen(maxdepth, div, quot, rem) && 0 <= i < |XTicks(maxdepth, div, quot, rem)|
    ensures XTicks(maxdepth, div, quot, rem)[i] ==
      if i <= quot then Tick(i as real * TikInc(maxdepth, quot, rem), i * div) else Tick(1.0, maxdepth)
  {
    var regular := RegularTicks(quot + 1, TikInc(maxdepth, quot, rem), div);
    if i <= quot {
      assert XTicks(maxdepth, div, quot, rem)[i] == regular[i];
    } else {
      assert XTicks(maxdepth, div, quot, rem)[i] == EndTick(maxdepth, rem)[i - |regular|];
    }
  }

  /** Each tick sits at its depth as a fraction of the full depth, and
      that depth is within the axis. */
  lemma XTickFraction(maxdepth: int, div: int, quot: int, rem: int, i: int)
    requires Chosen(maxdepth, div, quot, rem) && 0 <= i < |XTicks(maxdepth, div, quot, rem)|
    ensures var t := XTicks(maxdepth, div, quot, rem)[i];
      t.pos == t.depth as real / maxdepth as real && 0 <= t.depth <= maxdepth
  {
    XTickAt(maxdepth, div, quot, rem, i);
    if i <= quot {
      TikIncIsFraction(maxdepth, div, quot, rem);
      ScaledFraction(i, div, maxdepth);
      MulMono(i, quot, div);
      MulMono(0, i, div);
    }
  }

  /** The depths of the ticks grow strictly. */
  lemma XTickDepthsIncrease(maxdepth: int, div: int, quot: int, rem: int, i: int, j: int)
    requires Chosen(maxdepth, div, quot, rem) && 0 <= i < j < |XTicks(maxdepth, div, quot, rem)|
    ensures XTicks(maxdepth, div, quot, rem)[i].depth < XTicks(maxdepth, div, quot, rem)[j].depth
  {
    XTickAt(maxdepth, div, quot, rem, i);
    XTickAt(maxdepth, div, quot, rem, j);
    if j <= quot {
      MulStrict(i, j, div);
    } else {
      MulMono(i, quot, div);
    }
  }

  /** The positions start at 0, grow strictly and stay within the axis, and
      the last tick is the end of the axis whether or not the end tick was
      added (line-dose.cpp:346-362). */
  lemma XTicksPositions(maxdepth: int, div: int, quot: int, rem: int)
    requires Chosen(maxdepth, div, quot, rem)
    ensures var xs := XTicks(maxdepth, div, quot, rem);
      && (forall i :: 0 <= i < |xs| ==> xs[i].pos == xs[i].depth as real / maxdepth as real)
      && xs[0] == Tick(0.0, 0)
      && xs[|xs| - 1] == Tick(1.0, maxdepth)
      && (forall i, j :: 0 <= i < j < |xs| ==> xs[i].pos < xs[j].pos && xs[i].depth < xs[j].depth)
      && (forall i :: 0 <= i < |xs| ==> 0.0 <= xs[i].pos <= 1.0 && 0 <= xs[i].depth <= maxdepth)
  {
    var xs := XTicks(maxdepth, div, quot, rem);
    forall i | 0 <= i < |xs|
      ensures xs[i].pos == xs[i].depth as real / maxdepth as real && 0 <= xs[i].depth <= maxdepth
      ensures 0.0 <= xs[i].pos <= 1.0
    {
      XTickFraction(maxdepth, div, quot, rem, i);
      FractionBounds(xs[i].depth, maxdepth);
    }
    XTickAt(maxdepth, div, quot, rem, 0);
    var last := |xs| - 1;
    XTickAt(maxdepth, div, quot, rem, last);
    if rem == 0 {
      assert xs[last].depth == maxdepth;
    }
    forall i, j | 0 <= i < j < |xs|
      ensures xs[i].pos < xs[j].pos && xs[i].depth < xs[j].depth
    {
      XTickDepthsIncrease(maxdepth, div, quot, rem, i, j);
      FractionMonotone(xs[i].depth, xs[j].depth, maxdepth);
    }
  }

  lemma ScaledFraction(i: int, div: int, m: int)
    requires m > 0
    ensures i as real * (div as real / m as real) == (i * div) as real / m as real
  {
    calc {
      i as real * (div as real / m as real);
      (i as real * div as real) / m as real;
      (i * div) as real / m as real;
    }
  }

  lemma MulMono(a: int, b: int, c: int)
    requires a <= b && c >= 0
    ensures a * c <= b * c
  {
  }

  lemma MulStrict(a: int, b: int, c: int)
    requires a < b && c > 0
    ensures a * c < b * c
  {
  }

  lemma FractionBounds(a: int, m: int)
    requires 0 <= a <= m && m > 0
    ensures 0.0 <= a as real / m as real <= 1.0
  {
  }

  lemma FractionMonotone(a: int, b: int, m: int)
    requires a < b && m > 0
    ensures a as real / m as real < b as real / m as real
  {
  }

  /** How many ticks and labels there are: the end tick is added exactly
      when the depth is not a multiple of the divisor, and then there is
      one label fewer than ticks; label `i` prints the depth of tick `i`
      (line-dose.cpp:353-362). */
  lemma XTicksShape(maxdepth: int, div: int, quot: int, rem: int)
    requires Chosen(maxdepth, div, quot, rem)
    ensures |XTickLabels(div, quot)| == quot + 1 > MinXTicks + 1
    ensures |XTicks(maxdepth, div, quot, rem)| == if rem != 0 then quot + 2 else quot + 1
    ensures forall i :: 0 <= i < |XTickLabels(div, quot)| ==> XTickLabels(div, quot)[i] == XTicks(maxdepth, div, quot, rem)[i].depth
  {
    forall i | 0 <= i < |XTickLabels(div, quot)|
      ensures XTickLabels(div, quot)[i] == XTicks(maxdepth, div, quot, rem)[i].depth
    {
      XTickAt(maxdepth, div, quot, rem, i);
    }
  }

  /** The step between dose ticks: an eighth of the maximum dose
      (line-dose.cpp:368-369). */
  function DoseInc(maxdose: real): (inc: real)
    ensures inc == maxdose / 8.0
  {
    DoseMaxMult * maxdose / (MinYTicks - 1) as real
  }

  /** The dose-axis ticks for a maximum dose: `MinYTicks` evenly spaced
      values from 0 (line-dose.cpp:367-376). */
  function YTicks(maxdose: real): seq<real>
  {
    seq(MinYTicks, i => i as real * DoseInc(maxdose))
  }

  /** Dose tick `k`. */
  lemma YTickAt(maxdose: real, k: int)
    requires 0 <= k < MinYTicks
    ensures |YTicks(maxdose)| == MinYTicks && YTicks(maxdose)[k] == k as real * DoseInc(maxdose)
  {
  }

  /** The dose axis runs from 0 to the maximum dose in eight equal steps. */
  lemma YTicksSpan(maxdose: real)
    ensures |YTicks(maxdose)| == 9
    ensures YTicks(maxdose)[0] == 0.0 && YTicks(maxdose)[8] == maxdose
    ensures forall i :: 0 <= i < 8 ==> YTicks(maxdose)[i + 1] - YTicks(maxdose)[i] == maxdose / 8.0
    ensures maxdose > 0.0 ==> forall i, j :: 0 <= i < j < 9 ==> YTicks(maxdose)[i] < YTicks(maxdose)[j]
  {
    var ys := YTicks(maxdose);
    var inc := DoseInc(maxdose);
    YTickAt(maxdose, 0);
    YTickAt(maxdose, 8);
    forall i | 0 <= i < 8
      ensures ys[i + 1] - ys[i] == inc
    {
      YTickAt(maxdose, i);
      YTickAt(maxdose, i + 1);
      StepDifference(i, inc);
    }
    if maxdose > 0.0 {
      forall i, j | 0 <= i < j < 9
        ensures ys[i] < ys[j]
      {
        YTicksIncrease(maxdose, i, j);
      }
    }
  }

  lemma YTicksIncrease(maxdose: real, i: int, j: int)
    requires maxdose > 0.0 && 0 <= i < j < MinYTicks
    ensures YTicks(maxdose)[i] < YTicks(maxdose)[j]
  {
    var inc := DoseInc(maxdose);
    assert inc > 0.0 by {
      assert inc == maxdose / 8.0;
    }
    YTickAt(maxdose, i);
    YTickAt(maxdose, j);
    StepMonotone(i, j, inc);
  }

  lemma StepDifference(i: int, inc: real)
    ensures (i + 1) as real * inc - i as real * inc == inc
  {
    calc {
      (i + 1) as real * inc;
      (i as real + 1.0) * inc;
      i as real * inc + inc;
    }
  }

  lemma StepMonotone(i: int, j: int, inc: real)
    requires i < j && inc > 0.0
    ensures i as real * inc < j as real * inc
  {
    calc {
      j as real * inc - i as real * inc;
      (j - i) as real * inc;
    >
      { assert (j - i) as real >= 1.0; }
      0.0;
    }
  }

  /** The tick state of `LineDosePlot` (line-dose.h): depth ticks, depth
      labels, dose values and dose labels. */
  class LineDosePlot {
    var xticks: seq<Tick>
    var xticklabels: seq<int>
    var yticks: seq<real>
    var yticklabels: seq<real>

    constructor ()
      ensures xticks == [] && xticklabels == [] && yticks == [] && yticklabels == []
    {
      xticks, xticklabels, yticks, yticklabels := [], [], [], [];
    }

    /** `LineDosePlot::write_xaxis` (line-dose.cpp:331-363) for the slider
        depth `maxdepth`. Without a divisor only the ticks are cleared. */
    method WriteXaxis(maxdepth: int)
      modifies this
      ensures Divisor(maxdepth) == 0 ==> xticks == [] && xticklabels == old(xticklabels)
      ensures Divisor(maxdepth) != 0 ==>
        var (quot, rem) := LDiv(maxdepth, Divisor(maxdepth));
        xticks == XTicks(maxdepth, Divisor(maxdepth), quot, rem) && xticklabels == XTickLabels(Divisor(maxdepth), quot)
      ensures yticks == old(yticks) && yticklabels == old(yticklabels)
    {
      var div, quot, rem := ChooseDivisor(maxdepth);
      if div == 0 {
        xticks := [];
        return;
      }
      DivisorChosen(maxdepth);
      FillXTicks(maxdepth, div, quot, rem);
    }

    /** The filling part of `write_xaxis` (line-dose.cpp:346-362) once a
        divisor has been chosen. */
    method FillXTicks(maxdepth: int, div: int, quot: int, rem: int)
      requires Chosen(maxdepth, div, quot, rem)
      modifies this
      ensures xticks == XTicks(maxdepth, div, quot, rem) && xticklabels == XTickLabels(div, quot)
      ensures yticks == old(yticks) && yticklabels == old(yticklabels)
    {
      var tikinc := TikInc(maxdepth, quot, rem);
      xticks := seq(quot + 1, _ => Tick(0.0, 0));
      xticklabels := seq(quot + 1, _ => 0);
      var i := 0;
      while i <= quot
        invariant 0 <= i <= quot + 1
        invariant |xticks| == quot + 1 && |xticklabels| == quot + 1
        invariant forall k :: 0 <= k < i ==> xticks[k] == Tick(k as real * tikinc, k * div) && xticklabels[k] == k * div
        invariant yticks == old(yticks) && yticklabels == old(yticklabels)
      {
        xticks := xticks[i := Tick(i as real * tikinc, i * div)];
        xticklabels := xticklabels[i := xticks[i].depth];
        i := i + 1;
      }
      forall k | 0 <= k <= quot
        ensures xticks[k] == RegularTicks(quot + 1, tikinc, div)[k]
      {
      }
      assert xticks == RegularTicks(quot + 1, tikinc, div);
      assert xticklabels == XTickLabels(div, quot);
      xticks := xticks + EndTick(maxdepth, rem);
    }

    /** `LineDosePlot::write_yaxis` (line-dose.cpp:365-377) for the largest
        dose `maxdose`. */
    method WriteYaxis(maxdose: real)
      modifies this
      ensures yticks == YTicks(maxdose) && yticklabels == yticks
      ensures xticks == old(xticks) && xticklabels == old(xticklabels)
    {
      var nticks := MinYTicks;
      var doseinc := DoseMaxMult * maxdose / (nticks - 1) as real;
      assert doseinc == DoseInc(maxdose);
      yticks := seq(nticks, _ => 0.0);
      yticklabels := seq(nticks, _ => 0.0);
      var i := 0;
      while i < nticks
        invariant 0 <= i <= nticks
        invariant |yticks| == nticks && |yticklabels| == nticks
        invariant forall k :: 0 <= k < i ==> yticks[k] == k as real * doseinc && yticklabels[k] == yticks[k]
        invariant xticks == old(xticks) && xticklabels == old(xticklabels)
      {
        yticks := yticks[i := i as real * doseinc];
        yticklabels := yticklabels[i := yticks[i]];
        i := i + 1;
      }
      forall k | 0 <= k < nticks
        ensures yticks[k] == YTicks(maxdose)[k]
      {
        YTickAt(maxdose, k);
      }
      YTickAt(maxdose, 0);
      assert yticks == YTicks(maxdose);
    }
  }
}
