/** The exponentially weighted moving average that smooths each sampled signal. */
module Smoothing {
  import opened Limits

  function Mix(alpha: real, sample: real, value: real): real {
    alpha * sample + (1.0 - alpha) * value
  }

  /** The smoothed value of a history: the first sample as it is, each later one mixed in. */
  function Smoothed(history: seq<real>, alpha: real): real {
    if history == [] then 0.0
    else if |history| == 1 then history[0]
    else Mix(alpha, history[|history| - 1], Smoothed(history[..|history| - 1], alpha))
  }

  class Ewma {
    const alpha: real
    var value: real
    var isSet: bool
    ghost var history: seq<real>                // the samples since the last reset

    ghost predicate Valid()
      reads this
    {
      value == Smoothed(history, alpha) && (isSet <==> history != [])
    }

    constructor (alpha: real)
      ensures Valid() && this.alpha == alpha && history == [] && value == 0.0
    {
      this.alpha := alpha;
      value, isSet, history := 0.0, false, [];
    }

    method Add(sample: real)
      requires Valid()
      modifies this
      ensures Valid() && history == old(history) + [sample]
    {
      history := history + [sample];
      assert history[..|history| - 1] == old(history);
      if !isSet {
        value := sample;
        isSet := true;
        return;
      }
      value := Mix(alpha, sample, value);
    }

    method Reset()
      modifies this
      ensures Valid() && history == [] && value == 0.0
    {
      value, isSet, history := 0.0, false, [];
    }
  }

  // ---------------------------------------------------------------------------
  // What smoothing keeps
  // ---------------------------------------------------------------------------

  lemma Part(a: real, d: real)
    requires 0.0 <= a <= 1.0
    ensures if d >= 0.0 then 0.0 <= a * d <= d else d <= a * d <= 0.0
  {
    assert (1.0 - a) * d == d - a * d;
  }

  lemma MixBetween(alpha: real, x: real, y: real, lo: real, hi: real)
    requires 0.0 <= alpha <= 1.0 && lo <= x <= hi && lo <= y <= hi
    ensures lo <= Mix(alpha, x, y) <= hi
  {
    var d := x - y;
    Part(alpha, d);
    assert Mix(alpha, x, y) == y + alpha * d;
  }

  /** The smoothed value never leaves the range of the samples. */
  lemma {:induction false} SmoothedBetween(history: seq<real>, alpha: real, lo: real, hi: real)
    requires 0.0 <= alpha <= 1.0 && history != []
    requires forall x <- history :: lo <= x <= hi
    ensures lo <= Smoothed(history, alpha) <= hi
  {
    hide Mix;
    assert history[|history| - 1] in history;
    if |history| == 1 {
    } else {
      var rest := history[..|history| - 1];
      assert forall x <- rest :: x in history;
      SmoothedBetween(rest, alpha, lo, hi);
      MixBetween(alpha, history[|history| - 1], Smoothed(rest, alpha), lo, hi);
    }
  }

  function Power(x: real, k: nat): real {
    if k == 0 then 1.0 else Times(x, Power(x, k - 1))
  }

  lemma TimesAssociates(x: real, y: real, z: real)
    ensures Times(x, Times(y, z)) == Times(Times(x, y), z)
  {
  }

  lemma MixDifference(alpha: real, sample: real, x: real, y: real)
    ensures Mix(alpha, sample, x) - Mix(alpha, sample, y) == Times(1.0 - alpha, x - y)
  {
  }

  lemma SmoothedSnoc(history: seq<real>, sample: real, alpha: real)
    requires history != []
    ensures Smoothed(history + [sample], alpha) == Mix(alpha, sample, Smoothed(history, alpha))
  {
    hide Mix;
    assert (history + [sample])[..|history|] == history;
  }

  lemma {:induction false} Shrinks(h: seq<real>, g: seq<real>, tail: seq<real>, alpha: real)
    requires h != [] && g != []
    ensures Smoothed(h + tail, alpha) - Smoothed(g + tail, alpha)
         == Times(Power(1.0 - alpha, |tail|), Smoothed(h, alpha) - Smoothed(g, alpha))
  {
    hide Mix, Smoothed;
    if tail == [] {
      assert h + tail == h && g + tail == g;
    } else {
      hide Times;
      var before, last := tail[..|tail| - 1], tail[|tail| - 1];
      Shrinks(h, g, before, alpha);
      assert h + tail == h + before + [last] && g + tail == g + before + [last];
      SmoothedSnoc(h + before, last, alpha);
      SmoothedSnoc(g + before, last, alpha);
      MixDifference(alpha, last, Smoothed(h + before, alpha), Smoothed(g + before, alpha));
      TimesAssociates(1.0 - alpha, Power(1.0 - alpha, |before|), Smoothed(h, alpha) - Smoothed(g, alpha));
    }
  }

  /** Two histories that agree on their last `|tail|` samples: their difference has shrunk geometrically. */
  lemma Forgets(h: seq<real>, g: seq<real>, tail: seq<real>, alpha: real)
    requires h != [] && g != []
    ensures Smoothed(h + tail, alpha) - Smoothed(g + tail, alpha)
         == Power(1.0 - alpha, |tail|) * (Smoothed(h, alpha) - Smoothed(g, alpha))
  {
    hide Smoothed, Power;
    Shrinks(h, g, tail, alpha);
  }
}
