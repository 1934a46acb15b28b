/** The software testbench: compareAndReport and the exhaustive sweep of
    `main` over R, G, B in [0, 63]. The two conversions it compares are
    parameters, so the sweep is verified whatever they compute. */
module Testbench {
  import opened Pixel

  /** THRESHOLD: the largest per-channel difference still accepted. */
  const Threshold: int := 5

  /** Values per input channel in the sweep, and the number of triples. */
  const Side: int := 64
  const Triples: int := 262144

  /** compareAndReport: 1 when the two bytes differ by more than the
      threshold, 0 otherwise. The diagnostic line it prints is not modelled. */
  function CompareAndReport(actual: Byte, expected: Byte, threshold: int): (flag: int)
    ensures flag == 0 || flag == 1
    ensures flag == 1 <==> actual > expected + threshold || expected > actual + threshold
  {
    var diff := if actual >= expected then actual - expected else expected - actual;
    if diff > threshold then 1 else 0
  }

  /** Swapping actual and expected does not change the verdict. */
  lemma CompareSymmetric(a: Byte, e: Byte, threshold: int)
    ensures CompareAndReport(a, e, threshold) == CompareAndReport(e, a, threshold)
  {
  }

  /** Equal bytes never mismatch under a non-negative threshold. */
  lemma CompareEqual(a: Byte, threshold: int)
    requires threshold >= 0
    ensures CompareAndReport(a, a, threshold) == 0
  {
  }

  /** The verdict of compareAndReport on channel c of an output and its
      expected value. */
  predicate Exceeds(out: YCbCr, expected: YCbCr, c: Channel)
  {
    CompareAndReport(Component(out, c), Component(expected, c), Threshold) == 1
  }

  /** What one iteration of the sweep adds to `err`: the three calls of
      compareAndReport, on Y, Cb and Cr. */
  function Flags(out: YCbCr, expected: YCbCr): (f: int)
    ensures 0 <= f <= 3
    ensures f == 0 <==> forall c | c in Channels :: !Exceeds(out, expected, c)
  {
    CompareAndReport(out.Y, expected.Y, Threshold)
    + CompareAndReport(out.Cb, expected.Cb, Threshold)
    + CompareAndReport(out.Cr, expected.Cr, Threshold)
  }

  /** The input of the sweep's t-th iteration: t = 4096 i + 64 j + k with
      i, j, k the loop counters of R, G and B. */
  function TripleAt(t: int): (p: RGB)
    requires 0 <= t < Triples
    ensures p.R < Side && p.G < Side && p.B < Side
    ensures t == 4096 * p.R + 64 * p.G + p.B
  {
    RGB(t / 4096, (t / 64) % 64, t % 64)
  }

  /** Each triple of the cube is visited, at index 4096 R + 64 G + B. */
  lemma TripleAtIndex(p: RGB)
    requires p.R < Side && p.G < Side && p.B < Side
    ensures 0 <= 4096 * p.R + 64 * p.G + p.B < Triples
    ensures TripleAt(4096 * p.R + 64 * p.G + p.B) == p
  {
    var t := 4096 * p.R + 64 * p.G + p.B;
    var q := TripleAt(t);
    assert 4096 * q.R + 64 * q.G + q.B == 4096 * p.R + 64 * p.G + p.B;
    assert q.R == p.R;
    assert q.G == p.G;
  }

  /** `err` after the first n iterations, in the order of the three loops. */
  function Count(hls: RGB -> YCbCr, sw: RGB -> YCbCr, n: int): int
    requires 0 <= n <= Triples
  {
    if n == 0 then 0
    else Count(hls, sw, n - 1) + Flags(hls(TripleAt(n - 1)), sw(TripleAt(n - 1)))
  }

  /** The (iteration, channel) pairs of the first n iterations whose values
      differ by more than the threshold. */
  ghost function Mismatches(hls: RGB -> YCbCr, sw: RGB -> YCbCr, n: int): set<(int, Channel)>
    requires 0 <= n <= Triples
  {
    set t, c | 0 <= t < n && c in Channels && Exceeds(hls(TripleAt(t)), sw(TripleAt(t)), c) :: (t, c)
  }

  /** Both conversions agree within the threshold on every channel of every
      triple of the sweep. */
  ghost predicate AllAgree(hls: RGB -> YCbCr, sw: RGB -> YCbCr)
  {
    forall p: RGB | p.R < Side && p.G < Side && p.B < Side ::
      forall c | c in Channels ::
        -Threshold <= Component(hls(p), c) - Component(sw(p), c) <= Threshold
  }

  /** Every iteration adds 0, 1, 2 or 3 to `err`. */
  lemma {:induction false} CountBounds(hls: RGB -> YCbCr, sw: RGB -> YCbCr, n: int)
    requires 0 <= n <= Triples
    ensures 0 <= Count(hls, sw, n) <= 3 * n
  {
    if n > 0 {
      CountBounds(hls, sw, n - 1);
    }
  }

  /** The pairs of iteration t that mismatch, given its two results. */
  ghost function MismatchesAt(out: YCbCr, expected: YCbCr, t: int): set<(int, Channel)>
  {
    (if Exceeds(out, expected, LumaY) then {(t, LumaY)} else {}) +
    (if Exceeds(out, expected, ChromaB) then {(t, ChromaB)} else {}) +
    (if Exceeds(out, expected, ChromaR) then {(t, ChromaR)} else {})
  }

  lemma MismatchesAtSize(out: YCbCr, expected: YCbCr, t: int)
    ensures |MismatchesAt(out, expected, t)| == Flags(out, expected)
  {
    var y := if Exceeds(out, expected, LumaY) then {(t, LumaY)} else {};
    var cb := if Exceeds(out, expected, ChromaB) then {(t, ChromaB)} else {};
    var cr := if Exceeds(out, expected, ChromaR) then {(t, ChromaR)} else {};
    assert y !! cb && (y + cb) !! cr;
    assert |y + cb| == |y| + |cb|;
  }

  /** Iteration n - 1 adds its own mismatching pairs, and only those, to
      the pairs of the iterations before it. */
  lemma MismatchesStep(hls: RGB -> YCbCr, sw: RGB -> YCbCr, n: int)
    requires 0 < n <= Triples
    ensures |Mismatches(hls, sw, n)|
      == |Mismatches(hls, sw, n - 1)| + |MismatchesAt(hls(TripleAt(n - 1)), sw(TripleAt(n - 1)), n - 1)|
  {
    var t := n - 1;
    var before := Mismatches(hls, sw, t);
    var at := MismatchesAt(hls(TripleAt(t)), sw(TripleAt(t)), t);
    forall x | x in Mismatches(hls, sw, n)
      ensures x in before + at
    {
      if x.0 == t {
        assert x.1 == LumaY || x.1 == ChromaB || x.1 == ChromaR;
      }
    }
    assert Mismatches(hls, sw, n) == before + at;
    assert before !! at;
  }

  /** `err` is the number of (iteration, channel) pairs that mismatch. */
  lemma {:induction false} CountIsMismatches(hls: RGB -> YCbCr, sw: RGB -> YCbCr, n: int)
    requires 0 <= n <= Triples
    ensures Count(hls, sw, n) == |Mismatches(hls, sw, n)|
  {
    if n == 0 {
      assert Mismatches(hls, sw, 0) == {};
    } else {
      CountIsMismatches(hls, sw, n - 1);
      MismatchesStep(hls, sw, n);
      MismatchesAtSize(hls(TripleAt(n - 1)), sw(TripleAt(n - 1)), n - 1);
    }
  }

  /** `err` stays 0 exactly as long as every visited triple agrees. */
  lemma {:induction false} CountZero(hls: RGB -> YCbCr, sw: RGB -> YCbCr, n: int)
    requires 0 <= n <= Triples
    ensures Count(hls, sw, n) == 0 <==> forall t | 0 <= t < n :: Flags(hls(TripleAt(t)), sw(TripleAt(t))) == 0
  {
    if n > 0 {
      CountZero(hls, sw, n - 1);
      CountBounds(hls, sw, n - 1);
    }
  }

  /** The sweep reports no mismatch exactly when the two conversions agree
      within the threshold on the whole cube [0, 63]^3. */
  lemma SweepPassesIff(hls: RGB -> YCbCr, sw: RGB -> YCbCr)
    ensures Count(hls, sw, Triples) == 0 <==> AllAgree(hls, sw)
  {
    CountZero(hls, sw, Triples);
    if Count(hls, sw, Triples) == 0 {
      forall p: RGB | p.R < Side && p.G < Side && p.B < Side
        ensures forall c | c in Channels ::
          -Threshold <= Component(hls(p), c) - Component(sw(p), c) <= Threshold
      {
        TripleAtIndex(p);
        assert Flags(hls(p), sw(p)) == 0;
      }
    }
    if AllAgree(hls, sw) {
      forall t | 0 <= t < Triples
        ensures Flags(hls(TripleAt(t)), sw(TripleAt(t))) == 0
      {
        var p := TripleAt(t);
        assert forall c | c in Channels ::
          -Threshold <= Component(hls(p), c) - Component(sw(p), c) <= Threshold;
      }
    }
  }

  /** What the iteration for triple p, the t-th, adds to `err`. */
  lemma CountStep(hls: RGB -> YCbCr, sw: RGB -> YCbCr, t: int, p: RGB)
    requires p.R < Side && p.G < Side && p.B < Side
    requires t == 4096 * p.R + 64 * p.G + p.B
    ensures 0 <= t < Triples
    ensures Count(hls, sw, t + 1) == Count(hls, sw, t) + Flags(hls(p), sw(p))
  {
    TripleAtIndex(p);
  }

  /** `main`: sweep R, G, B over [0, 63], add up the mismatch flags of the
      three channels in `err` and return it from `main`. The host's truncation
      of an exit status to 8 bits is not modelled. */
  method RunTestbench(hls: RGB -> YCbCr, sw: RGB -> YCbCr) returns (err: int)
    ensures err == Count(hls, sw, Triples)
    ensures 0 <= err <= 3 * Triples
    ensures err == 0 <==> AllAgree(hls, sw)
  {
    var input := RGB(0, 0, 0);
    err := 0;
    ghost var t := 0;
    var i := 0;
    while i < Side
      invariant 0 <= i <= Side
      invariant t == 4096 * i && err == Count(hls, sw, t)
    {
      var j := 0;
      while j < Side
        invariant 0 <= j <= Side
        invariant t == 4096 * i + 64 * j && err == Count(hls, sw, t)
      {
        var k := 0;
        while k < Side
          invariant 0 <= k <= Side
          invariant t == 4096 * i + 64 * j + k && err == Count(hls, sw, t)
        {
          input := input.(R := i);
          input := input.(G := j);
          input := input.(B := k);
          var out := hls(input);
          var expected := sw(input);
          CountStep(hls, sw, t, input);
          err := err + CompareAndReport(out.Y, expected.Y, Threshold);
          err := err + CompareAndReport(out.Cb, expected.Cb, Threshold);
          err := err + CompareAndReport(out.Cr, expected.Cr, Threshold);
          k := k + 1;
          t := t + 1;
        }
        j := j + 1;
      }
      i := i + 1;
    }
    CountBounds(hls, sw, Triples);
    SweepPassesIff(hls, sw);
  }
}
