/** The camera colour tracker's integer colour arithmetic: RGB to
    hue/chroma/value and back, hue buckets, the per-frame bucket spectrum
    (as pixel counts) and the hysteresis that decides which hue buckets are
    active. */
module Color {
  import opened Common

  /** A C++ `uint8_t`. */
  type U8 = x: int | 0 <= x < 256

  /** C++ `/` on `int` for a positive divisor: the quotient truncated
      toward zero (Dafny's `/` rounds toward minus infinity). */
  function CDiv(a: int, d: int): (q: int)
    requires d > 0
    ensures a >= 0 ==> q == a / d
    ensures a < 0 ==> q == -((-a) / d)
  {
    if a >= 0 then a / d else -((-a) / d)
  }

  /** A truncated quotient of at most 60 times the divisor is at most 60
      in size. */
  lemma CDivBound(x: int, d: int)
    requires d > 0 && -d <= x <= d
    ensures -60 <= CDiv(60 * x, d) <= 60
  {
    if x >= 0 {
      DivAtMost(60 * x, d, 60);
    } else {
      DivAtMost(60 * (-x), d, 60);
    }
  }

  /** `a <= k * d` gives `a / d <= k`. */
  lemma DivAtMost(a: nat, d: int, k: nat)
    requires d > 0 && a <= k * d
    ensures a / d <= k
  {
  }

  /** `HCV`: hue in degrees (an `int16_t`), chroma and value. */
  datatype HCV = HCV(h: int, c: U8, v: U8)

  /** `RGB`: three 8-bit channels. */
  datatype RGB = RGB(r: U8, g: U8, b: U8)

  function Min3(x: int, y: int, z: int): (m: int)
    ensures m <= x && m <= y && m <= z && (m == x || m == y || m == z)
  {
    if x <= y && x <= z then x else if y <= z then y else z
  }

  function Max3(x: int, y: int, z: int): (m: int)
    ensures m >= x && m >= y && m >= z && (m == x || m == y || m == z)
  {
    if x >= y && x >= z then x else if y >= z then y else z
  }

  function Max(x: int, y: int): (m: int)
    ensures m >= x && m >= y && (m == x || m == y)
  {
    if x >= y then x else y
  }

  /** The hue formula of `to_hcv` for a coloured pixel, blue tested before
      green. */
  function Hue(r: U8, g: U8, b: U8): (h: int)
    requires Min3(r, g, b) < Max3(r, g, b)
    ensures 0 <= h < 360
    ensures b == Max3(r, g, b) ==> 180 <= h <= 300
    ensures b < Max3(r, g, b) && g == Max3(r, g, b) ==> 60 <= h <= 180
    ensures b < Max3(r, g, b) && g < Max3(r, g, b) ==> 300 <= h || h <= 60
  {
    var m := Min3(r, g, b);
    var mx := Max3(r, g, b);
    var d := mx - m;
    if b == mx then
      CDivBound(r - g, d);
      240 + CDiv(60 * (r - g), d)
    else if g == mx then
      CDivBound(b - r, d);
      120 + CDiv(60 * (b - r), d)
    else
      CDivBound(g - b, d);
      (360 + CDiv(60 * (g - b), d)) % 360
  }

  /** `to_hcv`: a gray pixel is (0, 0, its level); otherwise the hue is in
      [0, 360), the chroma is the channel spread and the value the largest
      channel. The checks `to_hcv` makes on its result always pass. */
  function ToHCV(rgb: RGB): (hcv: HCV)
    ensures Min3(rgb.r, rgb.g, rgb.b) == Max3(rgb.r, rgb.g, rgb.b) ==> hcv == HCV(0, 0, Min3(rgb.r, rgb.g, rgb.b))
    ensures Min3(rgb.r, rgb.g, rgb.b) < Max3(rgb.r, rgb.g, rgb.b) ==>
              && 0 <= hcv.h < 360
              && hcv.c == Max3(rgb.r, rgb.g, rgb.b) - Min3(rgb.r, rgb.g, rgb.b)
              && hcv.v == Max3(rgb.r, rgb.g, rgb.b)
  {
    var m := Min3(rgb.r, rgb.g, rgb.b);
    var mx := Max3(rgb.r, rgb.g, rgb.b);
    if m == mx then HCV(0, 0, m)
    else HCV(Hue(rgb.r, rgb.g, rgb.b), mx - m, mx)
  }

  /** Blue wins over green: a cyan pixel (green and blue equal and
      largest) takes the blue branch and gets hue 180. */
  lemma CyanHue(low: U8, high: U8)
    requires low < high
    ensures ToHCV(RGB(low, high, high)).h == 180
  {
    var d := high - low;
    assert Min3(low, high, high) == low && Max3(low, high, high) == high;
    assert 60 * (low - high) == -(60 * d);
    SixtyOver(d);
  }

  /** Sixty divisors over one divisor is sixty, truncating or not. */
  lemma SixtyOver(d: int)
    requires d > 0
    ensures CDiv(-(60 * d), d) == -60
  {
    var q, r := (60 * d) / d, (60 * d) % d;
    assert d * q + r == 60 * d && 0 <= r < d;
    if q > 60 {
      MulMonotone(d, 61, q);
      assert false;
    } else if q < 60 {
      MulMonotone(d, q, 59);
      assert false;
    }
  }

  /** The zig-zag `Z` of `to_rgb`: 0 at multiples of 120 degrees, 60 at odd
      multiples of 60. */
  function Zig(h: int): (z: int)
    requires h >= 0
    ensures 0 <= z <= 60
  {
    var t := h % 120 - 60;
    60 - (if t < 0 then -t else t)
  }

  /** The second-largest channel before the value offset: `c * Z / 60`. */
  function Second(c: U8, z: int): (x: U8)
    requires 0 <= z <= 60
    ensures x <= c
  {
    assert c * z <= c * 60;
    DivAtMost(c * z, 60, c);
    c * z / 60
  }

  /** The channel order for hue sector `h / 60`. */
  function Sector(s: int, c: U8, x: U8): (rgb: RGB)
  {
    if s == 0 then RGB(c, x, 0)
    else if s == 1 then RGB(x, c, 0)
    else if s == 2 then RGB(0, c, x)
    else if s == 3 then RGB(0, x, c)
    else if s == 4 then RGB(x, 0, c)
    else RGB(c, 0, x)
  }

  /** `to_rgb`: a hue outside [0, 360) is rejected. Otherwise the largest
      channel is max(c, v), the smallest max(0, v - c), and the hue sector
      `h / 60` decides which channel is largest, middle and smallest. */
  function ToRGB(hcv: HCV): (rgb: Option<RGB>)
    ensures rgb.None? <==> !(0 <= hcv.h < 360)
    ensures rgb.Some? ==>
              && Max3(rgb.value.r, rgb.value.g, rgb.value.b) == Max(hcv.c, hcv.v)
              && Min3(rgb.value.r, rgb.value.g, rgb.value.b) == Max(0, hcv.v - hcv.c)
    ensures rgb.Some? ==> var (r, g, b) := (rgb.value.r, rgb.value.g, rgb.value.b);
              && (hcv.h / 60 == 0 ==> r >= g >= b)
              && (hcv.h / 60 == 1 ==> g >= r >= b)
              && (hcv.h / 60 == 2 ==> g >= b >= r)
              && (hcv.h / 60 == 3 ==> b >= g >= r)
              && (hcv.h / 60 == 4 ==> b >= r >= g)
              && (hcv.h / 60 == 5 ==> r >= b >= g)
  {
    if !(0 <= hcv.h < 360) then None
    else
      var x := Second(hcv.c, Zig(hcv.h));
      var base := Sector(hcv.h / 60, hcv.c, x);
      var m := Max(0, hcv.v - Max(hcv.c, x));
      Some(RGB(base.r + m, base.g + m, base.b + m))
  }

  /** Converting to HCV and back keeps a pixel's largest and smallest
      channel. */
  lemma RoundTripKeepsExtremes(rgb: RGB)
    ensures ToRGB(ToHCV(rgb)).Some?
    ensures var back := ToRGB(ToHCV(rgb)).value;
            && Max3(back.r, back.g, back.b) == Max3(rgb.r, rgb.g, rgb.b)
            && Min3(back.r, back.g, back.b) == Min3(rgb.r, rgb.g, rgb.b)
  {
  }

  /** A gray pixel comes back unchanged. */
  lemma GrayRoundTrip(level: U8)
    ensures ToRGB(ToHCV(RGB(level, level, level))) == Some(RGB(level, level, level))
  {
  }

  /** `ColorOptions`: the thresholds of the tracker. */
  datatype Options = Options(minC: int, hStep: int, hMerge: int, hKeepout: int, onF: real, offF: real)

  /** The defaults of `ColorOptions`. */
  const Defaults := Options(96, 5, 10, 20, 0.1, 0.05)

  /** The number of hue buckets, the size of the spectrum. */
  function Buckets(step: int): (n: int)
    requires step > 0
  {
    359 / step + 1
  }

  /** `to_bucket` as written: a negative hue is wrapped into (0, 360], the
      hue is rounded to the nearest multiple of the step, modulo 360, and
      the bucket number is truncated to the `uint8_t` return type. */
  function ToBucketAsWritten(hue: int, step: int): (b: int)
    requires step > 0
    ensures 0 <= b < 256
  {
    ToBucket(hue, step) % 256
  }

  /** With a step of 1 the spectrum has 360 buckets, but the `uint8_t`
      result cannot name those from 256 on: hue 300 lands in bucket 44. */
  lemma BucketTruncated()
    ensures Buckets(1) == 360 && ToHue(300, 1) == Some(300)
    ensures ToBucketAsWritten(300, 1) == 44
  {
  }

  /** `to_bucket` with the bucket number kept whole, which is what the
      spectrum size asks for: every hue names a spectrum entry. */
  function ToBucket(hue: int, step: int): (b: int)
    requires step > 0
    ensures 0 <= b < Buckets(step)
  {
    var h := if hue < 0 then 360 - (-hue % 360) else hue;
    var k := (h + step / 2) % 360;
    BucketBound(k, step);
    k / step
  }

  /** A rounded hue in `[0, 360)` names one of the spectrum's buckets. */
  lemma BucketBound(k: int, step: int)
    requires 0 <= k < 360 && step > 0
    ensures 0 <= k / step < Buckets(step)
  {
    DivMonotone(0, k, step);
    DivMonotone(k, 359, step);
  }

  /** For a step of at least 2 (the default is 5) the truncation never
      matters. */
  lemma BucketsAgree(hue: int, step: int)
    requires step >= 2
    ensures ToBucketAsWritten(hue, step) == ToBucket(hue, step)
  {
    var h := if hue < 0 then 360 - (-hue % 360) else hue;
    var k := (h + step / 2) % 360;
    HalfQuotient(k, step);
  }

  /** Dividing by at least 2 at least halves. */
  lemma HalfQuotient(k: nat, step: int)
    requires step >= 2
    ensures 2 * (k / step) <= k
  {
    var q := k / step;
    assert q * step <= k;
    MulMonotone(q, 2, step);
  }

  lemma {:induction false} MulMonotone(x: nat, a: int, b: int)
    requires a <= b
    ensures x * a <= x * b
  {
    if x > 0 {
      MulMonotone(x - 1, a, b);
      assert x * a == (x - 1) * a + a && x * b == (x - 1) * b + b;
    }
  }

  lemma DivMonotone(a: nat, b: nat, d: int)
    requires d > 0 && a <= b
    ensures a / d <= b / d
  {
    var q1, q2 := a / d, b / d;
    if q1 > q2 {
      MulMonotone(d, q2 + 1, q1);
      assert false;
    }
  }

  /** The bucket of a hue depends only on the hue modulo 360. */
  lemma BucketWraps(hue: int, step: int)
    requires step > 0
    ensures ToBucket(hue, step) == ToBucket(hue % 360, step)
  {
    var s := step / 2;
    var w := hue % 360;
    assert 0 <= w < 360;
    if hue >= 0 {
      assert hue == (hue / 360) * 360 + w;
      ModShift(w + s, hue / 360);
    } else {
      var n := -hue;
      assert n % 360 == 0 ==> w == 0;
      assert n % 360 != 0 ==> w == 360 - n % 360;
      if n % 360 == 0 {
        ModShift(s, 1);
      }
    }
  }

  /** Adding whole turns leaves the remainder modulo 360 unchanged. */
  lemma ModShift(a: nat, k: nat)
    ensures (a + k * 360) % 360 == a % 360
  {
    if k > 0 {
      ModShift(a, k - 1);
      assert a + k * 360 == (a + (k - 1) * 360) + 360;
    }
  }

  /** `to_hue`: the hue of a bucket, rejected unless `0 <= b` and
      `b * step < 360`. */
  function ToHue(b: int, step: int): (h: Option<int>)
    ensures h.Some? <==> 0 <= b && b * step < 360
    ensures h.Some? ==> h.value == b * step
  {
    if 0 <= b && b * step < 360 then Some(b * step) else None
  }

  /** Every spectrum entry has a hue: `to_hue` accepts every bucket
      number below the spectrum size. */
  lemma BucketHasHue(b: nat, step: int)
    requires step > 0 && b < Buckets(step)
    ensures ToHue(b, step).Some?
  {
    MulMonotone(step, b, 359 / step);
  }

  /** A bucket's hue falls back into that bucket, as long as the rounding
      half-step does not reach 360. */
  lemma BucketOfHue(b: nat, step: int)
    requires step > 0 && b * step + step / 2 < 360
    ensures ToHue(b, step).Some?
    ensures ToBucket(ToHue(b, step).value, step) == b
  {
    var t := b * step + step / 2;
    assert t % 360 == t;
    assert t / step == b by {
      assert b * step <= t < (b + 1) * step;
      DivBetween(t, step, b);
    }
  }

  lemma DivBetween(t: nat, d: int, q: nat)
    requires d > 0 && q * d <= t < (q + 1) * d
    ensures t / d == q
  {
    var r := t / d;
    if r < q {
      MulMonotone(d, r + 1, q);
      assert false;
    } else if r > q {
      MulMonotone(d, q + 1, r);
      assert false;
    }
  }

  /** Bucket `k` lies on the cyclic range of buckets that starts at
      `start` and stops before `end`. */
  predicate Covers(start: int, end: int, k: int)
  {
    if start <= end then start <= k < end else start <= k || k < end
  }

  /** `end` is reached by stepping cyclically from `start` past `b`. */
  predicate OnPath(start: int, end: int, b: int)
  {
    if start <= end then start <= b <= end else start <= b || b <= end
  }

  /** The bucket after `b` around a circle of `n` buckets. */
  function Next(b: int, n: int): (c: int)
    requires 0 <= b < n
    ensures c == if b + 1 < n then b + 1 else 0
  {
    (b + 1) % n
  }

  /** One step along the cyclic range: the covered part grows by the bucket
      stepped over, and fewer steps are left. */
  lemma CoversStep(start: int, end: int, b: int, n: int)
    requires 0 <= start < n && 0 <= end < n && 0 <= b < n
    requires OnPath(start, end, b) && b != end
    ensures OnPath(start, end, Next(b, n))
    ensures 0 <= StepsLeft(end, n, Next(b, n)) < StepsLeft(end, n, b)
    ensures forall k :: 0 <= k < n ==> (Covers(start, Next(b, n), k) <==> Covers(start, b, k) || k == b)
  {
  }

  /** The steps left from `b` to `end` around a circle of `n` buckets. */
  function StepsLeft(end: int, n: int, b: int): (d: int)
  {
    if b <= end then end - b else end + n - b
  }

  /** A pixel strong enough in chroma to be counted (`make_spectrum`'s
      `continue` skips the rest). */
  predicate Counted(p: HCV, opts: Options)
  {
    p.c >= opts.minC
  }

  /** The first and the stop bucket a counted pixel adds to. */
  function SpreadStart(p: HCV, opts: Options): (b: int)
    requires opts.hStep > 0
  {
    ToBucket(p.h - opts.hMerge, opts.hStep)
  }

  function SpreadEnd(p: HCV, opts: Options): (b: int)
    requires opts.hStep > 0
  {
    ToBucket(p.h + opts.hMerge + opts.hStep, opts.hStep)
  }

  /** Whether pixel `p` adds to bucket `k`. */
  function Adds(p: HCV, opts: Options, k: int): (n: nat)
    requires opts.hStep > 0
  {
    if Counted(p, opts) && Covers(SpreadStart(p, opts), SpreadEnd(p, opts), k) then 1 else 0
  }

  /** The number of pixels of `px` that add to bucket `k`. */
  function Count(px: seq<HCV>, opts: Options, k: int): (n: nat)
    requires opts.hStep > 0
    ensures n <= |px|
  {
    if px == [] then 0 else Count(px[..|px| - 1], opts, k) + Adds(px[|px| - 1], opts, k)
  }

  /** All the pixels of the frame, row after row. */
  function Pixels(rows: seq<seq<HCV>>): (px: seq<HCV>)
  {
    if rows == [] then [] else Pixels(rows[..|rows| - 1]) + rows[|rows| - 1]
  }

  /** `make_spectrum`, as pixel counts: bucket `k` counts the pixels of
      chroma at least `min_c` whose spread, from the bucket of
      `h - h_merge` up to but excluding that of `h + h_merge + h_step`,
      covers `k` (the source weighs each count by one over the pixel
      count). */
  method MakeSpectrum(rows: seq<seq<HCV>>, opts: Options) returns (spectrum: seq<nat>)
    requires opts.hStep > 0
    ensures |spectrum| == Buckets(opts.hStep)
    ensures forall k :: 0 <= k < |spectrum| ==> spectrum[k] == Count(Pixels(rows), opts, k)
  {
    var n := Buckets(opts.hStep);
    spectrum := seq(n, _ => 0);
    for i := 0 to |rows|
      invariant |spectrum| == n
      invariant forall k :: 0 <= k < n ==> spectrum[k] == Count(Pixels(rows[..i]), opts, k)
    {
      assert rows[..i + 1][..i] == rows[..i];
      var row := rows[i];
      ghost var done := Pixels(rows[..i]);
      assert done + row[..0] == done;
      for j := 0 to |row|
        invariant |spectrum| == n
        invariant forall k :: 0 <= k < n ==> spectrum[k] == Count(done + row[..j], opts, k)
      {
        assert (done + row[..j + 1])[..|done| + j] == done + row[..j];
        var p := row[j];
        if p.c < opts.minC {
          continue;
        }
        spectrum := Spread(spectrum, SpreadStart(p, opts), SpreadEnd(p, opts));
      }
      assert row[..|row|] == row;
      assert Pixels(rows[..i + 1]) == done + row;
    }
    assert rows[..|rows|] == rows;
  }

  /** The inner loop of `make_spectrum`: one more count in every bucket of
      the cyclic range from `start` up to but excluding `end`. */
  method Spread(spectrum: seq<nat>, start: int, end: int) returns (out: seq<nat>)
    requires 0 <= start < |spectrum| && 0 <= end < |spectrum|
    ensures |out| == |spectrum|
    ensures forall k :: 0 <= k < |out| ==> out[k] == spectrum[k] + if Covers(start, end, k) then 1 else 0
  {
    var n := |spectrum|;
    out := spectrum;
    var b := start;
    while b != end
      invariant 0 <= b < n && OnPath(start, end, b) && |out| == n
      invariant forall k :: 0 <= k < n ==> out[k] == spectrum[k] + if Covers(start, b, k) then 1 else 0
      decreases StepsLeft(end, n, b)
    {
      out := out[b := out[b] + 1];
      CoversStep(start, end, b, n);
      b := Next(b, n);
    }
  }

  /** Whether bucket `nb` keeps bucket `b` from newly activating: it was
      active, or it is stronger, or it is as strong and earlier. */
  predicate Blocks(oldActive: seq<bool>, spectrum: seq<real>, b: nat, nb: nat)
    requires b < |spectrum| && nb < |spectrum|
  {
    (nb < |oldActive| && oldActive[nb]) || spectrum[nb] > spectrum[b] || (spectrum[nb] == spectrum[b] && b > nb)
  }

  /** The keepout window of bucket `b`, from the bucket of its hue minus
      `h_keepout` up to but excluding that of its hue plus `h_keepout`
      plus a step. */
  function KeepoutStart(b: int, opts: Options): (k: int)
    requires opts.hStep > 0
  {
    ToBucket(b * opts.hStep - opts.hKeepout, opts.hStep)
  }

  function KeepoutEnd(b: int, opts: Options): (k: int)
    requires opts.hStep > 0
  {
    ToBucket(b * opts.hStep + opts.hKeepout + opts.hStep, opts.hStep)
  }

  /** No bucket of `b`'s keepout window blocks it. */
  predicate KeepoutClear(oldActive: seq<bool>, spectrum: seq<real>, b: nat, opts: Options)
    requires opts.hStep > 0 && b < |spectrum|
  {
    forall nb: nat :: nb < |spectrum| && Covers(KeepoutStart(b, opts), KeepoutEnd(b, opts), nb)
                      ==> !Blocks(oldActive, spectrum, b, nb)
  }

  /** Whether bucket `b` is active after `update_active`. */
  predicate Active(oldActive: seq<bool>, spectrum: seq<real>, b: nat, opts: Options)
    requires opts.hStep > 0 && b < |spectrum|
  {
    if spectrum[b] <= opts.offF then false
    else if b < |oldActive| && oldActive[b] then true
    else if spectrum[b] < opts.onF then false
    else KeepoutClear(oldActive, spectrum, b, opts)
  }

  /** `update_active`: the hysteresis over the spectrum. */
  method UpdateActive(oldActive: seq<bool>, spectrum: seq<real>, opts: Options) returns (active: seq<bool>)
    requires opts.hStep > 0 && |spectrum| == Buckets(opts.hStep)
    ensures |active| == |spectrum|
    ensures forall b :: 0 <= b < |active| ==> active[b] == Active(oldActive, spectrum, b, opts)
  {
    var n := |spectrum|;
    active := seq(n, _ => false);
    for b := 0 to n
      invariant |active| == n
      invariant forall k :: 0 <= k < b ==> active[k] == Active(oldActive, spectrum, k, opts)
    {
      if spectrum[b] <= opts.offF {
        active := active[b := false];
      } else if b < |oldActive| && oldActive[b] {
        active := active[b := true];
      } else if spectrum[b] < opts.onF {
        active := active[b := false];
      } else {
        BucketHasHue(b, opts.hStep);
        var hue := ToHue(b, opts.hStep);
        var clear := ScanKeepout(oldActive, spectrum, b, KeepoutStart(b, opts), KeepoutEnd(b, opts));
        active := active[b := clear];
      }
    }
  }

  /** The inner loop of `update_active`: the keepout window is scanned in
      order and the scan stops at the first bucket that blocks `b`. */
  method ScanKeepout(oldActive: seq<bool>, spectrum: seq<real>, b: nat, start: int, end: int) returns (clear: bool)
    requires b < |spectrum| && 0 <= start < |spectrum| && 0 <= end < |spectrum|
    ensures clear <==> forall nb: nat :: nb < |spectrum| && Covers(start, end, nb) ==> !Blocks(oldActive, spectrum, b, nb)
  {
    var n := |spectrum|;
    var nb := start;
    while nb != end
      invariant 0 <= nb < n && OnPath(start, end, nb)
      invariant forall k: nat :: k < n && Covers(start, nb, k) ==> !Blocks(oldActive, spectrum, b, k)
      decreases StepsLeft(end, n, nb)
    {
      if (nb < |oldActive| && oldActive[nb]) || spectrum[nb] > spectrum[b] || (spectrum[nb] == spectrum[b] && b > nb) {
        assert Covers(start, end, nb);
        return false;
      }
      CoversStep(start, end, nb, n);
      nb := Next(nb, n);
    }
    return true;
  }

  /** The hysteresis rules: a bucket at or below `off_f` is inactive; an
      active bucket above `off_f` stays active; an inactive one does not
      activate below `on_f`, and activates at or above it exactly when its
      keepout window holds no previously active bucket, no stronger one and
      no equally strong earlier one. */
  lemma Hysteresis(oldActive: seq<bool>, spectrum: seq<real>, b: nat, opts: Options)
    requires opts.hStep > 0 && b < |spectrum|
    ensures spectrum[b] <= opts.offF ==> !Active(oldActive, spectrum, b, opts)
    ensures b < |oldActive| && oldActive[b] && spectrum[b] > opts.offF ==> Active(oldActive, spectrum, b, opts)
    ensures !(b < |oldActive| && oldActive[b]) && spectrum[b] < opts.onF ==> !Active(oldActive, spectrum, b, opts)
    ensures !(b < |oldActive| && oldActive[b]) && spectrum[b] > opts.offF && spectrum[b] >= opts.onF ==>
              (Active(oldActive, spectrum, b, opts) <==> KeepoutClear(oldActive, spectrum, b, opts))
  {
  }

  /** Two buckets in each other's keepout windows never both newly
      activate: the earlier of two equally strong ones keeps the other
      out. */
  lemma KeepoutExclusive(oldActive: seq<bool>, spectrum: seq<real>, b1: nat, b2: nat, opts: Options)
    requires opts.hStep > 0 && b1 < |spectrum| && b2 < |spectrum|
    requires Covers(KeepoutStart(b1, opts), KeepoutEnd(b1, opts), b2)
    requires Covers(KeepoutStart(b2, opts), KeepoutEnd(b2, opts), b1)
    requires !(b1 < |oldActive| && oldActive[b1]) && !(b2 < |oldActive| && oldActive[b2])
    requires Active(oldActive, spectrum, b1, opts) && Active(oldActive, spectrum, b2, opts)
    ensures b1 == b2
  {
    assert !Blocks(oldActive, spectrum, b1, b2);
    assert !Blocks(oldActive, spectrum, b2, b1);
  }
}
