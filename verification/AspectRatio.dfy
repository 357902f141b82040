/** Output sizes for an aspect ratio: the largest integer size of exactly the base's ratio
    within an edge and a pixel bound. */
module AspectRatio {
  import Text

  datatype Dimensions = Dimensions(width: int, height: int)

  const MAX_EDGE := 3840
  const MAX_PIXELS := 3840 * 2160

  // ---------------------------------------------------------------------------------------
  // Greatest common divisor.

  function Gcd(a: nat, b: nat): (g: nat)
    ensures a > 0 || b > 0 ==> g > 0
    decreases b
  {
    if b == 0 then a else Gcd(b, a % b)
  }

  method GreatestCommonDivisor(left: nat, right: nat) returns (divisor: nat)
    ensures divisor == Gcd(left, right)
  {
    var a, b := left, right;
    while b != 0
      invariant Gcd(a, b) == Gcd(left, right)
      decreases b
    {
      a, b := b, a % b;
    }
    return a;
  }

  /** Both numbers are multiples of their gcd. */
  lemma {:induction false} GcdDivides(a: nat, b: nat) returns (p: nat, q: nat)
    ensures a == p * Gcd(a, b) && b == q * Gcd(a, b)
    decreases b
  {
    if b == 0 {
      p, q := 1, 0;
    } else {
      var r, s := GcdDivides(b, a % b);
      p, q := (a / b) * r + s, r;
      QuotientTimes(a / b, r, s, Gcd(a, b));
      assert a == (a / b) * b + a % b;
    }
  }

  lemma QuotientTimes(q: int, r: int, s: int, g: int)
    ensures (q * r + s) * g == q * (r * g) + s * g
  {
    assert (q * r) * g == q * (r * g);
  }

  /** The gcd is an integer combination of the two. */
  lemma {:induction false} Bezout(a: nat, b: nat) returns (u: int, v: int)
    ensures u * a + v * b == Gcd(a, b)
    decreases b
  {
    if b == 0 {
      u, v := 1, 0;
    } else {
      var s, t := Bezout(b, a % b);
      var q := a / b;
      u, v := t, s - q * t;
      assert a % b == a - q * b;
      assert t * (a - q * b) == t * a - t * (q * b);
      assert t * (q * b) == (q * t) * b;
      assert (s - q * t) * b == s * b - (q * t) * b;
    }
  }

  lemma MulOrder(a: int, b: int, c: int)
    requires a <= b && c >= 0
    ensures a * c <= b * c
  {
    assert (b - a) * c >= 0;
    assert (b - a) * c == b * c - a * c;
  }

  lemma CancelFactor(x: int, y: int, g: int)
    requires g > 0 && x * g == y * g
    ensures x == y
  {
    if x > y {
      MulOrder(y + 1, x, g);
    } else if x < y {
      MulOrder(x + 1, y, g);
    }
  }

  lemma PositiveFactor(x: int, g: int)
    requires g > 0 && x * g > 0
    ensures x > 0
  {
    if x <= 0 {
      MulOrder(x, 0, g);
    }
  }

  /** The reduced ratio, its combination to one, and how it is computed by division. */
  lemma Reduced(w: nat, h: nat) returns (p: nat, q: nat, u: int, v: int)
    requires w > 0 && h > 0
    ensures p > 0 && q > 0 && p == w / Gcd(w, h) && q == h / Gcd(w, h)
    ensures w == p * Gcd(w, h) && h == q * Gcd(w, h)
    ensures u * p + v * q == 1
  {
    var g := Gcd(w, h);
    p, q := GcdDivides(w, h);
    u, v := Bezout(w, h);
    assert (u * p + v * q) * g == u * (p * g) + v * (q * g);
    CancelFactor(u * p + v * q, 1, g);
    DivideMultiple(p, g);
    DivideMultiple(q, g);
  }

  lemma DivideMultiple(p: nat, g: nat)
    requires g > 0
    ensures (p * g) / g == p
  {
    var r := (p * g) / g;
    assert p * g == r * g + (p * g) % g;
    if r > p {
      MulOrder(p + 1, r, g);
    } else if r < p {
      MulOrder(r + 1, p, g);
    }
  }

  /** Euclid's lemma in the form needed: a pair in the ratio p : q of coprime numbers is one
      and the same multiple of both. */
  lemma CommonMultiple(a: int, b: int, p: nat, q: nat, u: int, v: int) returns (t: int)
    requires p > 0 && u * p + v * q == 1 && a * q == b * p
    ensures t == u * a + v * b && a == t * p && b == t * q
  {
    t := u * a + v * b;
    assert a == a * (u * p + v * q) == (u * a) * p + v * (a * q) == (u * a) * p + v * (b * p) by {
      assert a * (u * p + v * q) == a * (u * p) + a * (v * q);
      assert a * (u * p) == (u * a) * p;
      assert a * (v * q) == v * (a * q);
    }
    assert v * (b * p) == (v * b) * p;
    assert t * p == (u * a) * p + (v * b) * p;
    assert b * p == (t * q) * p by {
      assert (t * p) * q == (t * q) * p;
    }
    CancelFactor(b, t * q, p);
  }

  // ---------------------------------------------------------------------------------------
  // Integer square root of a quotient.

  /** The largest m with m * m * a <= p, which is the floor of the square root of p / a. */
  function FloorSqrtOfQuotient(p: nat, a: nat): (m: nat)
    requires a > 0
    ensures m * m * a <= p < (m + 1) * (m + 1) * a
  {
    SqrtFrom(p, a, 0)
  }

  function SqrtFrom(p: nat, a: nat, m: nat): (r: nat)
    requires a > 0 && m * m * a <= p
    ensures r * r * a <= p < (r + 1) * (r + 1) * a
    decreases p - m
  {
    if p < (m + 1) * (m + 1) * a then m
    else
      (assert m + 1 <= p by {
         assert (m + 1) * ((m + 1) * a) >= (m + 1) * 1;
         assert (m + 1) * (m + 1) * a == (m + 1) * ((m + 1) * a);
       }
       SqrtFrom(p, a, m + 1))
  }

  lemma SquareOrder(s: nat, t: nat, a: nat)
    requires s <= t
    ensures s * s * a <= t * t * a
  {
    MulOrder(s, t, s);
    MulOrder(s, t, t);
    MulOrder(s * s, t * t, a);
  }

  lemma FloorSqrtIsExact(p: nat, a: nat, t: nat)
    requires a > 0
    ensures t <= FloorSqrtOfQuotient(p, a) <==> t * t * a <= p
  {
    var m := FloorSqrtOfQuotient(p, a);
    if t <= m {
      SquareOrder(t, m, a);
    } else {
      SquareOrder(m + 1, t, a);
    }
  }

  lemma QuotientIsExact(edge: nat, longest: nat, t: nat)
    requires longest > 0
    ensures t <= edge / longest <==> t * longest <= edge
  {
    var q := edge / longest;
    assert edge == q * longest + edge % longest;
    if t <= q {
      MulOrder(t, q, longest);
    } else {
      MulOrder(q + 1, t, longest);
      assert (q + 1) * longest == q * longest + longest;
    }
  }

  // ---------------------------------------------------------------------------------------
  // The largest fit.

  function LargestMultiple(ratioWidth: nat, ratioHeight: nat, maxEdge: nat, maxPixels: nat): nat
    requires ratioWidth > 0 && ratioHeight > 0
  {
    var longest := if ratioHeight > ratioWidth then ratioHeight else ratioWidth;
    assert ratioWidth * ratioHeight > 0 by { MulOrder(1, ratioWidth, ratioHeight); }
    var byEdge, byPixels := maxEdge / longest, FloorSqrtOfQuotient(maxPixels, ratioWidth * ratioHeight);
    if byPixels < byEdge then byPixels else byEdge
  }

  lemma AreaOfMultiple(p: nat, q: nat, t: nat)
    ensures (p * t) * (q * t) == t * t * (p * q)
  {
    assert (p * t) * (q * t) == p * (t * (q * t));
    assert t * (q * t) == (t * t) * q;
    assert p * ((t * t) * q) == (t * t) * (p * q);
  }

  lemma EdgesOfMultiple(p: nat, q: nat, t: nat, maxEdge: nat)
    ensures p * t <= maxEdge && q * t <= maxEdge <==> t * (if q > p then q else p) <= maxEdge
  {
    if q > p {
      MulOrder(p, q, t);
    } else {
      MulOrder(q, p, t);
    }
  }

  /** The computed multiple is the largest that meets both bounds. */
  lemma LargestMultipleIsExact(p: nat, q: nat, maxEdge: nat, maxPixels: nat, t: nat)
    requires p > 0 && q > 0
    ensures t <= LargestMultiple(p, q, maxEdge, maxPixels)
            <==> p * t <= maxEdge && q * t <= maxEdge && (p * t) * (q * t) <= maxPixels
  {
    MulOrder(1, p, q);
    var longest := if q > p then q else p;
    QuotientIsExact(maxEdge, longest, t);
    FloorSqrtIsExact(maxPixels, p * q, t);
    EdgesOfMultiple(p, q, t, maxEdge);
    AreaOfMultiple(p, q, t);
    var byEdge, byPixels := maxEdge / longest, FloorSqrtOfQuotient(maxPixels, p * q);
    assert LargestMultiple(p, q, maxEdge, maxPixels) == if byPixels < byEdge then byPixels else byEdge;
    assert t <= byEdge <==> p * t <= maxEdge && q * t <= maxEdge;
    assert t <= byPixels <==> (p * t) * (q * t) <= maxPixels;
  }

  function MaxDimensionsForAspectRatio(base: Dimensions, maxEdge: int, maxPixels: int): Dimensions
    requires base.width >= 0 && base.height >= 0 && (base.width == 0 <==> base.height == 0)
  {
    var divisor := Gcd(base.width, base.height);
    if divisor <= 0 || maxEdge <= 0 || maxPixels <= 0 then base
    else
      var ratioWidth, ratioHeight := base.width / divisor, base.height / divisor;
      assert ratioWidth > 0 && ratioHeight > 0 by { var p, q, u, v := Reduced(base.width, base.height); }
      var multiple := LargestMultiple(ratioWidth, ratioHeight, maxEdge, maxPixels);
      if multiple <= 0 then base else Dimensions(ratioWidth * multiple, ratioHeight * multiple)
  }

  predicate SameRatio(base: Dimensions, size: Dimensions) {
    size.width * base.height == size.height * base.width
  }

  /** A positive size of exactly the base's ratio within both bounds. */
  predicate Fits(base: Dimensions, maxEdge: int, maxPixels: int, size: Dimensions) {
    && size.width > 0 && size.height > 0
    && SameRatio(base, size)
    && size.width <= maxEdge && size.height <= maxEdge
    && size.width * size.height <= maxPixels
  }

  /** Every positive size of the ratio is a positive multiple of the reduced ratio. */
  lemma SameRatioIsMultiple(base: Dimensions, size: Dimensions, p: nat, q: nat, g: nat, u: int, v: int) returns (t: nat)
    requires p > 0 && g > 0 && base == Dimensions(p * g, q * g) && u * p + v * q == 1
    requires size.width > 0 && SameRatio(base, size)
    ensures t > 0 && size == Dimensions(p * t, q * t)
  {
    assert size.width * (q * g) == (size.width * q) * g;
    assert size.height * (p * g) == (size.height * p) * g;
    CancelFactor(size.width * q, size.height * p, g);
    var s := CommonMultiple(size.width, size.height, p, q, u, v);
    PositiveFactor(s, p);
    t := s;
  }

  lemma MultipleHasRatio(p: nat, q: nat, g: nat, t: nat)
    ensures SameRatio(Dimensions(p * g, q * g), Dimensions(p * t, q * t))
  {
    assert (p * t) * (q * g) == (q * t) * (p * g) by {
      assert (p * t) * (q * g) == p * (t * (q * g)) == p * ((t * q) * g);
      assert p * ((t * q) * g) == (q * t) * (p * g);
    }
  }

  /** The result is the base unchanged, or the computed multiple, which fits. */
  lemma ResultIs(base: Dimensions, maxEdge: int, maxPixels: int, p: nat, q: nat)
    requires base.width > 0 && base.height > 0 && maxEdge > 0 && maxPixels > 0
    requires p == base.width / Gcd(base.width, base.height) && q == base.height / Gcd(base.width, base.height)
    requires p > 0 && q > 0 && base == Dimensions(p * Gcd(base.width, base.height), q * Gcd(base.width, base.height))
    ensures var m := LargestMultiple(p, q, maxEdge, maxPixels);
            var r := MaxDimensionsForAspectRatio(base, maxEdge, maxPixels);
            if m == 0 then r == base else r == Dimensions(p * m, q * m) && Fits(base, maxEdge, maxPixels, r)
  {
    var m := LargestMultiple(p, q, maxEdge, maxPixels);
    if m > 0 {
      LargestMultipleIsExact(p, q, maxEdge, maxPixels, m);
      MultipleHasRatio(p, q, Gcd(base.width, base.height), m);
      MulOrder(1, p, m);
      MulOrder(1, q, m);
    }
  }

  /** Largest exact-ratio fit: when some size fits, the result fits and no fitting size is
      larger on either edge; when none fits, the base is returned unchanged. */
  lemma LargestExactFit(base: Dimensions, maxEdge: int, maxPixels: int, size: Dimensions)
    requires base.width > 0 && base.height > 0
    ensures var r := MaxDimensionsForAspectRatio(base, maxEdge, maxPixels);
      && (Fits(base, maxEdge, maxPixels, size) ==>
            Fits(base, maxEdge, maxPixels, r) && size.width <= r.width && size.height <= r.height)
      && (!Fits(base, maxEdge, maxPixels, r) ==> r == base && !Fits(base, maxEdge, maxPixels, size))
  {
    if maxEdge > 0 && maxPixels > 0 {
      var p, q, u, v := Reduced(base.width, base.height);
      ResultIs(base, maxEdge, maxPixels, p, q);
      if Fits(base, maxEdge, maxPixels, size) {
        var t := SameRatioIsMultiple(base, size, p, q, Gcd(base.width, base.height), u, v);
        LargestMultipleIsExact(p, q, maxEdge, maxPixels, t);
        MulOrder(t, LargestMultiple(p, q, maxEdge, maxPixels), p);
        MulOrder(t, LargestMultiple(p, q, maxEdge, maxPixels), q);
      }
    } else if size.width > 0 && size.height > 0 {
      MulOrder(1, size.width, size.height);
    }
  }

  // ---------------------------------------------------------------------------------------
  // The presets.

  /** Letters whose lower case is an ASCII letter; others never spell a quality. */
  function Lower(c: char): char {
    if 'A' <= c <= 'Z' then (c as int + 32) as char
    else if c == '\U{0130}' then 'i' else if c == '\U{212A}' then 'k' else c
  }

  function ToLower(s: string): string {
    if s == "" then "" else [Lower(s[0])] + ToLower(s[1..])
  }

  function ResolutionDimensions(base: Dimensions, quality: string): Dimensions
    requires base.width > 0 && base.height > 0
  {
    var q := ToLower(Text.TrimSpace(quality));
    if q == "medium" then Dimensions(base.width * 2, base.height * 2)
    else if q == "high" then MaxDimensionsForAspectRatio(base, MAX_EDGE, MAX_PIXELS)
    else base
  }

  function PresetSizes(): map<string, Dimensions> {
    map["1:1" := Dimensions(1024, 1024), "1.62:1" := Dimensions(1296, 800), "2:3" := Dimensions(1024, 1536),
        "3:2" := Dimensions(1536, 1024), "3:4" := Dimensions(1152, 1536), "4:3" := Dimensions(1536, 1152),
        "4:5" := Dimensions(1024, 1280), "5:4" := Dimensions(1280, 1024), "9:16" := Dimensions(864, 1536),
        "16:9" := Dimensions(1536, 864), "21:9" := Dimensions(1792, 768)]
  }

  /** A ratio as two whole numbers. */
  datatype Ratio = Ratio(name: string, width: nat, height: nat)

  function NamedRatios(): set<Ratio> {
    { Ratio("1:1", 1, 1), Ratio("1.62:1", 162, 100), Ratio("2:3", 2, 3), Ratio("3:2", 3, 2), Ratio("3:4", 3, 4),
      Ratio("4:3", 4, 3), Ratio("4:5", 4, 5), Ratio("5:4", 5, 4), Ratio("9:16", 9, 16), Ratio("16:9", 16, 9),
      Ratio("21:9", 21, 9) }
  }

  /** The preset of each name has exactly that ratio. */
  lemma PresetsHaveTheirRatio(r: Ratio)
    requires r in NamedRatios()
    ensures r.name in PresetSizes()
    ensures PresetSizes()[r.name].width * r.height == PresetSizes()[r.name].height * r.width
  {
  }

  function Presets(): set<Dimensions> {
    PresetSizes().Values
  }

  lemma PresetsAndTheirDoublesFit(base: Dimensions)
    requires base in Presets()
    ensures Fits(base, MAX_EDGE, MAX_PIXELS, base)
    ensures Fits(base, MAX_EDGE, MAX_PIXELS, Dimensions(base.width * 2, base.height * 2))
  {
    assert 0 < base.width <= 1920 && 0 < base.height <= 1920 && base.width * base.height <= 1769472;
  }

  /** Every preset at every quality keeps its ratio exactly, stays within the model's edge and
      pixel limits, and is no larger than the size that "high" asks for. */
  lemma PresetsStayWithinLimits(base: Dimensions, quality: string)
    requires base in Presets()
    ensures base.width > 0 && base.height > 0
    ensures var r, high := ResolutionDimensions(base, quality), MaxDimensionsForAspectRatio(base, MAX_EDGE, MAX_PIXELS);
      && Fits(base, MAX_EDGE, MAX_PIXELS, r)
      && r.width <= high.width && r.height <= high.height
  {
    PresetsAndTheirDoublesFit(base);
    var r := ResolutionDimensions(base, quality);
    LargestExactFit(base, MAX_EDGE, MAX_PIXELS, base);
    LargestExactFit(base, MAX_EDGE, MAX_PIXELS, r);
    LargestExactFit(base, MAX_EDGE, MAX_PIXELS, Dimensions(base.width * 2, base.height * 2));
  }

  /** The character is the letter of the word, a small ASCII one, in some case. */
  predicate IsLetter(c: char, letter: char)
    requires 'a' <= letter <= 'z'
  {
    || c == letter || c as int == letter as int - 32
    || (letter == 'i' && c == '\U{0130}') || (letter == 'k' && c == '\U{212A}')
  }

  /** Around spaces the word, in letters of any case. */
  predicate Spells(s: string, word: string)
    requires forall i :: 0 <= i < |word| ==> 'a' <= word[i] <= 'z'
  {
    var t := Text.TrimSpace(s);
    |t| == |word| && forall i :: 0 <= i < |word| ==> IsLetter(t[i], word[i])
  }

  lemma {:induction false} LowerIs(t: string, word: string)
    requires forall i :: 0 <= i < |word| ==> 'a' <= word[i] <= 'z'
    ensures ToLower(t) == word <==> |t| == |word| && forall i :: 0 <= i < |word| ==> IsLetter(t[i], word[i])
  {
    if t != "" && word != "" {
      LowerIs(t[1..], word[1..]);
      assert ToLower(t) == word <==> Lower(t[0]) == word[0] && ToLower(t[1..]) == word[1..] by {
        assert word == [word[0]] + word[1..];
      }
      assert forall i :: 0 < i < |word| && |t| == |word| ==> t[i] == t[1..][i - 1] && word[i] == word[1..][i - 1];
    }
  }

  /** "medium" doubles both edges, "high" is the largest size of the ratio with edges of at most 3840
      and at most 3840 times 2160 pixels, and any other quality leaves the base as it is. */
  lemma QualitiesAre(base: Dimensions, quality: string, size: Dimensions)
    requires base.width > 0 && base.height > 0
    ensures var r := ResolutionDimensions(base, quality);
      if Spells(quality, "medium") then r == Dimensions(2 * base.width, 2 * base.height)
      else if Spells(quality, "high") then
        && (Fits(base, 3840, 8294400, size) ==>
              Fits(base, 3840, 8294400, r) && size.width <= r.width && size.height <= r.height)
        && (!Fits(base, 3840, 8294400, r) ==> r == base)
      else r == base
  {
    LowerIs(Text.TrimSpace(quality), "medium");
    LowerIs(Text.TrimSpace(quality), "high");
    LargestExactFit(base, 3840, 8294400, size);
  }
}
