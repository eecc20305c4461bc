// Physical units to registers and back, over the exact reals: every value, any
// device profile. Rounding is half away from zero.
module Units {
  import opened Wrappers

  type Register = x: int | 0 <= x <= 255

  // A double: an exact real, or an infinity or NaN.
  datatype Number = Finite(value: real) | NonFinite

  datatype DeviceProfile = DeviceProfile(minOpening: Number, maxOpening: Number, openPosition: Register,
      closedPosition: Register) {
    function RegisterPositionRange(): real { closedPosition as real - openPosition as real }

    function OpeningRange(): Number {
      if minOpening.Finite? && maxOpening.Finite? then Finite(maxOpening.value - minOpening.value) else NonFinite
    }

    // Positive finite span, positive band.
    predicate Usable() { OpeningRange().Finite? && OpeningRange().value > 0.0 && RegisterPositionRange() > 0.0 }
  }

  function Clamp(x: real, low: real, high: real): real {
    if x < low then low else if high < x then high else x
  }

  function Abs(x: real): real { if x < 0.0 then -x else x }

  // std::lround.
  function Lround(x: real): int {
    if x >= 0.0 then (x + 0.5).Floor else -((-x + 0.5).Floor)
  }

  // The cast keeps the low byte.
  function RoundedRegister(steps: real): Register { Lround(steps) % 256 }

  // How far along the span a value is, 0 to 1.
  function SpanFraction(value: real, minimum: real, maximum: real): real
    requires minimum < maximum
  {
    Clamp((value - minimum) / (maximum - minimum), 0.0, 1.0)
  }

  function RegisterFromSpan(value: Number, minimum: Number, maximum: Number): Option<Register> {
    if !value.Finite? || value.value < 0.0 || !minimum.Finite? || !maximum.Finite? then None
    else if maximum.value <= minimum.value then None
    else Some(RoundedRegister(SpanFraction(value.value, minimum.value, maximum.value) * 255.0))
  }

  function NormalizedToRegister(value: Number): Option<Register> {
    if !value.Finite? then None else Some(RoundedRegister(Clamp(value.value, 0.0, 1.0) * 255.0))
  }

  function NormalizedFromRegister(value: Register): real { value as real / 255.0 }

  // The exact register position of an opening, before rounding.
  function Steps(opening: real, profile: DeviceProfile): real
    requires profile.Usable()
  {
    var openFraction := Clamp((opening - profile.minOpening.value) / profile.OpeningRange().value, 0.0, 1.0);
    profile.openPosition as real + (1.0 - openFraction) * profile.RegisterPositionRange()
  }

  function OpeningToRegister(opening: Number, profile: DeviceProfile): Option<Register> {
    if !opening.Finite? || !profile.Usable() then None else Some(RoundedRegister(Steps(opening.value, profile)))
  }

  // The opening at a register position.
  function Opening(value: Register, profile: DeviceProfile): real
    requires profile.Usable()
  {
    var steps := value as real - profile.openPosition as real;
    var closedFraction := Clamp(steps / profile.RegisterPositionRange(), 0.0, 1.0);
    profile.minOpening.value + (1.0 - closedFraction) * profile.OpeningRange().value
  }

  function OpeningFromRegister(value: Register, profile: DeviceProfile): Option<real> {
    if !profile.Usable() then None else Some(Opening(value, profile))
  }

  // ----- Rounding -----

  // Between two registers the cast loses nothing, rounding leaves neither, no
  // whole number is nearer, and a tie goes up.
  lemma Nearest(steps: real, low: Register, high: Register, other: int)
    requires low as real <= steps <= high as real
    ensures low <= RoundedRegister(steps) <= high
    ensures Abs(RoundedRegister(steps) as real - steps) <= 0.5
    ensures Abs(RoundedRegister(steps) as real - steps) <= Abs(other as real - steps)
    ensures steps == steps.Floor as real + 0.5 ==> RoundedRegister(steps) == steps.Floor + 1
  {
    var rounded := (steps + 0.5).Floor;
    assert rounded < 256 && RoundedRegister(steps) == rounded;
    assert other <= rounded - 1 || other == rounded || other >= rounded + 1;
  }

  lemma RoundsInOrder(a: real, b: real)
    requires 0.0 <= a <= b <= 255.0
    ensures RoundedRegister(a) <= RoundedRegister(b)
  {
    assert (a + 0.5).Floor <= (b + 0.5).Floor < 256;
  }

  // ----- Products of reals -----

  lemma Scale(a: real, b: real, k: real)
    requires a <= b && k >= 0.0
    ensures a * k <= b * k
  {
  }

  lemma NoLarger(a: real, b: real, k: real)
    requires a * k <= b * k && k > 0.0
    ensures a <= b
  {
  }

  lemma Larger(a: real, b: real, k: real)
    requires a < b && k > 0.0
    ensures a * k < b * k
  {
  }

  lemma Swap(a: real, b: real, c: real)
    ensures a * b * c == a * c * b
  {
  }

  lemma Distribute(a: real, b: real, k: real)
    ensures (a - b) * k == a * k - b * k
  {
  }

  lemma ScaledDistance(a: real, b: real, k: real)
    requires k > 0.0
    ensures Abs(a * k - b * k) == Abs(a - b) * k
  {
    Distribute(a, b, k);
    if a < b { Scale(a, b, k); } else { Scale(b, a, k); }
  }

  // A clamped fraction of a positive range, back in the range's own units.
  lemma ClampedFraction(x: real, range: real)
    requires range > 0.0
    ensures Clamp(x / range, 0.0, 1.0) * range == Clamp(x, 0.0, range)
  {
    var fraction := x / range;
    assert fraction * range == x;
    if fraction < 0.0 {
      assert x < 0.0;
    } else if 1.0 < fraction {
      assert x > range;
    } else {
      Scale(fraction, 1.0, range);
      Scale(0.0, fraction, range);
    }
  }

  // ----- Registers of a span -----

  // How far a register is from `place`, on a scale of 255 over `span`.
  function MissOnScale(register: Register, place: real, span: real): real {
    Abs(register as real * span - place * 255.0)
  }

  // Of all registers none is nearer, and the miss is half a step at most.
  ghost predicate NearestOnScale(register: Register, place: real, span: real) {
    && MissOnScale(register, place, span) <= 0.5 * span
    && forall other: Register :: MissOnScale(register, place, span) <= MissOnScale(other, place, span)
  }

  // Rejected exactly when not finite, negative or on an empty span; otherwise the
  // register nearest the clamped value's place in the span.
  lemma SpanRegister(value: Number, minimum: Number, maximum: Number)
    ensures RegisterFromSpan(value, minimum, maximum).Some? <==>
      value.Finite? && minimum.Finite? && maximum.Finite? && value.value >= 0.0 && minimum.value < maximum.value
    ensures RegisterFromSpan(value, minimum, maximum).Some? ==>
      NearestOnScale(RegisterFromSpan(value, minimum, maximum).value,
        Clamp(value.value, minimum.value, maximum.value) - minimum.value, maximum.value - minimum.value)
  {
    if RegisterFromSpan(value, minimum, maximum).Some? {
      var v, low, high := value.value, minimum.value, maximum.value;
      SpanPlace(v, low, high);
      hide NearestOnScale, SpanFraction, Clamp, RoundedRegister;
      FractionRegister(SpanFraction(v, low, high), Clamp(v, low, high) - low, high - low);
    }
  }

  lemma SpanPlace(value: real, minimum: real, maximum: real)
    requires minimum < maximum
    ensures SpanFraction(value, minimum, maximum) * (maximum - minimum) == Clamp(value, minimum, maximum) - minimum
    ensures 0.0 <= SpanFraction(value, minimum, maximum) <= 1.0
  {
    ClampedFraction(value - minimum, maximum - minimum);
  }

  lemma FractionRegister(fraction: real, place: real, span: real)
    requires 0.0 <= fraction <= 1.0 && span > 0.0 && fraction * span == place
    ensures NearestOnScale(RoundedRegister(fraction * 255.0), place, span)
  {
    hide RoundedRegister, Abs, MissOnScale;
    var register := RoundedRegister(fraction * 255.0);
    Nearest(fraction * 255.0, 0, 255, 0);
    OnScale(register, fraction, place, span);
    Scale(Abs(register as real - fraction * 255.0), 0.5, span);
    forall other: Register ensures MissOnScale(register, place, span) <= MissOnScale(other, place, span) {
      Nearest(fraction * 255.0, 0, 255, other);
      OnScale(other, fraction, place, span);
      Scale(Abs(register as real - fraction * 255.0), Abs(other as real - fraction * 255.0), span);
    }
  }

  lemma OnScale(register: Register, fraction: real, place: real, span: real)
    requires span > 0.0 && fraction * span == place
    ensures MissOnScale(register, place, span) == Abs(register as real - fraction * 255.0) * span
  {
    Swap(fraction, 255.0, span);
    ScaledDistance(register as real, fraction * 255.0, span);
  }

  lemma SpanInOrder(a: real, b: real, minimum: real, maximum: real)
    requires 0.0 <= a <= b && minimum < maximum
    ensures RegisterFromSpan(Finite(a), Finite(minimum), Finite(maximum)).value
         <= RegisterFromSpan(Finite(b), Finite(minimum), Finite(maximum)).value
    ensures a <= minimum ==> RegisterFromSpan(Finite(a), Finite(minimum), Finite(maximum)) == Some(0)
    ensures b >= maximum ==> RegisterFromSpan(Finite(b), Finite(minimum), Finite(maximum)) == Some(255)
  {
    hide RoundedRegister, Clamp;
    var first, second := SpanFraction(a, minimum, maximum), SpanFraction(b, minimum, maximum);
    SpanPlace(a, minimum, maximum);
    SpanPlace(b, minimum, maximum);
    FractionsInOrder(a, b, minimum, maximum);
    hide SpanFraction;
    RoundsInOrder(first * 255.0, second * 255.0);
    Nearest(0.0, 0, 0, 0);
    Nearest(255.0, 255, 255, 0);
  }

  lemma FractionsInOrder(a: real, b: real, minimum: real, maximum: real)
    requires a <= b && minimum < maximum
    ensures SpanFraction(a, minimum, maximum) <= SpanFraction(b, minimum, maximum)
    ensures a <= minimum ==> SpanFraction(a, minimum, maximum) == 0.0
    ensures b >= maximum ==> SpanFraction(b, minimum, maximum) == 1.0
  {
    var first, second := SpanFraction(a, minimum, maximum), SpanFraction(b, minimum, maximum);
    SpanPlace(a, minimum, maximum);
    SpanPlace(b, minimum, maximum);
    var low, high := Clamp(a, minimum, maximum) - minimum, Clamp(b, minimum, maximum) - minimum;
    assert low <= high && (a <= minimum ==> low == 0.0) && (b >= maximum ==> high == maximum - minimum);
    hide SpanFraction, Clamp;
    var span := maximum - minimum;
    Smaller(low, high, first, second, span);
    Smaller(low, 0.0, first, 0.0, span);
    Smaller(0.0, low, 0.0, first, span);
    Smaller(high, span, second, 1.0, span);
    Smaller(span, high, 1.0, second, span);
  }

  // ----- Normalized positions -----

  // Every register survives the round trip; a value comes back clamped, within
  // half a register step, and in order.
  lemma NormalizedRoundTrip(register: Register, value: real, larger: real)
    ensures NormalizedToRegister(Finite(NormalizedFromRegister(register))) == Some(register)
    ensures var back := NormalizedFromRegister(NormalizedToRegister(Finite(value)).value);
      Abs(back - Clamp(value, 0.0, 1.0)) <= 1.0 / 510.0
    ensures value <= larger ==> NormalizedToRegister(Finite(value)).value <= NormalizedToRegister(Finite(larger)).value
  {
    Nearest(register as real, register, register, 0);
    assert NormalizedFromRegister(register) * 255.0 == register as real;
    Nearest(Clamp(value, 0.0, 1.0) * 255.0, 0, 255, 0);
    if value <= larger {
      RoundsInOrder(Clamp(value, 0.0, 1.0) * 255.0, Clamp(larger, 0.0, 1.0) * 255.0);
    }
  }

  // ----- Openings -----

  // x stands to k as a stands to m.
  ghost predicate Proportional(x: real, m: real, a: real, k: real) { x * m == a * k }

  // The register position in the opening's own terms: the band runs against
  // the opening.
  lemma StepsAlongTheBand(opening: real, profile: DeviceProfile)
    requires profile.Usable()
    ensures
      var span, band := profile.OpeningRange().value, profile.RegisterPositionRange();
      var steps := Steps(opening, profile);
      && profile.openPosition as real <= steps <= profile.closedPosition as real
      && Proportional(steps - profile.openPosition as real, span,
          profile.maxOpening.value - Clamp(opening, profile.minOpening.value, profile.maxOpening.value), band)
  {
    var span, band := profile.OpeningRange().value, profile.RegisterPositionRange();
    var fraction := Clamp((opening - profile.minOpening.value) / span, 0.0, 1.0);
    ClampedFraction(opening - profile.minOpening.value, span);
    FromTheNearEnd(fraction, fraction * span, span, band);
    var wanted := Clamp(opening, profile.minOpening.value, profile.maxOpening.value);
    assert span - fraction * span == profile.maxOpening.value - wanted;
    assert Steps(opening, profile) - profile.openPosition as real == (1.0 - fraction) * band;
    hide Proportional, Clamp, Steps;
  }

  lemma FromTheNearEnd(fraction: real, part: real, span: real, band: real)
    requires 0.0 <= fraction <= 1.0 && span > 0.0 && band > 0.0 && part == fraction * span
    ensures Proportional((1.0 - fraction) * band, span, span - part, band)
    ensures 0.0 <= (1.0 - fraction) * band <= band
  {
    Swap(1.0 - fraction, band, span);
    Distribute(1.0, fraction, span);
    Scale(0.0, 1.0 - fraction, band);
    Scale(1.0 - fraction, 1.0, band);
  }

  // And the opening in the register's.
  lemma OpeningAlongTheSpan(register: Register, profile: DeviceProfile)
    requires profile.Usable()
    ensures
      var span, band := profile.OpeningRange().value, profile.RegisterPositionRange();
      var opening := OpeningFromRegister(register, profile).value;
      && profile.minOpening.value <= opening <= profile.maxOpening.value
      && Proportional(profile.maxOpening.value - opening, band,
          InBand(register, profile) as real - profile.openPosition as real, span)
  {
    var span, band := profile.OpeningRange().value, profile.RegisterPositionRange();
    var fraction := Clamp((register as real - profile.openPosition as real) / band, 0.0, 1.0);
    ClampedFraction(register as real - profile.openPosition as real, band);
    FromTheFarEnd(fraction, fraction * band, span, band);
    assert fraction * band == InBand(register, profile) as real - profile.openPosition as real;
    assert profile.maxOpening.value - OpeningFromRegister(register, profile).value == span - (1.0 - fraction) * span;
    hide Proportional, Clamp, InBand, Opening;
  }

  lemma FromTheFarEnd(fraction: real, steps: real, span: real, band: real)
    requires 0.0 <= fraction <= 1.0 && span > 0.0 && band > 0.0 && steps == fraction * band
    ensures Proportional(span - (1.0 - fraction) * span, band, steps, span)
    ensures 0.0 <= (1.0 - fraction) * span <= span
  {
    Swap(fraction, span, band);
    Distribute(1.0, fraction, span);
    Scale(0.0, 1.0 - fraction, span);
    Scale(1.0 - fraction, 1.0, span);
  }

  // The register, or the nearer end of the profile's band.
  function InBand(register: Register, profile: DeviceProfile): Register {
    if register < profile.openPosition then profile.openPosition
    else if register > profile.closedPosition then profile.closedPosition else register
  }

  lemma SameProduct(a: real, b: real, k: real)
    requires a * k == b * k && k > 0.0
    ensures a == b
  {
  }

  // Register to opening to register is the identity inside the profile's band,
  // and the nearest end outside it.
  lemma RegisterRoundTrip(register: Register, profile: DeviceProfile)
    requires profile.Usable()
    ensures var opening := OpeningFromRegister(register, profile).value;
      OpeningToRegister(Finite(opening), profile) == Some(InBand(register, profile))
    ensures profile.openPosition <= register <= profile.closedPosition ==>
      OpeningToRegister(Finite(OpeningFromRegister(register, profile).value), profile) == Some(register)
  {
    hide Steps, RoundedRegister, Opening, Proportional;
    var opening := OpeningFromRegister(register, profile).value;
    var nearest := InBand(register, profile);
    OpeningAlongTheSpan(register, profile);
    StepsAlongTheBand(opening, profile);
    There(profile.maxOpening.value - opening, profile.RegisterPositionRange(),
        nearest as real - profile.openPosition as real,
      Steps(opening, profile) - profile.openPosition as real, profile.OpeningRange().value);
    Nearest(nearest as real, nearest, nearest, 0);
  }

  // There and back.
  lemma There(x: real, m: real, a: real, b: real, k: real)
    requires Proportional(x, m, a, k) && Proportional(b, k, x, m) && k > 0.0
    ensures a == b
  {
    SameProduct(a, b, k);
  }

  // How far a register's opening is from a wanted one, in register steps.
  lemma Miss(opening: real, register: Register, profile: DeviceProfile)
    requires profile.Usable()
    ensures
      var wanted := Clamp(opening, profile.minOpening.value, profile.maxOpening.value);
      Abs(OpeningFromRegister(register, profile).value - wanted) * profile.RegisterPositionRange()
      == Abs(InBand(register, profile) as real - Steps(opening, profile)) * profile.OpeningRange().value
  {
    hide Steps, Abs, Clamp, InBand, Opening, Proportional;
    StepsAlongTheBand(opening, profile);
    OpeningAlongTheSpan(register, profile);
    Distances(profile.maxOpening.value, OpeningFromRegister(register, profile).value,
        Clamp(opening, profile.minOpening.value, profile.maxOpening.value),
      profile.openPosition as real, InBand(register, profile) as real, Steps(opening, profile),
      profile.OpeningRange().value, profile.RegisterPositionRange());
  }

  lemma Distances(max: real, found: real, wanted: real, open: real, register: real, steps: real, span: real, band: real)
    requires span > 0.0 && band > 0.0
    requires Proportional(max - found, band, register - open, span)
    requires Proportional(steps - open, span, max - wanted, band)
    ensures Abs(found - wanted) * band == Abs(register - steps) * span
  {
    Distribute(max, found, band);
    Distribute(max, wanted, band);
    Distribute(register, open, span);
    Distribute(steps, open, span);
    ScaledDistance(found, wanted, band);
    ScaledDistance(register, steps, span);
  }

  // Opening to register to opening misses the clamped opening by half a
  // register step at most, no register does better, and the register stays in
  // the profile's band.
  lemma OpeningRoundTrip(opening: real, other: Register, profile: DeviceProfile)
    requires profile.Usable()
    ensures
      var register := OpeningToRegister(Finite(opening), profile).value;
      var wanted := Clamp(opening, profile.minOpening.value, profile.maxOpening.value);
      var miss := Abs(OpeningFromRegister(register, profile).value - wanted);
      && profile.openPosition <= register <= profile.closedPosition
      && miss <= profile.OpeningRange().value / (2.0 * profile.RegisterPositionRange())
      && miss <= Abs(OpeningFromRegister(other, profile).value - wanted)
  {
    hide Steps, Abs, Clamp, RoundedRegister, Opening, Proportional;
    var span, band := profile.OpeningRange().value, profile.RegisterPositionRange();
    var steps := Steps(opening, profile);
    var register := OpeningToRegister(Finite(opening), profile).value;
    StepsAlongTheBand(opening, profile);
    Nearest(steps, profile.openPosition, profile.closedPosition, InBand(other, profile));
    Miss(opening, register, profile);
    Miss(opening, other, profile);
    assert InBand(register, profile) == register;
    var wanted := Clamp(opening, profile.minOpening.value, profile.maxOpening.value);
    SmallerMiss(Abs(OpeningFromRegister(register, profile).value - wanted),
        Abs(OpeningFromRegister(other, profile).value - wanted),
      Abs(register as real - steps), Abs(InBand(other, profile) as real - steps), span, band);
  }

  lemma SmallerMiss(miss: real, otherMiss: real, distance: real, otherDistance: real, span: real, band: real)
    requires span > 0.0 && band > 0.0
    requires miss * band == distance * span && otherMiss * band == otherDistance * span
    requires distance <= 0.5 && distance <= otherDistance
    ensures miss <= otherMiss
    ensures miss <= span / (2.0 * band)
  {
    Scale(distance, otherDistance, span);
    NoLarger(miss, otherMiss, band);
    Scale(distance, 0.5, span);
    var half := span / (2.0 * band);
    assert half * (2.0 * band) == span;
    assert half * band == 0.5 * span;
    NoLarger(miss, half, band);
  }

  // Both maps run against each other: a larger opening never has a larger
  // register, a larger register never a larger opening, and in the band always
  // a smaller one.
  lemma OrderReversed(smaller: real, larger: real, low: Register, high: Register, profile: DeviceProfile)
    requires profile.Usable() && smaller <= larger && low < high
    ensures OpeningToRegister(Finite(larger), profile).value <= OpeningToRegister(Finite(smaller), profile).value
    ensures OpeningFromRegister(high, profile).value <= OpeningFromRegister(low, profile).value
    ensures profile.openPosition <= low && high <= profile.closedPosition ==>
      OpeningFromRegister(high, profile).value < OpeningFromRegister(low, profile).value
  {
    RegistersReversed(smaller, larger, profile);
    OpeningsReversed(low, high, profile);
  }

  lemma RegistersReversed(smaller: real, larger: real, profile: DeviceProfile)
    requires profile.Usable() && smaller <= larger
    ensures OpeningToRegister(Finite(larger), profile).value <= OpeningToRegister(Finite(smaller), profile).value
  {
    hide Steps, RoundedRegister;
    StepsAlongTheBand(smaller, profile);
    StepsAlongTheBand(larger, profile);
    var high, low := Clamp(larger, profile.minOpening.value, profile.maxOpening.value),
        Clamp(smaller, profile.minOpening.value, profile.maxOpening.value);
    assert low <= high;
    hide Clamp, Proportional;
    InOrder(profile.maxOpening.value - high, profile.maxOpening.value - low,
      Steps(larger, profile) - profile.openPosition as real, Steps(smaller, profile) - profile.openPosition as real,
      profile.RegisterPositionRange(), profile.OpeningRange().value);
    RoundsInOrder(Steps(larger, profile), Steps(smaller, profile));
  }

  lemma OpeningsReversed(low: Register, high: Register, profile: DeviceProfile)
    requires profile.Usable() && low < high
    ensures OpeningFromRegister(high, profile).value <= OpeningFromRegister(low, profile).value
    ensures profile.openPosition <= low && high <= profile.closedPosition ==>
      OpeningFromRegister(high, profile).value < OpeningFromRegister(low, profile).value
  {
    assert InBand(low, profile) <= InBand(high, profile);
    assert profile.openPosition <= low && high <= profile.closedPosition ==>
      InBand(low, profile) < InBand(high, profile);
    hide Opening, InBand, Proportional;
    OpeningAlongTheSpan(low, profile);
    OpeningAlongTheSpan(high, profile);
    InOrder(InBand(low, profile) as real - profile.openPosition as real,
      InBand(high, profile) as real - profile.openPosition as real,
      profile.maxOpening.value - OpeningFromRegister(low, profile).value,
      profile.maxOpening.value - OpeningFromRegister(high, profile).value,
      profile.OpeningRange().value, profile.RegisterPositionRange());
  }

  lemma InOrder(a: real, b: real, x: real, y: real, k: real, m: real)
    requires k > 0.0 && m > 0.0 && Proportional(x, m, a, k) && Proportional(y, m, b, k) && a <= b
    ensures x <= y
    ensures a < b ==> x < y
  {
    var first, second := a * k, b * k;
    assert first <= second by { Scale(a, b, k); }
    if a < b {
      assert first < second by { Larger(a, b, k); }
    }
    Smaller(first, second, x, y, m);
  }

  lemma Smaller(xm: real, ym: real, x: real, y: real, m: real)
    requires xm == x * m && ym == y * m && m > 0.0
    ensures xm < ym ==> x < y
    ensures xm <= ym ==> x <= y
  {
    if x > y {
      Larger(y, x, m);
    } else if x == y {
      assert x * m == y * m;
    }
  }

  // The ends meet: fully open is the open register, fully closed the closed one.
  lemma EndsMeet(opening: real, profile: DeviceProfile)
    requires profile.Usable()
    ensures opening >= profile.maxOpening.value ==>
      OpeningToRegister(Finite(opening), profile) == Some(profile.openPosition)
    ensures opening <= profile.minOpening.value ==>
      OpeningToRegister(Finite(opening), profile) == Some(profile.closedPosition)
  {
    hide Steps, RoundedRegister;
    StepsAlongTheBand(opening, profile);
    var span, band := profile.OpeningRange().value, profile.RegisterPositionRange();
    Nearest(profile.openPosition as real, profile.openPosition, profile.openPosition, 0);
    Nearest(profile.closedPosition as real, profile.closedPosition, profile.closedPosition, 0);
    if opening >= profile.maxOpening.value {
      assert Clamp(opening, profile.minOpening.value, profile.maxOpening.value) == profile.maxOpening.value;
      There(0.0, band, 0.0, Steps(opening, profile) - profile.openPosition as real, span);
    }
    if opening <= profile.minOpening.value {
      assert Clamp(opening, profile.minOpening.value, profile.maxOpening.value) == profile.minOpening.value;
      There(span, band, band, Steps(opening, profile) - profile.openPosition as real, span);
    }
  }
}
