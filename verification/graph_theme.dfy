/** Graph colours and fonts (`GraphTheme`): the built-in dark and light themes, the
    N-stop colour gradient used for stacked layers, copying, version upgrade and the
    "is this a custom theme" test. */
module GraphTheme {
  import opened Wrappers
  import opened Numeric

  type Channel = x: int | 0 <= x <= 255

  /** `System.Drawing.Color` by its ARGB value; `ToArgb()` equality is equality here. */
  datatype Color = Color(a: Channel, r: Channel, g: Channel, b: Channel)

  /** `System.Drawing.FontStyle` flags (Bold = 1, Italic = 2, Underline = 4, Strikeout = 8). */
  datatype FontStyle = FontStyle(flags: bv4)

  const Bold := FontStyle(1)

  /** `Color.Empty`, the value of a colour property nobody has assigned. */
  const EmptyColor := Color(0, 0, 0, 0)

  const LatestThemeVersion: int := 1

  /** A theme. A font name is `None` when it is null, which only a deserialised file can give. */
  datatype Theme = Theme(
    version: int,
    barColor: Color,
    textColor: Color,
    textShadowColor: Color,
    titleColor: Color,
    titleShadowColor: Color,
    titleFont: Option<string>,
    titleFontStyle: FontStyle,
    titleSize: real,
    currentValueFont: Option<string>,
    currentValueFontStyle: FontStyle,
    currentValueSize: real,
    stackedColors: seq<Color>)

  /** `new GraphTheme()`: the property initialisers only. */
  function NewTheme(): (t: Theme)
    ensures t.version == LatestThemeVersion && t.stackedColors == []
    ensures t.titleFont == Some("Arial") && t.currentValueFont == Some("Arial")
  {
    Theme(LatestThemeVersion, EmptyColor, EmptyColor, EmptyColor, EmptyColor, EmptyColor,
          Some("Arial"), Bold, 7.0, Some("Arial"), Bold, 7.0, [])
  }

  function DefaultDarkTheme(): (t: Theme)
    ensures t.version == LatestThemeVersion && |t.stackedColors| == 2
  {
    Theme(LatestThemeVersion,
          Color(255, 176, 222, 255),
          Color(200, 185, 255, 70),
          Color(255, 0, 0, 0),
          Color(255, 255, 255, 255),
          Color(255, 0, 0, 0),
          Some("Arial"), Bold, 7.0, Some("Arial"), Bold, 7.0,
          [Color(255, 37, 84, 142), Color(255, 65, 144, 242)])
  }

  function DefaultLightTheme(): (t: Theme)
    ensures t.version == LatestThemeVersion && |t.stackedColors| == 2
  {
    Theme(LatestThemeVersion,
          Color(255, 0, 0, 0),
          Color(200, 255, 0, 128),
          Color(255, 234, 234, 234),
          Color(255, 0, 0, 0),
          Color(255, 214, 214, 214),
          Some("Arial"), Bold, 7.0, Some("Arial"), Bold, 7.0,
          [Color(255, 102, 102, 102), Color(255, 145, 145, 145)])
  }

  /** A point `i` steps of `steps` along the way from `a` to `b` lies between them. */
  lemma InterpolationBetween(a: int, b: int, i: int, steps: int)
    requires 0 <= i <= steps && steps > 0
    ensures var v := a as real + ((b - a) as real / steps as real) * i as real;
            (a <= b ==> a as real <= v <= b as real) && (b <= a ==> b as real <= v <= a as real)
  {
    var d := (b - a) as real / steps as real;
    assert d * steps as real == (b - a) as real;
    var v := a as real + d * i as real;
    assert b as real - v == d * (steps - i) as real;
    if a <= b {
      assert d >= 0.0;
      assert d * i as real >= 0.0;
      assert d * (steps - i) as real >= 0.0;
    } else {
      assert d <= 0.0;
      assert d * i as real <= 0.0;
      assert d * (steps - i) as real <= 0.0;
    }
  }

  /** The exact point `fromC + stepC * i` with `stepC = (toC - fromC) / steps`. */
  function StepPoint(from: int, to: int, i: int, steps: int): real
    requires steps > 0
  {
    from as real + ((to - from) as real / steps as real) * i as real
  }

  /** One channel of intermediate colour `i`: `(int)Math.Round(fromC + stepC * i)`.
      It is always a valid channel value. */
  function StepChannel(from: Channel, to: Channel, i: int, steps: int): (c: Channel)
    requires 0 <= i <= steps && steps > 0
    ensures from <= to ==> from <= c <= to
    ensures to <= from ==> to <= c <= from
  {
    var v := StepPoint(from, to, i, steps);
    InterpolationBetween(from, to, i, steps);
    assert from <= RoundHalfEven(v) <= to || to <= RoundHalfEven(v) <= from by {
      if from <= to { RoundHalfEvenBetween(from, to, v); } else { RoundHalfEvenBetween(to, from, v); }
    }
    RoundHalfEven(v)
  }

  function StepColor(from: Color, to: Color, i: int, steps: int): Color
    requires 0 <= i <= steps && steps > 0
  {
    Color(StepChannel(from.a, to.a, i, steps), StepChannel(from.r, to.r, i, steps),
          StepChannel(from.g, to.g, i, steps), StepChannel(from.b, to.b, i, steps))
  }

  /** `GetColorGradient(from, to, n)`, fully enumerated. Fewer than two colours is an
      `ArgumentException`; because the C# method is an iterator, the exception surfaces
      when the sequence is first enumerated, which the callers below take into account. */
  function GetColorGradient(from: Color, to: Color, n: int): (r: Result<seq<Color>>)
    ensures r.Err? <==> n < 2
    ensures r.Err? ==> r.fault == ArgumentFault
    ensures r.Ok? ==> |r.value| == n && r.value[0] == from && r.value[n - 1] == to
    ensures r.Ok? ==> forall i :: 0 < i < n - 1 ==> r.value[i] == StepColor(from, to, i, n - 1)
  {
    if n < 2 then Err(ArgumentFault)
    else
      var steps := n - 1;
      Ok([from] + seq(steps - 1, k requires 0 <= k < steps - 1 => StepColor(from, to, k + 1, steps)) + [to])
  }

  /** Every channel of every gradient colour lies between the two endpoint channels. */
  lemma GradientChannelsBetween(from: Color, to: Color, n: int, i: int)
    requires n >= 2 && 0 <= i < n
    ensures var c := GetColorGradient(from, to, n).value[i];
            Between(from.a, to.a, c.a) && Between(from.r, to.r, c.r)
            && Between(from.g, to.g, c.g) && Between(from.b, to.b, c.b)
  {
  }

  predicate Between(x: int, y: int, v: int) {
    (x <= y && x <= v <= y) || (y <= x && y <= v <= x)
  }

  /** Reading a gradient backwards gives the gradient between the swapped endpoints:
      both compute the same exact point before rounding. */
  lemma GradientReversed(from: Color, to: Color, n: int)
    requires n >= 2
    ensures var f := GetColorGradient(from, to, n).value;
            var g := GetColorGradient(to, from, n).value;
            |f| == |g| && forall i :: 0 <= i < n ==> g[i] == f[n - 1 - i]
  {
    var f := GetColorGradient(from, to, n).value;
    var g := GetColorGradient(to, from, n).value;
    forall i | 0 < i < n - 1
      ensures g[i] == f[n - 1 - i]
    {
      StepChannelReversed(from.a, to.a, i, n - 1);
      StepChannelReversed(from.r, to.r, i, n - 1);
      StepChannelReversed(from.g, to.g, i, n - 1);
      StepChannelReversed(from.b, to.b, i, n - 1);
    }
  }

  lemma StepChannelReversed(from: Channel, to: Channel, i: int, steps: int)
    requires 0 <= i <= steps && steps > 0
    ensures StepChannel(to, from, i, steps) == StepChannel(from, to, steps - i, steps)
  {
    StepPointReversed(from, to, i, steps);
  }

  lemma StepPointReversed(from: int, to: int, i: int, steps: int)
    requires steps > 0
    ensures StepPoint(to, from, i, steps) == StepPoint(from, to, steps - i, steps)
  {
    var d := (to - from) as real / steps as real;
    var e := (from - to) as real / steps as real;
    assert e == -d;
    assert d * steps as real == (to - from) as real;
    assert d * (steps - i) as real == d * steps as real - d * i as real;
  }

  /** `GetNthColor(total, n)`: element `n` of the gradient between the first and the last
      stacked colour. `First()` of an empty list throws before anything is enumerated; a
      negative index is refused by `ElementAt` without enumerating; otherwise the gradient's
      own exception comes first, then the index check. */
  function GetNthColor(t: Theme, total: int, n: int): (r: Result<Color>)
    ensures r.Ok? <==> |t.stackedColors| > 0 && total >= 2 && 0 <= n < total
    ensures r.Ok? ==> r.value == GetColorGradient(t.stackedColors[0], t.stackedColors[|t.stackedColors| - 1], total).value[n]
    ensures |t.stackedColors| == 0 ==> r == Err(InvalidOperation)
    ensures |t.stackedColors| > 0 && 0 <= n && total < 2 ==> r == Err(ArgumentFault)
  {
    if |t.stackedColors| == 0 then Err(InvalidOperation)
    else if n < 0 then Err(ArgumentOutOfRange)
    else
      var colors :- GetColorGradient(t.stackedColors[0], t.stackedColors[|t.stackedColors| - 1], total);
      if n < |colors| then Ok(colors[n]) else Err(ArgumentOutOfRange)
  }

  /** With two colours the gradient is just its endpoints: `GetNthColor(2, 0)` is the first
      stacked colour and `GetNthColor(2, 1)` the last. */
  lemma NthOfTwoIsEndpoint(t: Theme)
    requires |t.stackedColors| > 0
    ensures GetNthColor(t, 2, 0) == Ok(t.stackedColors[0])
    ensures GetNthColor(t, 2, 1) == Ok(t.stackedColors[|t.stackedColors| - 1])
  {
  }

  /** `source.CopyTo(target)`: every property except the version is taken from `source`,
      the stacked colours as a new list with the same elements. */
  function CopyTo(source: Theme, target: Theme): (r: Theme)
    ensures r.version == target.version
    ensures r.barColor == source.barColor && r.textColor == source.textColor
    ensures r.textShadowColor == source.textShadowColor && r.titleColor == source.titleColor
    ensures r.titleShadowColor == source.titleShadowColor
    ensures r.titleFont == source.titleFont && r.titleFontStyle == source.titleFontStyle
    ensures r.titleSize == source.titleSize
    ensures r.currentValueFont == source.currentValueFont
    ensures r.currentValueFontStyle == source.currentValueFontStyle
    ensures r.currentValueSize == source.currentValueSize
    ensures r.stackedColors == source.stackedColors
  {
    source.(version := target.version)
  }

  /** Copying keeps nothing of the target but its version, so the last copy wins. */
  lemma CopyToOverwrites(a: Theme, b: Theme, target: Theme)
    ensures CopyTo(a, CopyTo(b, target)) == CopyTo(a, target)
    ensures CopyTo(a, target).version == target.version
    ensures CopyTo(a, target).(version := a.version) == a
  {
  }

  /** `Upgrade()`: a version-0 theme moves to version 1 and reports a change; every other
      version, including negative ones, is left alone. */
  function Upgrade(t: Theme): (r: (Theme, bool))
    ensures r.1 <==> t.version == 0
    ensures r.1 ==> r.0 == t.(version := LatestThemeVersion)
    ensures !r.1 ==> r.0 == t
  {
    if LatestThemeVersion > t.version then
      match t.version
      case 0 => (t.(version := LatestThemeVersion), true)
      case _ => (t, false)
    else (t, false)
  }

  /** The upgrade is idempotent. */
  lemma UpgradeIdempotent(t: Theme)
    ensures Upgrade(Upgrade(t).0) == (Upgrade(t).0, false)
  {
  }

  /** `TitleFont.Equals(theme)` compares a string with a `GraphTheme`; objects of different
      types are never equal. */
  predicate EqualsTheme<T>(value: T, other: Theme) {
    false
  }

  predicate DiffersFromBoth(c: Color, light: Color, dark: Color) {
    c != light && c != dark
  }

  /** `IsCustom(theme)` as written. The font test calls `Equals` on the title font, so a
      null font raises `NullReferenceException` once every colour matches a built-in theme. */
  function IsCustom(t: Theme): (r: Result<bool>)
    ensures r.Err? ==> r.fault == NullReference
  {
    var light := DefaultLightTheme();
    var dark := DefaultDarkTheme();
    if DiffersFromBoth(t.barColor, light.barColor, dark.barColor) then Ok(true)
    else if DiffersFromBoth(t.textColor, light.textColor, dark.textColor) then Ok(true)
    else if DiffersFromBoth(t.textShadowColor, light.textShadowColor, dark.textShadowColor) then Ok(true)
    else if DiffersFromBoth(t.titleColor, light.titleColor, dark.titleColor) then Ok(true)
    else if DiffersFromBoth(t.titleShadowColor, light.titleShadowColor, dark.titleShadowColor) then Ok(true)
    else if t.titleFont.None? then Err(NullReference)
    else if !EqualsTheme(t.titleFont.value, light) && !EqualsTheme(t.titleFont.value, dark) then Ok(true)
    else
      // The title-size and stacked-colour comparisons that follow in the source are never
      // reached: the font test above always returns.
      Ok(true)
  }

  /** As written, `IsCustom` never answers false: every theme with a title font is custom,
      the two built-in themes included, and a theme without one either is custom by its
      colours or raises. */
  lemma IsCustomNeverFalse(t: Theme)
    ensures IsCustom(t) != Ok(false)
    ensures t.titleFont.Some? ==> IsCustom(t) == Ok(true)
    ensures IsCustom(t).Err? <==>
              && t.titleFont.None?
              && !DiffersFromBoth(t.barColor, DefaultLightTheme().barColor, DefaultDarkTheme().barColor)
              && !DiffersFromBoth(t.textColor, DefaultLightTheme().textColor, DefaultDarkTheme().textColor)
              && !DiffersFromBoth(t.textShadowColor, DefaultLightTheme().textShadowColor, DefaultDarkTheme().textShadowColor)
              && !DiffersFromBoth(t.titleColor, DefaultLightTheme().titleColor, DefaultDarkTheme().titleColor)
              && !DiffersFromBoth(t.titleShadowColor, DefaultLightTheme().titleShadowColor, DefaultDarkTheme().titleShadowColor)
  {
  }

  lemma BuiltInThemesCountAsCustom()
    ensures IsCustom(DefaultDarkTheme()) == Ok(true)
    ensures IsCustom(DefaultLightTheme()) == Ok(true)
  {
  }
}
