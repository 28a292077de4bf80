/**
  The presentation helpers of the `ArticleAnalysis` component: the risk
  level's badge variant, colours, icon and badge text, the labels of the
  bias and writing-style meters, and the gate of the political card. All of
  them are total: an unexpected value falls into a default branch.
*/
module ArticleAnalysis {
  import opened Wrappers

  // ---------------------------------------------------------------------
  // Risk level

  datatype BadgeVariant = Success | Warning | Destructive | Default

  datatype Icon = CheckCircle | AlertCircle | Info

  /** The string the component passes as the badge's `variant` prop. */
  function VariantName(v: BadgeVariant): string {
    match v
    case Success => "success"
    case Warning => "warning"
    case Destructive => "destructive"
    case Default => "default"
  }

  /** The three levels the prompt asks the model for. */
  predicate KnownRiskLevel(level: string) {
    level == "low" || level == "medium" || level == "high"
  }

  /** `getRiskBadgeVariant`. */
  function RiskBadgeVariant(level: string): (v: BadgeVariant)
    ensures v == Success <==> level == "low"
    ensures v == Warning <==> level == "medium"
    ensures v == Destructive <==> level == "high"
    ensures v == Default <==> !KnownRiskLevel(level)
  {
    match level
    case "low" => Success
    case "medium" => Warning
    case "high" => Destructive
    case _ => Default
  }

  /** `getRiskTextColor`: the variant's text class, or the muted one. */
  function RiskTextColor(level: string): (c: string)
    ensures KnownRiskLevel(level) ==> c == "text-" + VariantName(RiskBadgeVariant(level))
    ensures !KnownRiskLevel(level) ==> c == "text-muted-foreground"
  {
    match level
    case "low" => "text-success"
    case "medium" => "text-warning"
    case "high" => "text-destructive"
    case _ => "text-muted-foreground"
  }

  /** `getRiskBgColor`: the variant's background class at 10%, or the muted one. */
  function RiskBgColor(level: string): (c: string)
    ensures KnownRiskLevel(level) ==> c == "bg-" + VariantName(RiskBadgeVariant(level)) + "/10"
    ensures !KnownRiskLevel(level) ==> c == "bg-muted/10"
  {
    match level
    case "low" => "bg-success/10"
    case "medium" => "bg-warning/10"
    case "high" => "bg-destructive/10"
    case _ => "bg-muted/10"
  }

  /** `getRiskIcon`: a check for the safe level, a warning sign for the other two. */
  function RiskIcon(level: string): (i: Icon)
    ensures i == CheckCircle <==> RiskBadgeVariant(level) == Success
    ensures i == AlertCircle <==> RiskBadgeVariant(level) == Warning || RiskBadgeVariant(level) == Destructive
    ensures i == Info <==> RiskBadgeVariant(level) == Default
  {
    match level
    case "low" => CheckCircle
    case "medium" => AlertCircle
    case "high" => AlertCircle
    case _ => Info
  }

  /** A level in other casing is unknown to all four mappers. */
  lemma RiskLevelIsCaseSensitive()
    ensures RiskBadgeVariant("High") == Default && RiskIcon("High") == Info
    ensures RiskTextColor("High") == "text-muted-foreground" && RiskBgColor("High") == "bg-muted/10"
  {
  }

  /** ASCII `toUpperCase` of one character. */
  function AsciiUpper(c: char): (u: char)
    ensures 'a' <= c <= 'z' ==> 'A' <= u <= 'Z' && u as int == c as int - 32
    ensures !('a' <= c <= 'z') ==> u == c
  {
    if 'a' <= c <= 'z' then (c as int - 32) as char else c
  }

  /** `s.toUpperCase()` restricted to ASCII letters. */
  function ToUpperAscii(s: string): (r: string)
    ensures |r| == |s|
    ensures forall i :: 0 <= i < |s| ==> r[i] == AsciiUpper(s[i])
  {
    if s == [] then [] else [AsciiUpper(s[0])] + ToUpperAscii(s[1..])
  }

  /**
    The badge text `{result.risk_level.toUpperCase()} RISK`; `None` when
    `risk_level` is missing and `toUpperCase` throws during rendering.
  */
  function RiskBadgeText(level: Option<string>): (r: Option<string>)
    ensures r.Some? <==> level.Some?
    ensures r.Some? ==> |r.value| == |level.value| + 5 && r.value[|level.value|..] == " RISK"
    ensures r.Some? ==> forall i :: 0 <= i < |level.value| ==> r.value[i] == AsciiUpper(level.value[i])
  {
    match level
    case None => None
    case Some(l) => Some(ToUpperAscii(l) + " RISK")
  }

  /** No lower-case ASCII letter survives, and upper-casing again changes nothing. */
  lemma ToUpperAsciiIdempotent(s: string)
    ensures forall i :: 0 <= i < |s| ==> !('a' <= ToUpperAscii(s)[i] <= 'z')
    ensures ToUpperAscii(ToUpperAscii(s)) == ToUpperAscii(s)
  {
    var u := ToUpperAscii(s);
    assert forall i :: 0 <= i < |s| ==> ToUpperAscii(u)[i] == u[i];
  }

  /** The known levels, and an unknown one, as the badge shows them. */
  lemma RiskBadgeTextExamples()
    ensures RiskBadgeText(Some("medium")) == Some("MEDIUM RISK")
    ensures RiskBadgeText(Some("unknown")) == Some("UNKNOWN RISK")
    ensures RiskBadgeText(None) == None
  {
    UpperOf("medium", "MEDIUM");
    assert "MEDIUM" + " RISK" == "MEDIUM RISK";
    UpperOf("unknown", "UNKNOWN");
    assert "UNKNOWN" + " RISK" == "UNKNOWN RISK";
  }

  /** Upper-casing `s` gives `t` when it does so character by character. */
  lemma UpperOf(s: string, t: string)
    requires |s| == |t| && forall i :: 0 <= i < |s| ==> AsciiUpper(s[i]) == t[i]
    ensures ToUpperAscii(s) == t
  {
  }

  // ---------------------------------------------------------------------
  // Political card

  /** `result.article_type === "political"`, with `None` for a missing field. */
  function IsPolitical(articleType: Option<string>): (shown: bool)
    ensures shown <==> articleType.Some? && articleType.value == "political"
  {
    articleType == Some("political")
  }

  /** The card is shown for exactly one value: not for other casing, nor for longer text containing it. */
  lemma PoliticalCardExactMatch(articleType: string)
    ensures IsPolitical(Some(articleType)) <==> articleType == "political"
    ensures !IsPolitical(None) && !IsPolitical(Some("Political")) && !IsPolitical(Some("political analysis"))
  {
  }

  // ---------------------------------------------------------------------
  // Meter labels

  /**
    A JavaScript number as the meters receive it; `undefined` (a score the
    model left out) compares like `NaN`.
  */
  datatype JsNumber = Finite(value: real) | NegInfinity | PosInfinity | NaN

  /** `score < bound`; every comparison with `NaN` is false. */
  predicate Below(score: JsNumber, bound: real): (below: bool)
    ensures below <==> score.NegInfinity? || (score.Finite? && score.value < bound)
  {
    match score
    case Finite(v) => v < bound
    case NegInfinity => true
    case PosInfinity => false
    case NaN => false
  }

  const BiasThresholds: seq<real> := [30.0, 45.0, 55.0, 70.0]
  const BiasBands: seq<string> := ["Left-Leaning", "Center-Left", "Center", "Center-Right", "Right-Leaning"]

  const StyleThresholds: seq<real> := [30.0, 50.0, 70.0]
  const StyleBands: seq<string> := ["Opinion-Heavy", "Mixed", "Mostly Factual", "Highly Factual"]

  /** Thresholds listed in strictly increasing order. */
  predicate Ascending(ts: seq<real>) {
    forall i, j :: 0 <= i < j < |ts| ==> ts[i] < ts[j]
  }

  /** How many thresholds the value has reached: the index of its band. */
  function CountReached(ts: seq<real>, x: real): (n: nat)
    ensures n <= |ts|
  {
    if ts == [] then 0 else (if ts[0] <= x then 1 else 0) + CountReached(ts[1..], x)
  }

  /** A larger value has reached at least as many thresholds. */
  lemma {:induction false} CountReachedMonotone(ts: seq<real>, x: real, y: real)
    requires x <= y
    ensures CountReached(ts, x) <= CountReached(ts, y)
  {
    if ts != [] {
      CountReachedMonotone(ts[1..], x, y);
    }
  }

  /**
    With ascending thresholds, a value is in band `k` exactly when it has
    reached threshold `k - 1` and not threshold `k`: each threshold belongs
    to the band above it.
  */
  lemma {:induction false} BandBounds(ts: seq<real>, x: real, k: nat)
    requires Ascending(ts) && k <= |ts|
    ensures CountReached(ts, x) == k <==> (k == 0 || ts[k - 1] <= x) && (k == |ts| || x < ts[k])
  {
    if ts != [] {
      assert Ascending(ts[1..]);
      if k == 0 {
        if ts[0] > x {
          BandBounds(ts[1..], x, 0);
          CountReachedMonotone(ts[1..], x, x);
          AllAboveReachNone(ts[1..], x, ts[0]);
        }
      } else {
        BandBounds(ts[1..], x, k - 1);
        if ts[0] > x {
          AllAboveReachNone(ts[1..], x, ts[0]);
        }
      }
    }
  }

  /** When every threshold lies above `x`, none has been reached. */
  lemma {:induction false} AllAboveReachNone(ts: seq<real>, x: real, floor: real)
    requires x < floor && forall i :: 0 <= i < |ts| ==> floor < ts[i]
    ensures CountReached(ts, x) == 0
  {
    if ts != [] {
      AllAboveReachNone(ts[1..], x, floor);
    }
  }

  /** `getBiasLabel`. */
  function BiasLabel(score: JsNumber): (text: string)
    ensures text in BiasBands
    ensures score.NaN? ==> text == "Right-Leaning"
    ensures score.PosInfinity? ==> text == "Right-Leaning"
    ensures score.NegInfinity? ==> text == "Left-Leaning"
  {
    if Below(score, 30.0) then "Left-Leaning"
    else if Below(score, 45.0) then "Center-Left"
    else if Below(score, 55.0) then "Center"
    else if Below(score, 70.0) then "Center-Right"
    else "Right-Leaning"
  }

  /** `getStyleLabel`. */
  function StyleLabel(score: JsNumber): (text: string)
    ensures text in StyleBands
    ensures score.NaN? ==> text == "Highly Factual"
    ensures score.PosInfinity? ==> text == "Highly Factual"
    ensures score.NegInfinity? ==> text == "Opinion-Heavy"
  {
    if Below(score, 30.0) then "Opinion-Heavy"
    else if Below(score, 50.0) then "Mixed"
    else if Below(score, 70.0) then "Mostly Factual"
    else "Highly Factual"
  }

  /** The bias label of a finite score is the band of the thresholds it has reached. */
  lemma BiasLabelIsBand(score: real)
    ensures BiasLabel(Finite(score)) == BiasBands[CountReached(BiasThresholds, score)]
  {
    assert Ascending(BiasThresholds);
    var k := if score < 30.0 then 0 else if score < 45.0 then 1 else if score < 55.0 then 2
             else if score < 70.0 then 3 else 4;
    BandBounds(BiasThresholds, score, k);
  }

  /** The writing-style label of a finite score is the band of the thresholds it has reached. */
  lemma StyleLabelIsBand(score: real)
    ensures StyleLabel(Finite(score)) == StyleBands[CountReached(StyleThresholds, score)]
  {
    assert Ascending(StyleThresholds);
    var k := if score < 30.0 then 0 else if score < 50.0 then 1 else if score < 70.0 then 2 else 3;
    BandBounds(StyleThresholds, score, k);
  }

  /**
    The bias label of a finite score is band `k` exactly when the score
    lies in `[30, 45, 55, 70]`'s `k`-th interval, lower bound included.
  */
  lemma BiasLabelPartition(score: real, k: nat)
    requires k < |BiasBands|
    ensures BiasLabel(Finite(score)) == BiasBands[k] <==>
              (k == 0 || BiasThresholds[k - 1] <= score) && (k == |BiasThresholds| || score < BiasThresholds[k])
  {
    var n := CountReached(BiasThresholds, score);
    BiasLabelIsBand(score);
    assert Ascending(BiasThresholds);
    BandBounds(BiasThresholds, score, k);
    assert BiasBands[n] == BiasBands[k] ==> n == k;
  }

  /** The same for the writing-style label and `[30, 50, 70]`. */
  lemma StyleLabelPartition(score: real, k: nat)
    requires k < |StyleBands|
    ensures StyleLabel(Finite(score)) == StyleBands[k] <==>
              (k == 0 || StyleThresholds[k - 1] <= score) && (k == |StyleThresholds| || score < StyleThresholds[k])
  {
    var n := CountReached(StyleThresholds, score);
    StyleLabelIsBand(score);
    assert Ascending(StyleThresholds);
    BandBounds(StyleThresholds, score, k);
    assert StyleBands[n] == StyleBands[k] ==> n == k;
  }

  /** Each boundary score belongs to the higher band. */
  lemma BoundariesGoUp()
    ensures BiasLabel(Finite(30.0)) == "Center-Left" && BiasLabel(Finite(45.0)) == "Center"
    ensures BiasLabel(Finite(55.0)) == "Center-Right" && BiasLabel(Finite(70.0)) == "Right-Leaning"
    ensures StyleLabel(Finite(30.0)) == "Mixed" && StyleLabel(Finite(50.0)) == "Mostly Factual"
    ensures StyleLabel(Finite(70.0)) == "Highly Factual"
  {
  }

  /** Where a label stands on its meter: its position in the list of bands. */
  function Position(bands: seq<string>, text: string): (k: nat)
    requires text in bands
    ensures k < |bands| && bands[k] == text && text !in bands[..k]
  {
    if bands[0] == text then 0
    else
      assert bands == [bands[0]] + bands[1..];
      var k := Position(bands[1..], text);
      assert bands[..k + 1] == [bands[0]] + bands[1..][..k];
      k + 1
  }

  /** No two bands of a meter share a label. */
  predicate Distinct(bands: seq<string>) {
    forall i, j :: 0 <= i < j < |bands| ==> bands[i] != bands[j]
  }

  /** In a list of distinct bands, band `n` stands at position `n`. */
  lemma PositionOfBand(bands: seq<string>, n: nat)
    requires Distinct(bands) && n < |bands|
    ensures Position(bands, bands[n]) == n
  {
    var k := Position(bands, bands[n]);
    assert bands[k] == bands[n];
  }

  /** A higher score never gets a label further left. */
  lemma BiasLabelMonotone(s1: real, s2: real)
    requires s1 <= s2
    ensures BiasLabel(Finite(s2)) in BiasBands[CountReached(BiasThresholds, s1)..]
    ensures Position(BiasBands, BiasLabel(Finite(s1))) <= Position(BiasBands, BiasLabel(Finite(s2)))
  {
    CountReachedMonotone(BiasThresholds, s1, s2);
    BiasLabelIsBand(s1);
    BiasLabelIsBand(s2);
    assert Distinct(BiasBands);
    PositionOfBand(BiasBands, CountReached(BiasThresholds, s1));
    PositionOfBand(BiasBands, CountReached(BiasThresholds, s2));
  }

  /** A higher score never gets a label further towards opinion. */
  lemma StyleLabelMonotone(s1: real, s2: real)
    requires s1 <= s2
    ensures StyleLabel(Finite(s2)) in StyleBands[CountReached(StyleThresholds, s1)..]
    ensures Position(StyleBands, StyleLabel(Finite(s1))) <= Position(StyleBands, StyleLabel(Finite(s2)))
  {
    CountReachedMonotone(StyleThresholds, s1, s2);
    StyleLabelIsBand(s1);
    StyleLabelIsBand(s2);
    assert Distinct(StyleBands);
    PositionOfBand(StyleBands, CountReached(StyleThresholds, s1));
    PositionOfBand(StyleBands, CountReached(StyleThresholds, s2));
  }
}
