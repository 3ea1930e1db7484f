/**
 * The normalised scoreboard state (class `ScoreboardOCRData`): thirteen
 * private string fields behind seventeen public properties, the numeric
 * coercion its setters apply, and the JSON document built from it.
 */
module ScoreboardData {
  import opened Wrappers
  import opened DotNetText

  /** Text that `int.TryParse` accepts. */
  predicate Numeric(s: string) {
    TryParseInt32(s).Some?
  }

  /**
   * `checkNumericValue`: `"0"` for `null`, for a blank string and for text
   * that `int.TryParse` rejects; otherwise the input itself, untrimmed.
   */
  function CheckNumericValue(val: Option<string>): (r: string)
    ensures Numeric(r)
    ensures val.Some? && Numeric(val.value) ==> r == val.value
    ensures val.None? || !Numeric(val.value) ==> r == "0"
  {
    ZeroParses();
    if val.None? || Trim(val.value) == "" then
      if val.Some? then WhiteSpaceNotParsable(val.value); "0" else "0"
    else if TryParseInt32(val.value).None? then "0"
    else val.value
  }

  /** A blank value (in the sense of `String.Trim()`) becomes `"0"`. */
  lemma CheckNumericValueBlank(val: string)
    requires Trim(val) == ""
    ensures CheckNumericValue(Some(val)) == "0"
  {
  }

  /** Text `int.TryParse` accepts is stored as it came, surrounding white space and sign included. */
  lemma CheckNumericValueKeepsText(t: IntegerText)
    requires WellFormed(t) && MinInt32 <= Value(t) <= MaxInt32
    ensures CheckNumericValue(Some(Text(t))) == Text(t)
  {
    TryParseComplete(t);
  }

  lemma CheckNumericValueIdempotent(val: Option<string>)
    ensures CheckNumericValue(Some(CheckNumericValue(val))) == CheckNumericValue(val)
  {
  }

  /** The `ShotClock` / `PlayClock` setter: `""` for `null`, otherwise the trimmed value. */
  function ShotClockText(value: Option<string>): (r: string)
    ensures IsTrimmed(r)
    ensures value.Some? && IsTrimmed(value.value) ==> r == value.value
  {
    if value.None? then ""
    else if IsTrimmed(value.value) then TrimOfTrimmed(value.value); Trim(value.value)
    else Trim(value.value)
  }

  /** The value view of a `ScoreboardOCRData` object: its thirteen backing fields. */
  datatype Fields = Fields(
    period: string, scoreAway: string, scoreHome: string,
    foulsAway: string, foulsHome: string,
    timeoutsAway: string, timeoutsHome: string,
    shotClock: string, down: string, toGo: string, ballOn: string,
    possession: string, gameClock: string)

  /** The field initialisers of `ScoreboardOCRData`. */
  const Defaults := Fields("0", "0", "0", "0", "0", "0", "0", "0", "0", "0", "0", "", "00:00")

  /** Every numerically coerced field holds text `int.TryParse` accepts. */
  predicate NumericInvariant(f: Fields) {
    Numeric(f.period) && Numeric(f.scoreAway) && Numeric(f.scoreHome)
    && Numeric(f.foulsAway) && Numeric(f.foulsHome)
    && Numeric(f.timeoutsAway) && Numeric(f.timeoutsHome)
    && Numeric(f.down) && Numeric(f.toGo) && Numeric(f.ballOn)
  }

  lemma DefaultsSatisfyInvariant()
    ensures NumericInvariant(Defaults)
  {
    ZeroParses();
  }

  /** `PossessionHome`: `"1"` exactly when the possession code is `"H"`, otherwise `""`. */
  function HomeFlag(possession: string): (r: string)
    ensures r == "1" <==> possession == "H"
    ensures r == "1" || r == ""
  {
    if possession == "H" then "1" else ""
  }

  /** `PossessionAway`: `"1"` exactly when the possession code is `"V"`, otherwise `""`. */
  function AwayFlag(possession: string): (r: string)
    ensures r == "1" <==> possession == "V"
    ensures r == "1" || r == ""
  {
    if possession == "V" then "1" else ""
  }

  lemma FlagsExclusive(possession: string)
    ensures !(HomeFlag(possession) == "1" && AwayFlag(possession) == "1")
  {
  }

  /**
   * The values of the seventeen public properties, in declaration order:
   * GameClock, Period, Quarter, ShotClock, PlayClock, ScoreAway, ScoreHome,
   * FoulsAway, FoulsHome, TimeoutsAway, TimeoutsHome, Downs, Yards, LOS,
   * Possession, PossessionAway, PossessionHome. This is what the JSON
   * serializer sees.
   */
  function PropertyValues(f: Fields): (vs: seq<string>)
    ensures |vs| == 17
    ensures vs[1] == vs[2] && vs[3] == vs[4]
    ensures !(vs[15] == "1" && vs[16] == "1")
  {
    [f.gameClock, f.period, f.period, f.shotClock, f.shotClock,
     f.scoreAway, f.scoreHome, f.foulsAway, f.foulsHome,
     f.timeoutsAway, f.timeoutsHome, f.down, f.toGo, f.ballOn,
     f.possession, AwayFlag(f.possession), HomeFlag(f.possession)]
  }

  /** The property values determine the state: no two states look alike to the serializer. */
  lemma PropertyValuesInjective(f: Fields, g: Fields)
    requires PropertyValues(f) == PropertyValues(g)
    ensures f == g
  {
    var vf, vg := PropertyValues(f), PropertyValues(g);
    assert vf[0] == vg[0] && vf[1] == vg[1] && vf[3] == vg[3] && vf[5] == vg[5] && vf[6] == vg[6];
    assert vf[7] == vg[7] && vf[8] == vg[8] && vf[9] == vg[9] && vf[10] == vg[10];
    assert vf[11] == vg[11] && vf[12] == vg[12] && vf[13] == vg[13] && vf[14] == vg[14];
  }

  const JsonPrefix := "{\"type\":\"ocr\",\"values\":"
  const JsonSuffix := "}\n"

  /** Strips the `ocr` envelope: the inverse of the wrapping in `JsonDocument`. */
  function JsonValues(json: string): (r: Option<string>)
    ensures r.Some? ==> json == JsonPrefix + r.value + JsonSuffix
  {
    if |JsonPrefix| + |JsonSuffix| <= |json| && json[..|JsonPrefix|] == JsonPrefix
       && json[|json| - |JsonSuffix|..] == JsonSuffix
    then
      var body := json[|JsonPrefix|..|json| - |JsonSuffix|];
      assert json == json[..|JsonPrefix|] + body + json[|json| - |JsonSuffix|..];
      Some(body)
    else None
  }

  /**
   * `ToJson`: the serialization of the properties wrapped in the `ocr`
   * envelope. `serialize` stands for `JsonConvert.SerializeObject` with
   * `Formatting.None`, applied to the property values.
   */
  function JsonDocument(f: Fields, serialize: seq<string> -> string): (json: string)
    ensures JsonValues(json) == Some(serialize(PropertyValues(f)))
  {
    var body := serialize(PropertyValues(f));
    var json := JsonPrefix + body + JsonSuffix;
    assert json[..|JsonPrefix|] == JsonPrefix;
    assert json[|json| - |JsonSuffix|..] == JsonSuffix;
    assert json[|JsonPrefix|..|json| - |JsonSuffix|] == body;
    json
  }

  /** With a serializer that tells states apart, two documents are equal exactly when the states are. */
  lemma JsonDocumentDetectsChange(f: Fields, g: Fields, serialize: seq<string> -> string)
    requires forall a, b :: serialize(a) == serialize(b) ==> a == b
    ensures JsonDocument(f, serialize) == JsonDocument(g, serialize) <==> f == g
  {
    if JsonDocument(f, serialize) == JsonDocument(g, serialize) {
      PropertyValuesInjective(f, g);
    }
  }

  /** `ScoreboardOCRData`: the long-lived state object the decoders write through its property setters. */
  class ScoreboardOCRData {
    var period: string
    var scoreAway: string
    var scoreHome: string
    var foulsAway: string
    var foulsHome: string
    var timeoutsAway: string
    var timeoutsHome: string
    var shotClock: string
    var down: string
    var toGo: string
    var ballOn: string
    var possession: string
    var gameClock: string

    function Snapshot(): Fields
      reads this
    {
      Fields(period, scoreAway, scoreHome, foulsAway, foulsHome, timeoutsAway, timeoutsHome,
             shotClock, down, toGo, ballOn, possession, gameClock)
    }

    /** Every coerced field parses, and the shot clock never has white space at either end. */
    predicate Valid()
      reads this
    {
      NumericInvariant(Snapshot()) && IsTrimmed(shotClock)
    }

    constructor ()
      ensures Snapshot() == Defaults
      ensures Valid()
    {
      period, scoreAway, scoreHome := "0", "0", "0";
      foulsAway, foulsHome, timeoutsAway, timeoutsHome := "0", "0", "0", "0";
      shotClock, down, toGo, ballOn := "0", "0", "0", "0";
      possession, gameClock := "", "00:00";
      DefaultsSatisfyInvariant();
    }

    // Getters

    function GameClock(): string
      reads this
    {
      gameClock
    }

    function Period(): (r: string)
      reads this
      ensures Valid() ==> Numeric(r)
    {
      period
    }

    /** `Quarter` reads the same field as `Period`. */
    function Quarter(): (r: string)
      reads this
      ensures r == Period()
    {
      period
    }

    function ShotClock(): (r: string)
      reads this
      ensures Valid() ==> IsTrimmed(r)
    {
      shotClock
    }

    /** `PlayClock` reads the same field as `ShotClock`. */
    function PlayClock(): (r: string)
      reads this
      ensures r == ShotClock()
    {
      shotClock
    }

    function ScoreAway(): (r: string)
      reads this
      ensures Valid() ==> Numeric(r)
    {
      scoreAway
    }

    function ScoreHome(): (r: string)
      reads this
      ensures Valid() ==> Numeric(r)
    {
      scoreHome
    }

    function FoulsAway(): (r: string)
      reads this
      ensures Valid() ==> Numeric(r)
    {
      foulsAway
    }

    function FoulsHome(): (r: string)
      reads this
      ensures Valid() ==> Numeric(r)
    {
      foulsHome
    }

    function TimeoutsAway(): (r: string)
      reads this
      ensures Valid() ==> Numeric(r)
    {
      timeoutsAway
    }

    function TimeoutsHome(): (r: string)
      reads this
      ensures Valid() ==> Numeric(r)
    {
      timeoutsHome
    }

    function Downs(): (r: string)
      reads this
      ensures Valid() ==> Numeric(r)
    {
      down
    }

    function Yards(): (r: string)
      reads this
      ensures Valid() ==> Numeric(r)
    {
      toGo
    }

    function LOS(): (r: string)
      reads this
      ensures Valid() ==> Numeric(r)
    {
      ballOn
    }

    function Possession(): string
      reads this
    {
      possession
    }

    function PossessionAway(): (r: string)
      reads this
      ensures r == "1" <==> Possession() == "V"
      ensures r == "1" || r == ""
    {
      AwayFlag(possession)
    }

    function PossessionHome(): (r: string)
      reads this
      ensures r == "1" <==> Possession() == "H"
      ensures r == "1" || r == ""
    {
      HomeFlag(possession)
    }

    /** The JSON document the bridge publishes. */
    function ToJson(serialize: seq<string> -> string): (json: string)
      reads this
      ensures JsonValues(json) == Some(serialize(PropertyValues(Snapshot())))
    {
      JsonDocument(Snapshot(), serialize)
    }

    // Setters: each writes its own backing field and nothing else.

    /** The `GameClock` setter stores the text verbatim. */
    method SetGameClock(value: string)
      modifies this
      ensures Snapshot() == old(Snapshot()).(gameClock := value)
      ensures old(Valid()) ==> Valid()
    {
      gameClock := value;
    }

    method SetPeriod(value: Option<string>)
      modifies this
      ensures Snapshot() == old(Snapshot()).(period := CheckNumericValue(value))
      ensures old(Valid()) ==> Valid()
    {
      period := CheckNumericValue(value);
    }

    /** `Quarter` writes the same field as `Period`. */
    method SetQuarter(value: Option<string>)
      modifies this
      ensures Snapshot() == old(Snapshot()).(period := CheckNumericValue(value))
      ensures old(Valid()) ==> Valid()
    {
      period := CheckNumericValue(value);
    }

    /** The `ShotClock` setter trims but does not coerce. */
    method SetShotClock(value: Option<string>)
      modifies this
      ensures Snapshot() == old(Snapshot()).(shotClock := ShotClockText(value))
      ensures old(Valid()) ==> Valid()
    {
      if value.None? {
        shotClock := "";
      } else {
        shotClock := Trim(value.value);
      }
    }

    /** `PlayClock` writes the same field as `ShotClock`. */
    method SetPlayClock(value: Option<string>)
      modifies this
      ensures Snapshot() == old(Snapshot()).(shotClock := ShotClockText(value))
      ensures old(Valid()) ==> Valid()
    {
      if value.None? {
        shotClock := "";
      } else {
        shotClock := Trim(value.value);
      }
    }

    method SetScoreAway(value: Option<string>)
      modifies this
      ensures Snapshot() == old(Snapshot()).(scoreAway := CheckNumericValue(value))
      ensures old(Valid()) ==> Valid()
    {
      scoreAway := CheckNumericValue(value);
    }

    method SetScoreHome(value: Option<string>)
      modifies this
      ensures Snapshot() == old(Snapshot()).(scoreHome := CheckNumericValue(value))
      ensures old(Valid()) ==> Valid()
    {
      scoreHome := CheckNumericValue(value);
    }

    method SetFoulsAway(value: Option<string>)
      modifies this
      ensures Snapshot() == old(Snapshot()).(foulsAway := CheckNumericValue(value))
      ensures old(Valid()) ==> Valid()
    {
      foulsAway := CheckNumericValue(value);
    }

    method SetFoulsHome(value: Option<string>)
      modifies this
      ensures Snapshot() == old(Snapshot()).(foulsHome := CheckNumericValue(value))
      ensures old(Valid()) ==> Valid()
    {
      foulsHome := CheckNumericValue(value);
    }

    method SetTimeoutsAway(value: Option<string>)
      modifies this
      ensures Snapshot() == old(Snapshot()).(timeoutsAway := CheckNumericValue(value))
      ensures old(Valid()) ==> Valid()
    {
      timeoutsAway := CheckNumericValue(value);
    }

    method SetTimeoutsHome(value: Option<string>)
      modifies this
      ensures Snapshot() == old(Snapshot()).(timeoutsHome := CheckNumericValue(value))
      ensures old(Valid()) ==> Valid()
    {
      timeoutsHome := CheckNumericValue(value);
    }

    method SetDowns(value: Option<string>)
      modifies this
      ensures Snapshot() == old(Snapshot()).(down := CheckNumericValue(value))
      ensures old(Valid()) ==> Valid()
    {
      down := CheckNumericValue(value);
    }

    method SetYards(value: Option<string>)
      modifies this
      ensures Snapshot() == old(Snapshot()).(toGo := CheckNumericValue(value))
      ensures old(Valid()) ==> Valid()
    {
      toGo := CheckNumericValue(value);
    }

    method SetLOS(value: Option<string>)
      modifies this
      ensures Snapshot() == old(Snapshot()).(ballOn := CheckNumericValue(value))
      ensures old(Valid()) ==> Valid()
    {
      ballOn := CheckNumericValue(value);
    }

    /** The `Possession` setter stores the code without validation. */
    method SetPossession(value: string)
      modifies this
      ensures Snapshot() == old(Snapshot()).(possession := value)
      ensures old(Valid()) ==> Valid()
    {
      possession := value;
    }
  }
}
