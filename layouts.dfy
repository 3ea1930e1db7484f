/**
 * The handler table built by `InitializeRegexHandlers`: two fixed-width
 * patterns, `F` (full scoreboard frame) and `C` (clock frame), each with the
 * setters its handler calls. The patterns are
 *   F(.{10})(.{2})(.{1})(.{10})(.{2})(.{1})(.{1})(.{2})(.{2})(.{1})
 *   C(.{5})(.{1})(.{2})
 * and are matched as `Regex.Match` does: unanchored, leftmost, with `.`
 * matching any character except a line feed.
 */
module Layouts {
  import opened Wrappers
  import opened DotNetText
  import opened ScoreboardData

  datatype Layout = Full | Clock

  /** The handler table, in the order `TransformToScoreboardData` tries it. */
  const HandlerTable: seq<Layout> := [Full, Clock]

  function Tag(l: Layout): char {
    match l
    case Full => 'F'
    case Clock => 'C'
  }

  /** The widths of the capture groups, in order. */
  function Widths(l: Layout): seq<nat> {
    match l
    case Full => [10, 2, 1, 10, 2, 1, 1, 2, 2, 1]
    case Clock => [5, 1, 2]
  }

  /**
   * Where each group starts, counted from the tag, followed by where the
   * match ends; consecutive cuts are one group's width apart.
   */
  function Cuts(l: Layout): (cs: seq<nat>)
    ensures |cs| == |Widths(l)| + 1 && cs[0] == 1
    ensures forall k {:trigger Widths(l)[k]} :: 0 <= k < |Widths(l)| ==> cs[k] + Widths(l)[k] == cs[k + 1]
    ensures forall k, m :: 0 <= k <= m < |cs| ==> cs[k] <= cs[m]
  {
    match l
    case Full => [1, 11, 13, 14, 24, 26, 27, 28, 30, 32, 33]
    case Clock => [1, 6, 7, 9]
  }

  /** The length of a whole match: the tag followed by the groups. */
  function Length(l: Layout): (n: nat)
    ensures n == match l case Full => 33 case Clock => 9
  {
    Cuts(l)[|Widths(l)|]
  }

  /** The pattern of `l` matches `data` starting at position `i`. */
  predicate MatchesAt(l: Layout, data: string, i: nat) {
    i + Length(l) <= |data| && data[i] == Tag(l) && '\n' !in data[i + 1..i + Length(l)]
  }

  /**
   * `MatchesAt` is the pattern read character by character: the tag, then one
   * character other than a line feed for each `.` of the groups.
   */
  lemma MatchesAtChars(l: Layout, data: string, i: nat)
    ensures MatchesAt(l, data, i)
            <==> i + Length(l) <= |data| && data[i] == Tag(l)
                 && forall k :: i < k < i + Length(l) ==> data[k] != '\n'
  {
    if i + Length(l) <= |data| && data[i] == Tag(l) {
      var w := data[i + 1..i + Length(l)];
      assert forall k :: i < k < i + Length(l) ==> data[k] == w[k - i - 1];
      assert forall j :: 0 <= j < |w| ==> w[j] == data[i + 1 + j];
    }
  }

  /** The leftmost position at or after `from` where the pattern of `l` matches, if any. */
  function FindMatch(l: Layout, data: string, from: nat): (r: Option<nat>)
    requires from <= |data|
    ensures r.Some? ==> from <= r.value && MatchesAt(l, data, r.value)
    ensures r.Some? ==> forall k :: from <= k < r.value ==> !MatchesAt(l, data, k)
    ensures r.None? ==> forall k :: from <= k ==> !MatchesAt(l, data, k)
    decreases |data| - from
  {
    if from + Length(l) > |data| then None
    else if MatchesAt(l, data, from) then Some(from)
    else FindMatch(l, data, from + 1)
  }

  /** A successful match: where it starts and its groups, `groups[0]` being the whole match. */
  datatype Match = Match(index: nat, groups: seq<string>)

  function Concat(ss: seq<string>): string {
    if ss == [] then "" else ss[0] + Concat(ss[1..])
  }

  /** The capture groups of the pattern of `l` matched at `i`, in order (`Groups[1]` onwards). */
  function Groups(l: Layout, data: string, i: nat): (gs: seq<string>)
    requires MatchesAt(l, data, i)
    ensures |gs| == |Widths(l)|
    ensures forall k :: 0 <= k < |gs| ==> |gs[k]| == Widths(l)[k]
  {
    var cs := Cuts(l);
    seq(|Widths(l)|, k requires 0 <= k < |Widths(l)| => data[i + cs[k]..i + cs[k + 1]])
  }

  lemma ConcatCons(g: string, rest: seq<string>)
    ensures Concat([g] + rest) == g + Concat(rest)
  {
    assert ([g] + rest)[1..] == rest;
  }

  /** Adjacent slices join up. */
  lemma SliceJoin(s: string, a: nat, b: nat, c: nat)
    requires a <= b <= c <= |s|
    ensures s[a..b] + s[b..c] == s[a..c]
  {
  }

  /** The groups are consecutive: the tag followed by the groups, in order, is the whole match. */
  lemma GroupsTileMatch(l: Layout, data: string, i: nat)
    requires MatchesAt(l, data, i)
    ensures [Tag(l)] + Concat(Groups(l, data, i)) == data[i..i + Length(l)]
  {
    var gs, cs := Groups(l, data, i), Cuts(l);
    assert forall k {:trigger gs[k]} :: 0 <= k < |gs| ==> gs[k] == data[i + cs[k]..i + cs[k + 1]];
    TagThenPieces(data, i, gs, cs);
  }

  lemma TagThenPieces(data: string, i: nat, gs: seq<string>, cuts: seq<nat>)
    requires |cuts| == |gs| + 1 && cuts[0] == 1
    requires forall k, m :: 0 <= k <= m < |cuts| ==> cuts[k] <= cuts[m]
    requires i + cuts[|gs|] <= |data|
    requires forall k {:trigger gs[k]} :: 0 <= k < |gs| ==> gs[k] == data[i + cuts[k]..i + cuts[k + 1]]
    ensures [data[i]] + Concat(gs) == data[i..i + cuts[|gs|]]
  {
    TileFrom(data, i, gs, cuts, 0);
    assert gs[0..] == gs;
    var rest := data[i + 1..i + cuts[|gs|]];
    assert Concat(gs) == rest;
    assert [data[i]] + rest == data[i..i + cuts[|gs|]];
  }

  /** Pieces of `data` cut at ascending offsets `cuts`: from the `j`-th cut on they join up again. */
  lemma {:induction false} TileFrom(data: string, i: nat, gs: seq<string>, cuts: seq<nat>, j: nat)
    requires |cuts| == |gs| + 1 && j <= |gs|
    requires forall k, m :: 0 <= k <= m < |cuts| ==> cuts[k] <= cuts[m]
    requires i + cuts[|gs|] <= |data|
    requires forall k {:trigger gs[k]} :: 0 <= k < |gs| ==> gs[k] == data[i + cuts[k]..i + cuts[k + 1]]
    ensures Concat(gs[j..]) == data[i + cuts[j]..i + cuts[|gs|]]
    decreases |gs| - j
  {
    if j == |gs| {
      assert gs[j..] == [];
    } else {
      TileFrom(data, i, gs, cuts, j + 1);
      assert gs[j..] == [gs[j]] + gs[j + 1..];
      ConcatCons(gs[j], gs[j + 1..]);
      SliceJoin(data, i + cuts[j], i + cuts[j + 1], i + cuts[|gs|]);
    }
  }

  /** The match of `l` at position `i`: `groups[0]` is the whole match, then the capture groups. */
  function MatchAt(l: Layout, data: string, i: nat): (m: Match)
    requires MatchesAt(l, data, i)
    ensures m.index == i && |m.groups| == |Widths(l)| + 1
    ensures m.groups[0] == data[i..i + Length(l)] && m.groups[1..] == Groups(l, data, i)
    ensures Shaped(l, m)
  {
    var m := Match(i, [data[i..i + Length(l)]] + Groups(l, data, i));
    assert m.groups[1..] == Groups(l, data, i);
    m
  }

  /** `Regex.Match(data)` for the pattern of `l`: the leftmost match, if any. */
  function RegexMatch(l: Layout, data: string): (r: Option<Match>)
    ensures r.Some? ==> MatchesAt(l, data, r.value.index) && r == Some(MatchAt(l, data, r.value.index))
    ensures r.Some? ==> forall k :: 0 <= k < r.value.index ==> !MatchesAt(l, data, k)
  {
    match FindMatch(l, data, 0)
    case None => None
    case Some(i) => Some(MatchAt(l, data, i))
  }

  /** `Match.Success` holds exactly when the pattern matches somewhere in the text. */
  lemma RegexMatchSuccess(l: Layout, data: string)
    ensures RegexMatch(l, data).Some? <==> exists i :: MatchesAt(l, data, i)
  {
    if RegexMatch(l, data).None? {
      assert FindMatch(l, data, 0).None?;
    }
  }

  /** The clock text the `C` handler builds from the five clock digits: `d0d1:d2d3.d4`. */
  function FormatClock(g: string): (clock: string)
    requires |g| == 5
    ensures |clock| == 7 && clock[2] == ':' && clock[5] == '.'
    ensures ClockDigits(clock) == g
  {
    var clock := g[0..2] + ":" + g[2..4] + "." + g[4..5];
    assert ClockDigits(clock) == g[0..2] + g[2..4] + g[4..5] == g;
    clock
  }

  /** The five digits of a clock text, without the separators. */
  function ClockDigits(clock: string): string
    requires |clock| == 7
  {
    clock[0..2] + clock[3..5] + clock[6..7]
  }

  lemma FormatClockInverse(clock: string)
    requires |clock| == 7 && clock[2] == ':' && clock[5] == '.'
    ensures FormatClock(ClockDigits(clock)) == clock
  {
    var g := ClockDigits(clock);
    assert g[0..2] == clock[0..2] && g[2..4] == clock[3..5] && g[4..5] == clock[6..7];
    assert clock == clock[0..2] + ":" + clock[3..5] + "." + clock[6..7];
  }

  /** What the handler of `l` can rely on: the group count and widths of its pattern. */
  predicate Shaped(l: Layout, m: Match) {
    |m.groups| == |Widths(l)| + 1
    && forall k :: 1 <= k < |m.groups| ==> |m.groups[k]| == Widths(l)[k - 1]
  }

  /** The `F` handler: the setters it calls, with the groups it passes them. */
  function DecodeFull(f: Fields, m: Match): (g: Fields)
    requires Shaped(Full, m)
    ensures g.gameClock == f.gameClock && g.period == f.period && g.shotClock == f.shotClock
            && g.foulsHome == f.foulsHome && g.foulsAway == f.foulsAway
    ensures g.possession == m.groups[10]
    ensures NumericInvariant(f) ==> NumericInvariant(g)
  {
    f.(scoreHome := CheckNumericValue(Some(m.groups[2])),
       scoreAway := CheckNumericValue(Some(m.groups[5])),
       timeoutsHome := CheckNumericValue(Some(m.groups[3])),
       timeoutsAway := CheckNumericValue(Some(m.groups[6])),
       down := CheckNumericValue(Some(m.groups[7])),
       toGo := CheckNumericValue(Some(m.groups[8])),
       ballOn := CheckNumericValue(Some(m.groups[9])),
       possession := m.groups[10])
  }

  /** The `C` handler: the clock text, the period and the shot clock. */
  function DecodeClock(f: Fields, m: Match): (g: Fields)
    requires Shaped(Clock, m)
    ensures g.scoreHome == f.scoreHome && g.scoreAway == f.scoreAway
            && g.foulsHome == f.foulsHome && g.foulsAway == f.foulsAway
            && g.timeoutsHome == f.timeoutsHome && g.timeoutsAway == f.timeoutsAway
            && g.down == f.down && g.toGo == f.toGo && g.ballOn == f.ballOn
            && g.possession == f.possession
    ensures |g.gameClock| == 7 && g.gameClock[2] == ':' && g.gameClock[5] == '.'
            && ClockDigits(g.gameClock) == m.groups[1]
    ensures NumericInvariant(f) ==> NumericInvariant(g)
  {
    f.(gameClock := FormatClock(m.groups[1]),
       period := CheckNumericValue(Some(m.groups[2])),
       shotClock := ShotClockText(Some(m.groups[3])))
  }

  /** The handler of `l`; either keeps every coerced field parsable. */
  function Decode(l: Layout, f: Fields, m: Match): (g: Fields)
    requires Shaped(l, m)
    ensures NumericInvariant(f) ==> NumericInvariant(g)
  {
    match l
    case Full => DecodeFull(f, m)
    case Clock => DecodeClock(f, m)
  }

  /** The `F` handler writes eight fields from their fixed offsets and leaves the other five alone. */
  lemma FullDecodeFields(f: Fields, data: string, i: nat)
    requires MatchesAt(Full, data, i)
    ensures var g := DecodeFull(f, MatchAt(Full, data, i));
            g.scoreHome == CheckNumericValue(Some(data[i + 11..i + 13]))
            && g.timeoutsHome == CheckNumericValue(Some(data[i + 13..i + 14]))
            && g.scoreAway == CheckNumericValue(Some(data[i + 24..i + 26]))
            && g.timeoutsAway == CheckNumericValue(Some(data[i + 26..i + 27]))
            && g.down == CheckNumericValue(Some(data[i + 27..i + 28]))
            && g.toGo == CheckNumericValue(Some(data[i + 28..i + 30]))
            && g.ballOn == CheckNumericValue(Some(data[i + 30..i + 32]))
            && g.possession == data[i + 32..i + 33]
            && g.gameClock == f.gameClock && g.period == f.period && g.shotClock == f.shotClock
            && g.foulsHome == f.foulsHome && g.foulsAway == f.foulsAway
  {
  }

  /** The `C` handler writes the clock, period and shot clock and leaves the other ten fields alone. */
  lemma ClockDecodeFields(f: Fields, data: string, i: nat)
    requires MatchesAt(Clock, data, i)
    ensures var g := DecodeClock(f, MatchAt(Clock, data, i));
            g.gameClock == FormatClock(data[i + 1..i + 6])
            && g.period == CheckNumericValue(Some(data[i + 6..i + 7]))
            && g.shotClock == Trim(data[i + 7..i + 9])
            && g.scoreHome == f.scoreHome && g.scoreAway == f.scoreAway
            && g.foulsHome == f.foulsHome && g.foulsAway == f.foulsAway
            && g.timeoutsHome == f.timeoutsHome && g.timeoutsAway == f.timeoutsAway
            && g.down == f.down && g.toGo == f.toGo && g.ballOn == f.ballOn
            && g.possession == f.possession
  {
  }

  /**
   * The first entry of `table`, from index `from` on, whose pattern matches
   * `data`: its index in the table and the match position.
   */
  function FirstMatch(table: seq<Layout>, data: string, from: nat): (r: Option<(nat, nat)>)
    requires from <= |table|
    ensures r.Some? ==> from <= r.value.0 < |table| && FindMatch(table[r.value.0], data, 0) == Some(r.value.1)
    ensures r.Some? ==> forall j :: from <= j < r.value.0 ==> FindMatch(table[j], data, 0).None?
    ensures r.None? ==> forall j :: from <= j < |table| ==> FindMatch(table[j], data, 0).None?
    decreases |table| - from
  {
    if from == |table| then None
    else match FindMatch(table[from], data, 0)
      case Some(i) => Some((from, i))
      case None => FirstMatch(table, data, from + 1)
  }

  /** The table is tried in order: `F` first, then `C`. */
  lemma FirstMatchOfTable(data: string)
    ensures FirstMatch(HandlerTable, data, 0)
            == match FindMatch(Full, data, 0)
               case Some(i) => Some((0, i))
               case None =>
                 match FindMatch(Clock, data, 0)
                 case Some(i) => Some((1, i))
                 case None => None
  {
    assert HandlerTable[0] == Full && HandlerTable[1] == Clock && |HandlerTable| == 2;
  }

  /**
   * `TransformToScoreboardData` on values: whether a handler ran, and the
   * state after it ran.
   */
  function Dispatch(f: Fields, data: string): (r: (bool, Fields))
    ensures !r.0 ==> r.1 == f
    ensures NumericInvariant(f) ==> NumericInvariant(r.1)
  {
    match FirstMatch(HandlerTable, data, 0)
    case None => (false, f)
    case Some((k, i)) =>
      var l := HandlerTable[k];
      (true, Decode(l, f, MatchAt(l, data, i)))
  }

  /** Trying entry `k` of the table and finding no match moves the search on. */
  lemma FirstMatchSkip(data: string, k: nat)
    requires k < |HandlerTable| && RegexMatch(HandlerTable[k], data).None?
    ensures FirstMatch(HandlerTable, data, k + 1) == FirstMatch(HandlerTable, data, k)
  {
  }

  /** The first entry that matches decides the outcome of dispatch. */
  lemma DispatchAt(f: Fields, data: string, k: nat)
    requires k < |HandlerTable| && FirstMatch(HandlerTable, data, k) == FirstMatch(HandlerTable, data, 0)
    requires RegexMatch(HandlerTable[k], data).Some?
    ensures var m := RegexMatch(HandlerTable[k], data).value;
            Shaped(HandlerTable[k], m) && Dispatch(f, data) == (true, Decode(HandlerTable[k], f, m))
  {
  }

  /** When no entry matches, dispatch reports failure and changes nothing. */
  lemma DispatchExhausted(f: Fields, data: string)
    requires FirstMatch(HandlerTable, data, |HandlerTable|) == FirstMatch(HandlerTable, data, 0)
    ensures Dispatch(f, data) == (false, f)
  {
  }

  /** An `F` match wins, whether or not the frame also holds a `C` match. */
  lemma DispatchPrefersFull(f: Fields, data: string)
    requires FindMatch(Full, data, 0).Some?
    ensures Dispatch(f, data) == (true, DecodeFull(f, MatchAt(Full, data, FindMatch(Full, data, 0).value)))
  {
    FirstMatchOfTable(data);
  }

  /** The `C` handler runs only when there is no `F` match. */
  lemma DispatchClockOtherwise(f: Fields, data: string)
    requires FindMatch(Full, data, 0).None? && FindMatch(Clock, data, 0).Some?
    ensures Dispatch(f, data) == (true, DecodeClock(f, MatchAt(Clock, data, FindMatch(Clock, data, 0).value)))
  {
    FirstMatchOfTable(data);
  }

  /** With no match the state is unchanged and dispatch reports failure. */
  lemma DispatchNoMatch(f: Fields, data: string)
    requires forall i :: !MatchesAt(Full, data, i) && !MatchesAt(Clock, data, i)
    ensures Dispatch(f, data) == (false, f)
  {
    FirstMatchOfTable(data);
  }

  /** Dispatch reports success exactly when one of the two patterns matches somewhere. */
  lemma DispatchMatchedIff(f: Fields, data: string)
    ensures Dispatch(f, data).0 <==> exists i :: MatchesAt(Full, data, i) || MatchesAt(Clock, data, i)
  {
    FirstMatchOfTable(data);
    assert HandlerTable[0] == Full && HandlerTable[1] == Clock;
    match FindMatch(Full, data, 0)
    case Some(i) =>
      assert MatchesAt(Full, data, i);
    case None =>
      match FindMatch(Clock, data, 0)
      case Some(i) =>
        assert MatchesAt(Clock, data, i);
      case None =>
  }

  /** Decoding keeps every coerced field `int`-parsable. */
  lemma DispatchPreservesInvariant(f: Fields, data: string)
    requires NumericInvariant(f)
    ensures NumericInvariant(Dispatch(f, data).1)
  {
  }

  /** Feeding the same frame twice has the effect of feeding it once. */
  lemma DispatchIdempotent(f: Fields, data: string)
    ensures Dispatch(Dispatch(f, data).1, data) == (Dispatch(f, data).0, Dispatch(f, data).1)
  {
  }
}
