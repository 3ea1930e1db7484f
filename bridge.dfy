/**
 * The bridge itself (class `Program`): the handlers that write a match into
 * the scoreboard object, `TransformToScoreboardData`, the de-duplicating
 * `SendJsonData`, and the body of the main loop that ties a serial frame to
 * a TCP send. The TCP connection is reduced to the outcome of each attempt,
 * supplied as a parameter; the JSON serializer is a parameter as well.
 */
module Bridge {
  import opened Wrappers
  import opened ScoreboardData
  import opened Layouts
  import opened FrameReader

  /** How one TCP send attempt ends: the document is written, or connecting or writing throws. */
  datatype SendOutcome = Delivered | Failed

  /** What `SendJsonData` does with a document: whether it connects, and the new `LastSentJson`. */
  datatype GateResult = GateResult(attempted: bool, last: string)

  /**
   * `SendJsonData` on values. Only a document that differs from the last one
   * delivered is sent, and only a delivered document is remembered.
   */
  function Gate(last: string, json: string, outcome: SendOutcome): (r: GateResult)
    ensures r.attempted <==> json != last
    ensures r.last == last || (r.last == json && r.attempted && outcome == Delivered)
    ensures r.attempted && outcome == Delivered ==> r.last == json
  {
    if json != last then GateResult(true, if outcome == Delivered then json else last)
    else GateResult(false, last)
  }

  /** A delivered document is not sent again, whatever the network would do. */
  lemma GateNoResend(last: string, json: string, next: SendOutcome)
    ensures Gate(Gate(last, json, Delivered).last, json, next) == GateResult(false, json)
  {
  }

  /** A failed send leaves the memory unchanged, so the same document is attempted again. */
  lemma GateRetriesAfterFailure(last: string, json: string, next: SendOutcome)
    requires json != last
    ensures Gate(last, json, Failed) == GateResult(true, last)
    ensures Gate(Gate(last, json, Failed).last, json, next).attempted
  {
  }

  /** The whole state of the bridge: the scoreboard fields and `LastSentJson`. */
  datatype BridgeState = BridgeState(fields: Fields, lastSent: string)

  const Initial := BridgeState(Defaults, "")

  /** The state after one frame, and whether a send was attempted for it. */
  datatype Handled = Handled(state: BridgeState, sent: bool)

  /**
   * Handling one frame returned by `ReadData`: an empty frame is skipped, a
   * frame no pattern matches leaves the state alone, and a matched frame
   * updates the fields and offers the new document to `SendJsonData`.
   */
  function HandleFrame(s: BridgeState, data: string, serialize: seq<string> -> string,
                       outcome: SendOutcome): (r: Handled)
    ensures data == "" ==> r == Handled(s, false)
    ensures !Dispatch(s.fields, data).0 ==> r == Handled(s, false)
    ensures r.state.fields == (if data == "" then s.fields else Dispatch(s.fields, data).1)
    ensures r.sent <==> data != "" && Dispatch(s.fields, data).0
                        && JsonDocument(r.state.fields, serialize) != s.lastSent
    ensures r.state.lastSent
            == if r.sent && outcome == Delivered then JsonDocument(r.state.fields, serialize) else s.lastSent
  {
    if data == "" then Handled(s, false)
    else
      var (matched, f) := Dispatch(s.fields, data);
      if !matched then Handled(s, false)
      else
        var g := Gate(s.lastSent, JsonDocument(f, serialize), outcome);
        Handled(BridgeState(f, g.last), g.attempted)
  }

  /** `LastSentJson` is either empty or a document of some state. */
  ghost predicate Remembers(s: BridgeState, serialize: seq<string> -> string) {
    s.lastSent == "" || exists g :: s.lastSent == JsonDocument(g, serialize)
  }

  /** Handling a frame keeps the fields valid and the memory a past document. */
  lemma HandleFramePreserves(s: BridgeState, data: string, serialize: seq<string> -> string,
                             outcome: SendOutcome)
    requires NumericInvariant(s.fields) && Remembers(s, serialize)
    ensures NumericInvariant(HandleFrame(s, data, serialize, outcome).state.fields)
    ensures Remembers(HandleFrame(s, data, serialize, outcome).state, serialize)
  {
    DispatchPreservesInvariant(s.fields, data);
  }

  /**
   * With a serializer that tells states apart, a matched frame is sent
   * exactly when it changes the state from the one last delivered.
   */
  lemma SendsExactlyOnChange(s: BridgeState, g: Fields, data: string,
                             serialize: seq<string> -> string, outcome: SendOutcome)
    requires forall a, b :: serialize(a) == serialize(b) ==> a == b
    requires s.lastSent == JsonDocument(g, serialize)
    requires data != "" && Dispatch(s.fields, data).0
    ensures HandleFrame(s, data, serialize, outcome).sent <==> Dispatch(s.fields, data).1 != g
  {
    JsonDocumentDetectsChange(Dispatch(s.fields, data).1, g, serialize);
  }

  /**
   * After a frame whose document went out (or was already the last one
   * delivered), the same frame again sends nothing and changes nothing.
   */
  lemma RepeatedFrameIsNoOp(s: BridgeState, data: string, serialize: seq<string> -> string,
                            next: SendOutcome)
    ensures var s1 := HandleFrame(s, data, serialize, Delivered).state;
            HandleFrame(s1, data, serialize, next) == Handled(s1, false)
  {
    DispatchIdempotent(s.fields, data);
  }

  /** A final state and the number of sends on the way to it. */
  datatype Tally = Tally(state: BridgeState, sends: nat)

  /** The network as the bridge sees it: the send attempts for the frames numbered in `failures` throw. */
  function OutcomeOf(failures: set<nat>, n: nat): SendOutcome {
    if n in failures then Failed else Delivered
  }

  /** Handles a sequence of frames numbered from `n`; the attempts for frames in `failures` fail. */
  function HandleFrames(s: BridgeState, frames: seq<string>, serialize: seq<string> -> string,
                        failures: set<nat>, n: nat): (t: Tally)
    ensures t.sends <= |frames|
    decreases |frames|
  {
    if frames == [] then Tally(s, 0)
    else
      var step := HandleFrame(s, frames[0], serialize, OutcomeOf(failures, n));
      var rest := HandleFrames(step.state, frames[1..], serialize, failures, n + 1);
      Tally(rest.state, rest.sends + if step.sent then 1 else 0)
  }

  /** `n` copies of the same frame. */
  function Copies(data: string, n: nat): (r: seq<string>)
    ensures |r| == n && forall k :: 0 <= k < n ==> r[k] == data
  {
    if n == 0 then [] else [data] + Copies(data, n - 1)
  }

  /**
   * One frame repeated any number of times is sent at most once when the
   * first attempt is delivered, and the state it leaves is the state after
   * the first copy.
   */
  lemma RepeatedFrameSentOnce(s: BridgeState, data: string, copies: nat,
                              serialize: seq<string> -> string, failures: set<nat>)
    requires copies > 0 && 0 !in failures
    ensures HandleFrames(s, Copies(data, copies), serialize, failures, 0).state
            == HandleFrame(s, data, serialize, Delivered).state
    ensures HandleFrames(s, Copies(data, copies), serialize, failures, 0).sends <= 1
  {
    var frames := Copies(data, copies);
    var s1 := HandleFrame(s, data, serialize, Delivered).state;
    assert frames[1..] == Copies(data, copies - 1);
    forall next: SendOutcome
      ensures HandleFrame(s1, data, serialize, next) == Handled(s1, false)
    {
      RepeatedFrameIsNoOp(s, data, serialize, next);
    }
    StableUnderRepeats(s1, data, copies - 1, serialize, failures, 1);
  }

  /** A state that a frame leaves alone stays put under any number of copies of it. */
  lemma {:induction false} StableUnderRepeats(s: BridgeState, data: string, copies: nat,
                                              serialize: seq<string> -> string,
                                              failures: set<nat>, n: nat)
    requires forall next :: HandleFrame(s, data, serialize, next) == Handled(s, false)
    ensures HandleFrames(s, Copies(data, copies), serialize, failures, n) == Tally(s, 0)
  {
    if copies > 0 {
      assert Copies(data, copies)[1..] == Copies(data, copies - 1);
      StableUnderRepeats(s, data, copies - 1, serialize, failures, n + 1);
    }
  }

  /**
   * The main loop on the bytes the port delivers, with `sends` attempts made
   * so far: frames are read one after another until no ETX is left; the send
   * attempt for the `n`-th frame ends as `OutcomeOf(failures, n)`. The result
   * is the final state and the number of attempts made in all.
   */
  function Run(s: BridgeState, input: seq<byte>, serialize: seq<string> -> string,
               failures: set<nat>, n: nat, sends: nat): (t: Tally)
    ensures sends <= t.sends <= sends + |input|
    ensures ETX !in input ==> t == Tally(s, sends)
    decreases |input|
  {
    match Read(input)
    case Pending => Tally(s, sends)
    case Frame(data, consumed) =>
      var step := HandleFrame(s, data, serialize, OutcomeOf(failures, n));
      Run(step.state, input[consumed..], serialize, failures, n + 1, if step.sent then sends + 1 else sends)
  }

  /** The main loop keeps the fields valid and the memory a past document, however long it runs. */
  lemma {:induction false} RunPreserves(s: BridgeState, input: seq<byte>, serialize: seq<string> -> string,
                                        failures: set<nat>, n: nat, sends: nat)
    requires NumericInvariant(s.fields) && Remembers(s, serialize)
    ensures NumericInvariant(Run(s, input, serialize, failures, n, sends).state.fields)
    ensures Remembers(Run(s, input, serialize, failures, n, sends).state, serialize)
    decreases |input|
  {
    match Read(input)
    case Pending =>
    case Frame(data, consumed) =>
      HandleFramePreserves(s, data, serialize, OutcomeOf(failures, n));
      var step := HandleFrame(s, data, serialize, OutcomeOf(failures, n));
      RunPreserves(step.state, input[consumed..], serialize, failures, n + 1,
                   if step.sent then sends + 1 else sends);
  }

  /** An ETX with no frame open yields the empty frame, which the loop skips without a send. */
  lemma RunStrayEtx(s: BridgeState, junk: seq<byte>, rest: seq<byte>, serialize: seq<string> -> string,
                    failures: set<nat>, n: nat, sends: nat)
    requires STX !in junk && ETX !in junk
    ensures Run(s, junk + [ETX] + rest, serialize, failures, n, sends)
            == Run(s, rest, serialize, failures, n + 1, sends)
  {
    var input := junk + [ETX] + rest;
    ReadStrayEtx(junk, rest);
    assert input[|junk| + 1..] == rest;
  }

  /** The frames `ReadData` returns, one call after another, until no ETX is left. */
  function Frames(input: seq<byte>): (frames: seq<string>)
    ensures ETX !in input ==> frames == []
    decreases |input|
  {
    match Read(input)
    case Pending => []
    case Frame(data, consumed) => [data] + Frames(input[consumed..])
  }

  /** The main loop handles the frames in the order they are read, and nothing else. */
  lemma {:induction false} RunIsHandleFrames(s: BridgeState, input: seq<byte>, serialize: seq<string> -> string,
                                             failures: set<nat>, n: nat, sends: nat)
    ensures var t := HandleFrames(s, Frames(input), serialize, failures, n);
            Run(s, input, serialize, failures, n, sends) == Tally(t.state, t.sends + sends)
    decreases |input|
  {
    match Read(input)
    case Pending =>
    case Frame(data, consumed) =>
      var step := HandleFrame(s, data, serialize, OutcomeOf(failures, n));
      assert Frames(input)[1..] == Frames(input[consumed..]);
      RunIsHandleFrames(step.state, input[consumed..], serialize, failures, n + 1,
                        if step.sent then sends + 1 else sends);
  }

  /** `k` back-to-back transmissions of the same bytes. */
  function Repeat(p: seq<byte>, k: nat): seq<byte> {
    if k == 0 then [] else p + Repeat(p, k - 1)
  }

  /** A well-formed frame at the head of the bytes is the first frame read. */
  lemma FramesOfFrame(body: seq<byte>, rest: seq<byte>)
    requires STX !in body && ETX !in body
    ensures Frames([STX] + body + [ETX] + rest) == [Chars(body)] + Frames(rest)
  {
    var input := [STX] + body + [ETX] + rest;
    assert [] + [STX] + body + [ETX] + rest == input;
    ReadFrame([], body, rest);
    assert input[|body| + 2..] == rest;
  }

  /** A frame transmitted `k` times is read as `k` copies of its body. */
  lemma {:induction false} FramesOfRepeat(body: seq<byte>, k: nat)
    requires STX !in body && ETX !in body
    ensures Frames(Repeat([STX] + body + [ETX], k)) == Copies(Chars(body), k)
  {
    if k > 0 {
      FramesOfFrame(body, Repeat([STX] + body + [ETX], k - 1));
      FramesOfRepeat(body, k - 1);
    }
  }

  /**
   * A scoreboard that keeps transmitting the same frame causes at most one
   * TCP send, once the first attempt is delivered, and leaves the state the
   * first copy left.
   */
  lemma RepeatedTransmissionSentOnce(s: BridgeState, body: seq<byte>, k: nat,
                                     serialize: seq<string> -> string, failures: set<nat>)
    requires STX !in body && ETX !in body
    requires k > 0 && 0 !in failures
    ensures var t := Run(s, Repeat([STX] + body + [ETX], k), serialize, failures, 0, 0);
            t.state == HandleFrame(s, Chars(body), serialize, Delivered).state && t.sends <= 1
  {
    FramesOfRepeat(body, k);
    RunIsHandleFrames(s, Repeat([STX] + body + [ETX], k), serialize, failures, 0, 0);
    RepeatedFrameSentOnce(s, Chars(body), k, serialize, failures);
  }

  /**
   * The `Program` class: its static state is the scoreboard object and
   * `LastSentJson`.
   */
  class Program {
    const scoreboardData: ScoreboardOCRData
    var lastSentJson: string

    function State(): BridgeState
      reads this, scoreboardData
    {
      BridgeState(scoreboardData.Snapshot(), lastSentJson)
    }

    /** The static initialisers. */
    constructor ()
      ensures fresh(scoreboardData)
      ensures State() == Initial && scoreboardData.Valid()
    {
      scoreboardData := new ScoreboardOCRData();
      lastSentJson := "";
    }

    /** The `F` handler: eight setters, with the groups in the order the source passes them. */
    method HandleFull(m: Match)
      requires Shaped(Full, m)
      modifies scoreboardData
      ensures scoreboardData.Snapshot() == DecodeFull(old(scoreboardData.Snapshot()), m)
    {
      var data := scoreboardData;
      data.SetScoreHome(Some(m.groups[2]));
      data.SetScoreAway(Some(m.groups[5]));
      data.SetTimeoutsHome(Some(m.groups[3]));
      data.SetTimeoutsAway(Some(m.groups[6]));
      data.SetDowns(Some(m.groups[7]));
      data.SetYards(Some(m.groups[8]));
      data.SetLOS(Some(m.groups[9]));
      data.SetPossession(m.groups[10]);
    }

    /** The `C` handler: the clock text from group 1, then the period and the shot clock. */
    method HandleClock(m: Match)
      requires Shaped(Clock, m)
      modifies scoreboardData
      ensures scoreboardData.Snapshot() == DecodeClock(old(scoreboardData.Snapshot()), m)
    {
      var data := scoreboardData;
      var g := m.groups[1];
      data.SetGameClock(g[0..2] + ":" + g[2..4] + "." + g[4..5]);
      data.SetPeriod(Some(m.groups[2]));
      data.SetShotClock(Some(m.groups[3]));
    }

    /**
     * Tries the handler table in order; the first pattern that matches runs
     * its handler and the search stops.
     */
    method TransformToScoreboardData(data: string) returns (matched: bool)
      modifies scoreboardData
      ensures (matched, scoreboardData.Snapshot()) == Dispatch(old(scoreboardData.Snapshot()), data)
    {
      var k := 0;
      while k < |HandlerTable|
        invariant 0 <= k <= |HandlerTable|
        invariant FirstMatch(HandlerTable, data, k) == FirstMatch(HandlerTable, data, 0)
        invariant unchanged(scoreboardData)
      {
        var layout := HandlerTable[k];
        var m := RegexMatch(layout, data);
        if m.Some? {
          DispatchAt(old(scoreboardData.Snapshot()), data, k);
          match layout {
            case Full => HandleFull(m.value);
            case Clock => HandleClock(m.value);
          }
          return true;
        }
        FirstMatchSkip(data, k);
        k := k + 1;
      }
      DispatchExhausted(scoreboardData.Snapshot(), data);
      return false;
    }

    /** Sends `json` unless it is the document last delivered; `outcome` is how the attempt ends. */
    method SendJsonData(json: string, outcome: SendOutcome) returns (attempted: bool)
      modifies this
      ensures GateResult(attempted, lastSentJson) == Gate(old(lastSentJson), json, outcome)
    {
      attempted := false;
      if json != lastSentJson {
        attempted := true;
        if outcome == Delivered {
          lastSentJson := json;
        }
      }
    }

    /**
     * One turn of the main loop: a frame is read from the bytes the port
     * delivers; a non-empty one is dispatched and, when a handler ran, the
     * new document is offered to `SendJsonData`, whose attempt ends as
     * `OutcomeOf(failures, n)`. The turn takes `Run` one frame further.
     */
    method Iteration(input: seq<byte>, serialize: seq<string> -> string, failures: set<nat>, n: nat,
                     ghost sends: nat)
      returns (r: ReadResult, sent: bool)
      modifies this, scoreboardData
      ensures r == Read(input)
      ensures r.Pending? ==> State() == old(State()) && !sent
      ensures r.Frame? ==> r.consumed <= |input|
      ensures r.Frame? ==> Handled(State(), sent) == HandleFrame(old(State()), r.data, serialize, OutcomeOf(failures, n))
      ensures r.Frame? ==>
                Run(old(State()), input, serialize, failures, n, sends)
                == Run(State(), input[r.consumed..], serialize, failures, n + 1, if sent then sends + 1 else sends)
    {
      ghost var before := State();
      r := ReadData(input);
      sent := false;
      if r.Frame? && r.data != "" {
        var matched := TransformToScoreboardData(r.data);
        if matched {
          var json := scoreboardData.ToJson(serialize);
          sent := SendJsonData(json, OutcomeOf(failures, n));
        }
      }
      assert r.Frame? ==> HandleFrame(before, r.data, serialize, OutcomeOf(failures, n)) == Handled(State(), sent);
    }

    /** The `while (true)` loop of `Main`, run until the delivered bytes hold no further frame. */
    method MainLoop(input: seq<byte>, serialize: seq<string> -> string, failures: set<nat>)
      returns (sends: nat)
      modifies this, scoreboardData
      ensures Tally(State(), sends) == Run(old(State()), input, serialize, failures, 0, 0)
    {
      var rest, n: nat := input, 0;
      sends := 0;
      while true
        invariant Run(State(), rest, serialize, failures, n, sends)
                  == Run(old(State()), input, serialize, failures, 0, 0)
        decreases |rest|
      {
        var r, sent := Iteration(rest, serialize, failures, n, sends);
        if r.Pending? {
          return;
        }
        rest, n := rest[r.consumed..], n + 1;
        if sent {
          sends := sends + 1;
        }
      }
    }
  }
}
