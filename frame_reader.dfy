/**
 * Serial framing (`ReadData`): bytes are read one at a time; STX (0x02)
 * starts a frame and clears the buffer, ETX (0x03) ends the read, and any
 * other byte is appended, as the character with the same code, only while a
 * frame is open. The serial port is modelled as the finite sequence of bytes
 * it will deliver.
 */
module FrameReader {

  newtype byte = x: int | 0 <= x < 256

  const STX: byte := 0x02
  const ETX: byte := 0x03

  /** `(char)byteRead`: a byte becomes the character with the same code (no decoding). */
  function ToChar(b: byte): char {
    (b as int) as char
  }

  /** The characters of `bs`, byte for byte. */
  function Chars(bs: seq<byte>): (s: string)
    ensures |s| == |bs|
    ensures forall k :: 0 <= k < |bs| ==> s[k] == ToChar(bs[k])
  {
    if bs == [] then [] else Chars(bs[..|bs| - 1]) + [ToChar(bs[|bs| - 1])]
  }

  /** The position of the first `x` in `s`. */
  function IndexOf(s: seq<byte>, x: byte): (k: nat)
    requires x in s
    ensures k < |s| && s[k] == x && x !in s[..k]
  {
    if s[0] == x then 0
    else
      var k := IndexOf(s[1..], x);
      assert s[..k + 1] == [s[0]] + s[1..][..k];
      k + 1
  }

  /** The position of the last `x` in `s`. */
  function LastIndexOf(s: seq<byte>, x: byte): (k: nat)
    requires x in s
    ensures k < |s| && s[k] == x && x !in s[k + 1..]
  {
    if s[|s| - 1] == x then |s| - 1
    else
      var init := s[..|s| - 1];
      assert x in init by {
        var j :| 0 <= j < |s| && s[j] == x;
        assert init[j] == x;
      }
      var k := LastIndexOf(init, x);
      assert s[k + 1..] == init[k + 1..] + [s[|s| - 1]];
      k
  }

  /**
   * The buffer after the bytes `p` (which hold no ETX) have been read: the
   * characters after the last STX, or nothing when no frame was opened.
   */
  function FrameOf(p: seq<byte>): (buffer: string)
    ensures |buffer| < |p| || buffer == ""
    ensures ToChar(STX) !in buffer
  {
    if STX in p then
      var body := p[LastIndexOf(p, STX) + 1..];
      assert forall j :: 0 <= j < |body| ==> body[j] != STX;
      Chars(body)
    else ""
  }

  /** What one call of `ReadData` returns, and how many bytes it consumed. */
  datatype ReadResult = Frame(data: string, consumed: nat) | Pending

  /** `ReadData` on the bytes the port will deliver: `Pending` while no ETX has arrived. */
  function Read(input: seq<byte>): (r: ReadResult)
    ensures r.Pending? <==> ETX !in input
    ensures r.Frame? ==> 0 < r.consumed <= |input| && input[r.consumed - 1] == ETX
    ensures r.Frame? ==> ETX !in input[..r.consumed - 1]
  {
    if ETX in input then
      var e := IndexOf(input, ETX);
      Frame(FrameOf(input[..e]), e + 1)
    else Pending
  }

  /** How the buffer evolves when one more byte (not ETX) is read. */
  lemma FrameOfSnoc(p: seq<byte>, b: byte)
    ensures b == STX ==> FrameOf(p + [b]) == ""
    ensures b != STX && STX in p ==> FrameOf(p + [b]) == FrameOf(p) + [ToChar(b)]
    ensures b != STX && STX !in p ==> FrameOf(p + [b]) == ""
  {
    var q := p + [b];
    assert q[..|q| - 1] == p;
    if b != STX && STX in p {
      var k := LastIndexOf(p, STX);
      assert LastIndexOf(q, STX) == k;
      var tail := q[k + 1..];
      assert tail[..|tail| - 1] == p[k + 1..];
    }
  }

  /** The reading loop, as the source writes it. */
  method ReadData(input: seq<byte>) returns (r: ReadResult)
    ensures r == Read(input)
  {
    var buffer: string := "";
    var inFrame := false;
    var i := 0;
    while i < |input|
      invariant 0 <= i <= |input|
      invariant ETX !in input[..i]
      invariant inFrame <==> STX in input[..i]
      invariant buffer == FrameOf(input[..i])
    {
      var b := input[i];
      assert input[..i + 1] == input[..i] + [b];
      FrameOfSnoc(input[..i], b);
      if b == STX {
        inFrame := true;
        buffer := "";
      } else if b == ETX {
        inFrame := false;
        assert IndexOf(input, ETX) == i;
        return Frame(buffer, i + 1);
      } else if inFrame {
        buffer := buffer + [ToChar(b)];
      }
      i := i + 1;
    }
    assert input[..i] == input;
    return Pending;
  }

  /**
   * A frame is read exactly: whatever comes before the last STX (holding no
   * ETX) is discarded, the body between STX and ETX is returned, and reading
   * stops right after the ETX.
   */
  lemma ReadFrame(junk: seq<byte>, body: seq<byte>, rest: seq<byte>)
    requires ETX !in junk && STX !in body && ETX !in body
    ensures Read(junk + [STX] + body + [ETX] + rest) == Frame(Chars(body), |junk| + |body| + 2)
  {
    ReadStopsAfter(junk + [STX] + body, rest);
    FrameAfterStx(junk, body);
  }

  /** The first ETX ends the read. */
  lemma ReadStopsAfter(p: seq<byte>, rest: seq<byte>)
    requires ETX !in p
    ensures Read(p + [ETX] + rest) == Frame(FrameOf(p), |p| + 1)
  {
    var input := p + [ETX] + rest;
    assert input[..|p|] == p;
    IndexOfIs(input, ETX, |p|);
  }

  /** `IndexOf` finds the occurrence that has none before it. */
  lemma {:induction false} IndexOfIs(s: seq<byte>, x: byte, e: nat)
    requires e < |s| && s[e] == x && x !in s[..e]
    ensures IndexOf(s, x) == e
  {
    if e > 0 {
      assert s[..e][0] == s[0];
      assert s[1..][..e - 1] == s[..e][1..];
      IndexOfIs(s[1..], x, e - 1);
    }
  }

  /** After an STX and a body without markers the buffer holds exactly the body. */
  lemma FrameAfterStx(junk: seq<byte>, body: seq<byte>)
    requires STX !in body
    ensures FrameOf(junk + [STX] + body) == Chars(body)
  {
    var p := junk + [STX] + body;
    assert p[|junk|] == STX;
    LastStxOf(junk, body);
    assert p[|junk| + 1..] == body;
  }

  lemma LastStxOf(junk: seq<byte>, body: seq<byte>)
    requires STX !in body
    ensures LastIndexOf(junk + [STX] + body, STX) == |junk|
  {
    var p := junk + [STX] + body;
    assert p[|junk|] == STX;
    assert p[|junk| + 1..] == body;
  }

  /** An ETX that arrives before any STX ends the read with an empty frame. */
  lemma ReadStrayEtx(junk: seq<byte>, rest: seq<byte>)
    requires STX !in junk && ETX !in junk
    ensures Read(junk + [ETX] + rest) == Frame("", |junk| + 1)
  {
    var input := junk + [ETX] + rest;
    assert input[..|junk|] == junk;
    assert input[|junk|] == ETX;
    assert IndexOf(input, ETX) == |junk|;
  }

  /** A returned frame never holds the STX or ETX characters. */
  lemma FrameHasNoMarkers(input: seq<byte>)
    requires Read(input).Frame?
    ensures ToChar(STX) !in Read(input).data && ToChar(ETX) !in Read(input).data
  {
    var e := IndexOf(input, ETX);
    var p := input[..e];
    if STX in p {
      var k := LastIndexOf(p, STX);
      var body := p[k + 1..];
      assert STX !in body && ETX !in body by {
        assert forall j :: 0 <= j < |body| ==> body[j] == p[k + 1 + j];
      }
      var d := Chars(body);
      forall j | 0 <= j < |d|
        ensures d[j] != ToChar(STX) && d[j] != ToChar(ETX)
      {
        assert body[j] != STX && body[j] != ETX;
      }
    }
  }
}
