/** Framing of packets on the serial line, after the SLIP protocol of RFC 1055: the encoder, the decoder
  * and what becomes of a whole stream, with or without noise in front of it.
  */
module Slip {

  type Byte = x: int | 0 <= x < 256

  const END: Byte := 192
  const ESC: Byte := 219
  const ESC_END: Byte := 220
  const ESC_ESC: Byte := 221

  // ---------------------------------------------------------------- encoding

  function StuffByte(b: Byte): seq<Byte> {
    if b == END then [ESC, ESC_END] else if b == ESC then [ESC, ESC_ESC] else [b]
  }

  function Stuff(p: seq<Byte>): seq<Byte> {
    if p == [] then [] else StuffByte(p[0]) + Stuff(p[1..])
  }

  function Encode(p: seq<Byte>): seq<Byte> {
    [END] + Stuff(p) + [END]
  }

  lemma {:induction false} StuffConcat(p: seq<Byte>, q: seq<Byte>)
    ensures Stuff(p + q) == Stuff(p) + Stuff(q)
  {
    if p == [] {
      assert p + q == q;
    } else {
      StuffConcat(p[1..], q);
      assert (p + q)[1..] == p[1..] + q;
      hide StuffByte;
      assert StuffByte(p[0]) + (Stuff(p[1..]) + Stuff(q)) == Stuff(p) + Stuff(q);
    }
  }

  /** The bytes on the line: 192 ends a packet and is sent as 219 220 inside it, 219 as 219 221. */
  lemma BytesOnLine(p: seq<Byte>, q: seq<Byte>)
    ensures Encode(p) == [192] + Stuff(p) + [192]
    ensures Stuff(p + q) == Stuff(p) + Stuff(q) && Stuff([]) == []
    ensures forall b: Byte :: Stuff([b]) == if b == 192 then [219, 220] else if b == 219 then [219, 221] else [b]
  {
    StuffConcat(p, q);
    forall b: Byte
      ensures Stuff([b]) == if b == 192 then [219, 220] else if b == 219 then [219, 221] else [b]
    {
      assert [b][1..] == [];
      assert StuffByte(b) + [] == StuffByte(b);
    }
  }

  /** sendToSerial(): walks the buffer, appending to what has gone out on the line. */
  method SendToSerial(line: seq<Byte>, packet: array<Byte>, size: nat) returns (out: seq<Byte>)
    requires size <= packet.Length
    ensures out == line + Encode(packet[..size])
  {
    out := line + [END];
    var buf, length := 0, size;
    while length > 0
      invariant buf + length == size
      invariant out + Stuff(packet[buf..size]) + [END] == line + Encode(packet[..size])
    {
      ghost var before := out;
      if packet[buf] == END {
        out := out + [ESC, ESC_END];
      } else if packet[buf] == ESC {
        out := out + [ESC, ESC_ESC];
      } else {
        out := out + [packet[buf]];
      }
      assert packet[buf..size][1..] == packet[buf + 1..size];
      assert before + Stuff(packet[buf..size]) == out + Stuff(packet[buf + 1..size]);
      buf, length := buf + 1, length - 1;
    }
    out := out + [END];
    assert packet[size..size] == [];
  }

  // ---------------------------------------------------------------- decoding

  /** Frame: a call returned this frame, with the rest of the stream unread.  Waiting: the stream ended
    * while the call had stored got, perhaps right after an ESC. */
  datatype Outcome = Frame(frame: seq<Byte>, rest: seq<Byte>) | Waiting(got: seq<Byte>, escaped: bool)

  function Store(got: seq<Byte>, c: Byte, len: nat): seq<Byte> {
    if |got| < len then got + [c] else got
  }

  /** The byte an escape stands for; any other byte is left alone. */
  function Unstuffed(c: Byte): Byte {
    if c == ESC_END then END else if c == ESC_ESC then ESC else c
  }

  /** The rest of a call to receiveFromSerial() that has stored got so far. */
  function Read(s: seq<Byte>, got: seq<Byte>, len: nat): (o: Outcome)
    ensures o.Frame? ==> |o.rest| < |s| && (|got| <= len ==> 1 <= |o.frame| <= len)
    ensures o.Waiting? && |got| <= len ==> |o.got| <= len
  {
    if s == [] then Waiting(got, false)
    else if s[0] == END then
      if |got| > 0 then Frame(got, s[1..]) else Read(s[1..], got, len)
    else if s[0] == ESC then
      if |s| == 1 then Waiting(got, true) else Read(s[2..], Store(got, Unstuffed(s[1]), len), len)
    else
      Read(s[1..], Store(got, s[0], len), len)
  }

  /** The inner switch on the byte after an ESC. */
  method Unescape(c: Byte) returns (r: Byte)
    ensures r == Unstuffed(c)
  {
    r := c;
    if c == ESC_END {
      r := END;
    } else if c == ESC_ESC {
      r := ESC;
    }
  }

  /** p[received++] = c, if there is room. */
  method StoreByte(p: array<Byte>, received: nat, c: Byte, len: nat) returns (after: nat)
    requires received <= len <= p.Length
    modifies p
    ensures received <= after <= len && p[..after] == Store(old(p[..received]), c, len)
  {
    after := received;
    if received < len {
      p[received] := c;
      after := received + 1;
    }
  }

  /** The next byte that is not an END, unstuffed and stored; fails if the stream ends after an ESC. */
  method ReadByte(stream: seq<Byte>, pos: nat, p: array<Byte>, received: nat, len: nat)
    returns (ok: bool, next: nat, after: nat)
    requires pos < |stream| && stream[pos] != END && received <= len <= p.Length
    modifies p
    ensures received <= after <= len && pos <= next <= |stream|
    ensures !ok ==> next == pos && after == received && p[..received] == old(p[..received])
    ensures !ok ==> Read(stream[pos..], p[..received], len) == Waiting(p[..received], true)
    ensures ok ==> next > pos && Read(stream[pos..], old(p[..received]), len) == Read(stream[next..], p[..after], len)
  {
    var c := stream[pos];
    next := pos;
    if c == ESC {
      if pos + 1 == |stream| {
        return false, pos, received;
      }
      next := pos + 1;
      c := Unescape(stream[next]);
    }
    next := next + 1;
    after := StoreByte(p, received, c, len);
    ok := true;
  }

  /** receiveFromSerial(): reads bytes from pos on, storing into p. */
  method ReceiveFromSerial(stream: seq<Byte>, start: nat, p: array<Byte>, len: nat)
    returns (done: bool, received: nat, pos: nat)
    requires start <= |stream| && len <= p.Length && len < 256
    modifies p
    ensures start <= pos <= |stream| && received <= len
    ensures done ==> Read(stream[start..], [], len) == Frame(p[..received], stream[pos..])
    ensures !done ==> Read(stream[start..], [], len).Waiting? && Read(stream[start..], [], len).got == p[..received]
  {
    received, pos, done := 0, start, false;
    ghost var whole := Read(stream[start..], [], len);
    while pos < |stream|
      invariant start <= pos <= |stream| && received <= len
      invariant whole == Read(stream[pos..], p[..received], len)
    {
      if stream[pos] == END {
        pos := pos + 1;
        if received > 0 {
          return true, received, pos;
        }
      } else {
        var ok;
        ok, pos, received := ReadByte(stream, pos, p, received, len);
        if !ok {
          return false, received, pos;
        }
      }
    }
  }

  /** What successive calls return. */
  function Frames(s: seq<Byte>, len: nat): seq<seq<Byte>>
    decreases |s|
  {
    match Read(s, [], len)
    case Frame(f, rest) => [f] + Frames(rest, len)
    case Waiting(_, _) => []
  }

  /** What the last call has stored when the stream ends, and whether it is right after an ESC. */
  function Leftover(s: seq<Byte>, len: nat): (o: Outcome)
    ensures o.Waiting? && |o.got| <= len
    decreases |s|
  {
    match Read(s, [], len)
    case Frame(_, rest) => Leftover(rest, len)
    case Waiting(got, escaped) => Waiting(got, escaped)
  }

  // ---------------------------------------------------------------- one encoded packet

  function Cut(p: seq<Byte>, len: nat): seq<Byte> {
    if |p| <= len then p else p[..len]
  }

  lemma StoreIsCut(got: seq<Byte>, c: Byte, rest: seq<Byte>, len: nat)
    requires |got| <= len
    ensures |Store(got, c, len)| <= len
    ensures Cut(Store(got, c, len) + rest, len) == Cut(got + [c] + rest, len)
  {
  }

  /** A stuffed packet is read back byte for byte, up to the buffer's length. */
  lemma {:induction false} ReadStuffed(p: seq<Byte>, tail: seq<Byte>, got: seq<Byte>, len: nat)
    requires |got| <= len
    ensures Read(Stuff(p) + tail, got, len) == Read(tail, Cut(got + p, len), len)
    decreases |p|
  {
    if p == [] {
      assert Stuff(p) + tail == tail && got + p == got;
    } else {
      assert Stuff(p) + tail == StuffByte(p[0]) + (Stuff(p[1..]) + tail);
      StoreIsCut(got, p[0], p[1..], len);
      ReadStuffed(p[1..], tail, Store(got, p[0], len), len);
      assert got + [p[0]] + p[1..] == got + p;
    }
  }

  /** The bytes of an encoded packet after its opening END. */
  lemma ReadBody(p: seq<Byte>, tail: seq<Byte>, got: seq<Byte>, len: nat)
    requires |got| <= len
    ensures Read(Stuff(p) + [END] + tail, got, len) ==
            if Cut(got + p, len) == [] then Read(tail, [], len) else Frame(Cut(got + p, len), tail)
  {
    assert Stuff(p) + [END] + tail == Stuff(p) + ([END] + tail);
    ReadStuffed(p, [END] + tail, got, len);
    assert ([END] + tail)[1..] == tail;
  }

  lemma ReadEncoded(p: seq<Byte>, tail: seq<Byte>, len: nat)
    ensures Read(Encode(p) + tail, [], len) ==
            if Cut(p, len) == [] then Read(tail, [], len) else Frame(Cut(p, len), tail)
  {
    assert (Encode(p) + tail)[1..] == Stuff(p) + [END] + tail;
    assert [] + p == p;
    ReadBody(p, tail, [], len);
  }

  // ---------------------------------------------------------------- streams of packets

  function EncodeAll(ps: seq<seq<Byte>>): seq<Byte> {
    if ps == [] then [] else Encode(ps[0]) + EncodeAll(ps[1..])
  }

  /** The packets that are not empty, cut to the buffer's length. */
  function Received(ps: seq<seq<Byte>>, len: nat): seq<seq<Byte>> {
    if ps == [] then []
    else if Cut(ps[0], len) == [] then Received(ps[1..], len)
    else [Cut(ps[0], len)] + Received(ps[1..], len)
  }

  function NonEmpty(ps: seq<seq<Byte>>): seq<seq<Byte>> {
    if ps == [] then [] else if ps[0] == [] then NonEmpty(ps[1..]) else [ps[0]] + NonEmpty(ps[1..])
  }

  /** Decoding a stream of encoded packets yields the non-empty ones in order, each cut to the buffer's
    * length; and leaves the decoder ready for the next. */
  lemma {:induction false} StreamsDecode(ps: seq<seq<Byte>>, len: nat)
    ensures Frames(EncodeAll(ps), len) == Received(ps, len)
    ensures Leftover(EncodeAll(ps), len) == Waiting([], false)
    decreases |ps|
  {
    if ps != [] {
      ReadEncoded(ps[0], EncodeAll(ps[1..]), len);
      StreamsDecode(ps[1..], len);
    }
  }

  /** Streams round-trip exactly when the buffer is long enough for every packet. */
  lemma {:induction false} StreamsRoundTrip(ps: seq<seq<Byte>>, len: nat)
    ensures Frames(EncodeAll(ps), len) == NonEmpty(ps) <==> (forall i :: 0 <= i < |ps| ==> |ps[i]| <= len)
  {
    StreamsDecode(ps, len);
    ReceivedIsNonEmpty(ps, len);
  }

  lemma {:induction false} ReceivedIsNonEmpty(ps: seq<seq<Byte>>, len: nat)
    ensures |Received(ps, len)| <= |NonEmpty(ps)|
    ensures Received(ps, len) == NonEmpty(ps) <==> (forall i :: 0 <= i < |ps| ==> |ps[i]| <= len)
  {
    if ps != [] {
      ReceivedIsNonEmpty(ps[1..], len);
      var r, s := Received(ps, len), NonEmpty(ps);
      assert (forall i :: 0 <= i < |ps| ==> |ps[i]| <= len) <==>
             |ps[0]| <= len && (forall i :: 0 <= i < |ps[1..]| ==> |ps[1..][i]| <= len);
      if ps[0] != [] && Cut(ps[0], len) != [] {
        assert r[1..] == Received(ps[1..], len) && s[1..] == NonEmpty(ps[1..]);
        assert r == s <==> r[0] == s[0] && r[1..] == s[1..];
      }
    }
  }

  // ---------------------------------------------------------------- noise

  /** How a call that has run out of noise goes on with what follows. */
  function Resume(o: Outcome, t: seq<Byte>, len: nat): Outcome
    requires o.Waiting?
  {
    if !o.escaped then Read(t, o.got, len)
    else if t == [] then o
    else Read(t[1..], Store(o.got, Unstuffed(t[0]), len), len)
  }

  lemma {:induction false} ReadAcross(s: seq<Byte>, t: seq<Byte>, got: seq<Byte>, len: nat)
    ensures var o := Read(s, got, len);
            Read(s + t, got, len) == if o.Frame? then Frame(o.frame, o.rest + t) else Resume(o, t, len)
    decreases |s|
  {
    if s == [] {
      assert s + t == t;
    } else if s[0] == ESC {
      if |s| == 1 {
        assert (s + t)[1..] == t;
        if t != [] {
          assert (s + t)[2..] == t[1..];
        }
      } else {
        assert (s + t)[2..] == s[2..] + t;
        ReadAcross(s[2..], t, Store(got, Unstuffed(s[1]), len), len);
      }
    } else {
      assert (s + t)[1..] == s[1..] + t;
      if s[0] == END {
        if got == [] {
          ReadAcross(s[1..], t, got, len);
        }
      } else {
        ReadAcross(s[1..], t, Store(got, s[0], len), len);
      }
    }
  }

  /** What calls return when the first of them goes on from o. */
  function FramesFrom(o: Outcome, t: seq<Byte>, len: nat): seq<seq<Byte>>
    requires o.Waiting?
  {
    match Resume(o, t, len)
    case Frame(f, rest) => [f] + Frames(rest, len)
    case Waiting(_, _) => []
  }

  lemma {:induction false} FramesAcross(s: seq<Byte>, t: seq<Byte>, len: nat)
    ensures Frames(s + t, len) == Frames(s, len) + FramesFrom(Leftover(s, len), t, len)
    decreases |s|
  {
    ReadAcross(s, t, [], len);
    var o := Read(s, [], len);
    if o.Frame? {
      FramesAcross(o.rest, t, len);
    }
  }

  /** What an encoded stream looks like from the second byte on. */
  lemma AfterOpening(ps: seq<seq<Byte>>, got: seq<Byte>, len: nat)
    requires ps != [] && |got| <= len
    ensures EncodeAll(ps) != [] && EncodeAll(ps)[0] == END
    ensures Read(EncodeAll(ps)[1..], got, len) ==
            if Cut(got + ps[0], len) == [] then Read(EncodeAll(ps[1..]), [], len)
            else Frame(Cut(got + ps[0], len), EncodeAll(ps[1..]))
  {
    assert EncodeAll(ps)[1..] == Stuff(ps[0]) + [END] + EncodeAll(ps[1..]);
    ReadBody(ps[0], EncodeAll(ps[1..]), got, len);
  }

  /** The opening END of the next packet closes the frame the noise has begun. */
  lemma OpeningClosesJunk(got: seq<Byte>, ps: seq<seq<Byte>>, len: nat)
    requires ps != [] && 0 < |got| <= len
    ensures FramesFrom(Waiting(got, false), EncodeAll(ps), len) == [got] + Received(ps, len)
  {
    AfterOpening(ps, [], len);
    assert [] + ps[0] == ps[0];
    StreamsDecode(ps[1..], len);
    assert Frames(EncodeAll(ps)[1..], len) == Received(ps, len);
  }

  /** After any noise with no ESC left dangling, at most one junk frame comes out, made of what the noise
    * left over; then every packet sent is received. */
  lemma ResynchronisesAfterNoise(noise: seq<Byte>, ps: seq<seq<Byte>>, len: nat)
    requires !Leftover(noise, len).escaped && ps != []
    ensures var junk := Leftover(noise, len).got;
            Frames(noise + EncodeAll(ps), len) ==
            Frames(noise, len) + ((if junk == [] then [] else [junk]) + Received(ps, len))
  {
    var o := Leftover(noise, len);
    FramesAcross(noise, EncodeAll(ps), len);
    if o.got == [] {
      StreamsDecode(ps, len);
      assert FramesFrom(o, EncodeAll(ps), len) == Frames(EncodeAll(ps), len);
      assert [] + Received(ps, len) == Received(ps, len);
    } else {
      OpeningClosesJunk(o.got, ps, len);
    }
  }

  /** After noise that ends in a dangling ESC, the opening END of the first packet is taken for data and
    * its frame is spoilt: it is what the noise left over, an END, and the packet.  Every later packet is
    * received. */
  lemma DanglingEscapeSpoilsOne(noise: seq<Byte>, ps: seq<seq<Byte>>, len: nat)
    requires Leftover(noise, len).escaped && ps != [] && len > 0
    ensures Frames(noise + EncodeAll(ps), len) ==
            Frames(noise, len) + [Cut(Leftover(noise, len).got + [END] + ps[0], len)] + Received(ps[1..], len)
  {
    var o := Leftover(noise, len);
    FramesAcross(noise, EncodeAll(ps), len);
    StoreIsCut(o.got, END, ps[0], len);
    AfterOpening(ps, Store(o.got, END, len), len);
    StreamsDecode(ps[1..], len);
  }

  function TrailingEscapes(s: seq<Byte>): nat {
    if s == [] || s[|s| - 1] != ESC then 0 else 1 + TrailingEscapes(s[..|s| - 1])
  }

  /** Whether the reader is right after an ESC, byte by byte. */
  function Escaped(s: seq<Byte>): bool {
    s != [] && s[|s| - 1] == ESC && !Escaped(s[..|s| - 1])
  }

  lemma {:induction false} EscapedIsOdd(s: seq<Byte>)
    ensures Escaped(s) <==> TrailingEscapes(s) % 2 == 1
  {
    if s != [] && s[|s| - 1] == ESC {
      EscapedIsOdd(s[..|s| - 1]);
    }
  }

  lemma {:induction false} EscapedSuffix(s: seq<Byte>, k: nat)
    requires k < |s| && !Escaped(s[..k])
    ensures Escaped(s) <==> Escaped(s[k..])
    decreases |s|
  {
    if |s| == k + 1 {
      assert s[..|s| - 1] == s[..k] && s[k..][..0] == [];
    } else {
      var r := s[..|s| - 1];
      assert r[..k] == s[..k] && s[k..][..|s[k..]| - 1] == r[k..];
      EscapedSuffix(r, k);
    }
  }

  lemma {:induction false} ReadEscaped(s: seq<Byte>, got: seq<Byte>, len: nat)
    ensures var o := Read(s, got, len);
            if o.Waiting? then o.escaped == Escaped(s)
            else |o.rest| < |s| && o.rest == s[|s| - |o.rest|..] && !Escaped(s[..|s| - |o.rest|])
    decreases |s|
  {
    var o := Read(s, got, len);
    if s == [] {
    } else if s[0] == ESC {
      if |s| == 1 {
        assert s[..0] == [];
      } else {
        NotEscapedAfterPair(s);
        ReadEscaped(s[2..], Store(got, Unstuffed(s[1]), len), len);
        SuffixOf(s, 2, o);
      }
    } else {
      assert s[..1][..0] == [];
      if s[0] == END {
        if got == [] {
          ReadEscaped(s[1..], got, len);
          SuffixOf(s, 1, o);
        }
      } else {
        ReadEscaped(s[1..], Store(got, s[0], len), len);
        SuffixOf(s, 1, o);
      }
    }
  }

  lemma NotEscapedAfterPair(s: seq<Byte>)
    requires |s| >= 2 && s[0] == ESC
    ensures !Escaped(s[..2])
  {
    var pair := s[..2];
    assert pair[..|pair| - 1] == [ESC];
    assert [ESC][..|[ESC]| - 1] == [];
    assert Escaped([ESC]);
  }

  lemma SuffixOf(s: seq<Byte>, k: nat, o: Outcome)
    requires 0 < k <= |s| && !Escaped(s[..k])
    requires var t := s[k..];
             if o.Waiting? then o.escaped == Escaped(t)
             else |o.rest| < |t| && o.rest == t[|t| - |o.rest|..] && !Escaped(t[..|t| - |o.rest|])
    ensures if o.Waiting? then o.escaped == Escaped(s)
            else |o.rest| < |s| && o.rest == s[|s| - |o.rest|..] && !Escaped(s[..|s| - |o.rest|])
  {
    var t := s[k..];
    if o.Waiting? {
      if k < |s| {
        EscapedSuffix(s, k);
      } else {
        assert s[..k] == s;
      }
    } else {
      var m := |t| - |o.rest|;
      var u := s[..k + m];
      assert u[..k] == s[..k] && u[k..] == t[..m];
      EscapedSuffix(u, k);
    }
  }

  /** The noise leaves an ESC dangling exactly when it ends in an odd number of ESC bytes. */
  lemma {:induction false} DanglingExactly(noise: seq<Byte>, len: nat)
    ensures Leftover(noise, len).escaped <==> TrailingEscapes(noise) % 2 == 1
    decreases |noise|
  {
    ReadEscaped(noise, [], len);
    EscapedIsOdd(noise);
    var o := Read(noise, [], len);
    if o.Frame? {
      var k := |noise| - |o.rest|;
      DanglingExactly(o.rest, len);
      EscapedIsOdd(o.rest);
      if o.rest != [] {
        EscapedSuffix(noise, k);
      } else {
        assert noise[..k] == noise;
      }
    }
  }

  /** q is u over and over again, the last time perhaps cut short. */
  predicate Repeats(u: seq<Byte>, q: seq<Byte>)
    requires u != []
    decreases |q|
  {
    if |q| <= |u| then q <= u else u <= q && Repeats(u, q[|u|..])
  }

  lemma {:induction false} RepeatsExactly(u: seq<Byte>, q: seq<Byte>)
    requires u != []
    ensures q <= u + q <==> Repeats(u, q)
    decreases |q|
  {
    if |q| <= |u| {
      assert (u + q)[..|q|] == u[..|q|];
    } else if u <= q {
      var rest := q[|u|..];
      assert q == u + rest;
      RepeatsExactly(u, rest);
      assert (u + q)[|u|..][..|rest|] == q[..|rest|];
      assert q <= u + q <==> rest <= q;
    } else {
      assert (u + q)[..|u|] == u;
    }
  }

  /** What is put in front of a packet goes unnoticed exactly when the buffer is full of its repetition. */
  lemma UnnoticedExactly(u: seq<Byte>, p: seq<Byte>, len: nat)
    requires u != [] && p != [] && len > 0
    ensures Cut(u + p, len) == Cut(p, len) <==> |p| >= len && Repeats(u, p[..len])
  {
    if |p| >= len {
      var q := p[..len];
      assert (u + p)[..len] == (u + q)[..len];
      RepeatsExactly(u, q);
    } else {
      assert |Cut(u + p, len)| > |p|;
    }
  }

  /** After any noise, the last frame decoded is the packet sent, cut to the buffer's length, exactly when
    * the noise does not end in an odd number of ESC bytes; or when the packet fills the buffer with a
    * repetition of what the noise left over and an END, so that it hides the damage. */
  lemma LastFrameExactly(noise: seq<Byte>, p: seq<Byte>, len: nat)
    requires p != [] && len > 0
    ensures var fs := Frames(noise + Encode(p), len);
            && fs != []
            && (fs[|fs| - 1] == Cut(p, len) <==>
                  || TrailingEscapes(noise) % 2 == 0
                  || (|p| >= len && Repeats(Leftover(noise, len).got + [END], p[..len])))
  {
    DanglingExactly(noise, len);
    assert EncodeAll([p]) == Encode(p) by {
      assert [p][1..] == [];
      assert Encode(p) + [] == Encode(p);
    }
    assert Received([p], len) == [Cut(p, len)] && Received([p][1..], len) == [];
    if Leftover(noise, len).escaped {
      DanglingEscapeSpoilsOne(noise, [p], len);
      UnnoticedExactly(Leftover(noise, len).got + [END], p, len);
    } else {
      ResynchronisesAfterNoise(noise, [p], len);
    }
  }
}
