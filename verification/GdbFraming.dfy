/** Packets of the GDB remote protocol: hex digits, escapes, framing and checksums (gdbstub.c). */
module GdbFraming {
  import opened Prelude

  const MAX_PACKET_LENGTH := 4096

  const DOLLAR: Byte := 0x24
  const HASH: Byte := 0x23
  const PLUS: Byte := 0x2b
  const MINUS: Byte := 0x2d
  const STAR: Byte := 0x2a
  const BRACE: Byte := 0x7d

  function FromHex(v: Byte): (r: nat)
    ensures r < 16
  {
    if 0x30 <= v <= 0x39 then v - 0x30
    else if 0x41 <= v <= 0x46 then v - 0x41 + 10
    else if 0x61 <= v <= 0x66 then v - 0x61 + 10
    else 0
  }

  function ToHex(v: nat): (r: Byte)
    requires v < 16
    ensures FromHex(r) == v && r != HASH
  {
    if v < 10 then v + 0x30 else v - 10 + 0x61
  }

  const DIGITS: seq<Byte> :=
    [0x30, 0x31, 0x32, 0x33, 0x34, 0x35, 0x36, 0x37, 0x38, 0x39, 0x61, 0x62, 0x63, 0x64, 0x65, 0x66]

  const CAPITALS: seq<Byte> :=
    [0x30, 0x31, 0x32, 0x33, 0x34, 0x35, 0x36, 0x37, 0x38, 0x39, 0x41, 0x42, 0x43, 0x44, 0x45, 0x46]

  /** Digits are written in lower case and read in either; anything else counts as zero. */
  lemma HexDigits(c: Byte, v: nat)
    requires v < 16
    ensures ToHex(v) == DIGITS[v] && FromHex(DIGITS[v]) == v && FromHex(CAPITALS[v]) == v
    ensures c !in DIGITS && c !in CAPITALS ==> FromHex(c) == 0
  {
    assert 0x30 <= c <= 0x39 ==> DIGITS[c - 0x30] == c;
    assert 0x41 <= c <= 0x46 ==> CAPITALS[c - 0x41 + 10] == c;
    assert 0x61 <= c <= 0x66 ==> DIGITS[c - 0x61 + 10] == c;
  }

  /** The bytes that `hex` spells, two digits each. */
  function Unhexed(hex: seq<Byte>): seq<Byte> {
    if |hex| < 2 then [] else [FromHex(hex[0]) * 16 + FromHex(hex[1])] + Unhexed(hex[2..])
  }

  function Hexed(mem: seq<Byte>): (hex: seq<Byte>)
    ensures |hex| == 2 * |mem|
  {
    if mem == [] then [] else [ToHex(mem[0] / 16), ToHex(mem[0] % 16)] + Hexed(mem[1..])
  }

  lemma {:induction false} HexRoundTrip(mem: seq<Byte>)
    ensures Unhexed(Hexed(mem)) == mem && HASH !in Hexed(mem)
  {
    if mem != [] {
      var hex := Hexed(mem);
      assert hex[2..] == Hexed(mem[1..]);
      HexRoundTrip(mem[1..]);
    }
  }

  lemma {:induction false} HexedSnoc(mem: seq<Byte>, c: Byte)
    ensures Hexed(mem + [c]) == Hexed(mem) + [ToHex(c / 16), ToHex(c % 16)]
  {
    if mem == [] {
      assert mem + [c] == [c] && [c][1..] == [];
    } else {
      assert (mem + [c])[1..] == mem[1..] + [c];
      HexedSnoc(mem[1..], c);
    }
  }

  method MemToHex(mem: seq<Byte>) returns (buf: seq<Byte>)
    ensures buf == Hexed(mem) && Unhexed(buf) == mem
  {
    buf := [];
    var i := 0;
    while i < |mem|
      invariant i <= |mem| && buf == Hexed(mem[..i])
    {
      HexedSnoc(mem[..i], mem[i]);
      assert mem[..i + 1] == mem[..i] + [mem[i]];
      buf := buf + [ToHex(mem[i] / 16), ToHex(mem[i] % 16)];
      i := i + 1;
    }
    assert mem[..i] == mem;
    HexRoundTrip(mem);
  }

  lemma UnhexedNext(buf: seq<Byte>, i: nat, len: nat)
    requires i <= len && 2 * len <= |buf|
    ensures if i == len then Unhexed(buf[2 * i..2 * len]) == []
            else Unhexed(buf[2 * i..2 * len]) ==
                 [FromHex(buf[2 * i]) * 16 + FromHex(buf[2 * i + 1])] + Unhexed(buf[2 * (i + 1)..2 * len])
    ensures buf[0..2 * len] == buf[..2 * len]
  {
    if i < len {
      assert buf[2 * i..2 * len][2..] == buf[2 * (i + 1)..2 * len];
    }
  }

  method HexToMem(buf: seq<Byte>, len: nat) returns (mem: seq<Byte>)
    requires 2 * len <= |buf|
    ensures mem == Unhexed(buf[..2 * len])
  {
    hide FromHex, Unhexed;
    mem := [];
    var i := 0;
    UnhexedNext(buf, 0, len);
    while i < len
      invariant i <= len && mem + Unhexed(buf[2 * i..2 * len]) == Unhexed(buf[..2 * len])
    {
      UnhexedNext(buf, i, len);
      mem := mem + [FromHex(buf[2 * i]) * 16 + FromHex(buf[2 * i + 1])];
      i := i + 1;
    }
    UnhexedNext(buf, len, len);
  }

  // Escapes for binary data.

  predicate Special(c: Byte) {
    c == HASH || c == DOLLAR || c == STAR || c == BRACE
  }

  function Flip(c: Byte): Byte {
    if c / 0x20 % 2 == 1 then c - 0x20 else c + 0x20
  }

  /** A special character goes out as the brace and its exclusive or with 0x20. */
  lemma FlipIsXor(c: Byte)
    ensures Special(c) ==> Escaped([c]) == [BRACE, ((c as bv8) ^ 0x20) as Byte]
    ensures !Special(c) ==> Escaped([c]) == [c]
  {
    assert [c][1..] == [];
    assert Special(c) ==> ((c as bv8) ^ 0x20) as Byte == Flip(c);
  }

  function Escaped(mem: seq<Byte>): seq<Byte> {
    if mem == [] then []
    else (if Special(mem[0]) then [BRACE, Flip(mem[0])] else [mem[0]]) + Escaped(mem[1..])
  }

  function Unescaped(buf: seq<Byte>): seq<Byte> {
    if buf == [] then []
    else if buf[0] == BRACE && |buf| > 1 then [Flip(buf[1])] + Unescaped(buf[2..])
    else [buf[0]] + Unescaped(buf[1..])
  }

  /** Escaping hides every special character, at most doubles the length, and can be undone. */
  lemma {:induction false} EscapeRoundTrip(mem: seq<Byte>)
    ensures Unescaped(Escaped(mem)) == mem && |Escaped(mem)| <= 2 * |mem|
    ensures HASH !in Escaped(mem) && DOLLAR !in Escaped(mem) && STAR !in Escaped(mem)
  {
    if mem != [] {
      EscapeRoundTrip(mem[1..]);
      var buf, rest := Escaped(mem), Escaped(mem[1..]);
      if Special(mem[0]) {
        assert buf[2..] == rest;
      } else {
        assert buf[1..] == rest;
      }
    }
  }

  lemma {:induction false} EscapedSnoc(mem: seq<Byte>, c: Byte)
    ensures Escaped(mem + [c]) == Escaped(mem) + if Special(c) then [BRACE, Flip(c)] else [c]
  {
    if mem == [] {
      assert mem + [c] == [c] && [c][1..] == [];
    } else {
      assert (mem + [c])[1..] == mem[1..] + [c];
      EscapedSnoc(mem[1..], c);
    }
  }

  /** memtox */
  method MemToX(mem: seq<Byte>) returns (buf: seq<Byte>)
    ensures buf == Escaped(mem) && Unescaped(buf) == mem && HASH !in buf && |buf| <= 2 * |mem|
  {
    buf := [];
    var i := 0;
    while i < |mem|
      invariant i <= |mem| && buf == Escaped(mem[..i])
    {
      EscapedSnoc(mem[..i], mem[i]);
      assert mem[..i + 1] == mem[..i] + [mem[i]];
      buf := buf + if Special(mem[i]) then [BRACE, Flip(mem[i])] else [mem[i]];
      i := i + 1;
    }
    assert mem[..i] == mem;
    EscapeRoundTrip(mem);
  }

  // Frames.

  function Sum(s: seq<Byte>): nat {
    if s == [] then 0 else Sum(s[..|s| - 1]) + s[|s| - 1]
  }

  method Checksum(s: seq<Byte>) returns (csum: nat)
    ensures csum == Sum(s)
  {
    csum := 0;
    var i := 0;
    while i < |s|
      invariant i <= |s| && csum == Sum(s[..i])
    {
      assert s[..i + 1][..i] == s[..i];
      csum := csum + s[i];
      i := i + 1;
    }
    assert s[..i] == s;
  }

  function Frame(payload: seq<Byte>): seq<Byte> {
    [DOLLAR] + payload + Trailer(Sum(payload))
  }

  function Trailer(sum: nat): seq<Byte> {
    [HASH, ToHex(sum / 16 % 16), ToHex(sum % 16)]
  }

  datatype RState = Idle | GetLine | Chksum1 | Chksum2

  datatype Parser = Parser(state: RState, line: seq<Byte>, csum: nat) {
    /** A line never fills the buffer's last place and has no end mark in it. */
    predicate Ok() {
      |line| < MAX_PACKET_LENGTH && HASH !in line
    }
  }

  /** What one byte does to the parser, what is answered, and which packet is handed over. */
  datatype Outcome = Outcome(parser: Parser, reply: seq<Byte>, packets: seq<seq<Byte>>)

  function Step(p: Parser, ch: Byte): Outcome {
    match p.state
    case Idle => Outcome(if ch == DOLLAR then p.(state := GetLine, line := []) else p, [], [])
    case GetLine =>
      if ch == HASH then Outcome(p.(state := Chksum1), [], [])
      else if |p.line| >= MAX_PACKET_LENGTH - 1 then Outcome(p.(state := Idle), [], [])
      else Outcome(p.(line := p.line + [ch]), [], [])
    case Chksum1 => Outcome(p.(state := Chksum2, csum := FromHex(ch) * 16), [], [])
    case Chksum2 =>
      var csum := p.csum + FromHex(ch);
      var next := p.(state := Idle, csum := csum);
      if csum != Sum(p.line) % 256 then Outcome(next, [MINUS], []) else Outcome(next, [PLUS], [p.line])
  }

  function Feed(p: Parser, s: seq<Byte>): Outcome
    decreases |s|
  {
    if s == [] then Outcome(p, [], [])
    else
      var one := Step(p, s[0]);
      var more := Feed(one.parser, s[1..]);
      Outcome(more.parser, one.reply + more.reply, one.packets + more.packets)
  }

  lemma {:induction false} FeedConcat(p: Parser, a: seq<Byte>, b: seq<Byte>)
    ensures var x := Feed(p, a);
      var y := Feed(x.parser, b);
      Feed(p, a + b) == Outcome(y.parser, x.reply + y.reply, x.packets + y.packets)
    decreases |a|
  {
    hide Step;
    if a == [] {
      assert a + b == b;
    } else {
      assert (a + b)[0] == a[0] && (a + b)[1..] == a[1..] + b;
      FeedConcat(Step(p, a[0]).parser, a[1..], b);
    }
  }

  lemma StepLine(p: Parser, ch: Byte)
    requires p.state.GetLine? && ch != HASH && |p.line| + 1 < MAX_PACKET_LENGTH
    ensures Step(p, ch) == Outcome(p.(line := p.line + [ch]), [], [])
  {
  }

  lemma FeedNext(p: Parser, s: seq<Byte>)
    ensures if s == [] then Feed(p, s) == Outcome(p, [], [])
            else
              var one := Step(p, s[0]);
              var more := Feed(one.parser, s[1..]);
              Feed(p, s) == Outcome(more.parser, one.reply + more.reply, one.packets + more.packets)
  {
  }

  lemma {:induction false} FeedLine(p: Parser, s: seq<Byte>)
    requires p.state.GetLine? && HASH !in s && |p.line| + |s| < MAX_PACKET_LENGTH
    ensures Feed(p, s) == Outcome(p.(line := p.line + s), [], [])
    decreases |s|
  {
    hide Step, Feed;
    FeedNext(p, s);
    if s != [] {
      assert s[0] in s;
      StepLine(p, s[0]);
      FeedLine(p.(line := p.line + [s[0]]), s[1..]);
      assert p.line + [s[0]] + s[1..] == p.line + s;
    } else {
      assert p.line + s == p.line;
    }
  }

  lemma FeedTrailer(p: Parser, c1: Byte, c2: Byte)
    requires p.state.GetLine?
    ensures var csum := FromHex(c1) * 16 + FromHex(c2);
      Feed(p, [HASH, c1, c2]) ==
      if csum == Sum(p.line) % 256 then Outcome(Parser(Idle, p.line, csum), [PLUS], [p.line])
      else Outcome(Parser(Idle, p.line, csum), [MINUS], [])
  {
    var s := [HASH, c1, c2];
    var p1 := Step(p, HASH).parser;
    var p2 := Step(p1, c1).parser;
    var last := Step(p2, c2);
    assert s[1..] == [c1, c2] && s[1..][1..] == [c2] && [c2][1..] == [];
    assert Feed(p2, [c2]) == Outcome(last.parser, last.reply + [], last.packets + []);
    assert Feed(p1, [c1, c2]) == Feed(p2, [c2]);
  }

  /** A framed payload with any two checksum characters: it is handed over exactly when they spell its checksum. */
  lemma FramedPayload(p: Parser, payload: seq<Byte>, c1: Byte, c2: Byte)
    requires p.state.Idle? && HASH !in payload && |payload| < MAX_PACKET_LENGTH
    ensures var csum := FromHex(c1) * 16 + FromHex(c2);
      Feed(p, [DOLLAR] + payload + [HASH, c1, c2]) ==
      if csum == Sum(payload) % 256 then Outcome(Parser(Idle, payload, csum), [PLUS], [payload])
      else Outcome(Parser(Idle, payload, csum), [MINUS], [])
  {
    hide Step;
    var start := p.(state := GetLine, line := []);
    StartsLine(p);
    FeedConcat(p, [DOLLAR] + payload, [HASH, c1, c2]);
    FeedConcat(p, [DOLLAR], payload);
    FeedLine(start, payload);
    assert [] + payload == payload;
    FeedTrailer(start.(line := payload), c1, c2);
  }

  lemma StartsLine(p: Parser)
    requires p.state.Idle?
    ensures Feed(p, [DOLLAR]) == Outcome(p.(state := GetLine, line := []), [], [])
  {
    assert [DOLLAR][1..] == [];
  }

  /** Whatever arrives, only lines that fit the buffer and have no end mark in them are handed over. */
  lemma {:induction false} PacketsOk(p: Parser, s: seq<Byte>)
    requires p.Ok()
    ensures Feed(p, s).parser.Ok()
    ensures forall q | q in Feed(p, s).packets :: |q| < MAX_PACKET_LENGTH && HASH !in q
    decreases |s|
  {
    if s != [] {
      PacketsOk(Step(p, s[0]).parser, s[1..]);
    }
  }

  lemma LowByte(n: nat)
    ensures n / 16 % 16 * 16 + n % 16 == n % 256
  {
    var q, r := n / 256, n % 256;
    assert n == 256 * q + r;
    assert n / 16 == 16 * q + r / 16;
  }

  lemma FrameParts(payload: seq<Byte>)
    ensures var sum := Sum(payload);
      var c1, c2 := ToHex(sum / 16 % 16), ToHex(sum % 16);
      Frame(payload) == [DOLLAR] + payload + [HASH, c1, c2] && FromHex(c1) * 16 + FromHex(c2) == sum % 256
  {
    hide FromHex, ToHex, Sum;
    LowByte(Sum(payload));
  }

  /** A frame gets its payload across if, and only if, the payload fits and has no end mark in it. */
  lemma FrameRoundTrip(p: Parser, payload: seq<Byte>)
    requires p.state.Idle? && p.Ok()
    ensures Feed(p, Frame(payload)).packets == [payload] <==> HASH !in payload && |payload| < MAX_PACKET_LENGTH
    ensures HASH !in payload && |payload| < MAX_PACKET_LENGTH ==>
      Feed(p, Frame(payload)).reply == [PLUS] && Feed(p, Frame(payload)).parser.state.Idle?
  {
    hide Feed, Sum, Frame, FromHex, ToHex;
    var sum := Sum(payload);
    FrameParts(payload);
    if HASH !in payload && |payload| < MAX_PACKET_LENGTH {
      FramedPayload(p, payload, ToHex(sum / 16 % 16), ToHex(sum % 16));
    } else {
      PacketsOk(p, Frame(payload));
      assert payload in [payload];
    }
  }

  class GdbStub {
    var parser: Parser
    var running: bool
    var lastPacket: seq<Byte>
    var waiting: bool
    var out: seq<Byte>
    ghost var packets: seq<seq<Byte>>

    /** put_packet_binary: the frame is sent and remembered until it is acknowledged. */
    method PutPacketBinary(buf: seq<Byte>)
      requires |buf| <= MAX_PACKET_LENGTH
      modifies this`lastPacket, this`waiting, this`out
      ensures out == old(out) + Frame(buf) && lastPacket == Frame(buf) && waiting
    {
      var csum := Checksum(buf);
      lastPacket := [DOLLAR] + buf + [HASH, ToHex(csum / 16 % 16), ToHex(csum % 16)];
      waiting := true;
      out := out + lastPacket;
    }

    /** gdb_read_byte.  While an answer is awaited only the start of a new packet gets through; a running machine
        is stopped and the byte lost. */
    method ReadByte(ch: Byte)
      modifies this
      ensures lastPacket == old(lastPacket) && waiting == (old(waiting) && ch != PLUS && ch != DOLLAR)
      ensures old(waiting) && ch != DOLLAR ==>
        && parser == old(parser) && running == old(running) && packets == old(packets)
        && out == old(out) + if ch == MINUS then lastPacket else []
      ensures !(old(waiting) && ch != DOLLAR) && old(running) ==>
        !running && parser == old(parser) && out == old(out) && packets == old(packets)
      ensures !(old(waiting) && ch != DOLLAR) && !old(running) ==>
        var o := Step(old(parser), ch);
        !running && parser == o.parser && out == old(out) + o.reply && packets == old(packets) + o.packets
    {
      if waiting {
        if ch == MINUS {
          out := out + lastPacket;
        }
        if ch == PLUS || ch == DOLLAR {
          waiting := false;
        }
        if ch != DOLLAR {
          return;
        }
      }
      if running {
        running := false;
        return;
      }
      match parser.state {
        case Idle =>
          if ch == DOLLAR {
            parser := parser.(state := GetLine, line := []);
          }
        case GetLine =>
          if ch == HASH {
            parser := parser.(state := Chksum1);
          } else if |parser.line| >= MAX_PACKET_LENGTH - 1 {
            parser := parser.(state := Idle);
          } else {
            parser := parser.(line := parser.line + [ch]);
          }
        case Chksum1 =>
          parser := parser.(csum := FromHex(ch) * 16, state := Chksum2);
        case Chksum2 =>
          var csum := Checksum(parser.line);
          parser := parser.(csum := parser.csum + FromHex(ch));
          if parser.csum != csum % 256 {
            out := out + [MINUS];
          } else {
            out := out + [PLUS];
            packets := packets + [parser.line];
          }
          parser := parser.(state := Idle);
      }
    }

    /** A whole frame, byte by byte, with the machine stopped and no answer awaited. */
    method ReceiveFrame(payload: seq<Byte>)
      requires !running && !waiting && parser.state.Idle? && parser.Ok()
      modifies this
      ensures HASH !in payload && |payload| < MAX_PACKET_LENGTH ==>
        out == old(out) + [PLUS] && packets == old(packets) + [payload] && parser.state.Idle?
    {
      hide Step, Feed, Frame;
      var s := Frame(payload);
      var i := 0;
      FrameRoundTrip(parser, payload);
      FeedNothing(parser);
      while i < |s|
        invariant i <= |s| && !running && !waiting
        invariant var o := Feed(old(parser), s[..i]);
          parser == o.parser && out == old(out) + o.reply && packets == old(packets) + o.packets
      {
        FeedSnoc(old(parser), s[..i], s[i]);
        assert s[..i + 1] == s[..i] + [s[i]];
        ReadByte(s[i]);
        i := i + 1;
      }
      assert s[..i] == s;
    }
  }

  lemma FeedNothing(p: Parser)
    ensures Feed(p, []) == Outcome(p, [], [])
  {
  }

  lemma FeedSnoc(p: Parser, s: seq<Byte>, ch: Byte)
    ensures var x := Feed(p, s);
      var y := Step(x.parser, ch);
      Feed(p, s + [ch]) == Outcome(y.parser, x.reply + y.reply, x.packets + y.packets)
  {
    hide Step;
    FeedConcat(p, s, [ch]);
    var x := Feed(p, s);
    var y := Step(x.parser, ch);
    assert [ch][1..] == [];
    assert Feed(x.parser, [ch]) == Outcome(y.parser, y.reply + [], y.packets + []);
    assert y.reply + [] == y.reply && y.packets + [] == y.packets;
  }
}
