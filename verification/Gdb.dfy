/**
  The packet layer of the GDB remote serial protocol (qemu/gdbstub.c): the
  byte-at-a-time decoder, the encoders, and what they are to each other.
 */
module Gdb {
  import opened Basics

  // Characters of the protocol.
  const DOLLAR: byte := 36
  const HASH: byte := 35
  const STAR: byte := 42
  const PLUS: byte := 43
  const MINUS: byte := 45
  const BRACE: byte := 125
  const SPACE: byte := 32

  const MAX_PACKET_LENGTH: nat := 4096

  /** sizeof(line_buf) - 1 */
  const LINE_MAX: nat := 4095

  /** c ^ 0x20 */
  function Xor20(c: byte): byte {
    if (c / 32) % 2 == 1 then c - 32 else c + 32
  }

  // Hex digits.

  function FromHex(v: byte): (d: nat)
    ensures d < 16
  {
    if 48 <= v <= 57 then v - 48 else if 65 <= v <= 70 then v - 55 else if 97 <= v <= 102 then v - 87 else 0
  }

  predicate IsXDigit(v: byte) {
    48 <= v <= 57 || 65 <= v <= 70 || 97 <= v <= 102
  }

  function ToHex(v: nat): (c: byte)
    requires v < 16
    ensures IsXDigit(c) && FromHex(c) == v
  {
    if v < 10 then v + 48 else v + 87
  }

  /** The two digits of a byte. */
  function HexPair(c: byte): seq<byte> {
    [ToHex(c / 16), ToHex(c % 16)]
  }

  function HexOf(mem: seq<byte>): seq<byte> {
    if mem == [] then [] else HexOf(mem[..|mem| - 1]) + HexPair(mem[|mem| - 1])
  }

  // The decoder.

  datatype RSState = Idle | GetLine | GetLineEsc | GetLineRle | Chksum1 | Chksum2

  /**
    line is the used part of line_buf; last is last_packet, empty when no reply is
    awaited; out are the bytes sent, packets the lines handed to gdb_handle_packet.
   */
  datatype Decoder = Decoder(state: RSState, line: seq<byte>, sum: nat, csum: nat, last: seq<byte>, out: seq<byte>,
                             packets: seq<seq<byte>>, running: bool)

  function Fill(c: byte, n: nat): (s: seq<byte>)
    ensures |s| == n
  {
    seq(n, _ => c)
  }

  /** The switch of gdb_read_byte. */
  function Parse(d: Decoder, ch: byte): Decoder {
    match d.state
    case Idle =>
      if ch == DOLLAR then d.(line := [], sum := 0, state := GetLine) else d
    case GetLine =>
      if ch == BRACE then d.(state := GetLineEsc, sum := d.sum + ch)
      else if ch == STAR then d.(state := GetLineRle, sum := d.sum + ch)
      else if ch == HASH then d.(state := Chksum1)
      else if |d.line| >= LINE_MAX then d.(state := Idle)
      else d.(line := d.line + [ch], sum := d.sum + ch)
    case GetLineEsc =>
      if ch == HASH then d.(state := Chksum1)
      else if |d.line| >= LINE_MAX then d.(state := Idle)
      else d.(line := d.line + [Xor20(ch)], sum := d.sum + ch, state := GetLine)
    case GetLineRle =>
      if ch < SPACE then d.(state := GetLine)
      else if |d.line| + (ch - SPACE + 3) >= LINE_MAX then d.(state := Idle)
      else if |d.line| < 1 then d.(state := GetLine)
      else d.(line := d.line + Fill(d.line[|d.line| - 1], ch - SPACE + 3), sum := d.sum + ch, state := GetLine)
    case Chksum1 =>
      if !IsXDigit(ch) then d.(state := GetLine) else d.(csum := 16 * FromHex(ch), state := Chksum2)
    case Chksum2 =>
      if !IsXDigit(ch) then d.(state := GetLine)
      else
        var csum := d.csum + FromHex(ch);
        if csum != d.sum % 256 then d.(csum := csum, out := d.out + [MINUS], state := Idle)
        else d.(csum := csum, out := d.out + [PLUS], packets := d.packets + [d.line], state := Idle)
  }

  /** gdb_read_byte */
  function Step(d: Decoder, ch: byte): Decoder {
    var e :=
      if d.last == [] then d
      else d.(out := if ch == MINUS then d.out + d.last else d.out,
              last := if ch == PLUS || ch == DOLLAR then [] else d.last);
    if d.last != [] && ch != DOLLAR then e
    else if e.running then e.(running := false)
    else Parse(e, ch)
  }

  function Feed(d: Decoder, s: seq<byte>): Decoder
    decreases |s|
  {
    if s == [] then d else Feed(Step(d, s[0]), s[1..])
  }

  lemma {:induction false} FeedConcat(d: Decoder, s: seq<byte>, t: seq<byte>)
    ensures Feed(d, s + t) == Feed(Feed(d, s), t)
    decreases |s|
  {
    if s == [] {
      assert s + t == t;
    } else {
      assert (s + t)[0] == s[0] && (s + t)[1..] == s[1..] + t;
      FeedConcat(Step(d, s[0]), s[1..], t);
    }
  }

  /** Over any stream the line never grows beyond its buffer. */
  lemma {:induction false} LineBounded(d: Decoder, s: seq<byte>)
    requires |d.line| <= LINE_MAX
    ensures |Feed(d, s).line| <= LINE_MAX
    decreases |s|
  {
    if s != [] {
      LineBounded(Step(d, s[0]), s[1..]);
    }
  }

  /** Each complete packet is answered by one byte, and handed on exactly if that is an acknowledgement. */
  lemma OneAnswer(d: Decoder, ch: byte)
    requires d.last == []
    ensures var e := Step(d, ch);
            || (e.packets == d.packets && (e.out == d.out || (e.out == d.out + [MINUS] && e.state.Idle?)))
            || (e.packets == d.packets + [d.line] && e.out == d.out + [PLUS] && e.state.Idle? && d.sum % 256 == e.csum)
  {
  }

  /** How many of the bytes are acknowledgements. */
  function Acks(out: seq<byte>): nat {
    if out == [] then 0 else Acks(out[..|out| - 1]) + if out[|out| - 1] == PLUS then 1 else 0
  }

  lemma AcksMore(out: seq<byte>, c: byte)
    ensures Acks(out + [c]) == Acks(out) + if c == PLUS then 1 else 0
  {
    assert (out + [c])[..|out|] == out;
  }

  /** Over any stream there are as many acknowledgements as packets handed on, and what was sent and handed on stays. */
  lemma {:induction false} AckEach(d: Decoder, s: seq<byte>)
    requires d.last == []
    ensures var e := Feed(d, s);
            e.last == [] && d.out <= e.out && d.packets <= e.packets
            && Acks(e.out) - Acks(d.out) == |e.packets| - |d.packets|
    decreases |s|
  {
    if s != [] {
      OneAnswer(d, s[0]);
      AcksMore(d.out, PLUS);
      AcksMore(d.out, MINUS);
      AckEach(Step(d, s[0]), s[1..]);
    }
  }

  // The encoding.

  /** One unit of a packet's text: a character, an escaped one, or a repetition of the one before. */
  datatype Token = Lit(c: byte) | Esc(c: byte) | Run(n: nat)

  predicate Proper(t: Token) {
    match t
    case Lit(c) => c != HASH && c != BRACE && c != STAR
    case Esc(c) => Xor20(c) != HASH
    case Run(n) => 3 <= n <= 226
  }

  function Text(t: Token): seq<byte>
    requires Proper(t)
  {
    match t
    case Lit(c) => [c]
    case Esc(c) => [BRACE, Xor20(c)]
    case Run(n) => [STAR, n + 29]
  }

  predicate AllProper(ts: seq<Token>) {
    forall i | 0 <= i < |ts| :: Proper(ts[i])
  }

  function Texts(ts: seq<Token>): seq<byte>
    requires AllProper(ts)
  {
    if ts == [] then [] else Text(ts[0]) + Texts(ts[1..])
  }

  /** What a token adds to the line, if there is room for it. */
  predicate Fits(line: seq<byte>, t: Token) {
    if t.Run? then 1 <= |line| && |line| + t.n < LINE_MAX else |line| < LINE_MAX
  }

  function Expand(line: seq<byte>, t: Token): seq<byte>
    requires Fits(line, t)
  {
    if t.Run? then line + Fill(line[|line| - 1], t.n) else line + [t.c]
  }

  predicate AllFit(line: seq<byte>, ts: seq<Token>)
    decreases |ts|
  {
    ts == [] || (Fits(line, ts[0]) && AllFit(Expand(line, ts[0]), ts[1..]))
  }

  function ExpandAll(line: seq<byte>, ts: seq<Token>): seq<byte>
    requires AllFit(line, ts)
    decreases |ts|
  {
    if ts == [] then line else ExpandAll(Expand(line, ts[0]), ts[1..])
  }

  function Sum(s: seq<byte>): nat {
    if s == [] then 0 else s[0] + Sum(s[1..])
  }

  lemma {:induction false} SumConcat(s: seq<byte>, t: seq<byte>)
    ensures Sum(s + t) == Sum(s) + Sum(t)
  {
    if s == [] {
      assert s + t == t;
    } else {
      assert (s + t)[0] == s[0] && (s + t)[1..] == s[1..] + t;
      SumConcat(s[1..], t);
    }
  }

  /** put_packet_binary: the text between its frame and its checksum. */
  function Frame(text: seq<byte>): seq<byte> {
    [DOLLAR] + text + [HASH] + HexPair(Sum(text) % 256)
  }

  /** memtox */
  function Escaped(c: byte): Token {
    if c == HASH || c == DOLLAR || c == STAR || c == BRACE then Esc(c) else Lit(c)
  }

  function MemToX(mem: seq<byte>): seq<byte> {
    if mem == [] then [] else Text(Escaped(mem[0])) + MemToX(mem[1..])
  }

  /** The decoder is between packets and the machine is stopped. */
  predicate Listening(d: Decoder) {
    d.state.Idle? && !d.running
  }

  lemma FeedTwo(d: Decoder, a: byte, b: byte)
    ensures Feed(d, [a, b]) == Step(Step(d, a), b)
  {
    assert [a, b][1..] == [b];
    assert Feed(Step(d, a), [b]) == Feed(Step(Step(d, a), b), []);
  }

  /** One token in the middle of a packet. */
  lemma FeedToken(d: Decoder, t: Token)
    requires d.state.GetLine? && d.last == [] && !d.running && Proper(t) && Fits(d.line, t)
    ensures Feed(d, Text(t)) == d.(line := Expand(d.line, t), sum := d.sum + Sum(Text(t)))
  {
    match t
    case Lit(c) => FeedLit(d, c);
    case Esc(c) =>
      FeedTwo(d, BRACE, Xor20(c));
      SumTwo(BRACE, Xor20(c));
      StepEsc(d, c);
    case Run(n) =>
      FeedTwo(d, STAR, n + 29);
      SumTwo(STAR, n + 29);
      StepRun(d, n);
  }

  lemma FeedLit(d: Decoder, c: byte)
    requires d.state.GetLine? && d.last == [] && !d.running && Proper(Lit(c)) && Fits(d.line, Lit(c))
    ensures Feed(d, [c]) == d.(line := d.line + [c], sum := d.sum + Sum([c]))
  {
    assert Feed(d, [c]) == Feed(Step(d, c), []);
    assert Sum([c]) == c;
  }

  lemma StepEsc(d: Decoder, c: byte)
    requires d.state.GetLine? && d.last == [] && !d.running && Proper(Esc(c)) && Fits(d.line, Esc(c))
    ensures Step(Step(d, BRACE), Xor20(c)) == d.(line := d.line + [c], sum := d.sum + BRACE + Xor20(c))
  {
  }

  lemma StepRun(d: Decoder, n: nat)
    requires d.state.GetLine? && d.last == [] && !d.running && Proper(Run(n)) && Fits(d.line, Run(n))
    ensures Step(Step(d, STAR), n + 29) == d.(line := Expand(d.line, Run(n)), sum := d.sum + STAR + (n + 29))
  {
  }

  lemma SumTwo(a: byte, b: byte)
    ensures Sum([a, b]) == a + b
  {
    assert [a, b][1..] == [b];
    assert Sum([b]) == b;
  }

  lemma {:induction false} FeedTokens(d: Decoder, ts: seq<Token>)
    requires d.state.GetLine? && d.last == [] && !d.running && AllProper(ts) && AllFit(d.line, ts)
    ensures Feed(d, Texts(ts)) == d.(line := ExpandAll(d.line, ts), sum := d.sum + Sum(Texts(ts)))
    decreases |ts|
  {
    if ts != [] {
      var e := d.(line := Expand(d.line, ts[0]), sum := d.sum + Sum(Text(ts[0])));
      FeedToken(d, ts[0]);
      FeedConcat(d, Text(ts[0]), Texts(ts[1..]));
      FeedTokens(e, ts[1..]);
      SumConcat(Text(ts[0]), Texts(ts[1..]));
    }
  }

  /** A packet up to its checksum. */
  lemma FeedBody(d: Decoder, ts: seq<Token>)
    requires Listening(d) && AllProper(ts) && AllFit([], ts)
    ensures var e := Feed(d, [DOLLAR] + Texts(ts) + [HASH]);
            && e.state.Chksum1? && e.line == ExpandAll([], ts) && e.sum == Sum(Texts(ts))
            && e.last == [] && !e.running && e.out == d.out && e.packets == d.packets
  {
    var e := Step(d, DOLLAR);
    FeedConcat(d, [DOLLAR] + Texts(ts), [HASH]);
    FeedConcat(d, [DOLLAR], Texts(ts));
    assert Feed(d, [DOLLAR]) == Feed(e, []);
    FeedTokens(e, ts);
    var f := Feed(e, Texts(ts));
    assert Feed(f, [HASH]) == Feed(Step(f, HASH), []);
  }

  /** Whatever mix of characters, escapes and runs: the right checksum gets it accepted, and as what it stands for. */
  lemma PacketAccepted(d: Decoder, ts: seq<Token>)
    requires Listening(d) && AllProper(ts) && AllFit([], ts)
    ensures var e := Feed(d, Frame(Texts(ts)));
            e.packets == d.packets + [ExpandAll([], ts)] && e.out == d.out + [PLUS] && e.last == [] && Listening(e)
  {
    var sum := Sum(Texts(ts)) % 256;
    FeedBody(d, ts);
    FeedConcat(d, [DOLLAR] + Texts(ts) + [HASH], HexPair(sum));
    FeedTwo(Feed(d, [DOLLAR] + Texts(ts) + [HASH]), ToHex(sum / 16), ToHex(sum % 16));
  }

  /** Any other checksum gets it rejected. */
  lemma PacketRejected(d: Decoder, ts: seq<Token>, hi: byte, lo: byte)
    requires Listening(d) && AllProper(ts) && AllFit([], ts)
    requires IsXDigit(hi) && IsXDigit(lo) && 16 * FromHex(hi) + FromHex(lo) != Sum(Texts(ts)) % 256
    ensures var e := Feed(d, [DOLLAR] + Texts(ts) + [HASH] + [hi, lo]);
            e.packets == d.packets && e.out == d.out + [MINUS] && e.last == [] && Listening(e)
  {
    FeedBody(d, ts);
    FeedConcat(d, [DOLLAR] + Texts(ts) + [HASH], [hi, lo]);
    FeedTwo(Feed(d, [DOLLAR] + Texts(ts) + [HASH]), hi, lo);
  }

  function Tokens(mem: seq<byte>): (ts: seq<Token>)
    ensures AllProper(ts)
  {
    if mem == [] then [] else [Escaped(mem[0])] + Tokens(mem[1..])
  }

  lemma {:induction false} TokensText(mem: seq<byte>)
    ensures Texts(Tokens(mem)) == MemToX(mem)
  {
    if mem != [] {
      assert Tokens(mem)[1..] == Tokens(mem[1..]);
      TokensText(mem[1..]);
    }
  }

  lemma ExpandStep(line: seq<byte>, t: Token, ts: seq<Token>)
    requires Fits(line, t) && AllFit(Expand(line, t), ts)
    ensures AllFit(line, [t] + ts) && ExpandAll(line, [t] + ts) == ExpandAll(Expand(line, t), ts)
  {
    assert ([t] + ts)[1..] == ts;
  }

  lemma {:induction false} TokensExpand(line: seq<byte>, mem: seq<byte>)
    requires |line| + |mem| <= LINE_MAX
    ensures AllFit(line, Tokens(mem)) && ExpandAll(line, Tokens(mem)) == line + mem
    decreases |mem|
  {
    if mem == [] {
      assert line + mem == line;
    } else {
      var more := line + [mem[0]];
      TokensExpand(more, mem[1..]);
      ExpandStep(line, Escaped(mem[0]), Tokens(mem[1..]));
      assert line + mem == more + mem[1..];
    }
  }

  /** The decoder restores every payload that fits its line from the escaped frame, with an acknowledgement. */
  lemma RoundTrip(d: Decoder, mem: seq<byte>)
    requires Listening(d) && |mem| <= LINE_MAX
    ensures var e := Feed(d, Frame(MemToX(mem)));
            e.packets == d.packets + [mem] && e.out == d.out + [PLUS] && e.last == [] && Listening(e)
  {
    var ts := Tokens(mem);
    TokensText(mem);
    TokensExpand([], mem);
    assert [] + mem == mem;
    assert ExpandAll([], ts) == mem && Texts(ts) == MemToX(mem);
    PacketAccepted(d, ts);
  }

  /** The byte that does not fit ends the packet. */
  lemma LineFull(d: Decoder, mem: seq<byte>)
    requires Listening(d) && |mem| == LINE_MAX + 1
    ensures var e := Feed(d, [DOLLAR] + MemToX(mem));
            e.packets == d.packets && e.out == d.out && e.last == [] && Listening(e)
  {
    var n := LINE_MAX;
    var e := Step(d, DOLLAR);
    FeedConcat(d, [DOLLAR], MemToX(mem));
    assert Feed(d, [DOLLAR]) == Feed(e, []);
    MemToXLast(mem);
    FeedConcat(e, MemToX(mem[..n]), Text(Escaped(mem[n])));
    TokensText(mem[..n]);
    TokensExpand([], mem[..n]);
    FeedTokens(e, Tokens(mem[..n]));
    var f := Feed(e, MemToX(mem[..n]));
    var t := Text(Escaped(mem[n]));
    if |t| == 2 {
      FeedTwo(f, t[0], t[1]);
    } else {
      assert Feed(f, t) == Feed(Step(f, t[0]), []);
    }
  }

  /** Between packets only a dollar sign is heard. */
  lemma {:induction false} Deaf(d: Decoder, s: seq<byte>)
    requires Listening(d) && d.last == [] && DOLLAR !in s
    ensures Feed(d, s) == d
    decreases |s|
  {
    if s != [] {
      assert s[0] != DOLLAR && forall i | 0 <= i < |s[1..]| :: s[1..][i] == s[i + 1];
      Deaf(d, s[1..]);
    }
  }

  /** Escaped text has no dollar sign. */
  lemma {:induction false} NoDollar(mem: seq<byte>)
    ensures DOLLAR !in MemToX(mem)
  {
    if mem != [] {
      NoDollar(mem[1..]);
    }
  }

  lemma {:induction false} MemToXConcat(a: seq<byte>, b: seq<byte>)
    ensures MemToX(a + b) == MemToX(a) + MemToX(b)
  {
    if a == [] {
      assert a + b == b;
    } else {
      assert (a + b)[0] == a[0] && (a + b)[1..] == a[1..] + b;
      MemToXConcat(a[1..], b);
    }
  }

  /** Every longer payload is dropped, without an answer. */
  lemma TooLong(d: Decoder, mem: seq<byte>)
    requires Listening(d) && |mem| > LINE_MAX
    ensures var e := Feed(d, Frame(MemToX(mem))); e.packets == d.packets && e.out == d.out && Listening(e)
  {
    var a, b := mem[..LINE_MAX + 1], mem[LINE_MAX + 1..];
    var sum := HexPair(Sum(MemToX(mem)) % 256);
    var head, tail := [DOLLAR] + MemToX(a), MemToX(b) + [HASH] + sum;
    assert mem == a + b;
    MemToXConcat(a, b);
    assert Frame(MemToX(mem)) == head + tail;
    LineFull(d, a);
    FeedConcat(d, head, tail);
    NoDollar(b);
    assert IsXDigit(sum[0]) && IsXDigit(sum[1]);
    Deaf(Feed(d, head), tail);
  }

  /** What put_packet_binary sends of a text; none if the text with its frame is longer than last_packet. */
  function Packet(text: seq<byte>): Option<seq<byte>> {
    if |text| <= MAX_PACKET_LENGTH then Some(Frame(text)) else None
  }

  /** The payload is sent, and the decoder hands it on. */
  ghost predicate ComesBack(d: Decoder, mem: seq<byte>) {
    var p := Packet(MemToX(mem));
    p.Some? && Feed(d, p.value).packets == d.packets + [mem]
  }

  /** A payload comes back exactly if it fits the receiver's line and its escaped text the sender's packet. */
  lemma RoundTripIff(d: Decoder, mem: seq<byte>)
    requires Listening(d)
    ensures ComesBack(d, mem) <==> |mem| <= LINE_MAX && |MemToX(mem)| <= MAX_PACKET_LENGTH
  {
    if |mem| <= LINE_MAX {
      RoundTrip(d, mem);
    } else {
      TooLong(d, mem);
    }
  }

  lemma {:induction false} EscapedLength(mem: seq<byte>)
    ensures |mem| <= |MemToX(mem)| <= 2 * |mem|
    ensures (forall i | 0 <= i < |mem| :: mem[i] == DOLLAR) ==> |MemToX(mem)| == 2 * |mem|
  {
    if mem != [] {
      EscapedLength(mem[1..]);
    }
  }

  /** Dollar signs that fit the line but not the packet. */
  lemma DollarsDoNotFit(d: Decoder)
    requires Listening(d)
    ensures var mem := Fill(DOLLAR, LINE_MAX); |mem| <= LINE_MAX && |MemToX(mem)| == 8190 && !ComesBack(d, mem)
  {
    EscapedLength(Fill(DOLLAR, LINE_MAX));
  }

  /** The chunks in which gdb_handle_packet sends a feature file always fit, behind their first character. */
  lemma ChunkFits(chunk: seq<byte>)
    requires |chunk| <= (MAX_PACKET_LENGTH - 5) / 2
    ensures 1 + |MemToX(chunk)| <= MAX_PACKET_LENGTH
  {
    EscapedLength(chunk);
  }

  /** The bytes that have been sent from one state to the next. */
  function Answer(d: Decoder, e: Decoder): seq<byte> {
    if |d.out| <= |e.out| then e.out[|d.out|..] else []
  }

  /** A frame whose checksum arrives wrong is refused, sent again and accepted, and then forgotten by the sender. */
  lemma NakRecovers(s: Decoder, d: Decoder, mem: seq<byte>, hi: byte, lo: byte)
    requires Listening(d) && |mem| <= LINE_MAX && s.last == Frame(MemToX(mem))
    requires IsXDigit(hi) && IsXDigit(lo) && 16 * FromHex(hi) + FromHex(lo) != Sum(MemToX(mem)) % 256
    ensures var d1 := Feed(d, [DOLLAR] + MemToX(mem) + [HASH] + [hi, lo]);
            var s1 := Feed(s, Answer(d, d1));
            var d2 := Feed(d1, Answer(s, s1));
            var s2 := Feed(s1, Answer(d1, d2));
            d1.packets == d.packets && s1.last == s.last && d2.packets == d.packets + [mem] && Listening(d2)
            && s2.last == []
  {
    var ts := Tokens(mem);
    TokensText(mem);
    TokensExpand([], mem);
    PacketRejected(d, ts, hi, lo);
    var d1 := Feed(d, [DOLLAR] + MemToX(mem) + [HASH] + [hi, lo]);
    assert Answer(d, d1) == [MINUS];
    var s1 := Step(s, MINUS);
    FeedOne(s, MINUS);
    assert Answer(s, s1) == s.last;
    RoundTrip(d1, mem);
    var d2 := Feed(d1, s.last);
    assert Answer(d1, d2) == [PLUS];
    FeedOne(s1, PLUS);
  }

  lemma FeedOne(d: Decoder, ch: byte)
    ensures Feed(d, [ch]) == Step(d, ch)
  {
    assert [ch][1..] == [];
    assert Feed(Step(d, ch), []) == Step(d, ch);
  }

  lemma {:induction false} MemToXLast(mem: seq<byte>)
    requires mem != []
    ensures MemToX(mem) == MemToX(mem[..|mem| - 1]) + Text(Escaped(mem[|mem| - 1]))
  {
    if |mem| > 1 {
      MemToXLast(mem[1..]);
      assert mem[1..][..|mem| - 2] == mem[..|mem| - 1][1..];
    }
  }

  // The code on its buffers.

  class GdbState {
    var state: RSState
    const lineBuf: array<byte>
    var lineBufIndex: nat
    var lineSum: nat
    var lineCsum: nat
    const lastPacket: array<byte>
    var lastPacketLen: nat
    var running: bool
    var out: seq<byte>
    var packets: seq<seq<byte>>

    ghost predicate Valid()
      reads this
    {
      && lineBuf.Length == LINE_MAX + 1 && lastPacket.Length == LINE_MAX + 5 && lineBuf != lastPacket
      && lineBufIndex <= LINE_MAX && lastPacketLen <= lastPacket.Length
    }

    ghost function Abs(): Decoder
      requires Valid()
      reads this, lineBuf, lastPacket
    {
      Decoder(state, lineBuf[..lineBufIndex], lineSum, lineCsum, lastPacket[..lastPacketLen], out, packets, running)
    }

    constructor ()
      ensures Valid() && Listening(Abs()) && out == [] && packets == [] && lastPacketLen == 0
    {
      state, lineBufIndex, lineSum, lineCsum, lastPacketLen, running, out, packets := Idle, 0, 0, 0, 0, false, [], [];
      lineBuf := new byte[LINE_MAX + 1](_ => 0);
      lastPacket := new byte[LINE_MAX + 5](_ => 0);
    }

    /** One character into the line. */
    method PutChar(ch: byte)
      requires Valid() && lineBufIndex < LINE_MAX
      modifies this`lineBufIndex, lineBuf
      ensures Valid() && Abs() == old(Abs()).(line := old(Abs()).line + [ch])
    {
      lineBuf[lineBufIndex] := ch;
      lineBufIndex := lineBufIndex + 1;
      assert lineBuf[..lineBufIndex] == old(lineBuf[..lineBufIndex]) + [ch];
    }

    /** memset of the last character. */
    method PutRun(repeat: nat)
      requires Valid() && 1 <= lineBufIndex && lineBufIndex + repeat < LINE_MAX
      modifies this`lineBufIndex, lineBuf
      ensures Valid() && Abs() == old(Abs()).(line := old(Abs()).line + Fill(old(lineBuf[lineBufIndex - 1]), repeat))
    {
      var c := lineBuf[lineBufIndex - 1];
      forall i | lineBufIndex <= i < lineBufIndex + repeat {
        lineBuf[i] := c;
      }
      lineBufIndex := lineBufIndex + repeat;
      assert lineBuf[..lineBufIndex] == old(lineBuf[..lineBufIndex]) + Fill(c, repeat);
    }

    /** The cases of gdb_read_byte that collect the line. */
    method ReadLineByte(ch: byte)
      requires Valid() && (state.GetLine? || state.GetLineEsc? || state.GetLineRle?)
      modifies this, lineBuf
      ensures Valid() && Abs() == Parse(old(Abs()), ch)
    {
      match state
      case GetLine =>
        if ch == BRACE {
          state, lineSum := GetLineEsc, lineSum + ch;
        } else if ch == STAR {
          state, lineSum := GetLineRle, lineSum + ch;
        } else if ch == HASH {
          state := Chksum1;
        } else if lineBufIndex >= LINE_MAX {
          state := Idle;
        } else {
          PutChar(ch);
          lineSum := lineSum + ch;
        }
      case GetLineEsc =>
        if ch == HASH {
          state := Chksum1;
        } else if lineBufIndex >= LINE_MAX {
          state := Idle;
        } else {
          PutChar(Xor20(ch));
          state, lineSum := GetLine, lineSum + ch;
        }
      case GetLineRle =>
        if ch < SPACE {
          state := GetLine;
        } else {
          var repeat := ch - SPACE + 3;
          if lineBufIndex + repeat >= LINE_MAX {
            state := Idle;
          } else if lineBufIndex < 1 {
            state := GetLine;
          } else {
            PutRun(repeat);
            state, lineSum := GetLine, lineSum + ch;
          }
        }
    }

    /** The other cases. */
    method ReadFrameByte(ch: byte)
      requires Valid() && (state.Idle? || state.Chksum1? || state.Chksum2?)
      modifies this, lineBuf
      ensures Valid() && Abs() == Parse(old(Abs()), ch)
    {
      match state
      case Idle =>
        if ch == DOLLAR {
          state, lineBufIndex, lineSum := GetLine, 0, 0;
          assert lineBuf[..0] == [];
        }
      case Chksum1 =>
        if !IsXDigit(ch) {
          state := GetLine;
        } else {
          lineBuf[lineBufIndex] := 0;
          state, lineCsum := Chksum2, 16 * FromHex(ch);
        }
      case Chksum2 =>
        if !IsXDigit(ch) {
          state := GetLine;
        } else {
          lineCsum := lineCsum + FromHex(ch);
          if lineCsum != lineSum % 256 {
            out := out + [MINUS];
          } else {
            out := out + [PLUS];
            packets := packets + [lineBuf[..lineBufIndex]];
          }
          state := Idle;
        }
    }

    /** gdb_read_byte */
    method ReadByte(ch: byte)
      requires Valid()
      modifies this, lineBuf
      ensures Valid() && Abs() == Step(old(Abs()), ch)
    {
      if lastPacketLen > 0 {
        assert lastPacket[..lastPacketLen] != [];
        if ch == MINUS {
          out := out + lastPacket[..lastPacketLen];
        }
        if ch == PLUS || ch == DOLLAR {
          lastPacketLen := 0;
          assert lastPacket[..0] == [];
        }
        if ch != DOLLAR {
          return;
        }
      }
      if running {
        running := false;
      } else if state.GetLine? || state.GetLineEsc? || state.GetLineRle? {
        ReadLineByte(ch);
      } else {
        ReadFrameByte(ch);
      }
    }

    /** The checksum loop of put_packet_binary. */
    method Checksum(buf: seq<byte>) returns (csum: nat)
      ensures csum == Sum(buf)
    {
      csum := 0;
      for i := 0 to |buf|
        invariant csum == Sum(buf[..i])
      {
        assert buf[..i + 1] == buf[..i] + [buf[i]];
        SumConcat(buf[..i], [buf[i]]);
        assert Sum([buf[i]]) == buf[i];
        csum := csum + buf[i];
      }
      assert buf[..|buf|] == buf;
    }

    /** put_packet_binary: the packet is sent, and kept for the case that it must be sent again. */
    method PutPacketBinary(buf: seq<byte>)
      requires Valid() && |buf| <= MAX_PACKET_LENGTH
      modifies this, lastPacket
      ensures Valid() && Abs() == old(Abs()).(last := Frame(buf), out := old(out) + Frame(buf))
    {
      var csum := Checksum(buf);
      FillPacket(lastPacket, buf, csum);
      lastPacketLen := |buf| + 4;
      out := out + lastPacket[..lastPacketLen];
    }
  }

  method FillPacket(p: array<byte>, buf: seq<byte>, csum: nat)
    requires p.Length >= |buf| + 4 && csum == Sum(buf)
    modifies p
    ensures p[..|buf| + 4] == Frame(buf)
  {
    var n := |buf|;
    p[0] := DOLLAR;
    forall i | 0 <= i < n {
      p[1 + i] := buf[i];
    }
    p[n + 1] := HASH;
    p[n + 2] := ToHex((csum / 16) % 16);
    p[n + 3] := ToHex(csum % 16);
    Nibbles(csum);
    FrameIs(p[..n + 4], buf);
  }

  lemma Nibbles(c: nat)
    ensures c % 256 / 16 == (c / 16) % 16 && c % 256 % 16 == c % 16
  {
    var q, r := c / 256, c % 256;
    assert c == 256 * q + r && c / 16 == 16 * q + r / 16;
  }

  lemma FrameIs(p: seq<byte>, buf: seq<byte>)
    requires |p| == |buf| + 4 && p[0] == DOLLAR && p[|buf| + 1] == HASH
    requires forall i | 0 <= i < |buf| :: p[1 + i] == buf[i]
    requires [p[|buf| + 2], p[|buf| + 3]] == HexPair(Sum(buf) % 256)
    ensures p == Frame(buf)
  {
    var n := |buf|;
    assert p[1..n + 1] == buf;
    assert p == [p[0]] + p[1..n + 1] + [p[n + 1]] + [p[n + 2], p[n + 3]];
  }

  /** memtox, into a buffer. */
  method MemToBuffer(buf: array<byte>, mem: seq<byte>) returns (n: nat)
    requires buf.Length >= 2 * |mem|
    modifies buf
    ensures n <= 2 * |mem| && buf[..n] == MemToX(mem)
  {
    n := 0;
    for i := 0 to |mem|
      invariant n <= 2 * i && buf[..n] == MemToX(mem[..i])
    {
      MemToXLast(mem[..i + 1]);
      assert mem[..i + 1][..i] == mem[..i];
      n := PutEscaped(buf, n, mem[i]);
    }
    assert mem[..|mem|] == mem;
  }

  /** One turn of memtox. */
  method PutEscaped(buf: array<byte>, at: nat, c: byte) returns (n: nat)
    requires at + 2 <= buf.Length
    modifies buf
    ensures at <= n <= at + 2 && buf[..n] == old(buf[..at]) + Text(Escaped(c))
  {
    if c == HASH || c == DOLLAR || c == STAR || c == BRACE {
      buf[at], buf[at + 1] := BRACE, Xor20(c);
      n := at + 2;
    } else {
      buf[at] := c;
      n := at + 1;
    }
  }

  /** memtohex */
  method MemToHex(buf: array<byte>, mem: seq<byte>)
    requires buf.Length > 2 * |mem|
    modifies buf
    ensures buf[..2 * |mem|] == HexOf(mem) && buf[2 * |mem|] == 0
  {
    for i := 0 to |mem|
      invariant buf[..2 * i] == HexOf(mem[..i])
    {
      ghost var text := buf[..2 * i];
      assert mem[..i + 1][..i] == mem[..i];
      buf[2 * i], buf[2 * i + 1] := ToHex(mem[i] / 16), ToHex(mem[i] % 16);
      assert buf[..2 * (i + 1)] == text + HexPair(mem[i]);
    }
    assert mem[..|mem|] == mem;
    buf[2 * |mem|] := 0;
  }

  /** The bytes that the first 2 * len hex digits of a text stand for. */
  function MemOf(text: seq<byte>, len: nat): (mem: seq<byte>)
    requires 2 * len <= |text|
    ensures |mem| == len
  {
    if len == 0 then [] else MemOf(text, len - 1) + [16 * FromHex(text[2 * len - 2]) + FromHex(text[2 * len - 1])]
  }

  /** hextomem */
  method HexToMem(mem: array<byte>, buf: seq<byte>, len: nat)
    requires len <= mem.Length && 2 * len <= |buf|
    modifies mem
    ensures mem[..len] == MemOf(buf, len)
  {
    for i := 0 to len
      invariant mem[..i] == MemOf(buf, i)
    {
      mem[i] := 16 * FromHex(buf[2 * i]) + FromHex(buf[2 * i + 1]);
      assert mem[..i + 1] == mem[..i] + [mem[i]];
    }
  }

  /** Text that follows does not matter. */
  lemma {:induction false} MemOfPrefix(text: seq<byte>, more: seq<byte>, len: nat)
    requires 2 * len <= |text|
    ensures MemOf(text + more, len) == MemOf(text, len)
  {
    if len > 0 {
      MemOfPrefix(text, more, len - 1);
    }
  }

  /** Hex text reads back as the memory it was made from. */
  lemma {:induction false} HexRoundTrip(mem: seq<byte>)
    ensures |HexOf(mem)| == 2 * |mem| && MemOf(HexOf(mem), |mem|) == mem
  {
    if mem != [] {
      var n := |mem| - 1;
      HexRoundTrip(mem[..n]);
      MemOfPrefix(HexOf(mem[..n]), HexPair(mem[n]), n);
      assert mem == mem[..n] + [mem[n]];
    }
  }

  predicate LowerHex(v: byte) {
    48 <= v <= 57 || 97 <= v <= 102
  }

  /** And text of lower-case digits is what its memory is written as. */
  lemma {:induction false} TextRoundTrip(text: seq<byte>, len: nat)
    requires 2 * len <= |text| && forall i | 0 <= i < |text| :: LowerHex(text[i])
    ensures HexOf(MemOf(text, len)) == text[..2 * len]
  {
    if len > 0 {
      var n := 2 * len - 2;
      TextRoundTrip(text, len - 1);
      HexOfMore(MemOf(text, len - 1), 16 * FromHex(text[n]) + FromHex(text[n + 1]));
      LowerPair(text[n], text[n + 1]);
      assert text[..2 * len] == text[..n] + [text[n], text[n + 1]];
    }
  }

  lemma HexOfMore(mem: seq<byte>, c: byte)
    ensures HexOf(mem + [c]) == HexOf(mem) + HexPair(c)
  {
    assert (mem + [c])[..|mem|] == mem;
  }

  lemma LowerPair(hi: byte, lo: byte)
    requires LowerHex(hi) && LowerHex(lo)
    ensures HexPair(16 * FromHex(hi) + FromHex(lo)) == [hi, lo]
  {
  }

  // From one end to the other.

  /** Every byte of the stream in turn. */
  method Receive(s: GdbState, stream: seq<byte>)
    requires s.Valid()
    modifies s, s.lineBuf
    ensures s.Valid() && s.Abs() == Feed(old(s.Abs()), stream)
  {
    for i := 0 to |stream|
      invariant s.Valid() && s.Abs() == Feed(old(s.Abs()), stream[..i])
    {
      s.ReadByte(stream[i]);
      assert stream[..i + 1] == stream[..i] + [stream[i]];
      FeedConcat(old(s.Abs()), stream[..i], [stream[i]]);
      FeedOne(Feed(old(s.Abs()), stream[..i]), stream[i]);
    }
    assert stream[..|stream|] == stream;
  }

  /** memtox and put_packet_binary, unless the packet would not fit; wire is what goes to the other end. */
  method Send(s: GdbState, mem: seq<byte>) returns (sent: bool, wire: seq<byte>)
    requires s.Valid()
    modifies s, s.lastPacket
    ensures s.Valid() && (sent <==> Packet(MemToX(mem)).Some?)
    ensures if sent then wire == Frame(MemToX(mem)) && s.Abs() == old(s.Abs()).(last := wire, out := old(s.out) + wire)
            else unchanged(s) && unchanged(s.lastPacket)
  {
    var buf := new byte[2 * |mem|];
    var n := MemToBuffer(buf, mem);
    if n > MAX_PACKET_LENGTH {
      return false, [];
    }
    var at := |s.out|;
    s.PutPacketBinary(buf[..n]);
    wire := s.out[at..];
    sent := true;
  }

  /** What the other end makes of the frame, and the sender of the answer. */
  lemma Arrived(d: Decoder, s: Decoder, mem: seq<byte>)
    requires Listening(d) && s.last != []
    ensures var e := Feed(d, Frame(MemToX(mem)));
            if |mem| <= LINE_MAX then
              e.packets == d.packets + [mem] && e.out == d.out + [PLUS] && Feed(s, e.out[|d.out|..]).last == []
            else e.packets == d.packets && e.out == d.out
  {
    if |mem| <= LINE_MAX {
      RoundTrip(d, mem);
      assert Feed(d, Frame(MemToX(mem))).out[|d.out|..] == [PLUS];
      FeedOne(s, PLUS);
    } else {
      TooLong(d, mem);
    }
  }

  /**
    A payload from the buffers of one end to those of the other, and the answer
    back.  It comes back exactly under the condition of RoundTripIff, and then the
    sender forgets the packet; otherwise nothing is handed on.
   */
  method Transfer(s: GdbState, r: GdbState, mem: seq<byte>) returns (came: bool)
    requires s.Valid() && r.Valid() && s != r && Listening(r.Abs())
    requires s.lastPacket != r.lineBuf && s.lineBuf != r.lineBuf && s.lineBuf != r.lastPacket
    requires s.lastPacket != r.lastPacket
    modifies s, s.lineBuf, s.lastPacket, r, r.lineBuf
    ensures s.Valid() && r.Valid()
    ensures came <==> |mem| <= LINE_MAX && |MemToX(mem)| <= MAX_PACKET_LENGTH
    ensures came ==> r.packets == old(r.packets) + [mem] && r.out == old(r.out) + [PLUS] && s.lastPacketLen == 0
    ensures !came ==> r.packets == old(r.packets) && r.out == old(r.out)
  {
    ghost var d := r.Abs();
    var at, n := |r.out|, |r.packets|;
    var sent, wire := Send(s, mem);
    came := false;
    if sent {
      Receive(r, wire);
      Arrived(d, s.Abs(), mem);
      Receive(s, r.out[at..]);
      came := |r.packets| > n;
    }
  }
}
