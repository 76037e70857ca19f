/** A message is a fixed buffer: five little-endian 32-bit words of header, then the body. */
module Messages {
  type Byte = b: int | 0 <= b < 256
  type Word = w: int | 0 <= w < 0x1_0000_0000

  const MAX_DATA_LEN := 4096
  const HEADER_LENGTH := 20

  datatype Header = Header(kind: Word, length: Word, id: Word, hash: Word, error: Word)

  datatype Kind = Request | Response | Notify

  function KindCode(k: Kind): Word {
    match k
    case Request => 1
    case Response => 2
    case Notify => 3
  }

  // ---- words and headers as bytes ------------------------------------------------------------------

  function WordBytes(w: Word): (bs: seq<Byte>)
    ensures |bs| == 4
  {
    [w % 256, w / 256 % 256, w / 65536 % 256, w / 16777216]
  }

  function WordOf(bs: seq<Byte>): Word
    requires |bs| == 4
  {
    bs[0] as int + 256 * bs[1] as int + 65536 * bs[2] as int + 16777216 * bs[3] as int
  }

  lemma WordRoundTrip(w: Word)
    ensures WordOf(WordBytes(w)) == w
  {
    var q1, q2, q3 := w / 256, w / 65536, w / 16777216;
    assert w == 256 * q1 + w % 256;
    assert q1 == 256 * q2 + q1 % 256;
    assert q2 == 256 * q3 + q2 % 256;
  }

  lemma BytesRoundTrip(bs: seq<Byte>)
    requires |bs| == 4
    ensures WordBytes(WordOf(bs)) == bs
  {
    var w := WordOf(bs);
    assert w / 256 == bs[1] as int + 256 * bs[2] as int + 65536 * bs[3] as int;
    assert w / 65536 == bs[2] as int + 256 * bs[3] as int;
  }

  function HeaderBytes(h: Header): (bs: seq<Byte>)
    ensures |bs| == HEADER_LENGTH
  {
    WordBytes(h.kind) + WordBytes(h.length) + WordBytes(h.id) + WordBytes(h.hash) + WordBytes(h.error)
  }

  function HeaderOf(bs: seq<Byte>): Header
    requires |bs| == HEADER_LENGTH
  {
    Header(WordOf(bs[..4]), WordOf(bs[4..8]), WordOf(bs[8..12]), WordOf(bs[12..16]), WordOf(bs[16..]))
  }

  lemma HeaderRoundTrip(h: Header)
    ensures HeaderOf(HeaderBytes(h)) == h
  {
    var bs := HeaderBytes(h);
    assert bs[..4] == WordBytes(h.kind) && bs[4..8] == WordBytes(h.length) && bs[8..12] == WordBytes(h.id);
    assert bs[12..16] == WordBytes(h.hash) && bs[16..] == WordBytes(h.error);
    WordRoundTrip(h.kind);
    WordRoundTrip(h.length);
    WordRoundTrip(h.id);
    WordRoundTrip(h.hash);
    WordRoundTrip(h.error);
  }

  lemma HeaderBytesRoundTrip(bs: seq<Byte>)
    requires |bs| == HEADER_LENGTH
    ensures HeaderBytes(HeaderOf(bs)) == bs
  {
    BytesRoundTrip(bs[..4]);
    BytesRoundTrip(bs[4..8]);
    BytesRoundTrip(bs[8..12]);
    BytesRoundTrip(bs[12..16]);
    BytesRoundTrip(bs[16..]);
    assert bs == bs[..4] + bs[4..8] + bs[8..12] + bs[12..16] + bs[16..];
  }

  /** Four bytes spell a number, the lowest first. */
  predicate Spells(bs: seq<Byte>, at: nat, w: int)
    requires at + 4 <= |bs|
  {
    w == bs[at] as int + bs[at + 1] as int * 256 + bs[at + 2] as int * 65536 + bs[at + 3] as int * 16777216
  }

  /** Where the words stand: type, length, id, hash and error code. */
  lemma HeaderLayout(h: Header)
    ensures var bs := HeaderBytes(h);
      && |bs| == 20
      && Spells(bs, 0, h.kind) && Spells(bs, 4, h.length) && Spells(bs, 8, h.id) && Spells(bs, 12, h.hash)
      && Spells(bs, 16, h.error)
  {
    var bs := HeaderBytes(h);
    assert bs[0..4] == WordBytes(h.kind) && bs[4..8] == WordBytes(h.length) && bs[8..12] == WordBytes(h.id);
    assert bs[12..16] == WordBytes(h.hash) && bs[16..20] == WordBytes(h.error);
    WordSpelled(h.kind);
    WordSpelled(h.length);
    WordSpelled(h.id);
    WordSpelled(h.hash);
    WordSpelled(h.error);
    SpelledAt(bs, 0, h.kind);
    SpelledAt(bs, 4, h.length);
    SpelledAt(bs, 8, h.id);
    SpelledAt(bs, 12, h.hash);
    SpelledAt(bs, 16, h.error);
  }

  lemma WordSpelled(w: Word)
    ensures Spells(WordBytes(w), 0, w)
  {
    WordRoundTrip(w);
  }

  lemma SpelledAt(bs: seq<Byte>, at: nat, w: int)
    requires at + 4 <= |bs| && Spells(bs[at..at + 4], 0, w)
    ensures Spells(bs, at, w)
  {
    var part := bs[at..at + 4];
    assert part[0] == bs[at] && part[1] == bs[at + 1] && part[2] == bs[at + 2] && part[3] == bs[at + 3];
  }

  /** The first byte of a message tells requests, responses and notifications apart. */
  lemma KindBytes(h: Header, kind: Kind)
    requires h.kind == KindCode(kind)
    ensures HeaderBytes(h)[..4] == match kind case Request => [1, 0, 0, 0] case Response => [2, 0, 0, 0] case Notify => [3, 0, 0, 0]
  {
    assert HeaderBytes(h)[..4] == WordBytes(h.kind);
  }

  function Zeros(n: nat): (bs: seq<Byte>)
    ensures |bs| == n
  {
    seq(n, _ => 0)
  }

  // ---- the message ---------------------------------------------------------------------------------

  class Message {
    var header: Header
    var bodyLength: nat
    const buffer: array<Byte>

    ghost predicate Valid()
      reads this
    {
      buffer.Length == MAX_DATA_LEN && bodyLength + HEADER_LENGTH <= MAX_DATA_LEN
    }

    /** What a sender puts on the wire. */
    ghost function Wire(): (bs: seq<Byte>)
      requires Valid()
      reads this, buffer
    {
      buffer[..HEADER_LENGTH + bodyLength]
    }

    ghost function Body(): (bs: seq<Byte>)
      requires Valid()
      reads this, buffer
      ensures |bs| == bodyLength
    {
      buffer[HEADER_LENGTH..HEADER_LENGTH + bodyLength]
    }

    /** The buffer holds the header's own bytes. */
    ghost predicate Encoded()
      requires Valid()
      reads this, buffer
    {
      buffer[..HEADER_LENGTH] == HeaderBytes(header)
    }

    constructor ()
      ensures Valid() && fresh(buffer)
      ensures header == Header(0, 0, 0, 0, 0) && Wire() == Zeros(HEADER_LENGTH)
    {
      header := Header(0, 0, 0, 0, 0);
      bodyLength := 0;
      buffer := new Byte[MAX_DATA_LEN](_ => 0);
    }

    /**
     * The header is copied before its length is set, so the buffer says zero until a setter runs. Data
     * that does not fit is not refused: the source copies on past its buffer, and no valid message
     * results; the model keeps what fits.
     */
    constructor From(data: seq<Byte>)
      ensures fresh(buffer) && bodyLength == |data| && header == Header(0, |data| % 0x1_0000_0000, 0, 0, 0)
      ensures Valid() <==> HEADER_LENGTH + |data| <= MAX_DATA_LEN
      ensures Valid() ==> Body() == data && Wire() == Zeros(HEADER_LENGTH) + data
    {
      bodyLength := |data|;
      header := Header(0, |data| % 0x1_0000_0000, 0, 0, 0);
      var storage := new Byte[MAX_DATA_LEN](_ => 0);
      forall i | 0 <= i < |data| && HEADER_LENGTH + i < MAX_DATA_LEN {
        storage[HEADER_LENGTH + i] := data[i];
      }
      buffer := storage;
      new;
      if Valid() {
        assert forall i | 0 <= i < |data| :: Body()[i] == data[i];
        assert Wire()[..HEADER_LENGTH] == Zeros(HEADER_LENGTH);
      }
    }

    method StoreHeader()
      requires Valid()
      modifies buffer
      ensures Encoded()
      ensures forall i | HEADER_LENGTH <= i < MAX_DATA_LEN :: buffer[i] == old(buffer[i])
    {
      var bytes := HeaderBytes(header);
      forall i | 0 <= i < HEADER_LENGTH {
        buffer[i] := bytes[i];
      }
    }

    method SetType(kind: Kind)
      requires Valid()
      modifies this`header, buffer
      ensures Valid() && header == old(header).(kind := KindCode(kind))
      ensures Encoded() && Body() == old(Body())
      ensures Wire()[..4] == match kind case Request => [1, 0, 0, 0] case Response => [2, 0, 0, 0] case Notify => [3, 0, 0, 0]
    {
      header := header.(kind := KindCode(kind));
      StoreHeader();
      KindBytes(header, kind);
      assert Wire()[..4] == buffer[..HEADER_LENGTH][..4];
    }

    method SetId(id: Word)
      requires Valid()
      modifies this`header, buffer
      ensures Valid() && header == old(header).(id := id)
      ensures Encoded() && Body() == old(Body())
    {
      header := header.(id := id);
      StoreHeader();
    }

    method SetHash(hash: Word)
      requires Valid()
      modifies this`header, buffer
      ensures Valid() && header == old(header).(hash := hash)
      ensures Encoded() && Body() == old(Body())
    {
      header := header.(hash := hash);
      StoreHeader();
    }

    method SetErrcode(error: Word)
      requires Valid()
      modifies this`header, buffer
      ensures Valid() && header == old(header).(error := error)
      ensures Encoded() && Body() == old(Body())
    {
      header := header.(error := error);
      StoreHeader();
    }

    /** Reads the header out of the buffer; a message longer than the buffer is refused. */
    method ParseHeader() returns (ok: bool)
      requires Valid()
      modifies this`header, this`bodyLength
      ensures Valid() && Encoded()
      ensures header == HeaderOf(buffer[..HEADER_LENGTH])
      ensures ok <==> header.length + HEADER_LENGTH <= MAX_DATA_LEN
      ensures bodyLength == if ok then header.length else old(bodyLength)
    {
      header := HeaderOf(buffer[..HEADER_LENGTH]);
      HeaderBytesRoundTrip(buffer[..HEADER_LENGTH]);
      if header.length + HEADER_LENGTH > MAX_DATA_LEN {
        return false;
      }
      bodyLength := header.length;
      return true;
    }
  }

  // ---- frames on the wire --------------------------------------------------------------------------

  datatype Frame = Frame(header: Header, body: seq<Byte>)

  /** A frame that a message can hold. */
  predicate Fits(f: Frame) {
    f.header.length == |f.body| && HEADER_LENGTH + |f.body| <= MAX_DATA_LEN
  }

  function FrameBytes(f: Frame): seq<Byte> {
    HeaderBytes(f.header) + f.body
  }

  function Wires(fs: seq<Frame>): seq<Byte> {
    if fs == [] then [] else FrameBytes(fs[0]) + Wires(fs[1..])
  }

  function DeclaredLength(bs: seq<Byte>): nat
    requires |bs| >= HEADER_LENGTH
  {
    HeaderOf(bs[..HEADER_LENGTH]).length
  }

  /** The stream starts with a header that announces more than a buffer holds. */
  predicate Oversize(bs: seq<Byte>) {
    |bs| >= HEADER_LENGTH && DeclaredLength(bs) + HEADER_LENGTH > MAX_DATA_LEN
  }

  /** In bytes: the second word of a whole header announces more than 4076. */
  lemma OversizeIs(bs: seq<Byte>, n: nat)
    requires |bs| >= 20 && Spells(bs, 4, n)
    ensures Oversize(bs) <==> n > 4076
  {
    assert bs[..20][4..8] == bs[4..8];
    assert bs[4..8][0] == bs[4] && bs[4..8][1] == bs[5] && bs[4..8][2] == bs[6] && bs[4..8][3] == bs[7];
  }

  /** The stream ends before its first frame does. */
  predicate Incomplete(bs: seq<Byte>) {
    |bs| < HEADER_LENGTH || (!Oversize(bs) && |bs| < HEADER_LENGTH + DeclaredLength(bs))
  }

  datatype Deframed = Deframed(frames: seq<Frame>, rest: seq<Byte>)

  function FirstFrame(bs: seq<Byte>): Frame
    requires !Incomplete(bs) && !Oversize(bs)
  {
    Frame(HeaderOf(bs[..HEADER_LENGTH]), bs[HEADER_LENGTH..HEADER_LENGTH + DeclaredLength(bs)])
  }

  /** What a stream means: its complete frames up to the first that is cut off or too long. */
  function Deframe(bs: seq<Byte>): (d: Deframed)
    ensures Incomplete(d.rest) || Oversize(d.rest)
    ensures forall i | 0 <= i < |d.frames| :: Fits(d.frames[i])
    decreases |bs|
  {
    if Incomplete(bs) || Oversize(bs) then Deframed([], bs)
    else
      var d := Deframe(bs[HEADER_LENGTH + DeclaredLength(bs)..]);
      Deframed([FirstFrame(bs)] + d.frames, d.rest)
  }

  /** Once a setter has run, what a message puts on the wire is a frame: its header and its body. */
  lemma WireIsFrame(m: Message)
    requires m.Valid() && m.Encoded() && m.header.length == m.bodyLength
    ensures var f := Frame(m.header, m.Body()); Fits(f) && m.Wire() == FrameBytes(f)
  {
    assert m.Wire() == m.buffer[..HEADER_LENGTH] + m.Body();
  }

  /** And so the reader gets back exactly the message that was sent, whatever follows it. */
  lemma MessageArrives(m: Message, bs: seq<Byte>)
    requires m.Valid() && m.Encoded() && m.header.length == m.bodyLength
    ensures Deframe(m.Wire() + bs) == Deframed([Frame(m.header, m.Body())] + Deframe(bs).frames, Deframe(bs).rest)
  {
    WireIsFrame(m);
    DeframeFirst(Frame(m.header, m.Body()), bs);
  }

  lemma FrameAhead(f: Frame, bs: seq<Byte>)
    requires Fits(f)
    ensures var s := FrameBytes(f) + bs;
      !Incomplete(s) && !Oversize(s) && FirstFrame(s) == f && s[HEADER_LENGTH + DeclaredLength(s)..] == bs
  {
    var s := FrameBytes(f) + bs;
    assert s[..HEADER_LENGTH] == HeaderBytes(f.header);
    HeaderRoundTrip(f.header);
    assert DeclaredLength(s) == |f.body|;
    assert s[HEADER_LENGTH..HEADER_LENGTH + |f.body|] == f.body;
  }

  lemma DeframeFirst(f: Frame, bs: seq<Byte>)
    requires Fits(f)
    ensures Deframe(FrameBytes(f) + bs) == Deframed([f] + Deframe(bs).frames, Deframe(bs).rest)
  {
    FrameAhead(f, bs);
  }

  lemma JoinBytes(a: seq<Byte>, b: seq<Byte>, c: seq<Byte>)
    ensures (a + b) + c == a + (b + c)
  {
  }

  /** A reader that takes a leading frame off the stream. */
  ghost predicate TakesFrames(read: seq<Byte> -> Deframed) {
    forall f, bs {:trigger read(FrameBytes(f) + bs)} ::
      Fits(f) ==> read(FrameBytes(f) + bs) == Deframed([f] + read(bs).frames, read(bs).rest)
  }

  lemma {:induction false} ReaderRoundTrip(read: seq<Byte> -> Deframed, fs: seq<Frame>, bs: seq<Byte>)
    requires TakesFrames(read) && forall i | 0 <= i < |fs| :: Fits(fs[i])
    ensures read(Wires(fs) + bs) == Deframed(fs + read(bs).frames, read(bs).rest)
    decreases |fs|
  {
    if fs == [] {
      assert Wires(fs) + bs == bs;
    } else {
      ReaderRoundTrip(read, fs[1..], bs);
      JoinBytes(FrameBytes(fs[0]), Wires(fs[1..]), bs);
      assert [fs[0]] + (fs[1..] + read(bs).frames) == fs + read(bs).frames;
    }
  }

  lemma DeframeTakesFrames()
    ensures TakesFrames(Deframe)
  {
    forall f, bs | Fits(f)
      ensures Deframe(FrameBytes(f) + bs) == Deframed([f] + Deframe(bs).frames, Deframe(bs).rest)
    {
      DeframeFirst(f, bs);
    }
  }

  /** Frames put on the wire come out as they went in, whatever comes after them. */
  lemma FramesRoundTrip(fs: seq<Frame>, bs: seq<Byte>)
    requires forall i | 0 <= i < |fs| :: Fits(fs[i])
    ensures Deframe(Wires(fs) + bs) == Deframed(fs + Deframe(bs).frames, Deframe(bs).rest)
  {
    DeframeTakesFrames();
    ReaderRoundTrip(Deframe, fs, bs);
  }

  lemma FirstFrameBytes(bs: seq<Byte>)
    requires !Incomplete(bs) && !Oversize(bs)
    ensures FrameBytes(FirstFrame(bs)) == bs[..HEADER_LENGTH + DeclaredLength(bs)]
  {
    HeaderBytesRoundTrip(bs[..HEADER_LENGTH]);
  }

  lemma WiresFirst(f: Frame, fs: seq<Frame>)
    ensures Wires([f] + fs) == FrameBytes(f) + Wires(fs)
  {
    assert ([f] + fs)[1..] == fs;
  }

  /** Nothing is lost: the frames and what is left spell out the stream again. */
  lemma {:induction false} DeframeKeepsBytes(bs: seq<Byte>)
    ensures Wires(Deframe(bs).frames) + Deframe(bs).rest == bs
    decreases |bs|
  {
    if !Incomplete(bs) && !Oversize(bs) {
      var n := HEADER_LENGTH + DeclaredLength(bs);
      var d := Deframe(bs[n..]);
      DeframeKeepsBytes(bs[n..]);
      FirstFrameBytes(bs);
      WiresFirst(FirstFrame(bs), d.frames);
      JoinBytes(bs[..n], Wires(d.frames), d.rest);
      assert bs[..n] + bs[n..] == bs;
    }
  }

  /** There is only one way to read a stream. */
  lemma OneReading(fs: seq<Frame>, rest: seq<Byte>)
    requires forall i | 0 <= i < |fs| :: Fits(fs[i])
    requires Incomplete(rest) || Oversize(rest)
    ensures Deframe(Wires(fs) + rest) == Deframed(fs, rest)
  {
    FramesRoundTrip(fs, rest);
    assert fs + [] == fs;
  }

  lemma ReaderAppend(read: seq<Byte> -> Deframed, fs: seq<Frame>, rest: seq<Byte>, b: seq<Byte>)
    requires TakesFrames(read) && forall i | 0 <= i < |fs| :: Fits(fs[i])
    ensures read((Wires(fs) + rest) + b) == Deframed(fs + read(rest + b).frames, read(rest + b).rest)
  {
    JoinBytes(Wires(fs), rest, b);
    ReaderRoundTrip(read, fs, rest + b);
  }

  /** Reading can pause anywhere: later bytes only add to what the earlier ones left over. */
  lemma DeframeAppend(a: seq<Byte>, b: seq<Byte>)
    ensures Deframe(a + b) == Deframed(Deframe(a).frames + Deframe(Deframe(a).rest + b).frames,
                                       Deframe(Deframe(a).rest + b).rest)
  {
    DeframeKeepsBytes(a);
    DeframeTakesFrames();
    ReaderAppend(Deframe, Deframe(a).frames, Deframe(a).rest, b);
  }

  lemma OversizeStays(r: seq<Byte>, b: seq<Byte>)
    requires Oversize(r)
    ensures Oversize(r + b)
  {
    assert (r + b)[..HEADER_LENGTH] == r[..HEADER_LENGTH];
  }

  /** After an oversize header nothing more is read, whatever arrives. */
  lemma OversizeIsFinal(a: seq<Byte>, b: seq<Byte>)
    requires Oversize(Deframe(a).rest)
    ensures Deframe(a + b).frames == Deframe(a).frames && Oversize(Deframe(a + b).rest)
  {
    DeframeAppend(a, b);
    OversizeStays(Deframe(a).rest, b);
  }

  lemma CutFrame(f: Frame, bs: seq<Byte>, n: nat)
    requires Fits(f) && n < |FrameBytes(f)|
    ensures Incomplete((FrameBytes(f) + bs)[..n])
  {
    var s := (FrameBytes(f) + bs)[..n];
    if n >= HEADER_LENGTH {
      assert s[..HEADER_LENGTH] == HeaderBytes(f.header);
      HeaderRoundTrip(f.header);
    }
  }

  lemma {:induction false} WiresAppend(a: seq<Frame>, b: seq<Frame>)
    ensures Wires(a + b) == Wires(a) + Wires(b)
  {
    if a == [] {
      assert a + b == b;
    } else {
      WiresAppend(a[1..], b);
      assert (a + b)[1..] == a[1..] + b;
      JoinBytes(FrameBytes(a[0]), Wires(a[1..]), Wires(b));
    }
  }

  lemma WiresFrom(fs: seq<Frame>, k: nat)
    requires k < |fs|
    ensures Wires(fs) == Wires(fs[..k]) + (FrameBytes(fs[k]) + Wires(fs[k + 1..]))
    ensures |Wires(fs[..k + 1])| == |Wires(fs[..k])| + |FrameBytes(fs[k])|
  {
    WiresAppend(fs[..k], [fs[k]]);
    WiresFirst(fs[k], []);
    assert fs[..k + 1] == fs[..k] + [fs[k]];
    WiresAppend(fs[..k], [fs[k]] + fs[k + 1..]);
    WiresFirst(fs[k], fs[k + 1..]);
    assert fs == fs[..k] + ([fs[k]] + fs[k + 1..]);
  }

  /** A stream cut anywhere yields the frames that lie before the cut and no other. */
  lemma CutStream(fs: seq<Frame>, n: nat, k: nat)
    requires forall i | 0 <= i < |fs| :: Fits(fs[i])
    requires n <= |Wires(fs)| && k <= |fs|
    requires |Wires(fs[..k])| <= n && (k < |fs| ==> n < |Wires(fs[..k + 1])|)
    ensures Deframe(Wires(fs)[..n]).frames == fs[..k]
  {
    var w, tail := Wires(fs[..k]), [];
    if k < |fs| {
      WiresFrom(fs, k);
      var after := FrameBytes(fs[k]) + Wires(fs[k + 1..]);
      CutFrame(fs[k], Wires(fs[k + 1..]), n - |w|);
      tail := after[..n - |w|];
      assert (w + after)[..n] == w + tail;
    } else {
      assert fs[..k] == fs;
      assert w[..n] == w + tail;
    }
    OneReading(fs[..k], tail);
  }

  lemma ZeroHeader(body: seq<Byte>)
    ensures HeaderOf((Zeros(HEADER_LENGTH) + body)[..HEADER_LENGTH]) == Header(0, 0, 0, 0, 0)
  {
    assert (Zeros(HEADER_LENGTH) + body)[..HEADER_LENGTH] == Zeros(HEADER_LENGTH);
  }

  lemma EmptyFrameFirst(body: seq<Byte>)
    ensures Deframe(Zeros(HEADER_LENGTH) + body)
         == Deframed([Frame(Header(0, 0, 0, 0, 0), [])] + Deframe(body).frames, Deframe(body).rest)
  {
    ZeroHeader([]);
    assert Zeros(HEADER_LENGTH) + [] == Zeros(HEADER_LENGTH);
    HeaderBytesRoundTrip(Zeros(HEADER_LENGTH));
    assert FrameBytes(Frame(Header(0, 0, 0, 0, 0), [])) == Zeros(HEADER_LENGTH);
    DeframeFirst(Frame(Header(0, 0, 0, 0, 0), []), body);
  }

  lemma NoFrame()
    ensures Deframe([]).frames == []
  {
  }

  /** A message read before any setter has run: its length is on the wire only if it is zero. */
  lemma WithoutSetter(body: seq<Byte>)
    requires HEADER_LENGTH + |body| <= MAX_DATA_LEN
    ensures Deframe(Zeros(HEADER_LENGTH) + body).frames == [Frame(Header(0, |body|, 0, 0, 0), body)] <==> body == []
  {
    EmptyFrameFirst(body);
    if body == [] {
      NoFrame();
      assert Zeros(HEADER_LENGTH) + body == Zeros(HEADER_LENGTH) + [];
    } else {
      assert Deframe(Zeros(HEADER_LENGTH) + body).frames[0].body != body;
    }
  }
}
