/** One RFB client: requests, updates and the picture they add up to
    (sections 7.5.1, 7.5.3, 7.6.1 and 7.7.1 of RFC 6143). */
module Rfb {
  import opened Common
  import opened PixelFormats

  datatype Request = SetFormat(format: PixelFormat) | Update(incremental: bool)

  // ----- an update on the wire

  function EncodeAll(f: PixelFormat, pixels: seq<Word32>): (b: seq<Byte>)
    decreases |pixels|
  {
    if pixels == [] then [] else EncodeAll(f, pixels[..|pixels| - 1]) + Encode(f, pixels[|pixels| - 1])
  }

  function Header(width: Word16, first: Word16, rows: Word16): (b: seq<Byte>)
    ensures |b| == 16
  {
    [0, 0] + Be16(1) + Be16(0) + Be16(first) + Be16(width) + Be16(rows) + [0, 0, 0, 0]
  }

  /** FramebufferUpdate with one Raw rectangle of whole rows. */
  function UpdateBytes(f: PixelFormat, width: Word16, first: Word16, rows: Word16, pixels: seq<Word32>): seq<Byte> {
    Header(width, first, rows) + EncodeAll(f, pixels)
  }

  /** The rectangle a client finds in an update. */
  datatype Rect = Rect(x: Word16, y: Word16, width: Word16, height: Word16, data: seq<Byte>)

  function Parse(b: seq<Byte>): Option<Rect> {
    if |b| >= 16 && b[0] == 0 && FromBe16(b[2], b[3]) == 1 && b[12..16] == [0, 0, 0, 0] then
      Some(Rect(FromBe16(b[4], b[5]), FromBe16(b[6], b[7]), FromBe16(b[8], b[9]), FromBe16(b[10], b[11]), b[16..]))
    else None
  }

  /** Raw data cut into pixels. */
  function Cut(data: seq<Byte>, n: nat): (p: seq<seq<Byte>>)
    requires n > 0
    decreases |data|
  {
    if |data| < n then [] else Cut(data[..|data| - n], n) + [data[|data| - n..]]
  }

  function EncodedPixels(f: PixelFormat, pixels: seq<Word32>): (p: seq<seq<Byte>>)
    ensures |p| == |pixels|
  {
    seq(|pixels|, i requires 0 <= i < |pixels| => Encode(f, pixels[i]))
  }

  lemma UpdateParses(f: PixelFormat, width: Word16, first: Word16, rows: Word16, pixels: seq<Word32>)
    ensures Parse(UpdateBytes(f, width, first, rows, pixels)) == Some(Rect(0, first, width, rows, EncodeAll(f, pixels)))
  {
    var b := UpdateBytes(f, width, first, rows, pixels);
    assert b[12..16] == [0, 0, 0, 0];
    assert b[16..] == EncodeAll(f, pixels);
  }

  lemma {:induction false} CutEncoded(f: PixelFormat, pixels: seq<Word32>)
    requires BytesPerPixel(f) > 0
    ensures Cut(EncodeAll(f, pixels), BytesPerPixel(f)) == EncodedPixels(f, pixels)
    decreases |pixels|
  {
    hide Encode, Supported;
    if pixels == [] {
    } else {
      var front, last := pixels[..|pixels| - 1], pixels[|pixels| - 1];
      CutEncoded(f, front);
      var data, n := EncodeAll(f, pixels), BytesPerPixel(f);
      assert data[..|data| - n] == EncodeAll(f, front);
      assert data[|data| - n..] == Encode(f, last);
      assert EncodedPixels(f, pixels) == EncodedPixels(f, front) + [Encode(f, last)];
    }
  }

  // ----- the session

  /** A message with the format its pixels are in. */
  datatype Message = Message(format: PixelFormat, bytes: seq<Byte>)

  datatype State = State(
    width: Word16, height: Word16,
    // the sender
    format: PixelFormat, frame: seq<Word32>, seen: nat, pending: bool,
    // between the threads, and on the network
    inbox: seq<Request>, wire: seq<Message>,
    // the client
    picture: seq<seq<Byte>>,
    // history
    asked: nat, answered: nat)

  /** What a Display promises: rows outside the returned range are untouched,
      all rows are drawn for a client that has seen nothing, and afterwards it has seen something. */
  ghost predicate Rendered(width: Word16, height: Word16, frame: seq<nat>, seen: nat,
                           rows: Option<(nat, nat)>, frame': seq<nat>, seen': nat) {
    && |frame'| == |frame| == width * height && seen' > 0
    && match rows
       case None => seen != 0 && frame' == frame
       case Some((first, end)) =>
         && first < end <= height
         && (seen == 0 ==> first == 0 && end == height)
         && forall i :: 0 <= i < |frame| && !(first * width <= i < end * width) ==> frame'[i] == frame[i]
  }

  datatype Action =
    | Ask(request: Request)     // the client sends a request
    | Take                      // the sender receives one
    | Render(rows: Option<(nat, nat)>, frame: seq<Word32>, seen: nat)
    | Draw                      // the client draws an update

  ghost predicate Enabled(s: State, a: Action) {
    match a
    case Ask(request) => request.SetFormat? ==> Supported(request.format)
    case Take => s.inbox != []
    case Render(rows, frame, seen) => s.pending && Rendered(s.width, s.height, s.frame, s.seen, rows, frame, seen)
    case Draw => s.wire != []
  }

  lemma RowsBound(rows: nat, height: nat, width: nat)
    requires rows <= height
    ensures rows * width <= height * width
  {
    assert (height - rows) * width >= 0;
    assert (height - rows) * width == height * width - rows * width;
  }

  /** The update that sends rows first..end of a frame. */
  ghost function UpdateOf(s: State, first: nat, end: nat, frame: seq<Word32>): Message
    requires first < end <= s.height && |frame| == s.width * s.height
  {
    RowsBound(first, end, s.width);
    RowsBound(end, s.height, s.width);
    Message(s.format, UpdateBytes(s.format, s.width, first, end - first, frame[first * s.width..end * s.width]))
  }

  /** Where a row starts among the pixels. */
  function RowAt(y: nat, width: nat): nat { y * width }

  ghost function DrawnAt(picture: seq<seq<Byte>>, from: nat, to: nat, data: seq<Byte>, n: nat): seq<seq<Byte>> {
    if n > 0 && from <= to <= |picture| then picture[..from] + Cut(data, n) + picture[to..] else picture
  }

  /** The picture with an update's rows drawn in. */
  ghost function Drawn(picture: seq<seq<Byte>>, m: Message): seq<seq<Byte>> {
    match Parse(m.bytes)
    case None => picture
    case Some(r) => DrawnAt(picture, RowAt(r.y, r.width), RowAt(r.y + r.height, r.width), r.data,
                            BytesPerPixel(m.format))
  }

  /** The picture once everything on the wire has been drawn. */
  ghost function Caught(picture: seq<seq<Byte>>, wire: seq<Message>): seq<seq<Byte>>
    decreases |wire|
  {
    if wire == [] then picture else Drawn(Caught(picture, wire[..|wire| - 1]), wire[|wire| - 1])
  }

  ghost function Apply(s: State, a: Action): State
    requires Enabled(s, a)
  {
    match a
    case Ask(request) =>
      s.(inbox := s.inbox + [request], asked := s.asked + (if request.Update? then 1 else 0))
    case Take =>
      var rest := s.(inbox := s.inbox[1..]);
      (match s.inbox[0]
       case SetFormat(f) => rest.(format := f, seen := 0)
       case Update(incremental) => rest.(pending := true, seen := if incremental then s.seen else 0))
    case Render(rows, frame, seen) =>
      var drawn := s.(frame := frame, seen := seen);
      (match rows
       case None => drawn
       case Some((first, end)) =>
         drawn.(wire := s.wire + [UpdateOf(s, first, end, frame)], pending := false, answered := s.answered + 1))
    case Draw => s.(picture := Drawn(s.picture, s.wire[0]), wire := s.wire[1..])
  }

  /** Update requests received but not yet taken. */
  ghost function Waiting(inbox: seq<Request>): nat {
    if inbox == [] then 0 else (if inbox[0].Update? then 1 else 0) + Waiting(inbox[1..])
  }

  ghost predicate InboxOk(inbox: seq<Request>) {
    forall k :: 0 <= k < |inbox| && inbox[k].SetFormat? ==> Supported(inbox[k].format)
  }

  ghost predicate Inv(s: State) {
    && |s.frame| == s.width * s.height
    && Supported(s.format) && InboxOk(s.inbox)
    && |Caught(s.picture, s.wire)| == s.width * s.height
    && (s.seen != 0 ==> Caught(s.picture, s.wire) == EncodedPixels(s.format, s.frame))
    && s.answered + (if s.pending then 1 else 0) + Waiting(s.inbox) <= s.asked
  }

  lemma {:induction false} WaitingAppend(inbox: seq<Request>, r: Request)
    ensures Waiting(inbox + [r]) == Waiting(inbox) + (if r.Update? then 1 else 0)
    decreases |inbox|
  {
    if inbox == [] {
      assert [r][1..] == [];
    } else {
      assert (inbox + [r])[1..] == inbox[1..] + [r];
      WaitingAppend(inbox[1..], r);
    }
  }

  lemma {:induction false} CaughtFirst(picture: seq<seq<Byte>>, wire: seq<Message>)
    requires wire != []
    ensures Caught(Drawn(picture, wire[0]), wire[1..]) == Caught(picture, wire)
    decreases |wire|
  {
    if |wire| > 1 {
      var front := wire[..|wire| - 1];
      CaughtFirst(picture, front);
      assert wire[1..][..|wire| - 2] == front[1..];
      assert wire[1..][|wire| - 2] == wire[|wire| - 1];
    } else {
      assert wire[1..] == [] && wire[..0] == [];
    }
  }

  /** Drawing the changed rows into an encoded frame gives the encoded new frame. */
  lemma RowsComplete(f: PixelFormat, before: seq<Word32>, after: seq<Word32>, picture: seq<seq<Byte>>, from: nat,
                     to: nat)
    requires |before| == |after| == |picture| && from <= to <= |after|
    requires (from == 0 && to == |after|) || picture == EncodedPixels(f, before)
    requires forall i :: 0 <= i < |before| && !(from <= i < to) ==> after[i] == before[i]
    ensures picture[..from] + EncodedPixels(f, after[from..to]) + picture[to..] == EncodedPixels(f, after)
  {
    hide Encode;
    var middle := EncodedPixels(f, after[from..to]);
    var all := picture[..from] + middle + picture[to..];
    forall i | 0 <= i < |after| ensures all[i] == Encode(f, after[i]) {
      assert all[i] == if from <= i < to then middle[i - from] else picture[i];
    }
  }

  lemma UpdateDraws(f: PixelFormat, width: Word16, first: Word16, rows: Word16, pixels: seq<Word32>,
                    picture: seq<seq<Byte>>,
                    from: nat, to: nat)
    requires Supported(f) && from == first * width && to == (first + rows) * width && from <= to <= |picture|
    ensures Drawn(picture, Message(f, UpdateBytes(f, width, first, rows, pixels)))
         == picture[..from] + EncodedPixels(f, pixels) + picture[to..]
  {
    UpdateParses(f, width, first, rows, pixels);
    CutEncoded(f, pixels);
    hide Parse, UpdateBytes, EncodeAll, Cut, EncodedPixels, Encode;
  }

  /** A drawn update leaves the whole frame, in the format it was sent in. */
  lemma UpdateCompletes(s: State, first: nat, end: nat, frame: seq<Word32>, picture: seq<seq<Byte>>)
    requires Supported(s.format) && first < end <= s.height && |picture| == |frame| == |s.frame| == s.width * s.height
    requires if s.seen == 0 then first == 0 && end == s.height else picture == EncodedPixels(s.format, s.frame)
    requires forall i :: 0 <= i < |frame| && !(first * s.width <= i < end * s.width) ==> frame[i] == s.frame[i]
    ensures Drawn(picture, UpdateOf(s, first, end, frame)) == EncodedPixels(s.format, frame)
  {
    hide UpdateBytes, Drawn, EncodedPixels, Supported;
    RowsBound(first, end, s.width);
    RowsBound(end, s.height, s.width);
    var from, to := first * s.width, end * s.width;
    assert first + (end - first) == end;
    UpdateDraws(s.format, s.width, first, end - first, frame[from..to], picture, from, to);
    assert s.seen == 0 ==> from == 0 && to == |frame|;
    RowsComplete(s.format, s.frame, frame, picture, from, to);
  }

  lemma CaughtLast(picture: seq<seq<Byte>>, wire: seq<Message>, m: Message)
    ensures Caught(picture, wire + [m]) == Drawn(Caught(picture, wire), m)
  {
    assert (wire + [m])[..|wire|] == wire;
  }

  lemma RenderKeeps(s: State, a: Action)
    requires Inv(s) && a.Render? && Enabled(s, a)
    ensures Inv(Apply(s, a))
  {
    hide UpdateBytes, UpdateOf, Drawn, EncodedPixels, Supported, InboxOk, Waiting, Caught;
    match a.rows
    case None =>
    case Some((first, end)) =>
      UpdateCompletes(s, first, end, a.frame, Caught(s.picture, s.wire));
      CaughtLast(s.picture, s.wire, UpdateOf(s, first, end, a.frame));
  }

  lemma ActionKeeps(s: State, a: Action)
    requires Inv(s) && Enabled(s, a)
    ensures Inv(Apply(s, a))
  {
    match a
    case Ask(request) => WaitingAppend(s.inbox, request);
    case Take =>
    case Render(_, _, _) => RenderKeeps(s, a);
    case Draw => CaughtFirst(s.picture, s.wire);
  }

  ghost predicate Init(s: State) {
    && s.format == DEFAULT && |s.frame| == s.width * s.height && s.seen == 0 && !s.pending
    && s.inbox == [] && s.wire == [] && |s.picture| == s.width * s.height
    && s.asked == 0 && s.answered == 0
  }

  ghost predicate Run(s: State, actions: seq<Action>, t: State)
    decreases |actions|
  {
    if actions == [] then s == t
    else Enabled(s, actions[0]) && Run(Apply(s, actions[0]), actions[1..], t)
  }

  lemma {:induction false} RunKeeps(s: State, actions: seq<Action>, t: State)
    requires Inv(s) && Run(s, actions, t)
    ensures Inv(t) && t.width == s.width && t.height == s.height
    decreases |actions|
  {
    if actions == [] {
    } else {
      ActionKeeps(s, actions[0]);
      RunKeeps(Apply(s, actions[0]), actions[1..], t);
    }
  }

  /** After any requests, renders and format changes: whenever the sender
      thinks the client has seen a frame, the client's picture, with what is
      on the wire drawn, is the whole frame in the current format; and there
      are never more updates than requests for one. */
  lemma PictureMirrorsFrame(s: State, actions: seq<Action>, t: State)
    requires Init(s) && Run(s, actions, t)
    ensures t.seen != 0 ==> Caught(t.picture, t.wire) == EncodedPixels(t.format, t.frame)
    ensures t.seen != 0 && t.wire == [] ==> t.picture == EncodedPixels(t.format, t.frame)
    ensures t.answered + (if t.pending then 1 else 0) <= t.asked
  {
    RunKeeps(s, actions, t);
  }

  // ----- the sender

  class Sender {
    const width: Word16
    const height: Word16
    var format: PixelFormat
    var frame: array<Word32>
    var seen: nat
    var pending: bool
    var out: seq<Byte>

    constructor (width: Word16, height: Word16)
      ensures this.width == width && this.height == height && format == DEFAULT && seen == 0 && !pending
      ensures frame.Length == width * height
    {
      this.width, this.height := width, height;
      format, seen, pending, out := DEFAULT, 0, false, [];
      frame := new Word32[width * height](_ => 0);
    }

    /** Takes a request; true if it is time to think about rendering. */
    method Receive(request: Request) returns (go: bool)
      modifies `format, `seen, `pending
      ensures match request
              case SetFormat(f) => !go && format == f && seen == 0 && pending == old(pending)
              case Update(incremental) =>
                go && format == old(format) && pending && seen == if incremental then old(seen) else 0
    {
      match request {
        case SetFormat(f) =>
          format := f;
          seen := 0;
          go := false;
        case Update(incremental) =>
          pending := true;
          if !incremental {
            seen := 0;
          }
          go := true;
      }
    }

    /** The 16 bytes in front of the pixels. */
    method BuildHeader(first: Word16, rows: Word16)
      modifies `out
      ensures out == Header(width, first, rows)
    {
      out := [0, 0] + Be16(1);
      var values: seq<Word16> := [0, first, width, rows];
      for k := 0 to 4
        invariant out == [0, 0] + Be16(1)
          + (if k > 0 then Be16(0) else []) + (if k > 1 then Be16(first) else [])
          + (if k > 2 then Be16(width) else []) + (if k > 3 then Be16(rows) else [])
      {
        hide Be16;
        out := out + Be16(values[k]);
      }
      out := out + [0, 0, 0, 0];
    }

    /** Builds the update for rows first..end of the frame. */
    method BuildUpdate(first: nat, end: nat)
      requires first < end <= height && frame.Length == width * height
      requires first * width <= end * width <= frame.Length
      modifies `out, `pending
      ensures out == UpdateBytes(format, width, first, end - first, frame[first * width..end * width]) && !pending
    {
      hide Encode, Header;
      BuildHeader(first, end - first);
      ghost var header := out;
      var from, to := first * width, end * width;
      ghost var pixels := frame[from..to];
      for i := from to to
        invariant out == header + EncodeAll(format, pixels[..i - from])
        invariant pixels == frame[from..to]
      {
        ghost var k := i - from;
        assert pixels[..k + 1][..k] == pixels[..k] && pixels[k] == frame[i];
        out := out + Encode(format, frame[i]);
      }
      assert pixels[..|pixels|] == pixels;
      pending := false;
    }
  }
}
