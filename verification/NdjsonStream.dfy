/**
 * The stream codec of crates/voom-worker-protocol/src/wire/ndjson.rs, and the conformance crate's
 * classification of a stream (crates/voom-conformance/src/negative_fixture.rs). The bytes arrive
 * in chunks of any size.
 */
module NdjsonStream {
  import opened Basics
  import opened Frames

  const MAX_FRAME_BYTES: nat := 64 * 1024

  datatype ProtocolError =
    | UnexpectedFrameAfterTerminal | MalformedFrame | FrameTooLarge
    | WrongLeaseId(got: LeaseId) | OutOfOrderFrame(expectedSeq: nat, gotSeq: nat)

  datatype Outcome = Delivered(frame: Frame) | Terminated(frame: Frame) | StreamEnd | Failed(error: ProtocolError)

  // ---- one line ----

  datatype Line = Line(payload: seq<Byte>, rest: seq<Byte>) | End | Truncated | Unreadable | TooLarge

  // `broken`: the stream ends in a read error instead of an end of file.
  ghost function LineOf(bytes: seq<Byte>, broken: bool, max: nat): Line {
    var n := LineEnd(bytes);
    if n > max then TooLarge
    else if n < |bytes| then Line(bytes[..n], bytes[n + 1..])
    else if broken then Unreadable
    else if bytes == [] then End
    else Truncated
  }

  // One filled buffer: everything up to a newline is taken, or all of it.
  method TakeChunk(bytes: seq<Byte>, used0: nat, buffer0: seq<Byte>, chunkLimit: nat)
    returns (used: nat, buffer: seq<Byte>, newline: bool)
    requires used0 < |bytes| && used0 <= LineEnd(bytes) && buffer0 == bytes[..used0] && chunkLimit > 0
    ensures used0 < used <= |bytes| && used <= used0 + chunkLimit && buffer == bytes[..used]
    ensures if newline then used == LineEnd(bytes) + 1 else used <= LineEnd(bytes)
  {
    var count :| 1 <= count <= chunkLimit && used0 + count <= |bytes|;
    var chunk := bytes[used0..used0 + count];
    var nl := LineEnd(chunk);
    ChunkLineEnd(bytes, used0, count);
    newline := nl < count;
    var taken := if newline then nl + 1 else count;
    PrefixGrows(bytes, used0, count, taken);
    used, buffer := used0 + taken, buffer0 + chunk[..taken];
  }

  // `read_capped_line` and the two checks after it. However the bytes are cut into chunks, the
  // line is the same, and the buffer never holds more than the bound and one chunk. What depends
  // on the chunks is how much of a line above the bound was read: `size` is reported, `used` is
  // consumed.
  method ReadLine(bytes: seq<Byte>, broken: bool, max: nat, chunkLimit: nat) returns (r: Line, size: nat, used: nat)
    requires chunkLimit > 0
    ensures r == LineOf(bytes, broken, max)
    ensures r.TooLarge? ==> max < size <= Min(LineEnd(bytes), max + chunkLimit) && size <= used <= |bytes|
  {
    var buffer, newline := [], false;
    used := 0;
    while used < |bytes| && !newline
      invariant used <= |bytes| && buffer == bytes[..used]
      invariant if newline then used == LineEnd(bytes) + 1 && used <= max + chunkLimit
                else used <= LineEnd(bytes) && used <= max
      decreases |bytes| - used
    {
      used, buffer, newline := TakeChunk(bytes, used, buffer, chunkLimit);
      if !newline && |buffer| > max { return TooLarge, |buffer|, used; }
    }
    if !newline && broken { return Unreadable, 0, used; }
    if buffer == [] { return End, 0, used; }
    if !newline { return Truncated, 0, used; }
    var payload := buffer[..|buffer| - 1];
    if |payload| > max { return TooLarge, |payload|, used; }
    r, size := Line(payload, bytes[used..]), 0;
  }

  lemma PrefixGrows(bytes: seq<Byte>, position: nat, size: nat, n: nat)
    requires position + size <= |bytes| && n <= size
    ensures bytes[..position] + bytes[position..position + size][..n] == bytes[..position + n]
    ensures bytes[position..position + size][..size] == bytes[position..position + size]
  {
  }

  // `n` is the position of the first newline, or the length.
  ghost predicate IsLineEnd(bytes: seq<Byte>, n: nat) {
    n <= |bytes| && (forall i :: 0 <= i < n ==> bytes[i] != NEWLINE) && (n < |bytes| ==> bytes[n] == NEWLINE)
  }

  lemma FirstNewline(bytes: seq<Byte>, position: nat, size: nat, nl: nat, n: nat)
    requires position + size <= |bytes| && IsLineEnd(bytes[position..position + size], nl)
    requires IsLineEnd(bytes, n) && position <= n
    ensures if nl < size then n == position + nl else n >= position + size
  {
    var chunk := bytes[position..position + size];
    forall i | position <= i < position + nl ensures bytes[i] != NEWLINE {
      assert chunk[i - position] == bytes[i];
    }
    assert nl < size ==> bytes[position + nl] == chunk[nl];
  }

  // Where the first newline is, seen from a chunk before which there is none.
  lemma ChunkLineEnd(bytes: seq<Byte>, position: nat, size: nat)
    requires position + size <= |bytes| && position <= LineEnd(bytes)
    ensures var nl := LineEnd(bytes[position..position + size]);
            if nl < size then LineEnd(bytes) == position + nl else LineEnd(bytes) >= position + size
  {
    FirstNewline(bytes, position, size, LineEnd(bytes[position..position + size]), LineEnd(bytes));
  }

  // ---- the reader ----

  datatype Reader = Reader(rest: seq<Byte>, broken: bool, expected: LeaseId, lastSeq: Option<nat>, terminalSeen: bool,
                           max: nat)

  function Fresh(bytes: seq<Byte>, expected: LeaseId): Reader {
    Reader(bytes, false, expected, None, false, MAX_FRAME_BYTES)
  }

  function NextSeq(r: Reader): nat {
    if r.lastSeq.None? then 0 else r.lastSeq.value + 1
  }

  // What `next_frame` returns and the reader it leaves; frames with a number already seen are
  // dropped. After a line above the bound the reader is given at the start of that line.
  ghost function Next(dec: seq<Byte> -> Option<Frame>, r: Reader): (Outcome, Reader)
    decreases |r.rest|
  {
    if r.terminalSeen then (Failed(UnexpectedFrameAfterTerminal), r)
    else
      match LineOf(r.rest, r.broken, r.max)
      case TooLarge => (Failed(FrameTooLarge), r)
      case End => (StreamEnd, r)
      case Unreadable => (Failed(MalformedFrame), r.(rest := []))
      case Truncated => (Failed(MalformedFrame), r.(rest := []))
      case Line(payload, rest) =>
        var after := r.(rest := rest);
        match dec(payload)
        case None => (Failed(MalformedFrame), after)
        case Some(f) =>
          if f.lease != r.expected then (Failed(WrongLeaseId(f.lease)), after)
          else if f.number < NextSeq(r) then Next(dec, after)
          else if f.number > NextSeq(r) then (Failed(OutOfOrderFrame(NextSeq(r), f.number)), after)
          else if f.Terminal() then (Terminated(f), after.(lastSeq := Some(f.number), terminalSeen := true))
          else (Delivered(f), after.(lastSeq := Some(f.number)))
  }

  // `r` is `q` after more than `q.max` bytes.
  ghost predicate InsideLine(q: Reader, r: Reader) {
    exists k :: q.max < k <= |q.rest| && r == q.(rest := q.rest[k..])
  }

  method NextFrame(dec: seq<Byte> -> Option<Frame>, r0: Reader) returns (o: Outcome, r: Reader)
    ensures o == Next(dec, r0).0
    ensures if o == Failed(FrameTooLarge) then InsideLine(Next(dec, r0).1, r) else r == Next(dec, r0).1
    ensures o.Delivered? || o.Terminated? ==> |r.rest| < |r0.rest|
  {
    r := r0;
    if r.terminalSeen { return Failed(UnexpectedFrameAfterTerminal), r; }
    while true
      invariant Next(dec, r) == Next(dec, r0) && !r.terminalSeen && |r.rest| <= |r0.rest|
      decreases |r.rest|
    {
      var line, size, used := ReadLine(r.rest, r.broken, r.max, 8192);
      match line {
        case TooLarge => return Failed(FrameTooLarge), r.(rest := r.rest[used..]);
        case End => return StreamEnd, r;
        case Unreadable => return Failed(MalformedFrame), r.(rest := []);
        case Truncated => return Failed(MalformedFrame), r.(rest := []);
        case Line(payload, rest) =>
          var last := r.lastSeq;
          r := r.(rest := rest);
          var frame := dec(payload);
          if frame.None? { return Failed(MalformedFrame), r; }
          var f := frame.value;
          if f.lease != r.expected { return Failed(WrongLeaseId(f.lease)), r; }
          match last {
            case None => if f.number != 0 { return Failed(OutOfOrderFrame(0, f.number)), r; }
            case Some(n) =>
              if f.number <= n { continue; }
              if f.number != n + 1 { return Failed(OutOfOrderFrame(n + 1, f.number)), r; }
          }
          r := r.(lastSeq := Some(f.number));
          if f.Terminal() {
            r := r.(terminalSeen := true);
            return Terminated(f), r;
          }
          return Delivered(f), r;
      }
    }
  }

  // ---- the reader's decisions, line by line ----

  // The first line of the stream: first its size, then whether it decodes, its lease and its number.
  lemma NextByLine(dec: seq<Byte> -> Option<Frame>, line: seq<Byte>, rest: seq<Byte>, r: Reader)
    requires NEWLINE !in line && r.rest == line + [NEWLINE] + rest && !r.terminalSeen
    ensures var next, after, want := Next(dec, r), r.(rest := rest), if r.lastSeq.None? then 0 else r.lastSeq.value + 1;
            if |line| > r.max then next.0 == Failed(FrameTooLarge)
            else if dec(line).None? then next == (Failed(MalformedFrame), after)
            else var f := dec(line).value;
                 if f.lease != r.expected then next == (Failed(WrongLeaseId(f.lease)), after)
                 else if f.number < want then next == Next(dec, after)
                 else if f.number > want then next == (Failed(OutOfOrderFrame(want, f.number)), after)
                 else if f.Progress? then next == (Delivered(f), after.(lastSeq := Some(want)))
                 else next == (Terminated(f), after.(lastSeq := Some(want), terminalSeen := true))
  {
    LineEndUnique(line, rest);
    assert r.rest[..|line|] == line && r.rest[|line| + 1..] == rest;
  }

  // No complete line is left: a clean end, a truncated line, or a read error.
  lemma NextAtEnd(dec: seq<Byte> -> Option<Frame>, r: Reader)
    requires NEWLINE !in r.rest && !r.terminalSeen
    ensures Next(dec, r).0 == if |r.rest| > r.max then Failed(FrameTooLarge)
                              else if r.rest == [] && !r.broken then StreamEnd
                              else Failed(MalformedFrame)
  {
    assert LineEnd(r.rest) == |r.rest|;
  }

  // After the terminal frame every call fails.
  lemma NextAfterTerminal(dec: seq<Byte> -> Option<Frame>, r: Reader)
    requires r.terminalSeen
    ensures Next(dec, r) == (Failed(UnexpectedFrameAfterTerminal), r)
  {
  }

  // Every outcome of a reader up to the first that is not a plain frame.
  ghost function ReadAll(dec: seq<Byte> -> Option<Frame>, r: Reader): seq<Outcome>
    decreases |r.rest|
  {
    var (o, after) := Next(dec, r);
    if o.Delivered? && |after.rest| < |r.rest| then [o] + ReadAll(dec, after) else [o]
  }

  ghost predicate Short(enc: Frame -> seq<Byte>, frames: seq<Frame>, max: nat) {
    forall i :: 0 <= i < |frames| ==> |enc(frames[i])| <= max
  }

  ghost function Deliveries(frames: seq<Frame>): seq<Outcome> {
    if frames == [] then []
    else [if |frames| == 1 then Terminated(frames[0]) else Delivered(frames[0])] + Deliveries(frames[1..])
  }

  // Frames of one lease with rising numbers from `first` on, none after a terminal one.
  ghost predicate Rising(frames: seq<Frame>, lease: LeaseId, first: nat) {
    && AllLeased(frames, lease)
    && (forall i :: 0 <= i < |frames| ==> frames[i].number >= first + i)
    && (forall i, k :: 0 <= i < k < |frames| ==> frames[i].number < frames[k].number)
    && forall i :: 0 <= i < |frames| - 1 ==> !frames[i].Terminal()
  }

  ghost predicate Numbered(frames: seq<Frame>, first: nat) {
    forall i :: 0 <= i < |frames| ==> frames[i].number == first + i
  }

  ghost predicate Complete(frames: seq<Frame>) {
    frames != [] && frames[|frames| - 1].Terminal()
  }

  // What a reader that expects number `next` makes of such frames.
  ghost function Received(enc: Frame -> seq<Byte>, frames: seq<Frame>, next: nat, max: nat): seq<Outcome> {
    if frames == [] then []
    else if |enc(frames[0])| > max then [Failed(FrameTooLarge)]
    else if frames[0].number != next then [Failed(OutOfOrderFrame(next, frames[0].number))]
    else [if |frames| == 1 then Terminated(frames[0]) else Delivered(frames[0])] +
         Received(enc, frames[1..], next + 1, max)
  }

  lemma NextOfBody(enc: Frame -> seq<Byte>, dec: seq<Byte> -> Option<Frame>, f: Frame, rest: seq<Byte>, r: Reader)
    requires Codec(enc, dec) && r.rest == enc(f) + [NEWLINE] + rest
    requires !r.terminalSeen && f.lease == r.expected && f.number >= NextSeq(r)
    ensures |enc(f)| > r.max ==> Next(dec, r).0 == Failed(FrameTooLarge)
    ensures |enc(f)| <= r.max && f.number > NextSeq(r) ==>
              Next(dec, r).0 == Failed(OutOfOrderFrame(NextSeq(r), f.number))
    ensures |enc(f)| <= r.max && f.number == NextSeq(r) ==>
              Next(dec, r) ==
              if f.Terminal() then (Terminated(f), r.(rest := rest, lastSeq := Some(f.number), terminalSeen := true))
              else (Delivered(f), r.(rest := rest, lastSeq := Some(f.number)))
  {
    var line := enc(f);
    LineEndUnique(line, rest);
    assert r.rest[..|line|] == line && r.rest[|line| + 1..] == rest;
    assert dec(line) == Some(f);
  }

  lemma BodyFirst(enc: Frame -> seq<Byte>, frames: seq<Frame>, tail: seq<Byte>)
    requires frames != []
    ensures Body(enc, frames) + tail == enc(frames[0]) + [NEWLINE] + (Body(enc, frames[1..]) + tail)
  {
    Associative(enc(frames[0]) + [NEWLINE], Body(enc, frames[1..]), tail);
  }

  // The frame is delivered and the reading goes on.
  ghost predicate GoesOn(enc: Frame -> seq<Byte>, f: Frame, r: Reader) {
    |enc(f)| <= r.max && f.number == NextSeq(r) && !f.Terminal()
  }

  // How the reading ends with the frame otherwise.
  ghost function EndsWith(enc: Frame -> seq<Byte>, f: Frame, r: Reader): Outcome {
    if |enc(f)| > r.max then Failed(FrameTooLarge)
    else if f.number != NextSeq(r) then Failed(OutOfOrderFrame(NextSeq(r), f.number))
    else Terminated(f)
  }

  lemma FirstRead(enc: Frame -> seq<Byte>, dec: seq<Byte> -> Option<Frame>, f: Frame, rest: seq<Byte>, r: Reader)
    requires Codec(enc, dec) && r.rest == enc(f) + [NEWLINE] + rest
    requires !r.terminalSeen && f.lease == r.expected && f.number >= NextSeq(r)
    ensures ReadAll(dec, r) == if GoesOn(enc, f, r)
                               then [Delivered(f)] + ReadAll(dec, r.(rest := rest, lastSeq := Some(f.number)))
                               else [EndsWith(enc, f, r)]
  {
    NextOfBody(enc, dec, f, rest, r);
  }

  // Exactly what is read of a printed body with rising numbers and one terminal frame, at its end,
  // whatever bytes follow.
  lemma {:induction false} ReadBack(enc: Frame -> seq<Byte>, dec: seq<Byte> -> Option<Frame>, frames: seq<Frame>,
                                    tail: seq<Byte>, r: Reader)
    requires Codec(enc, dec) && Rising(frames, r.expected, NextSeq(r)) && Complete(frames)
    requires r.rest == Body(enc, frames) + tail && !r.terminalSeen
    ensures ReadAll(dec, r) == Received(enc, frames, NextSeq(r), r.max)
    decreases |frames|
  {
    var f, rest := frames[0], Body(enc, frames[1..]) + tail;
    if GoesOn(enc, f, r) {
      RisingRest(frames, r.expected, NextSeq(r));
      ReadBack(enc, dec, frames[1..], tail, r.(rest := rest, lastSeq := Some(f.number)));
    }
    BodyFirst(enc, frames, tail);
    ReadBackStep(enc, dec, frames, rest, r);
  }

  lemma ReadBackStep(enc: Frame -> seq<Byte>, dec: seq<Byte> -> Option<Frame>, frames: seq<Frame>, rest: seq<Byte>,
                     r: Reader)
    requires Codec(enc, dec) && Rising(frames, r.expected, NextSeq(r)) && Complete(frames)
    requires r.rest == enc(frames[0]) + [NEWLINE] + rest && !r.terminalSeen
    requires GoesOn(enc, frames[0], r) ==> ReadAll(dec, r.(rest := rest, lastSeq := Some(frames[0].number)))
                                           == Received(enc, frames[1..], frames[0].number + 1, r.max)
    ensures ReadAll(dec, r) == Received(enc, frames, NextSeq(r), r.max)
  {
    FirstRead(enc, dec, frames[0], rest, r);
    ReceivedFirst(enc, frames, r);
  }

  lemma ReceivedFirst(enc: Frame -> seq<Byte>, frames: seq<Frame>, r: Reader)
    requires Rising(frames, r.expected, NextSeq(r)) && Complete(frames)
    ensures Received(enc, frames, NextSeq(r), r.max) ==
            if GoesOn(enc, frames[0], r)
            then [Delivered(frames[0])] + Received(enc, frames[1..], frames[0].number + 1, r.max)
            else [EndsWith(enc, frames[0], r)]
  {
    assert frames[0].Terminal() <==> |frames| == 1;
  }

  lemma RisingRest(frames: seq<Frame>, lease: LeaseId, next: nat)
    requires Rising(frames, lease, next) && Complete(frames) && !frames[0].Terminal() && frames[0].number == next
    ensures Rising(frames[1..], lease, next + 1) && Complete(frames[1..])
  {
  }

  // Every frame is delivered exactly when all fit the bound and no number is skipped.
  lemma {:induction false} ReceivedIff(enc: Frame -> seq<Byte>, frames: seq<Frame>, next: nat, max: nat)
    ensures Received(enc, frames, next, max) == Deliveries(frames)
            <==> Short(enc, frames, max) && Numbered(frames, next)
  {
    if frames != [] {
      var f, rest := frames[0], frames[1..];
      ReceivedIff(enc, rest, next + 1, max);
      var a, b := Received(enc, frames, next, max), Deliveries(frames);
      assert Short(enc, frames, max) <==> |enc(f)| <= max && Short(enc, rest, max) by { HeadAndRest(frames); }
      assert Numbered(frames, next) <==> f.number == next && Numbered(rest, next + 1) by { HeadAndRest(frames); }
      assert !b[0].Failed?;
      if |enc(f)| <= max && f.number == next {
        assert a[1..] == Received(enc, rest, next + 1, max) && b[1..] == Deliveries(rest);
      }
    }
  }

  lemma HeadAndRest(frames: seq<Frame>)
    requires frames != []
    ensures forall i :: 0 < i < |frames| ==> frames[i] == frames[1..][i - 1]
    ensures forall i :: 0 <= i < |frames| - 1 ==> frames[1..][i] == frames[i + 1]
  {
  }

  // ---- repeated numbers ----

  // The frames without those whose number was seen before.
  ghost function Sifted(frames: seq<Frame>, next: nat): seq<Frame> {
    if frames == [] then []
    else if frames[0].number < next then Sifted(frames[1..], next)
    else [frames[0]] + Sifted(frames[1..], frames[0].number + 1)
  }

  // Every frame with a number seen before that the reading gets to fits the bound.
  ghost predicate RepeatsShort(enc: Frame -> seq<Byte>, frames: seq<Frame>, next: nat, max: nat) {
    frames != [] ==>
      var f := frames[0];
      if f.number < next then |enc(f)| <= max && RepeatsShort(enc, frames[1..], next, max)
      else |enc(f)| <= max && f.number == next && !f.Terminal() ==> RepeatsShort(enc, frames[1..], next + 1, max)
  }

  // One above it ends the reading like any other frame.
  lemma LongRepeatRefused(enc: Frame -> seq<Byte>, dec: seq<Byte> -> Option<Frame>, f: Frame, rest: seq<Byte>,
                          r: Reader)
    requires Codec(enc, dec) && r.rest == enc(f) + [NEWLINE] + rest && |enc(f)| > r.max && !r.terminalSeen
    ensures ReadAll(dec, r) == [Failed(FrameTooLarge)]
  {
    LineEndUnique(enc(f), rest);
  }

  lemma NextOfRepeat(enc: Frame -> seq<Byte>, dec: seq<Byte> -> Option<Frame>, f: Frame, rest: seq<Byte>, r: Reader)
    requires Codec(enc, dec) && r.rest == enc(f) + [NEWLINE] + rest && |enc(f)| <= r.max
    requires !r.terminalSeen && f.lease == r.expected && f.number < NextSeq(r)
    ensures ReadAll(dec, r) == ReadAll(dec, r.(rest := rest))
  {
    var line := enc(f);
    LineEndUnique(line, rest);
    assert r.rest[..|line|] == line && r.rest[|line| + 1..] == rest;
    assert dec(line) == Some(f);
    assert Next(dec, r) == Next(dec, r.(rest := rest));
    NextConsumes(dec, r);
    NextConsumes(dec, r.(rest := rest));
  }

  // Equal readings of what follows a frame make equal readings from the frame on.
  lemma SameFirst(enc: Frame -> seq<Byte>, dec: seq<Byte> -> Option<Frame>, f: Frame, a: seq<Byte>, b: seq<Byte>,
                  r: Reader, q: Reader)
    requires Codec(enc, dec) && !r.terminalSeen && f.lease == r.expected && f.number >= NextSeq(r)
    requires r.rest == enc(f) + [NEWLINE] + a && q == r.(rest := enc(f) + [NEWLINE] + b)
    requires GoesOn(enc, f, r) ==> ReadAll(dec, r.(rest := a, lastSeq := Some(f.number)))
                                   == ReadAll(dec, r.(rest := b, lastSeq := Some(f.number)))
    ensures ReadAll(dec, r) == ReadAll(dec, q)
  {
    FirstRead(enc, dec, f, a, r);
    FirstRead(enc, dec, f, b, q);
  }

  // What a reader sees of a body without its repeats.
  ghost function WithoutRepeats(enc: Frame -> seq<Byte>, frames: seq<Frame>, tail: seq<Byte>, r: Reader): Reader {
    r.(rest := Body(enc, Sifted(frames, NextSeq(r))) + tail)
  }

  // A body with any repeated numbers in it is read like the body without them, whatever follows.
  lemma {:induction false} RepeatsDropped(enc: Frame -> seq<Byte>, dec: seq<Byte> -> Option<Frame>, frames: seq<Frame>,
                                          tail: seq<Byte>, r: Reader)
    requires Codec(enc, dec) && AllLeased(frames, r.expected) && RepeatsShort(enc, frames, NextSeq(r), r.max)
    requires r.rest == Body(enc, frames) + tail && !r.terminalSeen
    ensures ReadAll(dec, r) == ReadAll(dec, WithoutRepeats(enc, frames, tail, r))
    decreases |frames|
  {
    if frames != [] {
      var f, more := frames[0], frames[1..];
      var rest := Body(enc, more) + tail;
      BodyFirst(enc, frames, tail);
      if f.number < NextSeq(r) {
        NextOfRepeat(enc, dec, f, rest, r);
        RepeatsDropped(enc, dec, more, tail, r.(rest := rest));
      } else {
        var kept := Sifted(more, f.number + 1);
        assert ([f] + kept)[1..] == kept;
        BodyFirst(enc, [f] + kept, tail);
        if GoesOn(enc, f, r) {
          RepeatsDropped(enc, dec, more, tail, r.(rest := rest, lastSeq := Some(f.number)));
        }
        SameFirst(enc, dec, f, rest, Body(enc, kept) + tail, r, WithoutRepeats(enc, frames, tail, r));
      }
    }
  }

  // ---- frames above the bound ----

  // A frame above the bound ends the reading.
  lemma {:induction false} LastReceived(enc: Frame -> seq<Byte>, frames: seq<Frame>, next: nat, max: nat)
    requires frames != [] && Numbered(frames, next)
    ensures var all := Received(enc, frames, next, max);
            all != [] && if Short(enc, frames, max) then all[|all| - 1].Terminated?
                         else all[|all| - 1] == Failed(FrameTooLarge)
  {
    var rest := frames[1..];
    HeadAndRest(frames);
    if |enc(frames[0])| <= max {
      if rest == [] {
        assert Received(enc, rest, next + 1, max) == [];
      } else {
        LastReceived(enc, rest, next + 1, max);
        assert Short(enc, frames, max) <==> Short(enc, rest, max);
      }
    }
  }

  lemma WellFormedRising(frames: seq<Frame>, lease: LeaseId)
    requires WellFormed(frames, lease, 0)
    ensures Rising(frames, lease, 0) && Complete(frames) && Numbered(frames, 0)
  {
  }

  // A handler body is read back completely exactly when all of its frames fit the bound.
  lemma HandlerReadBack(enc: Frame -> seq<Byte>, dec: seq<Byte> -> Option<Frame>, lease: LeaseId, handled: Handled,
                        started: string, reply: string)
    requires Codec(enc, dec)
    ensures var frames := HandlerFrames(lease, handled, started, reply);
            && ReadAll(dec, Fresh(Body(enc, frames), lease)) == Received(enc, frames, 0, MAX_FRAME_BYTES)
            && (ReadAll(dec, Fresh(Body(enc, frames), lease)) == Deliveries(frames)
                <==> Short(enc, frames, 65536))
  {
    var frames := HandlerFrames(lease, handled, started, reply);
    HandlerWellFormed(enc, dec, lease, handled, started, reply);
    WellFormedRising(frames, lease);
    assert Body(enc, frames) + [] == Body(enc, frames);
    ReadBack(enc, dec, frames, [], Fresh(Body(enc, frames), lease));
    ReceivedIff(enc, frames, 0, MAX_FRAME_BYTES);
  }

  // The handler does not bound its messages: with an encoding that prints texts in full, a reply
  // above the bound, such as an error that quotes a long source path, is refused by the reader.
  lemma LongReplyRefused(enc: Frame -> seq<Byte>, dec: seq<Byte> -> Option<Frame>, lease: LeaseId, handled: Handled,
                         started: string, reply: string)
    requires Codec(enc, dec) && (forall f :: |enc(f)| >= |f.text|) && |reply| > MAX_FRAME_BYTES
    ensures var body := Body(enc, HandlerFrames(lease, handled, started, reply));
            ReadAll(dec, Fresh(body, lease)) != [] && Last(dec, Fresh(body, lease)) == Failed(FrameTooLarge)
  {
    var frames := HandlerFrames(lease, handled, started, reply);
    HandlerReadBack(enc, dec, lease, handled, started, reply);
    HandlerWellFormed(enc, dec, lease, handled, started, reply);
    assert frames[|frames| - 1].text == reply;
    LastReceived(enc, frames, 0, MAX_FRAME_BYTES);
  }

  // ---- the writer ----

  function WithNumber(f: Frame, n: nat): Frame {
    f.(number := n)
  }

  // Frames with rising numbers below `next`; with as many frames as numbers, none is skipped.
  ghost predicate InOrder(sent: seq<Frame>, lease: LeaseId, next: nat) {
    && Rising(sent, lease, 0) && |sent| <= next
    && (forall i :: 0 <= i < |sent| ==> sent[i].number < next)
    && (|sent| == next ==> Numbered(sent, 0))
  }

  lemma InOrderLater(sent: seq<Frame>, lease: LeaseId, next: nat)
    requires InOrder(sent, lease, next)
    ensures InOrder(sent, lease, next + 1)
  {
  }

  lemma InOrderAppend(sent: seq<Frame>, lease: LeaseId, f: Frame)
    requires InOrder(sent, lease, f.number) && !Complete(sent) && f.lease == lease
    ensures InOrder(sent + [f], lease, f.number + 1) && (Complete(sent + [f]) <==> f.Terminal())
  {
  }

  // What becomes of a frame that passed the writer's checks.
  datatype Fate = Written | NotEncoded | CutShort(written: nat)

  function Printed(line: seq<Byte>, fate: Fate): seq<Byte> {
    match fate
    case Written => line
    case NotEncoded => []
    case CutShort(n) => line[..Min(n, |line|)]
  }

  // If no write was cut short, the output is the printed frames.
  ghost predicate Shows(enc: Frame -> seq<Byte>, output: seq<Byte>, sent: seq<Frame>, whole: bool) {
    whole ==> output == Body(enc, sent)
  }

  lemma ShowsAppend(enc: Frame -> seq<Byte>, output: seq<Byte>, sent: seq<Frame>, whole: bool, f: Frame, fate: Fate)
    requires Shows(enc, output, sent, whole)
    ensures Shows(enc, output + Printed(enc(f) + [NEWLINE], fate), if fate.Written? then sent + [f] else sent,
                  whole && !fate.CutShort?)
  {
    BodyAppend(enc, sent, f);
    Associative(Body(enc, sent), enc(f), [NEWLINE]);
    assert output + [] == output;
  }

  // The numbers of the frames sent, `lost` others and the next one.
  ghost predicate Numbering(lease: LeaseId, next: nat, terminalSent: bool, sent: seq<Frame>, lost: nat) {
    && InOrder(sent, lease, next) && next == |sent| + lost && (terminalSent <==> Complete(sent))
    && (terminalSent ==> sent[|sent| - 1].number == next - 1)
  }

  lemma NumberingSent(lease: LeaseId, next: nat, sent: seq<Frame>, lost: nat, f: Frame)
    requires Numbering(lease, next, false, sent, lost) && f.lease == lease && f.number == next
    ensures Numbering(lease, next + 1, f.Terminal(), sent + [f], lost)
  {
    InOrderAppend(sent, lease, f);
  }

  lemma NumberingLost(lease: LeaseId, next: nat, sent: seq<Frame>, lost: nat)
    requires Numbering(lease, next, false, sent, lost)
    ensures Numbering(lease, next + 1, false, sent, lost + 1)
  {
    InOrderLater(sent, lease, next);
  }

  datatype EmitResult = Sent | Refused(error: ProtocolError)

  class NdjsonWriter {
    const enc: Frame -> seq<Byte>
    const lease: LeaseId
    var output: seq<Byte>
    var nextSeq: nat
    var terminalSent: bool
    ghost var sent: seq<Frame>   // the frames written as a whole
    ghost var lost: nat          // frames that used a number and were not
    ghost var whole: bool        // no write was cut short

    ghost predicate Valid()
      reads this
    {
      Numbering(lease, nextSeq, terminalSent, sent, lost) && Shows(enc, output, sent, whole)
    }

    constructor (enc: Frame -> seq<Byte>, lease: LeaseId)
      ensures Valid() && sent == [] && lost == 0 && whole && this.enc == enc && this.lease == lease
    {
      this.enc, this.lease := enc, lease;
      output, nextSeq, terminalSent, sent, lost, whole := [], 0, false, [], 0, true;
    }

    // The writer numbers the frame itself. A refused frame changes nothing; one that cannot be
    // encoded or written still uses up its number.
    method Emit(frame: Frame, fate: Fate) returns (r: EmitResult)
      requires Valid()
      modifies this
      ensures Valid()
      ensures r == if old(terminalSent) then Refused(MalformedFrame)
                   else if frame.lease != lease then Refused(WrongLeaseId(frame.lease))
                   else if fate.Written? then Sent else Refused(MalformedFrame)
      ensures if old(terminalSent) || frame.lease != lease then unchanged(this)
              else && nextSeq == old(nextSeq) + 1
                   && output == old(output) + Printed(enc(WithNumber(frame, old(nextSeq))) + [NEWLINE], fate)
                   && whole == (old(whole) && !fate.CutShort?)
      ensures sent == if r.Sent? then old(sent) + [WithNumber(frame, old(nextSeq))] else old(sent)
    {
      if terminalSent { return Refused(MalformedFrame); }
      if frame.lease != lease { return Refused(WrongLeaseId(frame.lease)); }
      var numbered := WithNumber(frame, nextSeq);
      var printed := output + Printed(enc(numbered) + [NEWLINE], fate);
      ShowsAppend(enc, output, sent, whole, numbered, fate);
      if !fate.Written? {
        NumberingLost(lease, nextSeq, sent, lost);
        nextSeq, output, lost, whole := nextSeq + 1, printed, lost + 1, whole && !fate.CutShort?;
        return Refused(MalformedFrame);
      }
      NumberingSent(lease, nextSeq, sent, lost, numbered);
      nextSeq, output, sent := nextSeq + 1, printed, sent + [numbered];
      if numbered.Terminal() { terminalSent := true; }
      r := Sent;
    }

    // What a reader makes of the output of a writer that has sent its terminal frame.
    lemma ReadBackIff(dec: seq<Byte> -> Option<Frame>)
      requires Valid() && terminalSent && whole && Codec(enc, dec)
      ensures ReadAll(dec, Fresh(output, lease)) == Received(enc, sent, 0, MAX_FRAME_BYTES)
      ensures ReadAll(dec, Fresh(output, lease)) == Deliveries(sent) <==> Short(enc, sent, MAX_FRAME_BYTES) && lost == 0
    {
      WriterReadBack(enc, dec, sent, lease);
    }
  }

  // What a writer wrote up to its terminal frame, a reader of the same lease gets back exactly when
  // every frame fits the bound and no number was lost to an encoding failure.
  lemma WriterReadBack(enc: Frame -> seq<Byte>, dec: seq<Byte> -> Option<Frame>, sent: seq<Frame>, lease: LeaseId)
    requires Codec(enc, dec) && Rising(sent, lease, 0) && Complete(sent)
    ensures ReadAll(dec, Fresh(Body(enc, sent), lease)) == Received(enc, sent, 0, MAX_FRAME_BYTES)
    ensures ReadAll(dec, Fresh(Body(enc, sent), lease)) == Deliveries(sent)
            <==> Short(enc, sent, MAX_FRAME_BYTES) && Numbered(sent, 0)
  {
    assert Body(enc, sent) + [] == Body(enc, sent);
    ReadBack(enc, dec, sent, [], Fresh(Body(enc, sent), lease));
    ReceivedIff(enc, sent, 0, MAX_FRAME_BYTES);
  }

  // ---- classifying a stream ----

  datatype Classified = Accepted | Rejected(error: ProtocolError)

  // What the last outcome of a stream is classified as.
  function ErrorFor(o: Outcome): ProtocolError
    requires !o.Delivered?
  {
    match o
    case Terminated(_) => UnexpectedFrameAfterTerminal
    case StreamEnd => MalformedFrame
    case Failed(e) => e
  }

  lemma {:induction false} ReadAllEnds(dec: seq<Byte> -> Option<Frame>, r: Reader)
    ensures ReadAll(dec, r) != [] && !ReadAll(dec, r)[|ReadAll(dec, r)| - 1].Delivered?
    decreases |r.rest|
  {
    NextConsumes(dec, r);
    var (o, after) := Next(dec, r);
    if o.Delivered? { ReadAllEnds(dec, after); }
  }

  lemma {:induction false} NextConsumes(dec: seq<Byte> -> Option<Frame>, r: Reader)
    ensures Next(dec, r).0.Delivered? || Next(dec, r).0.Terminated? ==> |Next(dec, r).1.rest| < |r.rest|
    ensures Next(dec, r).0.Terminated? ==> Next(dec, r).1.terminalSeen
    decreases |r.rest|
  {
    if !r.terminalSeen {
      var line := LineOf(r.rest, r.broken, r.max);
      if line.Line? { NextConsumes(dec, r.(rest := line.rest)); }
    }
  }

  ghost function Last(dec: seq<Byte> -> Option<Frame>, r: Reader): (o: Outcome)
    ensures !o.Delivered?
  {
    ReadAllEnds(dec, r);
    ReadAll(dec, r)[|ReadAll(dec, r)| - 1]
  }

  // `classify_reader` accepts no stream at all: the call after the terminal frame always fails,
  // whether or not a frame follows.
  method ClassifyReader(dec: seq<Byte> -> Option<Frame>, bytes: seq<Byte>, broken: bool, expected: LeaseId)
    returns (c: Classified)
    ensures c == Rejected(match Last(dec, Fresh(bytes, expected).(broken := broken))
                          case Terminated(_) => UnexpectedFrameAfterTerminal
                          case StreamEnd => MalformedFrame
                          case Failed(e) => e)
  {
    var reader := Fresh(bytes, expected).(broken := broken);
    while true
      invariant Last(dec, reader) == Last(dec, Fresh(bytes, expected).(broken := broken))
      decreases |reader.rest|
    {
      NextConsumes(dec, reader);
      var o, after := NextFrame(dec, reader);
      match o {
        case Delivered(_) =>
          LastStep(dec, reader);
          reader := after;
        case Terminated(_) =>
          var next, _ := NextFrame(dec, after);
          if next.Failed? { return Rejected(next.error); }
          return Accepted;
        case StreamEnd => return Rejected(MalformedFrame);
        case Failed(e) => return Rejected(e);
      }
    }
  }

  lemma LastStep(dec: seq<Byte> -> Option<Frame>, r: Reader)
    requires Next(dec, r).0.Delivered?
    ensures Last(dec, r) == Last(dec, Next(dec, r).1)
  {
  }

  // ---- the negative fixtures ----

  datatype FixtureMode = WrongLeaseMode | FrameAfterTerminalMode | TruncatedBodyMode

  function FixtureFrames(mode: FixtureMode, expected: LeaseId): seq<Frame> {
    var progress := Progress(if mode.WrongLeaseMode? then expected + 1 else expected, 0, "fixture");
    if mode.WrongLeaseMode? then [progress]
    else
      [progress, Completed(expected, 1, "ok")] +
      (if mode.FrameAfterTerminalMode? then [Progress(expected, 2, "after terminal")] else [])
  }

  ghost function Fixture(enc: Frame -> seq<Byte>, mode: FixtureMode, expected: LeaseId): seq<Byte> {
    var body := Body(enc, FixtureFrames(mode, expected));
    if mode.TruncatedBodyMode? && body != [] then body[..|body| - 1] else body
  }

  method PushFrame(enc: Frame -> seq<Byte>, out0: seq<Byte>, frame: Frame, ghost frames: seq<Frame>)
    returns (out: seq<Byte>)
    requires out0 == Body(enc, frames)
    ensures out == Body(enc, frames + [frame])
  {
    BodyAppend(enc, frames, frame);
    out := out0 + enc(frame) + [NEWLINE];
  }

  method FixtureBytes(enc: Frame -> seq<Byte>, mode: FixtureMode, expected: LeaseId) returns (bytes: seq<Byte>)
    ensures bytes == Fixture(enc, mode, expected)
  {
    var progress := Progress(if mode.WrongLeaseMode? then expected + 1 else expected, 0, "fixture");
    bytes := PushFrame(enc, [], progress, []);
    if mode.WrongLeaseMode? {
      assert [] + [progress] == [progress];
      return;
    }
    var result := Completed(expected, 1, "ok");
    bytes := PushFrame(enc, bytes, result, [] + [progress]);
    assert [] + [progress] + [result] == [progress, result];
    if mode.FrameAfterTerminalMode? {
      var extra := Progress(expected, 2, "after terminal");
      bytes := PushFrame(enc, bytes, extra, [progress, result]);
    } else {
      assert FixtureFrames(mode, expected) == [progress, result];
      bytes := bytes[..|bytes| - 1];
    }
  }

  lemma LastIs(dec: seq<Byte> -> Option<Frame>, r: Reader)
    requires !Next(dec, r).0.Delivered?
    ensures Last(dec, r) == Next(dec, r).0
  {
  }

  lemma WrongLeaseRejected(enc: Frame -> seq<Byte>, dec: seq<Byte> -> Option<Frame>, f: Frame, expected: LeaseId)
    requires Codec(enc, dec) && f.lease != expected && |enc(f)| <= MAX_FRAME_BYTES
    ensures Last(dec, Fresh(Body(enc, [f]), expected)) == Failed(WrongLeaseId(f.lease))
  {
    var r := Fresh(Body(enc, [f]), expected);
    BodyAppend(enc, [], f);
    assert [] + [f] == [f];
    assert r.rest == enc(f) + [NEWLINE] + [];
    LineEndUnique(enc(f), []);
    assert r.rest[..|enc(f)|] == enc(f) && dec(enc(f)) == Some(f);
    LastIs(dec, r);
  }

  // A well-formed body ends with its terminal frame, whatever follows, or with a frame above the
  // bound.
  lemma TailIgnored(enc: Frame -> seq<Byte>, dec: seq<Byte> -> Option<Frame>, frames: seq<Frame>, tail: seq<Byte>,
                    expected: LeaseId)
    requires Codec(enc, dec) && WellFormed(frames, expected, 0)
    ensures var last := Last(dec, Fresh(Body(enc, frames) + tail, expected));
            if Short(enc, frames, MAX_FRAME_BYTES) then last.Terminated? else last == Failed(FrameTooLarge)
  {
    WellFormedRising(frames, expected);
    ReadBack(enc, dec, frames, tail, Fresh(Body(enc, frames) + tail, expected));
    LastReceived(enc, frames, 0, MAX_FRAME_BYTES);
  }

  lemma TruncatedRejected(enc: Frame -> seq<Byte>, dec: seq<Byte> -> Option<Frame>, p: Frame, c: Frame,
                          expected: LeaseId)
    requires Codec(enc, dec) && p.Progress? && p.lease == expected && p.number == 0
    requires |enc(p)| <= MAX_FRAME_BYTES && |enc(c)| <= MAX_FRAME_BYTES
    ensures Last(dec, Fresh(enc(p) + [NEWLINE] + enc(c), expected)) == Failed(MalformedFrame)
  {
    var r := Fresh(enc(p) + [NEWLINE] + enc(c), expected);
    NextOfBody(enc, dec, p, enc(c), r);
    LastStep(dec, r);
    var after := Next(dec, r).1;
    assert dec(enc(c)) == Some(c) && dec([]) == None;
    assert LineEnd(enc(c)) == |enc(c)|;
    LastIs(dec, after);
  }

  // Each fixture is rejected for its own reason.
  lemma FixturesRejected(enc: Frame -> seq<Byte>, dec: seq<Byte> -> Option<Frame>, mode: FixtureMode, expected: LeaseId)
    requires Codec(enc, dec) && Short(enc, FixtureFrames(mode, expected), MAX_FRAME_BYTES)
    ensures ErrorFor(Last(dec, Fresh(Fixture(enc, mode, expected), expected))) ==
            match mode
            case WrongLeaseMode => WrongLeaseId(expected + 1)
            case FrameAfterTerminalMode => UnexpectedFrameAfterTerminal
            case TruncatedBodyMode => MalformedFrame
  {
    var frames := FixtureFrames(mode, expected);
    assert |enc(frames[0])| <= MAX_FRAME_BYTES;
    match mode {
      case WrongLeaseMode => WrongLeaseRejected(enc, dec, frames[0], expected);
      case FrameAfterTerminalMode =>
        var first := [frames[0], frames[1]];
        assert frames == first + [frames[2]];
        BodyJoin(enc, first, [frames[2]]);
        assert Short(enc, first, MAX_FRAME_BYTES);
        TailIgnored(enc, dec, first, Body(enc, [frames[2]]), expected);
      case TruncatedBodyMode =>
        assert |enc(frames[1])| <= MAX_FRAME_BYTES;
        TwoFrameBody(enc, frames[0], frames[1]);
        assert frames == [frames[0], frames[1]];
        var body := Body(enc, frames);
        assert body[..|body| - 1] == enc(frames[0]) + [NEWLINE] + enc(frames[1]);
        TruncatedRejected(enc, dec, frames[0], frames[1], expected);
    }
  }

  lemma {:induction false} BodyJoin(enc: Frame -> seq<Byte>, a: seq<Frame>, b: seq<Frame>)
    ensures Body(enc, a + b) == Body(enc, a) + Body(enc, b)
  {
    if a == [] {
      assert a + b == b;
    } else {
      var line := enc(a[0]) + [NEWLINE];
      BodyJoin(enc, a[1..], b);
      assert (a + b)[0] == a[0] && (a + b)[1..] == a[1..] + b;
      Associative(line, Body(enc, a[1..]), Body(enc, b));
    }
  }

  lemma Associative(a: seq<Byte>, b: seq<Byte>, c: seq<Byte>)
    ensures a + (b + c) == (a + b) + c
  {
  }

  lemma TwoFrameBody(enc: Frame -> seq<Byte>, a: Frame, b: Frame)
    ensures Body(enc, [a, b]) == enc(a) + [NEWLINE] + enc(b) + [NEWLINE]
  {
    BodyAppend(enc, [], a);
    assert [] + [a] == [a];
    BodyAppend(enc, [a], b);
    assert [a] + [b] == [a, b];
  }

  // The scan tells the frame-after-terminal fixture from every body the handler prints. The
  // classifier gives both the same answer, exactly when the handler's frames fit the bound.
  lemma ScanTellsApart(enc: Frame -> seq<Byte>, dec: seq<Byte> -> Option<Frame>, expected: LeaseId, handled: Handled,
                       started: string, reply: string)
    requires Codec(enc, dec) && Short(enc, FixtureFrames(FrameAfterTerminalMode, expected), MAX_FRAME_BYTES)
    ensures var bad := Fixture(enc, FrameAfterTerminalMode, expected);
            var frames := HandlerFrames(expected, handled, started, reply);
            && ScanLines(dec, Lines(bad), expected, false) == Scanned(true)
            && ScanLines(dec, Lines(Body(enc, frames)), expected, false) == Scanned(false)
            && (ErrorFor(Last(dec, Fresh(bad, expected))) == ErrorFor(Last(dec, Fresh(Body(enc, frames), expected)))
                <==> Short(enc, frames, MAX_FRAME_BYTES))
  {
    var frames := FixtureFrames(FrameAfterTerminalMode, expected);
    var good := HandlerFrames(expected, handled, started, reply);
    FixturesRejected(enc, dec, FrameAfterTerminalMode, expected);
    assert frames[1].Terminal();
    ScanBody(enc, dec, frames, expected);
    HandlerWellFormed(enc, dec, expected, handled, started, reply);
    assert Body(enc, good) + [] == Body(enc, good);
    TailIgnored(enc, dec, good, [], expected);
  }
}
