/**
 * Newline-delimited frame bodies: what the backup worker's handler prints
 * (crates/voom-backup-worker/src/handler.rs) and how the conformance crate scans such a body for
 * a frame after the terminal one (crates/voom-conformance/src/negative_fixture.rs). The JSON
 * encoding is a parameter with the properties collected in `Codec`.
 */
module Frames {
  import opened Basics
  import opened CrashDisk
  import opened Backup

  type LeaseId = nat

  datatype FailureClass = ArtifactUnavailableClass | BackupFailureClass | MalformedWorkerResultClass

  // The fields that no rule looks at are one text.
  datatype Frame =
    | Progress(lease: LeaseId, number: nat, text: string)
    | Completed(lease: LeaseId, number: nat, text: string)
    | Error(lease: LeaseId, number: nat, failure: FailureClass, text: string)
  {
    predicate Terminal() {
      !Progress?
    }
  }

  const NEWLINE: Byte := 10

  // A frame decodes to itself; a compact JSON text holds no raw newline (section 7 of RFC 8259)
  // and is not empty.
  ghost predicate Codec(enc: Frame -> seq<Byte>, dec: seq<Byte> -> Option<Frame>) {
    && (forall f :: dec(enc(f)) == Some(f))
    && (forall f :: NEWLINE !in enc(f))
    && dec([]) == None
  }

  // ---- printing ----

  ghost function Body(enc: Frame -> seq<Byte>, frames: seq<Frame>): seq<Byte> {
    if frames == [] then [] else enc(frames[0]) + [NEWLINE] + Body(enc, frames[1..])
  }

  method BodyFromFrames(enc: Frame -> seq<Byte>, frames: seq<Frame>) returns (body: seq<Byte>)
    ensures body == Body(enc, frames)
  {
    body := [];
    for i := 0 to |frames|
      invariant body == Body(enc, frames[..i])
    {
      body := body + enc(frames[i]) + [NEWLINE];
      BodyAppend(enc, frames[..i], frames[i]);
      assert frames[..i + 1] == frames[..i] + [frames[i]];
    }
    assert frames[..|frames|] == frames;
  }

  lemma {:induction false} BodyAppend(enc: Frame -> seq<Byte>, frames: seq<Frame>, f: Frame)
    ensures Body(enc, frames + [f]) == Body(enc, frames) + enc(f) + [NEWLINE]
  {
    if frames == [] {
      assert [f][1..] == [];
    } else {
      BodyAppend(enc, frames[1..], f);
      assert (frames + [f])[1..] == frames[1..] + [f];
    }
  }

  // ---- splitting ----

  // The position of the first newline, or the length.
  function LineEnd(bytes: seq<Byte>): (n: nat)
    ensures n <= |bytes| && forall i :: 0 <= i < n ==> bytes[i] != NEWLINE
    ensures n < |bytes| ==> bytes[n] == NEWLINE
  {
    if bytes == [] || bytes[0] == NEWLINE then 0 else 1 + LineEnd(bytes[1..])
  }

  lemma LineEndUnique(line: seq<Byte>, rest: seq<Byte>)
    requires NEWLINE !in line
    ensures LineEnd(line + [NEWLINE] + rest) == |line|
  {
    var all := line + [NEWLINE] + rest;
    assert forall i :: 0 <= i < |line| ==> all[i] == line[i] && line[i] in line;
    assert all[|line|] == NEWLINE;
  }

  // The pieces between newlines that are not empty, in order.
  function Lines(bytes: seq<Byte>): seq<seq<Byte>>
    decreases |bytes|
  {
    if bytes == [] then []
    else
      var n := LineEnd(bytes);
      var rest := if n < |bytes| then Lines(bytes[n + 1..]) else [];
      if n == 0 then rest else [bytes[..n]] + rest
  }

  ghost function Encoded(enc: Frame -> seq<Byte>, frames: seq<Frame>): seq<seq<Byte>> {
    if frames == [] then [] else [enc(frames[0])] + Encoded(enc, frames[1..])
  }

  // Splitting a printed body and dropping empty pieces gives back the encoded frames.
  lemma {:induction false} LinesOfBody(enc: Frame -> seq<Byte>, dec: seq<Byte> -> Option<Frame>, frames: seq<Frame>)
    requires Codec(enc, dec)
    ensures Lines(Body(enc, frames)) == Encoded(enc, frames)
  {
    if frames != [] {
      var line, rest := enc(frames[0]), Body(enc, frames[1..]);
      var all := line + [NEWLINE] + rest;
      LinesOfBody(enc, dec, frames[1..]);
      LineEndUnique(line, rest);
      assert line != [] by { assert dec(line) == Some(frames[0]); }
      assert all[..|line|] == line && all[|line| + 1..] == rest;
    }
  }

  // ---- scanning ----

  datatype Scan = Scanned(found: bool) | Undecodable | WrongLease(got: LeaseId)

  ghost function ScanLines(dec: seq<Byte> -> Option<Frame>, lines: seq<seq<Byte>>, expected: LeaseId,
                           terminalSeen: bool): Scan
  {
    if lines == [] then Scanned(false)
    else
      match dec(lines[0])
      case None => Undecodable
      case Some(f) =>
        if f.lease != expected then WrongLease(f.lease)
        else if terminalSeen then Scanned(true)
        else ScanLines(dec, lines[1..], expected, f.Terminal())
  }

  // The bytes after the first line.
  function AfterLine(bytes: seq<Byte>): seq<Byte> {
    var n := LineEnd(bytes);
    if n < |bytes| then bytes[n + 1..] else []
  }

  lemma LinesStep(bytes: seq<Byte>)
    requires bytes != []
    ensures var line := bytes[..LineEnd(bytes)];
            Lines(bytes) == if line == [] then Lines(AfterLine(bytes)) else [line] + Lines(AfterLine(bytes))
  {
    if LineEnd(bytes) == |bytes| { assert Lines([]) == []; }
  }

  lemma ScanStep(dec: seq<Byte> -> Option<Frame>, line: seq<Byte>, lines: seq<seq<Byte>>, expected: LeaseId, seen: bool)
    ensures ScanLines(dec, [line] + lines, expected, seen) ==
            match dec(line)
            case None => Undecodable
            case Some(f) =>
              if f.lease != expected then WrongLease(f.lease)
              else if seen then Scanned(true)
              else ScanLines(dec, lines, expected, f.Terminal())
  {
    assert ([line] + lines)[1..] == lines;
  }

  method HasFrameAfterTerminal(dec: seq<Byte> -> Option<Frame>, bytes: seq<Byte>, expected: LeaseId) returns (r: Scan)
    ensures r == ScanLines(dec, Lines(bytes), expected, false)
  {
    var rest, terminalSeen := bytes, false;
    while rest != []
      invariant ScanLines(dec, Lines(bytes), expected, false) == ScanLines(dec, Lines(rest), expected, terminalSeen)
      decreases |rest|
    {
      LinesStep(rest);
      var line := rest[..LineEnd(rest)];
      rest := AfterLine(rest);
      if line == [] { continue; }
      ScanStep(dec, line, Lines(rest), expected, terminalSeen);
      var frame := dec(line);
      if frame.None? { return Undecodable; }
      if frame.value.lease != expected { return WrongLease(frame.value.lease); }
      if terminalSeen { return Scanned(true); }
      terminalSeen := frame.value.Terminal();
    }
    r := Scanned(false);
  }

  ghost predicate AllLeased(frames: seq<Frame>, lease: LeaseId) {
    forall i :: 0 <= i < |frames| ==> frames[i].lease == lease
  }

  ghost predicate FrameAfterTerminal(frames: seq<Frame>) {
    exists i :: 0 <= i < |frames| - 1 && frames[i].Terminal()
  }

  // The scanner finds a frame after a terminal one exactly when there is one.
  lemma {:induction false} ScanExact(enc: Frame -> seq<Byte>, dec: seq<Byte> -> Option<Frame>, frames: seq<Frame>,
                                     expected: LeaseId, seen: bool)
    requires Codec(enc, dec) && AllLeased(frames, expected)
    ensures ScanLines(dec, Encoded(enc, frames), expected, seen) ==
            Scanned((seen && frames != []) || FrameAfterTerminal(frames))
  {
    if frames != [] {
      assert dec(enc(frames[0])) == Some(frames[0]);
      if !seen {
        ScanExact(enc, dec, frames[1..], expected, frames[0].Terminal());
        if FrameAfterTerminal(frames) {
          var i :| 0 <= i < |frames| - 1 && frames[i].Terminal();
          if i > 0 { assert frames[1..][i - 1].Terminal(); }
        }
        if FrameAfterTerminal(frames[1..]) {
          var i :| 0 <= i < |frames| - 2 && frames[1..][i].Terminal();
          assert frames[i + 1].Terminal();
        }
      }
    }
  }

  lemma ScanBody(enc: Frame -> seq<Byte>, dec: seq<Byte> -> Option<Frame>, frames: seq<Frame>, expected: LeaseId)
    requires Codec(enc, dec) && AllLeased(frames, expected)
    ensures ScanLines(dec, Lines(Body(enc, frames)), expected, false) == Scanned(FrameAfterTerminal(frames))
  {
    LinesOfBody(enc, dec, frames);
    ScanExact(enc, dec, frames, expected, false);
  }

  // ---- what the handler prints ----

  // The request payload did not decode, or the backup ran.
  datatype Handled = Undecoded | Ran(result: Result)

  function HandlerFrames(lease: LeaseId, handled: Handled, started: string, reply: string): (frames: seq<Frame>) {
    match handled
    case Undecoded => [Error(lease, 0, MalformedWorkerResultClass, reply)]
    case Ran(Ok(_)) => [Progress(lease, 0, started), Completed(lease, 1, reply)]
    case Ran(ArtifactUnavailable) => [Progress(lease, 0, started), Error(lease, 1, ArtifactUnavailableClass, reply)]
    case Ran(BackupFailure) => [Progress(lease, 0, started), Error(lease, 1, BackupFailureClass, reply)]
  }

  // Numbered from `first` on, one terminal frame, and that one last.
  ghost predicate WellFormed(frames: seq<Frame>, lease: LeaseId, first: nat) {
    && frames != [] && AllLeased(frames, lease)
    && (forall i :: 0 <= i < |frames| ==> frames[i].number == first + i)
    && (forall i :: 0 <= i < |frames| ==> (frames[i].Terminal() <==> i == |frames| - 1))
  }

  lemma HandlerWellFormed(enc: Frame -> seq<Byte>, dec: seq<Byte> -> Option<Frame>, lease: LeaseId, handled: Handled,
                          started: string, reply: string)
    requires Codec(enc, dec)
    ensures var frames := HandlerFrames(lease, handled, started, reply);
            && WellFormed(frames, lease, 0)
            && Lines(Body(enc, frames)) == Encoded(enc, frames)
            && ScanLines(dec, Lines(Body(enc, frames)), lease, false) == Scanned(false)
            && (frames[|frames| - 1].Completed? <==> handled.Ran? && handled.result.Ok?)
  {
    var frames := HandlerFrames(lease, handled, started, reply);
    LinesOfBody(enc, dec, frames);
    ScanBody(enc, dec, frames, lease);
  }

  // What the frames say: the class of the failure is that of the backup's result.
  lemma HandlerSays(lease: LeaseId, handled: Handled, started: string, reply: string)
    ensures var frames := HandlerFrames(lease, handled, started, reply);
            var last := frames[|frames| - 1];
            && last.text == reply
            && (handled.Undecoded? ==> |frames| == 1 && last.Error? && last.failure == MalformedWorkerResultClass)
            && (handled.Ran? ==> |frames| == 2 && frames[0].Progress? && frames[0].text == started)
            && (handled.Ran? && handled.result.ArtifactUnavailable? ==>
                  last.Error? && last.failure == ArtifactUnavailableClass)
            && (handled.Ran? && handled.result.BackupFailure? ==> last.Error? && last.failure == BackupFailureClass)
  {
  }

  // `handle_operation` on a disk: a payload that does not decode touches nothing; otherwise the
  // body reports what the backup did.
  method HandleOperation(h: seq<Byte> -> Digest, enc: Frame -> seq<Byte>, d0: Disk, j: Job, f: Faults, decodes: bool,
                         lease: LeaseId, started: string, reply: string)
    returns (d: Disk, body: seq<Byte>, frames: seq<Frame>)
    requires CollisionFree(h) && Valid(d0)
    requires IsRegular(d0, j.source) && j.destination.Entry? ==> Setting(d0, j)
    requires f.destStat ==> j.source != j.destination
    ensures body == Body(enc, frames) && WellFormed(frames, lease, 0)
    ensures !decodes ==> d == d0 && frames == [Error(lease, 0, MalformedWorkerResultClass, reply)]
    ensures decodes ==> |frames| == 2 && frames[0] == Progress(lease, 0, started)
    ensures decodes ==> (frames[1].Completed? <==> Succeeds(d0, j, f))
    ensures decodes && frames[1].Completed? ==> Holds(d, j.destination, j.content)
    ensures decodes && !IsRegular(d0, j.source) ==> frames[1] == Error(lease, 1, ArtifactUnavailableClass, reply)
    ensures decodes && IsRegular(d0, j.source) && !f.sourceStat && (j.destination.Top? || f.makeDir) ==>
              frames[1] == Error(lease, 1, BackupFailureClass, reply)
  {
    if !decodes {
      d, frames := d0, HandlerFrames(lease, Undecoded, started, reply);
    } else {
      var r, steps;
      d, r, steps := BackUpFile(h, d0, j, f);
      frames := HandlerFrames(lease, Ran(r), started, reply);
    }
    body := BodyFromFrames(enc, frames);
  }

  // ---- the scan, line by line ----

  // What the scan makes of the first line of a body: an empty one is skipped; then come decoding,
  // the lease, and whether a terminal frame went before.
  lemma ScanFirstLine(dec: seq<Byte> -> Option<Frame>, line: seq<Byte>, rest: seq<Byte>, expected: LeaseId, seen: bool)
    requires NEWLINE !in line
    ensures var r := ScanLines(dec, Lines(line + [NEWLINE] + rest), expected, seen);
            if line == [] then r == ScanLines(dec, Lines(rest), expected, seen)
            else match dec(line)
                 case None => r == Undecodable
                 case Some(f) =>
                   if f.lease != expected then r == WrongLease(f.lease)
                   else if seen then r == Scanned(true)
                   else r == ScanLines(dec, Lines(rest), expected, !f.Progress?)
  {
    var all := line + [NEWLINE] + rest;
    LineEndUnique(line, rest);
    assert all[..|line|] == line && all[|line| + 1..] == rest;
  }

  // And of a last line without a newline.
  lemma ScanLastLine(dec: seq<Byte> -> Option<Frame>, line: seq<Byte>, expected: LeaseId, seen: bool)
    requires NEWLINE !in line
    ensures ScanLines(dec, Lines(line), expected, seen) ==
            if line == [] then Scanned(false)
            else match dec(line)
                 case None => Undecodable
                 case Some(f) => if f.lease != expected then WrongLease(f.lease) else Scanned(seen)
  {
    if line != [] {
      assert LineEnd(line) == |line| && line[..|line|] == line;
      assert Lines(line) == [line] + [];
    }
  }
}
