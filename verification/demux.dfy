/** The demultiplexer of the container log stream (`parseLogs`, index.js).
    A non-TTY container's attached output arrives as records of an 8-byte
    header (byte 0 selects the stream, bytes 4-7 hold the payload length as a
    big-endian unsigned 32-bit integer) followed by the payload. */
module LogDemux {
  import opened Seqs

  type Byte = b: int | 0 <= b < 256

  const HeaderSize: nat := 8
  const StdoutSelector: Byte := 1
  const StderrSelector: Byte := 2

  datatype Streams = Streams(stdout: seq<Byte>, stderr: seq<Byte>)

  const NoOutput := Streams([], [])

  /** `Buffer.readUInt32BE(at)`. */
  function ReadUInt32BE(b: seq<Byte>, at: nat): (v: nat)
    requires at + 4 <= |b|
  {
    (b[at] as int) * 0x100_0000 + (b[at + 1] as int) * 0x1_0000
      + (b[at + 2] as int) * 0x100 + b[at + 3] as int
  }

  /** Frame walk over the unread part of the buffer: the accumulating loop
      of `parseLogs`, stated recursively. It stops at a header shorter than
      eight bytes or a payload running past the end; a frame with a selector
      other than 1 or 2 contributes nothing but is still stepped over. */
  function Walk(rest: seq<Byte>): Streams
    decreases |rest|
  {
    if |rest| < HeaderSize then NoOutput
    else
      var size := ReadUInt32BE(rest, 4);
      if HeaderSize + size > |rest| then NoOutput
      else
        var payload := rest[HeaderSize..HeaderSize + size];
        var after := Walk(rest[HeaderSize + size..]);
        if rest[0] == StdoutSelector then Streams(payload + after.stdout, after.stderr)
        else if rest[0] == StderrSelector then Streams(after.stdout, payload + after.stderr)
        else after
  }

  function AsciiBytes(s: string): (b: seq<Byte>)
    requires forall i :: 0 <= i < |s| ==> s[i] as int < 128
    ensures |b| == |s| && forall i :: 0 <= i < |s| ==> b[i] == s[i] as int
  {
    seq(|s|, i requires 0 <= i < |s| => s[i] as int)
  }

  /** The case-sensitive keywords of the fallback classification. An ASCII
      byte always decodes to its own character, so looking for them in the
      raw bytes is the same as looking for them in the decoded text. */
  predicate HasErrorKeyword(logs: seq<Byte>) {
    || Contains(logs, AsciiBytes("error"))
    || Contains(logs, AsciiBytes("Error"))
    || Contains(logs, AsciiBytes("Exception"))
  }

  /** Reference definition of `parseLogs`: the frame walk, or, when it put no
      byte in either stream, the whole raw buffer classified by keyword. */
  function Demux(logs: seq<Byte>): Streams {
    var w := Walk(logs);
    if w.stdout != [] || w.stderr != [] then w
    else if HasErrorKeyword(logs) then Streams([], logs)
    else Streams(logs, [])
  }

  /** The offset loop of `parseLogs` as written. */
  method ParseLogs(logs: seq<Byte>) returns (r: Streams)
    ensures r == Demux(logs)
  {
    var stdout: seq<Byte> := [];
    var stderr: seq<Byte> := [];
    var offset := 0;
    assert logs[offset..] == logs;
    while offset < |logs|
      invariant 0 <= offset <= |logs|
      invariant Walk(logs) == Streams(stdout + Walk(logs[offset..]).stdout,
                                      stderr + Walk(logs[offset..]).stderr)
      decreases |logs| - offset
    {
      if offset + HeaderSize > |logs| {
        WalkStopsAt(logs, offset);
        break;
      }
      var size := ReadUInt32BE(logs, offset + 4);
      if offset + HeaderSize + size > |logs| {
        WalkStopsAt(logs, offset);
        break;
      }
      var content := logs[offset + HeaderSize..offset + HeaderSize + size];
      ghost var after := Walk(logs[offset + HeaderSize + size..]);
      WalkStepsAt(logs, offset);
      if logs[offset] == StdoutSelector {
        assert Walk(logs[offset..]) == Streams(content + after.stdout, after.stderr);
        ConcatAssoc(stdout, content, after.stdout);
        stdout := stdout + content;
      } else if logs[offset] == StderrSelector {
        assert Walk(logs[offset..]) == Streams(after.stdout, content + after.stderr);
        ConcatAssoc(stderr, content, after.stderr);
        stderr := stderr + content;
      } else {
        assert Walk(logs[offset..]) == after;
      }
      offset := offset + HeaderSize + size;
    }
    if offset == |logs| {
      WalkDone(logs, offset);
    }
    assert Walk(logs) == Streams(stdout, stderr);
    if stdout == [] && stderr == [] {
      if HasErrorKeyword(logs) {
        stderr := logs;
      } else {
        stdout := logs;
      }
    }
    r := Streams(stdout, stderr);
  }

  lemma WalkDone(logs: seq<Byte>, offset: nat)
    requires offset == |logs|
    ensures Walk(logs[offset..]) == NoOutput
  {
    assert logs[offset..] == [];
  }

  /** Where the loop breaks, the walk of the unread part yields nothing. */
  lemma WalkStopsAt(logs: seq<Byte>, offset: nat)
    requires offset <= |logs|
    requires offset + HeaderSize > |logs| || offset + HeaderSize + ReadUInt32BE(logs, offset + 4) > |logs|
    ensures Walk(logs[offset..]) == NoOutput
  {
    var rest := logs[offset..];
    if |rest| >= HeaderSize {
      assert ReadUInt32BE(logs, offset + 4) == ReadUInt32BE(rest, 4);
    }
  }

  /** One iteration of the loop is one step of the walk. */
  lemma WalkStepsAt(logs: seq<Byte>, offset: nat)
    requires offset + HeaderSize <= |logs|
    requires offset + HeaderSize + ReadUInt32BE(logs, offset + 4) <= |logs|
    ensures var size := ReadUInt32BE(logs, offset + 4);
      var content := logs[offset + HeaderSize..offset + HeaderSize + size];
      var after := Walk(logs[offset + HeaderSize + size..]);
      Walk(logs[offset..]) ==
        if logs[offset] == StdoutSelector then Streams(content + after.stdout, after.stderr)
        else if logs[offset] == StderrSelector then Streams(after.stdout, content + after.stderr)
        else after
  {
    var rest := logs[offset..];
    var size := ReadUInt32BE(logs, offset + 4);
    assert size == ReadUInt32BE(rest, 4);
    assert logs[offset + HeaderSize..offset + HeaderSize + size] == rest[HeaderSize..HeaderSize + size];
    assert logs[offset + HeaderSize + size..] == rest[HeaderSize + size..];
    assert rest[0] == logs[offset];
  }

  /** One record as a container writes it. */
  datatype Frame = Frame(selector: Byte, reserved: seq<Byte>, payload: seq<Byte>)

  predicate ValidFrame(f: Frame) {
    |f.reserved| == 3 && |f.payload| < 0x1_0000_0000
  }

  predicate ValidFrames(fs: seq<Frame>) {
    forall i :: 0 <= i < |fs| ==> ValidFrame(fs[i])
  }

  function UInt32BE(n: nat): (b: seq<Byte>)
    requires n < 0x1_0000_0000
    ensures |b| == 4
  {
    var hi := n / 0x1_0000;
    var lo := n % 0x1_0000;
    [hi / 0x100, hi % 0x100, lo / 0x100, lo % 0x100]
  }

  lemma ReadUInt32BEInverse(n: nat)
    requires n < 0x1_0000_0000
    ensures ReadUInt32BE(UInt32BE(n), 0) == n
  {
    var hi := n / 0x1_0000;
    var lo := n % 0x1_0000;
    assert n == hi * 0x1_0000 + lo;
    assert hi == (hi / 0x100) * 0x100 + hi % 0x100;
    assert lo == (lo / 0x100) * 0x100 + lo % 0x100;
  }

  function EncodeFrame(f: Frame): (b: seq<Byte>)
    requires ValidFrame(f)
  {
    [f.selector] + f.reserved + UInt32BE(|f.payload|) + f.payload
  }

  function Encode(fs: seq<Frame>): seq<Byte>
    requires ValidFrames(fs)
  {
    if fs == [] then [] else EncodeFrame(fs[0]) + Encode(fs[1..])
  }

  /** The payloads of the frames with selector `sel`, concatenated in order. */
  function PayloadsOf(fs: seq<Frame>, sel: Byte): seq<Byte> {
    if fs == [] then []
    else (if fs[0].selector == sel then fs[0].payload else []) + PayloadsOf(fs[1..], sel)
  }

  /** Walking one encoded frame and then whatever follows. */
  lemma WalkOneFrame(f: Frame, tail: seq<Byte>)
    requires ValidFrame(f)
    ensures Walk(EncodeFrame(f) + tail) ==
      Streams((if f.selector == StdoutSelector then f.payload else []) + Walk(tail).stdout,
              (if f.selector == StderrSelector then f.payload else []) + Walk(tail).stderr)
  {
    var size := |f.payload|;
    var header := [f.selector] + f.reserved + UInt32BE(size);
    var b := EncodeFrame(f) + tail;
    assert b == header + (f.payload + tail);
    assert |header| == HeaderSize;
    assert b[4..8] == UInt32BE(size);
    ReadUInt32BEInverse(size);
    assert ReadUInt32BE(b, 4) == ReadUInt32BE(UInt32BE(size), 0);
    assert b[HeaderSize..HeaderSize + size] == f.payload;
    assert b[HeaderSize + size..] == tail;
    assert b[0] == f.selector;
  }

  lemma EncodeCons(fs: seq<Frame>, tail: seq<Byte>)
    requires ValidFrames(fs) && fs != []
    ensures Encode(fs) + tail == EncodeFrame(fs[0]) + (Encode(fs[1..]) + tail)
  {
    var a := EncodeFrame(fs[0]);
    var b := Encode(fs[1..]);
    assert Encode(fs) == a + b;
    ConcatAssoc(a, b, tail);
  }

  /** A buffer of complete frames followed by anything: the frames contribute
      their payloads stream by stream, in order, whatever the interleaving;
      header bytes 1-3 play no part. */
  lemma {:induction false} WalkFrames(fs: seq<Frame>, tail: seq<Byte>)
    requires ValidFrames(fs)
    ensures Walk(Encode(fs) + tail) ==
      Streams(PayloadsOf(fs, StdoutSelector) + Walk(tail).stdout,
              PayloadsOf(fs, StderrSelector) + Walk(tail).stderr)
    decreases |fs|
  {
    if fs == [] {
      assert Encode(fs) + tail == tail;
    } else {
      var f := fs[0];
      var rest := Encode(fs[1..]) + tail;
      EncodeCons(fs, tail);
      WalkOneFrame(f, rest);
      WalkFrames(fs[1..], tail);
      var w := Walk(tail);
      var out1 := if f.selector == StdoutSelector then f.payload else [];
      var err1 := if f.selector == StderrSelector then f.payload else [];
      assert PayloadsOf(fs, StdoutSelector) == out1 + PayloadsOf(fs[1..], StdoutSelector);
      assert PayloadsOf(fs, StderrSelector) == err1 + PayloadsOf(fs[1..], StderrSelector);
      ConcatAssoc(out1, PayloadsOf(fs[1..], StdoutSelector), w.stdout);
      ConcatAssoc(err1, PayloadsOf(fs[1..], StderrSelector), w.stderr);
    }
  }

  /** Demultiplexing order: on a buffer of complete frames, stdout is the
      concatenation of the selector-1 payloads and stderr that of the
      selector-2 payloads, unless both are empty and the fallback applies. */
  lemma DemuxOrder(fs: seq<Frame>)
    requires ValidFrames(fs)
    ensures var out := PayloadsOf(fs, StdoutSelector);
            var err := PayloadsOf(fs, StderrSelector);
            (out != [] || err != []) ==> Demux(Encode(fs)) == Streams(out, err)
  {
    WalkFrames(fs, []);
    assert Encode(fs) + [] == Encode(fs);
  }

  /** A header shorter than eight bytes, or one announcing more payload than
      remains, ends the walk. */
  predicate Truncated(tail: seq<Byte>) {
    |tail| < HeaderSize || HeaderSize + ReadUInt32BE(tail, 4) > |tail|
  }

  /** Nothing from the point where the walk stops onwards contributes. */
  lemma TruncatedTailIgnored(fs: seq<Frame>, tail: seq<Byte>)
    requires ValidFrames(fs) && tail != [] && Truncated(tail)
    ensures Walk(Encode(fs) + tail) == Walk(Encode(fs))
  {
    WalkFrames(fs, tail);
    WalkFrames(fs, []);
    assert Encode(fs) + [] == Encode(fs);
  }

  /** Fallback: when the walk yields no byte at all, the whole raw buffer,
      headers included, goes to stderr exactly when it contains one of the
      keywords, and to stdout otherwise. */
  lemma FallbackClassification(logs: seq<Byte>)
    requires Walk(logs) == NoOutput
    ensures HasErrorKeyword(logs) ==> Demux(logs) == Streams([], logs)
    ensures !HasErrorKeyword(logs) ==> Demux(logs) == Streams(logs, [])
  {
  }

  /** A buffer with only empty-payload or unselected frames falls back. */
  lemma SilentFramesFallBack(fs: seq<Frame>)
    requires ValidFrames(fs)
    requires PayloadsOf(fs, StdoutSelector) == [] && PayloadsOf(fs, StderrSelector) == []
    ensures Demux(Encode(fs)) == (if HasErrorKeyword(Encode(fs)) then Streams([], Encode(fs))
                                  else Streams(Encode(fs), []))
  {
    WalkFrames(fs, []);
    assert Encode(fs) + [] == Encode(fs);
  }
}
